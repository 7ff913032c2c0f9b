/** Image references and environment placeholders, as the contract refresh reads them. */
module ImageReferences {
  import opened Wrappers

  /** The first position of `c` at or after `from`, if any. */
  function Find(s: string, c: char, from: nat): (i: Option<nat>)
    requires from <= |s|
    ensures i.Some? ==> from <= i.value < |s| && s[i.value] == c && forall j :: from <= j < i.value ==> s[j] != c
    ensures i.None? ==> forall j :: from <= j < |s| ==> s[j] != c
    decreases |s| - from
  {
    if from == |s| then None
    else if s[from] == c then Some(from)
    else Find(s, c, from + 1)
  }

  lemma FindFirst(s: string, c: char, from: nat, i: nat)
    requires from <= i < |s| && s[i] == c && forall j :: from <= j < i ==> s[j] != c
    ensures Find(s, c, from) == Some(i)
  {
    assert Find(s, c, from).Some?;
  }

  /** The position after the last `c`; zero when there is none. */
  function AfterLast(s: string, c: char): (i: nat)
    ensures i <= |s| && (i > 0 ==> s[i - 1] == c) && forall j :: i <= j < |s| ==> s[j] != c
  {
    if s == "" then 0
    else if s[|s| - 1] == c then |s|
    else AfterLast(s[..|s| - 1], c)
  }

  /** The `registry/repo` part of an image reference, without tag or digest. */
  function ImageRepo(image: string): string {
    var at := Find(image, '@', 0);
    var ref := if at.Some? then image[..at.value] else image;
    var colon := Find(ref, ':', AfterLast(ref, '/'));
    if colon.Some? then ref[..colon.value] else ref
  }

  const PIN := "@sha256:"

  predicate OccursAt(part: string, s: string, i: nat) {
    i + |part| <= |s| && s[i..i + |part|] == part
  }

  predicate IsDigestPin(image: string) {
    exists i: nat :: i <= |image| && OccursAt(PIN, image, i)
  }

  /** A stored tag survives a compose file that pins the same repository by digest. */
  function ReconcileImage(stored: string, compose: string): string {
    if IsDigestPin(compose) && !IsDigestPin(stored) && ImageRepo(compose) == ImageRepo(stored)
    then stored else compose
  }

  /** A repository reference proper: no digest, and no tag after its last slash. */
  predicate PlainRepo(repo: string) {
    '@' !in repo && forall j :: AfterLast(repo, '/') <= j < |repo| ==> repo[j] != ':'
  }

  /** Nothing, or a colon and a tag. */
  predicate TagPart(tail: string) {
    '@' !in tail && '/' !in tail && (tail != "" ==> tail[0] == ':')
  }

  lemma {:induction false} AfterLastExtends(a: string, b: string, c: char)
    requires c !in b
    ensures AfterLast(a + b, c) == AfterLast(a, c)
    decreases |b|
  {
    if b == "" {
      assert a + b == a;
    } else {
      assert (a + b)[..|a + b| - 1] == a + b[..|b| - 1];
      AfterLastExtends(a, b[..|b| - 1], c);
    }
  }

  /** What a reference without digest is stripped to: its repository, even behind a registry with a port. */
  lemma RepoWithoutTag(repo: string, tail: string)
    requires PlainRepo(repo) && TagPart(tail)
    ensures ImageRepo(repo + tail) == repo
  {
    var ref := repo + tail;
    assert Find(ref, '@', 0).None?;
    AfterLastExtends(repo, tail, '/');
    if tail == "" {
      assert ref == repo;
    } else {
      FindFirst(ref, ':', AfterLast(ref, '/'), |repo|);
      assert ref[..|repo|] == repo;
    }
  }

  /** A digest behind the tag makes no difference. */
  lemma RepoWithoutDigest(repo: string, tail: string, digest: string)
    requires PlainRepo(repo) && TagPart(tail)
    ensures ImageRepo(repo + tail + "@" + digest) == repo
  {
    var ref := repo + tail;
    var image := ref + "@" + digest;
    RepoWithoutTag(repo, tail);
    assert Find(ref, '@', 0).None?;
    FindFirst(image, '@', 0, |ref|);
    assert image[..|ref|] == ref;
  }

  /** Reconciling the same compose image again over its own result changes nothing. */
  lemma ReconcileTwice(stored: string, compose: string)
    ensures ReconcileImage(ReconcileImage(stored, compose), compose) == ReconcileImage(stored, compose)
  {
  }

  // ---- Placeholders ------------------------------------------------------------------------------

  predicate Blank(c: char) {
    c == ' ' || c == '\t' || c == '\n' || c == '\r'
  }

  function Stripped(s: string): string
    decreases |s|
  {
    if s != "" && Blank(s[0]) then Stripped(s[1..])
    else if s != "" && Blank(s[|s| - 1]) then Stripped(s[..|s| - 1])
    else s
  }

  predicate NameStart(c: char) {
    'a' <= c <= 'z' || 'A' <= c <= 'Z' || c == '_'
  }

  predicate Identifier(s: string) {
    s != "" && NameStart(s[0]) && forall i :: 0 <= i < |s| ==> NameStart(s[i]) || '0' <= s[i] <= '9'
  }

  /** A bare variable reference: a dollar sign, then an identifier with optional braces on either side. */
  predicate VariableReference(s: string) {
    && |s| > 0 && s[0] == '$'
    && var body := if |s| > 1 && s[1] == '{' then s[2..] else s[1..];
    && body != ""
    && Identifier(if body[|body| - 1] == '}' then body[..|body| - 1] else body)
  }

  /** A compose value that carries no real setting. */
  predicate EffectivelyEmpty(value: string) {
    Stripped(value) == "" || VariableReference(Stripped(value))
  }

  // ---- What counts as a placeholder --------------------------------------------------------------

  predicate AllBlank(s: string) {
    forall i :: 0 <= i < |s| ==> s[i] == ' ' || s[i] == '\t' || s[i] == '\n' || s[i] == '\r'
  }

  predicate IsName(s: string) {
    && s != "" && !('0' <= s[0] <= '9')
    && forall i :: 0 <= i < |s| ==> 'a' <= s[i] <= 'z' || 'A' <= s[i] <= 'Z' || '0' <= s[i] <= '9' || s[i] == '_'
  }

  /** A dollar sign and a name, with or without a brace on either side. */
  predicate NamesVariable(core: string, name: string) {
    && IsName(name)
    && (core == "$" + name || core == "${" + name || core == "$" + name + "}" || core == "${" + name + "}")
  }

  /** Blanks around nothing, or around one bare reference to a variable. */
  predicate Placeholder(before: string, core: string, after: string, name: string) {
    AllBlank(before) && AllBlank(after) && (core == "" || NamesVariable(core, name))
  }

  lemma {:induction false} StrippedParts(s: string) returns (before: string, after: string)
    ensures s == before + Stripped(s) + after && AllBlank(before) && AllBlank(after)
    decreases |s|
  {
    if s != "" && Blank(s[0]) {
      before, after := StrippedParts(s[1..]);
      before := [s[0]] + before;
    } else if s != "" && Blank(s[|s| - 1]) {
      before, after := StrippedParts(s[..|s| - 1]);
      assert s == s[..|s| - 1] + [s[|s| - 1]];
      after := after + [s[|s| - 1]];
    } else {
      before, after := "", "";
    }
  }

  lemma {:induction false} StripsBlanks(before: string, core: string, after: string)
    requires AllBlank(before) && AllBlank(after)
    requires core != "" ==> !Blank(core[0]) && !Blank(core[|core| - 1])
    ensures Stripped(before + core + after) == core
    decreases |before| + |after|
  {
    var s := before + core + after;
    if before != "" {
      assert s[0] == before[0] && s[1..] == before[1..] + core + after;
      StripsBlanks(before[1..], core, after);
    } else if after != "" {
      var front := after[..|after| - 1];
      if core == "" {
        assert s == after && s[0] == after[0] && s[1..] == "" + "" + after[1..];
        StripsBlanks("", "", after[1..]);
      } else {
        assert s[0] == core[0] && s[|s| - 1] == after[|after| - 1] && s[..|s| - 1] == "" + core + front;
        StripsBlanks("", core, front);
      }
    } else {
      assert s == core;
    }
  }

  lemma ReferenceNames(core: string) returns (name: string)
    requires VariableReference(core)
    ensures NamesVariable(core, name)
  {
    var body := if |core| > 1 && core[1] == '{' then core[2..] else core[1..];
    name := if body[|body| - 1] == '}' then body[..|body| - 1] else body;
    assert core == (if |core| > 1 && core[1] == '{' then "${" else "$") + body;
  }

  lemma NameIsReference(core: string, name: string)
    requires NamesVariable(core, name)
    ensures VariableReference(core) && !Blank(core[0]) && !Blank(core[|core| - 1])
  {
    var open := |core| > 1 && core[1] == '{';
    var body := if open then core[2..] else core[1..];
    assert name[0] != '{' && name[|name| - 1] != '}';
    assert body == name || body == name + "}";
    assert body == name + "}" ==> body[..|body| - 1] == name;
  }

  /** A value counts as empty exactly when it is blanks around nothing or around one variable reference. */
  lemma {:induction false} EffectivelyEmptyMeans(value: string)
    ensures EffectivelyEmpty(value) <==>
      exists before, core, after, name :: value == before + core + after && Placeholder(before, core, after, name)
  {
    if EffectivelyEmpty(value) {
      var before, after := StrippedParts(value);
      var name := "";
      if Stripped(value) != "" { name := ReferenceNames(Stripped(value)); }
      assert Placeholder(before, Stripped(value), after, name);
    }
    if before, core, after, name :| value == before + core + after && Placeholder(before, core, after, name) {
      if core != "" { NameIsReference(core, name); }
      StripsBlanks(before, core, after);
    }
  }

  // ---- Which image a refresh ends with -----------------------------------------------------------

  ghost predicate PinnedByDigest(image: string) {
    exists a, b :: image == a + "@sha256:" + b
  }

  lemma PinMeans(image: string)
    ensures IsDigestPin(image) <==> PinnedByDigest(image)
  {
    if i: nat :| i <= |image| && OccursAt(PIN, image, i) {
      assert image == image[..i] + "@sha256:" + image[i + 8..];
    }
    if a, b :| image == a + "@sha256:" + b {
      assert OccursAt(PIN, image, |a|);
    }
  }

  /** The stored image stays if it is not pinned and the contract pins the same repository; else the contract's wins. */
  lemma ReconcileMeans(stored: string, compose: string)
    ensures ReconcileImage(stored, compose) ==
      if PinnedByDigest(compose) && !PinnedByDigest(stored) && ImageRepo(stored) == ImageRepo(compose)
      then stored else compose
  {
    PinMeans(stored);
    PinMeans(compose);
  }
}
