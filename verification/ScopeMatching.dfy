/** Colon-segmented glob scopes and the credentials they share between components. */
module ScopeMatching {

  // ---- Segments ----------------------------------------------------------------------------------

  /** Python's `split(":")`: never empty. */
  function Segments(s: string): (r: seq<string>)
    ensures |r| > 0
  {
    if s == "" then [""]
    else if s[0] == ':' then [""] + Segments(s[1..])
    else var rest := Segments(s[1..]); [[s[0]] + rest[0]] + rest[1..]
  }

  lemma {:induction false} PlainSegment(s: string)
    requires ':' !in s
    ensures Segments(s) == [s]
  {
    if s != "" {
      PlainSegment(s[1..]);
      assert [s[0]] + s[1..] == s;
    }
  }

  lemma {:induction false} SegmentsOfConcat(a: string, b: string)
    ensures Segments(a + ":" + b) == Segments(a) + Segments(b)
  {
    if a == "" {
      assert a + ":" + b == ":" + b;
      assert (":" + b)[1..] == b;
    } else {
      assert (a + ":" + b)[1..] == a[1..] + ":" + b;
      SegmentsOfConcat(a[1..], b);
    }
  }

  // ---- The matcher -------------------------------------------------------------------------------

  /** The recursive match with backtracking over what a `**` consumes. */
  predicate Match(ps: seq<string>, ss: seq<string>)
    decreases |ps|
  {
    if ps == [] then ss == []
    else if ps[0] == "**" then exists n :: 0 <= n <= |ss| && Match(ps[1..], ss[n..])
    else ss != [] && (ps[0] == "*" || ps[0] == ss[0]) && Match(ps[1..], ss[1..])
  }

  predicate ScopeMatches(pattern: string, scope: string) {
    pattern == "*" || Match(Segments(pattern), Segments(scope))
  }

  /** The same match on indices, with the loop that tries each length for a `**`. */
  method MatchFrom(ps: seq<string>, ss: seq<string>, pi: nat, si: nat) returns (matched: bool)
    requires pi <= |ps| && si <= |ss|
    ensures matched <==> Match(ps[pi..], ss[si..])
    decreases |ps| - pi
  {
    if pi == |ps| {
      return si == |ss|;
    }
    var pp := ps[pi];
    assert ps[pi..][1..] == ps[pi + 1..];
    if pp == "**" {
      for n := si to |ss| + 1
        invariant forall m :: si <= m < n ==> !Match(ps[pi + 1..], ss[m..])
      {
        var rest := MatchFrom(ps, ss, pi + 1, n);
        if rest {
          assert ss[si..][n - si..] == ss[n..];
          return true;
        }
      }
      forall k | 0 <= k <= |ss[si..]| ensures !Match(ps[pi + 1..], ss[si..][k..]) {
        assert ss[si..][k..] == ss[si + k..];
      }
      return false;
    }
    if si >= |ss| {
      return false;
    }
    assert ss[si..][1..] == ss[si + 1..];
    if pp == "*" || pp == ss[si] {
      matched := MatchFrom(ps, ss, pi + 1, si + 1);
      return;
    }
    return false;
  }

  method MatchScope(pattern: string, scope: string) returns (matched: bool)
    ensures matched <==> ScopeMatches(pattern, scope)
  {
    if pattern == "*" {
      return true;
    }
    var ps, ss := Segments(pattern), Segments(scope);
    matched := MatchFrom(ps, ss, 0, 0);
    assert ps[0..] == ps && ss[0..] == ss;
  }

  // ---- What a pattern means ----------------------------------------------------------------------

  /** The run of scope segments that one pattern segment may stand for. */
  predicate StandsFor(p: string, run: seq<string>) {
    if p == "**" then true
    else if p == "*" then |run| == 1
    else run == [p]
  }

  function Joined(runs: seq<seq<string>>): seq<string> {
    if runs == [] then [] else runs[0] + Joined(runs[1..])
  }

  predicate Explains(ps: seq<string>, runs: seq<seq<string>>) {
    |runs| == |ps| && forall i :: 0 <= i < |ps| ==> StandsFor(ps[i], runs[i])
  }

  lemma {:induction false} MatchHasRuns(ps: seq<string>, ss: seq<string>) returns (runs: seq<seq<string>>)
    requires Match(ps, ss)
    ensures Explains(ps, runs) && Joined(runs) == ss
    decreases |ps|
  {
    if ps == [] {
      runs := [];
    } else {
      var n := 1;
      if ps[0] == "**" {
        n :| 0 <= n <= |ss| && Match(ps[1..], ss[n..]);
      }
      var rest := MatchHasRuns(ps[1..], ss[n..]);
      runs := [ss[..n]] + rest;
      assert runs[1..] == rest && ss == ss[..n] + ss[n..];
      forall i | 0 <= i < |ps| ensures StandsFor(ps[i], runs[i]) {
        if i > 0 {
          assert ps[i] == ps[1..][i - 1];
        }
      }
    }
  }

  lemma {:induction false} RunsMatch(ps: seq<string>, runs: seq<seq<string>>)
    requires Explains(ps, runs)
    ensures Match(ps, Joined(runs))
    decreases |ps|
  {
    if ps != [] {
      var ss := Joined(runs);
      assert Explains(ps[1..], runs[1..]);
      RunsMatch(ps[1..], runs[1..]);
      assert ss[|runs[0]|..] == Joined(runs[1..]);
      assert StandsFor(ps[0], runs[0]);
    }
  }

  /**
   * The matcher is sound and complete for its meaning: the scope's segments split into
   * consecutive runs, one per pattern segment, apart from the bare `*` that matches everything.
   */
  lemma MatchesExactly(pattern: string, scope: string)
    ensures ScopeMatches(pattern, scope) <==>
      pattern == "*" || exists runs :: Explains(Segments(pattern), runs) && Joined(runs) == Segments(scope)
  {
    if Match(Segments(pattern), Segments(scope)) {
      var runs := MatchHasRuns(Segments(pattern), Segments(scope));
    }
    if runs :| Explains(Segments(pattern), runs) && Joined(runs) == Segments(scope) {
      RunsMatch(Segments(pattern), runs);
    }
  }

  predicate Literal(ps: seq<string>) {
    forall i :: 0 <= i < |ps| ==> ps[i] != "*" && ps[i] != "**"
  }

  lemma {:induction false} LiteralThenAny(ps: seq<string>, ss: seq<string>)
    requires Literal(ps)
    ensures Match(ps + ["**"], ss) <==> ps <= ss
  {
    var qs := ps + ["**"];
    if ps == [] {
      assert qs[1..] == [];
      assert ss[|ss|..] == [] && Match([], ss[|ss|..]);
    } else {
      assert qs[1..] == ps[1..] + ["**"];
      if ss != [] {
        LiteralThenAny(ps[1..], ss[1..]);
        assert ps == [ps[0]] + ps[1..] && ss == [ss[0]] + ss[1..];
      }
    }
  }

  /** `p:**` matches p and everything below it, and nothing else. */
  lemma SubtreePattern(p: string, scope: string)
    requires Literal(Segments(p))
    ensures ScopeMatches(p + ":**", scope) <==> Segments(p) <= Segments(scope)
  {
    SegmentsOfConcat(p, "**");
    PlainSegment("**");
    assert p + ":**" == p + ":" + "**";
    LiteralThenAny(Segments(p), Segments(scope));
  }

  // ---- Resolving consumed credentials ------------------------------------------------------------

  /** One component's entry: plain values, decrypted non-empty secrets, and the scope tags of both. */
  datatype Entry = Entry(
    env: map<string, string>,
    secrets: map<string, string>,
    envScopes: map<string, string>,
    secretScopes: map<string, string>)

  predicate Consumed(scopes: seq<string>, scope: string) {
    scope != "" && exists i :: 0 <= i < |scopes| && ScopeMatches(scopes[i], scope)
  }

  predicate SharesEnv(e: Entry, scopes: seq<string>, key: string) {
    key in e.envScopes && Consumed(scopes, e.envScopes[key])
  }

  predicate SharesSecret(e: Entry, scopes: seq<string>, key: string) {
    key in e.secretScopes && Consumed(scopes, e.secretScopes[key]) && key in e.secrets
  }

  predicate Shares(e: Entry, scopes: seq<string>, key: string) {
    SharesEnv(e, scopes, key) || SharesSecret(e, scopes, key)
  }

  /** What one entry adds for a key it shares: the secret wins over the plain value. */
  function SharedValue(e: Entry, scopes: seq<string>, key: string): string
    requires Shares(e, scopes, key)
  {
    if SharesSecret(e, scopes, key) then e.secrets[key]
    else if key in e.env then e.env[key] else ""
  }

  method AnyMatches(scopes: seq<string>, scope: string) returns (any: bool)
    ensures any <==> exists i :: 0 <= i < |scopes| && ScopeMatches(scopes[i], scope)
  {
    for i := 0 to |scopes|
      invariant forall j :: 0 <= j < i ==> !ScopeMatches(scopes[j], scope)
    {
      var m := MatchScope(scopes[i], scope);
      if m { return true; }
    }
    return false;
  }

  method AddEnv(e: Entry, scopes: seq<string>, start: map<string, string>) returns (r: map<string, string>)
    ensures r.Keys == start.Keys + set k | k in e.envScopes && SharesEnv(e, scopes, k)
    ensures forall k :: k in r ==>
      r[k] == if SharesEnv(e, scopes, k) then (if k in e.env then e.env[k] else "") else start[k]
  {
    r := start;
    var todo := e.envScopes.Keys;
    while todo != {}
      invariant todo <= e.envScopes.Keys
      invariant forall k :: k in r <==> k in start || (k in e.envScopes.Keys - todo && SharesEnv(e, scopes, k))
      invariant forall k :: k in r ==>
        r[k] == if k !in todo && SharesEnv(e, scopes, k) then (if k in e.env then e.env[k] else "") else start[k]
      decreases todo
    {
      var key :| key in todo;
      todo := todo - {key};
      if e.envScopes[key] != "" {
        var m := AnyMatches(scopes, e.envScopes[key]);
        if m {
          r := r[key := if key in e.env then e.env[key] else ""];
        }
      }
    }
  }

  method AddSecrets(e: Entry, scopes: seq<string>, start: map<string, string>) returns (r: map<string, string>)
    ensures r.Keys == start.Keys + set k | k in e.secretScopes && SharesSecret(e, scopes, k)
    ensures forall k :: k in r ==> r[k] == if SharesSecret(e, scopes, k) then e.secrets[k] else start[k]
  {
    r := start;
    var todo := e.secretScopes.Keys;
    while todo != {}
      invariant todo <= e.secretScopes.Keys
      invariant forall k :: k in r <==> k in start || (k in e.secretScopes.Keys - todo && SharesSecret(e, scopes, k))
      invariant forall k :: k in r ==>
        r[k] == if k !in todo && SharesSecret(e, scopes, k) then e.secrets[k] else start[k]
      decreases todo
    {
      var key :| key in todo;
      todo := todo - {key};
      if e.secretScopes[key] != "" {
        var m := AnyMatches(scopes, e.secretScopes[key]);
        if m && key in e.secrets {
          r := r[key := e.secrets[key]];
        }
      }
    }
  }

  /** The last component in store order that shares a key decides its value; the consumer itself never counts. */
  function LastSharer(data: map<string, Entry>, order: seq<string>, consumer: string, scopes: seq<string>, key: string)
    : (i: int)
    requires forall n :: n in order ==> n in data
    ensures -1 <= i < |order|
    ensures i >= 0 ==> order[i] != consumer && Shares(data[order[i]], scopes, key)
    ensures forall j :: i < j < |order| ==> order[j] == consumer || !Shares(data[order[j]], scopes, key)
  {
    if order == [] then -1 else
    var m := |order| - 1;
    if order[m] != consumer && Shares(data[order[m]], scopes, key) then m
    else LastSharer(data, order[..m], consumer, scopes, key)
  }

  /** A last sharer exists exactly when some other component shares the key. */
  lemma SharerExists(data: map<string, Entry>, order: seq<string>, consumer: string, scopes: seq<string>, key: string)
    requires forall n :: n in order <==> n in data
    ensures LastSharer(data, order, consumer, scopes, key) >= 0 <==>
      exists n :: n in data && n != consumer && Shares(data[n], scopes, key)
  {
    var i := LastSharer(data, order, consumer, scopes, key);
    if n :| n in data && n != consumer && Shares(data[n], scopes, key) {
      var j :| 0 <= j < |order| && order[j] == n;
      assert i >= j;
    }
    if i >= 0 {
      assert order[i] in data;
    }
  }

  /** A key is resolved exactly when some other component shares it under a consumed scope. */
  method ResolveConsumedCredentials(data: map<string, Entry>, order: seq<string>, consumer: string, scopes: seq<string>)
    returns (resolved: map<string, string>)
    requires forall n :: n in order <==> n in data
    ensures forall k :: k in resolved <==> LastSharer(data, order, consumer, scopes, k) >= 0
    ensures forall k :: k in resolved ==>
      resolved[k] == SharedValue(data[order[LastSharer(data, order, consumer, scopes, k)]], scopes, k)
  {
    resolved := map[];
    if scopes == [] {
      return;
    }
    for i := 0 to |order|
      invariant forall k :: k in resolved <==> LastSharer(data, order[..i], consumer, scopes, k) >= 0
      invariant forall k :: k in resolved ==>
        resolved[k] == SharedValue(data[order[LastSharer(data, order[..i], consumer, scopes, k)]], scopes, k)
    {
      forall k ensures LastSharer(data, order[..i + 1], consumer, scopes, k) ==
        if order[i] != consumer && Shares(data[order[i]], scopes, k) then i
        else LastSharer(data, order[..i], consumer, scopes, k)
      {
        assert order[..i + 1][..i] == order[..i];
      }
      if order[i] != consumer {
        resolved := AddEntry(data[order[i]], scopes, resolved);
      }
    }
    assert order[..|order|] == order;
  }

  method AddEntry(e: Entry, scopes: seq<string>, start: map<string, string>) returns (r: map<string, string>)
    ensures forall k :: k in r <==> k in start || Shares(e, scopes, k)
    ensures forall k :: k in r ==> r[k] == if Shares(e, scopes, k) then SharedValue(e, scopes, k) else start[k]
  {
    var withEnv := AddEnv(e, scopes, start);
    r := AddSecrets(e, scopes, withEnv);
  }

  /** Some consumed pattern covers a scope tag that is set. */
  predicate Covers(scopes: seq<string>, tag: string) {
    tag != "" && exists p | p in scopes :: ScopeMatches(p, tag)
  }

  /**
   * A key is shared if its plain value or a secret that exists carries a covered tag; the secret's value
   * then goes before the plain one, and a tagged plain value that is missing counts as empty.
   */
  lemma SharingMeans(e: Entry, scopes: seq<string>, key: string)
    ensures var plain := key in e.envScopes && Covers(scopes, e.envScopes[key]);
      var secret := key in e.secretScopes && Covers(scopes, e.secretScopes[key]) && key in e.secrets;
      && (Shares(e, scopes, key) <==> plain || secret)
      && (secret ==> SharedValue(e, scopes, key) == e.secrets[key])
      && (plain && !secret ==> SharedValue(e, scopes, key) == if key in e.env then e.env[key] else "")
  {
    forall tag ensures Covers(scopes, tag) <==> Consumed(scopes, tag) {
      if p :| p in scopes && ScopeMatches(p, tag) {
        var i :| 0 <= i < |scopes| && scopes[i] == p;
      }
    }
  }
}
