/** In-flight image references, counted per unfinished deploy, and the prune that respects them. */
module ImagePruning {
  import opened Wrappers
  import opened Runs
  import opened ImageReferences

  // ---- The in-flight registry --------------------------------------------------------------------

  type Counter = map<string, nat>

  function Count(c: Counter, ref: string): nat {
    if ref in c then c[ref] else 0
  }

  /** No entry is kept at zero, so the keys are the protected refs. */
  predicate Tidy(c: Counter) {
    forall ref :: ref in c ==> c[ref] > 0
  }

  function Registered(c: Counter, refs: seq<string>): Counter
    decreases |refs|
  {
    if refs == [] then c
    else Registered(if refs[0] == "" then c else c[refs[0] := Count(c, refs[0]) + 1], refs[1..])
  }

  function Dropped(c: Counter, ref: string): Counter {
    if Count(c, ref) > 1 then c[ref := c[ref] - 1] else c - {ref}
  }

  function Released(c: Counter, refs: seq<string>): Counter
    decreases |refs|
  {
    if refs == [] then c
    else Released(if refs[0] == "" || Count(c, refs[0]) == 0 then c else Dropped(c, refs[0]), refs[1..])
  }

  class InflightRegistry {
    var counts: Counter

    constructor ()
      ensures counts == map[]
    {
      counts := map[];
    }

    method Register(refs: seq<string>)
      modifies this
      ensures counts == Registered(old(counts), refs)
    {
      assert refs[0..] == refs;
      for i := 0 to |refs|
        invariant Registered(old(counts), refs) == Registered(counts, refs[i..])
      {
        assert refs[i..][1..] == refs[i + 1..];
        if refs[i] != "" {
          counts := counts[refs[i] := Count(counts, refs[i]) + 1];
        }
      }
    }

    method Release(refs: seq<string>)
      modifies this
      ensures counts == Released(old(counts), refs)
    {
      assert refs[0..] == refs;
      for i := 0 to |refs|
        invariant Released(old(counts), refs) == Released(counts, refs[i..])
      {
        assert refs[i..][1..] == refs[i + 1..];
        ghost var before := counts;
        if refs[i] != "" && Count(counts, refs[i]) > 0 {
          counts := counts[refs[i] := counts[refs[i]] - 1];
          if counts[refs[i]] == 0 {
            counts := counts - {refs[i]};
            assert counts == before - {refs[i]};
          }
          assert counts == Dropped(before, refs[i]);
        }
      }
    }
  }

  // ---- Deploys in flight -------------------------------------------------------------------------

  /** The refs one deploy registers: the id and the digest of the image it pulled, without empty ones. */
  function DeployRefs(id: string, digest: string): (refs: seq<string>)
    ensures forall r :: r in refs <==> r != "" && (r == id || r == digest)
    ensures Distinct(refs)
  {
    (if id == "" then [] else [id]) + (if digest == "" || digest == id then [] else [digest])
  }

  predicate Distinct(refs: seq<string>) {
    forall i, j :: 0 <= i < j < |refs| ==> refs[i] != refs[j]
  }

  function One(b: bool): nat { if b then 1 else 0 }

  /** How often a ref is listed; empty refs are never counted. */
  function Listed(refs: seq<string>, r: string): nat {
    if refs == [] then 0 else One(r != "" && refs[0] == r) + Listed(refs[1..], r)
  }

  lemma {:induction false} ListedOnce(refs: seq<string>, r: string)
    requires Distinct(refs) && "" !in refs
    ensures Listed(refs, r) == One(r in refs)
  {
    if refs != [] {
      var rest := refs[1..];
      assert r in refs <==> r == refs[0] || r in rest;
      assert r in rest ==> r != refs[0];
      ListedOnce(rest, r);
    }
  }

  lemma {:induction false} RegisteredCounts(c: Counter, refs: seq<string>, r: string)
    requires Tidy(c)
    ensures Tidy(Registered(c, refs))
    ensures Count(Registered(c, refs), r) == Count(c, r) + Listed(refs, r)
    decreases |refs|
  {
    if refs != [] {
      RegisteredCounts(if refs[0] == "" then c else c[refs[0] := Count(c, refs[0]) + 1], refs[1..], r);
    }
  }

  lemma {:induction false} ReleasedCounts(c: Counter, refs: seq<string>, r: string)
    requires Tidy(c)
    ensures Tidy(Released(c, refs))
    ensures Count(Released(c, refs), r) == Max(0, Count(c, r) - Listed(refs, r))
    decreases |refs|
  {
    if refs != [] {
      ReleasedCounts(if refs[0] == "" || Count(c, refs[0]) == 0 then c else Dropped(c, refs[0]), refs[1..], r);
    }
  }

  // ---- The prune ---------------------------------------------------------------------------------

  datatype Image = Image(id: string, repoDigests: seq<string>, size: int)

  /** Docker's answer to a removal. */
  datatype Answer = Done | ApiError(msg: string)

  datatype Verdict = Removed | Protected | Intermediate | InUse | Error

  /** What follows the first `@`, up to the next one. */
  function DigestPart(ref: string): string
    requires '@' in ref
  {
    var at := Find(ref, '@', 0).value;
    var next := Find(ref, '@', at + 1);
    if next.Some? then ref[at + 1..next.value] else ref[at + 1..]
  }

  function Digests(repoDigests: seq<string>): set<string> {
    set rd | rd in repoDigests && '@' in rd :: DigestPart(rd)
  }

  /** The image's id and repository digests. */
  function Names(image: Image): set<string> {
    {image.id} + Digests(image.repoDigests)
  }

  predicate Contains(part: string, s: string) {
    exists i: nat :: i <= |s| && OccursAt(part, s, i)
  }

  function Lower(s: string): string {
    if s == "" then "" else [if 'A' <= s[0] <= 'Z' then s[0] - 'A' + 'a' else s[0]] + Lower(s[1..])
  }

  function Judged(image: Image, live: set<string>, answer: Answer): Verdict {
    if !(Names(image) !! live) then Protected
    else if answer.Done? then Removed
    else if Contains("dependent child images", answer.msg) then Intermediate
    else if || Contains("image is being used", answer.msg)
            || Contains("image is referenced", answer.msg)
            || Contains("conflict", Lower(answer.msg)) then InUse
    else Error
  }

  datatype PruneImagesResult = PruneImagesResult(
    spaceReclaimed: int, removed: nat, skippedProtected: nat, skippedInUse: nat, skippedIntermediate: nat,
    skippedError: nat, errorSummary: seq<string>, stoppedRemoved: nat)

  /** One dangling image as the prune meets it: the refs in flight at its check, and Docker's answer. */
  datatype Encounter = Encounter(image: Image, inflight: set<string>, answer: Answer)

  function VerdictOn(protectedRefs: set<string>, e: Encounter): Verdict {
    Judged(e.image, protectedRefs + e.inflight, e.answer)
  }

  function Of(protectedRefs: set<string>, es: seq<Encounter>, v: Verdict): seq<Encounter> {
    if es == [] then [] else
    var m := |es| - 1;
    Of(protectedRefs, es[..m], v) + (if VerdictOn(protectedRefs, es[m]) == v then [es[m]] else [])
  }

  function TotalSize(es: seq<Encounter>): int {
    if es == [] then 0 else TotalSize(es[..|es| - 1]) + es[|es| - 1].image.size
  }

  function ShortId(id: string): string {
    var shown := if id == "" then "???" else id;
    if |shown| <= 19 then shown else shown[..19]
  }

  function ErrorLine(e: Encounter): string {
    ShortId(e.image.id) + ": " + if e.answer.ApiError? then e.answer.msg else ""
  }

  /** The first three errors. */
  function ErrorLines(es: seq<Encounter>): seq<string> {
    if es == [] then [] else
    var lines := ErrorLines(es[..|es| - 1]);
    if |lines| < 3 then lines + [ErrorLine(es[|es| - 1])] else lines
  }

  /** What a prune reports about the images it met. */
  ghost predicate Accounts(r: PruneImagesResult, protectedRefs: set<string>, es: seq<Encounter>) {
    && r.removed == |Of(protectedRefs, es, Removed)|
    && r.spaceReclaimed == TotalSize(Of(protectedRefs, es, Removed))
    && r.skippedProtected == |Of(protectedRefs, es, Protected)|
    && r.skippedIntermediate == |Of(protectedRefs, es, Intermediate)|
    && r.skippedInUse == |Of(protectedRefs, es, InUse)|
    && r.skippedError == |Of(protectedRefs, es, Error)|
    && r.errorSummary == ErrorLines(Of(protectedRefs, es, Error))
  }

  /** `stopped` and `dangling` are absent when Docker fails to list them. */
  method PruneImages(protectedRefs: set<string>, force: bool, stopped: Option<seq<Answer>>,
                     dangling: Option<seq<Encounter>>)
    returns (r: PruneImagesResult)
    ensures Accounts(r, protectedRefs, dangling.GetOr([]))
    ensures r.removed + r.skippedProtected + r.skippedIntermediate + r.skippedInUse + r.skippedError
         == |dangling.GetOr([])|
    ensures r.stoppedRemoved == if force then CountDone(stopped.GetOr([])) else 0
  {
    r := PruneImagesResult(0, 0, 0, 0, 0, 0, [], 0);
    if force && stopped.Some? {
      var answers := stopped.value;
      for i := 0 to |answers|
        invariant r == PruneImagesResult(0, 0, 0, 0, 0, 0, [], CountDone(answers[..i]))
      {
        assert answers[..i + 1][..i] == answers[..i];
        if answers[i].Done? {
          r := r.(stoppedRemoved := r.stoppedRemoved + 1);
        }
      }
      assert answers[..|answers|] == answers;
    }
    if dangling.None? { return; }
    var es := dangling.value;
    ghost var stoppedRemoved := r.stoppedRemoved;
    for i := 0 to |es|
      invariant Accounts(r, protectedRefs, es[..i]) && r.stoppedRemoved == stoppedRemoved
    {
      Tallying(r, protectedRefs, es[..i], es[i]);
      r := PruneOne(r, protectedRefs, es[i]);
      assert es[..i + 1] == es[..i] + [es[i]];
    }
    assert es[..|es|] == es;
    EveryImageCounted(protectedRefs, es);
  }

  function CountDone(answers: seq<Answer>): nat {
    if answers == [] then 0
    else CountDone(answers[..|answers| - 1]) + One(answers[|answers| - 1].Done?)
  }

  /** The result after one more image with the given verdict. */
  function Tallied(r: PruneImagesResult, v: Verdict, e: Encounter): PruneImagesResult {
    match v
    case Removed => r.(spaceReclaimed := r.spaceReclaimed + e.image.size, removed := r.removed + 1)
    case Protected => r.(skippedProtected := r.skippedProtected + 1)
    case Intermediate => r.(skippedIntermediate := r.skippedIntermediate + 1)
    case InUse => r.(skippedInUse := r.skippedInUse + 1)
    case Error => r.(
      skippedError := r.skippedError + 1,
      errorSummary := if |r.errorSummary| < 3 then r.errorSummary + [ErrorLine(e)] else r.errorSummary)
  }

  lemma Tallying(r: PruneImagesResult, protectedRefs: set<string>, met: seq<Encounter>, e: Encounter)
    requires Accounts(r, protectedRefs, met)
    ensures Accounts(Tallied(r, VerdictOn(protectedRefs, e), e), protectedRefs, met + [e])
  {
    AddsTo(protectedRefs, met, e, Removed);
    AddsTo(protectedRefs, met, e, Protected);
    AddsTo(protectedRefs, met, e, Intermediate);
    AddsTo(protectedRefs, met, e, InUse);
    AddsTo(protectedRefs, met, e, Error);
  }

  /** One turn of the prune's loop. */
  method PruneOne(start: PruneImagesResult, protectedRefs: set<string>, e: Encounter) returns (r: PruneImagesResult)
    ensures r == Tallied(start, VerdictOn(protectedRefs, e), e)
  {
    r := start;
    var liveRefs := protectedRefs + e.inflight;
    var digests := Digests(e.image.repoDigests);
    if e.image.id in liveRefs || digests * liveRefs != {} {
      r := r.(skippedProtected := r.skippedProtected + 1);
      return;
    }
    match e.answer
    case Done =>
      r := r.(spaceReclaimed := r.spaceReclaimed + e.image.size, removed := r.removed + 1);
    case ApiError(msg) =>
      if Contains("dependent child images", msg) {
        r := r.(skippedIntermediate := r.skippedIntermediate + 1);
      } else if || Contains("image is being used", msg)
                || Contains("image is referenced", msg)
                || Contains("conflict", Lower(msg)) {
        r := r.(skippedInUse := r.skippedInUse + 1);
      } else {
        r := r.(skippedError := r.skippedError + 1);
        if |r.errorSummary| < 3 {
          r := r.(errorSummary := r.errorSummary + [ShortId(e.image.id) + ": " + msg]);
        }
      }
  }

  lemma {:induction false} AddsTo(protectedRefs: set<string>, met: seq<Encounter>, e: Encounter, v: Verdict)
    ensures var before, after := Of(protectedRefs, met, v), Of(protectedRefs, met + [e], v);
      if VerdictOn(protectedRefs, e) != v then after == before else
      && |after| == |before| + 1
      && TotalSize(after) == TotalSize(before) + e.image.size
      && ErrorLines(after) ==
           if |ErrorLines(before)| < 3 then ErrorLines(before) + [ErrorLine(e)] else ErrorLines(before)
  {
    var before := Of(protectedRefs, met, v);
    assert (met + [e])[..|met|] == met;
    assert (before + [e])[..|before|] == before;
  }

  /** Every image met has exactly one verdict. */
  lemma {:induction false} EveryImageCounted(protectedRefs: set<string>, es: seq<Encounter>)
    ensures |Of(protectedRefs, es, Removed)| + |Of(protectedRefs, es, Protected)|
          + |Of(protectedRefs, es, Intermediate)| + |Of(protectedRefs, es, InUse)|
          + |Of(protectedRefs, es, Error)| == |es|
    decreases |es|
  {
    if es != [] {
      EveryImageCounted(protectedRefs, es[..|es| - 1]);
    }
  }

  // ---- Deploys and prunes side by side -----------------------------------------------------------

  /** `active` holds the refs registered by each deploy that has not ended. */
  datatype World = World(counts: Counter, active: map<string, seq<string>>)

  /** A deploy registers its image's refs, a deploy ends however it went, or a prune turns to its next image. */
  datatype Event =
    | Began(deploy: string, id: string, digest: string)
    | Ended(deploy: string)
    | Check(image: Image, answer: Answer)

  /** An event that cannot happen, such as the end of a deploy that never began, changes nothing. */
  function Step(w: World, e: Event): Trail<World, Encounter> {
    match e
    case Began(deploy, id, digest) =>
      if deploy in w.active then Trail(w, []) else
      var refs := DeployRefs(id, digest);
      Trail(World(Registered(w.counts, refs), w.active[deploy := refs]), [])
    case Ended(deploy) =>
      if deploy !in w.active then Trail(w, []) else
      Trail(World(Released(w.counts, w.active[deploy]), w.active - {deploy}), [])
    case Check(image, answer) => Trail(w, [Encounter(image, w.counts.Keys, answer)])
  }

  const IDLE := World(map[], map[])

  /** The unfinished deploys that hold a ref. */
  function Holders(active: map<string, seq<string>>, ref: string): set<string> {
    set d | d in active && ref in active[d]
  }

  ghost predicate Consistent(w: World) {
    && Tidy(w.counts)
    && (forall d :: d in w.active ==> Distinct(w.active[d]) && "" !in w.active[d])
    && forall r :: Count(w.counts, r) == |Holders(w.active, r)|
  }

  lemma HoldersAfterBegin(active: map<string, seq<string>>, deploy: string, refs: seq<string>, r: string)
    requires deploy !in active
    ensures |Holders(active[deploy := refs], r)| == |Holders(active, r)| + One(r in refs)
  {
    var held := Holders(active, r);
    assert Holders(active[deploy := refs], r) == if r in refs then held + {deploy} else held;
  }

  lemma BeginCounts(w: World, deploy: string, id: string, digest: string, r: string)
    requires Consistent(w) && deploy !in w.active
    ensures var next := Step(w, Began(deploy, id, digest)).state;
      Tidy(next.counts) && Count(next.counts, r) == |Holders(next.active, r)|
  {
    var refs := DeployRefs(id, digest);
    RegisteredCounts(w.counts, refs, r);
    ListedOnce(refs, r);
    HoldersAfterBegin(w.active, deploy, refs, r);
  }

  lemma EndCounts(w: World, deploy: string, r: string)
    requires Consistent(w) && deploy in w.active
    ensures var next := Step(w, Ended(deploy)).state;
      Tidy(next.counts) && Count(next.counts, r) == |Holders(next.active, r)|
  {
    ReleasedCounts(w.counts, w.active[deploy], r);
    ListedOnce(w.active[deploy], r);
    var held := Holders(w.active, r);
    assert Holders(w.active - {deploy}, r) == held - {deploy};
  }

  lemma StepConsistent(w: World, e: Event)
    requires Consistent(w)
    ensures Consistent(Step(w, e).state)
  {
    var next := Step(w, e).state;
    if e.Began? && e.deploy !in w.active {
      BeginCounts(w, e.deploy, e.id, e.digest, "");
      forall r ensures Count(next.counts, r) == |Holders(next.active, r)| {
        BeginCounts(w, e.deploy, e.id, e.digest, r);
      }
    } else if e.Ended? && e.deploy in w.active {
      EndCounts(w, e.deploy, "");
      forall r ensures Count(next.counts, r) == |Holders(next.active, r)| {
        EndCounts(w, e.deploy, r);
      }
    }
  }

  /** Over every run, the count of a ref is the number of unfinished deploys that hold it. */
  lemma {:induction false} CountsUnfinishedDeploys(w: World, events: seq<Event>)
    requires Consistent(w)
    ensures Consistent(Run(Step, w, events).state)
    decreases |events|
  {
    if events != [] {
      StepConsistent(w, events[0]);
      CountsUnfinishedDeploys(Step(w, events[0]).state, events[1..]);
    }
  }

  lemma IdleConsistent()
    ensures Consistent(IDLE)
  {
    assert forall r :: Holders(IDLE.active, r) == {};
  }

  /** Some unfinished deploy holds the image's id or one of its digests. */
  predicate InUseByDeploy(active: map<string, seq<string>>, image: Image) {
    exists d, r :: d in active && r in active[d] && r in Names(image)
  }

  /**
   * A prune spares an image exactly when its id or a digest of it is protected or held by a deploy
   * that is unfinished at that moment; so nothing protected or in flight at its check is removed.
   */
  lemma PruneSparesExactly(events: seq<Event>, protectedRefs: set<string>, i: nat) returns (n: nat)
    requires i < |Run(Step, IDLE, events).log|
    ensures n < |events|
    ensures var e := Run(Step, IDLE, events).log[i];
      && events[n] == Check(e.image, e.answer)
      && (VerdictOn(protectedRefs, e) == Protected
          <==> !(Names(e.image) !! protectedRefs) || InUseByDeploy(Run(Step, IDLE, events[..n]).state.active, e.image))
  {
    var before, at, after;
    n, before, at, after := Writer(Step, IDLE, events, i);
    var e := Run(Step, IDLE, events).log[i];
    assert at.log == [e];
    IdleConsistent();
    CountsUnfinishedDeploys(IDLE, events[..n]);
    forall r ensures r in before.state.counts <==> exists d :: d in before.state.active && r in before.state.active[d] {
      HeldIffCounted(before.state, r);
    }
  }

  lemma HeldIffCounted(w: World, r: string)
    requires Consistent(w)
    ensures r in w.counts <==> exists d :: d in w.active && r in w.active[d]
  {
    var held := Holders(w.active, r);
    assert Count(w.counts, r) == |held|;
    if d :| d in w.active && r in w.active[d] {
      assert d in held;
    } else {
      assert held == {};
    }
  }

  // ---- Names and verdicts spelled out ------------------------------------------------------------

  /** A reference with an `@` names what stands between the first `@` and the next one, or the end. */
  lemma {:induction false} DigestPartMeans(repo: string, digest: string, rest: string)
    requires '@' !in repo && '@' !in digest && (rest != "" ==> rest[0] == '@')
    ensures '@' in repo + "@" + digest + rest && DigestPart(repo + "@" + digest + rest) == digest
  {
    var ref := repo + "@" + digest + rest;
    var end := |repo| + 1 + |digest|;
    assert ref[|repo|] == '@' && forall j :: 0 <= j < |repo| ==> ref[j] == repo[j];
    FindFirst(ref, '@', 0, |repo|);
    assert forall j :: |repo| + 1 <= j < end ==> ref[j] == digest[j - |repo| - 1];
    assert ref[|repo| + 1..end] == digest;
    if rest != "" {
      assert ref[end] == '@';
      FindFirst(ref, '@', |repo| + 1, end);
    } else {
      assert ref[|repo| + 1..] == digest;
    }
  }

  /** An image answers to its id and to the digest of each repository reference that has one, and to nothing else. */
  lemma {:induction false} NamesMeans(image: Image, n: string)
    ensures n in Names(image) <==>
      n == image.id || exists rd :: rd in image.repoDigests && '@' in rd && DigestPart(rd) == n
  {
  }

  ghost predicate Says(msg: string, part: string) {
    exists a, b :: msg == a + part + b
  }

  lemma SaysMeans(part: string, msg: string)
    ensures Contains(part, msg) <==> Says(msg, part)
  {
    if i: nat :| i <= |msg| && OccursAt(part, msg, i) {
      assert msg == msg[..i] + part + msg[i + |part|..];
    }
    if a, b :| msg == a + part + b {
      assert OccursAt(part, msg, |a|);
    }
  }

  function SmallLetter(c: char): char {
    if 'A' <= c <= 'Z' then c - 'A' + 'a' else c
  }

  lemma {:induction false} LowerMeans(s: string)
    ensures |Lower(s)| == |s| && forall i :: 0 <= i < |s| ==> Lower(s)[i] == SmallLetter(s[i])
  {
    if s != "" {
      LowerMeans(s[1..]);
    }
  }

  /** `part` occurs in `msg` whatever the case of its letters there. */
  ghost predicate SaysAnyCase(msg: string, part: string) {
    exists i: nat :: i + |part| <= |msg| && SameLetters(msg, i, part)
  }

  ghost predicate SameLetters(msg: string, i: nat, part: string)
    requires i + |part| <= |msg|
  {
    forall j :: 0 <= j < |part| ==> SmallLetter(msg[i + j]) == part[j]
  }

  lemma SaysAnyCaseMeans(part: string, msg: string)
    ensures Contains(part, Lower(msg)) <==> SaysAnyCase(msg, part)
  {
    LowerMeans(msg);
    if i: nat :| i <= |Lower(msg)| && OccursAt(part, Lower(msg), i) {
      forall j | 0 <= j < |part| ensures SmallLetter(msg[i + j]) == part[j] {
        assert Lower(msg)[i..i + |part|][j] == Lower(msg)[i + j];
      }
      assert SameLetters(msg, i, part);
    }
    if i: nat :| i + |part| <= |msg| && SameLetters(msg, i, part) {
      assert Lower(msg)[i..i + |part|] == part;
      assert OccursAt(part, Lower(msg), i);
    }
  }

  /** The verdict on an image: spared if one of its names is live, else whatever Docker's answer says. */
  lemma VerdictMeans(protectedRefs: set<string>, e: Encounter)
    ensures var live := exists n :: n in Names(e.image) && (n in protectedRefs || n in e.inflight);
      VerdictOn(protectedRefs, e) ==
        if live then Protected
        else if e.answer.Done? then Removed
        else if Says(e.answer.msg, "dependent child images") then Intermediate
        else if || Says(e.answer.msg, "image is being used")
                || Says(e.answer.msg, "image is referenced")
                || SaysAnyCase(e.answer.msg, "conflict") then InUse
        else Error
  {
    if e.answer.ApiError? {
      var msg := e.answer.msg;
      SaysMeans("dependent child images", msg);
      SaysMeans("image is being used", msg);
      SaysMeans("image is referenced", msg);
      SaysAnyCaseMeans("conflict", msg);
    }
  }

  /** The error lines are those of the first three errors: a short id, a colon and Docker's message. */
  lemma {:induction false} ErrorLinesMeans(es: seq<Encounter>)
    requires forall i :: 0 <= i < |es| ==> es[i].answer.ApiError?
    ensures |ErrorLines(es)| == Min(3, |es|)
    ensures forall i :: 0 <= i < Min(3, |es|) ==>
      var id := if es[i].image.id == "" then "???" else es[i].image.id;
      ErrorLines(es)[i] == id[..Min(19, |id|)] + ": " + es[i].answer.msg
    decreases |es|
  {
    if es != [] {
      ErrorLinesMeans(es[..|es| - 1]);
    }
  }

  /** Reclaimed bytes are summed over the removed images, whatever their order. */
  lemma {:induction false} TotalSizeSplit(a: seq<Encounter>, b: seq<Encounter>)
    ensures TotalSize(a + b) == TotalSize(a) + TotalSize(b)
    ensures forall e :: TotalSize([e]) == e.image.size
    decreases |b|
  {
    if b == [] {
      assert a + b == a;
    } else {
      assert (a + b)[..|a + b| - 1] == a + b[..|b| - 1];
      TotalSizeSplit(a, b[..|b| - 1]);
    }
    forall e ensures TotalSize([e]) == e.image.size { assert [e][..0] == []; }
  }

  /** The stopped containers removed are those whose removal worked. */
  lemma {:induction false} CountDoneMeans(answers: seq<Answer>)
    ensures CountDone(answers) == |set i | 0 <= i < |answers| && answers[i].Done?|
    decreases |answers|
  {
    if answers != [] {
      var m := |answers| - 1;
      var front, all := set i | 0 <= i < m && answers[..m][i].Done?, set i | 0 <= i < |answers| && answers[i].Done?;
      CountDoneMeans(answers[..m]);
      assert all == if answers[m].Done? then front + {m} else front;
    }
  }

  // ---- From the start of a deploy to its end -----------------------------------------------------

  /** A deploy holds its refs from its start on, until it ends. */
  lemma {:induction false} HeldUntilEnd(w: World, events: seq<Event>, deploy: string, refs: seq<string>)
    requires deploy in w.active && w.active[deploy] == refs && Ended(deploy) !in events
    ensures var t := Run(Step, w, events).state; deploy in t.active && t.active[deploy] == refs
    decreases |events|
  {
    if events != [] {
      assert events[0] in events;
      HeldUntilEnd(Step(w, events[0]).state, events[1..], deploy, refs);
    }
  }

  /** From its start until its end, no prune removes an image that a deploy pulled, by its id or its digest. */
  lemma {:induction false} DeployKeepsItsImage(events: seq<Event>, protectedRefs: set<string>, b: nat, n: nat,
                                               r: string)
    requires b < n < |events| && events[b].Began? && events[n].Check?
    requires events[b].deploy !in Run(Step, IDLE, events[..b]).state.active
    requires Ended(events[b].deploy) !in events[b + 1..n]
    requires r != "" && (r == events[b].id || r == events[b].digest) && r in Names(events[n].image)
    ensures var w := Run(Step, IDLE, events[..n]).state;
      && Step(w, events[n]).log == [Encounter(events[n].image, w.counts.Keys, events[n].answer)]
      && VerdictOn(protectedRefs, Step(w, events[n]).log[0]) == Protected
  {
    var e, begun := events[b], Run(Step, IDLE, events[..b + 1]).state;
    RunSnoc(Step, IDLE, events, b);
    assert begun.active[e.deploy] == DeployRefs(e.id, e.digest);
    assert events[..n] == events[..b + 1] + events[b + 1..n];
    RunSplit(Step, IDLE, events[..b + 1], events[b + 1..n]);
    HeldUntilEnd(begun, events[b + 1..n], e.deploy, DeployRefs(e.id, e.digest));
    IdleConsistent();
    CountsUnfinishedDeploys(IDLE, events[..n]);
    HeldIffCounted(Run(Step, IDLE, events[..n]).state, r);
  }

  /** Ends free what was held: once no deploy is unfinished, nothing is counted. */
  lemma {:induction false} AllEndedNothingHeld(events: seq<Event>)
    ensures var w := Run(Step, IDLE, events).state; w.active == map[] ==> w.counts == map[]
  {
    var w := Run(Step, IDLE, events).state;
    IdleConsistent();
    CountsUnfinishedDeploys(IDLE, events);
    if w.active == map[] {
      forall r ensures r !in w.counts { HeldIffCounted(w, r); }
    }
  }

  /** An end takes exactly its deploy out of the unfinished ones. */
  lemma EndEnds(w: World, deploy: string)
    ensures Step(w, Ended(deploy)).state.active == w.active - {deploy}
  {
  }
}
