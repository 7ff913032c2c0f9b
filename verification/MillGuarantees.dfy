/** What the deferral fields guarantee over whole runs: few attempts, and a bounded wait. */
module MillGuarantees {
  import opened Wrappers
  import opened Runs
  import opened ServiceRecords
  import opened UpdatePhase
  import opened UpdateOutcomes
  import opened KnownBadDigests
  import opened MillPolling

  // ---- One phase, as far as the mill is concerned ------------------------------------------------

  lemma {:induction false} FanOutKeyed(fleet: Fleet, parent: string, sibs: seq<Sibling>, env: Environment)
    requires Keyed(fleet)
    ensures Keyed(FannedOut(fleet, parent, sibs, env))
    decreases |sibs|
  {
    if sibs != [] {
      var n := SiblingName(parent, sibs[0].key);
      var rest := if n in fleet && env.sibling(n).SiblingDone?
        then fleet[n := SiblingWritten(fleet[n], sibs[0].image, env.sibling(n))] else fleet;
      FanOutKeyed(rest, parent, sibs[1..], env);
    }
  }

  lemma AfterDeployName(r: Rec, image: string, a: Answer)
    requires a.DeployDone?
    ensures AfterDeploy(r, image, a).name == r.name
  {
    TicksKeep(Fresh(r, image, a), a.window);
  }

  /** One turn seen from record `q`: only its own turn can log an attempt on it or move its registry digest. */
  lemma TurnAndMill(fleet: Fleet, pass: Pass, stale: set<string>, held: set<string>, n: string, env: Environment,
                    q: string)
    requires Keyed(fleet) && q in fleet
    ensures var t := Step(fleet, Turn(pass, stale, held, n, env));
      && Keyed(t.state)
      && Attempts(t.log, q) <= (if n == q && fleet[q].updateAvailable && q !in pass.busy then 1 else 0)
      && (n != q ==> t.state[q].latest == fleet[q].latest && t.state[q].failed == fleet[q].failed
                     && (t.state[q].updateAvailable ==> fleet[q].updateAvailable))
      && (q in pass.busy || (pass.only.Some? && n !in pass.only.value) || !fleet[q].updateAvailable ==>
            t.state[q].latest == fleet[q].latest && (t.state[q].updateAvailable ==> fleet[q].updateAvailable))
      && ((n != q || q in pass.busy) && NotASibling(q, pass.configs) ==> t.state[q] == fleet[q])
  {
    if n in fleet && Eligible(pass, stale, held, fleet[n]) {
      var r, a, config := fleet[n], env.answer(n), pass.configs[n];
      if !DeploysPrimary(r) {
        FanOutKeyed(fleet, n, config.siblings, env);
        FanOutKeeps(fleet, n, config.siblings, env, q);
      } else if a.DeployDone? {
        var after := fleet[n := AfterDeploy(r, config.image, a)];
        AfterDeployName(r, config.image, a);
        FanOutKeyed(after, n, config.siblings, env);
        FanOutKeeps(after, n, config.siblings, env, q);
      }
    }
  }

  lemma {:induction false} TurnsAndMill(fleet: Fleet, pass: Pass, stale: set<string>, held: set<string>,
                                        order: seq<string>, env: Environment, q: string)
    requires Keyed(fleet) && q in fleet && Distinct(order)
    ensures var t := Run(Step, fleet, Turns(pass, stale, held, order, env));
      && Keyed(t.state) && t.state.Keys == fleet.Keys
      && Attempts(t.log, q) <= (if q in order && fleet[q].updateAvailable && q !in pass.busy then 1 else 0)
      && (q !in order || q in pass.busy || !fleet[q].updateAvailable ==>
            t.state[q].latest == fleet[q].latest && (t.state[q].updateAvailable ==> fleet[q].updateAvailable))
      && ((q !in order || q in pass.busy) && NotASibling(q, pass.configs) ==> t.state[q] == fleet[q])
    decreases |order|
  {
    var events := Turns(pass, stale, held, order, env);
    if order != [] {
      var first := Step(fleet, events[0]);
      var rest := order[1..];
      assert events[1..] == Turns(pass, stale, held, rest, env);
      TurnAndMill(fleet, pass, stale, held, order[0], env, q);
      TurnsAndMill(first.state, pass, stale, held, rest, env, q);
      AttemptsConcat(first.log, Run(Step, first.state, events[1..]).log, q);
    }
  }

  lemma {:induction false} PhaseAndMill(fleet: Fleet, w: World, busy: set<string>, only: Option<set<string>>, q: string)
    requires Keyed(fleet) && q in fleet && Distinct(w.order)
    ensures var t := PhaseRun(fleet, w, busy, only);
      && Keyed(t.state) && t.state.Keys == fleet.Keys
      && Attempts(t.log, q) <= (if fleet[q].updateAvailable && q !in busy then 1 else 0)
      && (q in busy || !fleet[q].updateAvailable ==> t.state[q].latest == fleet[q].latest)
      && (q in busy && NotASibling(q, w.configs) ==> t.state[q] == fleet[q])
  {
    if w.selfKnown {
      TurnsAndMill(fleet, PassFor(w, busy, only), StaleParents(fleet), w.held, w.order, w.env, q);
    }
  }

  // ---- At most one attempt per interval and registry digest --------------------------------------

  /** What happens between two full passes: rechecks, registry ticks, other writers. */
  datatype Between = RecheckAt(w: World) | Background(e: Event)

  function MillStep(s: Settings): (Mill, Between) -> Trail<Mill, Entry> {
    (m: Mill, b: Between) =>
      match b
      case RecheckAt(w) => Recheck(s, m, w)
      case Background(e) => Trail(m.(fleet := Step(m.fleet, e).state), Step(m.fleet, e).log)
  }

  predicate Plausible(b: Between) {
    match b
    case RecheckAt(w) => Distinct(w.order)
    case Background(e) => !e.Turn?
  }

  /** How often the mill's registry digest differs before and after an event. */
  function DigestChanges(s: Settings, m: Mill, events: seq<Between>): nat
    requires forall b :: b in events ==> Plausible(b)
    requires s.millId in m.fleet && Keyed(m.fleet)
    decreases |events|
  {
    if events == [] then 0 else
    var next := MillStep(s)(m, events[0]).state;
    StepCredit(s, m, events[0]);
    (if next.fleet[s.millId].latest != m.fleet[s.millId].latest then 1 else 0) + DigestChanges(s, next, events[1..])
  }

  /** Whether a recheck could still attempt the digest now shown: no, once it was attempted and no deferral is open. */
  function Credit(s: Settings, m: Mill): nat
    requires s.millId in m.fleet
  {
    if m.deferral.since.None? && m.deferral.attempted == Some(m.fleet[s.millId].latest) then 0 else 1
  }

  function Changed(s: Settings, a: Mill, b: Mill): nat
    requires s.millId in a.fleet && s.millId in b.fleet
  {
    if a.fleet[s.millId].latest != b.fleet[s.millId].latest then 1 else 0
  }

  lemma {:induction false} StepCredit(s: Settings, m: Mill, b: Between)
    requires s.millId in m.fleet && Keyed(m.fleet) && Plausible(b)
    ensures var t := MillStep(s)(m, b);
      && Keyed(t.state.fleet) && t.state.fleet.Keys == m.fleet.Keys
      && Attempts(t.log, s.millId) + Credit(s, t.state) <= Credit(s, m) + Changed(s, m, t.state)
  {
    match b
    case Background(e) => TicksKeepName(m.fleet, e);
    case RecheckAt(w) =>
      var d, j := Armed(s, m, w), Judge(s, m.fleet, w);
      if d.since.Some? && s.millId != "" && s.enabled && !j.busy && j.fleet[s.millId].updateAvailable {
        PhaseAndMill(j.fleet, w, {}, Some({s.millId}), s.millId);
      }
  }

  lemma TicksKeepName(fleet: Fleet, e: Event)
    requires Keyed(fleet) && !e.Turn?
    ensures Keyed(Step(fleet, e).state) && Step(fleet, e).log == []
  {
  }

  lemma {:induction false} PassCredit(s: Settings, m: Mill, w: World)
    requires s.millId != "" && s.millId in m.fleet && Keyed(m.fleet) && Distinct(w.order)
    ensures var t := FullPass(s, m, w);
      && Keyed(t.state.fleet) && t.state.fleet.Keys == m.fleet.Keys
      && Attempts(t.log, s.millId) + Credit(s, t.state) <= 1 + Changed(s, m, t.state)
  {
    var p := Prepared(s, m, w);
    PhaseAndMill(p.fleet, w, if Judge(s, m.fleet, w).busy then {s.millId} else {}, None, s.millId);
  }

  lemma {:induction false} CreditOverRun(s: Settings, m: Mill, events: seq<Between>)
    requires s.millId in m.fleet && Keyed(m.fleet) && forall b :: b in events ==> Plausible(b)
    ensures var t := Run(MillStep(s), m, events);
      Attempts(t.log, s.millId) <= Credit(s, m) + DigestChanges(s, m, events)
    decreases |events|
  {
    if events != [] {
      var first := MillStep(s)(m, events[0]);
      StepCredit(s, m, events[0]);
      CreditOverRun(s, first.state, events[1..]);
      AttemptsConcat(first.log, Run(MillStep(s), first.state, events[1..]).log, s.millId);
    }
  }

  /**
   * From one full pass to the next, the mill is attempted at most once plus once per change of its
   * registry digest: at most once while the digest stays fixed, whether the pass deferred,
   * attempted or saw no update.
   */
  lemma {:induction false} AttemptsPerInterval(s: Settings, m: Mill, w: World, events: seq<Between>)
    requires s.millId != "" && s.millId in m.fleet && Keyed(m.fleet) && Distinct(w.order)
    requires forall b :: b in events ==> Plausible(b)
    ensures var pass := FullPass(s, m, w);
      && Keyed(pass.state.fleet) && s.millId in pass.state.fleet
      && Attempts(pass.log + Run(MillStep(s), pass.state, events).log, s.millId)
           <= 1 + Changed(s, m, pass.state) + DigestChanges(s, pass.state, events)
  {
    var pass := FullPass(s, m, w);
    PassCredit(s, m, w);
    CreditOverRun(s, pass.state, events);
    AttemptsConcat(pass.log, Run(MillStep(s), pass.state, events).log, s.millId);
  }

  // ---- The bounded wait ------------------------------------------------------------------------

  function Force(s: Settings): int {
    s.forceDeployHours * 3600
  }

  /** An update of the mill is pending and deferred; it was first found busy at `t0`. */
  predicate Waiting(s: Settings, m: Mill, t0: int) {
    && s.millId in m.fleet && Keyed(m.fleet)
    && m.fleet[s.millId].updateAvailable && m.fleet[s.millId].deployed != ""
    && m.fleet[s.millId].pendingSince == Some(t0)
    && m.deferral.since.Some?
  }

  /** Every probe finds heavy stages, and what others do leaves the update pending since `t0`. */
  ghost predicate StaysBusy(s: Settings, f: Future, deployed: string, t0: int) {
    forall t ::
      && f.world(t).urlKnown && f.world(t).heavy
      && Distinct(f.world(t).order) && NotASibling(s.millId, f.world(t).configs)
      && forall i :: 0 <= i < |f.changes(t)| ==> KeepsPending(s, f.changes(t)[i], deployed, t0)
  }

  /** No lookup says that `deployed` is the latest, and no writer deploys the mill or resets its clock. */
  predicate KeepsPending(s: Settings, c: Change, deployed: string, t0: int) {
    c.name == s.millId ==>
      match c
      case TickOf(_, o) => o.lookup.Digest? ==> o.lookup.digest != deployed
      case WriteOf(_, r) => r.deployed == deployed && r.updateAvailable && r.pendingSince == Some(t0)
  }

  lemma {:induction false} ChangesKeepWaiting(s: Settings, fleet: Fleet, d: Deferral, changes: seq<Change>,
                                              t0: int, deployed: string)
    requires Waiting(s, Mill(d, fleet), t0) && fleet[s.millId].deployed == deployed
    requires forall i :: 0 <= i < |changes| ==> KeepsPending(s, changes[i], deployed, t0)
    ensures Waiting(s, Mill(d, ChangeFleet(fleet, changes)), t0)
    ensures ChangeFleet(fleet, changes)[s.millId].deployed == deployed
    decreases |changes|
  {
    if changes != [] {
      var next := Step(fleet, ChangeEvent(changes[0])).state;
      assert KeepsPending(s, changes[0], deployed, t0);
      forall i | 0 <= i < |changes[1..]| ensures KeepsPending(s, changes[1..][i], deployed, t0) {
        assert changes[1..][i] == changes[i + 1];
      }
      ChangesKeepWaiting(s, next, d, changes[1..], t0, deployed);
    }
  }

  /** The poll at the end of the next slice, before it acts. */
  function NextMet(s: Settings, c: Clocked, f: Future): Mill {
    Met(c, f, Wake(s, c))
  }

  function NextJudgement(s: Settings, c: Clocked, f: Future): Judgement {
    Judge(s, NextMet(s, c, f).fleet, WorldAt(f, Wake(s, c)))
  }

  /** Below the ceiling a busy poll defers: the update stays pending and its clock does not move. */
  lemma {:induction false} StillWaiting(s: Settings, c: Clocked, f: Future, t0: int)
    requires s.millId != "" && s.enabled && Validated(s) && c.now < c.deadline
    requires Waiting(s, c.mill, t0) && StaysBusy(s, f, c.mill.fleet[s.millId].deployed, t0)
    ensures Waiting(s, NextMet(s, c, f), t0)
    ensures NextJudgement(s, c, f).busy <==> Wake(s, c) < t0 + Force(s)
    ensures Wake(s, c) < t0 + Force(s) ==>
      Waiting(s, NextPoll(s, c, f).mill, t0)
      && NextPoll(s, c, f).mill.fleet[s.millId].deployed == c.mill.fleet[s.millId].deployed
  {
    var t := Wake(s, c);
    var m := NextMet(s, c, f);
    var w := WorldAt(f, t);
    ChangesKeepWaiting(s, c.mill.fleet, c.mill.deferral, f.changes(t), t0, c.mill.fleet[s.millId].deployed);
    assert f.world(t).heavy;
    var j := Judge(s, m.fleet, w);
    if t >= c.deadline && j.busy {
      PhaseAndMill(Prepared(s, m, w).fleet, w, {s.millId}, None, s.millId);
    }
  }

  /** The next poll runs the update phase with nothing marked busy: the whole phase, or the mill's step alone. */
  predicate Unblocked(s: Settings, c: Clocked, f: Future) {
    var t := Wake(s, c);
    var w := WorldAt(f, t);
    && !NextJudgement(s, c, f).busy
    && NextPoll(s, c, f).mill.deferral.since.None?
    && NextPoll(s, c, f).mill.fleet ==
         PhaseRun(NextJudgement(s, c, f).fleet, w, {}, if t >= c.deadline then None else Some({s.millId})).state
  }

  lemma {:induction false} CeilingUnblocks(s: Settings, c: Clocked, f: Future, t0: int)
    requires s.millId != "" && s.enabled && c.now < c.deadline
    requires Waiting(s, NextMet(s, c, f), t0) && !NextJudgement(s, c, f).busy
    ensures Unblocked(s, c, f)
  {
  }

  lemma PollMovesOn(s: Settings, c: Clocked, f: Future)
    requires c.now < c.deadline
    ensures c.now < NextPoll(s, c, f).now == Wake(s, c) < NextPoll(s, c, f).deadline
    ensures Wake(s, c) <= c.now + Slice(s)
  {
  }

  /**
   * If every probe is busy while the update stays pending, the clock started at the first busy
   * observation `t0` never moves, and the update phase runs with the mill not marked busy no later
   * than the force ceiling plus one recheck slice after `t0`.
   */
  lemma {:induction false} BoundedWait(s: Settings, c: Clocked, f: Future, t0: int) returns (n: nat)
    requires s.millId != "" && s.enabled && Validated(s)
    requires c.now < c.deadline && c.now < t0 + Force(s)
    requires Waiting(s, c.mill, t0) && StaysBusy(s, f, c.mill.fleet[s.millId].deployed, t0)
    ensures forall k :: 0 <= k <= n ==>
      Waiting(s, Polls(s, c, f, k).mill, t0) && Polls(s, c, f, k).now < t0 + Force(s)
    ensures forall k :: 0 <= k < n ==> NextJudgement(s, Polls(s, c, f, k), f).busy
    ensures var last := Polls(s, c, f, n);
      t0 + Force(s) <= Wake(s, last) < t0 + Force(s) + Slice(s) && Unblocked(s, last, f)
  {
    var deployed := c.mill.fleet[s.millId].deployed;
    var good := (p: Clocked) => Deferring(s, p, t0, deployed);
    var done := (p: Clocked) => Wake(s, p) >= t0 + Force(s);
    var time := (p: Clocked) => p.now;
    var next := Poller(s, f);
    forall p | good(p) && !done(p) ensures good(next(p)) && time(p) < time(next(p)) {
      StillWaiting(s, p, f, t0);
      PollMovesOn(s, p, f);
    }
    n := ReachDone(next, good, done, time, t0 + Force(s), c);
    forall k | 0 <= k < n ensures NextJudgement(s, Polls(s, c, f, k), f).busy {
      assert good(Iterate(next, c, k)) && !done(Iterate(next, c, k));
      StillWaiting(s, Polls(s, c, f, k), f, t0);
    }
    var last := Polls(s, c, f, n);
    assert good(last) && done(last);
    StillWaiting(s, last, f, t0);
    PollMovesOn(s, last, f);
    CeilingUnblocks(s, last, f, t0);
    forall k | 0 <= k <= n
      ensures Waiting(s, Polls(s, c, f, k).mill, t0) && Polls(s, c, f, k).now < t0 + Force(s)
    {
      assert good(Iterate(next, c, k));
    }
  }

  /** Before the ceiling, with the update still waiting. */
  predicate Deferring(s: Settings, c: Clocked, t0: int, deployed: string) {
    && c.now < c.deadline && c.now < t0 + Force(s)
    && Waiting(s, c.mill, t0) && c.mill.fleet[s.millId].deployed == deployed
  }

  /** The first busy observation of a pending update, by a full pass or an open deferral's recheck, starts the wait. */
  lemma {:induction false} FirstBusyStartsClock(s: Settings, m: Mill, w: World)
    requires s.millId != "" && s.enabled && Validated(s) && s.millId in m.fleet && Keyed(m.fleet)
    requires Distinct(w.order) && NotASibling(s.millId, w.configs) && w.urlKnown && w.heavy
    requires var r := m.fleet[s.millId]; r.updateAvailable && r.deployed != "" && r.pendingSince.None?
    ensures Waiting(s, FullPass(s, m, w).state, w.now)
    ensures m.deferral.since.Some? || Arms(s, m, w) ==> Waiting(s, Recheck(s, m, w).state, w.now)
  {
    PhaseAndMill(Prepared(s, m, w).fleet, w, {s.millId}, None, s.millId);
  }

  lemma FirstPoll(s: Settings, c: Clocked, f: Future)
    ensures Polls(s, c, f, 1) == NextPoll(s, c, f)
  {
    assert Iterate(Poller(s, f), c, 0) == c;
  }

  /** The loop of `_wait_for_next_pass` followed by the next full pass is a number of polls. */
  lemma {:induction false} LoopIsPolls(s: Settings, c: Clocked, f: Future) returns (n: nat)
    requires s.millId != "" && s.enabled && c.now < c.deadline
    ensures var end := Waited(s, c, f);
      && end.now == end.deadline == c.deadline
      && Polls(s, c, f, n + 1) ==
           Clocked(FullPass(s, Met(end, f, c.deadline), WorldAt(f, c.deadline)).state,
                   c.deadline, c.deadline + Interval(s))
    decreases c.deadline - c.now
  {
    if Wake(s, c) >= c.deadline {
      n := 0;
      assert Wake(s, c) == c.deadline;
      FirstPoll(s, c, f);
    } else {
      var m := LoopIsPolls(s, NextPoll(s, c, f), f);
      n := m + 1;
      IterateShift(Poller(s, f), c, m + 1);
    }
  }
}
