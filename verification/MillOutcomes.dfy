/** What a full pass, a recheck and a poll do about the mill, exactly, whatever the probe answers. */
module MillOutcomes {
  import opened Wrappers
  import opened Runs
  import opened ServiceRecords
  import opened UpdatePhase
  import opened UpdateOutcomes
  import opened MillPolling
  import opened MillGuarantees

  /** The instant since which the mill's update counts as pending, once a probe has found heavy stages. */
  function Since(r: Rec, now: int): int {
    if r.pendingSince.Some? then r.pendingSince.value else now
  }

  /** The mill is reachable and in heavy stages, and its pending update has not reached the force ceiling. */
  predicate HeldUp(s: Settings, r: Rec, w: World) {
    w.urlKnown && w.heavy && r.updateAvailable && w.now - Since(r, w.now) < s.forceDeployHours * 3600
  }

  /** The mill's record after the probe: a clock runs only while a reachable mill is heavy with an update pending. */
  function Probed(r: Rec, w: World): Rec {
    if !w.urlKnown then r
    else r.(pendingSince := if r.updateAvailable && w.heavy then Some(Since(r, w.now)) else None)
  }

  /** All guards but the busy one let the mill through. */
  predicate Free(w: World, r: Rec) {
    && w.selfKnown && r.componentId == "" && (w.selfContainer == "" || r.containerName != w.selfContainer)
    && r.name !in w.held && r.name in w.configs && w.configs[r.name].autoUpdate
    && WantsUpdate(r)
  }

  predicate MillListed(s: Settings, m: Mill, w: World) {
    && s.millId != "" && s.millId in m.fleet && Keyed(m.fleet)
    && s.millId in w.order && Distinct(w.order) && NotASibling(s.millId, w.configs)
  }

  /** What an attempt or its absence leaves on the mill's clock. */
  predicate ClockAfter(s: Settings, before: Rec, after: Rec, w: World, attempted: bool) {
    if attempted && w.env.answer(s.millId).DeployDone? then after.pendingSince.None?
    else after == Probed(before, w)
  }

  lemma {:induction false} JudgedExactly(s: Settings, fleet: Fleet, w: World)
    requires s.millId != "" && s.millId in fleet
    ensures var r := fleet[s.millId];
      Judge(s, fleet, w) == Judgement(fleet[s.millId := Probed(r, w)], HeldUp(s, r, w))
  {
  }

  /** The phase with a busy set and an optional restriction, as far as the mill is concerned. */
  lemma {:induction false} PhaseAboutMill(s: Settings, fleet: Fleet, w: World, busy: bool, alone: bool)
    requires MillListed(s, Mill(Deferral(None, None), fleet), w)
    ensures var t := PhaseRun(fleet, w, if busy then {s.millId} else {}, if alone then Some({s.millId}) else None);
      var r, goes := fleet[s.millId], !busy && Free(w, fleet[s.millId]);
      && s.millId in t.state
      && Attempts(t.log, s.millId) == (if goes then 1 else 0)
      && (if goes && w.env.answer(s.millId).DeployDone? then t.state[s.millId].pendingSince.None?
          else t.state[s.millId] == r)
  {
    var pass := PassFor(w, if busy then {s.millId} else {}, if alone then Some({s.millId}) else None);
    PhaseAttemptsExactly(fleet, pass, StaleParents(fleet), w.held, w.order, w.env, s.millId);
    if w.selfKnown {
      TurnsLeaveRecord(fleet, pass, StaleParents(fleet), w.held, w.order, w.env, s.millId);
    }
  }

  /** A record that is not attempted, or whose deploy raises, is left alone; a deploy that is done clears its clock. */
  lemma {:induction false} TurnsLeaveRecord(fleet: Fleet, pass: Pass, stale: set<string>, held: set<string>,
                                            order: seq<string>, env: Environment, p: string)
    requires Keyed(fleet) && p in fleet && NotASibling(p, pass.configs) && Distinct(order)
    ensures var f := Run(Step, fleet, Turns(pass, stale, held, order, env)).state;
      && p in f
      && (if p in order && Permitted(pass, held, fleet[p]) && WantsUpdate(fleet[p]) && env.answer(p).DeployDone?
          then f[p].pendingSince.None? else f[p] == fleet[p])
    decreases |order|
  {
    if order != [] {
      var events, rest := Turns(pass, stale, held, order, env), order[1..];
      var next := Step(fleet, events[0]).state;
      assert events[1..] == Turns(pass, stale, held, rest, env);
      TurnKeepsKeys(fleet, events[0]);
      TurnsLeaveRecord(next, pass, stale, held, rest, env, p);
      if order[0] == p {
        assert p !in rest;
        OwnTurnLeaves(fleet, pass, stale, held, env, p);
      } else {
        OtherTurnSpares(fleet, pass, stale, held, order[0], env, p);
      }
    }
  }

  lemma {:induction false} OwnTurnLeaves(fleet: Fleet, pass: Pass, stale: set<string>, held: set<string>,
                                         env: Environment,
                                         p: string)
    requires Keyed(fleet) && p in fleet
    ensures var r := Step(fleet, Turn(pass, stale, held, p, env)).state[p];
      if Permitted(pass, held, fleet[p]) && WantsUpdate(fleet[p]) && env.answer(p).DeployDone?
      then r.pendingSince.None? else r == fleet[p]
  {
    if Permitted(pass, held, fleet[p]) && WantsUpdate(fleet[p]) {
      TurnDeploysPrimary(fleet, pass, stale, held, p, env);
      if env.answer(p).DeployDone? {
        var a := env.answer(p);
        TicksKeep(Fresh(fleet[p], pass.configs[p].image, a), a.window);
      }
    } else if TakesTurn(pass, stale, held, fleet[p]) {
      NotItsOwnSibling(fleet, p, pass.configs[p].siblings, env);
    }
  }

  // ---- The full pass -----------------------------------------------------------------------------

  /**
   * A full pass attempts the mill exactly once if it is not held up and the guards let it through, and
   * otherwise not at all.  It opens a deferral exactly when the mill is held up, remembers the digest
   * of any update it did not hold up, and stops the clock unless a reachable mill is heavy.
   */
  lemma {:induction false} FullPassExactly(s: Settings, m: Mill, w: World)
    requires MillListed(s, m, w)
    ensures var t, r := FullPass(s, m, w), m.fleet[s.millId];
      var goes := !HeldUp(s, r, w) && Free(w, r);
      && Attempts(t.log, s.millId) == (if goes then 1 else 0)
      && s.millId in t.state.fleet && ClockAfter(s, r, t.state.fleet[s.millId], w, goes)
      && t.state.deferral == Deferral(
           if !HeldUp(s, r, w) then None else if m.deferral.since.Some? then m.deferral.since else Some(w.now),
           if !HeldUp(s, r, w) && r.updateAvailable then Some(r.latest) else m.deferral.attempted)
  {
    JudgedExactly(s, m.fleet, w);
    PhaseAboutMill(s, m.fleet[s.millId := Probed(m.fleet[s.millId], w)], w, HeldUp(s, m.fleet[s.millId], w), false);
  }

  /** Whatever becomes of the mill, a full pass attempts every other primary exactly if nothing stands against it. */
  lemma {:induction false} FullPassAttemptsOthers(s: Settings, m: Mill, w: World, p: string)
    requires Keyed(m.fleet) && p in m.fleet && p != s.millId
    requires p in w.order && Distinct(w.order) && NotASibling(p, w.configs)
    ensures Attempts(FullPass(s, m, w).log, p) == if Free(w, m.fleet[p]) then 1 else 0
  {
    var fleet := Judge(s, m.fleet, w).fleet;
    assert fleet[p] == m.fleet[p] && Keyed(fleet);
    var pass := PassFor(w, if Judge(s, m.fleet, w).busy then {s.millId} else {}, None);
    PhaseAttemptsExactly(fleet, pass, StaleParents(fleet), w.held, w.order, w.env, p);
  }

  // ---- The recheck -------------------------------------------------------------------------------

  /** A deferral is open, or an update appeared that nobody has tried, marked, locked or switched off. */
  predicate Open(s: Settings, m: Mill, w: World)
    requires s.millId in m.fleet
  {
    var r := m.fleet[s.millId];
    || m.deferral.since.Some?
    || (&& s.millId != "" && s.enabled && WantsUpdate(r)
        && (s.millId in w.configs ==> w.configs[s.millId].autoUpdate)
        && m.deferral.attempted != Some(r.latest) && s.millId !in w.held)
  }

  /**
   * A recheck does nothing unless a deferral is open or opens now.  Otherwise it attempts the mill
   * exactly once if it is not held up and the guards let it through, leaves the deferral open exactly
   * when the mill is held up, and remembers the digest it tried.
   */
  lemma {:induction false} RecheckExactly(s: Settings, m: Mill, w: World)
    requires MillListed(s, m, w) && s.enabled
    ensures var t, r := Recheck(s, m, w), m.fleet[s.millId];
      var goes := !HeldUp(s, r, w) && Free(w, r);
      if !Open(s, m, w) then t == Trail(m, []) else
      && Attempts(t.log, s.millId) == (if goes then 1 else 0)
      && s.millId in t.state.fleet && ClockAfter(s, r, t.state.fleet[s.millId], w, goes)
      && t.state.deferral == Deferral(
           if !HeldUp(s, r, w) then None else if m.deferral.since.Some? then m.deferral.since else Some(w.now),
           if !HeldUp(s, r, w) && r.updateAvailable then Some(r.latest) else m.deferral.attempted)
  {
    if Open(s, m, w) {
      ArmedExactly(s, m, w);
      OpenRecheckExactly(s, m.(deferral := Armed(s, m, w)), w);
    }
  }

  lemma ArmedExactly(s: Settings, m: Mill, w: World)
    requires s.millId in m.fleet && s.enabled && s.millId != "" && Open(s, m, w)
    ensures Armed(s, m, w) ==
      m.deferral.(since := if m.deferral.since.Some? then m.deferral.since else Some(w.now))
  {
  }

  lemma {:induction false} OpenRecheckExactly(s: Settings, m: Mill, w: World)
    requires MillListed(s, m, w) && s.enabled && m.deferral.since.Some?
    ensures var t, r := RecheckOpen(s, m, w), m.fleet[s.millId];
      var goes := !HeldUp(s, r, w) && Free(w, r);
      && Attempts(t.log, s.millId) == (if goes then 1 else 0)
      && s.millId in t.state.fleet && ClockAfter(s, r, t.state.fleet[s.millId], w, goes)
      && t.state.deferral == Deferral(
           if HeldUp(s, r, w) then m.deferral.since else None,
           if !HeldUp(s, r, w) && r.updateAvailable then Some(r.latest) else m.deferral.attempted)
  {
    JudgedExactly(s, m.fleet, w);
    PhaseAboutMill(s, m.fleet[s.millId := Probed(m.fleet[s.millId], w)], w, false, true);
  }

  /** A recheck attempts nothing but the mill. */
  lemma {:induction false} RecheckAttemptsNoOther(s: Settings, m: Mill, w: World, p: string)
    requires Keyed(m.fleet) && p in m.fleet && p != s.millId
    requires p in w.order && Distinct(w.order) && NotASibling(p, w.configs)
    ensures Attempts(Recheck(s, m, w).log, p) == 0
  {
    var fleet := Judge(s, m.fleet, w).fleet;
    assert fleet[p] == m.fleet[p] && Keyed(fleet);
    PhaseAttemptsExactly(fleet, PassFor(w, {}, Some({s.millId})), StaleParents(fleet), w.held, w.order, w.env, p);
  }

  // ---- The timed loop ----------------------------------------------------------------------------

  /** The probe of this world does not find the mill in heavy stages. */
  predicate IdleOrAway(w: World) {
    !w.urlKnown || !w.heavy
  }

  /**
   * A recheck that meets the mill idle or unreachable ends the wait: no deferral stays open, and the
   * mill is attempted exactly once if its update is still wanted and the guards let it through.  An
   * idle answer leaves no clock behind.
   */
  lemma {:induction false} IdleRecheckEndsWait(s: Settings, c: Clocked, f: Future, t: int)
    requires s.enabled && t == c.now + Max(s.recheckMinutes, 1) * 60 < c.deadline
    requires MillListed(s, Met(c, f, t), WorldAt(f, t)) && IdleOrAway(WorldAt(f, t))
    requires Open(s, Met(c, f, t), WorldAt(f, t))
    ensures var m, w, next := Met(c, f, t), WorldAt(f, t), Polls(s, c, f, 1);
      && next.now == t && next.mill == Recheck(s, m, w).state && next.mill.deferral.since.None?
      && Attempts(Recheck(s, m, w).log, s.millId) == (if Free(w, m.fleet[s.millId]) then 1 else 0)
      && s.millId in next.mill.fleet && (w.urlKnown ==> next.mill.fleet[s.millId].pendingSince.None?)
  {
    PollRechecks(s, c, f);
    RecheckExactly(s, Met(c, f, t), WorldAt(f, t));
  }

  /** So does a full pass that meets the mill idle or unreachable. */
  lemma {:induction false} IdlePassEndsWait(s: Settings, c: Clocked, f: Future, t: int)
    requires c.now < c.deadline == t <= c.now + Max(s.recheckMinutes, 1) * 60
    requires MillListed(s, Met(c, f, t), WorldAt(f, t)) && IdleOrAway(WorldAt(f, t))
    ensures var m, w, next := Met(c, f, t), WorldAt(f, t), Polls(s, c, f, 1);
      && next.now == t && next.mill == FullPass(s, m, w).state && next.mill.deferral.since.None?
      && Attempts(FullPass(s, m, w).log, s.millId) == (if Free(w, m.fleet[s.millId]) then 1 else 0)
      && s.millId in next.mill.fleet && (w.urlKnown ==> next.mill.fleet[s.millId].pendingSince.None?)
  {
    PollPasses(s, c, f);
    FullPassExactly(s, Met(c, f, t), WorldAt(f, t));
  }

  /** A poll that is not at the deadline is a recheck at the end of a slice of at least a minute. */
  lemma {:induction false} PollRechecks(s: Settings, c: Clocked, f: Future)
    requires c.now + Max(s.recheckMinutes, 1) * 60 < c.deadline
    ensures var t := c.now + Max(s.recheckMinutes, 1) * 60;
      Polls(s, c, f, 1) == Clocked(Recheck(s, Met(c, f, t), WorldAt(f, t)).state, t, c.deadline)
  {
    FirstPoll(s, c, f);
  }

  /** The poll at the deadline is the full pass, and sets the next one at least an hour later. */
  lemma {:induction false} PollPasses(s: Settings, c: Clocked, f: Future)
    requires c.now < c.deadline <= c.now + Max(s.recheckMinutes, 1) * 60
    ensures var t := c.deadline;
      Polls(s, c, f, 1) ==
        Clocked(FullPass(s, Met(c, f, t), WorldAt(f, t)).state, t, t + Max(s.intervalHours, 1) * 3600)
  {
    FirstPoll(s, c, f);
  }

  /** Without a configured mill, or with the caretaker switched off, a recheck only closes the deferral. */
  lemma RecheckWithoutMill(s: Settings, m: Mill, w: World)
    requires s.millId == "" || !s.enabled
    ensures Recheck(s, m, w) == Trail(m.(deferral := m.deferral.(since := None)), [])
  {
  }

  /** Without a configured mill, or with the caretaker switched off, the wait is one sleep; once over, it is over. */
  lemma WaitWithoutMill(s: Settings, c: Clocked, f: Future)
    ensures c.now >= c.deadline ==> Waited(s, c, f) == c
    ensures c.now < c.deadline && (s.millId == "" || !s.enabled) ==> Waited(s, c, f) == c.(now := c.deadline)
  {
  }

  /** What others did last to a record is what a poll meets. */
  lemma {:induction false} LastChangeIsMet(fleet: Fleet, changes: seq<Change>, c: Change, n: string)
    requires n in fleet
    ensures var before, after := ChangeFleet(fleet, changes), ChangeFleet(fleet, changes + [c]);
      after[n] == if n != c.name then before[n]
                  else if c.TickOf? then Ticked(before[n], c.o)
                  else c.r.(name := before[n].name, failed := before[n].failed)
    ensures ChangeFleet(fleet, []) == fleet
    decreases |changes|
  {
    if changes == [] {
      assert [] + [c] == [c] && [c][1..] == [];
      assert ChangeFleet(fleet, [c]) == Step(fleet, ChangeEvent(c)).state;
    } else {
      assert (changes + [c])[0] == changes[0] && (changes + [c])[1..] == changes[1..] + [c];
      LastChangeIsMet(Step(fleet, ChangeEvent(changes[0])).state, changes[1..], c, n);
    }
  }
}
