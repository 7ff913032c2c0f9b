/** Who the update phase may touch: whole-phase consequences of its guards, its fan-out and its rollback. */
module UpdateGuards {
  import opened Wrappers
  import opened Runs
  import opened ServiceRecords
  import opened UpdatePhase

  // ---- What identifies a record ------------------------------------------------------------------

  predicate SameIdentity(a: Rec, b: Rec) {
    a.name == b.name && a.componentId == b.componentId && a.containerName == b.containerName
  }

  predicate SameIdentities(a: Fleet, b: Fleet) {
    a.Keys == b.Keys && forall n :: n in a ==> SameIdentity(a[n], b[n])
  }

  lemma {:induction false} FanOutIdentities(fleet: Fleet, parent: string, sibs: seq<Sibling>, env: Environment)
    ensures SameIdentities(fleet, FannedOut(fleet, parent, sibs, env))
    decreases |sibs|
  {
    if sibs != [] {
      var n := SiblingName(parent, sibs[0].key);
      var rest := if n in fleet && env.sibling(n).SiblingDone?
        then fleet[n := SiblingWritten(fleet[n], sibs[0].image, env.sibling(n))] else fleet;
      FanOutIdentities(rest, parent, sibs[1..], env);
    }
  }

  lemma TurnIdentities(fleet: Fleet, e: Event)
    requires e.Turn?
    ensures SameIdentities(fleet, Step(fleet, e).state)
  {
    if e.name in fleet && Eligible(e.pass, e.stale, e.held, fleet[e.name]) {
      var r, a := fleet[e.name], e.env.answer(e.name);
      var config := e.pass.configs[r.name];
      if !DeploysPrimary(r) {
        FanOutIdentities(fleet, r.name, config.siblings, e.env);
      } else if a.DeployDone? {
        TicksKeep(Fresh(r, config.image, a), a.window);
        FanOutIdentities(fleet[e.name := AfterDeploy(r, config.image, a)], r.name, config.siblings, e.env);
      }
    }
  }

  lemma {:induction false} TurnsIdentities(fleet: Fleet, events: seq<Event>)
    requires forall i :: 0 <= i < |events| ==> events[i].Turn?
    ensures SameIdentities(fleet, Run(Step, fleet, events).state)
    decreases |events|
  {
    if events != [] {
      TurnIdentities(fleet, events[0]);
      TurnsIdentities(Step(fleet, events[0]).state, events[1..]);
    }
  }

  // ---- Only allowed attempts ---------------------------------------------------------------------

  /** What the phase promises about every component it deploys. */
  predicate Allowed(pass: Pass, held: set<string>, r: Rec) {
    && pass.selfKnown && (pass.selfContainer != "" ==> r.containerName != pass.selfContainer)
    && r.componentId == "" && r.name !in pass.busy && r.name !in held
    && (pass.only.Some? ==> r.name in pass.only.value)
    && r.name in pass.configs && pass.configs[r.name].autoUpdate
  }

  /**
   * Every attempt of a whole phase is on a primary that opted in, is not busy or locked, and does not
   * run the caretaker itself, however earlier turns of the phase changed the records.
   */
  lemma {:induction false} AttemptsAreAllowed(fleet: Fleet, pass: Pass, stale: set<string>, held: set<string>,
                                              order: seq<string>, env: Environment, i: nat)
    requires i < |Run(Step, fleet, PhaseEvents(pass, stale, held, order, env)).log|
    ensures var e := Run(Step, fleet, PhaseEvents(pass, stale, held, order, env)).log[i];
      e.name in fleet && Allowed(pass, held, fleet[e.name])
  {
    var events := PhaseEvents(pass, stale, held, order, env);
    var n, before, at, after := Writer(Step, fleet, events, i);
    assert forall k :: 0 <= k < n ==> events[..n][k] == events[k];
    TurnsIdentities(fleet, events[..n]);
    TurnIsAllowed(before.state, pass, stale, held, order[n], env);
  }

  lemma TurnIsAllowed(fleet: Fleet, pass: Pass, stale: set<string>, held: set<string>, n: string, env: Environment)
    ensures var log := Step(fleet, Turn(pass, stale, held, n, env)).log;
      && |log| <= 1
      && (log != [] ==> n in fleet && log[0].name == n && (pass.selfKnown ==> Allowed(pass, held, fleet[n])))
  {
  }

  // ---- Digests -----------------------------------------------------------------------------------

  /**
   * After a deploy whose verification failed, the record names the failed image exactly once: as
   * the previous one if the rollback worked, and as the deployed one otherwise.
   */
  lemma FailedImageIsNamed(r: Rec, image: string, a: Answer)
    requires Crashes(a) && a.digest != ""
    ensures var after := AfterDeploy(r, image, a);
      if a.previous != "" && a.rollback.RolledBack?
      then after.previous == a.digest && after.deployed == a.rollback.digest
      else after.deployed == a.digest && after.previous == a.previous && after.state == Failed
  {
    TicksKeep(Fresh(r, image, a), a.window);
  }

  /** Whether the update flag says what it should: the registry shows another image than the deployed one. */
  predicate Honest(r: Rec) {
    r.updateAvailable <==> r.latest != r.deployed
  }

  /** Once some lookup of a run of ticks gives a digest, the flag is honest, and it stays so. */
  lemma {:induction false} TicksMakeHonest(r: Rec, os: seq<Sighting>)
    requires r.image != "" && r.deployed != ""
    requires Honest(r) || exists i :: 0 <= i < |os| && os[i].lookup.Digest?
    ensures Honest(TickedAll(r, os))
    decreases |os|
  {
    if os != [] {
      if !Honest(Ticked(r, os[0])) {
        var i :| 0 <= i < |os| && os[i].lookup.Digest?;
        assert os[1..][i - 1].lookup.Digest?;
      }
      TicksMakeHonest(Ticked(r, os[0]), os[1..]);
    }
  }

  /** Whether the last lookup that was answered at all failed to authenticate. */
  function LastAuth(before: bool, os: seq<Sighting>): bool
    decreases |os|
  {
    if os == [] then before
    else match os[|os| - 1].lookup
      case LookupRaised => LastAuth(before, os[..|os| - 1])
      case AuthError => true
      case _ => false
  }

  lemma {:induction false} TickedSnoc(r: Rec, os: seq<Sighting>, o: Sighting)
    ensures TickedAll(r, os + [o]) == Ticked(TickedAll(r, os), o)
    decreases |os|
  {
    if os == [] {
      assert ([] + [o])[1..] == [];
    } else {
      assert (os + [o])[0] == os[0] && (os + [o])[1..] == os[1..] + [o];
      TickedSnoc(Ticked(r, os[0]), os[1..], o);
    }
  }

  /** After any ticks the authentication flag tells what the last answered lookup met. */
  lemma {:induction false} TicksShowAuth(r: Rec, os: seq<Sighting>)
    requires r.image != "" && r.deployed != ""
    ensures TickedAll(r, os).authError == LastAuth(r.authError, os)
    decreases |os|
  {
    if os != [] {
      var front := os[..|os| - 1];
      assert os == front + [os[|os| - 1]];
      TicksShowAuth(r, front);
      TickedSnoc(r, front, os[|os| - 1]);
      TicksKeep(r, front);
    }
  }

  /** A record that knows no deployed digest adopts the running one, once it is seen, and is then looked up. */
  lemma TickAdopts(r: Rec, o: Sighting)
    requires r.image != ""
    ensures var t := Ticked(r, o);
      && t.deployed == (if r.deployed == "" && o.running.Some? then o.running.value else r.deployed)
      && (t.deployed == "" ==> t == r)
      && (t.deployed != "" && o.lookup.Digest? ==>
            t.latest == o.lookup.digest && (t.updateAvailable <==> t.latest != t.deployed))
      && (!o.lookup.Digest? ==> t.latest == r.latest && t.updateAvailable == r.updateAvailable)
  {
  }

  /** A record without an image is never touched. */
  lemma TickNeedsImage(r: Rec, o: Sighting)
    requires r.image == ""
    ensures Ticked(r, o) == r
  {
  }
}
