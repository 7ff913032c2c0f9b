/** What a turn and a whole phase leave on the records of a primary and its siblings. */
module UpdateOutcomes {
  import opened Wrappers
  import opened Runs
  import opened ServiceRecords
  import opened DeployVerification
  import opened UpdatePhase
  import opened UpdateGuards

  // ---- Whose turn does something -----------------------------------------------------------------

  /** The registry shows the digest that failed verification. */
  predicate MarkedBad(r: Rec) {
    r.failed != "" && r.latest == r.failed
  }

  /** Nothing stands against deploying this primary or its siblings now. */
  predicate Permitted(pass: Pass, held: set<string>, r: Rec) {
    && r.componentId == "" && (pass.only.Some? ==> r.name in pass.only.value)
    && (pass.selfContainer == "" || r.containerName != pass.selfContainer)
    && r.name !in pass.busy && r.name !in held
    && r.name in pass.configs && pass.configs[r.name].autoUpdate
  }

  /** The primary has an update that is not known to be bad. */
  predicate WantsUpdate(r: Rec) {
    r.updateAvailable && !MarkedBad(r)
  }

  /** A permitted record takes its turn for an update of its own, or for a stale sibling. */
  predicate TakesTurn(pass: Pass, stale: set<string>, held: set<string>, r: Rec) {
    Permitted(pass, held, r) && (WantsUpdate(r) || r.name in stale)
  }

  lemma TakesTurnIsEligible(pass: Pass, stale: set<string>, held: set<string>, r: Rec)
    ensures TakesTurn(pass, stale, held, r) <==> Eligible(pass, stale, held, r)
  {
  }

  // ---- Siblings ----------------------------------------------------------------------------------

  /** The sibling's record after its own deploy went through. */
  predicate Refreshed(r: Rec, a: SiblingAnswer)
    requires a.SiblingDone?
  {
    && r.deployed == a.digest && r.previous == a.previous && r.state == a.state
    && !r.updateAvailable && r.pendingSince.None?
  }

  /** All siblings of one name have one image. */
  predicate OneImage(sibs: seq<Sibling>, key: string, image: string) {
    forall j :: 0 <= j < |sibs| && sibs[j].key == key ==> sibs[j].image == image
  }

  lemma {:induction false} FanOutRefreshes(fleet: Fleet, parent: string, sibs: seq<Sibling>, env: Environment, i: nat)
    requires i < |sibs| && SiblingName(parent, sibs[i].key) in fleet
    requires env.sibling(SiblingName(parent, sibs[i].key)).SiblingDone?
    ensures var n := SiblingName(parent, sibs[i].key);
      var r := FannedOut(fleet, parent, sibs, env)[n];
      Refreshed(r, env.sibling(n)) && (OneImage(sibs, sibs[i].key, sibs[i].image) ==> r.image == sibs[i].image)
    decreases |sibs|
  {
    var n, m := SiblingName(parent, sibs[i].key), SiblingName(parent, sibs[0].key);
    var rest := if m in fleet && env.sibling(m).SiblingDone?
      then fleet[m := SiblingWritten(fleet[m], sibs[0].image, env.sibling(m))] else fleet;
    if i > 0 {
      FanOutRefreshes(rest, parent, sibs[1..], env, i - 1);
      assert OneImage(sibs, sibs[i].key, sibs[i].image) ==> OneImage(sibs[1..], sibs[i].key, sibs[i].image);
    } else {
      KeepsRefreshed(rest, parent, sibs[1..], env, n, sibs[0].key, sibs[0].image);
    }
  }

  lemma {:induction false} KeepsRefreshed(fleet: Fleet, parent: string, sibs: seq<Sibling>, env: Environment, n: string,
                                          key: string, image: string)
    requires n in fleet && env.sibling(n).SiblingDone? && Refreshed(fleet[n], env.sibling(n))
    ensures var r := FannedOut(fleet, parent, sibs, env)[n];
      && Refreshed(r, env.sibling(n))
      && (n == SiblingName(parent, key) && OneImage(sibs, key, image) && fleet[n].image == image ==> r.image == image)
    decreases |sibs|
  {
    if sibs != [] {
      var m := SiblingName(parent, sibs[0].key);
      var rest := if m in fleet && env.sibling(m).SiblingDone?
        then fleet[m := SiblingWritten(fleet[m], sibs[0].image, env.sibling(m))] else fleet;
      if m == n && n == SiblingName(parent, key) {
        SameKey(parent, sibs[0].key, key);
      }
      assert OneImage(sibs, key, image) ==> OneImage(sibs[1..], key, image);
      KeepsRefreshed(rest, parent, sibs[1..], env, n, key, image);
    }
  }

  lemma SameKey(parent: string, a: string, b: string)
    requires SiblingName(parent, a) == SiblingName(parent, b)
    ensures a == b
  {
    assert (parent + "-" + a)[|parent| + 1..] == a && (parent + "-" + b)[|parent| + 1..] == b;
  }

  /**
   * When a record takes its turn and its own deploy, if it wants one, does not raise, every sibling
   * in its configuration that is in the store and whose deploy goes through holds the new digest,
   * image and state and no longer asks for an update.
   */
  lemma {:induction false} TurnRefreshesSiblings(fleet: Fleet, pass: Pass, stale: set<string>, held: set<string>,
                                                 n: string,
                                                 env: Environment, i: nat)
    requires n in fleet && fleet[n].name == n && TakesTurn(pass, stale, held, fleet[n])
    requires WantsUpdate(fleet[n]) ==> env.answer(n).DeployDone?
    requires i < |pass.configs[n].siblings|
    ensures var sibs := pass.configs[n].siblings;
      var m := n + "-" + sibs[i].key;
      m in fleet && env.sibling(m).SiblingDone? ==>
        var r := Step(fleet, Turn(pass, stale, held, n, env)).state[m];
        && Refreshed(r, env.sibling(m))
        && (OneImage(sibs, sibs[i].key, sibs[i].image) ==> r.image == sibs[i].image)
  {
    var config := pass.configs[n];
    var m := SiblingName(n, config.siblings[i].key);
    if m in fleet && env.sibling(m).SiblingDone? {
      if WantsUpdate(fleet[n]) {
        var deployed := fleet[n := AfterDeploy(fleet[n], config.image, env.answer(n))];
        FanOutRefreshes(deployed, n, config.siblings, env, i);
      } else {
        FanOutRefreshes(fleet, n, config.siblings, env, i);
      }
    }
  }

  // ---- The primary -------------------------------------------------------------------------------

  lemma {:induction false} FanOutSpares(fleet: Fleet, parent: string, sibs: seq<Sibling>, env: Environment, q: string)
    requires q in fleet && forall i :: 0 <= i < |sibs| ==> parent + "-" + sibs[i].key != q
    ensures FannedOut(fleet, parent, sibs, env)[q] == fleet[q]
    decreases |sibs|
  {
    if sibs != [] {
      var m := SiblingName(parent, sibs[0].key);
      assert m == parent + "-" + sibs[0].key;
      var rest := if m in fleet && env.sibling(m).SiblingDone?
        then fleet[m := SiblingWritten(fleet[m], sibs[0].image, env.sibling(m))] else fleet;
      assert forall i :: 0 <= i < |sibs| - 1 ==> sibs[1..][i] == sibs[i + 1];
      FanOutSpares(rest, parent, sibs[1..], env, q);
    }
  }

  lemma NotItsOwnSibling(fleet: Fleet, n: string, sibs: seq<Sibling>, env: Environment)
    requires n in fleet
    ensures FannedOut(fleet, n, sibs, env)[n] == fleet[n]
  {
    forall i | 0 <= i < |sibs| ensures n + "-" + sibs[i].key != n {
      assert |n + "-" + sibs[i].key| > |n|;
    }
    FanOutSpares(fleet, n, sibs, env, n);
  }

  /** The record and the entry of a primary that wants its update when it takes its turn. */
  lemma {:induction false} TurnDeploysPrimary(fleet: Fleet, pass: Pass, stale: set<string>, held: set<string>,
                                              n: string,
                                              env: Environment)
    requires n in fleet && fleet[n].name == n && Permitted(pass, held, fleet[n])
    requires WantsUpdate(fleet[n])
    ensures var t, r, a := Step(fleet, Turn(pass, stale, held, n, env)), fleet[n], env.answer(n);
      if a.DeployRaised? then t.log == [Entry(n, r.latest, Raised)] && t.state == fleet
      else
        var seen := TickedAll(r.(state := a.state, image := pass.configs[n].image, deployed := a.digest,
                                 previous := a.previous, updateAvailable := false, failed := "", pendingSince := None),
                              a.window);
        if !Condemned(Window(a.diag)) then t.log == [Entry(n, r.latest, Healthy)] && t.state[n] == seen
        else
          && t.log == [Entry(n, r.latest, Crashed(seen.latest))]
          && t.state[n].failed == seen.latest && t.state[n].image == pass.configs[n].image
          && !t.state[n].pendingSince.Some?
          && (if seen.previous != "" && a.rollback.RolledBack?
              then t.state[n].deployed == a.rollback.digest && t.state[n].previous == seen.deployed
              else t.state[n].deployed == seen.deployed && t.state[n].previous == seen.previous
                   && t.state[n].state == Failed)
  {
    var r, a, config := fleet[n], env.answer(n), pass.configs[n];
    if a.DeployDone? {
      TicksKeep(Fresh(r, config.image, a), a.window);
      NotItsOwnSibling(fleet[n := AfterDeploy(r, config.image, a)], n, config.siblings, env);
    }
  }

  /**
   * A healthy deploy, whatever ticks in its window: new digests, the configured image, no marker and
   * no clock; and an update is only pending again if a lookup showed yet another digest.
   */
  lemma {:induction false} HealthyDeployLeaves(fleet: Fleet, pass: Pass, stale: set<string>, held: set<string>,
                                               n: string,
                                               env: Environment)
    requires n in fleet && fleet[n].name == n && Permitted(pass, held, fleet[n]) && WantsUpdate(fleet[n])
    requires env.answer(n).DeployDone? && env.answer(n).digest != ""
    requires !Condemned(Window(env.answer(n).diag))
    ensures var t, a := Step(fleet, Turn(pass, stale, held, n, env)), env.answer(n);
      var r := t.state[n];
      && t.log == [Entry(n, fleet[n].latest, Healthy)]
      && r.deployed == a.digest && r.previous == a.previous && r.image == pass.configs[n].image && r.state == a.state
      && r.failed == "" && r.pendingSince.None?
      && (r.updateAvailable ==>
            exists i :: 0 <= i < |a.window| && a.window[i].lookup.Digest? && a.window[i].lookup.digest != a.digest)
  {
    var r, a := fleet[n], env.answer(n);
    var untouched := r.(state := a.state, image := pass.configs[n].image, deployed := a.digest,
                    previous := a.previous, updateAvailable := false, failed := "", pendingSince := None);
    TurnDeploysPrimary(fleet, pass, stale, held, n, env);
    TicksKeep(untouched, a.window);
    FlagNeedsLookup(untouched, a.window);
  }

  lemma {:induction false} FlagNeedsLookup(r: Rec, os: seq<Sighting>)
    requires r.deployed != ""
    ensures TickedAll(r, os).state == r.state
    ensures TickedAll(r, os).updateAvailable ==>
      r.updateAvailable || exists i :: 0 <= i < |os| && os[i].lookup.Digest? && os[i].lookup.digest != r.deployed
    decreases |os|
  {
    if os != [] {
      var next := Ticked(r, os[0]);
      FlagNeedsLookup(next, os[1..]);
      assert forall i :: 0 <= i < |os| - 1 ==> os[1..][i] == os[i + 1];
      if TickedAll(next, os[1..]).updateAvailable && !next.updateAvailable {
        var i :| 0 <= i < |os| - 1 && os[1..][i].lookup.Digest? && os[1..][i].lookup.digest != next.deployed;
        assert os[i + 1].lookup.Digest? && os[i + 1].lookup.digest != r.deployed;
      }
    }
  }

  // ---- A whole phase -----------------------------------------------------------------------------

  /** No configured sibling has the name `q`. */
  predicate NotASibling(q: string, configs: map<string, Config>) {
    forall n, i :: n in configs && 0 <= i < |configs[n].siblings| ==> n + "-" + configs[n].siblings[i].key != q
  }

  predicate Keyed(fleet: Fleet) {
    forall n :: n in fleet ==> fleet[n].name == n
  }

  lemma {:induction false} TurnKeepsKeys(fleet: Fleet, e: Event)
    requires e.Turn? && Keyed(fleet)
    ensures Keyed(Step(fleet, e).state) && Step(fleet, e).state.Keys == fleet.Keys
  {
    TurnIdentities(fleet, e);
  }

  /** A turn of another record leaves a primary alone. */
  lemma {:induction false} OtherTurnSpares(fleet: Fleet, pass: Pass, stale: set<string>, held: set<string>, n: string,
                                           env: Environment, q: string)
    requires Keyed(fleet) && q in fleet && n != q && NotASibling(q, pass.configs)
    ensures Step(fleet, Turn(pass, stale, held, n, env)).state[q] == fleet[q]
  {
    if n in fleet && Eligible(pass, stale, held, fleet[n]) {
      var config := pass.configs[n];
      if !DeploysPrimary(fleet[n]) {
        FanOutSpares(fleet, n, config.siblings, env, q);
      } else if env.answer(n).DeployDone? {
        FanOutSpares(fleet[n := AfterDeploy(fleet[n], config.image, env.answer(n))], n, config.siblings, env, q);
      }
    }
  }

  /** A turn of any record leaves a refreshed sibling record refreshed. */
  lemma {:induction false} TurnKeepsRefreshed(fleet: Fleet, pass: Pass, stale: set<string>, held: set<string>,
                                              n: string,
                                              env: Environment, m: string)
    requires Keyed(fleet) && m in fleet && fleet[m].componentId != ""
    requires env.sibling(m).SiblingDone? && Refreshed(fleet[m], env.sibling(m))
    ensures Refreshed(Step(fleet, Turn(pass, stale, held, n, env)).state[m], env.sibling(m))
  {
    if n in fleet && Eligible(pass, stale, held, fleet[n]) {
      var config := pass.configs[n];
      if !DeploysPrimary(fleet[n]) {
        KeepsRefreshed(fleet, n, config.siblings, env, m, "", "");
      } else if env.answer(n).DeployDone? {
        var deployed := fleet[n := AfterDeploy(fleet[n], config.image, env.answer(n))];
        KeepsRefreshed(deployed, n, config.siblings, env, m, "", "");
      }
    }
  }

  lemma {:induction false} TurnsKeepRefreshed(fleet: Fleet, pass: Pass, stale: set<string>, held: set<string>,
                                              order: seq<string>, env: Environment, m: string)
    requires Keyed(fleet) && m in fleet && fleet[m].componentId != ""
    requires env.sibling(m).SiblingDone? && Refreshed(fleet[m], env.sibling(m))
    ensures var f := Run(Step, fleet, Turns(pass, stale, held, order, env)).state;
      m in f && Refreshed(f[m], env.sibling(m))
    decreases |order|
  {
    if order != [] {
      var events := Turns(pass, stale, held, order, env);
      var next := Step(fleet, events[0]).state;
      assert events[1..] == Turns(pass, stale, held, order[1..], env);
      TurnKeepsRefreshed(fleet, pass, stale, held, order[0], env, m);
      TurnKeepsKeys(fleet, events[0]);
      TurnIdentities(fleet, events[0]);
      TurnsKeepRefreshed(next, pass, stale, held, order[1..], env, m);
    }
  }

  lemma {:induction false} TurnsRefreshSiblings(fleet: Fleet, pass: Pass, stale: set<string>, held: set<string>,
                                                order: seq<string>, env: Environment, p: string, i: nat)
    requires Keyed(fleet) && p in fleet && p in order && NotASibling(p, pass.configs)
    requires TakesTurn(pass, stale, held, fleet[p]) && (WantsUpdate(fleet[p]) ==> env.answer(p).DeployDone?)
    requires i < |pass.configs[p].siblings|
    requires var m := p + "-" + pass.configs[p].siblings[i].key;
      m in fleet && fleet[m].componentId != "" && env.sibling(m).SiblingDone?
    ensures var m := p + "-" + pass.configs[p].siblings[i].key;
      var f := Run(Step, fleet, Turns(pass, stale, held, order, env)).state;
      m in f && Refreshed(f[m], env.sibling(m))
    decreases |order|
  {
    var events := Turns(pass, stale, held, order, env);
    var next := Step(fleet, events[0]).state;
    assert events[1..] == Turns(pass, stale, held, order[1..], env);
    TurnKeepsKeys(fleet, events[0]);
    TurnIdentities(fleet, events[0]);
    if order[0] == p {
      TurnRefreshesSiblings(fleet, pass, stale, held, p, env, i);
      TurnsKeepRefreshed(next, pass, stale, held, order[1..], env, p + "-" + pass.configs[p].siblings[i].key);
    } else {
      OtherTurnSpares(fleet, pass, stale, held, order[0], env, p);
      TurnsRefreshSiblings(next, pass, stale, held, order[1..], env, p, i);
    }
  }

  /**
   * A stale sibling record is enough: after a whole phase, every configured sibling of its permitted
   * parent that is in the store and whose deploy goes through is refreshed, unless the parent's own
   * deploy raised.
   */
  lemma {:induction false} PhaseRefreshesSiblings(fleet: Fleet, pass: Pass, held: set<string>, order: seq<string>,
                                                  env: Environment, p: string, q: string, i: nat)
    requires Keyed(fleet) && p in fleet && p in order && NotASibling(p, pass.configs) && pass.selfKnown
    requires Permitted(pass, held, fleet[p]) && (WantsUpdate(fleet[p]) ==> env.answer(p).DeployDone?)
    requires p != "" && q in fleet && fleet[q].componentId == p && fleet[q].updateAvailable
    requires i < |pass.configs[p].siblings|
    requires var m := p + "-" + pass.configs[p].siblings[i].key;
      m in fleet && fleet[m].componentId != "" && env.sibling(m).SiblingDone?
    ensures var m := p + "-" + pass.configs[p].siblings[i].key;
      var f := Run(Step, fleet, PhaseEvents(pass, StaleParents(fleet), held, order, env)).state;
      m in f && Refreshed(f[m], env.sibling(m))
  {
    assert fleet[q].componentId in StaleParents(fleet);
    TurnsRefreshSiblings(fleet, pass, StaleParents(fleet), held, order, env, p, i);
  }

  // ---- Exactly who is attempted ------------------------------------------------------------------

  predicate Distinct(order: seq<string>) {
    forall i, j :: 0 <= i < j < |order| ==> order[i] != order[j]
  }

  function Attempts(log: seq<Entry>, p: string): nat {
    if log == [] then 0 else (if log[0].name == p then 1 else 0) + Attempts(log[1..], p)
  }

  lemma {:induction false} AttemptsConcat(a: seq<Entry>, b: seq<Entry>, p: string)
    ensures Attempts(a + b, p) == Attempts(a, p) + Attempts(b, p)
  {
    if a == [] {
      assert a + b == b;
    } else {
      assert (a + b)[0] == a[0] && (a + b)[1..] == a[1..] + b;
      AttemptsConcat(a[1..], b, p);
    }
  }

  lemma {:induction false} TurnAttempts(fleet: Fleet, pass: Pass, stale: set<string>, held: set<string>, n: string,
                                        env: Environment)
    requires n in fleet && fleet[n].name == n
    ensures var log := Step(fleet, Turn(pass, stale, held, n, env)).log;
      if Permitted(pass, held, fleet[n]) && WantsUpdate(fleet[n])
      then |log| == 1 && log[0].name == n && log[0].target == fleet[n].latest
      else log == []
  {
  }

  lemma {:induction false} NotAttemptedLater(fleet: Fleet, pass: Pass, stale: set<string>, held: set<string>,
                                             order: seq<string>,
                                         env: Environment, p: string)
    requires Keyed(fleet) && p !in order
    ensures Attempts(Run(Step, fleet, Turns(pass, stale, held, order, env)).log, p) == 0
    decreases |order|
  {
    if order != [] {
      var events := Turns(pass, stale, held, order, env);
      var first := Step(fleet, events[0]);
      assert events[1..] == Turns(pass, stale, held, order[1..], env);
      TurnKeepsKeys(fleet, events[0]);
      NotAttemptedLater(first.state, pass, stale, held, order[1..], env, p);
      if order[0] in fleet { TurnAttempts(fleet, pass, stale, held, order[0], env); }
      AttemptsConcat(first.log, Run(Step, first.state, events[1..]).log, p);
    }
  }

  /** A record that comes up once in a phase is attempted once if it is permitted and wants its update, else never. */
  lemma {:induction false} TurnsAttemptExactly(fleet: Fleet, pass: Pass, stale: set<string>, held: set<string>,
                                               order: seq<string>, env: Environment, p: string)
    requires Keyed(fleet) && p in fleet && NotASibling(p, pass.configs)
    requires Distinct(order)
    ensures Attempts(Run(Step, fleet, Turns(pass, stale, held, order, env)).log, p) ==
      if p in order && Permitted(pass, held, fleet[p]) && WantsUpdate(fleet[p]) then 1 else 0
    decreases |order|
  {
    if order != [] {
      var events, rest := Turns(pass, stale, held, order, env), order[1..];
      var first := Step(fleet, events[0]);
      assert events[1..] == Turns(pass, stale, held, rest, env);
      TurnKeepsKeys(fleet, events[0]);
      if order[0] in fleet { TurnAttempts(fleet, pass, stale, held, order[0], env); }
      AttemptsConcat(first.log, Run(Step, first.state, events[1..]).log, p);
      if order[0] == p {
        assert p !in rest;
        NotAttemptedLater(first.state, pass, stale, held, rest, env, p);
      } else {
        OtherTurnSpares(fleet, pass, stale, held, order[0], env, p);
        TurnsAttemptExactly(first.state, pass, stale, held, rest, env, p);
      }
    }
  }

  /**
   * In a whole phase a primary is attempted exactly once if the caretaker knows its own container and
   * the primary is permitted and wants its update, and otherwise not at all.
   */
  lemma {:induction false} PhaseAttemptsExactly(fleet: Fleet, pass: Pass, stale: set<string>, held: set<string>,
                                                order: seq<string>, env: Environment, p: string)
    requires Keyed(fleet) && p in fleet && p in order && NotASibling(p, pass.configs)
    requires Distinct(order)
    ensures Attempts(Run(Step, fleet, PhaseEvents(pass, stale, held, order, env)).log, p) ==
      if pass.selfKnown && Permitted(pass, held, fleet[p]) && WantsUpdate(fleet[p]) then 1 else 0
  {
    if pass.selfKnown {
      TurnsAttemptExactly(fleet, pass, stale, held, order, env, p);
    }
  }
}
