/** A digest that failed verification is not deployed again over any run of passes, ticks and other writers. */
module KnownBadDigests {
  import opened Wrappers
  import opened Runs
  import opened ServiceRecords
  import opened DeployVerification
  import opened UpdatePhase
  import opened UpdateGuards

  /** A deploy of `p` at some other target went through. */
  predicate CompletedElsewhere(p: string, d: string, e: Entry) {
    e.name == p && e.target != d && !e.outcome.Raised?
  }

  /** Every attempt to deploy `p` at `d` comes after a completed deploy of `p` at another target. */
  ghost predicate Spared(p: string, d: string, log: seq<Entry>) {
    forall j :: 0 <= j < |log| && log[j].name == p && log[j].target == d ==>
      exists m :: 0 <= m < j && CompletedElsewhere(p, d, log[m])
  }

  lemma {:induction false} FanOutKeeps(fleet: Fleet, parent: string, sibs: seq<Sibling>, env: Environment, q: string)
    requires q in fleet
    ensures var f := FannedOut(fleet, parent, sibs, env);
      f[q].failed == fleet[q].failed && f[q].latest == fleet[q].latest && f[q].authError == fleet[q].authError
    ensures (forall i :: 0 <= i < |sibs| ==> SiblingName(parent, sibs[i].key) != q) ==>
      FannedOut(fleet, parent, sibs, env)[q] == fleet[q]
    ensures FannedOut(fleet, parent, sibs, env)[q].updateAvailable ==> fleet[q].updateAvailable
    decreases |sibs|
  {
    if sibs != [] {
      var n := SiblingName(parent, sibs[0].key);
      var rest := if n in fleet && env.sibling(n).SiblingDone?
        then fleet[n := SiblingWritten(fleet[n], sibs[0].image, env.sibling(n))] else fleet;
      FanOutKeeps(rest, parent, sibs[1..], env, q);
    }
  }

  /** One step: the marker of `p` stays, unless `p` itself completes a deploy. */
  lemma StepAndMarker(fleet: Fleet, e: Event, p: string)
    requires p in fleet
    ensures var t := Step(fleet, e);
      && |t.log| <= 1
      && (|t.log| == 1 ==> t.log[0].name == e.name && e.name in fleet && t.log[0].target == fleet[e.name].latest
                           && !KnownBad(fleet[e.name]))
      && ((t.log == [] || t.log[0].name != p || t.log[0].outcome.Raised?) ==>
            t.state[p].failed == fleet[p].failed)
      && (|t.log| == 1 && t.log[0].name == p && t.log[0].outcome.Crashed? ==>
            t.state[p].failed == t.log[0].outcome.marked)
  {
    if e.Turn? && e.name in fleet {
      var r := fleet[e.name];
      if Eligible(e.pass, e.stale, e.held, r) {
        ActAndMarker(fleet, e.name, e.pass.configs[r.name], e.env, p);
      }
    }
  }

  lemma ActAndMarker(fleet: Fleet, n: string, config: Config, env: Environment, p: string)
    requires p in fleet && n in fleet
    ensures var t := Act(fleet, n, config, env);
      && |t.log| <= 1
      && (|t.log| == 1 ==> t.log[0].name == n && t.log[0].target == fleet[n].latest && !KnownBad(fleet[n]))
      && ((t.log == [] || n != p || t.log[0].outcome.Raised?) ==> t.state[p].failed == fleet[p].failed)
      && (|t.log| == 1 && n == p && t.log[0].outcome.Crashed? ==> t.state[p].failed == t.log[0].outcome.marked)
  {
    var r, a := fleet[n], env.answer(n);
    if !DeploysPrimary(r) {
      FanOutKeeps(fleet, r.name, config.siblings, env, p);
    } else if a.DeployDone? {
      FanOutKeeps(fleet[n := AfterDeploy(r, config.image, a)], r.name, config.siblings, env, p);
    }
  }

  lemma SparedPrefix(p: string, d: string, e: Entry, rest: seq<Entry>)
    requires e.name == p ==> e.target != d
    requires CompletedElsewhere(p, d, e) || Spared(p, d, rest)
    ensures Spared(p, d, [e] + rest)
  {
    var log := [e] + rest;
    forall j | 0 <= j < |log| && log[j].name == p && log[j].target == d
      ensures exists m :: 0 <= m < j && CompletedElsewhere(p, d, log[m])
    {
      if CompletedElsewhere(p, d, e) {
        assert CompletedElsewhere(p, d, log[0]);
      } else {
        var m :| 0 <= m < j - 1 && CompletedElsewhere(p, d, rest[m]);
        assert CompletedElsewhere(p, d, log[m + 1]);
      }
    }
  }

  /** While `d` is the marker of `p`, whatever happens next spares `d`. */
  lemma {:induction false} MarkerProtects(fleet: Fleet, events: seq<Event>, p: string, d: string)
    requires p in fleet && d != "" && fleet[p].failed == d
    ensures Spared(p, d, Run(Step, fleet, events).log)
    decreases |events|
  {
    if events != [] {
      var t := Step(fleet, events[0]);
      StepAndMarker(fleet, events[0], p);
      if t.log == [] {
        MarkerProtects(t.state, events[1..], p, d);
        assert Run(Step, fleet, events).log == Run(Step, t.state, events[1..]).log;
      } else {
        if !CompletedElsewhere(p, d, t.log[0]) {
          MarkerProtects(t.state, events[1..], p, d);
        }
        SparedPrefix(p, d, t.log[0], Run(Step, t.state, events[1..]).log);
      }
    }
  }

  /** The two events with which a registry and an idle fleet bring an unmarked digest to deployment. */
  function Provoke(r: Rec, p: string, d: string): seq<Event> {
    [Foreign(p, r.(latest := d, updateAvailable := true)),
     Turn(Pass(true, "", {}, None, map[p := Config("", true, [])]), {}, {}, p,
          Environment(n => DeployRaised, n => SiblingFailed))]
  }

  lemma {:induction false} UnmarkedIsAttempted(fleet: Fleet, p: string, d: string)
    requires p in fleet && fleet[p].name == p && fleet[p].componentId == "" && fleet[p].failed != d
    ensures Run(Step, fleet, Provoke(fleet[p], p, d)).log == [Entry(p, d, Raised)]
  {
    var events := Provoke(fleet[p], p, d);
    RunSplit(Step, fleet, events[..1], events[1..]);
    assert events == events[..1] + events[1..];
    assert events[..1] == [events[0]] && events[1..] == [events[1]];
    RunOne(Step, fleet, events[0]);
    RunOne(Step, Step(fleet, events[0]).state, events[1]);
  }

  /** The marker is exactly what protects a primary from a digest, whatever ticks, passes and other writers do. */
  lemma MarkerIsProtection(fleet: Fleet, p: string, d: string)
    requires p in fleet && fleet[p].name == p && fleet[p].componentId == "" && d != ""
    ensures (forall events :: Spared(p, d, Run(Step, fleet, events).log)) <==> fleet[p].failed == d
  {
    if fleet[p].failed == d {
      forall events ensures Spared(p, d, Run(Step, fleet, events).log) {
        MarkerProtects(fleet, events, p, d);
      }
    } else {
      UnmarkedIsAttempted(fleet, p, d);
      var log := Run(Step, fleet, Provoke(fleet[p], p, d)).log;
      assert log[0].name == p && log[0].target == d;
      assert !Spared(p, d, log);
    }
  }

  // ---- From failure to protection ------------------------------------------------------------

  /** The registry digest after the ticks of a window. */
  function LastAnswer(latest: string, window: seq<Sighting>): string
    decreases |window|
  {
    if window == [] then latest
    else LastAnswer(if window[0].lookup.Digest? then window[0].lookup.digest else latest, window[1..])
  }

  lemma {:induction false} LatestAfterTicks(r: Rec, window: seq<Sighting>)
    requires r.image != "" && r.deployed != ""
    ensures TickedAll(r, window).latest == LastAnswer(r.latest, window)
    decreases |window|
  {
    if window != [] {
      LatestAfterTicks(Ticked(r, window[0]), window[1..]);
    }
  }

  /**
   * A failed deploy marks the digest it deployed exactly when the registry, as last seen inside
   * the verification window, still shows that digest.
   */
  lemma CrashMarksTarget(fleet: Fleet, e: Event)
    requires e.Turn? && e.name in fleet && Step(fleet, e).log != [] && Step(fleet, e).log[0].outcome.Crashed?
    requires var config := e.pass.configs[fleet[e.name].name]; config.image != ""
    requires e.env.answer(e.name).digest != ""
    ensures Step(fleet, e).log[0].outcome.marked == LastAnswer(fleet[e.name].latest, e.env.answer(e.name).window)
    ensures Step(fleet, e).state[e.name].failed == Step(fleet, e).log[0].outcome.marked
  {
    StepAndMarker(fleet, e, e.name);
    var r, a := fleet[e.name], e.env.answer(e.name);
    LatestAfterTicks(Fresh(r, e.pass.configs[r.name].image, a), a.window);
  }

  /**
   * After a crashed deploy of a component at `d`, every future spares `d` exactly when the registry,
   * as last seen inside the verification window, still showed `d`.
   */
  lemma {:induction false} CrashSparesTargetIff(fleet: Fleet, e: Event)
    requires e.Turn? && e.name in fleet && Step(fleet, e).log != [] && Step(fleet, e).log[0].outcome.Crashed?
    requires fleet[e.name].name == e.name && fleet[e.name].latest != ""
    requires e.pass.configs[e.name].image != "" && e.env.answer(e.name).digest != ""
    ensures var p, d := e.name, fleet[e.name].latest;
      && Step(fleet, e).log[0].target == d
      && ((forall later :: Spared(p, d, Run(Step, Step(fleet, e).state, later).log))
          <==> LastAnswer(d, e.env.answer(p).window) == d)
  {
    CrashMarksTarget(fleet, e);
    StepAndMarker(fleet, e, e.name);
    TurnIdentities(fleet, e);
    MarkerIsProtection(Step(fleet, e).state, e.name, fleet[e.name].latest);
  }

  lemma CrashProtects(fleet: Fleet, e: Event, later: seq<Event>, p: string, d: string)
    requires p in fleet && d != "" && Entry(p, d, Crashed(d)) in Step(fleet, e).log
    ensures |Step(fleet, e).log| == 1
    ensures Spared(p, d, Run(Step, Step(fleet, e).state, later).log)
  {
    StepAndMarker(fleet, e, p);
    MarkerProtects(Step(fleet, e).state, later, p, d);
  }

  lemma SparedAfter(p: string, d: string, log: seq<Entry>, i: nat, j: nat)
    requires i < j < |log| && Spared(p, d, log[i + 1..]) && log[j].name == p && log[j].target == d
    ensures exists m :: i < m < j && CompletedElsewhere(p, d, log[m])
  {
    var tail := log[i + 1..];
    assert tail[j - i - 1] == log[j];
    var m :| 0 <= m < j - i - 1 && CompletedElsewhere(p, d, tail[m]);
    assert log[m + i + 1] == tail[m];
  }

  /**
   * Once verification fails for a non-empty digest `d` that the registry still showed at the
   * verdict, no later attempt deploys that primary at `d` before a deploy at another target completed.
   */
  lemma {:induction false} KnownBadNotRetried(fleet: Fleet, events: seq<Event>, p: string, d: string, i: nat, j: nat)
    requires p in fleet && d != ""
    requires var log := Run(Step, fleet, events).log;
      i < j < |log| && log[i] == Entry(p, d, Crashed(d)) && log[j].name == p && log[j].target == d
    ensures var log := Run(Step, fleet, events).log;
      exists m :: i < m < j && CompletedElsewhere(p, d, log[m])
  {
    var log := Run(Step, fleet, events).log;
    var n, before, at, after := Writer(Step, fleet, events, i);
    NamesStay(fleet, events[..n]);
    assert log[i] == at.log[i - |before.log|];
    CrashProtects(before.state, events[n], events[n + 1..], p, d);
    assert log[i + 1..] == after.log;
    SparedAfter(p, d, log, i, j);
  }

  lemma {:induction false} NamesStay(fleet: Fleet, events: seq<Event>)
    ensures Run(Step, fleet, events).state.Keys == fleet.Keys
    decreases |events|
  {
    if events != [] {
      NamesStay(Step(fleet, events[0]).state, events[1..]);
    }
  }

  // ---- Where the code falls short ------------------------------------------------------------

  const CRASHING: nat -> Poll := i => Seen("exited", "", 0)

  function Racing(): Answer {
    DeployDone("bad", "old", Running, [Sighting(None, Digest("good"))], CRASHING, RolledBack("old", Running, None))
  }

  function RaceEnvironment(): Environment {
    Environment(n => Racing(), n => SiblingFailed)
  }

  /**
   * When a tick moves the registry digest inside the verification window, the marker goes to the
   * untried digest, and the crashed one is deployed again as soon as the registry shows it.
   */
  lemma TickInWindowDefeatsMarker()
    ensures var r := Rec("c", "", "c", "img", Running, "old", "", "bad", "", true, None, false);
      var turn := Turn(Pass(true, "", {}, None, map["c" := Config("img", true, [])]), {}, {}, "c", RaceEnvironment());
      Run(Step, map["c" := r], [turn, Tick("c", Sighting(None, Digest("bad"))), turn]).log ==
        [Entry("c", "bad", Crashed("good")), Entry("c", "bad", Crashed("good"))]
  {
    var r := Rec("c", "", "c", "img", Running, "old", "", "bad", "", true, None, false);
    var turn := Turn(Pass(true, "", {}, None, map["c" := Config("img", true, [])]), {}, {}, "c", RaceEnvironment());
    var tick := Tick("c", Sighting(None, Digest("bad")));
    var f0: Fleet := map["c" := r];
    assert Condemns(Window(CRASHING), 0);
    assert Window(CRASHING)[..0] == [];
    assert Crashes(Racing());
    assert Racing().window[1..] == [];
    var f1 := Step(f0, turn).state;
    assert f1["c"] == r.(image := "img", state := Running, deployed := "old", previous := "bad",
                         latest := "good", failed := "good", updateAvailable := true);
    var f2 := Step(f1, tick).state;
    assert f2["c"] == f1["c"].(latest := "bad", updateAvailable := true);
    var events := [turn, tick, turn];
    assert events[1..] == [tick, turn] && events[1..][1..] == [turn];
    RunOne(Step, f2, turn);
  }
}
