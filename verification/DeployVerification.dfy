/** Post-deploy verification and the rollback it triggers. */
module DeployVerification {
  import opened Wrappers
  import opened ServiceRecords

  /** What one diagnostics poll sees; an unreadable restart count counts as zero. */
  datatype Poll = Errored | Missing | Seen(state: string, health: string, restarts: int)

  datatype Verdict = Verdict(ok: bool, verified: bool, state: string, health: string, baseline: int, restarts: int)

  const FAILED_STATES := ["restarting", "exited", "dead"]

  /** At least two samples, so that a growing restart count can be observed at all. */
  function PollCount(windowSeconds: nat, pollInterval: nat): nat
    requires pollInterval > 0
  {
    Max(2, windowSeconds / pollInterval + 1)
  }

  // ---- The trace predicate the loop decides ----------------------------------------------------

  /** The restart count of the first poll that saw the container. */
  function Baseline(polls: seq<Poll>): Option<int> {
    if polls == [] then None
    else if polls[0].Seen? then Some(polls[0].restarts)
    else Baseline(polls[1..])
  }

  /** Poll `i` condemns the deploy: a failed state, restarts above the first observed count, or unhealthy at the end. */
  predicate Condemns(polls: seq<Poll>, i: nat)
    requires i < |polls|
  {
    && polls[i].Seen?
    && (|| polls[i].state in FAILED_STATES
        || polls[i].restarts > Baseline(polls).GetOr(polls[i].restarts)
        || (polls[i].health == "unhealthy" && i == |polls| - 1))
  }

  /** The deploy fails: some poll before the first missing container condemns it. */
  predicate Condemned(polls: seq<Poll>) {
    exists i :: 0 <= i < |polls| && Condemns(polls, i) && Missing !in polls[..i]
  }

  lemma {:induction false} BaselineSplit(a: seq<Poll>, b: seq<Poll>)
    ensures Baseline(a + b) == if Baseline(a).Some? then Baseline(a) else Baseline(b)
  {
    if a == [] {
      assert a + b == b;
    } else {
      assert (a + b)[1..] == a[1..] + b;
      BaselineSplit(a[1..], b);
    }
  }

  /** The first poll that sees the container, as `Baseline` finds it. */
  predicate FirstSeen(polls: seq<Poll>, f: nat) {
    f < |polls| && polls[f].Seen? && forall j :: 0 <= j < f ==> !polls[j].Seen?
  }

  lemma {:induction false} BaselineIsFirstSeen(polls: seq<Poll>, f: nat)
    requires FirstSeen(polls, f)
    ensures Baseline(polls) == Some(polls[f].restarts)
  {
    if f > 0 {
      BaselineIsFirstSeen(polls[1..], f - 1);
    }
  }

  /**
   * The verdict spelled out: a poll before any missing container shows one of three failed states, more
   * restarts than the first poll that saw the container, or, being the last, an unhealthy container.
   */
  lemma {:induction false} CondemnedMeans(polls: seq<Poll>, f: nat)
    requires FirstSeen(polls, f)
    ensures Condemned(polls) <==>
      exists i :: 0 <= i < |polls| && PollFails(polls, i, f) && forall j :: 0 <= j < i ==> polls[j] != Missing
  {
    BaselineIsFirstSeen(polls, f);
    forall i | 0 <= i < |polls| ensures Missing !in polls[..i] <==> forall j :: 0 <= j < i ==> polls[j] != Missing {
      assert forall j :: 0 <= j < i ==> polls[..i][j] == polls[j];
    }
    assert forall i :: 0 <= i < |polls| ==> (Condemns(polls, i) <==> PollFails(polls, i, f));
  }

  predicate PollFails(polls: seq<Poll>, i: nat, f: nat)
    requires i < |polls| && FirstSeen(polls, f)
  {
    && polls[i].Seen?
    && (|| polls[i].state == "restarting" || polls[i].state == "exited" || polls[i].state == "dead"
        || polls[i].restarts > polls[f].restarts
        || (polls[i].health == "unhealthy" && i == |polls| - 1))
  }

  /** Never seen, never condemned. */
  lemma NeverSeenPasses(polls: seq<Poll>)
    requires forall i :: 0 <= i < |polls| ==> !polls[i].Seen?
    ensures !Condemned(polls)
  {
  }

  const WINDOW_SECONDS: nat := 120
  const POLL_INTERVAL_SECONDS: nat := 10

  /** What the polls of the default window see. */
  function Window(diag: nat -> Poll): seq<Poll> {
    var n := PollCount(WINDOW_SECONDS, POLL_INTERVAL_SECONDS);
    seq(n, i requires 0 <= i < n => diag(i))
  }

  /** The default window has a poll at its start and then one every ten seconds for two minutes. */
  lemma WindowMeans(diag: nat -> Poll)
    ensures |Window(diag)| == 13 && forall i: nat :: i < 13 ==> Window(diag)[i] == diag(i)
  {
  }

  /** A window has at least two polls, and as many as fit into it. */
  lemma PollCountMeans(windowSeconds: nat, pollInterval: nat)
    requires pollInterval > 0
    ensures var n := PollCount(windowSeconds, pollInterval);
      && n >= 2
      && (windowSeconds >= pollInterval ==> (n - 1) * pollInterval <= windowSeconds < n * pollInterval)
  {
    if windowSeconds >= pollInterval {
      var q := windowSeconds / pollInterval;
      assert windowSeconds == q * pollInterval + windowSeconds % pollInterval;
      assert q >= 1;
    }
  }

  /** The polling loop over what the polls of its window see. */
  method VerifyPostDeployHealth(polls: seq<Poll>) returns (v: Verdict)
    ensures !v.ok <==> Condemned(polls)
    ensures v.ok ==> (v.verified <==> Missing !in polls)
    ensures !v.ok ==> v.verified && exists i ::
      && 0 <= i < |polls| && Condemns(polls, i) && (forall j :: 0 <= j < i ==> !Condemns(polls, j))
      && v.state == polls[i].state && v.health == polls[i].health && v.restarts == polls[i].restarts
      && Some(v.baseline) == Baseline(polls)
  {
    var baseline: Option<int> := None;
    var lastState, lastHealth, lastRestart := "", "", 0;
    for i := 0 to |polls|
      invariant baseline == Baseline(polls[..i])
      invariant Missing !in polls[..i]
      invariant forall j :: 0 <= j < i ==> !Condemns(polls, j)
    {
      assert polls[..i + 1] == polls[..i] + [polls[i]];
      assert polls == polls[..i + 1] + polls[i + 1..];
      BaselineSplit(polls[..i], [polls[i]]);
      BaselineSplit(polls[..i + 1], polls[i + 1..]);
      match polls[i] {
        case Errored =>
        case Missing =>
          forall j | 0 <= j < |polls| && Condemns(polls, j) ensures Missing in polls[..j] {
            assert j > i && polls[..j][i] == Missing;
          }
          return Verdict(true, false, "", "", 0, 0);
        case Seen(state, health, restarts) =>
          if baseline.None? {
            baseline := Some(restarts);
          }
          lastState, lastHealth, lastRestart := state, health, restarts;
          if || state in FAILED_STATES
             || restarts > baseline.value
             || (health == "unhealthy" && i == |polls| - 1) {
            assert Condemns(polls, i);
            return Verdict(false, true, state, health, baseline.value, restarts);
          }
      }
    }
    assert polls[..|polls|] == polls;
    return Verdict(true, true, lastState, lastHealth, baseline.GetOr(0), lastRestart);
  }

  // ---- Rollback ----------------------------------------------------------------------------------

  /** What the backend answers to a rollback; `probe` is the state of the live container, if the status call worked. */
  datatype RollbackAnswer =
    | RollbackRaised
    | RolledBack(digest: string, state: ServiceState, probe: Option<ServiceState>)

  /** One-step swap: the restored image becomes deployed, the failed one previous. */
  function AfterRollback(r: Rec, a: RollbackAnswer): Rec {
    if r.previous == "" || a.RollbackRaised? then r
    else r.(deployed := a.digest, previous := r.deployed, state := a.probe.GetOr(a.state))
  }

  method RollbackAfterFailedDeploy(record: ServiceRecord, a: RollbackAnswer) returns (rolledBack: bool)
    modifies record
    ensures record.Snap() == AfterRollback(old(record.Snap()), a)
    ensures rolledBack <==> old(record.previousImageDigest) != "" && a.RolledBack?
  {
    var failedDigest := record.deployedImageDigest;
    if record.previousImageDigest == "" { return false; }
    match a {
      case RollbackRaised => return false;
      case RolledBack(digest, state, probe) =>
        record.state := state;
        record.deployedImageDigest := digest;
        record.previousImageDigest := failedDigest;
        if probe.Some? {
          record.state := probe.value;
        }
        return true;
    }
  }
}
