/** The caretaker's update phase: one deploy attempt per eligible primary record, siblings riding along. */
module UpdatePhase {
  import opened Wrappers
  import opened Runs
  import opened ServiceRecords
  import opened DeployVerification
  import opened DeployLocks

  datatype Sibling = Sibling(key: string, image: string)
  datatype Config = Config(image: string, autoUpdate: bool, siblings: seq<Sibling>)

  /** Everything a pass knows besides the records themselves. */
  datatype Pass = Pass(
    selfKnown: bool,
    selfContainer: string,
    busy: set<string>,
    only: Option<set<string>>,
    configs: map<string, Config>)

  /** What the environment answers to one primary deploy, including registry ticks inside the verification window. */
  datatype Answer =
    | DeployRaised
    | DeployDone(digest: string, previous: string, state: ServiceState,
                 window: seq<Sighting>, diag: nat -> Poll, rollback: RollbackAnswer)

  datatype SiblingAnswer = SiblingFailed | SiblingDone(digest: string, previous: string, state: ServiceState)

  datatype Environment = Environment(answer: string -> Answer, sibling: string -> SiblingAnswer)

  type Fleet = map<string, Rec>

  // ---- Eligibility -----------------------------------------------------------------------------

  predicate KnownBad(r: Rec) {
    r.failed != "" && r.latest == r.failed
  }

  /** The guards in front of the deploy lock. */
  predicate PassesGuards(pass: Pass, stale: set<string>, r: Rec) {
    && r.componentId == ""
    && (pass.only.Some? ==> r.name in pass.only.value)
    && !(pass.selfContainer != "" && r.containerName == pass.selfContainer)
    && (r.updateAvailable || r.name in stale)
    && !(KnownBad(r) && r.name !in stale)
    && r.name !in pass.busy
    && r.name in pass.configs && pass.configs[r.name].autoUpdate
  }

  predicate Eligible(pass: Pass, stale: set<string>, held: set<string>, r: Rec) {
    PassesGuards(pass, stale, r) && r.name !in held
  }

  predicate DeploysPrimary(r: Rec) {
    r.updateAvailable && !KnownBad(r)
  }

  /** Parents of siblings with an update of their own. */
  function StaleParents(fleet: Fleet): set<string> {
    set n | n in fleet && fleet[n].componentId != "" && fleet[n].updateAvailable :: fleet[n].componentId
  }

  // ---- One record ------------------------------------------------------------------------------

  /** The record right after a completed deploy, before verification. */
  function Fresh(r: Rec, image: string, a: Answer): Rec
    requires a.DeployDone?
  {
    r.(state := a.state, image := image, deployed := a.digest, previous := a.previous,
       updateAvailable := false, failed := "", pendingSince := None)
  }

  predicate Crashes(a: Answer) {
    a.DeployDone? && Condemned(Window(a.diag))
  }

  /** The record when the verdict falls: ticks inside the window have already been applied. */
  function AtVerdict(r: Rec, image: string, a: Answer): Rec
    requires a.DeployDone?
  {
    TickedAll(Fresh(r, image, a), a.window)
  }

  function AfterDeploy(r: Rec, image: string, a: Answer): Rec
    requires a.DeployDone?
  {
    var v := AtVerdict(r, image, a);
    if Crashes(a) then AfterRollback(v.(state := Failed, failed := v.latest), a.rollback) else v
  }

  function SiblingName(parent: string, key: string): string {
    parent + "-" + key
  }

  function FannedOut(fleet: Fleet, parent: string, sibs: seq<Sibling>, env: Environment): (f: Fleet)
    ensures f.Keys == fleet.Keys
  {
    if sibs == [] then fleet else
    var n := SiblingName(parent, sibs[0].key);
    var rest := if n in fleet && env.sibling(n).SiblingDone?
      then fleet[n := SiblingWritten(fleet[n], sibs[0].image, env.sibling(n))]
      else fleet;
    FannedOut(rest, parent, sibs[1..], env)
  }

  // ---- Events and runs -------------------------------------------------------------------------

  datatype Outcome = Raised | Healthy | Crashed(marked: string)

  /** A primary deploy that was attempted: the registry digest it aimed at and how it ended. */
  datatype Entry = Entry(name: string, target: string, outcome: Outcome)

  datatype Event =
    | Tick(name: string, o: Sighting)
      /** One turn of the phase's loop. */
    | Turn(pass: Pass, stale: set<string>, held: set<string>, name: string, env: Environment)
      /** Any other writer (operator deploy or rollback, auto-rollback, status refresh): never the known-bad marker. */
    | Foreign(name: string, r: Rec)

  /** What an eligible record's turn does while it holds the deploy lock. */
  function Act(fleet: Fleet, n: string, config: Config, env: Environment): (t: Trail<Fleet, Entry>)
    requires n in fleet
    ensures t.state.Keys == fleet.Keys
  {
    var r, a := fleet[n], env.answer(n);
    if !DeploysPrimary(r) then Trail(FannedOut(fleet, r.name, config.siblings, env), [])
    else if a.DeployRaised? then Trail(fleet, [Entry(n, r.latest, Raised)])
    else
      Trail(FannedOut(fleet[n := AfterDeploy(r, config.image, a)], r.name, config.siblings, env),
            [Entry(n, r.latest, if Crashes(a) then Crashed(AtVerdict(r, config.image, a).latest) else Healthy)])
  }

  function TurnOf(fleet: Fleet, pass: Pass, stale: set<string>, held: set<string>, n: string, env: Environment)
    : (t: Trail<Fleet, Entry>)
    requires n in fleet
    ensures t.state.Keys == fleet.Keys
  {
    if Eligible(pass, stale, held, fleet[n]) then Act(fleet, n, pass.configs[fleet[n].name], env) else Trail(fleet, [])
  }

  function Step(fleet: Fleet, e: Event): (t: Trail<Fleet, Entry>)
    ensures t.state.Keys == fleet.Keys
  {
    if e.name !in fleet then Trail(fleet, []) else
    var r := fleet[e.name];
    match e
    case Tick(n, o) => Trail(fleet[n := Ticked(r, o)], [])
    case Foreign(n, w) => Trail(fleet[n := Written(r, w)], [])
    case Turn(pass, stale, held, n, env) => TurnOf(fleet, pass, stale, held, n, env)
  }

  /** A whole phase: nothing at all when the caretaker cannot tell which container it runs in. */
  function PhaseEvents(pass: Pass, stale: set<string>, held: set<string>, order: seq<string>,
                       env: Environment): seq<Event> {
    if !pass.selfKnown then [] else Turns(pass, stale, held, order, env)
  }

  function Turns(pass: Pass, stale: set<string>, held: set<string>, order: seq<string>, env: Environment): seq<Event> {
    seq(|order|, i requires 0 <= i < |order| => Turn(pass, stale, held, order[i], env))
  }

  // ---- The phase as it runs: shared record objects, mutated in place ---------------------------

  class InMemoryStore {
    var data: map<string, ServiceRecord>

    constructor ()
      ensures data == map[]
    {
      data := map[];
    }

    /** Records are stored under their own name. */
    ghost predicate Valid()
      reads this, data.Values
    {
      forall n :: n in data ==> data[n].name == n
    }

    function Snapshot(): (f: Fleet)
      reads this, data.Values
      ensures f.Keys == data.Keys
    {
      map n | n in data :: data[n].Snap()
    }
  }

  /** Distinct names are distinct objects, so writing one record changes the snapshot at its own name only. */
  lemma OneRecordChanged(store: InMemoryStore, n: string, before: Fleet)
    requires store.Valid() && n in store.data && before.Keys == store.data.Keys
    requires forall m :: m in store.data && store.data[m] != store.data[n] ==> store.data[m].Snap() == before[m]
    ensures store.Snapshot() == before[n := store.data[n].Snap()]
  {
    forall m | m in store.data && m != n ensures store.data[m].Snap() == before[m] {
      assert store.data[m].name == m && store.data[n].name == n;
    }
  }

  function SiblingWritten(r: Rec, image: string, a: SiblingAnswer): Rec
    requires a.SiblingDone?
  {
    r.(state := a.state, image := image, deployed := a.digest, previous := a.previous,
       updateAvailable := false, pendingSince := None)
  }

  method WriteSibling(record: ServiceRecord, image: string, a: SiblingAnswer)
    requires a.SiblingDone?
    modifies record
    ensures record.Snap() == SiblingWritten(old(record.Snap()), image, a)
  {
    record.state := a.state;
    record.image := image;
    record.deployedImageDigest := a.digest;
    record.previousImageDigest := a.previous;
    record.updateAvailable := false;
    record.updatePendingSince := None;
  }

  method WriteSiblingOf(store: InMemoryStore, n: string, image: string, a: SiblingAnswer)
    requires store.Valid() && n in store.data && a.SiblingDone?
    modifies store.data[n]
    ensures store.Valid()
    ensures var r := old(store.Snapshot())[n];
      store.Snapshot() == old(store.Snapshot())[n := SiblingWritten(r, image, a)]
  {
    ghost var before := store.Snapshot();
    WriteSibling(store.data[n], image, a);
    OneRecordChanged(store, n, before);
  }

  method FanOutSiblings(store: InMemoryStore, parent: string, siblings: seq<Sibling>, env: Environment)
    requires store.Valid()
    modifies store.data.Values
    ensures store.Valid() && store.Snapshot() == FannedOut(old(store.Snapshot()), parent, siblings, env)
  {
    for i := 0 to |siblings|
      invariant store.Valid()
      invariant FannedOut(store.Snapshot(), parent, siblings[i..], env)
             == FannedOut(old(store.Snapshot()), parent, siblings, env)
    {
      var n := SiblingName(parent, siblings[i].key);
      assert siblings[i..][0] == siblings[i] && siblings[i..][1..] == siblings[i + 1..];
      if n in store.data && env.sibling(n).SiblingDone? {
        WriteSiblingOf(store, n, siblings[i].image, env.sibling(n));
      }
    }
  }

  method RecordDeploy(record: ServiceRecord, image: string, a: Answer)
    requires a.DeployDone?
    modifies record
    ensures record.Snap() == Fresh(old(record.Snap()), image, a)
  {
    record.state := a.state;
    record.image := image;
    record.deployedImageDigest := a.digest;
    record.previousImageDigest := a.previous;
    record.updateAvailable := false;
    record.failedUpdateDigest := "";
    record.updatePendingSince := None;
  }

  /** Registry ticks that fall into the verification window. */
  method TickInWindow(record: ServiceRecord, window: seq<Sighting>)
    modifies record
    ensures record.Snap() == TickedAll(old(record.Snap()), window)
  {
    for i := 0 to |window|
      invariant TickedAll(record.Snap(), window[i..]) == TickedAll(old(record.Snap()), window)
    {
      assert window[i..][0] == window[i] && window[i..][1..] == window[i + 1..];
      CheckAndUpdateRecord(record, window[i]);
    }
  }

  method MarkFailed(record: ServiceRecord)
    modifies record
    ensures record.Snap() == old(record.Snap()).(state := Failed, failed := old(record.Snap()).latest)
  {
    record.state := Failed;
    record.failedUpdateDigest := record.latestRegistryDigest;
  }

  /** The deploy of one primary, its verification and, on failure, the marker and the rollback. */
  method DeployPrimary(record: ServiceRecord, image: string, a: Answer) returns (outcome: Outcome)
    requires a.DeployDone?
    modifies record
    ensures record.Snap() == AfterDeploy(old(record.Snap()), image, a)
    ensures outcome == if Crashes(a) then Crashed(AtVerdict(old(record.Snap()), image, a).latest) else Healthy
  {
    RecordDeploy(record, image, a);
    TickInWindow(record, a.window);
    var verdict := VerifyPostDeployHealth(Window(a.diag));
    if verdict.ok { return Healthy; }
    outcome := Crashed(record.latestRegistryDigest);
    MarkFailed(record);
    var _ := RollbackAfterFailedDeploy(record, a.rollback);
  }

  method DeployPrimaryOf(store: InMemoryStore, n: string, image: string, a: Answer) returns (outcome: Outcome)
    requires store.Valid() && n in store.data && a.DeployDone?
    modifies store.data[n]
    ensures store.Valid()
    ensures var r := old(store.Snapshot())[n];
      && store.Snapshot() == old(store.Snapshot())[n := AfterDeploy(r, image, a)]
      && outcome == if Crashes(a) then Crashed(AtVerdict(r, image, a).latest) else Healthy
  {
    ghost var before := store.Snapshot();
    outcome := DeployPrimary(store.data[n], image, a);
    OneRecordChanged(store, n, before);
  }

  method CheckGuards(record: ServiceRecord, pass: Pass, stale: set<string>) returns (passes: bool)
    ensures passes <==> PassesGuards(pass, stale, record.Snap())
  {
    if record.componentId != "" { return false; }
    if pass.only.Some? && record.name !in pass.only.value { return false; }
    if pass.selfContainer != "" && record.containerName == pass.selfContainer { return false; }
    var siblingsStale := record.name in stale;
    if !record.updateAvailable && !siblingsStale { return false; }
    var knownBad := record.failedUpdateDigest != "" && record.latestRegistryDigest == record.failedUpdateDigest;
    if knownBad && !siblingsStale { return false; }
    if record.name in pass.busy { return false; }
    if record.name !in pass.configs { return false; }
    return pass.configs[record.name].autoUpdate;
  }

  method ActUnderLock(store: InMemoryStore, n: string, config: Config, env: Environment) returns (log: seq<Entry>)
    requires store.Valid() && n in store.data
    modifies store.data.Values
    ensures store.Valid()
    ensures Trail(store.Snapshot(), log) == Act(old(store.Snapshot()), n, config, env)
  {
    var record := store.data[n];
    var knownBad := record.failedUpdateDigest != "" && record.latestRegistryDigest == record.failedUpdateDigest;
    log := [];
    if record.updateAvailable && !knownBad {
      var target := record.latestRegistryDigest;
      if env.answer(n).DeployRaised? {
        return [Entry(n, target, Raised)];
      }
      var outcome := DeployPrimaryOf(store, n, config.image, env.answer(n));
      log := [Entry(n, target, outcome)];
    }
    FanOutSiblings(store, record.name, config.siblings, env);
  }

  /** The lock, the deploy, the siblings; nothing when the lock is taken. */
  method ActWithLock(store: InMemoryStore, locks: DeployLockTable, n: string, config: Config, env: Environment,
                     now: int)
    returns (log: seq<Entry>)
    requires store.Valid() && locks.Valid() && n in store.data
    modifies store.data.Values, locks
    ensures store.Valid() && locks.Valid() && locks.Held() == old(locks.Held())
    ensures Trail(store.Snapshot(), log) ==
      if n in old(locks.Held()) then Trail(old(store.Snapshot()), []) else Act(old(store.Snapshot()), n, config, env)
  {
    ghost var held := locks.Held();
    var acquired := AcquireBesides(store, locks, n, now);
    if !acquired { return []; }
    log := ActUnderLock(store, n, config, env);
    assert locks.Valid() && locks.Held() == held + {n};
    ReleaseBesides(store, locks, n);
  }

  method AcquireBesides(store: InMemoryStore, locks: DeployLockTable, n: string, now: int) returns (acquired: bool)
    requires store.Valid() && locks.Valid()
    modifies locks
    ensures store.Valid() && store.Snapshot() == old(store.Snapshot())
    ensures locks.Valid() && locks.Held() == old(locks.Held()) + {n} && (acquired <==> n !in old(locks.Held()))
  {
    acquired := locks.TryAcquire(n, "caretaker", now);
  }

  method ReleaseBesides(store: InMemoryStore, locks: DeployLockTable, n: string)
    requires store.Valid() && locks.Valid()
    modifies locks
    ensures store.Valid() && store.Snapshot() == old(store.Snapshot())
    ensures locks.Valid() && locks.Held() == old(locks.Held()) - {n}
  {
    locks.Release(n);
  }

  /** One turn of the loop: the guards, then the update under the lock. */
  method TakeTurn(store: InMemoryStore, locks: DeployLockTable, pass: Pass, stale: set<string>, n: string,
                  env: Environment, now: int) returns (log: seq<Entry>)
    requires store.Valid() && locks.Valid() && n in store.data
    modifies store.data.Values, locks
    ensures store.Valid() && locks.Valid() && locks.Held() == old(locks.Held())
    ensures Trail(store.Snapshot(), log) ==
      TurnOf(old(store.Snapshot()), pass, stale, old(locks.Held()), n, env)
  {
    var passes := CheckGuards(store.data[n], pass, stale);
    if !passes { return []; }
    log := ActWithLock(store, locks, n, pass.configs[n], env, now);
  }

  method CollectStale(store: InMemoryStore, order: seq<string>) returns (stale: set<string>)
    requires store.Valid() && forall n :: n in order <==> n in store.data
    ensures stale == StaleParents(store.Snapshot())
  {
    stale := {};
    for i := 0 to |order|
      invariant stale == set n | n in order[..i] && store.data[n].componentId != "" && store.data[n].updateAvailable
                           :: store.data[n].componentId
    {
      var record := store.data[order[i]];
      if record.componentId != "" && record.updateAvailable {
        stale := stale + {record.componentId};
      }
    }
    StaleInOrder(store, order);
  }

  /** `order` is the iteration order of the store. */
  method PhaseUpdate(store: InMemoryStore, locks: DeployLockTable, pass: Pass, order: seq<string>,
                     env: Environment, now: int) returns (log: seq<Entry>)
    requires store.Valid() && locks.Valid()
    requires forall n :: n in order <==> n in store.data
    modifies store.data.Values, locks
    ensures store.Valid() && locks.Valid() && locks.Held() == old(locks.Held())
    ensures Trail(store.Snapshot(), log) == Run(Step, old(store.Snapshot()),
      PhaseEvents(pass, StaleParents(old(store.Snapshot())), old(locks.Held()), order, env))
  {
    log := [];
    if !pass.selfKnown { return; }
    var stale := CollectStale(store, order);
    ghost var start, held := store.Snapshot(), locks.Held();
    ghost var events := PhaseEvents(pass, stale, held, order, env);
    for i := 0 to |order|
      invariant store.Valid() && locks.Valid() && locks.Held() == held
      invariant Trail(store.Snapshot(), log) == Run(Step, start, events[..i])
    {
      log := ExtendLog(store, locks, pass, stale, order, i, env, now, log, start);
    }
    assert events[..|order|] == events;
  }

  /** The turn of the i-th record, appended to the log of those before it. */
  method ExtendLog(store: InMemoryStore, locks: DeployLockTable, pass: Pass, stale: set<string>, order: seq<string>,
                   i: nat, env: Environment, now: int, log: seq<Entry>, ghost start: Fleet)
    returns (extended: seq<Entry>)
    requires store.Valid() && locks.Valid() && i < |order| && order[i] in store.data
    requires Trail(store.Snapshot(), log) == Run(Step, start, Turns(pass, stale, locks.Held(), order, env)[..i])
    modifies store.data.Values, locks
    ensures store.Valid() && locks.Valid() && locks.Held() == old(locks.Held())
    ensures Trail(store.Snapshot(), extended) ==
      Run(Step, start, Turns(pass, stale, old(locks.Held()), order, env)[..i + 1])
  {
    ghost var events := Turns(pass, stale, locks.Held(), order, env);
    RunSnoc(Step, start, events, i);
    var entries := TakeTurn(store, locks, pass, stale, order[i], env, now);
    return log + entries;
  }

  lemma StaleInOrder(store: InMemoryStore, order: seq<string>)
    requires store.Valid() && forall n :: n in order <==> n in store.data
    ensures StaleParents(store.Snapshot()) ==
      set n | n in order[..|order|] && store.data[n].componentId != "" && store.data[n].updateAvailable
           :: store.data[n].componentId
  {
    assert order[..|order|] == order;
    var f := store.Snapshot();
    forall n | n in f ensures f[n] == store.data[n].Snap() {}
  }
}
