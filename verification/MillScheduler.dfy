/** The caretaker scheduler with its mutable deferral fields, proved to follow `MillPolling`. */
module MillScheduler {
  import opened Wrappers
  import opened Runs
  import opened ServiceRecords
  import opened DeployLocks
  import opened UpdatePhase
  import opened MillPolling

  class CaretakerScheduler {
    const store: InMemoryStore
    const locks: DeployLockTable
    var millDeferredSince: Option<int>
    var millAttemptedDigest: Option<string>

    constructor (store: InMemoryStore, locks: DeployLockTable)
      ensures this.store == store && this.locks == locks
      ensures Deferred() == Deferral(None, None)
    {
      this.store, this.locks := store, locks;
      millDeferredSince, millAttemptedDigest := None, None;
    }

    ghost predicate Valid()
      reads this, store, store.data.Values, locks
    {
      store.Valid() && locks.Valid()
    }

    function Deferred(): Deferral
      reads this
    {
      Deferral(millDeferredSince, millAttemptedDigest)
    }

    function State(): Mill
      reads this, store, store.data.Values
    {
      Mill(Deferred(), store.Snapshot())
    }

    /** `busy` is whether the mill is in the returned busy map. */
    method EvaluateMillBusy(s: Settings, w: World) returns (busy: bool)
      requires Valid()
      modifies store.data.Values
      ensures Valid() && Judgement(store.Snapshot(), busy) == Judge(s, old(store.Snapshot()), w)
    {
      if s.millId == "" || !w.urlKnown { return false; }
      if s.millId !in store.data { return false; }
      ghost var before := store.Snapshot();
      busy := JudgeRecord(store.data[s.millId], s, w);
      OneRecordChanged(store, s.millId, before);
    }

    method TrackMillDeferral(busy: bool, now: int)
      requires Valid()
      modifies this
      ensures Valid() && store.Snapshot() == old(store.Snapshot())
      ensures Deferred() == Track(old(Deferred()), busy, now)
    {
      if busy {
        if millDeferredSince.None? {
          millDeferredSince := Some(now);
        }
      } else {
        millDeferredSince := None;
      }
    }

    method NoteMillAttempt(s: Settings)
      requires Valid()
      modifies this
      ensures Valid() && store.Snapshot() == old(store.Snapshot())
      ensures Deferred() == NoteAttempt(old(Deferred()), s, store.Snapshot())
    {
      if s.millId in store.data && store.data[s.millId].updateAvailable {
        millAttemptedDigest := Some(store.data[s.millId].latestRegistryDigest);
      }
    }

    method ArmPendingMillUpdate(s: Settings, w: World)
      requires Valid() && w.held == locks.Held()
      modifies this
      ensures Valid() && store.Snapshot() == old(store.Snapshot())
      ensures Deferred() == Armed(s, old(State()), w)
    {
      var arms := ShouldArm(s, w);
      if arms {
        SetDeferral(Some(w.now), millAttemptedDigest);
      }
    }

    /** The conditions under which a mill update starts a deferral now. */
    method ShouldArm(s: Settings, w: World) returns (arms: bool)
      requires Valid() && w.held == locks.Held()
      ensures arms <==> Arms(s, State(), w)
    {
      if millDeferredSince.Some? { return false; }
      if s.millId == "" || !s.enabled { return false; }
      if s.millId !in store.data || !store.data[s.millId].updateAvailable { return false; }
      var record := store.data[s.millId];
      if s.millId in w.configs && !w.configs[s.millId].autoUpdate { return false; }
      if millAttemptedDigest.Some? && record.latestRegistryDigest == millAttemptedDigest.value { return false; }
      if record.failedUpdateDigest != "" && record.latestRegistryDigest == record.failedUpdateDigest { return false; }
      var holder := locks.Info(s.millId);
      return holder.None?;
    }

    method RunPhase(w: World, busy: set<string>, only: Option<set<string>>) returns (log: seq<Entry>)
      requires Valid() && w.held == locks.Held()
      requires forall n :: n in w.order <==> n in store.data
      modifies store.data.Values, locks
      ensures Valid() && locks.Held() == old(locks.Held())
      ensures Trail(store.Snapshot(), log) == PhaseRun(old(store.Snapshot()), w, busy, only)
    {
      log := PhaseUpdate(store, locks, PassFor(w, busy, only), w.order, w.env, w.now);
    }

    /** The busy check of a full pass and its marks on the deferral fields. */
    method PrepareMill(s: Settings, w: World) returns (busy: bool)
      requires Valid()
      modifies this, store.data.Values
      ensures Valid() && State() == Prepared(s, old(State()), w)
      ensures busy == Judge(s, old(store.Snapshot()), w).busy
    {
      busy := EvaluateMillBusy(s, w);
      TrackMillDeferral(busy, w.now);
      if s.millId != "" && !busy {
        NoteMillAttempt(s);
      }
    }

    /** The update part of a full pass. */
    method RunOnce(s: Settings, w: World) returns (log: seq<Entry>)
      requires Valid() && w.held == locks.Held()
      requires forall n :: n in w.order <==> n in store.data
      modifies this, store.data.Values, locks
      ensures Valid() && locks.Held() == old(locks.Held())
      ensures Trail(State(), log) == FullPass(s, old(State()), w)
    {
      var busy := PrepareMill(s, w);
      log := RunPhase(w, if busy then {s.millId} else {}, None);
    }

    method RecheckDeferredMill(s: Settings, w: World) returns (log: seq<Entry>)
      requires Valid() && w.held == locks.Held()
      requires forall n :: n in w.order <==> n in store.data
      modifies this, store.data.Values, locks
      ensures Valid() && locks.Held() == old(locks.Held())
      ensures Trail(State(), log) == Recheck(s, old(State()), w)
    {
      ArmPendingMillUpdate(s, w);
      if millDeferredSince.None? { return []; }
      log := RecheckDue(s, w);
    }

    /** The recheck of an open deferral. */
    method RecheckDue(s: Settings, w: World) returns (log: seq<Entry>)
      requires Valid() && w.held == locks.Held()
      requires forall n :: n in w.order <==> n in store.data
      modifies this, store.data.Values, locks
      ensures Valid() && locks.Held() == old(locks.Held())
      ensures Trail(State(), log) == RecheckOpen(s, old(State()), w)
    {
      if s.millId == "" || !s.enabled {
        SetDeferral(None, millAttemptedDigest);
        return [];
      }
      var busy := EvaluateMillBusy(s, w);
      if busy { return []; }
      log := DeployDeferred(s, w);
    }

    /** The mill no longer reports busy: close the deferral and run just its step of the phase. */
    method DeployDeferred(s: Settings, w: World) returns (log: seq<Entry>)
      requires Valid() && w.held == locks.Held()
      requires forall n :: n in w.order <==> n in store.data
      modifies this, store.data.Values, locks
      ensures Valid() && locks.Held() == old(locks.Held())
      ensures Trail(State(), log) == Release(s, old(State()), w)
    {
      SetDeferral(None, millAttemptedDigest);
      if s.millId !in store.data || !store.data[s.millId].updateAvailable { return []; }
      SetDeferral(None, Some(store.data[s.millId].latestRegistryDigest));
      log := RunPhase(w, {}, Some({s.millId}));
    }

    method SetDeferral(since: Option<int>, attempted: Option<string>)
      requires Valid()
      modifies this
      ensures Valid() && store.Snapshot() == old(store.Snapshot()) && Deferred() == Deferral(since, attempted)
    {
      millDeferredSince, millAttemptedDigest := since, attempted;
    }

    /** What the background loop and other writers do to the records while this loop sleeps. */
    method SleepThroughChanges(changes: seq<Change>)
      requires Valid()
      modifies store.data.Values
      ensures Valid() && store.Snapshot() == ChangeFleet(old(store.Snapshot()), changes)
    {
      for i := 0 to |changes|
        invariant Valid()
        invariant ChangeFleet(store.Snapshot(), changes[i..]) == ChangeFleet(old(store.Snapshot()), changes)
      {
        assert changes[i..][0] == changes[i] && changes[i..][1..] == changes[i + 1..];
        ChangeOne(changes[i]);
      }
    }

    method ChangeOne(change: Change)
      requires Valid()
      modifies store.data.Values
      ensures Valid() && store.Snapshot() == Step(old(store.Snapshot()), ChangeEvent(change)).state
    {
      if change.name in store.data {
        ghost var before := store.Snapshot();
        ChangeRecord(store.data[change.name], change);
        OneRecordChanged(store, change.name, before);
      }
    }

    /** The deploy locks that other parties take and free while this loop sleeps. */
    method SleepThroughLocking(held: set<string>, now: int)
      requires Valid()
      modifies locks
      ensures Valid() && store.Snapshot() == old(store.Snapshot()) && locks.Held() == held
    {
      locks.TakeAndFree(held, "manual", now);
    }

    /** The timed loop between two full passes; `start` is the monotonic time at which it is entered. */
    method WaitForNextPass(s: Settings, start: int, f: Future) returns (now: int)
      requires Valid()
      requires forall t, n :: n in f.world(t).order <==> n in store.data
      modifies this, store.data.Values, locks
      ensures Valid()
      ensures var end := Waited(s, Clocked(old(State()), start, start + Interval(s)), f);
        State() == end.mill && now == end.now == end.deadline
    {
      var deadline := start + Interval(s);
      now := start;
      ghost var end := Waited(s, Clocked(State(), start, deadline), f);
      while true
        invariant Valid()
        invariant now <= deadline && Waited(s, Clocked(State(), now, deadline), f) == end
        decreases deadline - now
      {
        var remaining := deadline - now;
        if remaining <= 0 { return; }
        if s.millId == "" || !s.enabled {
          now := now + remaining;
          return;
        }
        var wake := now + Min(remaining, Slice(s));
        if wake >= deadline {
          now := deadline;
          return;
        }
        ghost var c := Clocked(State(), now, deadline);
        PollAt(s, wake, c, f);
        now := wake;
      }
    }

    /** One slice of the wait and the recheck at its end. */
    method PollAt(s: Settings, wake: int, ghost c: Clocked, f: Future)
      requires Valid() && State() == c.mill && wake == Wake(s, c) < c.deadline
      requires forall n :: n in f.world(wake).order <==> n in store.data
      modifies this, store.data.Values, locks
      ensures Valid() && Clocked(State(), wake, c.deadline) == NextPoll(s, c, f)
    {
      SleepThroughChanges(f.changes(wake));
      SleepThroughLocking(f.world(wake).held, wake);
      assert State() == Met(c, f, wake);
      var _ := RecheckDeferredMill(s, WorldAt(f, wake));
    }
  }

  /** The bounded wait on a record object whose mill was probed. */
  method JudgeRecord(record: ServiceRecord, s: Settings, w: World) returns (busy: bool)
    modifies record
    ensures var r := old(record.Snap());
      var since := if r.updateAvailable && w.heavy then Some(r.pendingSince.GetOr(w.now)) else None;
      && record.Snap() == r.(pendingSince := since)
      && (busy <==> since.Some? && w.now - since.value < s.forceDeployHours * 3600)
  {
    if !record.updateAvailable || !w.heavy {
      if record.updatePendingSince.Some? {
        record.updatePendingSince := None;
      }
      return false;
    }
    if record.updatePendingSince.None? {
      record.updatePendingSince := Some(w.now);
    }
    return w.now - record.updatePendingSince.value < s.forceDeployHours * 3600;
  }

  /** A registry tick on a record object, or another writer's assignment to it. */
  method ChangeRecord(record: ServiceRecord, change: Change)
    modifies record
    ensures record.Snap() == ChangedRec(old(record.Snap()), change)
  {
    match change
    case TickOf(_, o) => CheckAndUpdateRecord(record, o);
    case WriteOf(_, r) => WriteRecord(record, r);
  }
}
