/** The volume audit: measuring the managed volumes, keeping a baseline for each and backing off. */
module VolumeAudit {
  import opened Wrappers
  import opened Runs

  const SLOW_MEASURE: real := 120.0
  const SLOW_VOLUME_INTERVAL: real := 21600.0
  const MEASURE_BACKOFF: real := 10800.0

  /** `took` is absent in snapshots written before durations were recorded. */
  datatype Snapshot = Snapshot(component: string, at: real, size: nat, took: Option<real>)

  /** What measuring a volume comes to, if it is measured. */
  datatype Probe = Measured(size: nat, took: real) | Unknown | Raised

  datatype Owner = Owner(component: string, volume: string, probe: Probe)

  datatype Scan = Scan(now: real, owners: seq<Owner>)

  datatype Measurement = Measurement(component: string, volume: string, at: real, probe: Probe)
  {
    predicate Failed() { !probe.Measured? }

    predicate Slow() { probe.Measured? && probe.took > SLOW_MEASURE }

    function Baseline(): Snapshot
      requires !Failed()
    {
      Snapshot(component, at, probe.size, Some(probe.took))
    }
  }

  type Snapshots = map<string, Snapshot>

  function Lookup<V>(m: map<string, V>, key: string): Option<V> {
    if key in m then Some(m[key]) else None
  }

  function Keeping<V>(m: map<string, V>, key: string, value: Option<V>): map<string, V> {
    if value.Some? then m[key := value.value] else m
  }

  /** The snapshot came from a slow measurement that is still recent. */
  predicate StillSlow(snap: Option<Snapshot>, now: real) {
    && snap.Some? && snap.value.took.Some? && snap.value.took.value > SLOW_MEASURE
    && now - snap.value.at < SLOW_VOLUME_INTERVAL
  }

  // ---- One scan ----------------------------------------------------------------------------------

  datatype Pass = Pass(current: Snapshots, preserved: Snapshots, backoff: map<string, real>, log: seq<Measurement>)

  /** What one visit adds to the scan's result for its volume, and the volume's backoff afterwards. */
  datatype Reaction = Reaction(
    current: Option<Snapshot>, preserved: Option<Snapshot>, backoff: Option<real>, log: seq<Measurement>)

  function React(snap: Option<Snapshot>, backoff: Option<real>, now: real, o: Owner): Reaction {
    var m := Measurement(o.component, o.volume, now, o.probe);
    if backoff.Some? && now < backoff.value then Reaction(snap, None, backoff, [])
    else if StillSlow(snap, now) then Reaction(snap, None, None, [])
    else match o.probe
      case Measured(_, _) => Reaction(Some(m.Baseline()), None, None, [m])
      case Unknown => Reaction(snap, None, Some(now + MEASURE_BACKOFF), [m])
      case Raised => Reaction(None, snap, Some(now + MEASURE_BACKOFF), [m])
  }

  function Visited(previous: Snapshots, now: real, o: Owner, p: Pass): Pass {
    var r := React(Lookup(previous, o.volume), Lookup(p.backoff, o.volume), now, o);
    Pass(Keeping(p.current, o.volume, r.current), Keeping(p.preserved, o.volume, r.preserved),
         Keeping(p.backoff - {o.volume}, o.volume, r.backoff), p.log + r.log)
  }

  function VisitedAll(previous: Snapshots, now: real, owners: seq<Owner>, p: Pass): Pass
    decreases |owners|
  {
    if owners == [] then p else VisitedAll(previous, now, owners[1..], Visited(previous, now, owners[0], p))
  }

  /** What outlives a scan: the snapshot file and the measurement backoff. */
  datatype Auditor = Auditor(snapshots: Snapshots, backoff: map<string, real>)

  function Scanned(a: Auditor, scan: Scan): Trail<Auditor, Measurement> {
    if scan.owners == [] then Trail(a, []) else
    var p := VisitedAll(a.snapshots, scan.now, scan.owners, Pass(map[], map[], a.backoff, []));
    Trail(Auditor(p.preserved + p.current, p.backoff), p.log)
  }

  class VolumeAuditScheduler {
    var snapshots: Snapshots
    var backoff: map<string, real>

    constructor (saved: Snapshots)
      ensures State() == Auditor(saved, map[])
    {
      snapshots, backoff := saved, map[];
    }

    function State(): Auditor
      reads this
    {
      Auditor(snapshots, backoff)
    }

    method RunOnce(scan: Scan) returns (measured: seq<Measurement>)
      modifies this
      ensures Trail(State(), measured) == Scanned(old(State()), scan)
    {
      measured := [];
      if scan.owners == [] { return; }
      var previous, now, owners := snapshots, scan.now, scan.owners;
      var current: Snapshots, preserved: Snapshots := map[], map[];
      ghost var start := Pass(current, preserved, backoff, []);
      assert owners[0..] == owners;
      for i := 0 to |owners|
        invariant snapshots == previous
        invariant VisitedAll(previous, now, owners, start)
               == VisitedAll(previous, now, owners[i..], Pass(current, preserved, backoff, measured))
      {
        assert owners[i..][0] == owners[i] && owners[i..][1..] == owners[i + 1..];
        current, preserved, measured := VisitVolume(previous, now, owners[i], current, preserved, measured);
      }
      snapshots := preserved + current;
    }

    /** One turn of the scan's loop. */
    method VisitVolume(previous: Snapshots, now: real, o: Owner, current: Snapshots, preserved: Snapshots,
                       measured: seq<Measurement>)
      returns (current': Snapshots, preserved': Snapshots, measured': seq<Measurement>)
      modifies this`backoff
      ensures Pass(current', preserved', backoff, measured')
           == Visited(previous, now, o, Pass(current, preserved, old(backoff), measured))
    {
      var vol := o.volume;
      current', preserved', measured' := current, preserved, measured;
      assert measured + [] == measured;
      ghost var waiting := backoff;
      if vol in backoff {
        if now < backoff[vol] {
          assert (backoff - {vol})[vol := backoff[vol]] == backoff;
          if vol in previous { current' := current[vol := previous[vol]]; }
          return;
        }
        backoff := backoff - {vol};
      }
      assert backoff == waiting - {vol};
      if StillSlow(Lookup(previous, vol), now) {
        current' := current[vol := previous[vol]];
        return;
      }
      measured' := measured + [Measurement(o.component, vol, now, o.probe)];
      match o.probe
      case Raised =>
        backoff := backoff[vol := now + MEASURE_BACKOFF];
        if vol in previous { preserved' := preserved[vol := previous[vol]]; }
      case Unknown =>
        backoff := backoff[vol := now + MEASURE_BACKOFF];
        if vol in previous { current' := current[vol := previous[vol]]; }
      case Measured(size, took) =>
        current' := current[vol := Snapshot(o.component, now, size, Some(took))];
    }
  }

  // ---- One volume --------------------------------------------------------------------------------

  /** What the auditor knows of one volume. */
  datatype Cell = Cell(snap: Option<Snapshot>, backoff: Option<real>)

  function View(a: Auditor, v: string): Cell {
    Cell(Lookup(a.snapshots, v), Lookup(a.backoff, v))
  }

  function LogOf(log: seq<Measurement>, v: string): seq<Measurement> {
    if log == [] then []
    else (if log[0].volume == v then [log[0]] else []) + LogOf(log[1..], v)
  }

  /** The declarations of one volume, in the order of the scan. */
  function OwnersOf(owners: seq<Owner>, v: string): seq<Owner> {
    if owners == [] then []
    else (if owners[0].volume == v then [owners[0]] else []) + OwnersOf(owners[1..], v)
  }

  predicate Declares(owners: seq<Owner>, v: string) {
    OwnersOf(owners, v) != []
  }

  /** At most one component declares the volume. */
  predicate DeclaredOnce(owners: seq<Owner>, v: string) {
    |OwnersOf(owners, v)| <= 1
  }

  /** What a pass has gathered about one volume. */
  datatype Slice = Slice(
    current: Option<Snapshot>, preserved: Option<Snapshot>, backoff: Option<real>, log: seq<Measurement>)
  {
    /** The slice as the scan leaves it behind. */
    function Settled(): Trail<Cell, Measurement> {
      Trail(Cell(if current.Some? then current else preserved, backoff), log)
    }
  }

  function SliceOf(p: Pass, v: string): Slice {
    Slice(Lookup(p.current, v), Lookup(p.preserved, v), Lookup(p.backoff, v), LogOf(p.log, v))
  }

  function Sliced(snap: Option<Snapshot>, now: real, o: Owner, w: Slice): Slice {
    var r := React(snap, w.backoff, now, o);
    Slice(if r.current.Some? then r.current else w.current, if r.preserved.Some? then r.preserved else w.preserved,
          r.backoff, w.log + r.log)
  }

  function SlicedAll(snap: Option<Snapshot>, now: real, os: seq<Owner>, w: Slice): Slice
    decreases |os|
  {
    if os == [] then w else SlicedAll(snap, now, os[1..], Sliced(snap, now, os[0], w))
  }

  /** A scan as one volume sees it. */
  function CellStep(c: Cell, v: string, scan: Scan): Trail<Cell, Measurement> {
    if scan.owners == [] then Trail(c, [])
    else SlicedAll(c.snap, scan.now, OwnersOf(scan.owners, v), Slice(None, None, c.backoff, [])).Settled()
  }

  lemma {:induction false} LogOfSplit(a: seq<Measurement>, b: seq<Measurement>, v: string)
    ensures LogOf(a + b, v) == LogOf(a, v) + LogOf(b, v)
  {
    if a == [] {
      assert a + b == b;
    } else {
      assert (a + b)[0] == a[0] && (a + b)[1..] == a[1..] + b;
      LogOfSplit(a[1..], b, v);
      var own := if a[0].volume == v then [a[0]] else [];
      assert own + (LogOf(a[1..], v) + LogOf(b, v)) == own + LogOf(a[1..], v) + LogOf(b, v);
    }
  }

  lemma {:induction false} LogOfReaction(snap: Option<Snapshot>, backoff: Option<real>, now: real, o: Owner, v: string)
    ensures var log := React(snap, backoff, now, o).log;
      LogOf(log, v) == if o.volume == v then log else []
  {
    var log := React(snap, backoff, now, o).log;
    if log != [] {
      assert LogOf(log, v) == (if o.volume == v then log else []) + LogOf([], v);
    }
  }

  lemma {:induction false} VisitSliced(previous: Snapshots, now: real, o: Owner, p: Pass, v: string)
    ensures SliceOf(Visited(previous, now, o, p), v) ==
      if o.volume == v then Sliced(Lookup(previous, v), now, o, SliceOf(p, v)) else SliceOf(p, v)
  {
    var snap, backoff := Lookup(previous, o.volume), Lookup(p.backoff, o.volume);
    LogOfSplit(p.log, React(snap, backoff, now, o).log, v);
    LogOfReaction(snap, backoff, now, o, v);
    assert LogOf(p.log, v) + [] == LogOf(p.log, v);
  }

  /** Visits of other volumes make no difference. */
  lemma {:induction false} VisitsSliced(previous: Snapshots, now: real, owners: seq<Owner>, p: Pass, v: string)
    ensures SliceOf(VisitedAll(previous, now, owners, p), v)
         == SlicedAll(Lookup(previous, v), now, OwnersOf(owners, v), SliceOf(p, v))
    decreases |owners|
  {
    if owners != [] {
      var o, next := owners[0], Visited(previous, now, owners[0], p);
      VisitSliced(previous, now, o, p, v);
      VisitsSliced(previous, now, owners[1..], next, v);
      if o.volume == v {
        assert OwnersOf(owners, v)[0] == o && OwnersOf(owners, v)[1..] == OwnersOf(owners[1..], v);
      } else {
        assert OwnersOf(owners, v) == OwnersOf(owners[1..], v);
      }
    }
  }

  lemma {:induction false} ScanIsCellStep(a: Auditor, scan: Scan, v: string)
    ensures var t := Scanned(a, scan);
      Trail(View(t.state, v), LogOf(t.log, v)) == CellStep(View(a, v), v, scan)
  {
    if scan.owners != [] {
      VisitsSliced(a.snapshots, scan.now, scan.owners, Pass(map[], map[], a.backoff, []), v);
    }
  }

  /** With one declaration the volume is visited once. */
  lemma {:induction false} CellStepOnce(c: Cell, v: string, scan: Scan)
    requires scan.owners != [] && |OwnersOf(scan.owners, v)| == 1
    ensures var r := React(c.snap, c.backoff, scan.now, OwnersOf(scan.owners, v)[0]);
      CellStep(c, v, scan) == Trail(Cell(if r.current.Some? then r.current else r.preserved, r.backoff), r.log)
  {
    var os, w := OwnersOf(scan.owners, v), Slice(None, None, c.backoff, []);
    var next := Sliced(c.snap, scan.now, os[0], w);
    assert os[1..] == [] && SlicedAll(c.snap, scan.now, os[1..], next) == next;
    assert [] + React(c.snap, c.backoff, scan.now, os[0]).log == React(c.snap, c.backoff, scan.now, os[0]).log;
  }

  lemma CellStepNever(c: Cell, v: string, scan: Scan)
    requires scan.owners != [] && !Declares(scan.owners, v)
    ensures CellStep(c, v, scan) == Trail(c.(snap := None), [])
  {
  }

  lemma MeasuredMeansDeclared(c: Cell, v: string, scan: Scan)
    requires CellStep(c, v, scan).log != []
    ensures scan.owners != [] && Declares(scan.owners, v)
  {
  }

  // ---- Runs of scans and restarts ----------------------------------------------------------------

  /** A restart forgets the failure backoff; the snapshots are on disk. */
  datatype Event = Audit(scan: Scan) | Restart

  function Step(a: Auditor, e: Event): Trail<Auditor, Measurement> {
    if e.Audit? then Scanned(a, e.scan) else Trail(a.(backoff := map[]), [])
  }

  function StepOf(v: string): (Cell, Event) -> Trail<Cell, Measurement> {
    (c: Cell, e: Event) => if e.Audit? then CellStep(c, v, e.scan) else Trail(c.(backoff := None), [])
  }

  /** Volumes do not affect each other: a run of the auditor is, for each volume, a run of its own. */
  lemma {:induction false} VolumesAreIndependent(a: Auditor, events: seq<Event>, v: string)
    ensures var t := Run(Step, a, events);
      Trail(View(t.state, v), LogOf(t.log, v)) == Run(StepOf(v), View(a, v), events)
    decreases |events|
  {
    if events != [] {
      var first := Step(a, events[0]);
      if events[0].Audit? {
        ScanIsCellStep(a, events[0].scan, v);
      }
      VolumesAreIndependent(first.state, events[1..], v);
      LogOfSplit(first.log, Run(Step, first.state, events[1..]).log, v);
    }
  }

  /** In no scan do two components declare the volume. */
  predicate SingleOwner(events: seq<Event>, v: string) {
    forall i :: 0 <= i < |events| && events[i].Audit? ==> DeclaredOnce(events[i].scan.owners, v)
  }

  // ---- Baselines ---------------------------------------------------------------------------------

  /** The last successful measurement in a log, or the baseline from before it. */
  function LastMeasured(initial: Option<Snapshot>, log: seq<Measurement>): Option<Snapshot>
    decreases |log|
  {
    if log == [] then initial
    else if log[|log| - 1].Failed() then LastMeasured(initial, log[..|log| - 1])
    else Some(log[|log| - 1].Baseline())
  }

  lemma {:induction false} LastOfExtended(initial: Option<Snapshot>, log: seq<Measurement>, m: Measurement)
    ensures LastMeasured(initial, log + [m]) == if m.Failed() then LastMeasured(initial, log) else Some(m.Baseline())
  {
    assert (log + [m])[..|log|] == log;
  }

  /** Every scan that finds any volume declared finds this one declared. */
  predicate Continuous(events: seq<Event>, v: string) {
    forall i :: 0 <= i < |events| && events[i].Audit? && events[i].scan.owners != [] ==>
      Declares(events[i].scan.owners, v)
  }

  lemma {:induction false} CellBaseline(c: Cell, v: string, events: seq<Event>)
    requires Continuous(events, v) && SingleOwner(events, v)
    ensures var t := Run(StepOf(v), c, events); t.state.snap == LastMeasured(c.snap, t.log)
    decreases |events|
  {
    if events != [] {
      var m := |events| - 1;
      assert events[..m + 1] == events;
      RunSnoc(StepOf(v), c, events, m);
      CellBaseline(c, v, events[..m]);
      var before := Run(StepOf(v), c, events[..m]);
      if events[m].Audit? {
        StepBaseline(c.snap, before.log, before.state, v, events[m].scan);
      } else {
        assert before.log + [] == before.log;
      }
    }
  }

  lemma {:induction false} StepBaseline(initial: Option<Snapshot>, log: seq<Measurement>, c: Cell, v: string,
                                        scan: Scan)
    requires c.snap == LastMeasured(initial, log) && DeclaredOnce(scan.owners, v)
    requires scan.owners != [] ==> Declares(scan.owners, v)
    ensures var t := CellStep(c, v, scan); t.state.snap == LastMeasured(initial, log + t.log)
  {
    var t := CellStep(c, v, scan);
    if scan.owners != [] {
      CellStepOnce(c, v, scan);
    }
    if t.log == [] {
      assert log + t.log == log;
    } else {
      LastOfExtended(initial, log, t.log[0]);
    }
  }

  /**
   * The stored baseline of a continuously declared volume is its last successful measurement,
   * whatever failed, was skipped or was forgotten by a restart since.
   */
  lemma BaselineIsLastMeasurement(a: Auditor, events: seq<Event>, v: string)
    requires SingleOwner(events, v) && Continuous(events, v)
    ensures var t := Run(Step, a, events);
      Lookup(t.state.snapshots, v) == LastMeasured(Lookup(a.snapshots, v), LogOf(t.log, v))
  {
    VolumesAreIndependent(a, events, v);
    CellBaseline(View(a, v), v, events);
  }

  /** A volume that a scan finds undeclared, while others are declared, loses its baseline. */
  lemma UndeclaredLosesBaseline(a: Auditor, scan: Scan, v: string)
    ensures scan.owners != [] && !Declares(scan.owners, v) ==> v !in Scanned(a, scan).state.snapshots
  {
    ScanIsCellStep(a, scan, v);
    if scan.owners != [] && !Declares(scan.owners, v) {
      CellStepNever(View(a, v), v, scan);
    }
  }

  // ---- Volumes with several owners ---------------------------------------------------------------

  /** The same components declare the same volumes; measuring them may come to something else. */
  predicate SameDeclarations(a: seq<Owner>, b: seq<Owner>) {
    |a| == |b| && forall i :: 0 <= i < |a| ==> a[i].(probe := Unknown) == b[i].(probe := Unknown)
  }

  lemma {:induction false} SameOwners(a: seq<Owner>, b: seq<Owner>, v: string)
    requires SameDeclarations(a, b)
    ensures |OwnersOf(a, v)| == |OwnersOf(b, v)|
  {
    if a != [] {
      assert a[0].(probe := Unknown) == b[0].(probe := Unknown);
      assert forall i :: 0 <= i < |a| - 1 ==> a[1..][i] == a[i + 1] && b[1..][i] == b[i + 1];
      SameOwners(a[1..], b[1..], v);
    }
  }

  predicate BackedOff(a: Auditor, now: real, v: string) {
    v in a.backoff && now < a.backoff[v]
  }

  /** After the scan the stored baseline is the last successful measurement, else the one from before. */
  predicate KeepsBaseline(a: Auditor, scan: Scan, v: string) {
    var t := Scanned(a, scan);
    Lookup(t.state.snapshots, v) == LastMeasured(Lookup(a.snapshots, v), LogOf(t.log, v))
  }

  /** The baseline that further visits of one volume leave, when they are held back, slow, or start from nothing. */
  lemma {:induction false} VisitsKeepBaseline(snap: Option<Snapshot>, now: real, os: seq<Owner>, w: Slice)
    requires w.Settled().state.snap == LastMeasured(snap, w.log)
    requires || snap.None?
             || (w.log == [] && ((w.backoff.Some? && now < w.backoff.value) || StillSlow(snap, now)))
    ensures var t := SlicedAll(snap, now, os, w).Settled(); t.state.snap == LastMeasured(snap, t.log)
    decreases |os|
  {
    if os != [] {
      var r, next := React(snap, w.backoff, now, os[0]), Sliced(snap, now, os[0], w);
      if r.log == [] {
        assert next.log == w.log;
      } else {
        LastOfExtended(snap, w.log, r.log[0]);
      }
      VisitsKeepBaseline(snap, now, os[1..], next);
    }
  }

  lemma {:induction false} SafeScanKeepsBaseline(a: Auditor, scan: Scan, v: string)
    requires Declares(scan.owners, v)
    requires || DeclaredOnce(scan.owners, v) || v !in a.snapshots
             || BackedOff(a, scan.now, v) || StillSlow(Lookup(a.snapshots, v), scan.now)
    ensures KeepsBaseline(a, scan, v)
  {
    var c, os := View(a, v), OwnersOf(scan.owners, v);
    ScanIsCellStep(a, scan, v);
    if DeclaredOnce(scan.owners, v) {
      StepBaseline(c.snap, [], c, v, scan);
      assert [] + CellStep(c, v, scan).log == CellStep(c, v, scan).log;
    } else {
      FirstVisitKeepsBaseline(c, scan.now, os);
    }
  }

  lemma {:induction false} FirstVisitKeepsBaseline(c: Cell, now: real, os: seq<Owner>)
    requires os != []
    requires c.snap.None? || (c.backoff.Some? && now < c.backoff.value) || StillSlow(c.snap, now)
    ensures var t := SlicedAll(c.snap, now, os, Slice(None, None, c.backoff, [])).Settled();
      t.state.snap == LastMeasured(c.snap, t.log)
  {
    var start := Slice(None, None, c.backoff, []);
    FirstVisit(c, now, os[0]);
    VisitsKeepBaseline(c.snap, now, os[1..], Sliced(c.snap, now, os[0], start));
  }

  lemma {:induction false} FirstVisit(c: Cell, now: real, o: Owner)
    requires c.snap.None? || (c.backoff.Some? && now < c.backoff.value) || StillSlow(c.snap, now)
    ensures var w := Sliced(c.snap, now, o, Slice(None, None, c.backoff, []));
      && w.Settled().state.snap == LastMeasured(c.snap, w.log)
      && (c.snap.Some? ==> w.log == [] && ((w.backoff.Some? && now < w.backoff.value) || StillSlow(c.snap, now)))
  {
    var r := React(c.snap, c.backoff, now, o);
    assert [] + r.log == r.log;
    if r.log != [] {
      LastOfExtended(c.snap, [], r.log[0]);
      assert [] + [r.log[0]] == r.log;
    }
  }

  /** The declarations with a first measurement of `v` that works and later ones that fail. */
  function Losing(owners: seq<Owner>, v: string, first: Probe): (r: seq<Owner>)
    ensures SameDeclarations(owners, r)
  {
    if owners == [] then []
    else if owners[0].volume == v then [owners[0].(probe := first)] + Losing(owners[1..], v, Unknown)
    else [owners[0]] + Losing(owners[1..], v, first)
  }

  lemma {:induction false} LosingOwners(owners: seq<Owner>, v: string, first: Probe)
    ensures var os := OwnersOf(Losing(owners, v, first), v);
      && |os| == |OwnersOf(owners, v)|
      && forall i :: 0 <= i < |os| ==> os[i].volume == v && os[i].probe == if i == 0 then first else Unknown
  {
    if owners != [] {
      var r := Losing(owners, v, first);
      if owners[0].volume == v {
        LosingOwners(owners[1..], v, Unknown);
        assert r[1..] == Losing(owners[1..], v, Unknown);
        assert OwnersOf(r, v) == [r[0]] + OwnersOf(r[1..], v);
      } else {
        LosingOwners(owners[1..], v, first);
        assert r[1..] == Losing(owners[1..], v, first);
        assert OwnersOf(r, v) == OwnersOf(r[1..], v);
      }
    }
  }

  lemma {:induction false} HeldBackVisits(snap: Option<Snapshot>, now: real, os: seq<Owner>, w: Slice)
    requires w.backoff.Some? && now < w.backoff.value && w.current == snap && snap.Some?
    ensures SlicedAll(snap, now, os, w) == w
    decreases |os|
  {
    if os != [] {
      assert w.log + [] == w.log;
      HeldBackVisits(snap, now, os[1..], w);
    }
  }

  /** A success followed by a failure in the same scan puts the old baseline back. */
  lemma {:induction false} LosingVisits(snap: Option<Snapshot>, now: real, os: seq<Owner>, w: Slice)
    requires |os| >= 2 && snap.Some? && !StillSlow(snap, now)
    requires w.log == [] && !(w.backoff.Some? && now < w.backoff.value)
    requires os[0].probe.Measured? && os[1].probe.Unknown?
    ensures var t := SlicedAll(snap, now, os, w);
      && t.current == snap
      && LastMeasured(snap, t.log) == Some(Measurement(os[0].component, os[0].volume, now, os[0].probe).Baseline())
  {
    var m0 := Measurement(os[0].component, os[0].volume, now, os[0].probe);
    var m1 := Measurement(os[1].component, os[1].volume, now, os[1].probe);
    var one := Sliced(snap, now, os[0], w);
    assert one.log == [m0] && one.backoff.None?;
    var two := Sliced(snap, now, os[1], one);
    assert two.log == [m0] + [m1] && two.current == snap;
    assert os[1..][0] == os[1] && os[1..][1..] == os[2..];
    HeldBackVisits(snap, now, os[2..], two);
    LastOfExtended(snap, [m0], m1);
    LastOfExtended(snap, [], m0);
    assert [] + [m0] == [m0];
  }

  lemma {:induction false} LosingScan(a: Auditor, now: real, owners: seq<Owner>, v: string)
    requires |OwnersOf(owners, v)| >= 2 && v in a.snapshots
    requires !BackedOff(a, now, v) && !StillSlow(Lookup(a.snapshots, v), now)
    ensures !KeepsBaseline(a, Scan(now, Losing(owners, v, Measured(a.snapshots[v].size + 1, 0.0))), v)
  {
    var first := Measured(a.snapshots[v].size + 1, 0.0);
    var scan := Scan(now, Losing(owners, v, first));
    LosingOwners(owners, v, first);
    ScanIsCellStep(a, scan, v);
    LosingVisits(Lookup(a.snapshots, v), now, OwnersOf(scan.owners, v), Slice(None, None, Lookup(a.backoff, v), []));
  }

  /**
   * Whatever the measurements of a scan come to, the baseline of a declared volume is its last
   * successful measurement: exactly when one component declares it, or it had no baseline, or it
   * is backed off, or it was slow a short time ago.
   */
  lemma {:induction false} ScanKeepsBaselineIff(a: Auditor, now: real, owners: seq<Owner>, v: string)
    requires Declares(owners, v)
    ensures (forall os :: SameDeclarations(owners, os) ==> KeepsBaseline(a, Scan(now, os), v))
      <==> (|| DeclaredOnce(owners, v) || v !in a.snapshots
            || BackedOff(a, now, v) || StillSlow(Lookup(a.snapshots, v), now))
  {
    if DeclaredOnce(owners, v) || v !in a.snapshots || BackedOff(a, now, v) || StillSlow(Lookup(a.snapshots, v), now) {
      forall os | SameDeclarations(owners, os) ensures KeepsBaseline(a, Scan(now, os), v) {
        SameOwners(owners, os, v);
        SafeScanKeepsBaseline(a, Scan(now, os), v);
      }
    } else {
      var os := Losing(owners, v, Measured(a.snapshots[v].size + 1, 0.0));
      LosingScan(a, now, owners, v);
      assert SameDeclarations(owners, os) && !KeepsBaseline(a, Scan(now, os), v);
    }
  }

  /** The smallest such scan: two owners, a success and a failure, and the old baseline is back. */
  lemma SecondDeclarationLosesMeasurement(v: string, stored: Snapshot, now: real)
    requires stored.took.None? && stored.size != 0
    ensures var owners := [Owner("a", v, Measured(0, 1.0)), Owner("b", v, Unknown)];
      var t := Scanned(Auditor(map[v := stored], map[]), Scan(now, owners));
      && LogOf(t.log, v) == [Measurement("a", v, now, Measured(0, 1.0)), Measurement("b", v, now, Unknown)]
      && t.state.snapshots == map[v := stored]
  {
    var owners := [Owner("a", v, Measured(0, 1.0)), Owner("b", v, Unknown)];
    var start := Pass(map[], map[], map[], []);
    var previous := map[v := stored];
    var one := Visited(previous, now, owners[0], start);
    var two := Visited(previous, now, owners[1], one);
    assert owners[1..] == [owners[1]] && owners[1..][1..] == [];
    assert VisitedAll(previous, now, owners[1..], one) == two;
    assert two.preserved + two.current == previous;
    LogOfSplit([two.log[0]], [two.log[1]], v);
    assert two.log == [two.log[0]] + [two.log[1]];
  }

  // ---- Spacing -----------------------------------------------------------------------------------

  /** The scans' clock never goes back, and none of them starts before `from`. */
  predicate InOrder(events: seq<Event>, from: real) {
    events != [] ==>
      if events[0].Audit? then from <= events[0].scan.now && InOrder(events[1..], events[0].scan.now)
      else InOrder(events[1..], from)
  }

  predicate NoRestart(events: seq<Event>) {
    forall i :: 0 <= i < |events| ==> events[i].Audit?
  }

  /** No measurement follows a failed one within the backoff. */
  predicate Spaced(log: seq<Measurement>) {
    forall i, j :: 0 <= i < j < |log| && log[i].Failed() ==> log[j].at >= log[i].at + MEASURE_BACKOFF
  }

  /** For each failure in the log its time is up, or the backoff in force lasts until then. */
  predicate Covers(backoff: Option<real>, log: seq<Measurement>, now: real) {
    forall i :: 0 <= i < |log| && log[i].Failed() ==>
      now >= log[i].at + MEASURE_BACKOFF || (backoff.Some? && backoff.value >= log[i].at + MEASURE_BACKOFF)
  }

  lemma {:induction false} VisitsSpaced(snap: Option<Snapshot>, now: real, os: seq<Owner>, w: Slice,
                                        history: seq<Measurement>)
    requires Spaced(history + w.log) && Covers(w.backoff, history + w.log, now)
    ensures var t := SlicedAll(snap, now, os, w);
      Spaced(history + t.log) && Covers(t.backoff, history + t.log, now)
    decreases |os|
  {
    if os != [] {
      var r, next := React(snap, w.backoff, now, os[0]), Sliced(snap, now, os[0], w);
      assert history + next.log == history + w.log + r.log;
      VisitsSpaced(snap, now, os[1..], next, history);
    }
  }

  lemma {:induction false} RunSpaced(c: Cell, v: string, events: seq<Event>, history: seq<Measurement>, now: real)
    requires Spaced(history) && Covers(c.backoff, history, now)
    requires InOrder(events, now) && NoRestart(events)
    ensures Spaced(history + Run(StepOf(v), c, events).log)
    decreases |events|
  {
    if events == [] {
      assert history + [] == history;
    } else {
      assert events[0].Audit? && forall i :: 0 <= i < |events[1..]| ==> events[1..][i] == events[i + 1];
      var scan, first := events[0].scan, StepOf(v)(c, events[0]);
      assert history + [] == history;
      VisitsSpaced(c.snap, scan.now, OwnersOf(scan.owners, v), Slice(None, None, c.backoff, []), history);
      RunSpaced(first.state, v, events[1..], history + first.log, scan.now);
      var rest := Run(StepOf(v), first.state, events[1..]).log;
      assert history + first.log + rest == history + (first.log + rest);
    }
  }

  lemma {:induction false} FailuresSpaced(a: Auditor, events: seq<Event>, v: string, from: real)
    requires InOrder(events, from) && NoRestart(events)
    ensures Spaced(LogOf(Run(Step, a, events).log, v))
  {
    VolumesAreIndependent(a, events, v);
    RunSpaced(View(a, v), v, events, [], from);
    var log := Run(StepOf(v), View(a, v), events).log;
    assert [] + log == log;
  }

  /**
   * After a failed measurement a volume is left alone for three hours, whoever declares it and
   * however often, unless the auditor restarts.
   */
  lemma {:induction false} FailedMeasurementBacksOff(a: Auditor, events: seq<Event>, v: string, from: real, i: nat,
                                                     j: nat)
    requires InOrder(events, from) && NoRestart(events)
    requires i < j < |LogOf(Run(Step, a, events).log, v)|
    ensures var log := LogOf(Run(Step, a, events).log, v);
      log[i].Failed() ==> log[j].at >= log[i].at + 10800.0
  {
    FailuresSpaced(a, events, v, from);
  }

  predicate NoneBefore(log: seq<Measurement>, until: real) {
    forall i :: 0 <= i < |log| ==> log[i].at >= until
  }

  /** While the clock has not reached `until`, a slow measurement holds others back. */
  predicate HeldSlow(c: Cell, until: real, now: real) {
    || now >= until
    || (c.snap.Some? && c.snap.value.took.Some? && c.snap.value.took.value > SLOW_MEASURE
        && c.snap.value.at + SLOW_VOLUME_INTERVAL >= until)
  }

  lemma {:induction false} StepHeldSlow(c: Cell, v: string, scan: Scan, until: real)
    requires HeldSlow(c, until, scan.now) && DeclaredOnce(scan.owners, v)
    requires scan.owners != [] ==> Declares(scan.owners, v)
    ensures var t := CellStep(c, v, scan); HeldSlow(t.state, until, scan.now) && NoneBefore(t.log, until)
  {
    if scan.owners != [] {
      CellStepOnce(c, v, scan);
    }
  }

  lemma {:induction false} SlowedDown(c: Cell, v: string, events: seq<Event>, until: real, now: real)
    requires InOrder(events, now) && Continuous(events, v) && SingleOwner(events, v) && HeldSlow(c, until, now)
    ensures NoneBefore(Run(StepOf(v), c, events).log, until)
    decreases |events|
  {
    if events != [] {
      var first := StepOf(v)(c, events[0]);
      assert forall i :: 0 <= i < |events[1..]| ==> events[1..][i] == events[i + 1];
      var clock := if events[0].Audit? then events[0].scan.now else now;
      if events[0].Audit? {
        StepHeldSlow(c, v, events[0].scan, until);
      }
      SlowedDown(first.state, v, events[1..], until, clock);
    }
  }

  lemma {:induction false} InOrderFrom(events: seq<Event>, from: real, n: nat)
    requires InOrder(events, from) && n < |events| && events[n].Audit?
    ensures InOrder(events[n + 1..], events[n].scan.now)
    decreases |events|
  {
    if n > 0 {
      assert events[1..][n - 1 + 1..] == events[n + 1..];
      InOrderFrom(events[1..], if events[0].Audit? then events[0].scan.now else from, n - 1);
    }
  }

  /** The event that made a slow measurement of a volume, and what the volume looked like right after it. */
  lemma {:induction false} SlowAt(c: Cell, v: string, events: seq<Event>, from: real, i: nat)
    returns (n: nat, after: Cell)
    requires InOrder(events, from) && SingleOwner(events, v)
    requires i < |Run(StepOf(v), c, events).log| && Run(StepOf(v), c, events).log[i].Slow()
    ensures n < |events| && events[n].Audit? && events[n].scan.now == Run(StepOf(v), c, events).log[i].at
    ensures InOrder(events[n + 1..], events[n].scan.now)
    ensures Run(StepOf(v), c, events).log[i + 1..] == Run(StepOf(v), after, events[n + 1..]).log
    ensures after.snap == Some(Run(StepOf(v), c, events).log[i].Baseline())
  {
    var before, at, rest;
    n, before, at, rest := Writer(StepOf(v), c, events, i);
    after := at.state;
    assert events[n].Audit?;
    MeasuredMeansDeclared(before.state, v, events[n].scan);
    CellStepOnce(before.state, v, events[n].scan);
    assert |at.log| == 1;
    InOrderFrom(events, from, n);
    assert (before.log + at.log + rest.log)[i + 1..] == rest.log;
  }

  /** After a slow measurement a volume is left alone for six hours, restarts included. */
  lemma {:induction false} SlowMeasurementSpacing(a: Auditor, events: seq<Event>, v: string, from: real, i: nat, j: nat)
    requires SingleOwner(events, v) && Continuous(events, v) && InOrder(events, from)
    requires i < j < |LogOf(Run(Step, a, events).log, v)|
    ensures var log := LogOf(Run(Step, a, events).log, v);
      log[i].Slow() ==> log[j].at >= log[i].at + 21600.0
  {
    VolumesAreIndependent(a, events, v);
    var log := Run(StepOf(v), View(a, v), events).log;
    if log[i].Slow() {
      var n, after := SlowAt(View(a, v), v, events, from, i);
      var rest := events[n + 1..];
      assert forall k :: 0 <= k < |rest| ==> rest[k] == events[n + 1 + k];
      SlowedDown(after, v, rest, log[i].at + SLOW_VOLUME_INTERVAL, log[i].at);
      assert log[j] == log[i + 1..][j - i - 1];
    }
  }

  // ---- When a volume is measured -----------------------------------------------------------------

  /** The volume rests after a failure, or after a slow measurement less than six hours old. */
  predicate Rests(a: Auditor, now: real, v: string) {
    || (v in a.backoff && now < a.backoff[v])
    || (&& v in a.snapshots && a.snapshots[v].took.Some? && a.snapshots[v].took.value > 120.0
        && now - a.snapshots[v].at < 21600.0)
  }

  /**
   * A volume with one owner is measured by a scan exactly if it does not rest: once, at the scan's
   * time and for its owner.  A success becomes its snapshot; a failure keeps the old one and holds the
   * next measurement back for three hours.
   */
  lemma {:induction false} MeasuredExactly(a: Auditor, scan: Scan, v: string, o: Owner)
    requires scan.owners != [] && OwnersOf(scan.owners, v) == [o]
    ensures var t := Scanned(a, scan);
      if Rests(a, scan.now, v) then
        LogOf(t.log, v) == [] && Lookup(t.state.snapshots, v) == Lookup(a.snapshots, v)
      else
        && LogOf(t.log, v) == [Measurement(o.component, v, scan.now, o.probe)]
        && (if o.probe.Measured? then
              && v in t.state.snapshots && v !in t.state.backoff
              && t.state.snapshots[v] == Snapshot(o.component, scan.now, o.probe.size, Some(o.probe.took))
            else
              && Lookup(t.state.snapshots, v) == Lookup(a.snapshots, v)
              && v in t.state.backoff && t.state.backoff[v] == scan.now + 10800.0)
  {
    OwnersAreOf(scan.owners, v, 0);
    ScanIsCellStep(a, scan, v);
    CellStepOnce(View(a, v), v, scan);
    ReactsExactly(a, scan.now, o);
    var r := React(Lookup(a.snapshots, v), Lookup(a.backoff, v), scan.now, o);
    assert View(Scanned(a, scan).state, v) == Cell(if r.current.Some? then r.current else r.preserved, r.backoff);
  }

  lemma ReactsExactly(a: Auditor, now: real, o: Owner)
    ensures var snap, backoff := Lookup(a.snapshots, o.volume), Lookup(a.backoff, o.volume);
      var r := React(snap, backoff, now, o);
      var kept := if r.current.Some? then r.current else r.preserved;
      if Rests(a, now, o.volume) then r.log == [] && kept == snap
      else
        && r.log == [Measurement(o.component, o.volume, now, o.probe)]
        && kept == (if o.probe.Measured?
                    then Some(Snapshot(o.component, now, o.probe.size, Some(o.probe.took))) else snap)
        && r.backoff == if o.probe.Measured? then None else Some(now + 10800.0)
  {
  }

  /** However many components declare it, the first to come up finds the volume measured unless it rests. */
  lemma {:induction false} FirstOwnerMeasures(a: Auditor, scan: Scan, v: string)
    requires Declares(scan.owners, v)
    ensures var log := LogOf(Scanned(a, scan).log, v);
      if Rests(a, scan.now, v) then log == []
      else var o := OwnersOf(scan.owners, v)[0]; log != [] && log[0] == Measurement(o.component, v, scan.now, o.probe)
  {
    var os, snap := OwnersOf(scan.owners, v), Lookup(a.snapshots, v);
    var start := Slice(None, None, Lookup(a.backoff, v), []);
    OwnersAreOf(scan.owners, v, 0);
    ScanIsCellStep(a, scan, v);
    if Rests(a, scan.now, v) {
      SilentVisits(snap, scan.now, os, start);
    } else {
      LogGrows(snap, scan.now, os[1..], Sliced(snap, scan.now, os[0], start));
    }
  }

  lemma {:induction false} OwnersAreOf(owners: seq<Owner>, v: string, i: nat)
    requires i < |OwnersOf(owners, v)|
    ensures OwnersOf(owners, v)[i].volume == v && owners != []
  {
    if owners[0].volume == v && i > 0 {
      OwnersAreOf(owners[1..], v, i - 1);
    } else if owners[0].volume != v {
      OwnersAreOf(owners[1..], v, i);
    }
  }

  lemma {:induction false} LogGrows(snap: Option<Snapshot>, now: real, os: seq<Owner>, w: Slice)
    ensures w.log <= SlicedAll(snap, now, os, w).log
    decreases |os|
  {
    if os != [] {
      LogGrows(snap, now, os[1..], Sliced(snap, now, os[0], w));
    }
  }

  // ---- Slow measurements within one scan ---------------------------------------------------------

  /** A slow measurement of the volume is the last one of the scan. */
  predicate SlowIsLast(a: Auditor, scan: Scan, v: string) {
    var log := LogOf(Scanned(a, scan).log, v);
    forall i :: 0 <= i < |log| - 1 ==> !log[i].Slow()
  }

  lemma {:induction false} SilentVisits(snap: Option<Snapshot>, now: real, os: seq<Owner>, w: Slice)
    requires (w.backoff.Some? && now < w.backoff.value) || StillSlow(snap, now)
    ensures SlicedAll(snap, now, os, w).log == w.log
    decreases |os|
  {
    if os != [] {
      assert w.log + [] == w.log;
      SilentVisits(snap, now, os[1..], Sliced(snap, now, os[0], w));
    }
  }

  lemma {:induction false} SafeScanSlowIsLast(a: Auditor, scan: Scan, v: string)
    requires Declares(scan.owners, v)
    requires || DeclaredOnce(scan.owners, v)
             || BackedOff(a, scan.now, v) || StillSlow(Lookup(a.snapshots, v), scan.now)
    ensures SlowIsLast(a, scan, v)
  {
    ScanIsCellStep(a, scan, v);
    if DeclaredOnce(scan.owners, v) {
      CellStepOnce(View(a, v), v, scan);
    } else {
      var start := Slice(None, None, Lookup(a.backoff, v), []);
      SilentVisits(Lookup(a.snapshots, v), scan.now, OwnersOf(scan.owners, v), start);
    }
  }

  const SLOW_PROBE := Measured(1, 200.0)

  lemma {:induction false} RepeatedSlowScan(a: Auditor, now: real, owners: seq<Owner>, v: string)
    requires |OwnersOf(owners, v)| >= 2
    requires !BackedOff(a, now, v) && !StillSlow(Lookup(a.snapshots, v), now)
    ensures !SlowIsLast(a, Scan(now, Losing(owners, v, SLOW_PROBE)), v)
  {
    var scan := Scan(now, Losing(owners, v, SLOW_PROBE));
    var os, snap := OwnersOf(scan.owners, v), Lookup(a.snapshots, v);
    LosingOwners(owners, v, SLOW_PROBE);
    ScanIsCellStep(a, scan, v);
    var start := Slice(None, None, Lookup(a.backoff, v), []);
    var one := Sliced(snap, now, os[0], start);
    var two := Sliced(snap, now, os[1], one);
    assert one.backoff.None? && |one.log| == 1 && one.log[0].Slow();
    assert |two.log| == 2 && two.log[0] == one.log[0];
    assert os[1..][0] == os[1] && os[1..][1..] == os[2..];
    SilentVisits(snap, now, os[2..], two);
    assert SlicedAll(snap, now, os, start) == SlicedAll(snap, now, os[1..], one);
    assert LogOf(Scanned(a, scan).log, v) == two.log;
  }

  /**
   * Whatever the measurements of a scan come to, no measurement of a declared volume follows a slow
   * one in it: exactly when one component declares it, or it is backed off, or it was slow a short
   * time ago.
   */
  lemma {:induction false} SlowIsLastIff(a: Auditor, now: real, owners: seq<Owner>, v: string)
    requires Declares(owners, v)
    ensures (forall os :: SameDeclarations(owners, os) ==> SlowIsLast(a, Scan(now, os), v))
      <==> (DeclaredOnce(owners, v) || BackedOff(a, now, v) || StillSlow(Lookup(a.snapshots, v), now))
  {
    if DeclaredOnce(owners, v) || BackedOff(a, now, v) || StillSlow(Lookup(a.snapshots, v), now) {
      forall os | SameDeclarations(owners, os) ensures SlowIsLast(a, Scan(now, os), v) {
        SameOwners(owners, os, v);
        SafeScanSlowIsLast(a, Scan(now, os), v);
      }
    } else {
      var os := Losing(owners, v, SLOW_PROBE);
      RepeatedSlowScan(a, now, owners, v);
      assert SameDeclarations(owners, os) && !SlowIsLast(a, Scan(now, os), v);
    }
  }
}
