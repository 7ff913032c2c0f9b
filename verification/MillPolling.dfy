/**
 * The bounded wait for a busy mill: what one full pass and one short-cadence recheck do to the
 * scheduler's deferral fields, the mill's record and the fleet.
 */
module MillPolling {
  import opened Wrappers
  import opened Runs
  import opened ServiceRecords
  import opened UpdatePhase

  datatype Settings = Settings(
    millId: string,
    enabled: bool,
    intervalHours: int,
    maxDeferHours: int,
    forceDeployHours: int,
    recheckMinutes: int)

  /** The validators of the settings model. */
  predicate Validated(s: Settings) {
    1 <= s.intervalHours && 1 <= s.maxDeferHours <= s.forceDeployHours && 1 <= s.recheckMinutes
  }

  /** The scheduler fields that drive the recheck. */
  datatype Deferral = Deferral(since: Option<int>, attempted: Option<string>)

  /** What one poll meets: the time, the mill's URL and heavy stages, and the rest of the pass. */
  datatype World = World(
    now: int,
    urlKnown: bool,
    heavy: bool,
    selfKnown: bool,
    selfContainer: string,
    configs: map<string, Config>,
    held: set<string>,
    order: seq<string>,
    env: Environment)

  datatype Mill = Mill(deferral: Deferral, fleet: Fleet)

  datatype Judgement = Judgement(fleet: Fleet, busy: bool)

  function WithPending(fleet: Fleet, id: string, since: Option<int>): (f: Fleet)
    requires id in fleet
    ensures f.Keys == fleet.Keys
  {
    fleet[id := fleet[id].(pendingSince := since)]
  }

  /** Defer while heavy stages run, but never longer than the force ceiling. */
  function Judge(s: Settings, fleet: Fleet, w: World): (j: Judgement)
    ensures j.fleet.Keys == fleet.Keys
  {
    if s.millId == "" || !w.urlKnown || s.millId !in fleet then Judgement(fleet, false)
    else if !fleet[s.millId].updateAvailable || !w.heavy then Judgement(WithPending(fleet, s.millId, None), false)
    else
      var since := fleet[s.millId].pendingSince.GetOr(w.now);
      Judgement(WithPending(fleet, s.millId, Some(since)), w.now - since < s.forceDeployHours * 3600)
  }

  function Track(d: Deferral, busy: bool, now: int): Deferral {
    d.(since := if busy then Some(d.since.GetOr(now)) else None)
  }

  function NoteAttempt(d: Deferral, s: Settings, fleet: Fleet): Deferral {
    if s.millId in fleet && fleet[s.millId].updateAvailable then d.(attempted := Some(fleet[s.millId].latest)) else d
  }

  function PassFor(w: World, busy: set<string>, only: Option<set<string>>): Pass {
    Pass(w.selfKnown, w.selfContainer, busy, only, w.configs)
  }

  function PhaseRun(fleet: Fleet, w: World, busy: set<string>, only: Option<set<string>>): Trail<Fleet, Entry> {
    Run(Step, fleet, PhaseEvents(PassFor(w, busy, only), StaleParents(fleet), w.held, w.order, w.env))
  }

  /** The busy check of a full pass and its marks on the deferral fields. */
  function Prepared(s: Settings, m: Mill, w: World): Mill {
    var j := Judge(s, m.fleet, w);
    var d := Track(m.deferral, j.busy, w.now);
    Mill(if s.millId != "" && !j.busy then NoteAttempt(d, s, j.fleet) else d, j.fleet)
  }

  /** The update part of a full pass. */
  function FullPass(s: Settings, m: Mill, w: World): Trail<Mill, Entry> {
    var p := Prepared(s, m, w);
    var phase := PhaseRun(p.fleet, w, if Judge(s, m.fleet, w).busy then {s.millId} else {}, None);
    Trail(Mill(p.deferral, phase.state), phase.log)
  }

  /** Whether a mill update that appeared after the last pass starts a deferral now. */
  predicate Arms(s: Settings, m: Mill, w: World) {
    && m.deferral.since.None?
    && s.millId != "" && s.enabled
    && s.millId in m.fleet
    && var r := m.fleet[s.millId];
    && r.updateAvailable
    && (s.millId in w.configs ==> w.configs[s.millId].autoUpdate)
    && m.deferral.attempted != Some(r.latest)
    && !KnownBad(r)
    && s.millId !in w.held
  }

  function Armed(s: Settings, m: Mill, w: World): Deferral {
    if Arms(s, m, w) then m.deferral.(since := Some(w.now)) else m.deferral
  }

  /** The recheck found the mill no longer busy. */
  function Release(s: Settings, m: Mill, w: World): Trail<Mill, Entry> {
    var idle := m.deferral.(since := None);
    if s.millId !in m.fleet || !m.fleet[s.millId].updateAvailable then Trail(Mill(idle, m.fleet), [])
    else
      var phase := PhaseRun(m.fleet, w, {}, Some({s.millId}));
      Trail(Mill(idle.(attempted := Some(m.fleet[s.millId].latest)), phase.state), phase.log)
  }

  function Recheck(s: Settings, m: Mill, w: World): Trail<Mill, Entry> {
    var d := Armed(s, m, w);
    if d.since.None? then Trail(m, []) else RecheckOpen(s, m.(deferral := d), w)
  }

  /** The recheck of an open deferral. */
  function RecheckOpen(s: Settings, m: Mill, w: World): Trail<Mill, Entry> {
    if s.millId == "" || !s.enabled then Trail(m.(deferral := m.deferral.(since := None)), [])
    else
      var j := Judge(s, m.fleet, w);
      if j.busy then Trail(m.(fleet := j.fleet), []) else Release(s, m.(fleet := j.fleet), w)
  }

  // ---- The timed loop ----------------------------------------------------------------------------

  /** What others do to a record between two polls: a registry tick, or a write that spares the known-bad marker. */
  datatype Change = TickOf(name: string, o: Sighting) | WriteOf(name: string, r: Rec)

  function ChangeEvent(c: Change): Event {
    match c
    case TickOf(n, o) => Tick(n, o)
    case WriteOf(n, r) => Foreign(n, r)
  }

  function ChangedRec(r: Rec, c: Change): Rec {
    match c
    case TickOf(_, o) => Ticked(r, o)
    case WriteOf(_, w) => Written(r, w)
  }

  function ChangeFleet(fleet: Fleet, changes: seq<Change>): (f: Fleet)
    ensures f.Keys == fleet.Keys
    decreases |changes|
  {
    if changes == [] then fleet
    else ChangeFleet(Step(fleet, ChangeEvent(changes[0])).state, changes[1..])
  }

  /** What each instant would bring: the changes since the poll before it, and the world of a poll at it. */
  datatype Future = Future(changes: int -> seq<Change>, world: int -> World)

  function WorldAt(f: Future, t: int): World {
    f.world(t).(now := t)
  }

  /** The loop's state between polls: the time of the last poll and the deadline of the next full pass. */
  datatype Clocked = Clocked(mill: Mill, now: int, deadline: int)

  function Slice(s: Settings): int {
    Max(s.recheckMinutes, 1) * 60
  }

  function Interval(s: Settings): int {
    Max(s.intervalHours, 1) * 3600
  }

  function Wake(s: Settings, c: Clocked): int {
    c.now + Min(c.deadline - c.now, Slice(s))
  }

  /** The mill as the poll at time `t` finds it. */
  function Met(c: Clocked, f: Future, t: int): Mill {
    c.mill.(fleet := ChangeFleet(c.mill.fleet, f.changes(t)))
  }

  /** One poll of the running loop: sleep one slice, then recheck, or run the full pass at the deadline. */
  function NextPoll(s: Settings, c: Clocked, f: Future): Clocked {
    var t := Wake(s, c);
    if t >= c.deadline then Clocked(FullPass(s, Met(c, f, t), WorldAt(f, t)).state, t, t + Interval(s))
    else Clocked(Recheck(s, Met(c, f, t), WorldAt(f, t)).state, t, c.deadline)
  }

  function Poller(s: Settings, f: Future): Clocked -> Clocked {
    (c: Clocked) => NextPoll(s, c, f)
  }

  function Polls(s: Settings, c: Clocked, f: Future, n: nat): Clocked {
    Iterate(Poller(s, f), c, n)
  }

  /** The wait for the next full pass: the rechecks up to the deadline, then the wake-up at it. */
  function Waited(s: Settings, c: Clocked, f: Future): Clocked
    decreases c.deadline - c.now
  {
    if c.now >= c.deadline then c
    else if s.millId == "" || !s.enabled then c.(now := c.deadline)
    else if Wake(s, c) >= c.deadline then c.(now := c.deadline)
    else Waited(s, NextPoll(s, c, f), f)
  }
}
