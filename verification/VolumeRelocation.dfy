/**
 * Relocation of a bind-mount volume to another disk: nine steps, each of which may fail.
 * Files are a map from absolute path to contents; a directory is what lies under its path.
 */
module VolumeRelocation {

  type Files = map<string, string>

  /** A Docker volume: `device` and `kind` are its `device` and `type` options. */
  datatype Volume = Volume(device: string, kind: string, mountpoint: string, labels: map<string, string>)

  datatype Host = Host(files: Files, volumes: map<string, Volume>)

  // ---- Directories -------------------------------------------------------------------------------

  predicate Under(dir: string, path: string) {
    dir + "/" <= path
  }

  predicate SameEntry(a: Files, p: string, b: Files, q: string) {
    (p in a <==> q in b) && (p in a && q in b ==> a[p] == b[q])
  }

  /** Directory `da` of `a` holds the same tree as directory `db` of `b`. */
  ghost predicate SameTree(a: Files, da: string, b: Files, db: string) {
    forall r: string :: SameEntry(a, da + "/" + r, b, db + "/" + r)
  }

  /** The directory left with what `after` has in it; every other file as it was. */
  function Replaced(files: Files, dir: string, after: Files): Files {
    (map p | p in files && !Under(dir, p) :: files[p]) + (map p | p in after && Under(dir, p) :: after[p])
  }

  /** The directory removed, except for the paths that a partial removal leaves behind. */
  function Removed(files: Files, dir: string, left: set<string>): Files {
    map p | p in files && (Under(dir, p) ==> p in left) :: files[p]
  }

  /** Neither directory is, or lies inside, the other. */
  predicate Disjoint(a: string, b: string) {
    !(a + "/" <= b + "/") && !(b + "/" <= a + "/")
  }

  // ---- What the environment may do ---------------------------------------------------------------

  datatype ProbeAnswer = ProbeRan | ProbeApiError | ProbeEscapes

  datatype CreateAnswer = CreateWorks | CreateApiError | DaemonUnreachable | CreateEscapes

  /** A call that works, or raises with or without having taken effect. */
  datatype Call = Works | Raises(tookEffect: bool)

  /**
   * One choice of faults.  `shared` says which paths mean the same directory inside the server
   * container and on the Docker host.  The copy may leave anything at all in the target,
   * whatever its exit code.
   */
  datatype Faults = Faults(
    shared: string -> bool,
    sentinel: string,
    inspectFails: bool,
    mkdirFails: bool,
    probeWriteFails: bool,
    probe: ProbeAnswer,
    markerRemoved: bool,
    copied: Files,
    copyExitsZero: bool,
    diffExitsZero: bool,
    cleanupLeaves: set<string>,
    create: CreateAnswer,
    snapshotFails: bool,
    remove: Call,
    recreate: Call,
    restore: Call,
    chownFails: bool,
    purgeLeaves: set<string>)

  /** A `failed` result, an `ok` result, or an exception that escapes to the caller. */
  datatype Outcome = Moved | Refused | Escaped

  datatype Result = Result(host: Host, outcome: Outcome)

  // ---- The procedure -----------------------------------------------------------------------------

  /** The host directory that backs a volume. */
  function Backing(v: Volume): string {
    if v.device != "" then v.device else v.mountpoint
  }

  function TargetPath(disk: string, name: string): string {
    disk + "/robotsix-volumes/" + name
  }

  function NewVolume(prior: Volume, target: string): Volume {
    Volume(target, "none", "", prior.labels)
  }

  const PROBE_TEXT := "robotsix-probe"

  function MarkerPath(target: string, f: Faults): string {
    target + "/" + f.sentinel
  }

  /** Steps 1 to 4: inspect, guard, create the target and probe that the daemon sees the same directory. */
  function Relocate(h: Host, name: string, disk: string, f: Faults): Result {
    if f.inspectFails || name !in h.volumes then Result(h, Refused)
    else if Backing(h.volumes[name]) == "" then Result(h, Refused)
    else if h.volumes[name].kind != "none" then Result(h, Refused)
    else if f.mkdirFails || f.probeWriteFails then Result(h, Refused)
    else
      var target := TargetPath(disk, name);
      var marked := Marked(h, target, f);
      var probed := Unmarked(marked, target, f);
      match f.probe
      case ProbeApiError => Result(probed, Refused)
      case ProbeEscapes => Result(probed, Escaped)
      case ProbeRan =>
        if !Reachable(marked, target, f) then Result(probed, Refused)
        else CopyAndVerify(probed, name, target, f)
  }

  /** The sentinel reaches the host only when the target means the same directory there. */
  function Marked(h: Host, target: string, f: Faults): Host {
    if f.shared(target) then h.(files := h.files[MarkerPath(target, f) := PROBE_TEXT]) else h
  }

  function Unmarked(h: Host, target: string, f: Faults): Host {
    if f.shared(target) && f.markerRemoved then h.(files := h.files - {MarkerPath(target, f)}) else h
  }

  predicate Reachable(h: Host, target: string, f: Faults) {
    MarkerPath(target, f) in h.files && h.files[MarkerPath(target, f)] == PROBE_TEXT
  }

  function CleanedUp(h: Host, target: string, f: Faults): Host {
    h.(files := Removed(h.files, target, f.cleanupLeaves))
  }

  function Copied(h: Host, target: string, f: Faults): Host {
    h.(files := Replaced(h.files, target, f.copied))
  }

  /** Steps 5 and 6: copy, then compare source and target. */
  function CopyAndVerify(h: Host, name: string, target: string, f: Faults): Result
    requires name in h.volumes
  {
    var c := Copied(h, target, f);
    if !f.copyExitsZero || !f.diffExitsZero then Result(CleanedUp(c, target, f), Refused)
    else Rebind(c, name, target, f)
  }

  /** `diff -rq` exits zero only when it has compared the two directories and found them equal. */
  ghost predicate HonestDiff(h: Host, name: string, target: string, f: Faults)
    requires name in h.volumes
  {
    var c, source := Copied(Unmarked(Marked(h, target, f), target, f), target, f), Backing(h.volumes[name]);
    f.diffExitsZero ==> SameTree(c.files, source, c.files, target)
  }

  /** Docker's `volumes.create`: 409 when the name exists; `None` when it raises without effect. */
  function Create(h: Host, name: string, v: Volume, call: Call): (Host, bool) {
    if name in h.volumes then (h, false)
    else match call
      case Works => (h.(volumes := h.volumes[name := v]), true)
      case Raises(tookEffect) => (if tookEffect then h.(volumes := h.volumes[name := v]) else h, false)
  }

  /** Step 7: rebind the name, through the 409 that its existence provokes. */
  function Rebind(h: Host, name: string, target: string, f: Faults): Result
    requires name in h.volumes
  {
    match f.create
    case CreateApiError => Result(h, Refused)
    case DaemonUnreachable => Result(h, Refused)
    case CreateEscapes => Result(h, Escaped)
    case CreateWorks =>
      if f.snapshotFails then Result(h, Escaped) else
      var prior := h.volumes[name];
      var gone := if f.remove == Raises(false) then h else h.(volumes := h.volumes - {name});
      if f.remove.Raises? then Result(Create(gone, name, prior, f.restore).0, Refused)
      else
        var created := Create(gone, name, NewVolume(prior, target), f.recreate);
        if created.1 then Finish(created.0, name, Backing(prior), f)
        else Result(Create(created.0, name, prior, f.restore).0, Refused)
  }

  /** Steps 8 and 9: fix ownership, then delete the old source. */
  function Finish(h: Host, name: string, source: string, f: Faults): Result {
    if f.chownFails then Result(h, Escaped)
    else Result(if f.shared(source) then h.(files := Removed(h.files, source, f.purgeLeaves)) else h, Moved)
  }
}
