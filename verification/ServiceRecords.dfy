/** Service records and the registry tick that refreshes them. */
module ServiceRecords {
  import opened Wrappers

  datatype ServiceState = Stopped | Starting | Running | Stopping | Restarting | Failed | Unknown

  /** The value of a service record: the fields that some modelled decision reads or writes. */
  datatype Rec = Rec(
    name: string,
    componentId: string,
    containerName: string,
    image: string,
    state: ServiceState,
    deployed: string,
    previous: string,
    latest: string,
    failed: string,
    updateAvailable: bool,
    pendingSince: Option<int>,
    authError: bool)

  class ServiceRecord {
    const name: string
    var componentId: string
    var containerName: string
    var image: string
    var state: ServiceState
    var deployedImageDigest: string
    var previousImageDigest: string
    var latestRegistryDigest: string
    var failedUpdateDigest: string
    var updateAvailable: bool
    var updatePendingSince: Option<int>
    var registryAuthError: bool

    constructor (name: string, componentId: string, containerName: string, image: string)
      ensures Snap() == Rec(name, componentId, containerName, image, Unknown, "", "", "", "", false, None, false)
    {
      this.name, this.componentId, this.containerName, this.image := name, componentId, containerName, image;
      state := Unknown;
      deployedImageDigest, previousImageDigest, latestRegistryDigest, failedUpdateDigest := "", "", "", "";
      updateAvailable, updatePendingSince, registryAuthError := false, None, false;
    }

    function Snap(): (r: Rec)
      reads this
      ensures r.name == name
    {
      Rec(name, componentId, containerName, image, state, deployedImageDigest, previousImageDigest,
          latestRegistryDigest, failedUpdateDigest, updateAvailable, updatePendingSince, registryAuthError)
    }
  }

  // ---- The registry tick -----------------------------------------------------------------------

  /** The outcome of one registry lookup; `NoAnswer` is a lookup without a digest or an auth error. */
  datatype Lookup = Digest(digest: string) | AuthError | NoAnswer | LookupRaised

  /** What one tick observes of a record: the running digest, if the status call gave one, and the lookup. */
  datatype Sighting = Sighting(running: Option<string>, lookup: Lookup)

  function AdoptRunning(r: Rec, o: Sighting): Rec {
    if r.image != "" && r.deployed == "" && o.running.Some? then r.(deployed := o.running.value) else r
  }

  function Ticked(r: Rec, o: Sighting): Rec {
    var r := AdoptRunning(r, o);
    if r.image == "" || r.deployed == "" then r else
    match o.lookup
    case Digest(d) => r.(updateAvailable := d != r.deployed, latest := d, authError := false)
    case AuthError => r.(authError := true)
    case NoAnswer => r.(authError := false)
    case LookupRaised => r
  }

  function TickedAll(r: Rec, os: seq<Sighting>): Rec
    decreases |os|
  {
    if os == [] then r else TickedAll(Ticked(r, os[0]), os[1..])
  }

  method CheckAndUpdateRecord(record: ServiceRecord, o: Sighting)
    modifies record
    ensures record.Snap() == Ticked(old(record.Snap()), o)
  {
    if record.image != "" && record.deployedImageDigest == "" {
      if o.running.Some? && o.running.value != "" {
        record.deployedImageDigest := o.running.value;
      }
    }
    if record.image == "" || record.deployedImageDigest == "" {
      return;
    }
    match o.lookup {
      case Digest(latest) =>
        var available := latest != record.deployedImageDigest;
        if record.updateAvailable != available || record.latestRegistryDigest != latest || record.registryAuthError {
          record.updateAvailable := available;
          record.latestRegistryDigest := latest;
          record.registryAuthError := false;
        }
      case AuthError =>
        if !record.registryAuthError { record.registryAuthError := true; }
      case NoAnswer =>
        if record.registryAuthError { record.registryAuthError := false; }
      case LookupRaised =>
    }
  }

  // ---- Other writers ---------------------------------------------------------------------------

  /** Any other writer may set every field but the record's name and its known-bad marker. */
  function Written(r: Rec, w: Rec): Rec {
    w.(name := r.name, failed := r.failed)
  }

  method WriteRecord(record: ServiceRecord, w: Rec)
    modifies record
    ensures record.Snap() == Written(old(record.Snap()), w)
  {
    record.componentId, record.containerName := w.componentId, w.containerName;
    record.image, record.state := w.image, w.state;
    record.deployedImageDigest, record.previousImageDigest := w.deployed, w.previous;
    record.latestRegistryDigest, record.registryAuthError := w.latest, w.authError;
    record.updateAvailable, record.updatePendingSince := w.updateAvailable, w.pendingSince;
  }

  /** No run of ticks touches the known-bad marker, the previous digest or the busy clock. */
  lemma {:induction false} TicksKeep(r: Rec, os: seq<Sighting>)
    ensures var t := TickedAll(r, os);
      && t.name == r.name && t.componentId == r.componentId && t.containerName == r.containerName
      && t.image == r.image && t.failed == r.failed && t.previous == r.previous
      && t.pendingSince == r.pendingSince
      && (r.deployed != "" ==> t.deployed == r.deployed)
    decreases |os|
  {
    if os != [] {
      TicksKeep(Ticked(r, os[0]), os[1..]);
    }
  }
}
