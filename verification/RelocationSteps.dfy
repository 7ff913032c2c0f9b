/** The relocation as a sequence of side effects on the Docker host, with its rollback branches. */
module RelocationSteps {
  import opened VolumeRelocation

  class DockerHost {
    var files: Files
    var volumes: map<string, Volume>

    function State(): Host
      reads this
    {
      Host(files, volumes)
    }

    method WriteMarker(target: string, f: Faults)
      modifies this`files
      ensures State() == Marked(old(State()), target, f)
    {
      if f.shared(target) {
        files := files[MarkerPath(target, f) := PROBE_TEXT];
      }
    }

    method RemoveMarker(target: string, f: Faults)
      modifies this`files
      ensures State() == Unmarked(old(State()), target, f)
    {
      if f.shared(target) && f.markerRemoved {
        files := files - {MarkerPath(target, f)};
      }
    }

    method CreateVolume(name: string, v: Volume, call: Call) returns (created: bool)
      modifies this`volumes
      ensures (State(), created) == Create(old(State()), name, v, call)
    {
      if name in volumes { return false; }
      if call != Raises(false) {
        volumes := volumes[name := v];
      }
      return call.Works?;
    }

    method RemoveVolume(name: string, call: Call) returns (removed: bool)
      modifies this`volumes
      ensures volumes == if call == Raises(false) then old(volumes) else old(volumes) - {name}
      ensures removed <==> call.Works?
    {
      if call != Raises(false) {
        volumes := volumes - {name};
      }
      return call.Works?;
    }

    method RelocateVolume(name: string, disk: string, f: Faults) returns (outcome: Outcome)
      modifies this
      ensures Result(State(), outcome) == Relocate(old(State()), name, disk, f)
    {
      if f.inspectFails || name !in volumes { return Refused; }
      var source := Backing(volumes[name]);
      if source == "" { return Refused; }
      if volumes[name].kind != "none" { return Refused; }
      var target := TargetPath(disk, name);
      if f.mkdirFails { return Refused; }
      if f.probeWriteFails { return Refused; }
      WriteMarker(target, f);
      var reachable := MarkerPath(target, f) in files && files[MarkerPath(target, f)] == PROBE_TEXT;
      RemoveMarker(target, f);
      match f.probe {
        case ProbeApiError => return Refused;
        case ProbeEscapes => return Escaped;
        case ProbeRan =>
          if !reachable { return Refused; }
      }
      outcome := CopyVerifyRebind(name, target, f);
    }

    method CopyVerifyRebind(name: string, target: string, f: Faults) returns (outcome: Outcome)
      requires name in volumes
      modifies this
      ensures Result(State(), outcome) == CopyAndVerify(old(State()), name, target, f)
    {
      files := Replaced(files, target, f.copied);
      if !f.copyExitsZero {
        files := Removed(files, target, f.cleanupLeaves);
        return Refused;
      }
      if !f.diffExitsZero {
        files := Removed(files, target, f.cleanupLeaves);
        return Refused;
      }
      outcome := RebindVolume(name, target, f);
    }

    method RebindVolume(name: string, target: string, f: Faults) returns (outcome: Outcome)
      requires name in volumes
      modifies this
      ensures Result(State(), outcome) == Rebind(old(State()), name, target, f)
    {
      var prior := volumes[name];
      match f.create {
        case CreateApiError => return Refused;
        case DaemonUnreachable => return Refused;
        case CreateEscapes => return Escaped;
        case CreateWorks =>
          // The name still exists, so the daemon answers 409 and the old volume has to go first.
      }
      if f.snapshotFails { return Escaped; }
      var done := RemoveVolume(name, f.remove);
      if done {
        done := CreateVolume(name, NewVolume(prior, target), f.recreate);
      }
      if !done {
        var _ := CreateVolume(name, prior, f.restore);
        return Refused;
      }
      if f.chownFails { return Escaped; }
      if f.shared(Backing(prior)) {
        files := Removed(files, Backing(prior), f.purgeLeaves);
      }
      return Moved;
    }
  }
}
