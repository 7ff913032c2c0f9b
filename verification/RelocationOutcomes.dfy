/** How a relocation ends: when it refuses without a trace, when it succeeds, and what it leaves bound. */
module RelocationOutcomes {
  import opened VolumeRelocation
  import opened RelocationSafety

  /** The directory a volume is relocated to. */
  function NewHome(disk: string, name: string): string {
    disk + "/robotsix-volumes/" + name
  }

  /** The directory behind a volume: its device, or else its mount point. */
  function OldHome(v: Volume): string {
    if v.device == "" then v.mountpoint else v.device
  }

  // ---- Refusals that leave no trace --------------------------------------------------------------

  /** Only a bind volume with a known directory that the inspection finds is touched at all. */
  lemma OnlyBindVolumes(h: Host, name: string, disk: string, f: Faults)
    requires name in h.volumes ==> h.volumes[name].kind != "none" || OldHome(h.volumes[name]) == "" || f.inspectFails
    ensures Relocate(h, name, disk, f) == Result(h, Refused)
  {
  }

  /**
   * When the new directory is not the same one on the Docker host, or cannot be made or written, the
   * run ends before anything is copied or removed; at most the probe's marker stays behind.
   */
  lemma UnreachableTarget(h: Host, name: string, disk: string, f: Faults)
    requires f.mkdirFails || f.probeWriteFails || !f.probe.ProbeRan? || !f.shared(NewHome(disk, name))
    requires NewHome(disk, name) + "/" + f.sentinel !in h.files
    ensures var r, marker := Relocate(h, name, disk, f), NewHome(disk, name) + "/" + f.sentinel;
      && !r.outcome.Moved? && r.host.volumes == h.volumes
      && r.host.files ==
           if Relocatable(h, name, f) && !f.mkdirFails && !f.probeWriteFails
              && f.shared(NewHome(disk, name)) && !f.markerRemoved
           then h.files[marker := "robotsix-probe"] else h.files
  {
    var marker := NewHome(disk, name) + "/" + f.sentinel;
    assert h.files[marker := "robotsix-probe"] - {marker} == h.files;
  }

  // ---- The outcome and the volume, exactly -------------------------------------------------------

  /** The inspection finds a bind volume with a known directory. */
  predicate Relocatable(h: Host, name: string, f: Faults) {
    !f.inspectFails && name in h.volumes && h.volumes[name].kind == "none" && OldHome(h.volumes[name]) != ""
  }

  /** The copy and the comparison are reached and pass, and the name can be taken over. */
  predicate ReachesRebind(h: Host, name: string, disk: string, f: Faults) {
    && Relocatable(h, name, f) && !f.mkdirFails && !f.probeWriteFails && f.probe.ProbeRan?
    && f.shared(NewHome(disk, name)) && f.copyExitsZero && f.diffExitsZero && f.create.CreateWorks? && !f.snapshotFails
  }

  /**
   * The outcome of every run, step by step: the first step that fails decides it, and only a probe, a
   * creation, a look at the old volume or a change of ownership that fails unexpectedly escapes.
   */
  lemma {:induction false} OutcomeMeans(h: Host, name: string, disk: string, f: Faults)
    requires NewHome(disk, name) + "/" + f.sentinel !in h.files
    ensures Relocate(h, name, disk, f).outcome ==
      if !Relocatable(h, name, f) || f.mkdirFails || f.probeWriteFails then Refused
      else if f.probe.ProbeEscapes? then Escaped
      else if f.probe.ProbeApiError? || !f.shared(NewHome(disk, name)) then Refused
      else if !f.copyExitsZero || !f.diffExitsZero then Refused
      else if f.create.CreateEscapes? then Escaped
      else if !f.create.CreateWorks? then Refused
      else if f.snapshotFails then Escaped
      else if !f.remove.Works? || !f.recreate.Works? then Refused
      else if f.chownFails then Escaped
      else Moved
  {
  }

  /**
   * What the name is bound to when the run is over: the new directory once the creation took effect,
   * else the old one unless both the removal took effect and the restoration did not.
   */
  lemma {:induction false} BoundAfter(h: Host, name: string, disk: string, f: Faults)
    requires name in h.volumes && NewHome(disk, name) + "/" + f.sentinel !in h.files
    ensures var r, prior := Relocate(h, name, disk, f), h.volumes[name];
      if !ReachesRebind(h, name, disk, f) then r.host.volumes == h.volumes
      else if f.remove.Works? && f.recreate != Raises(false) then
        name in r.host.volumes && BoundAnew(r.host.volumes[name], prior, NewHome(disk, name))
      else if f.remove != Raises(false) && f.restore == Raises(false) then name !in r.host.volumes
      else name in r.host.volumes && r.host.volumes[name] == prior
  {
    var target := TargetPath(disk, name);
    var c := Copied(Unmarked(Marked(h, target, f), target, f), target, f);
    BoundAfterRebind(c, name, target, f);
    if ReachesRebind(h, name, disk, f) {
      RebindIsReached(h, name, disk, f);
    } else {
      RebindIsNotReached(h, name, disk, f);
    }
  }

  lemma RebindIsReached(h: Host, name: string, disk: string, f: Faults)
    requires name in h.volumes && ReachesRebind(h, name, disk, f)
    ensures var target := TargetPath(disk, name);
      var probed := Unmarked(Marked(h, target, f), target, f);
      Relocate(h, name, disk, f) == Rebind(Copied(probed, target, f), name, target, f)
  {
  }

  lemma RebindIsNotReached(h: Host, name: string, disk: string, f: Faults)
    requires name in h.volumes && !ReachesRebind(h, name, disk, f)
    requires NewHome(disk, name) + "/" + f.sentinel !in h.files
    ensures Relocate(h, name, disk, f).host.volumes == h.volumes
  {
  }

  lemma BoundAfterRebind(h: Host, name: string, target: string, f: Faults)
    requires name in h.volumes
    ensures var r, prior := Rebind(h, name, target, f), h.volumes[name];
      f.create.CreateWorks? && !f.snapshotFails ==>
        if f.remove.Works? && f.recreate != Raises(false) then
          name in r.host.volumes && BoundAnew(r.host.volumes[name], prior, target)
        else if f.remove != Raises(false) && f.restore == Raises(false) then name !in r.host.volumes
        else name in r.host.volumes && r.host.volumes[name] == prior
  {
  }

  // ---- Success -----------------------------------------------------------------------------------

  /** After a success the name is bound to the new directory, as a bind volume, with the labels it had. */
  lemma {:induction false} MovedVolume(h: Host, name: string, disk: string, f: Faults)
    requires Relocate(h, name, disk, f).outcome.Moved?
    ensures var r := Relocate(h, name, disk, f);
      && name in h.volumes && name in r.host.volumes
      && r.host.volumes[name].device == NewHome(disk, name)
      && r.host.volumes[name].kind == "none"
      && r.host.volumes[name].labels == h.volumes[name].labels
  {
  }

  /** No step fails; the copy and the comparison exit zero. */
  predicate NoFault(f: Faults, target: string) {
    && !f.inspectFails && !f.mkdirFails && !f.probeWriteFails && f.probe.ProbeRan? && f.shared(target)
    && f.copyExitsZero && f.diffExitsZero
    && f.create.CreateWorks? && !f.snapshotFails && f.remove.Works? && f.recreate.Works? && !f.chownFails
  }

  /** A run in which no fault strikes moves every bind volume with a known directory, and no other volume. */
  lemma {:induction false} FaultlessRunMovesIff(h: Host, name: string, disk: string, f: Faults)
    requires NoFault(f, NewHome(disk, name))
    ensures Relocate(h, name, disk, f).outcome.Moved? <==>
      name in h.volumes && h.volumes[name].kind == "none" && OldHome(h.volumes[name]) != ""
  {
  }

  /** What was moved once can be moved again. */
  lemma {:induction false} MovedCanMoveAgain(h: Host, name: string, disk: string, f: Faults, disk': string, f': Faults)
    requires Relocate(h, name, disk, f).outcome.Moved? && NoFault(f', NewHome(disk', name))
    ensures Relocate(Relocate(h, name, disk, f).host, name, disk', f').outcome.Moved?
  {
    MovedVolume(h, name, disk, f);
    FaultlessRunMovesIff(Relocate(h, name, disk, f).host, name, disk', f');
  }

  /** A success frees the old directory, up to what the removal left, if the server sees it at all. */
  lemma {:induction false} MovedFreesSource(h: Host, name: string, disk: string, f: Faults)
    requires Relocate(h, name, disk, f).outcome.Moved? && name in h.volumes
    ensures var source, files := OldHome(h.volumes[name]), Relocate(h, name, disk, f).host.files;
      && (f.shared(source) ==> forall p :: Under(source, p) && p !in f.purgeLeaves ==> p !in files)
      && (!f.shared(source) && Disjoint(source, NewHome(disk, name)) ==>
            forall p :: Under(source, p) ==> (p in files <==> p in h.files) && (p in files ==> files[p] == h.files[p]))
  {
    var source, target := OldHome(h.volumes[name]), NewHome(disk, name);
    if !f.shared(source) && Disjoint(source, target) {
      forall p | Under(source, p) ensures !Under(target, p) { DisjointPaths(source, target, p); }
      assert Under(target, MarkerPath(target, f));
    }
  }

  /** A failed copy or comparison that could clean up leaves nothing in the new directory. */
  lemma {:induction false} FailureEmptiesTarget(h: Host, name: string, disk: string, f: Faults)
    requires name in h.volumes && h.volumes[name].kind == "none" && OldHome(h.volumes[name]) != ""
    requires !f.inspectFails && !f.mkdirFails && !f.probeWriteFails
    requires f.probe.ProbeRan? && f.shared(NewHome(disk, name))
    requires !(f.copyExitsZero && f.diffExitsZero) && f.cleanupLeaves == {}
    ensures var r := Relocate(h, name, disk, f);
      && r.outcome.Refused? && r.host.volumes == h.volumes
      && forall p :: Under(NewHome(disk, name), p) ==> p !in r.host.files
  {
  }
}
