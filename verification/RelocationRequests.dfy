/** The relocation request and its guard, which goes by the target disk stored for the component. */
module RelocationRequests {
  import VolumeRelocation
  import RelocationOverlap
  import ContractRefresh
  import ContractGuarantees

  /** The guard against copying a volume into itself; `realpath` resolves links. */
  predicate SkipsRelocation(c: ContractRefresh.Component, requested: string, realpath: string -> string) {
    c.operator.targetDisk != "" && realpath(requested) == realpath(c.operator.targetDisk)
  }

  /** A request: nothing happens when the guard stops it, else the relocation. */
  function Requested(c: ContractRefresh.Component, h: VolumeRelocation.Host, volume: string, disk: string,
                     realpath: string -> string, f: VolumeRelocation.Faults): VolumeRelocation.Result {
    if SkipsRelocation(c, disk, realpath) then VolumeRelocation.Result(h, VolumeRelocation.Refused)
    else VolumeRelocation.Relocate(h, volume, disk, f)
  }

  /**
   * Every honest run of a request for a bind volume loses nothing exactly when the guard stops it or
   * no file of the volume lies under the target.
   */
  lemma RequestLosesNothingIff(c: ContractRefresh.Component, h: VolumeRelocation.Host, volume: string, disk: string,
                               realpath: string -> string)
    requires volume in h.volumes && h.volumes[volume].kind == "none"
    requires VolumeRelocation.Backing(h.volumes[volume]) != ""
    ensures var prior, target := h.volumes[volume], VolumeRelocation.TargetPath(disk, volume);
      (forall f :: VolumeRelocation.HonestDiff(h, volume, target, f) ==>
        RelocationOverlap.NothingLost(Requested(c, h, volume, disk, realpath, f), volume, prior, target, h.files))
      <==> || SkipsRelocation(c, disk, realpath)
           || !RelocationOverlap.SharesFile(h.files, VolumeRelocation.Backing(prior), target)
  {
    var prior, target := h.volumes[volume], VolumeRelocation.TargetPath(disk, volume);
    if !SkipsRelocation(c, disk, realpath) {
      RelocationOverlap.NothingLostIff(h, volume, disk);
      assert forall f :: Requested(c, h, volume, disk, realpath, f) == VolumeRelocation.Relocate(h, volume, disk, f);
    }
  }

  /**
   * After any accepted refresh the guard stops no request, not even to the disk the volume is on;
   * there, one failed copy deletes every file of the volume.
   */
  lemma RefreshDisarmsGuard(plane: ContractRefresh.Plane, name: string, own: int, spec: ContractRefresh.Spec,
                            allow: bool,
                            h: VolumeRelocation.Host, volume: string, disk: string, realpath: string -> string)
    requires volume in h.volumes && h.volumes[volume].kind == "none"
    requires h.volumes[volume].device == VolumeRelocation.TargetPath(disk, volume)
    ensures var r := ContractRefresh.Refreshing(plane, name, own, ContractRefresh.Parsed(spec), allow);
      r.reply.Refreshed? ==> name in r.plane.components && !SkipsRelocation(r.plane.components[name], disk, realpath)
    ensures var target, f := VolumeRelocation.TargetPath(disk, volume), RelocationOverlap.FailedCopy(h, "");
      var r := VolumeRelocation.Relocate(h, volume, disk, f);
      && VolumeRelocation.HonestDiff(h, volume, target, f) && r.outcome.Refused?
      && forall p :: p in h.files && VolumeRelocation.Under(target, p) ==> p !in r.host.files
  {
    if ContractRefresh.Refreshing(plane, name, own, ContractRefresh.Parsed(spec), allow).reply.Refreshed? {
      ContractGuarantees.RefreshResetsOperatorFields(plane, name, own, spec, allow);
    }
    RelocationOverlap.FailedCopyDeletes(h, volume, disk, "");
  }
}
