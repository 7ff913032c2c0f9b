/** Relocation when the source and the target directory overlap: what is lost, on which branch, and exactly when. */
module RelocationOverlap {
  import opened VolumeRelocation
  import opened RelocationSafety

  // ---- Refused runs ------------------------------------------------------------------------------

  /** The guards and the probe let the run come to its copy. */
  predicate ReachesCopy(h: Host, name: string, disk: string, f: Faults)
    requires name in h.volumes
  {
    && !f.inspectFails && Backing(h.volumes[name]) != "" && h.volumes[name].kind == "none"
    && !f.mkdirFails && !f.probeWriteFails && f.probe.ProbeRan?
    && Reachable(Marked(h, TargetPath(disk, name), f), TargetPath(disk, name), f)
  }

  /** Every file that directory `dir` held in `before` is still there. */
  predicate FilesSurvive(before: Files, after: Files, dir: string) {
    forall p | p in before && Under(dir, p) :: p in after && after[p] == before[p]
  }

  /** A file of the one directory lies under the other. */
  predicate SharesFile(files: Files, a: string, b: string) {
    exists p :: p in files && Under(a, p) && Under(b, p)
  }

  /**
   * A failed copy or comparison whose clean-up goes through keeps the files of the source exactly
   * when none of them lies under the target.
   */
  lemma RefusedKeepsFilesIff(h: Host, name: string, disk: string, f: Faults)
    requires name in h.volumes && ReachesCopy(h, name, disk, f)
    requires !(f.copyExitsZero && f.diffExitsZero) && f.cleanupLeaves == {}
    ensures var source, r := Backing(h.volumes[name]), Relocate(h, name, disk, f);
      && r.outcome.Refused? && r.host.volumes == h.volumes
      && (FilesSurvive(h.files, r.host.files, source) <==> !SharesFile(h.files, source, TargetPath(disk, name)))
  {
    var source, target := Backing(h.volumes[name]), TargetPath(disk, name);
    var after := Relocate(h, name, disk, f).host.files;
    assert Under(target, MarkerPath(target, f));
    forall p | p in h.files ensures p in after && after[p] == h.files[p] <==> !Under(target, p) {}
  }

  /** A run in which everything works but the copy, which fails without having changed a file. */
  function FailedCopy(h: Host, sentinel: string): Faults {
    Faults(p => true, sentinel, false, false, false, ProbeRan, true, h.files, false, false, {},
           CreateWorks, false, Works, Works, Works, false, {})
  }

  /** A failed copy deletes every file under the target, and leaves the name bound to what is left of the source. */
  lemma FailedCopyDeletes(h: Host, name: string, disk: string, sentinel: string)
    requires name in h.volumes && Backing(h.volumes[name]) != "" && h.volumes[name].kind == "none"
    ensures var target, f := TargetPath(disk, name), FailedCopy(h, sentinel);
      var r := Relocate(h, name, disk, f);
      && HonestDiff(h, name, target, f) && r.outcome.Refused? && r.host.volumes == h.volumes
      && forall p :: p in h.files ==> (p in r.host.files <==> !Under(target, p))
  {
    var target, f := TargetPath(disk, name), FailedCopy(h, sentinel);
    assert Under(target, MarkerPath(target, f));
    assert ReachesCopy(h, name, disk, f);
  }

  /** A volume that already lives where it is to be moved to: one failed copy, and its only file is gone. */
  lemma RelocatingInPlaceLosesData()
    ensures var target := TargetPath("/disk", "v");
      var h := Host(map[target + "/data" := "x"], map["v" := Volume(target, "none", "", map[])]);
      var f := FailedCopy(h, ".probe");
      var r := Relocate(h, "v", "/disk", f);
      HonestDiff(h, "v", target, f) && r.outcome.Refused? && r.host == h.(files := map[])
  {
    var target := TargetPath("/disk", "v");
    var h := Host(map[target + "/data" := "x"], map["v" := Volume(target, "none", "", map[])]);
    FailedCopyDeletes(h, "v", "/disk", ".probe");
    var after := Relocate(h, "v", "/disk", FailedCopy(h, ".probe")).host.files;
    assert target + "/data" in h.files;
    forall p ensures p !in after {
      assert Under(target, MarkerPath(target, FailedCopy(h, ".probe")));
    }
  }

  // ---- Successful runs ---------------------------------------------------------------------------

  /**
   * With one directory strictly inside the other, an honest comparison succeeds only if the copy
   * itself emptied the source: no data is ever reported moved.
   */
  lemma NestedMovesNothing(h: Host, name: string, disk: string, f: Faults, r: string)
    requires name in h.volumes && HonestDiff(h, name, TargetPath(disk, name), f)
    requires Relocate(h, name, disk, f).outcome.Moved?
    requires var source, target := Backing(h.volumes[name]), TargetPath(disk, name);
      source != target && !Disjoint(source, target)
    ensures var target := TargetPath(disk, name);
      var c := Copied(Unmarked(Marked(h, target, f), target, f), target, f);
      Backing(h.volumes[name]) + "/" + r !in c.files
  {
    var source, target := Backing(h.volumes[name]), TargetPath(disk, name);
    var c := Copied(Unmarked(Marked(h, target, f), target, f), target, f);
    if source + "/" + r in c.files {
      if source + "/" <= target + "/" {
        NestedTreesDiffer(c.files, source, target, r);
      } else {
        SameTreeSymmetric(c.files, source, c.files, target);
        assert SameEntry(c.files, source + "/" + r, c.files, target + "/" + r);
        NestedTreesDiffer(c.files, target, source, r);
      }
    }
  }

  lemma NestedTreesDiffer(files: Files, outer: string, inner: string, r: string)
    requires outer != inner && outer + "/" <= inner + "/" && outer + "/" + r in files
    requires SameTree(files, outer, files, inner)
    ensures false
  {
    var mid := (inner + "/")[|outer| + 1..];
    assert inner + "/" == outer + "/" + mid;
    assert inner + "/" != outer + "/" by {
      assert (inner + "/")[..|inner|] == inner && (outer + "/")[..|outer|] == outer;
    }
    assert outer + "/" + "" == outer + "/";
    forall q: string ensures SameEntry(files, outer + "/" + mid + q, files, outer + "/" + q) {
      assert SameEntry(files, outer + "/" + q, files, inner + "/" + q);
    }
    NoSelfNesting(files, outer, mid, r);
  }

  // ---- The exact conditions ----------------------------------------------------------------------

  /** Every file the source held can still be read: from the source, or through the name after a success. */
  ghost predicate NothingLost(r: Result, name: string, prior: Volume, target: string, files: Files) {
    var source := Backing(prior);
    if r.outcome.Moved? then
      && name in r.host.volumes && Backing(r.host.volumes[name]) == target
      && forall q: string :: source + "/" + q in files ==>
           SameEntry(r.host.files, target + "/" + q, files, source + "/" + q)
    else FilesSurvive(files, r.host.files, source)
  }

  /** Until it is reported moved, a relocation changes files under the target only. */
  lemma OnlyTargetBeforeSuccess(h: Host, name: string, disk: string, f: Faults)
    requires name in h.volumes && !Relocate(h, name, disk, f).outcome.Moved?
    ensures OnlyUnder(h.files, Relocate(h, name, disk, f).host.files, TargetPath(disk, name))
  {
    var target := TargetPath(disk, name);
    var probed := Unmarked(Marked(h, target, f), target, f);
    MarkingOnlyUnder(h, target, f);
    var c := Copied(probed, target, f);
    ReplacedOnlyUnder(probed.files, target, f.copied);
    RemovedOnlyUnder(c.files, target, f.cleanupLeaves);
  }

  lemma SameTreeSurvives(before: Files, after: Files, dir: string)
    requires SameTree(after, dir, before, dir)
    ensures FilesSurvive(before, after, dir)
  {
    forall p | p in before && Under(dir, p) ensures p in after && after[p] == before[p] {
      assert p == dir + "/" + p[|dir| + 1..];
      assert SameEntry(after, dir + "/" + p[|dir| + 1..], before, dir + "/" + p[|dir| + 1..]);
    }
  }

  lemma DisjointLosesNothing(h: Host, name: string, disk: string, f: Faults)
    requires name in h.volumes && HonestDiff(h, name, TargetPath(disk, name), f)
    requires Disjoint(Backing(h.volumes[name]), TargetPath(disk, name))
    ensures NothingLost(Relocate(h, name, disk, f), name, h.volumes[name], TargetPath(disk, name), h.files)
  {
    var source, target, r := Backing(h.volumes[name]), TargetPath(disk, name), Relocate(h, name, disk, f);
    RelocationKeepsData(h, name, disk, f);
    if r.outcome.Moved? {
      forall q: string ensures SameEntry(r.host.files, target + "/" + q, h.files, source + "/" + q) {
        assert Shows(r.host, name, h.files, source);
      }
    } else {
      SameTreeSurvives(h.files, r.host.files, source);
    }
  }

  lemma OverlapLosesNothing(h: Host, name: string, disk: string, f: Faults)
    requires name in h.volumes && HonestDiff(h, name, TargetPath(disk, name), f)
    requires var source, target := Backing(h.volumes[name]), TargetPath(disk, name);
      !Disjoint(source, target) && !SharesFile(h.files, source, target)
    ensures NothingLost(Relocate(h, name, disk, f), name, h.volumes[name], TargetPath(disk, name), h.files)
  {
    var source, target, r := Backing(h.volumes[name]), TargetPath(disk, name), Relocate(h, name, disk, f);
    if r.outcome.Moved? {
      RelocationKeepsName(h, name, disk, f);
      forall q: string ensures source + "/" + q !in h.files {
        if source + "/" + q in h.files {
          assert Under(source, source + "/" + q) && !Under(target, source + "/" + q);
          NestedMovesNothing(h, name, disk, f, q);
          MarkingOnlyUnder(h, target, f);
        }
      }
    } else {
      OnlyTargetBeforeSuccess(h, name, disk, f);
    }
  }

  lemma RelocationKeepsName(h: Host, name: string, disk: string, f: Faults)
    requires name in h.volumes && Relocate(h, name, disk, f).outcome.Moved?
    ensures var r := Relocate(h, name, disk, f);
      name in r.host.volumes && Backing(r.host.volumes[name]) == TargetPath(disk, name)
  {
  }

  /**
   * For a bind volume, every honest choice of faults leaves every file of the source readable
   * exactly when no file of the source lies under the target.
   */
  lemma NothingLostIff(h: Host, name: string, disk: string)
    requires name in h.volumes && Backing(h.volumes[name]) != "" && h.volumes[name].kind == "none"
    ensures var prior, target := h.volumes[name], TargetPath(disk, name);
      (forall f :: HonestDiff(h, name, target, f) ==>
        NothingLost(Relocate(h, name, disk, f), name, prior, target, h.files))
      <==> !SharesFile(h.files, Backing(prior), target)
  {
    var prior, target := h.volumes[name], TargetPath(disk, name);
    if SharesFile(h.files, Backing(prior), target) {
      var f := FailedCopy(h, "");
      FailedCopyDeletes(h, name, disk, "");
      assert HonestDiff(h, name, target, f) && !NothingLost(Relocate(h, name, disk, f), name, prior, target, h.files);
    } else {
      forall f | HonestDiff(h, name, target, f)
        ensures NothingLost(Relocate(h, name, disk, f), name, prior, target, h.files)
      {
        if Disjoint(Backing(prior), target) {
          DisjointLosesNothing(h, name, disk, f);
        } else {
          OverlapLosesNothing(h, name, disk, f);
        }
      }
    }
  }

  /** A path in both of two overlapping directories. */
  function CommonPath(source: string, target: string): string {
    (if target + "/" <= source + "/" then source else target) + "/x"
  }

  /** A failed copy that got as far as one file, followed by a clean-up that fails on that file. */
  function FailedCleanUp(h: Host, p: string): Faults {
    FailedCopy(h, "").(
      copied := h.files[p := if p in h.files then h.files[p] + "!" else "x"],
      cleanupLeaves := {p})
  }

  lemma FailedCleanUpChanges(h: Host, name: string, disk: string)
    requires name in h.volumes && Backing(h.volumes[name]) != "" && h.volumes[name].kind == "none"
    requires !Disjoint(Backing(h.volumes[name]), TargetPath(disk, name))
    ensures var source, target := Backing(h.volumes[name]), TargetPath(disk, name);
      var f := FailedCleanUp(h, CommonPath(source, target));
      var r := Relocate(h, name, disk, f);
      HonestDiff(h, name, target, f) && r.outcome.Refused? && !SameTree(r.host.files, source, h.files, source)
  {
    var source, target := Backing(h.volumes[name]), TargetPath(disk, name);
    var p := CommonPath(source, target);
    var f := FailedCleanUp(h, p);
    assert Under(source, p) && Under(target, p);
    assert Under(target, MarkerPath(target, f));
    assert ReachesCopy(h, name, disk, f);
    var after := Relocate(h, name, disk, f).host.files;
    assert p in after && after[p] == f.copied[p];
    assert p == source + "/" + p[|source| + 1..];
    assert !SameEntry(after, source + "/" + p[|source| + 1..], h.files, source + "/" + p[|source| + 1..]);
  }

  /**
   * For a bind volume, every honest choice of faults keeps the data as `RelocationKeepsData`
   * promises exactly when the two directories are disjoint.
   */
  lemma DataKeptIffDisjoint(h: Host, name: string, disk: string)
    requires name in h.volumes && Backing(h.volumes[name]) != "" && h.volumes[name].kind == "none"
    ensures var prior, target := h.volumes[name], TargetPath(disk, name);
      (forall f :: HonestDiff(h, name, target, f) ==>
        DataKept(Relocate(h, name, disk, f), name, prior, target, h.files, f))
      <==> Disjoint(Backing(prior), target)
  {
    var prior, target := h.volumes[name], TargetPath(disk, name);
    if Disjoint(Backing(prior), target) {
      forall f | HonestDiff(h, name, target, f)
        ensures DataKept(Relocate(h, name, disk, f), name, prior, target, h.files, f)
      {
        RelocationKeepsData(h, name, disk, f);
      }
    } else {
      var f := FailedCleanUp(h, CommonPath(Backing(prior), target));
      FailedCleanUpChanges(h, name, disk);
      assert HonestDiff(h, name, target, f) && !DataKept(Relocate(h, name, disk, f), name, prior, target, h.files, f);
    }
  }
}
