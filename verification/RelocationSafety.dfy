/** Relocation never loses data: what holds after every combination of faults. */
module RelocationSafety {
  import opened Wrappers
  import opened VolumeRelocation

  // ---- Directories -------------------------------------------------------------------------------

  /** Two prefixes of one path are prefixes of one another. */
  lemma PrefixesNest(x: string, y: string, path: string)
    requires x <= path && y <= path
    ensures x <= y || y <= x
  {
    if |x| <= |y| {
      assert y[..|x|] == path[..|x|] == x;
    } else {
      assert x[..|y|] == path[..|y|] == y;
    }
  }

  lemma DisjointPaths(a: string, b: string, path: string)
    requires Disjoint(a, b) && Under(a, path)
    ensures !Under(b, path)
  {
    if Under(b, path) {
      PrefixesNest(a + "/", b + "/", path);
    }
  }

  lemma SameTreeTransitive(a: Files, da: string, b: Files, db: string, c: Files, dc: string)
    requires SameTree(a, da, b, db) && SameTree(b, db, c, dc)
    ensures SameTree(a, da, c, dc)
  {
    forall r: string ensures SameEntry(a, da + "/" + r, c, dc + "/" + r) {
      assert SameEntry(a, da + "/" + r, b, db + "/" + r);
      assert SameEntry(b, db + "/" + r, c, dc + "/" + r);
    }
  }

  lemma SameTreeSymmetric(a: Files, da: string, b: Files, db: string)
    requires SameTree(a, da, b, db)
    ensures SameTree(b, db, a, da)
  {
    forall r: string ensures SameEntry(b, db + "/" + r, a, da + "/" + r) {
      assert SameEntry(a, da + "/" + r, b, db + "/" + r);
    }
  }

  /** Files that differ from `a` only under `dir`. */
  ghost predicate OnlyUnder(a: Files, b: Files, dir: string) {
    forall p :: !Under(dir, p) ==> (p in a <==> p in b) && (p in a ==> a[p] == b[p])
  }

  lemma ElsewhereSame(a: Files, b: Files, changed: string, dir: string)
    requires OnlyUnder(a, b, changed) && Disjoint(changed, dir)
    ensures SameTree(b, dir, a, dir)
  {
    forall r: string ensures SameEntry(b, dir + "/" + r, a, dir + "/" + r) {
      assert Under(dir, dir + "/" + r);
      DisjointPaths(dir, changed, dir + "/" + r);
    }
  }

  lemma ReplacedOnlyUnder(files: Files, dir: string, after: Files)
    ensures OnlyUnder(files, Replaced(files, dir, after), dir)
  {
  }

  lemma RemovedOnlyUnder(files: Files, dir: string, left: set<string>)
    ensures OnlyUnder(files, Removed(files, dir, left), dir)
  {
  }

  lemma MarkingOnlyUnder(h: Host, target: string, f: Faults)
    ensures OnlyUnder(h.files, Unmarked(Marked(h, target, f), target, f).files, target)
    ensures Unmarked(Marked(h, target, f), target, f).volumes == h.volumes
  {
    assert Under(target, MarkerPath(target, f));
  }

  // ---- The stages --------------------------------------------------------------------------------

  /** The data seen through the volume name is what directory `dir` of `files` holds. */
  ghost predicate Shows(h: Host, name: string, files: Files, dir: string)
    requires name in h.volumes
  {
    SameTree(h.files, Backing(h.volumes[name]), files, dir)
  }

  /** A bind volume at `target` with the labels of `prior`. */
  predicate BoundAnew(v: Volume, prior: Volume, target: string) {
    v.device == target && v.kind == "none" && v.labels == prior.labels
  }

  /** What a stage guarantees about the data that `source` held in `files`, whatever it ends with. */
  ghost predicate DataKept(r: Result, name: string, prior: Volume, target: string, files: Files, f: Faults) {
    var source := Backing(prior);
    && (!r.outcome.Moved? ==> SameTree(r.host.files, source, files, source))
    && (r.outcome.Moved? ==> name in r.host.volumes && BoundAnew(r.host.volumes[name], prior, target))
    && (name in r.host.volumes ==> Shows(r.host, name, files, source))
    && (name !in r.host.volumes ==> f.restore.Raises?)
  }

  lemma FinishSafe(h: Host, name: string, prior: Volume, target: string, files: Files, f: Faults)
    requires Disjoint(Backing(prior), target) && target != ""
    requires name in h.volumes && h.volumes[name] == NewVolume(prior, target)
    requires SameTree(h.files, Backing(prior), files, Backing(prior))
    requires SameTree(h.files, target, files, Backing(prior))
    ensures DataKept(Finish(h, name, Backing(prior), f), name, prior, target, files, f)
  {
    var source, purged := Backing(prior), Removed(h.files, Backing(prior), f.purgeLeaves);
    RemovedOnlyUnder(h.files, source, f.purgeLeaves);
    ElsewhereSame(h.files, purged, source, target);
    SameTreeTransitive(purged, target, h.files, target, files, source);
  }

  lemma RebindSafe(h: Host, name: string, target: string, files: Files, f: Faults)
    requires name in h.volumes && target != "" && Disjoint(Backing(h.volumes[name]), target)
    requires var source := Backing(h.volumes[name]);
      SameTree(h.files, source, files, source) && SameTree(h.files, target, files, source)
    ensures DataKept(Rebind(h, name, target, f), name, h.volumes[name], target, files, f)
  {
    var prior := h.volumes[name];
    var gone := h.(volumes := h.volumes - {name});
    var created := Create(gone, name, NewVolume(prior, target), f.recreate);
    if created.1 {
      FinishSafe(created.0, name, prior, target, files, f);
    }
  }

  lemma CopySafe(h: Host, name: string, target: string, files: Files, f: Faults)
    requires name in h.volumes && target != "" && Disjoint(Backing(h.volumes[name]), target)
    requires var source, c := Backing(h.volumes[name]), Copied(h, target, f);
      SameTree(h.files, source, files, source) && (f.diffExitsZero ==> SameTree(c.files, source, c.files, target))
    ensures DataKept(CopyAndVerify(h, name, target, f), name, h.volumes[name], target, files, f)
  {
    var source, c := Backing(h.volumes[name]), Copied(h, target, f);
    ReplacedOnlyUnder(h.files, target, f.copied);
    ElsewhereSame(h.files, c.files, target, source);
    SameTreeTransitive(c.files, source, h.files, source, files, source);
    if f.copyExitsZero && f.diffExitsZero {
      SameTreeSymmetric(c.files, source, c.files, target);
      SameTreeTransitive(c.files, target, c.files, source, files, source);
      RebindSafe(c, name, target, files, f);
    } else {
      var d := CleanedUp(c, target, f);
      RemovedOnlyUnder(c.files, target, f.cleanupLeaves);
      ElsewhereSame(c.files, d.files, target, source);
      SameTreeTransitive(d.files, source, c.files, source, files, source);
    }
  }

  lemma SameTreeReflexive(a: Files, dir: string)
    ensures SameTree(a, dir, a, dir)
  {
  }

  /**
   * Whatever fails, and however the call ends: unless it reports success the source directory
   * holds what it held; on success the name is bound to the target, labels kept; and whenever
   * the name is bound at all, the data seen through it is the original.  The name can end up
   * unbound only when restoring the old volume itself failed.
   */
  lemma RelocationKeepsData(h: Host, name: string, disk: string, f: Faults)
    requires name in h.volumes && Disjoint(Backing(h.volumes[name]), TargetPath(disk, name))
    requires HonestDiff(h, name, TargetPath(disk, name), f)
    ensures var source, r := Backing(h.volumes[name]), Relocate(h, name, disk, f);
      && (!r.outcome.Moved? ==> SameTree(r.host.files, source, h.files, source))
      && (r.outcome.Moved? ==>
            && name in r.host.volumes
            && BoundAnew(r.host.volumes[name], h.volumes[name], disk + "/robotsix-volumes/" + name))
      && (name in r.host.volumes ==> Shows(r.host, name, h.files, source))
      && (name !in r.host.volumes ==> f.restore.Raises?)
  {
    var source, target := Backing(h.volumes[name]), TargetPath(disk, name);
    var probed := Unmarked(Marked(h, target, f), target, f);
    MarkingOnlyUnder(h, target, f);
    ElsewhereSame(h.files, probed.files, target, source);
    SameTreeReflexive(h.files, source);
    CopySafe(probed, name, target, h.files, f);
  }

  // ---- Overlapping directories -------------------------------------------------------------------

  /** A finite file system has no directory that repeats itself inside itself. */
  lemma {:induction false} NoSelfNesting(files: Files, dir: string, mid: string, r: string)
    requires |mid| > 0 && dir + "/" + r in files
    requires forall q: string :: SameEntry(files, dir + "/" + mid + q, files, dir + "/" + q)
    ensures false
    decreases MaxOf(set p | p in files :: |p|) - |r|
  {
    var lengths := set p | p in files :: |p|;
    assert |dir + "/" + r| in lengths;
    assert SameEntry(files, dir + "/" + mid + r, files, dir + "/" + r);
    assert dir + "/" + mid + r == dir + "/" + (mid + r);
    NoSelfNesting(files, dir, mid, mid + r);
  }

  /**
   * If a relocation reports success and finishes its clean-up, disjoint directories are exactly what
   * has kept the data.  The overlapping half speaks of a directory copied onto itself: with one
   * strictly inside the other no success moves anything, and the loss is on the refused branch.
   */
  lemma MovedKeepsDataIffDisjoint(h: Host, name: string, disk: string, f: Faults, r: string)
    requires name in h.volumes && HonestDiff(h, name, TargetPath(disk, name), f)
    requires Relocate(h, name, disk, f).outcome.Moved?
    requires var source := Backing(h.volumes[name]);
      f.shared(source) && f.purgeLeaves == {} && source + "/" + r in h.files
    ensures var after := Relocate(h, name, disk, f).host;
      name in after.volumes
      && (Shows(after, name, h.files, Backing(h.volumes[name]))
          <==> Disjoint(Backing(h.volumes[name]), TargetPath(disk, name)))
  {
    var source, target := Backing(h.volumes[name]), TargetPath(disk, name);
    var after := Relocate(h, name, disk, f).host;
    if Disjoint(source, target) {
      RelocationKeepsData(h, name, disk, f);
    } else {
      var c := Copied(Unmarked(Marked(h, target, f), target, f), target, f);
      assert after.volumes[name] == NewVolume(h.volumes[name], target);
      assert after.files == Removed(c.files, source, {});
      if source + "/" <= target + "/" {
        assert Under(source, target + "/" + r);
      } else if target + "/" + r in after.files {
        var mid := (source + "/")[|target| + 1..];
        assert source + "/" == target + "/" + mid;
        forall q: string ensures SameEntry(c.files, target + "/" + mid + q, c.files, target + "/" + q) {
          assert SameEntry(c.files, source + "/" + q, c.files, target + "/" + q);
        }
        NoSelfNesting(c.files, target, mid, r);
      }
      assert !SameEntry(after.files, target + "/" + r, h.files, source + "/" + r);
    }
  }

  // ---- Everything else ---------------------------------------------------------------------------

  /** Every other volume, and every file outside the two directories, is as before. */
  ghost predicate OthersUntouched(a: Host, b: Host, name: string, source: string, target: string) {
    && (forall p :: !Under(source, p) && !Under(target, p) ==>
          (p in a.files <==> p in b.files) && (p in a.files ==> a.files[p] == b.files[p]))
    && (forall n :: n != name ==>
          (n in a.volumes <==> n in b.volumes) && (n in a.volumes ==> a.volumes[n] == b.volumes[n]))
  }

  lemma RebindElsewhere(h: Host, name: string, target: string, f: Faults)
    requires name in h.volumes
    ensures OthersUntouched(h, Rebind(h, name, target, f).host, name, Backing(h.volumes[name]), target)
  {
  }

  lemma CopyElsewhere(h: Host, name: string, target: string, f: Faults)
    requires name in h.volumes
    ensures OthersUntouched(h, CopyAndVerify(h, name, target, f).host, name, Backing(h.volumes[name]), target)
  {
    var c := Copied(h, target, f);
    ReplacedOnlyUnder(h.files, target, f.copied);
    RemovedOnlyUnder(c.files, target, f.cleanupLeaves);
    RebindElsewhere(c, name, target, f);
  }

  /** Only the volume's own name, its source directory and its target directory are ever touched. */
  lemma RelocationTouchesNothingElse(h: Host, name: string, disk: string, f: Faults)
    requires name in h.volumes
    ensures OthersUntouched(h, Relocate(h, name, disk, f).host, name, Backing(h.volumes[name]), TargetPath(disk, name))
  {
    var source, target := Backing(h.volumes[name]), TargetPath(disk, name);
    var probed := Unmarked(Marked(h, target, f), target, f);
    MarkingOnlyUnder(h, target, f);
    CopyElsewhere(probed, name, target, f);
    RelocateStages(h, name, disk, f);
    assert OthersUntouched(h, probed, name, source, target);
    assert OthersUntouched(h, CopyAndVerify(probed, name, target, f).host, name, source, target);
  }

  /** A relocation ends before its probe, right after it, or with the copy. */
  lemma RelocateStages(h: Host, name: string, disk: string, f: Faults)
    requires name in h.volumes
    ensures var target, after := TargetPath(disk, name), Relocate(h, name, disk, f).host;
      var probed := Unmarked(Marked(h, target, f), target, f);
      after == h || after == probed || after == CopyAndVerify(probed, name, target, f).host
  {
  }
}
