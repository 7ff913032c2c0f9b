/** Saving the same submission twice. */
module ConfigMerging {
  import opened Wrappers
  import opened JsonModel
  import opened ConfigSchema
  import opened ValueCoercion
  import opened SchemaWalker

  /** Merging `u` again over the result `m` of merging it over `e` finds the same keys. */
  lemma MergedKeys(doc: Doc, s: Schema, rt: Runtime, prefer: bool, e: Dict, u: Dict)
    requires Walkable(doc, s) && MergeConfig(doc, s, rt, prefer, e, u).Some?
    ensures MergeConfig(doc, s, rt, prefer, e, u).value.Keys == Known(s, Two(e, u))
    ensures Known(s, Two(MergeConfig(doc, s, rt, prefer, e, u).value, u)) == Known(s, Two(e, u))
  {
    var vis, m := Merge(rt, prefer), MergeConfig(doc, s, rt, prefer, e, u).value;
    WalkKeys(doc, vis, s, Two(e, u));
    forall k | k in Known(s, Two(e, u)) ensures k in m {
      WalkAt(doc, vis, s, Two(e, u), k);
      if WalksArray(doc, vis, s, Two(e, u), k) {
        ArraySlotAt(doc, vis, s, Two(e, u), k);
      }
    }
  }

  lemma SecretAgain(rt: Runtime, prefer: bool, k: string, e: Dict, u: Dict, m: Dict)
    requires At(m, k) == SlotEntry(Secret(Merge(rt, prefer), k, Two(e, u)))
    ensures k in m && Secret(Merge(rt, prefer), k, Two(m, u)) == Keep(m[k])
  {
  }

  lemma ScalarAgain(rt: Runtime, prefer: bool, p: Schema, k: string, e: Dict, u: Dict, m: Dict)
    requires !Scalar(Merge(rt, prefer), p, k, Two(e, u)).Fail?
    requires At(m, k) == SlotEntry(Scalar(Merge(rt, prefer), p, k, Two(e, u)))
    ensures k in m && Scalar(Merge(rt, prefer), p, k, Two(m, u)) == Keep(m[k])
  {
  }

  lemma SettledArrayAgain(rt: Runtime, prefer: bool, objects: bool, k: string, e: Dict, u: Dict, m: Dict)
    requires var plan := ArrayPlan(Merge(rt, prefer), objects, k, Two(e, u));
      plan.Settle? && At(m, k) == SlotEntry(plan.slot)
    ensures k in m && ArrayPlan(Merge(rt, prefer), objects, k, Two(m, u)) == Settle(Keep(m[k]))
  {
  }

  lemma LeafAgain(doc: Doc, s: Schema, rt: Runtime, prefer: bool, e: Dict, u: Dict, m: Dict, k: string)
    requires Walkable(doc, s) && MergeConfig(doc, s, rt, prefer, e, u) == Some(m)
    requires k in m && k in Known(s, Two(e, u)) && k in Known(s, Two(m, u))
    requires !Descends(PropOf(doc, s, k)) && !WalksArray(doc, Merge(rt, prefer), s, Two(e, u), k)
    ensures SlotOf(doc, Merge(rt, prefer), s, Two(m, u), k) == Keep(m[k])
  {
    var p := PropOf(doc, s, k);
    WalkAt(doc, Merge(rt, prefer), s, Two(e, u), k);
    if IsSecret(p) {
      SecretAgain(rt, prefer, k, e, u, m);
    } else if p.typ.ArrayType? {
      SettledArrayAgain(rt, prefer, ObjectItems(doc, p).Some?, k, e, u, m);
    } else {
      ScalarAgain(rt, prefer, p, k, e, u, m);
    }
  }

  lemma {:induction false} MergedObject(doc: Doc, s: Schema, rt: Runtime, prefer: bool, e: Dict, u: Dict, m: Dict,
                                        k: string)
    requires Walkable(doc, s) && MergeConfig(doc, s, rt, prefer, e, u) == Some(m)
    requires k in m && k in Known(s, Two(e, u)) && Descends(PropOf(doc, s, k))
    ensures var sub := MergeConfig(doc, PropOf(doc, s, k), rt, prefer, Child(e, k), Child(u, k));
      sub.Some? && m[k] == Obj(sub.value)
  {
    WalkAt(doc, Merge(rt, prefer), s, Two(e, u), k);
    ObjectSlotAt(doc, Merge(rt, prefer), s, Two(e, u), k);
  }

  lemma {:induction false} ObjectAgain(doc: Doc, s: Schema, rt: Runtime, prefer: bool, e: Dict, u: Dict, m: Dict,
                                       k: string)
    requires Walkable(doc, s) && MergeConfig(doc, s, rt, prefer, e, u) == Some(m)
    requires k in m && k in Known(s, Two(e, u)) && k in Known(s, Two(m, u)) && Descends(PropOf(doc, s, k))
    ensures SlotOf(doc, Merge(rt, prefer), s, Two(m, u), k) == Keep(m[k])
    decreases Two(e, u).Depth(), Rank(doc, s), 1
  {
    MergedObject(doc, s, rt, prefer, e, u, m, k);
    ChildrenDescend(doc, s, e, u, k);
    MergeTwice(doc, PropOf(doc, s, k), rt, prefer, Child(e, k), Child(u, k));
    ObjectSlotAt(doc, Merge(rt, prefer), s, Two(m, u), k);
  }

  lemma ChildrenDescend(doc: Doc, s: Schema, e: Dict, u: Dict, k: string)
    requires Walkable(doc, s) && k in Known(s, Two(e, u)) && Descends(PropOf(doc, s, k))
    ensures Two(Child(e, k), Child(u, k)).Depth() <= Two(e, u).Depth()
    ensures Two(Child(e, k), Child(u, k)).Depth() < Two(e, u).Depth()
      || Rank(doc, PropOf(doc, s, k)) < Rank(doc, s)
  {
    if k in s.properties {
      RankDecreases(doc, s, k);
    }
    assert Children(Two(e, u), k).Depth() <= Two(e, u).Depth();
  }

  lemma {:induction false} ArrayAgain(doc: Doc, s: Schema, rt: Runtime, prefer: bool, e: Dict, u: Dict, m: Dict,
                                      k: string)
    requires Walkable(doc, s) && MergeConfig(doc, s, rt, prefer, e, u) == Some(m)
    requires k in m && k in Known(s, Two(m, u)) && WalksArray(doc, Merge(rt, prefer), s, Two(e, u), k)
    ensures SlotOf(doc, Merge(rt, prefer), s, Two(m, u), k) == Keep(m[k])
    decreases Two(e, u).Depth(), 0, 1
  {
    var vis := Merge(rt, prefer);
    WalkAt(doc, vis, s, Two(e, u), k);
    ArraySlotAt(doc, vis, s, Two(e, u), k);
    var items := ObjectItems(doc, PropOf(doc, s, k)).value;
    assert WalksArray(doc, vis, s, Two(m, u), k);
    ArraySlotAt(doc, vis, s, Two(m, u), k);
    var jobs, again := ArrayJobs(doc, vis, s, Two(e, u), k), ArrayJobs(doc, vis, s, Two(m, u), k);
    forall i | 0 <= i < |jobs|
      ensures JobOut(doc, vis, items, again[i]) == Some(m[k].items[i])
    {
      assert jobs[i] == MergeJob(Items(Get(e, k, Null)), u[k].items[i], i);
      assert again[i] == MergeJob(m[k].items, u[k].items[i], i);
      JobAgain(doc, items, rt, prefer, Items(Get(e, k, Null)), u[k].items[i], m[k].items, i, Two(e, u).Depth());
    }
  }

  lemma {:induction false} JobAgain(doc: Doc, items: Schema, rt: Runtime, prefer: bool, stored: seq<Json>, item: Json,
                                    merged: seq<Json>, i: nat, depth: nat)
    requires Walkable(doc, items) && i < |merged|
    requires var job := MergeJob(stored, item, i);
      && (job.Recur? ==> job.vals.Depth() < depth)
      && JobOut(doc, Merge(rt, prefer), items, job) == Some(merged[i])
    ensures JobOut(doc, Merge(rt, prefer), items, MergeJob(merged, item, i)) == Some(merged[i])
    decreases depth, 0, 0
  {
    var job := MergeJob(stored, item, i);
    if job.Recur? {
      MergeTwice(doc, items, rt, prefer, job.vals.fst, job.vals.snd);
    }
  }

  /** Re-submitting is a no-op: whenever a merge succeeds, merging the same submission again changes nothing. */
  lemma {:induction false} MergeTwice(doc: Doc, s: Schema, rt: Runtime, prefer: bool, e: Dict, u: Dict)
    requires Walkable(doc, s) && MergeConfig(doc, s, rt, prefer, e, u).Some?
    ensures var m := MergeConfig(doc, s, rt, prefer, e, u).value;
      MergeConfig(doc, s, rt, prefer, m, u) == Some(m)
    decreases Two(e, u).Depth(), Rank(doc, s), 2
  {
    var vis, m := Merge(rt, prefer), MergeConfig(doc, s, rt, prefer, e, u).value;
    MergedKeys(doc, s, rt, prefer, e, u);
    forall k | k in m ensures SlotOf(doc, vis, s, Two(m, u), k) == Keep(m[k]) {
      if Descends(PropOf(doc, s, k)) {
        ObjectAgain(doc, s, rt, prefer, e, u, m, k);
      } else if WalksArray(doc, vis, s, Two(e, u), k) {
        ArrayAgain(doc, s, rt, prefer, e, u, m, k);
      } else {
        LeafAgain(doc, s, rt, prefer, e, u, m, k);
      }
    }
    assert Considered(vis, s, Two(m, u)) == m.Keys;
    SameEntries(Walk(doc, vis, s, Two(m, u)).value, m);
  }

  // ---- Submissions that are stored as they stand -------------------------------------------------

  /**
   * The submissions that replace the stored configuration outright: every considered key is
   * submitted, secrets are real strings (or repeat what is stored), scalars already have their
   * declared type, and a null only stands where null is what it falls back to.
   */
  predicate Wins(doc: Doc, s: Schema, rt: Runtime, prefer: bool, e: Dict, u: Dict)
    requires Walkable(doc, s)
    decreases Two(e, u).Depth(), Rank(doc, s), 1
  {
    && u.Keys == Known(s, Two(e, u))
    && forall k | k in u :: WinsAt(doc, s, rt, prefer, e, u, k)
  }

  predicate WinsAt(doc: Doc, s: Schema, rt: Runtime, prefer: bool, e: Dict, u: Dict, k: string)
    requires Walkable(doc, s) && k in u && k in Known(s, Two(e, u))
    decreases Two(e, u).Depth(), Rank(doc, s), 0
  {
    var p := PropOf(doc, s, k);
    if IsSecret(p) then
      if Truthy(u[k]) && u[k] != Str("***") then u[k].Str? else u[k] == Get(e, k, Str(""))
    else if p.typ.ObjectType? then
      ObjectSlotAt(doc, Merge(rt, prefer), s, Two(e, u), k);
      u[k].Obj? && Wins(doc, p, rt, prefer, Child(e, k), u[k].fields)
    else if p.typ.ArrayType? then
      u[k].Arr? && ObjectItems(doc, p).Some? ==>
        forall i | 0 <= i < |u[k].items| && u[k].items[i].Obj? ::
          JobShallower(Merge(rt, prefer), true, k, Two(e, u), i);
          Wins(doc, ObjectItems(doc, p).value, rt, prefer, StoredItem(e, k, i), u[k].items[i].fields)
    else if u[k] == Null then (if prefer && k in e then e[k] == Null else p.default.GetOr(Null) == Null)
    else Coerce(rt, p.typ, u[k]) == Some(u[k])
  }

  /** The stored object that a submitted array item is merged over. */
  function StoredItem(e: Dict, k: string, i: nat): Dict {
    var stored := Items(Get(e, k, Null));
    if i < |stored| && stored[i].Obj? then stored[i].fields else map[]
  }

  lemma {:induction false} ObjectWins(doc: Doc, s: Schema, rt: Runtime, prefer: bool, e: Dict, u: Dict, k: string)
    requires Walkable(doc, s) && k in u && k in Known(s, Two(e, u)) && Descends(PropOf(doc, s, k))
    ensures WinsAt(doc, s, rt, prefer, e, u, k) <==> SlotOf(doc, Merge(rt, prefer), s, Two(e, u), k) == Keep(u[k])
    decreases Two(e, u).Depth(), Rank(doc, s), 1
  {
    ObjectSlotAt(doc, Merge(rt, prefer), s, Two(e, u), k);
    if u[k].Obj? {
      SubmissionWins(doc, PropOf(doc, s, k), rt, prefer, Child(e, k), u[k].fields);
    }
  }

  lemma {:induction false} ArrayWins(doc: Doc, s: Schema, rt: Runtime, prefer: bool, e: Dict, u: Dict, k: string)
    requires Walkable(doc, s) && k in u && WalksArray(doc, Merge(rt, prefer), s, Two(e, u), k)
    ensures WinsAt(doc, s, rt, prefer, e, u, k) <==> SlotOf(doc, Merge(rt, prefer), s, Two(e, u), k) == Keep(u[k])
    decreases Two(e, u).Depth(), 0, 0
  {
    var vis := Merge(rt, prefer);
    ArraySlotAt(doc, vis, s, Two(e, u), k);
    var items := ObjectItems(doc, PropOf(doc, s, k)).value;
    var jobs, xs := ArrayJobs(doc, vis, s, Two(e, u), k), u[k].items;
    forall i | 0 <= i < |xs|
      ensures JobOut(doc, vis, items, jobs[i]) == Some(xs[i]) <==>
        (xs[i].Obj? ==> Wins(doc, items, rt, prefer, StoredItem(e, k, i), xs[i].fields))
    {
      assert jobs[i] == MergeJob(Items(Get(e, k, Null)), xs[i], i);
      if xs[i].Obj? {
        SubmissionWins(doc, items, rt, prefer, StoredItem(e, k, i), xs[i].fields);
      }
    }
    var slot := SlotOf(doc, vis, s, Two(e, u), k);
    if slot.Keep? {
      assert slot.value.items == xs <==> forall i :: 0 <= i < |xs| ==> slot.value.items[i] == xs[i];
    }
  }

  lemma {:induction false} LeafWins(doc: Doc, s: Schema, rt: Runtime, prefer: bool, e: Dict, u: Dict, k: string)
    requires Walkable(doc, s) && k in u && k in Known(s, Two(e, u))
    requires !Descends(PropOf(doc, s, k)) && !WalksArray(doc, Merge(rt, prefer), s, Two(e, u), k)
    ensures WinsAt(doc, s, rt, prefer, e, u, k) <==> SlotOf(doc, Merge(rt, prefer), s, Two(e, u), k) == Keep(u[k])
  {
  }

  /** A submission is stored exactly as it stands if and only if it wins at every position. */
  lemma {:induction false} SubmissionWins(doc: Doc, s: Schema, rt: Runtime, prefer: bool, e: Dict, u: Dict)
    requires Walkable(doc, s)
    ensures MergeConfig(doc, s, rt, prefer, e, u) == Some(u) <==> Wins(doc, s, rt, prefer, e, u)
    decreases Two(e, u).Depth(), Rank(doc, s), 2
  {
    var vis, vals := Merge(rt, prefer), Two(e, u);
    forall k | k in u && k in Known(s, vals)
      ensures WinsAt(doc, s, rt, prefer, e, u, k) <==> SlotOf(doc, vis, s, vals, k) == Keep(u[k])
    {
      if Descends(PropOf(doc, s, k)) {
        ObjectWins(doc, s, rt, prefer, e, u, k);
      } else if WalksArray(doc, vis, s, vals, k) {
        ArrayWins(doc, s, rt, prefer, e, u, k);
      } else {
        LeafWins(doc, s, rt, prefer, e, u, k);
      }
    }
    if MergeConfig(doc, s, rt, prefer, e, u) == Some(u) {
      MergedKeys(doc, s, rt, prefer, e, u);
      forall k | k in u ensures SlotOf(doc, vis, s, vals, k) == Keep(u[k]) {
        WalkAt(doc, vis, s, vals, k);
      }
    }
    if Wins(doc, s, rt, prefer, e, u) {
      assert Considered(vis, s, vals) == u.Keys;
      SameEntries(Walk(doc, vis, s, vals).value, u);
    }
  }
}
