/** The restored document, entry by entry. */
module RestoreMeaning {
  import opened Wrappers
  import opened JsonModel
  import opened ConfigSchema
  import opened SchemaWalker
  import opened ConfigMeaning

  /** `m` has the secrets of `c` and, for want of one, of `r`; everything else is as in `r`. */
  predicate IsRestored(doc: Doc, s: Schema, r: Dict, c: Dict, m: Dict)
    requires Walkable(doc, s)
    decreases Two(r, c).Depth(), Rank(doc, s), 2
  {
    var known := s.properties.Keys + (if s.additional.Some? then r.Keys + c.Keys else {});
    m.Keys <= known && forall k | k in known :: RestoredAs(doc, s, r, c, k, At(m, k))
  }

  predicate RestoredAs(doc: Doc, s: Schema, r: Dict, c: Dict, k: string, y: Option<Json>)
    requires Walkable(doc, s) && (k in s.properties || (s.additional.Some? && (k in r || k in c)))
    decreases Two(r, c).Depth(), Rank(doc, s), 1
  {
    var p := PropOf(doc, s, k);
    if MarkedSecret(p) then y == if k in c then Some(c[k]) else if k in r then Some(r[k]) else None
    else if p.typ.ObjectType? then
      ChildDepth(doc, s, Two(r, c), k);
      y.Some? && y.value.Obj? && IsRestored(doc, p, ObjectAt(r, k), ObjectAt(c, k), y.value.fields)
    else if p.typ.ArrayType? && ObjectItems(doc, p).Some? && IsArrayAt(r, k) && IsArrayAt(c, k) then
      && y.Some? && y.value.Arr? && |y.value.items| == |r[k].items|
      && forall i | 0 <= i < |r[k].items| ::
           ItemRestoredAs(doc, ObjectItems(doc, p).value, r, c, k, i, y.value.items[i])
    else y == if k in r then Some(r[k]) else None
  }

  /** An item gets its secrets from the current item of the same index, if both are objects. */
  predicate ItemRestoredAs(doc: Doc, items: Schema, r: Dict, c: Dict, k: string, i: nat, y: Json)
    requires Walkable(doc, items) && IsArrayAt(r, k) && IsArrayAt(c, k) && i < |r[k].items|
    decreases Two(r, c).Depth(), 0, 0
  {
    ItemDepth(r, k, i);
    ItemDepth(c, k, i);
    var x := r[k].items[i];
    if x.Obj? && i < |c[k].items| && c[k].items[i].Obj?
    then y.Obj? && IsRestored(doc, items, x.fields, c[k].items[i].fields, y.fields)
    else y == x
  }

  lemma {:induction false} ArrayRestored(doc: Doc, s: Schema, r: Dict, c: Dict, k: string, y: Option<Json>)
    requires Walkable(doc, s) && WalksArray(doc, Restore, s, Two(r, c), k)
    ensures RestoredAs(doc, s, r, c, k, y) <==> SlotEntry(SlotOf(doc, Restore, s, Two(r, c), k)) == y
    decreases Two(r, c).Depth(), 0, 1
  {
    ArraySlotAt(doc, Restore, s, Two(r, c), k);
    NeverFails(doc, Restore, s, Two(r, c), k);
    var items := ObjectItems(doc, PropOf(doc, s, k)).value;
    var jobs, xs := ArrayJobs(doc, Restore, s, Two(r, c), k), r[k].items;
    if y.Some? && y.value.Arr? && |y.value.items| == |xs| {
      var ys := y.value.items;
      forall i | 0 <= i < |xs|
        ensures ItemRestoredAs(doc, items, r, c, k, i, ys[i]) <==> JobOut(doc, Restore, items, jobs[i]) == Some(ys[i])
      {
        assert jobs[i] == RestoreJob(xs[i], c[k].items, i);
        if jobs[i].Recur? && ys[i].Obj? {
          ItemDepth(r, k, i);
          ItemDepth(c, k, i);
          RestoreMeans(doc, items, xs[i].fields, c[k].items[i].fields, ys[i].fields);
          OnlyMergeFails(doc, Restore, items, Two(xs[i].fields, c[k].items[i].fields));
        }
      }
      SlotIsItems(doc, Restore, s, Two(r, c), k, ys);
    }
  }

  lemma {:induction false} EntryRestored(doc: Doc, s: Schema, r: Dict, c: Dict, k: string, y: Option<Json>)
    requires Walkable(doc, s) && k in Known(s, Two(r, c))
    ensures RestoredAs(doc, s, r, c, k, y) <==> SlotEntry(SlotOf(doc, Restore, s, Two(r, c), k)) == y
    decreases Two(r, c).Depth(), Rank(doc, s), 2
  {
    if Descends(PropOf(doc, s, k)) {
      ObjectSlotAt(doc, Restore, s, Two(r, c), k);
      OnlyMergeFails(doc, Restore, PropOf(doc, s, k), Two(Child(r, k), Child(c, k)));
      if y.Some? && y.value.Obj? {
        RestoreMeans(doc, PropOf(doc, s, k), Child(r, k), Child(c, k), y.value.fields);
      }
    } else if WalksArray(doc, Restore, s, Two(r, c), k) {
      ArrayRestored(doc, s, r, c, k, y);
    } else {
      LeafRestored(doc, s, r, c, k, y);
    }
  }

  lemma {:induction false} LeafRestored(doc: Doc, s: Schema, r: Dict, c: Dict, k: string, y: Option<Json>)
    requires Walkable(doc, s) && k in Known(s, Two(r, c)) && !Descends(PropOf(doc, s, k))
    requires !WalksArray(doc, Restore, s, Two(r, c), k)
    ensures RestoredAs(doc, s, r, c, k, y) <==> SlotEntry(SlotOf(doc, Restore, s, Two(r, c), k)) == y
  {
  }

  /** The restored document is the one with the current secrets and all else from the restored one. */
  lemma {:induction false} RestoreMeans(doc: Doc, s: Schema, r: Dict, c: Dict, m: Dict)
    requires Walkable(doc, s)
    ensures RestoreSecrets(doc, s, r, c) == m <==> IsRestored(doc, s, r, c, m)
    decreases Two(r, c).Depth(), Rank(doc, s), 3
  {
    forall k | k in Known(s, Two(r, c))
      ensures RestoredAs(doc, s, r, c, k, At(m, k)) <==> SlotEntry(SlotOf(doc, Restore, s, Two(r, c), k)) == At(m, k)
    {
      EntryRestored(doc, s, r, c, k, At(m, k));
    }
    RestoreIs(doc, s, r, c, m);
  }

  lemma {:induction false} RestoreIs(doc: Doc, s: Schema, r: Dict, c: Dict, m: Dict)
    requires Walkable(doc, s)
    ensures Known(s, Two(r, c)) == s.properties.Keys + (if s.additional.Some? then r.Keys + c.Keys else {})
    ensures RestoreSecrets(doc, s, r, c) == m <==>
      && m.Keys <= Known(s, Two(r, c))
      && forall k :: k in Known(s, Two(r, c)) ==> SlotEntry(SlotOf(doc, Restore, s, Two(r, c), k)) == At(m, k)
  {
    OnlyMergeFails(doc, Restore, s, Two(r, c));
    forall k | k in Known(s, Two(r, c)) ensures !SlotOf(doc, Restore, s, Two(r, c), k).Fail? {
      NeverFails(doc, Restore, s, Two(r, c), k);
    }
    WalkIs(doc, Restore, s, Two(r, c), m);
  }
}
