/** The merge of a submission into a stored document, entry by entry. */
module MergeMeaning {
  import opened Wrappers
  import opened JsonModel
  import opened ConfigSchema
  import opened ValueCoercion
  import opened SchemaWalker
  import opened ConfigMeaning

  /**
   * `m` is the submission laid over the stored document.  A blank, masked or omitted secret, an
   * omitted array and, with `prefer`, an omitted or null scalar hold what is stored; otherwise such
   * a scalar falls back to its default, then to null if null was submitted, then to "".
   */
  predicate IsMerge(doc: Doc, s: Schema, rt: Runtime, prefer: bool, e: Dict, u: Dict, m: Dict)
    requires Walkable(doc, s)
    decreases Two(e, u).Depth(), Rank(doc, s), 2
  {
    && m.Keys == s.properties.Keys + (if s.additional.Some? then e.Keys + u.Keys else {})
    && forall k | k in m :: MergedAs(doc, s, rt, prefer, e, u, k, m[k])
  }

  predicate MergedAs(doc: Doc, s: Schema, rt: Runtime, prefer: bool, e: Dict, u: Dict, k: string, y: Json)
    requires Walkable(doc, s) && (k in s.properties || (s.additional.Some? && (k in e || k in u)))
    decreases Two(e, u).Depth(), Rank(doc, s), 1
  {
    var p := PropOf(doc, s, k);
    if MarkedSecret(p) then
      y == if k in u && Truthy(u[k]) && u[k] != Str("***") then Str(PyStr(rt, u[k])) else EntryOr(e, k, Str(""))
    else if p.typ.ObjectType? then
      ChildDepth(doc, s, Two(e, u), k);
      y.Obj? && IsMerge(doc, p, rt, prefer, ObjectAt(e, k), ObjectAt(u, k), y.fields)
    else if p.typ.ArrayType? then
      if ObjectItems(doc, p).Some? && IsArrayAt(u, k) then
        && y.Arr? && |y.items| == |u[k].items|
        && forall i | 0 <= i < |u[k].items| ::
             ItemMergedAs(doc, ObjectItems(doc, p).value, rt, prefer, e, u, k, i, y.items[i])
      else y == if k in u then u[k] else EntryOr(e, k, Arr([]))
    else if k in u && u[k] != Null then Coerce(rt, p.typ, u[k]) == Some(y)
    else if prefer && k in e then y == e[k]
    else if p.default.Some? then y == p.default.value
    else if k in u then y == Null
    else y == Str("")
  }

  /** A submitted item is laid over the stored item of the same index. */
  predicate ItemMergedAs(doc: Doc, items: Schema, rt: Runtime, prefer: bool, e: Dict, u: Dict, k: string, i: nat,
                         y: Json)
    requires Walkable(doc, items) && IsArrayAt(u, k) && i < |u[k].items|
    decreases Two(e, u).Depth(), 0, 0
  {
    var x := u[k].items[i];
    ItemPairDepth(e, u, k, i);
    if x.Obj? then y.Obj? && IsMerge(doc, items, rt, prefer, ObjectOf(ItemsAt(e, k), i), x.fields, y.fields) else y == x
  }

  lemma ItemPairDepth(e: Dict, u: Dict, k: string, i: nat)
    requires IsArrayAt(u, k) && i < |u[k].items|
    ensures Two(ObjectOf(ItemsAt(e, k), i), ObjectOf(u[k].items, i)).Depth() < Two(e, u).Depth()
  {
    ItemDepth(u, k, i);
    if IsArrayAt(e, k) {
      ItemDepth(e, k, i);
    } else {
      ItemDepth(u, k, |u[k].items|);
    }
  }

  lemma {:induction false} ArrayMerged(doc: Doc, s: Schema, rt: Runtime, prefer: bool, e: Dict, u: Dict, k: string,
                                       y: Json)
    requires Walkable(doc, s) && WalksArray(doc, Merge(rt, prefer), s, Two(e, u), k)
    ensures MergedAs(doc, s, rt, prefer, e, u, k, y) <==> SlotOf(doc, Merge(rt, prefer), s, Two(e, u), k) == Keep(y)
    decreases Two(e, u).Depth(), 0, 1
  {
    var vis := Merge(rt, prefer);
    ArraySlotAt(doc, vis, s, Two(e, u), k);
    var items := ObjectItems(doc, PropOf(doc, s, k)).value;
    var jobs, xs := ArrayJobs(doc, vis, s, Two(e, u), k), u[k].items;
    if y.Arr? && |y.items| == |xs| {
      forall i | 0 <= i < |xs|
        ensures ItemMergedAs(doc, items, rt, prefer, e, u, k, i, y.items[i])
          <==> JobOut(doc, vis, items, jobs[i]) == Some(y.items[i])
      {
        assert jobs[i] == MergeJob(Items(EntryOr(e, k, Null)), xs[i], i);
        ItemMerged(doc, items, rt, prefer, e, u, k, i, y.items[i]);
      }
      SlotIsItems(doc, vis, s, Two(e, u), k, y.items);
    }
  }

  lemma {:induction false} ItemMerged(doc: Doc, items: Schema, rt: Runtime, prefer: bool, e: Dict, u: Dict, k: string,
                                      i: nat, y: Json)
    requires Walkable(doc, items) && IsArrayAt(u, k) && i < |u[k].items|
    ensures var job := MergeJob(Items(EntryOr(e, k, Null)), u[k].items[i], i);
      ItemMergedAs(doc, items, rt, prefer, e, u, k, i, y) <==> JobOut(doc, Merge(rt, prefer), items, job) == Some(y)
    decreases Two(e, u).Depth(), 0, 0
  {
    var x := u[k].items[i];
    if x.Obj? && y.Obj? {
      ItemPairDepth(e, u, k, i);
      MergeMeans(doc, items, rt, prefer, ObjectOf(ItemsAt(e, k), i), x.fields, y.fields);
    }
  }

  lemma {:induction false} EntryMerged(doc: Doc, s: Schema, rt: Runtime, prefer: bool, e: Dict, u: Dict, k: string,
                                       y: Json)
    requires Walkable(doc, s) && k in Known(s, Two(e, u))
    ensures MergedAs(doc, s, rt, prefer, e, u, k, y) <==> SlotOf(doc, Merge(rt, prefer), s, Two(e, u), k) == Keep(y)
    decreases Two(e, u).Depth(), Rank(doc, s), 2
  {
    if Descends(PropOf(doc, s, k)) {
      ObjectSlotAt(doc, Merge(rt, prefer), s, Two(e, u), k);
      if y.Obj? {
        MergeMeans(doc, PropOf(doc, s, k), rt, prefer, Child(e, k), Child(u, k), y.fields);
      }
    } else if WalksArray(doc, Merge(rt, prefer), s, Two(e, u), k) {
      ArrayMerged(doc, s, rt, prefer, e, u, k, y);
    } else {
      LeafMerged(doc, s, rt, prefer, e, u, k, y);
    }
  }

  lemma {:induction false} LeafMerged(doc: Doc, s: Schema, rt: Runtime, prefer: bool, e: Dict, u: Dict, k: string,
                                      y: Json)
    requires Walkable(doc, s) && k in Known(s, Two(e, u)) && !Descends(PropOf(doc, s, k))
    requires !WalksArray(doc, Merge(rt, prefer), s, Two(e, u), k)
    ensures MergedAs(doc, s, rt, prefer, e, u, k, y) <==> SlotOf(doc, Merge(rt, prefer), s, Two(e, u), k) == Keep(y)
  {
  }

  /** A merge succeeds with `m` exactly when `m` is the submission laid over the stored document. */
  lemma {:induction false} MergeMeans(doc: Doc, s: Schema, rt: Runtime, prefer: bool, e: Dict, u: Dict, m: Dict)
    requires Walkable(doc, s)
    ensures MergeConfig(doc, s, rt, prefer, e, u) == Some(m) <==> IsMerge(doc, s, rt, prefer, e, u, m)
    decreases Two(e, u).Depth(), Rank(doc, s), 3
  {
    var vis, vals := Merge(rt, prefer), Two(e, u);
    forall k | k in Known(s, vals) && k in m
      ensures MergedAs(doc, s, rt, prefer, e, u, k, m[k]) <==> SlotOf(doc, vis, s, vals, k) == Keep(m[k])
    {
      EntryMerged(doc, s, rt, prefer, e, u, k, m[k]);
    }
    MergeIs(doc, s, rt, prefer, e, u, m);
  }

  lemma {:induction false} MergeIs(doc: Doc, s: Schema, rt: Runtime, prefer: bool, e: Dict, u: Dict, m: Dict)
    requires Walkable(doc, s)
    ensures Known(s, Two(e, u)) == s.properties.Keys + (if s.additional.Some? then e.Keys + u.Keys else {})
    ensures MergeConfig(doc, s, rt, prefer, e, u) == Some(m) <==>
      && m.Keys == Known(s, Two(e, u))
      && forall k :: k in Known(s, Two(e, u)) ==> SlotOf(doc, Merge(rt, prefer), s, Two(e, u), k) == Keep(m[k])
  {
    WalkIs(doc, Merge(rt, prefer), s, Two(e, u), m);
    forall k | k in Known(s, Two(e, u)) ensures !SlotOf(doc, Merge(rt, prefer), s, Two(e, u), k).Skip? {
      MergeNeverSkips(doc, rt, prefer, s, Two(e, u), k);
    }
  }
}
