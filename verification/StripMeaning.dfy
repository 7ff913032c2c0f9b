/** The stripped document, entry by entry. */
module StripMeaning {
  import opened Wrappers
  import opened JsonModel
  import opened ConfigSchema
  import opened SchemaWalker
  import opened ConfigMeaning

  /** `m` has no secret; everything else, unknown keys included, is as in `v`, with null for an absent array. */
  predicate IsStripped(doc: Doc, s: Schema, v: Dict, m: Dict)
    requires Walkable(doc, s)
    decreases Depth(Obj(v)), Rank(doc, s), 2
  {
    && m.Keys <= s.properties.Keys + v.Keys
    && forall k | k in s.properties.Keys + v.Keys :: StrippedAs(doc, s, v, k, At(m, k))
  }

  predicate StrippedAs(doc: Doc, s: Schema, v: Dict, k: string, y: Option<Json>)
    requires Walkable(doc, s) && (k in s.properties || k in v)
    decreases Depth(Obj(v)), Rank(doc, s), 1
  {
    if k !in s.properties && s.additional.None? then y == Some(v[k]) else
    var p := PropOf(doc, s, k);
    if MarkedSecret(p) then y.None?
    else if p.typ.ObjectType? then
      ChildDepth(doc, s, One(v), k);
      y.Some? && y.value.Obj? && IsStripped(doc, p, ObjectAt(v, k), y.value.fields)
    else if p.typ.ArrayType? then
      if ObjectItems(doc, p).Some? && IsArrayAt(v, k) then
        && y.Some? && y.value.Arr? && |y.value.items| == |v[k].items|
        && forall i | 0 <= i < |v[k].items| :: ItemStrippedAs(doc, ObjectItems(doc, p).value, v, k, i, y.value.items[i])
      else y == Some(EntryOr(v, k, Null))
    else y == if k in v then Some(v[k]) else None
  }

  predicate ItemStrippedAs(doc: Doc, items: Schema, v: Dict, k: string, i: nat, y: Json)
    requires Walkable(doc, items) && IsArrayAt(v, k) && i < |v[k].items|
    decreases Depth(Obj(v)), 0, 0
  {
    ItemDepth(v, k, i);
    var x := v[k].items[i];
    if x.Obj? then y.Obj? && IsStripped(doc, items, x.fields, y.fields) else y == x
  }

  lemma {:induction false} ArrayStripped(doc: Doc, s: Schema, v: Dict, k: string, y: Option<Json>)
    requires Walkable(doc, s) && WalksArray(doc, Strip, s, One(v), k)
    ensures StrippedAs(doc, s, v, k, y) <==> SlotEntry(SlotOf(doc, Strip, s, One(v), k)) == y
    decreases Depth(Obj(v)), 0, 1
  {
    ArraySlotAt(doc, Strip, s, One(v), k);
    NeverFails(doc, Strip, s, One(v), k);
    var items := ObjectItems(doc, PropOf(doc, s, k)).value;
    var jobs, xs := ArrayJobs(doc, Strip, s, One(v), k), v[k].items;
    if y.Some? && y.value.Arr? && |y.value.items| == |xs| {
      var ys := y.value.items;
      forall i | 0 <= i < |xs|
        ensures ItemStrippedAs(doc, items, v, k, i, ys[i]) <==> JobOut(doc, Strip, items, jobs[i]) == Some(ys[i])
      {
        assert jobs[i] == SingleJob(xs[i]);
        if xs[i].Obj? && ys[i].Obj? {
          ItemDepth(v, k, i);
          StripMeans(doc, items, xs[i].fields, ys[i].fields);
          OnlyMergeFails(doc, Strip, items, One(xs[i].fields));
        }
      }
      SlotIsItems(doc, Strip, s, One(v), k, ys);
    }
  }

  lemma {:induction false} EntryStripped(doc: Doc, s: Schema, v: Dict, k: string, y: Option<Json>)
    requires Walkable(doc, s) && k in Considered(Strip, s, One(v))
    ensures StrippedAs(doc, s, v, k, y) <==> SlotEntry(SlotOf(doc, Strip, s, One(v), k)) == y
    decreases Depth(Obj(v)), Rank(doc, s), 2
  {
    if k in Known(s, One(v)) && Descends(PropOf(doc, s, k)) {
      ObjectSlotAt(doc, Strip, s, One(v), k);
      OnlyMergeFails(doc, Strip, PropOf(doc, s, k), One(Child(v, k)));
      if y.Some? && y.value.Obj? {
        StripMeans(doc, PropOf(doc, s, k), Child(v, k), y.value.fields);
      }
    } else if WalksArray(doc, Strip, s, One(v), k) {
      ArrayStripped(doc, s, v, k, y);
    } else {
      LeafStripped(doc, s, v, k, y);
    }
  }

  lemma {:induction false} LeafStripped(doc: Doc, s: Schema, v: Dict, k: string, y: Option<Json>)
    requires Walkable(doc, s) && k in Considered(Strip, s, One(v)) && !WalksArray(doc, Strip, s, One(v), k)
    requires k in Known(s, One(v)) ==> !Descends(PropOf(doc, s, k))
    ensures StrippedAs(doc, s, v, k, y) <==> SlotEntry(SlotOf(doc, Strip, s, One(v), k)) == y
  {
  }

  /** The stripped document is the one without any secret and with all else as it was. */
  lemma {:induction false} StripMeans(doc: Doc, s: Schema, v: Dict, m: Dict)
    requires Walkable(doc, s)
    ensures StripSecrets(doc, s, v) == m <==> IsStripped(doc, s, v, m)
    decreases Depth(Obj(v)), Rank(doc, s), 3
  {
    OnlyMergeFails(doc, Strip, s, One(v));
    assert Considered(Strip, s, One(v)) == s.properties.Keys + v.Keys;
    forall k | k in Considered(Strip, s, One(v))
      ensures !SlotOf(doc, Strip, s, One(v), k).Fail?
      ensures StrippedAs(doc, s, v, k, At(m, k)) <==> SlotEntry(SlotOf(doc, Strip, s, One(v), k)) == At(m, k)
    {
      NeverFails(doc, Strip, s, One(v), k);
      EntryStripped(doc, s, v, k, At(m, k));
    }
    WalkIs(doc, Strip, s, One(v), m);
  }
}
