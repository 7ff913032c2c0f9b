/** The masked view, entry by entry. */
module MaskMeaning {
  import opened Wrappers
  import opened JsonModel
  import opened ConfigSchema
  import opened SchemaWalker
  import opened ConfigMeaning

  /** `m` shows each secret as set or not, and everything else as stored. */
  predicate IsMask(doc: Doc, s: Schema, v: Dict, m: Dict)
    requires Walkable(doc, s)
    decreases Depth(Obj(v)), Rank(doc, s), 2
  {
    && m.Keys == s.properties.Keys + (if s.additional.Some? then v.Keys else {})
    && forall k | k in m :: ShownAs(doc, s, v, k, m[k])
  }

  predicate ShownAs(doc: Doc, s: Schema, v: Dict, k: string, y: Json)
    requires Walkable(doc, s) && (k in s.properties || (s.additional.Some? && k in v))
    decreases Depth(Obj(v)), Rank(doc, s), 1
  {
    var p := PropOf(doc, s, k);
    if MarkedSecret(p) then
      y == Str(if k in v && v[k].Str? && v[k].s != "" && v[k].s != "***" then "***" else "")
    else if p.typ.ObjectType? then
      ChildDepth(doc, s, One(v), k);
      y.Obj? && IsMask(doc, p, ObjectAt(v, k), y.fields)
    else if p.typ.ArrayType? && ObjectItems(doc, p).Some? && (k !in v || v[k].Arr?) then
      var xs := ItemsAt(v, k);
      && y.Arr? && |y.items| == |xs|
      && forall i | 0 <= i < |xs| :: ItemShownAs(doc, ObjectItems(doc, p).value, v, k, i, y.items[i])
    else y == EntryOr(v, k, if p.typ.ArrayType? then Arr([]) else Str(""))
  }

  predicate ItemShownAs(doc: Doc, items: Schema, v: Dict, k: string, i: nat, y: Json)
    requires Walkable(doc, items) && i < |ItemsAt(v, k)|
    decreases Depth(Obj(v)), 0, 0
  {
    ItemDepth(v, k, i);
    var x := v[k].items[i];
    if x.Obj? then y.Obj? && IsMask(doc, items, x.fields, y.fields) else y == x
  }

  lemma {:induction false} ArrayShown(doc: Doc, s: Schema, v: Dict, k: string, y: Json)
    requires Walkable(doc, s) && WalksArray(doc, Mask, s, One(v), k)
    ensures ShownAs(doc, s, v, k, y) <==> SlotOf(doc, Mask, s, One(v), k) == Keep(y)
    decreases Depth(Obj(v)), 0, 1
  {
    ArraySlotAt(doc, Mask, s, One(v), k);
    OnlyMergeFails(doc, Mask, s, One(v));
    WalkAt(doc, Mask, s, One(v), k);
    var items := ObjectItems(doc, PropOf(doc, s, k)).value;
    var jobs, xs := ArrayJobs(doc, Mask, s, One(v), k), ItemsAt(v, k);
    var shown := SlotOf(doc, Mask, s, One(v), k).value.items;
    forall i, z | 0 <= i < |xs| ensures ItemShownAs(doc, items, v, k, i, z) <==> z == shown[i] {
      assert jobs[i] == SingleJob(xs[i]);
      if xs[i].Obj? && z.Obj? {
        ItemDepth(v, k, i);
        MaskMeans(doc, items, xs[i].fields, z.fields);
      }
    }
    if y.Arr? && |y.items| == |xs| {
      assert y.items == shown <==> forall i :: 0 <= i < |xs| ==> y.items[i] == shown[i];
    }
  }

  lemma {:induction false} EntryShown(doc: Doc, s: Schema, v: Dict, k: string, y: Json)
    requires Walkable(doc, s) && k in Known(s, One(v))
    ensures ShownAs(doc, s, v, k, y) <==> SlotOf(doc, Mask, s, One(v), k) == Keep(y)
    decreases Depth(Obj(v)), Rank(doc, s), 2
  {
    if Descends(PropOf(doc, s, k)) {
      ObjectSlotAt(doc, Mask, s, One(v), k);
      OnlyMergeFails(doc, Mask, PropOf(doc, s, k), One(Child(v, k)));
      if y.Obj? {
        MaskMeans(doc, PropOf(doc, s, k), Child(v, k), y.fields);
      }
    } else if WalksArray(doc, Mask, s, One(v), k) {
      ArrayShown(doc, s, v, k, y);
    }
  }

  /** The masked view is the one document in which every secret is shown as set or not and all else as stored. */
  lemma {:induction false} MaskMeans(doc: Doc, s: Schema, v: Dict, m: Dict)
    requires Walkable(doc, s)
    ensures MaskSecrets(doc, s, v) == m <==> IsMask(doc, s, v, m)
    decreases Depth(Obj(v)), Rank(doc, s), 3
  {
    var r := MaskSecrets(doc, s, v);
    forall k | k in Known(s, One(v)) ensures k in r && (k in m ==> (ShownAs(doc, s, v, k, m[k]) <==> m[k] == r[k])) {
      MaskKeeps(doc, s, v, k);
      if k in m {
        EntryShown(doc, s, v, k, m[k]);
      }
    }
    MaskKnows(doc, s, v);
  }

  lemma MaskKnows(doc: Doc, s: Schema, v: Dict)
    requires Walkable(doc, s)
    ensures Known(s, One(v)) == s.properties.Keys + (if s.additional.Some? then v.Keys else {})
    ensures MaskSecrets(doc, s, v).Keys <= Known(s, One(v))
  {
    OnlyMergeFails(doc, Mask, s, One(v));
    WalkKeys(doc, Mask, s, One(v));
  }

  lemma MaskKeeps(doc: Doc, s: Schema, v: Dict, k: string)
    requires Walkable(doc, s) && k in Known(s, One(v))
    ensures k in MaskSecrets(doc, s, v) && SlotOf(doc, Mask, s, One(v), k) == Keep(MaskSecrets(doc, s, v)[k])
  {
    OnlyMergeFails(doc, Mask, s, One(v));
    WalkAt(doc, Mask, s, One(v), k);
    if WalksArray(doc, Mask, s, One(v), k) {
      ArraySlotAt(doc, Mask, s, One(v), k);
    }
  }
}
