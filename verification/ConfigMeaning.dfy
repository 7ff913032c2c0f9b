/**
 * What the descriptions of the four operations share.  Each of them says, on the documents alone, what
 * the operation leaves at every entry the walk reaches, and holds of exactly one document: its result.
 */
module ConfigMeaning {
  import opened Wrappers
  import opened JsonModel
  import opened ConfigSchema
  import opened SchemaWalker

  predicate MarkedSecret(p: Schema) {
    p.format == "password" && p.writeOnly
  }

  function EntryOr(d: Dict, k: string, default: Json): Json {
    if k in d then d[k] else default
  }

  /** The object at a key; anything else counts as the empty object. */
  function ObjectAt(d: Dict, k: string): (c: Dict)
    ensures c == Child(d, k)
  {
    if k in d && d[k].Obj? then d[k].fields else map[]
  }

  function ItemsAt(d: Dict, k: string): seq<Json> {
    if k in d && d[k].Arr? then d[k].items else []
  }

  /** The object at an index; anything else counts as the empty object. */
  function ObjectOf(xs: seq<Json>, i: nat): Dict {
    if i < |xs| && xs[i].Obj? then xs[i].fields else map[]
  }

  predicate IsArrayAt(d: Dict, k: string) {
    k in d && d[k].Arr?
  }

  lemma ItemDepth(d: Dict, k: string, i: nat)
    requires IsArrayAt(d, k)
    ensures Depth(Obj(ObjectOf(d[k].items, i))) < Depth(Obj(d))
  {
    if i < |d[k].items| {
      ItemOfFieldShallower(d, k, i);
    } else {
      FieldShallower(d, k);
      KeyDeepens(map[]);
      KeyDeepens(d);
    }
  }

  lemma ChildDepth(doc: Doc, s: Schema, vals: Values, k: string)
    requires Walkable(doc, s) && k in Known(s, vals) && Descends(PropOf(doc, s, k))
    ensures Children(vals, k).Depth() <= vals.Depth()
    ensures Children(vals, k).Depth() < vals.Depth() || Rank(doc, PropOf(doc, s, k)) < Rank(doc, s)
  {
    if k in s.properties {
      RankDecreases(doc, s, k);
    }
  }

  /** An array slot holds exactly the items that its jobs give. */
  lemma SlotIsItems(doc: Doc, vis: Visitor, s: Schema, vals: Values, k: string, ys: seq<Json>)
    requires Walkable(doc, s) && Suits(vis, vals) && WalksArray(doc, vis, s, vals, k)
    requires |ys| == |ArrayJobs(doc, vis, s, vals, k)|
    ensures var items, jobs := ObjectItems(doc, PropOf(doc, s, k)), ArrayJobs(doc, vis, s, vals, k);
      && items.Some? && (forall i :: 0 <= i < |jobs| && jobs[i].Recur? ==> Suits(vis, jobs[i].vals))
      && (SlotOf(doc, vis, s, vals, k) == Keep(Arr(ys)) <==>
            forall i :: 0 <= i < |ys| ==> JobOut(doc, vis, items.value, jobs[i]) == Some(ys[i]))
  {
    ArraySlotAt(doc, vis, s, vals, k);
    var slot := SlotOf(doc, vis, s, vals, k);
    if slot.Keep? {
      assert slot.value.items == ys <==> forall i :: 0 <= i < |ys| ==> slot.value.items[i] == ys[i];
    }
  }

  /** A walk succeeds with `m` exactly when no slot fails and every slot is the entry of `m`. */
  lemma WalkIs(doc: Doc, vis: Visitor, s: Schema, vals: Values, m: Dict)
    requires Walkable(doc, s) && Suits(vis, vals)
    ensures Walk(doc, vis, s, vals) == Some(m) <==>
      && m.Keys <= Considered(vis, s, vals)
      && forall k :: k in Considered(vis, s, vals) ==>
           !SlotOf(doc, vis, s, vals, k).Fail? && SlotEntry(SlotOf(doc, vis, s, vals, k)) == At(m, k)
  {
    if Walk(doc, vis, s, vals).Some? {
      var r := Walk(doc, vis, s, vals).value;
      WalkKeys(doc, vis, s, vals);
      forall k
        ensures At(r, k) == if k in Considered(vis, s, vals) then SlotEntry(SlotOf(doc, vis, s, vals, k)) else None
      {
        WalkAt(doc, vis, s, vals, k);
      }
      forall k | k in Considered(vis, s, vals) ensures !SlotOf(doc, vis, s, vals, k).Fail? {
        WalkAt(doc, vis, s, vals, k);
      }
      SameEntries(r, m);
    }
  }

  lemma NeverFails(doc: Doc, vis: Visitor, s: Schema, vals: Values, k: string)
    requires Walkable(doc, s) && Suits(vis, vals) && !vis.Merge? && k in Considered(vis, s, vals)
    ensures !SlotOf(doc, vis, s, vals, k).Fail?
  {
    OnlyMergeFails(doc, vis, s, vals);
    WalkAt(doc, vis, s, vals, k);
  }
}
