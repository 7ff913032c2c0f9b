/** What the masked view of a configuration reveals, and what submitting it back does. */
module SecretMasking {
  import opened Wrappers
  import opened JsonModel
  import opened ConfigSchema
  import opened ValueCoercion
  import opened SchemaWalker

  // ---- The mask, key by key --------------------------------------------------------------------

  lemma MaskedKeys(doc: Doc, s: Schema, v: Dict)
    requires Walkable(doc, s)
    ensures MaskSecrets(doc, s, v).Keys == Known(s, One(v))
  {
    OnlyMergeFails(doc, Mask, s, One(v));
    WalkKeys(doc, Mask, s, One(v));
    forall k | k in Known(s, One(v)) ensures k in MaskSecrets(doc, s, v) {
      WalkAt(doc, Mask, s, One(v), k);
      if WalksArray(doc, Mask, s, One(v), k) {
        ArraySlotAt(doc, Mask, s, One(v), k);
      } else if Descends(PropOf(doc, s, k)) {
        ObjectSlotAt(doc, Mask, s, One(v), k);
      }
    }
  }

  lemma MaskedAt(doc: Doc, s: Schema, v: Dict, k: string)
    requires Walkable(doc, s) && k in Known(s, One(v))
    ensures k in MaskSecrets(doc, s, v)
    ensures SlotOf(doc, Mask, s, One(v), k) == Keep(MaskSecrets(doc, s, v)[k])
  {
    OnlyMergeFails(doc, Mask, s, One(v));
    MaskedKeys(doc, s, v);
    WalkAt(doc, Mask, s, One(v), k);
  }

  lemma MaskedObject(doc: Doc, s: Schema, v: Dict, k: string)
    requires Walkable(doc, s) && k in Known(s, One(v)) && Descends(PropOf(doc, s, k))
    ensures k in MaskSecrets(doc, s, v)
    ensures MaskSecrets(doc, s, v)[k] == Obj(MaskSecrets(doc, PropOf(doc, s, k), Child(v, k)))
  {
    MaskedAt(doc, s, v, k);
    ObjectSlotAt(doc, Mask, s, One(v), k);
    OnlyMergeFails(doc, Mask, PropOf(doc, s, k), One(Child(v, k)));
  }

  function MaskedItem(doc: Doc, items: Schema, x: Json): Json
    requires Walkable(doc, items)
  {
    if x.Obj? then Obj(MaskSecrets(doc, items, x.fields)) else x
  }

  lemma MaskedArray(doc: Doc, s: Schema, v: Dict, k: string) returns (items: Schema, ms: seq<Json>)
    requires Walkable(doc, s) && WalksArray(doc, Mask, s, One(v), k)
    ensures Get(v, k, Arr([])).Arr? && ObjectItems(doc, PropOf(doc, s, k)) == Some(items)
    ensures k in MaskSecrets(doc, s, v) && MaskSecrets(doc, s, v)[k] == Arr(ms)
    ensures var xs := Get(v, k, Arr([])).items;
      |ms| == |xs| && forall i :: 0 <= i < |xs| ==> ms[i] == MaskedItem(doc, items, xs[i])
  {
    MaskedAt(doc, s, v, k);
    ArraySlotAt(doc, Mask, s, One(v), k);
    items := ObjectItems(doc, PropOf(doc, s, k)).value;
    ms := MaskSecrets(doc, s, v)[k].items;
    var xs := Get(v, k, Arr([])).items;
    var jobs := ArrayJobs(doc, Mask, s, One(v), k);
    forall i | 0 <= i < |xs| ensures ms[i] == MaskedItem(doc, items, xs[i]) {
      assert jobs[i] == SingleJob(xs[i]);
      if xs[i].Obj? {
        OnlyMergeFails(doc, Mask, items, One(xs[i].fields));
      }
    }
  }

  // ---- Non-interference ------------------------------------------------------------------------

  /** All that the mask tells about a secret: whether a usable value is stored. */
  predicate IsSet(v: Dict, k: string) {
    k in v && v[k].Str? && v[k].s != "" && v[k].s != "***"
  }

  /**
   * Two configurations that agree outside the secret positions the walk reaches, agree there on
   * "set or not", and have the same map entries.
   */
  predicate Alike(doc: Doc, s: Schema, v: Dict, w: Dict)
    requires Walkable(doc, s)
    decreases Two(v, w).Depth(), Rank(doc, s), 1
  {
    && Known(s, One(v)) == Known(s, One(w))
    && forall k | k in Known(s, One(v)) :: AlikeAt(doc, s, v, w, k)
  }

  predicate AlikeAt(doc: Doc, s: Schema, v: Dict, w: Dict, k: string)
    requires Walkable(doc, s) && k in Known(s, One(v)) && k in Known(s, One(w))
    decreases Two(v, w).Depth(), Rank(doc, s), 0
  {
    var p := PropOf(doc, s, k);
    if IsSecret(p) then IsSet(v, k) == IsSet(w, k)
    else if p.typ.ObjectType? then
      ChildrenDescend(doc, s, v, w, k);
      Alike(doc, p, Child(v, k), Child(w, k))
    else if p.typ.ArrayType? then
      var a, b := Get(v, k, Arr([])), Get(w, k, Arr([]));
      var items := ObjectItems(doc, p);
      if a.Arr? && b.Arr? && items.Some? then
        && |a.items| == |b.items|
        && forall i | 0 <= i < |a.items| ::
             if a.items[i].Obj? && b.items[i].Obj? then
               ItemOfFieldShallower(v, k, i);
               ItemOfFieldShallower(w, k, i);
               Alike(doc, items.value, a.items[i].fields, b.items[i].fields)
             else a.items[i] == b.items[i]
      else a == b
    else Get(v, k, Str("")) == Get(w, k, Str(""))
  }

  lemma ChildrenDescend(doc: Doc, s: Schema, v: Dict, w: Dict, k: string)
    requires Walkable(doc, s) && k in Known(s, One(v)) && k in Known(s, One(w)) && Descends(PropOf(doc, s, k))
    ensures Two(Child(v, k), Child(w, k)).Depth() <= Two(v, w).Depth()
    ensures Two(Child(v, k), Child(w, k)).Depth() < Two(v, w).Depth()
      || Rank(doc, PropOf(doc, s, k)) < Rank(doc, s)
  {
    ObjectSlotAt(doc, Restore, s, Two(v, w), k);
  }

  lemma {:induction false} ArrayNonInterference(doc: Doc, s: Schema, v: Dict, w: Dict, k: string)
    requires Walkable(doc, s) && WalksArray(doc, Mask, s, One(v), k) && WalksArray(doc, Mask, s, One(w), k)
    ensures MaskSecrets(doc, s, v).Keys == Known(s, One(v)) && MaskSecrets(doc, s, w).Keys == Known(s, One(w))
    ensures MaskSecrets(doc, s, v)[k] == MaskSecrets(doc, s, w)[k] <==> AlikeAt(doc, s, v, w, k)
    decreases Two(v, w).Depth(), 0, 1
  {
    MaskedKeys(doc, s, v);
    MaskedKeys(doc, s, w);
    var items, ms := MaskedArray(doc, s, v, k);
    var _, ns := MaskedArray(doc, s, w, k);
    var xs, ys := Get(v, k, Arr([])).items, Get(w, k, Arr([])).items;
    if |xs| == |ys| {
      forall i | 0 <= i < |xs|
        ensures ms[i] == ns[i] <==>
          if xs[i].Obj? && ys[i].Obj? then Alike(doc, items, xs[i].fields, ys[i].fields) else xs[i] == ys[i]
      {
        if k in v { ItemOfFieldShallower(v, k, i); }
        if k in w { ItemOfFieldShallower(w, k, i); }
        ItemNonInterference(doc, items, xs[i], ys[i], Two(v, w).Depth());
      }
      assert ms == ns <==> forall i :: 0 <= i < |xs| ==> ms[i] == ns[i];
    }
  }

  lemma {:induction false} ItemNonInterference(doc: Doc, items: Schema, x: Json, y: Json, depth: nat)
    requires Walkable(doc, items) && Depth(x) < depth && Depth(y) < depth
    ensures MaskedItem(doc, items, x) == MaskedItem(doc, items, y) <==>
      if x.Obj? && y.Obj? then Alike(doc, items, x.fields, y.fields) else x == y
    decreases depth, 0, 0
  {
    if x.Obj? && y.Obj? {
      NonInterference(doc, items, x.fields, y.fields);
    }
  }

  lemma {:induction false} KeyNonInterference(doc: Doc, s: Schema, v: Dict, w: Dict, k: string)
    requires Walkable(doc, s) && k in Known(s, One(v)) && k in Known(s, One(w))
    ensures k in MaskSecrets(doc, s, v) && k in MaskSecrets(doc, s, w)
    ensures MaskSecrets(doc, s, v)[k] == MaskSecrets(doc, s, w)[k] <==> AlikeAt(doc, s, v, w, k)
    decreases Two(v, w).Depth(), Rank(doc, s), 2
  {
    var p := PropOf(doc, s, k);
    if Descends(p) {
      MaskedObject(doc, s, v, k);
      MaskedObject(doc, s, w, k);
      ChildrenDescend(doc, s, v, w, k);
      NonInterference(doc, p, Child(v, k), Child(w, k));
    } else if WalksArray(doc, Mask, s, One(v), k) && WalksArray(doc, Mask, s, One(w), k) {
      MaskedAt(doc, s, v, k);
      MaskedAt(doc, s, w, k);
      ArrayNonInterference(doc, s, v, w, k);
    } else {
      LeafNonInterference(doc, s, v, w, k);
    }
  }

  lemma {:induction false} LeafNonInterference(doc: Doc, s: Schema, v: Dict, w: Dict, k: string)
    requires Walkable(doc, s) && k in Known(s, One(v)) && k in Known(s, One(w)) && !Descends(PropOf(doc, s, k))
    requires !(WalksArray(doc, Mask, s, One(v), k) && WalksArray(doc, Mask, s, One(w), k))
    ensures k in MaskSecrets(doc, s, v) && k in MaskSecrets(doc, s, w)
    ensures MaskSecrets(doc, s, v)[k] == MaskSecrets(doc, s, w)[k] <==> AlikeAt(doc, s, v, w, k)
  {
    MaskedAt(doc, s, v, k);
    MaskedAt(doc, s, w, k);
    if WalksArray(doc, Mask, s, One(v), k) {
      ArraySlotAt(doc, Mask, s, One(v), k);
    } else if WalksArray(doc, Mask, s, One(w), k) {
      ArraySlotAt(doc, Mask, s, One(w), k);
    }
  }

  /** Two configurations mask to the same document exactly when they are alike: nothing leaks, nothing else is lost. */
  lemma {:induction false} NonInterference(doc: Doc, s: Schema, v: Dict, w: Dict)
    requires Walkable(doc, s)
    ensures MaskSecrets(doc, s, v) == MaskSecrets(doc, s, w) <==> Alike(doc, s, v, w)
    decreases Two(v, w).Depth(), Rank(doc, s), 3
  {
    var a, b := MaskSecrets(doc, s, v), MaskSecrets(doc, s, w);
    MaskedKeys(doc, s, v);
    MaskedKeys(doc, s, w);
    if Known(s, One(v)) == Known(s, One(w)) {
      forall k | k in Known(s, One(v)) ensures a[k] == b[k] <==> AlikeAt(doc, s, v, w, k) {
        KeyNonInterference(doc, s, v, w, k);
      }
    }
  }

  // ---- Submitting the masked view back ---------------------------------------------------------

  function Resubmit(doc: Doc, s: Schema, rt: Runtime, prefer: bool, v: Dict): Option<Dict>
    requires Walkable(doc, s)
  {
    MergeConfig(doc, s, rt, prefer, v, MaskSecrets(doc, s, v))
  }

  lemma ResubmittedKeys(doc: Doc, s: Schema, rt: Runtime, prefer: bool, v: Dict)
    requires Walkable(doc, s)
    ensures Known(s, Two(v, MaskSecrets(doc, s, v))) == Known(s, One(v))
  {
    MaskedKeys(doc, s, v);
  }

  function ResubmitSlot(doc: Doc, s: Schema, rt: Runtime, prefer: bool, v: Dict, k: string): Slot
    requires Walkable(doc, s) && k in Known(s, One(v))
  {
    ResubmittedKeys(doc, s, rt, prefer, v);
    SlotOf(doc, Merge(rt, prefer), s, Two(v, MaskSecrets(doc, s, v)), k)
  }

  lemma ResubmitLeaf(doc: Doc, s: Schema, rt: Runtime, prefer: bool, v: Dict, k: string)
    requires Walkable(doc, s) && k in Known(s, One(v)) && !Descends(PropOf(doc, s, k))
    requires !WalksArray(doc, Mask, s, One(v), k)
    ensures var p := PropOf(doc, s, k);
      ResubmitSlot(doc, s, rt, prefer, v, k) ==
        if IsSecret(p) then Keep(Get(v, k, Str("")))
        else if p.typ.ArrayType? then Keep(Get(v, k, Arr([])))
        else Scalar(Merge(rt, prefer), p, k, Two(v, map[k := Get(v, k, Str(""))]))
  {
    ResubmittedKeys(doc, s, rt, prefer, v);
    MaskedAt(doc, s, v, k);
  }

  lemma ResubmitObject(doc: Doc, s: Schema, rt: Runtime, prefer: bool, v: Dict, k: string)
    requires Walkable(doc, s) && k in Known(s, One(v)) && Descends(PropOf(doc, s, k))
    ensures ResubmitSlot(doc, s, rt, prefer, v, k) ==
      ObjectSlot(Resubmit(doc, PropOf(doc, s, k), rt, prefer, Child(v, k)))
  {
    ResubmittedKeys(doc, s, rt, prefer, v);
    MaskedObject(doc, s, v, k);
    ObjectSlotAt(doc, Merge(rt, prefer), s, Two(v, MaskSecrets(doc, s, v)), k);
  }

  function ResubmittedItem(doc: Doc, items: Schema, rt: Runtime, prefer: bool, x: Json): Option<Json>
    requires Walkable(doc, items)
  {
    if x.Obj? then Wrapped(Resubmit(doc, items, rt, prefer, x.fields)) else Some(x)
  }

  lemma ResubmitArray(doc: Doc, s: Schema, rt: Runtime, prefer: bool, v: Dict, k: string) returns (items: Schema)
    requires Walkable(doc, s) && WalksArray(doc, Mask, s, One(v), k)
    ensures ObjectItems(doc, PropOf(doc, s, k)) == Some(items) && Get(v, k, Arr([])).Arr?
    ensures var xs := Get(v, k, Arr([])).items;
      match ResubmitSlot(doc, s, rt, prefer, v, k)
      case Skip => false
      case Fail => exists i :: 0 <= i < |xs| && ResubmittedItem(doc, items, rt, prefer, xs[i]).None?
      case Keep(y) => (
        && y.Arr? && |y.items| == |xs|
        && forall i :: 0 <= i < |xs| ==> ResubmittedItem(doc, items, rt, prefer, xs[i]) == Some(y.items[i]))
  {
    var vals := Two(v, MaskSecrets(doc, s, v));
    ResubmittedKeys(doc, s, rt, prefer, v);
    var ms;
    items, ms := MaskedArray(doc, s, v, k);
    var xs := Get(v, k, Arr([])).items;
    assert WalksArray(doc, Merge(rt, prefer), s, vals, k);
    ArraySlotAt(doc, Merge(rt, prefer), s, vals, k);
    var jobs := ArrayJobs(doc, Merge(rt, prefer), s, vals, k);
    assert Items(Get(v, k, Null)) == xs;
    forall i | 0 <= i < |xs|
      ensures JobOut(doc, Merge(rt, prefer), items, jobs[i]) == ResubmittedItem(doc, items, rt, prefer, xs[i])
    {
      assert jobs[i] == MergeJob(xs, ms[i], i);
      assert ms[i] == MaskedItem(doc, items, xs[i]);
    }
  }

  /** Every secret position the walk reaches in `v` holds in `r` the value stored in `v`. */
  predicate SecretsKept(doc: Doc, s: Schema, v: Dict, r: Dict)
    requires Walkable(doc, s)
    decreases Depth(Obj(v)), Rank(doc, s), 1
  {
    forall k | k in Known(s, One(v)) :: k in r && SecretsKeptAt(doc, s, v, k, r[k])
  }

  predicate SecretsKeptAt(doc: Doc, s: Schema, v: Dict, k: string, y: Json)
    requires Walkable(doc, s) && k in Known(s, One(v))
    decreases Depth(Obj(v)), Rank(doc, s), 0
  {
    var p := PropOf(doc, s, k);
    if IsSecret(p) then y == Get(v, k, Str(""))
    else if p.typ.ObjectType? then
      ObjectSlotAt(doc, Mask, s, One(v), k);
      y.Obj? && SecretsKept(doc, p, Child(v, k), y.fields)
    else if p.typ.ArrayType? && k in v && v[k].Arr? && ObjectItems(doc, p).Some? then
      && y.Arr? && |y.items| == |v[k].items|
      && forall i | 0 <= i < |v[k].items| && v[k].items[i].Obj? ::
           ItemOfFieldShallower(v, k, i);
           y.items[i].Obj? && SecretsKept(doc, ObjectItems(doc, p).value, v[k].items[i].fields, y.items[i].fields)
    else true
  }

  /** Whenever saving the masked view succeeds, no stored secret is lost or altered. */
  lemma {:induction false} ResubmitKeepsSecrets(doc: Doc, s: Schema, rt: Runtime, prefer: bool, v: Dict)
    requires Walkable(doc, s) && Resubmit(doc, s, rt, prefer, v).Some?
    ensures SecretsKept(doc, s, v, Resubmit(doc, s, rt, prefer, v).value)
    decreases Depth(Obj(v)), Rank(doc, s), 2
  {
    var r := Resubmit(doc, s, rt, prefer, v).value;
    ResubmittedKeys(doc, s, rt, prefer, v);
    forall k | k in Known(s, One(v)) ensures k in r && SecretsKeptAt(doc, s, v, k, r[k]) {
      WalkAt(doc, Merge(rt, prefer), s, Two(v, MaskSecrets(doc, s, v)), k);
      MergeNeverSkips(doc, rt, prefer, s, Two(v, MaskSecrets(doc, s, v)), k);
      KeyKeepsSecrets(doc, s, rt, prefer, v, k, r[k]);
    }
  }

  lemma {:induction false} KeyKeepsSecrets(doc: Doc, s: Schema, rt: Runtime, prefer: bool, v: Dict, k: string, y: Json)
    requires Walkable(doc, s) && k in Known(s, One(v)) && ResubmitSlot(doc, s, rt, prefer, v, k) == Keep(y)
    ensures SecretsKeptAt(doc, s, v, k, y)
    decreases Depth(Obj(v)), Rank(doc, s), 1
  {
    if Descends(PropOf(doc, s, k)) {
      ObjectKeepsSecrets(doc, s, rt, prefer, v, k, y);
    } else if WalksArray(doc, Mask, s, One(v), k) {
      ArrayKeepsSecrets(doc, s, rt, prefer, v, k, y);
    } else {
      ResubmitLeaf(doc, s, rt, prefer, v, k);
    }
  }

  lemma {:induction false} ObjectKeepsSecrets(doc: Doc, s: Schema, rt: Runtime, prefer: bool, v: Dict, k: string,
                                              y: Json)
    requires Walkable(doc, s) && k in Known(s, One(v)) && Descends(PropOf(doc, s, k))
    requires ResubmitSlot(doc, s, rt, prefer, v, k) == Keep(y)
    ensures SecretsKeptAt(doc, s, v, k, y)
    decreases Depth(Obj(v)), Rank(doc, s), 0
  {
    ResubmitObject(doc, s, rt, prefer, v, k);
    ObjectSlotAt(doc, Mask, s, One(v), k);
    ResubmitKeepsSecrets(doc, PropOf(doc, s, k), rt, prefer, Child(v, k));
  }

  lemma {:induction false} ArrayKeepsSecrets(doc: Doc, s: Schema, rt: Runtime, prefer: bool, v: Dict, k: string,
                                             y: Json)
    requires Walkable(doc, s) && WalksArray(doc, Mask, s, One(v), k)
    requires ResubmitSlot(doc, s, rt, prefer, v, k) == Keep(y)
    ensures SecretsKeptAt(doc, s, v, k, y)
    decreases Depth(Obj(v)), 0, 0
  {
    var items := ResubmitArray(doc, s, rt, prefer, v, k);
    if k in v {
      forall i | 0 <= i < |v[k].items| && v[k].items[i].Obj?
        ensures y.items[i].Obj? && Depth(v[k].items[i]) < Depth(Obj(v))
        ensures SecretsKept(doc, items, v[k].items[i].fields, y.items[i].fields)
      {
        ItemOfFieldShallower(v, k, i);
        assert ResubmittedItem(doc, items, rt, prefer, v[k].items[i]) == Some(y.items[i]);
        ResubmitKeepsSecrets(doc, items, rt, prefer, v[k].items[i].fields);
      }
    }
  }

  /**
   * The configurations that saving their own masked view leaves as they are: complete, without
   * unknown keys, every scalar already of its declared type, and a null only where a null
   * submission means null.
   */
  predicate Settled(doc: Doc, s: Schema, rt: Runtime, prefer: bool, v: Dict)
    requires Walkable(doc, s)
    decreases Depth(Obj(v)), Rank(doc, s), 1
  {
    && v.Keys == Known(s, One(v))
    && forall k | k in v :: SettledAt(doc, s, rt, prefer, v, k)
  }

  predicate SettledAt(doc: Doc, s: Schema, rt: Runtime, prefer: bool, v: Dict, k: string)
    requires Walkable(doc, s) && k in v && k in Known(s, One(v))
    decreases Depth(Obj(v)), Rank(doc, s), 0
  {
    var p := PropOf(doc, s, k);
    if IsSecret(p) then true
    else if p.typ.ObjectType? then
      v[k].Obj? && (FieldShallower(v, k); Settled(doc, p, rt, prefer, v[k].fields))
    else if p.typ.ArrayType? then
      v[k].Arr? && ObjectItems(doc, p).Some? ==>
        forall i | 0 <= i < |v[k].items| && v[k].items[i].Obj? ::
          ItemOfFieldShallower(v, k, i);
          Settled(doc, ObjectItems(doc, p).value, rt, prefer, v[k].items[i].fields)
    else if v[k] == Null then prefer || p.default.GetOr(Null) == Null
    else Coerce(rt, p.typ, v[k]) == Some(v[k])
  }

  lemma {:induction false} ResubmitAtKey(doc: Doc, s: Schema, rt: Runtime, prefer: bool, v: Dict, k: string)
    requires Walkable(doc, s) && k in v && k in Known(s, One(v))
    ensures SettledAt(doc, s, rt, prefer, v, k) <==> ResubmitSlot(doc, s, rt, prefer, v, k) == Keep(v[k])
    decreases Depth(Obj(v)), Rank(doc, s), 1
  {
    if Descends(PropOf(doc, s, k)) {
      ResubmitObjectAtKey(doc, s, rt, prefer, v, k);
    } else if WalksArray(doc, Mask, s, One(v), k) {
      ResubmitArrayAtKey(doc, s, rt, prefer, v, k);
    } else {
      ResubmitLeafAtKey(doc, s, rt, prefer, v, k);
    }
  }

  lemma {:induction false} ResubmitLeafAtKey(doc: Doc, s: Schema, rt: Runtime, prefer: bool, v: Dict, k: string)
    requires Walkable(doc, s) && k in v && k in Known(s, One(v))
    requires !Descends(PropOf(doc, s, k)) && !WalksArray(doc, Mask, s, One(v), k)
    ensures SettledAt(doc, s, rt, prefer, v, k) <==> ResubmitSlot(doc, s, rt, prefer, v, k) == Keep(v[k])
  {
    ResubmitLeaf(doc, s, rt, prefer, v, k);
    ScalarSettles(rt, prefer, PropOf(doc, s, k), v, k);
  }

  lemma ScalarSettles(rt: Runtime, prefer: bool, p: Schema, v: Dict, k: string)
    requires k in v
    ensures Scalar(Merge(rt, prefer), p, k, Two(v, map[k := v[k]])) == Keep(v[k]) <==>
      if v[k] == Null then prefer || p.default.GetOr(Null) == Null else Coerce(rt, p.typ, v[k]) == Some(v[k])
  {
  }

  lemma {:induction false} ResubmitObjectAtKey(doc: Doc, s: Schema, rt: Runtime, prefer: bool, v: Dict, k: string)
    requires Walkable(doc, s) && k in v && k in Known(s, One(v)) && Descends(PropOf(doc, s, k))
    ensures SettledAt(doc, s, rt, prefer, v, k) <==> ResubmitSlot(doc, s, rt, prefer, v, k) == Keep(v[k])
    decreases Depth(Obj(v)), Rank(doc, s), 0
  {
    ResubmitObject(doc, s, rt, prefer, v, k);
    FieldShallower(v, k);
    if v[k].Obj? {
      ResubmitIsIdentity(doc, PropOf(doc, s, k), rt, prefer, v[k].fields);
    }
  }

  lemma {:induction false} ResubmitArrayAtKey(doc: Doc, s: Schema, rt: Runtime, prefer: bool, v: Dict, k: string)
    requires Walkable(doc, s) && k in v && WalksArray(doc, Mask, s, One(v), k)
    ensures SettledAt(doc, s, rt, prefer, v, k) <==> ResubmitSlot(doc, s, rt, prefer, v, k) == Keep(v[k])
    decreases Depth(Obj(v)), 0, 0
  {
    var items := ResubmitArray(doc, s, rt, prefer, v, k);
    var xs := v[k].items;
    forall i | 0 <= i < |xs|
      ensures ResubmittedItem(doc, items, rt, prefer, xs[i]) == Some(xs[i]) <==>
        (xs[i].Obj? ==> Settled(doc, items, rt, prefer, xs[i].fields))
    {
      ItemOfFieldShallower(v, k, i);
      if xs[i].Obj? {
        ResubmitIsIdentity(doc, items, rt, prefer, xs[i].fields);
      }
    }
    var slot := ResubmitSlot(doc, s, rt, prefer, v, k);
    if slot.Keep? {
      assert slot.value.items == xs <==> forall i :: 0 <= i < |xs| ==> slot.value.items[i] == xs[i];
    }
  }

  /** Saving the masked view changes nothing exactly on the settled configurations. */
  lemma {:induction false} ResubmitIsIdentity(doc: Doc, s: Schema, rt: Runtime, prefer: bool, v: Dict)
    requires Walkable(doc, s)
    ensures Resubmit(doc, s, rt, prefer, v) == Some(v) <==> Settled(doc, s, rt, prefer, v)
    decreases Depth(Obj(v)), Rank(doc, s), 2
  {
    var vis, vals := Merge(rt, prefer), Two(v, MaskSecrets(doc, s, v));
    ResubmittedKeys(doc, s, rt, prefer, v);
    forall k | k in v && k in Known(s, One(v))
      ensures SettledAt(doc, s, rt, prefer, v, k) <==> SlotOf(doc, vis, s, vals, k) == Keep(v[k])
    {
      ResubmitAtKey(doc, s, rt, prefer, v, k);
    }
    if Resubmit(doc, s, rt, prefer, v) == Some(v) {
      forall k | k in Known(s, One(v)) ensures k in v && SlotOf(doc, vis, s, vals, k) == Keep(v[k]) {
        WalkAt(doc, vis, s, vals, k);
        MergeNeverSkips(doc, rt, prefer, s, vals, k);
      }
      WalkKeys(doc, vis, s, vals);
    }
    if Settled(doc, s, rt, prefer, v) {
      assert Considered(vis, s, vals) == v.Keys;
      SameEntries(Walk(doc, vis, s, vals).value, v);
    }
  }
}
