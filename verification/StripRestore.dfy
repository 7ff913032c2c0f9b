/** Stripping secrets out of a configuration and restoring them from the live one. */
module StripRestore {
  import opened Wrappers
  import opened JsonModel
  import opened ConfigSchema
  import opened SchemaWalker

  /**
   * The values on which the round trip is the identity: no key the schema does not know, every
   * declared object present as an object, every declared array present, and the same below.
   */
  predicate Complete(doc: Doc, s: Schema, v: Dict)
    requires Walkable(doc, s)
    decreases Depth(Obj(v)), Rank(doc, s), 1
  {
    && v.Keys <= Known(s, One(v))
    && forall k | k in Known(s, One(v)) :: CompleteAt(doc, s, v, k)
  }

  predicate CompleteAt(doc: Doc, s: Schema, v: Dict, k: string)
    requires Walkable(doc, s) && k in Known(s, One(v))
    decreases Depth(Obj(v)), Rank(doc, s), 0
  {
    var p := PropOf(doc, s, k);
    if IsSecret(p) then true
    else if p.typ.ObjectType? then
      k in v && v[k].Obj? && (FieldShallower(v, k); Complete(doc, p, v[k].fields))
    else if p.typ.ArrayType? then
      var items := ObjectItems(doc, p);
      k in v && (v[k].Arr? && items.Some? ==>
        forall i | 0 <= i < |v[k].items| && v[k].items[i].Obj? ::
          ItemOfFieldShallower(v, k, i);
          Complete(doc, items.value, v[k].items[i].fields))
    else true
  }

  lemma StrippedKeys(doc: Doc, s: Schema, v: Dict)
    requires Walkable(doc, s)
    ensures Known(s, Two(StripSecrets(doc, s, v), v)) == Known(s, One(v))
  {
    OnlyMergeFails(doc, Strip, s, One(v));
    WalkKeys(doc, Strip, s, One(v));
  }

  /** What the round trip leaves at one key. */
  function RoundTripAt(doc: Doc, s: Schema, v: Dict, k: string): Option<Json>
    requires Walkable(doc, s)
  {
    At(RestoreSecrets(doc, s, StripSecrets(doc, s, v), v), k)
  }

  /** The strip slot and the restore slot of one known key. */
  lemma Slots(doc: Doc, s: Schema, v: Dict, k: string)
    requires Walkable(doc, s) && k in Known(s, One(v))
    ensures var st := StripSecrets(doc, s, v);
      && At(st, k) == SlotEntry(SlotOf(doc, Strip, s, One(v), k))
      && k in Known(s, Two(st, v))
      && RoundTripAt(doc, s, v, k) == SlotEntry(SlotOf(doc, Restore, s, Two(st, v), k))
  {
    var st := StripSecrets(doc, s, v);
    StrippedKeys(doc, s, v);
    OnlyMergeFails(doc, Strip, s, One(v));
    OnlyMergeFails(doc, Restore, s, Two(st, v));
    WalkAt(doc, Strip, s, One(v), k);
    WalkAt(doc, Restore, s, Two(st, v), k);
  }

  lemma LeafRoundTrip(doc: Doc, s: Schema, v: Dict, k: string)
    requires Walkable(doc, s) && k in Known(s, One(v))
    requires !Descends(PropOf(doc, s, k)) && !WalksArray(doc, Strip, s, One(v), k)
    ensures CompleteAt(doc, s, v, k) <==> RoundTripAt(doc, s, v, k) == At(v, k)
  {
    Slots(doc, s, v, k);
  }

  /** The round trip of a declared object is that of its child, absent and misplaced ones taken as empty. */
  lemma {:induction false} ObjectComesBack(doc: Doc, s: Schema, v: Dict, k: string)
    requires Walkable(doc, s) && k in Known(s, One(v)) && Descends(PropOf(doc, s, k))
    ensures var p, c := PropOf(doc, s, k), Child(v, k);
      RoundTripAt(doc, s, v, k) == Some(Obj(RestoreSecrets(doc, p, StripSecrets(doc, p, c), c)))
  {
    var p, st, c := PropOf(doc, s, k), StripSecrets(doc, s, v), Child(v, k);
    Slots(doc, s, v, k);
    ObjectSlotAt(doc, Strip, s, One(v), k);
    ObjectSlotAt(doc, Restore, s, Two(st, v), k);
    assert Children(One(v), k) == One(c);
    OnlyMergeFails(doc, Strip, p, One(c));
    assert At(st, k) == Some(Obj(StripSecrets(doc, p, c)));
    assert Children(Two(st, v), k) == Two(StripSecrets(doc, p, c), c);
    OnlyMergeFails(doc, Restore, p, Two(StripSecrets(doc, p, c), c));
  }

  lemma {:induction false} ObjectRoundTrip(doc: Doc, s: Schema, v: Dict, k: string)
    requires Walkable(doc, s) && k in Known(s, One(v)) && Descends(PropOf(doc, s, k))
    ensures CompleteAt(doc, s, v, k) <==> RoundTripAt(doc, s, v, k) == At(v, k)
    decreases Depth(Obj(v)), Rank(doc, s), 0
  {
    ObjectComesBack(doc, s, v, k);
    ObjectSlotAt(doc, Strip, s, One(v), k);
    RoundTrip(doc, PropOf(doc, s, k), Child(v, k));
  }

  lemma StripArray(doc: Doc, s: Schema, v: Dict, k: string) returns (items: Schema, ts: seq<Json>)
    requires Walkable(doc, s) && WalksArray(doc, Strip, s, One(v), k)
    ensures k in v && v[k].Arr? && ObjectItems(doc, PropOf(doc, s, k)) == Some(items)
    ensures SlotOf(doc, Strip, s, One(v), k) == Keep(Arr(ts)) && |ts| == |v[k].items|
    ensures forall i :: 0 <= i < |ts| ==>
      JobOut(doc, Strip, items, SingleJob(v[k].items[i])) == Some(ts[i])
  {
    OnlyMergeFails(doc, Strip, s, One(v));
    WalkAt(doc, Strip, s, One(v), k);
    ArraySlotAt(doc, Strip, s, One(v), k);
    items := ObjectItems(doc, PropOf(doc, s, k)).value;
    ts := SlotOf(doc, Strip, s, One(v), k).value.items;
    var jobs := ArrayJobs(doc, Strip, s, One(v), k);
    assert forall i :: 0 <= i < |jobs| ==> jobs[i] == SingleJob(v[k].items[i]);
  }

  lemma RestoreArray(doc: Doc, s: Schema, vals: Values, k: string) returns (ys: seq<Json>)
    requires Walkable(doc, s) && vals.Two? && WalksArray(doc, Restore, s, vals, k)
    ensures k in vals.fst && vals.fst[k].Arr? && k in vals.snd && vals.snd[k].Arr?
    ensures ObjectItems(doc, PropOf(doc, s, k)).Some?
    ensures SlotOf(doc, Restore, s, vals, k) == Keep(Arr(ys)) && |ys| == |vals.fst[k].items|
    ensures forall i :: 0 <= i < |ys| ==>
      JobOut(doc, Restore, ObjectItems(doc, PropOf(doc, s, k)).value,
             RestoreJob(vals.fst[k].items[i], vals.snd[k].items, i)) == Some(ys[i])
  {
    OnlyMergeFails(doc, Restore, s, vals);
    WalkAt(doc, Restore, s, vals, k);
    ArraySlotAt(doc, Restore, s, vals, k);
    ys := SlotOf(doc, Restore, s, vals, k).value.items;
    var jobs := ArrayJobs(doc, Restore, s, vals, k);
    assert forall i :: 0 <= i < |jobs| ==> jobs[i] == RestoreJob(vals.fst[k].items[i], vals.snd[k].items, i);
  }

  lemma {:induction false} ArrayRoundTrip(doc: Doc, s: Schema, v: Dict, k: string)
    requires Walkable(doc, s) && k in Known(s, One(v)) && WalksArray(doc, Strip, s, One(v), k)
    ensures CompleteAt(doc, s, v, k) <==> RoundTripAt(doc, s, v, k) == At(v, k)
    decreases Depth(Obj(v)), 0, 0
  {
    Slots(doc, s, v, k);
    var items, ts := StripArray(doc, s, v, k);
    var ys := RestoreArray(doc, s, Two(StripSecrets(doc, s, v), v), k);
    var xs := v[k].items;
    forall i | 0 <= i < |xs|
      ensures ys[i] == xs[i] <==> (xs[i].Obj? ==> Complete(doc, items, xs[i].fields))
    {
      ItemRoundTrip(doc, items, v, k, i, ts[i], ys[i]);
    }
    assert ys == xs <==> forall i :: 0 <= i < |xs| ==> ys[i] == xs[i];
  }

  lemma {:induction false} ItemRoundTrip(doc: Doc, items: Schema, v: Dict, k: string, i: nat, t: Json, y: Json)
    requires Walkable(doc, items) && k in v && v[k].Arr? && i < |v[k].items|
    requires JobOut(doc, Strip, items, SingleJob(v[k].items[i])) == Some(t)
    requires JobOut(doc, Restore, items, RestoreJob(t, v[k].items, i)) == Some(y)
    ensures var x := v[k].items[i]; y == x <==> (x.Obj? ==> Complete(doc, items, x.fields))
    decreases Depth(Obj(v)), 0, 0, 0
  {
    var x := v[k].items[i];
    ItemOfFieldShallower(v, k, i);
    if x.Obj? {
      assert t == Obj(StripSecrets(doc, items, x.fields));
      RoundTrip(doc, items, x.fields);
    }
  }

  /**
   * Strip and restore undo each other exactly on the complete values, through references,
   * arrays of objects and maps.
   */
  lemma {:induction false} RoundTrip(doc: Doc, s: Schema, v: Dict)
    requires Walkable(doc, s)
    ensures RestoreSecrets(doc, s, StripSecrets(doc, s, v), v) == v <==> Complete(doc, s, v)
    decreases Depth(Obj(v)), Rank(doc, s), 1
  {
    var st := StripSecrets(doc, s, v);
    var r := RestoreSecrets(doc, s, st, v);
    forall k | k in Known(s, One(v))
      ensures CompleteAt(doc, s, v, k) <==> At(r, k) == At(v, k)
    {
      if Descends(PropOf(doc, s, k)) {
        ObjectRoundTrip(doc, s, v, k);
      } else if WalksArray(doc, Strip, s, One(v), k) {
        ArrayRoundTrip(doc, s, v, k);
      } else {
        LeafRoundTrip(doc, s, v, k);
      }
    }
    forall k | k !in Known(s, One(v)) ensures At(r, k) == None {
      StrippedKeys(doc, s, v);
      OnlyMergeFails(doc, Restore, s, Two(st, v));
      WalkAt(doc, Restore, s, Two(st, v), k);
    }
    SameEntries(r, v);
    if r == v {
      forall k | k in v ensures k in Known(s, One(v)) {
        assert At(r, k) == At(v, k);
      }
    }
  }

  // ---- What strip leaves behind ------------------------------------------------------------------

  /** An absent declared array comes back as null. */
  lemma AbsentArrayBecomesNull(doc: Doc, s: Schema, v: Dict, k: string)
    requires Walkable(doc, s) && k in s.properties && k !in v
    requires var p := PropOf(doc, s, k); !IsSecret(p) && p.typ.ArrayType?
    ensures At(RestoreSecrets(doc, s, StripSecrets(doc, s, v), v), k) == Some(Null)
  {
    Slots(doc, s, v, k);
  }

  /** An absent declared object comes back as the round trip of the empty object. */
  lemma {:induction false} AbsentObjectAppears(doc: Doc, s: Schema, v: Dict, k: string)
    requires Walkable(doc, s) && k in s.properties && k !in v && Descends(PropOf(doc, s, k))
    ensures var p := PropOf(doc, s, k);
      At(RestoreSecrets(doc, s, StripSecrets(doc, s, v), v), k)
      == Some(Obj(RestoreSecrets(doc, p, StripSecrets(doc, p, map[]), map[])))
  {
    ObjectComesBack(doc, s, v, k);
  }

  /** A key that the schema does not know survives the strip and is dropped by the restore. */
  lemma UnknownKeyIsDropped(doc: Doc, s: Schema, v: Dict, k: string)
    requires Walkable(doc, s) && k in v && k !in Known(s, One(v))
    ensures At(StripSecrets(doc, s, v), k) == Some(v[k])
    ensures k !in RestoreSecrets(doc, s, StripSecrets(doc, s, v), v)
  {
    OnlyMergeFails(doc, Strip, s, One(v));
    WalkAt(doc, Strip, s, One(v), k);
    StrippedKeys(doc, s, v);
    OnlyMergeFails(doc, Restore, s, Two(StripSecrets(doc, s, v), v));
    WalkAt(doc, Restore, s, Two(StripSecrets(doc, s, v), v), k);
  }

  /** No secret position the walk reaches holds anything. */
  predicate SecretFree(doc: Doc, s: Schema, v: Dict)
    requires Walkable(doc, s)
    decreases Depth(Obj(v)), Rank(doc, s), 1
  {
    forall k | k in v && k in Known(s, One(v)) :: SecretFreeAt(doc, s, v, k)
  }

  predicate SecretFreeAt(doc: Doc, s: Schema, v: Dict, k: string)
    requires Walkable(doc, s) && k in v && k in Known(s, One(v))
    decreases Depth(Obj(v)), Rank(doc, s), 0
  {
    var p := PropOf(doc, s, k);
    if IsSecret(p) then false
    else if p.typ.ObjectType? then v[k].Obj? ==> (FieldShallower(v, k); SecretFree(doc, p, v[k].fields))
    else if p.typ.ArrayType? && v[k].Arr? && ObjectItems(doc, p).Some? then
      forall i | 0 <= i < |v[k].items| && v[k].items[i].Obj? ::
        ItemOfFieldShallower(v, k, i);
        SecretFree(doc, ObjectItems(doc, p).value, v[k].items[i].fields)
    else true
  }

  /** A stripped template carries no secret into any position a schema marks as secret. */
  lemma {:induction false} StripRemovesSecrets(doc: Doc, s: Schema, v: Dict)
    requires Walkable(doc, s)
    ensures SecretFree(doc, s, StripSecrets(doc, s, v))
    decreases Depth(Obj(v)), Rank(doc, s), 1
  {
    var st := StripSecrets(doc, s, v);
    OnlyMergeFails(doc, Strip, s, One(v));
    forall k | k in st && k in Known(s, One(st)) ensures SecretFreeAt(doc, s, st, k) {
      WalkAt(doc, Strip, s, One(v), k);
      if Descends(PropOf(doc, s, k)) {
        ObjectStripsSecrets(doc, s, v, st, k);
      } else if WalksArray(doc, Strip, s, One(v), k) {
        ArrayStripsSecrets(doc, s, v, st, k);
      }
    }
  }

  lemma {:induction false} ObjectStripsSecrets(doc: Doc, s: Schema, v: Dict, st: Dict, k: string)
    requires Walkable(doc, s) && k in Known(s, One(v)) && Descends(PropOf(doc, s, k))
    requires k in st && k in Known(s, One(st)) && SlotOf(doc, Strip, s, One(v), k) == Keep(st[k])
    ensures SecretFreeAt(doc, s, st, k)
    decreases Depth(Obj(v)), Rank(doc, s), 0
  {
    var p := PropOf(doc, s, k);
    ObjectSlotAt(doc, Strip, s, One(v), k);
    OnlyMergeFails(doc, Strip, p, One(Child(v, k)));
    StripRemovesSecrets(doc, p, Child(v, k));
  }

  lemma {:induction false} ArrayStripsSecrets(doc: Doc, s: Schema, v: Dict, st: Dict, k: string)
    requires Walkable(doc, s) && WalksArray(doc, Strip, s, One(v), k)
    requires k in st && k in Known(s, One(st)) && SlotOf(doc, Strip, s, One(v), k) == Keep(st[k])
    ensures SecretFreeAt(doc, s, st, k)
    decreases Depth(Obj(v)), 0, 0
  {
    var items, ts := StripArray(doc, s, v, k);
    forall i | 0 <= i < |ts| && ts[i].Obj? ensures SecretFree(doc, items, ts[i].fields) {
      var x := v[k].items[i];
      assert JobOut(doc, Strip, items, SingleJob(x)) == Some(ts[i]);
      ItemOfFieldShallower(v, k, i);
      StripRemovesSecrets(doc, items, x.fields);
    }
  }
}
