/**
 * The one recursive walker over (schema, tuple of JSON objects) and the four visitors that
 * instantiate it: strip, mask, merge and restore.
 */
module SchemaWalker {
  import opened Wrappers
  import opened JsonModel
  import opened ConfigSchema
  import opened ValueCoercion

  datatype Visitor =
    | Strip
    | Mask
    | Merge(rt: Runtime, preferExisting: bool)
    | Restore

  /** The tuple of value objects of one schema level: one for strip and mask, two otherwise. */
  datatype Values = One(v: Dict) | Two(fst: Dict, snd: Dict)
  {
    predicate Has(k: string) {
      match this
      case One(v) => k in v
      case Two(fst, snd) => k in fst || k in snd
    }

    function Keys(): set<string> {
      match this
      case One(v) => v.Keys
      case Two(fst, snd) => fst.Keys + snd.Keys
    }

    ghost function Depth(): nat {
      match this
      case One(v) => JsonModel.Depth(Obj(v))
      case Two(fst, snd) => Max(JsonModel.Depth(Obj(fst)), JsonModel.Depth(Obj(snd)))
    }
  }

  predicate Suits(vis: Visitor, vals: Values) {
    vals.One? <==> vis.Strip? || vis.Mask?
  }

  /** What a visitor returns for one key; `Fail` is the `ValueError` of a coercion. */
  datatype Slot = Keep(value: Json) | Skip | Fail

  // ---- Value access ------------------------------------------------------------------------

  function Get(d: Dict, k: string, default: Json): Json {
    if k in d then d[k] else default
  }

  function Child(d: Dict, k: string): (c: Dict) {
    if k in d && d[k].Obj? then d[k].fields else map[]
  }

  lemma ChildShallower(d: Dict, k: string)
    ensures k in d ==> Depth(Obj(Child(d, k))) < Depth(Obj(d))
    ensures k !in d ==> Depth(Obj(Child(d, k))) == 1
  {
    KeyDeepens(map[]);
    KeyDeepens(d);
    if k in d {
      FieldShallower(d, k);
    }
  }

  function Children(vals: Values, k: string): (c: Values)
    ensures c.One? == vals.One?
    ensures c.Depth() <= vals.Depth()
    ensures vals.Has(k) ==> c.Depth() < vals.Depth()
  {
    match vals
    case One(v) =>
      ChildShallower(v, k);
      One(Child(v, k))
    case Two(fst, snd) =>
      ChildShallower(fst, k);
      ChildShallower(snd, k);
      Two(Child(fst, k), Child(snd, k))
  }

  // ---- Keys --------------------------------------------------------------------------------

  /** The entry keys of a map-typed object: carried by the values, not declared by the schema. */
  function MapKeys(s: Schema, vals: Values): set<string> {
    if s.additional.Some? then vals.Keys() - s.properties.Keys else {}
  }

  function Known(s: Schema, vals: Values): set<string> {
    s.properties.Keys + MapKeys(s, vals)
  }

  /** The resolved schema that describes key `k` of an object described by `s`. */
  function PropOf(doc: Doc, s: Schema, k: string): (p: Schema)
    requires k in s.properties || s.additional.Some?
    ensures Walkable(doc, s) && Descends(p) ==> Walkable(doc, p)
    ensures Walkable(doc, s) && ListsObjects(doc, p) ==> Walkable(doc, ObjectItems(doc, p).value)
  {
    var x := if k in s.properties then s.properties[k] else s.additional.value;
    GoesOn(doc, s, x);
    Resolve(doc, x)
  }

  lemma GoesOn(doc: Doc, s: Schema, x: Schema)
    requires x in KeySchemas(s)
    ensures var p := Resolve(doc, x);
      && (Walkable(doc, s) && Descends(p) ==> Walkable(doc, p))
      && (Walkable(doc, s) && ListsObjects(doc, p) ==> Walkable(doc, ObjectItems(doc, p).value))
  {
    var p := Resolve(doc, x);
    if Walkable(doc, s) && Descends(p) { LeadsToReachable(doc, s, p); }
    if Walkable(doc, s) && ListsObjects(doc, p) { LeadsToReachable(doc, s, ObjectItems(doc, p).value); }
  }

  // ---- The visitors ------------------------------------------------------------------------

  function Secret(vis: Visitor, k: string, vals: Values): Slot
    requires Suits(vis, vals)
  {
    match vis
    case Strip => Skip
    case Mask =>
      var cur := Get(vals.v, k, Null);
      Keep(Str(if cur.Str? && cur.s != "" && cur.s != "***" then "***" else ""))
    case Merge(rt, _) =>
      var sub := Get(vals.snd, k, Null);
      if Truthy(sub) && sub != Str("***") then Keep(Str(PyStr(rt, sub)))
      else Keep(Get(vals.fst, k, Str("")))
    case Restore =>
      if k in vals.snd then Keep(vals.snd[k])
      else if k in vals.fst then Keep(vals.fst[k])
      else Skip
  }

  function Scalar(vis: Visitor, p: Schema, k: string, vals: Values): Slot
    requires Suits(vis, vals)
  {
    match vis
    case Strip => if k in vals.v then Keep(vals.v[k]) else Skip
    case Mask => Keep(Get(vals.v, k, Str("")))
    case Merge(rt, prefer) =>
      if k in vals.snd && vals.snd[k] != Null then
        var c := Coerce(rt, p.typ, vals.snd[k]);
        if c.Some? then Keep(c.value) else Fail
      else if prefer && k in vals.fst then Keep(vals.fst[k])
      else if p.default.Some? then Keep(p.default.value)
      else Keep(if k in vals.snd then Null else Str(""))
    case Restore => if k in vals.fst then Keep(vals.fst[k]) else Skip
  }

  /** One array item: copied as it stands, or walked again as an object. */
  datatype Job = Copy(value: Json) | Recur(vals: Values)

  /** What a visitor does with an array: settle it outright, or rebuild it item by item. */
  datatype Plan = Settle(slot: Slot) | Each(jobs: seq<Job>)

  function SingleJob(item: Json): Job {
    if item.Obj? then Recur(One(item.fields)) else Copy(item)
  }

  /** A submitted item is merged over the stored item of the same index, if that is an object. */
  function MergeJob(stored: seq<Json>, item: Json, i: nat): Job {
    if item.Obj?
    then Recur(Two(if i < |stored| && stored[i].Obj? then stored[i].fields else map[], item.fields))
    else Copy(item)
  }

  function RestoreJob(item: Json, current: seq<Json>, i: nat): Job {
    if i < |current| && item.Obj? && current[i].Obj?
    then Recur(Two(item.fields, current[i].fields))
    else Copy(item)
  }

  function Items(v: Json): seq<Json> {
    if v.Arr? then v.items else []
  }

  function ArrayPlan(vis: Visitor, objects: bool, k: string, vals: Values): Plan
    requires Suits(vis, vals)
  {
    match vis
    case Strip =>
      var cur := Get(vals.v, k, Null);
      if cur.Arr? && objects then Each(seq(|cur.items|, i requires 0 <= i < |cur.items| => SingleJob(cur.items[i])))
      else Settle(Keep(cur))
    case Mask =>
      var cur := Get(vals.v, k, Arr([]));
      if cur.Arr? && objects then Each(seq(|cur.items|, i requires 0 <= i < |cur.items| => SingleJob(cur.items[i])))
      else Settle(Keep(cur))
    case Merge(_, _) =>
      if objects && k in vals.snd && vals.snd[k].Arr? then
        var sub := vals.snd[k].items;
        var stored := Items(Get(vals.fst, k, Null));
        Each(seq(|sub|, i requires 0 <= i < |sub| => MergeJob(stored, sub[i], i)))
      else if k in vals.snd then Settle(Keep(vals.snd[k]))
      else Settle(Keep(Get(vals.fst, k, Arr([]))))
    case Restore =>
      var r, c := Get(vals.fst, k, Null), Get(vals.snd, k, Null);
      if objects && r.Arr? && c.Arr? then
        Each(seq(|r.items|, i requires 0 <= i < |r.items| => RestoreJob(r.items[i], c.items, i)))
      else if k in vals.fst then Settle(Keep(vals.fst[k]))
      else Settle(Skip)
  }

  lemma ItemOfFieldShallower(d: Dict, k: string, i: nat)
    requires k in d && d[k].Arr? && i < |d[k].items|
    ensures Depth(d[k].items[i]) < Depth(Obj(d))
    ensures Depth(Obj(map[])) < Depth(Obj(d))
  {
    FieldShallower(d, k);
    ItemShallower(d[k].items, i);
    KeyDeepens(map[]);
    KeyDeepens(d);
  }

  /** Every object an array visitor asks to have walked is shallower than the object holding the array. */
  lemma JobShallower(vis: Visitor, objects: bool, k: string, vals: Values, i: nat)
    requires Suits(vis, vals)
    requires var plan := ArrayPlan(vis, objects, k, vals); plan.Each? && i < |plan.jobs|
    ensures objects
    ensures var job := ArrayPlan(vis, objects, k, vals).jobs[i];
      job.Recur? ==> Suits(vis, job.vals) && job.vals.Depth() < vals.Depth()
  {
    var job := ArrayPlan(vis, objects, k, vals).jobs[i];
    if job.Recur? {
      match vis
      case Strip => ItemOfFieldShallower(vals.v, k, i);
      case Mask => ItemOfFieldShallower(vals.v, k, i);
      case Restore =>
        ItemOfFieldShallower(vals.fst, k, i);
        ItemOfFieldShallower(vals.snd, k, i);
      case Merge(_, _) =>
        ItemOfFieldShallower(vals.snd, k, i);
        if k in vals.fst && vals.fst[k].Arr? && i < |vals.fst[k].items| {
          ItemOfFieldShallower(vals.fst, k, i);
        }
    }
  }

  // ---- The walk ----------------------------------------------------------------------------

  /** Keys the walk considers: those the schema knows, and for strip every key of the value. */
  function Considered(vis: Visitor, s: Schema, vals: Values): set<string>
    requires Suits(vis, vals)
  {
    Known(s, vals) + if vis.Strip? then vals.v.Keys else {}
  }

  /** The walk of one object; `None` when some coercion below it fails. */
  function Walk(doc: Doc, vis: Visitor, s: Schema, vals: Values): Option<Dict>
    requires Walkable(doc, s) && Suits(vis, vals)
    decreases vals.Depth(), Rank(doc, s), 1
  {
    if exists k :: k in Considered(vis, s, vals) && SlotOf(doc, vis, s, vals, k).Fail? then None
    else Some(map k | k in Considered(vis, s, vals) && SlotOf(doc, vis, s, vals, k).Keep? ::
                SlotOf(doc, vis, s, vals, k).value)
  }

  /** The dispatch of one key to the visitor method that its resolved type selects. */
  function SlotOf(doc: Doc, vis: Visitor, s: Schema, vals: Values, k: string): Slot
    requires Walkable(doc, s) && Suits(vis, vals) && k in Considered(vis, s, vals)
    decreases vals.Depth(), Rank(doc, s), 0
  {
    if k !in Known(s, vals) then Keep(vals.v[k]) else
    var p := PropOf(doc, s, k);
    if IsSecret(p) then Secret(vis, k, vals)
    else if p.typ.ObjectType? then
      assert k in s.properties ==> Rank(doc, p) < Rank(doc, s) by {
        if k in s.properties { RankDecreases(doc, s, k); }
      }
      ObjectSlot(Walk(doc, vis, p, Children(vals, k)))
    else if p.typ.ArrayType? then
      var items := ObjectItems(doc, p);
      var plan := ArrayPlan(vis, items.Some?, k, vals);
      if plan.Settle? then plan.slot else
      ArraySlot(seq(|plan.jobs|, i requires 0 <= i < |plan.jobs| =>
        JobShallower(vis, items.Some?, k, vals, i);
        match plan.jobs[i]
        case Copy(v) => Some(v)
        case Recur(sub) => Wrapped(Walk(doc, vis, items.value, sub))))
    else Scalar(vis, p, k, vals)
  }

  function ObjectSlot(d: Option<Dict>): Slot {
    if d.Some? then Keep(Obj(d.value)) else Fail
  }

  function Wrapped(d: Option<Dict>): Option<Json> {
    if d.Some? then Some(Obj(d.value)) else None
  }

  function ArraySlot(outs: seq<Option<Json>>): Slot {
    if exists i :: 0 <= i < |outs| && outs[i].None? then Fail
    else Keep(Arr(seq(|outs|, i requires 0 <= i < |outs| => outs[i].GetOr(Null))))
  }

  // ---- Consequences used by every theorem about the walk -------------------------------------

  function JobOut(doc: Doc, vis: Visitor, items: Schema, job: Job): Option<Json>
    requires Walkable(doc, items) && (job.Recur? ==> Suits(vis, job.vals))
  {
    match job
    case Copy(v) => Some(v)
    case Recur(sub) => Wrapped(Walk(doc, vis, items, sub))
  }

  /** The entry of an object at a key, if it has one. */
  function At(d: Dict, k: string): Option<Json> {
    if k in d then Some(d[k]) else None
  }

  function SlotEntry(slot: Slot): Option<Json> {
    if slot.Keep? then Some(slot.value) else None
  }

  lemma WalkAt(doc: Doc, vis: Visitor, s: Schema, vals: Values, k: string)
    requires Walkable(doc, s) && Suits(vis, vals) && Walk(doc, vis, s, vals).Some?
    ensures At(Walk(doc, vis, s, vals).value, k) ==
      if k in Considered(vis, s, vals) then SlotEntry(SlotOf(doc, vis, s, vals, k)) else None
    ensures k in Considered(vis, s, vals) ==> !SlotOf(doc, vis, s, vals, k).Fail?
  {
  }

  lemma WalkKeys(doc: Doc, vis: Visitor, s: Schema, vals: Values)
    requires Walkable(doc, s) && Suits(vis, vals) && Walk(doc, vis, s, vals).Some?
    ensures Walk(doc, vis, s, vals).value.Keys <= Considered(vis, s, vals)
  {
  }

  lemma SameEntries(a: Dict, b: Dict)
    ensures a == b <==> forall k :: At(a, k) == At(b, k)
  {
    if forall k :: At(a, k) == At(b, k) {
      forall k ensures k in a <==> k in b { assert At(a, k) == At(b, k); }
      forall k | k in a ensures a[k] == b[k] { assert At(a, k) == At(b, k); }
      assert a == b;
    }
  }

  lemma ObjectSlotAt(doc: Doc, vis: Visitor, s: Schema, vals: Values, k: string)
    requires Walkable(doc, s) && Suits(vis, vals) && k in Known(s, vals) && Descends(PropOf(doc, s, k))
    ensures SlotOf(doc, vis, s, vals, k) == ObjectSlot(Walk(doc, vis, PropOf(doc, s, k), Children(vals, k)))
    ensures Children(vals, k).Depth() <= vals.Depth()
    ensures Children(vals, k).Depth() < vals.Depth() || Rank(doc, PropOf(doc, s, k)) < Rank(doc, s)
  {
    if k in s.properties {
      RankDecreases(doc, s, k);
    }
  }

  /** The array that is walked item by item at key `k`, if there is one. */
  predicate WalksArray(doc: Doc, vis: Visitor, s: Schema, vals: Values, k: string)
    requires Suits(vis, vals)
  {
    && k in Known(s, vals)
    && var p := PropOf(doc, s, k);
    && !IsSecret(p) && p.typ.ArrayType?
    && ArrayPlan(vis, ObjectItems(doc, p).Some?, k, vals).Each?
  }

  function ArrayJobs(doc: Doc, vis: Visitor, s: Schema, vals: Values, k: string): seq<Job>
    requires Suits(vis, vals) && WalksArray(doc, vis, s, vals, k)
  {
    ArrayPlan(vis, true, k, vals).jobs
  }

  lemma ArraySlotAt(doc: Doc, vis: Visitor, s: Schema, vals: Values, k: string)
    requires Walkable(doc, s) && Suits(vis, vals) && WalksArray(doc, vis, s, vals, k)
    ensures ObjectItems(doc, PropOf(doc, s, k)).Some?
    ensures var items := ObjectItems(doc, PropOf(doc, s, k)).value;
      var jobs := ArrayJobs(doc, vis, s, vals, k);
      && (forall i :: 0 <= i < |jobs| && jobs[i].Recur? ==>
            Suits(vis, jobs[i].vals) && jobs[i].vals.Depth() < vals.Depth())
      && match SlotOf(doc, vis, s, vals, k)
         case Skip => false
         case Fail => exists i :: 0 <= i < |jobs| && JobOut(doc, vis, items, jobs[i]).None?
         case Keep(v) => (
           && v.Arr? && |v.items| == |jobs|
           && forall i :: 0 <= i < |jobs| ==> JobOut(doc, vis, items, jobs[i]) == Some(v.items[i]))
  {
    var p := PropOf(doc, s, k);
    var objects := ObjectItems(doc, p).Some?;
    var jobs := ArrayPlan(vis, objects, k, vals).jobs;
    forall i | 0 <= i < |jobs|
      ensures objects && (jobs[i].Recur? ==> Suits(vis, jobs[i].vals) && jobs[i].vals.Depth() < vals.Depth())
    {
      JobShallower(vis, objects, k, vals, i);
    }
    PlannedForObjects(vis, objects, k, vals);
    var items := ObjectItems(doc, p).value;
    var outs := seq(|jobs|, i requires 0 <= i < |jobs| =>
      match jobs[i]
      case Copy(v) => Some(v)
      case Recur(sub) => Wrapped(Walk(doc, vis, items, sub)));
    assert SlotOf(doc, vis, s, vals, k) == ArraySlot(outs);
    assert forall i :: 0 <= i < |jobs| ==> outs[i] == JobOut(doc, vis, items, jobs[i]);
  }

  lemma PlannedForObjects(vis: Visitor, objects: bool, k: string, vals: Values)
    requires Suits(vis, vals) && ArrayPlan(vis, objects, k, vals).Each?
    ensures objects
  {
  }

  /** Only the merge coerces, so only the merge can fail. */
  lemma {:induction false} OnlyMergeFails(doc: Doc, vis: Visitor, s: Schema, vals: Values)
    requires Walkable(doc, s) && Suits(vis, vals) && !vis.Merge?
    ensures Walk(doc, vis, s, vals).Some?
    decreases vals.Depth(), Rank(doc, s), 2
  {
    forall k | k in Considered(vis, s, vals) ensures !SlotOf(doc, vis, s, vals, k).Fail? {
      if k in Known(s, vals) {
        KeyNeverFails(doc, vis, s, vals, k);
      }
    }
  }

  lemma {:induction false} KeyNeverFails(doc: Doc, vis: Visitor, s: Schema, vals: Values, k: string)
    requires Walkable(doc, s) && Suits(vis, vals) && !vis.Merge? && k in Known(s, vals)
    ensures !SlotOf(doc, vis, s, vals, k).Fail?
    decreases vals.Depth(), Rank(doc, s), 1
  {
    if Descends(PropOf(doc, s, k)) {
      ObjectSlotAt(doc, vis, s, vals, k);
      OnlyMergeFails(doc, vis, PropOf(doc, s, k), Children(vals, k));
    } else if WalksArray(doc, vis, s, vals, k) {
      ArrayNeverFails(doc, vis, s, vals, k);
    }
  }

  lemma {:induction false} ArrayNeverFails(doc: Doc, vis: Visitor, s: Schema, vals: Values, k: string)
    requires Walkable(doc, s) && Suits(vis, vals) && !vis.Merge? && WalksArray(doc, vis, s, vals, k)
    ensures !SlotOf(doc, vis, s, vals, k).Fail?
    decreases vals.Depth(), 0, 0
  {
    ArraySlotAt(doc, vis, s, vals, k);
    var items, jobs := ObjectItems(doc, PropOf(doc, s, k)).value, ArrayJobs(doc, vis, s, vals, k);
    forall i | 0 <= i < |jobs| && jobs[i].Recur? ensures Walk(doc, vis, items, jobs[i].vals).Some? {
      OnlyMergeFails(doc, vis, items, jobs[i].vals);
    }
  }

  /** A merge has a value for every key it considers, unless it fails. */
  lemma MergeNeverSkips(doc: Doc, rt: Runtime, prefer: bool, s: Schema, vals: Values, k: string)
    requires Walkable(doc, s) && vals.Two? && k in Known(s, vals)
    ensures !SlotOf(doc, Merge(rt, prefer), s, vals, k).Skip?
  {
    if WalksArray(doc, Merge(rt, prefer), s, vals, k) {
      ArraySlotAt(doc, Merge(rt, prefer), s, vals, k);
    }
  }

  // ---- The four operations -------------------------------------------------------------------

  function StripSecrets(doc: Doc, s: Schema, v: Dict): Dict
    requires Walkable(doc, s)
  {
    OnlyMergeFails(doc, Strip, s, One(v));
    Walk(doc, Strip, s, One(v)).value
  }

  function MaskSecrets(doc: Doc, s: Schema, v: Dict): Dict
    requires Walkable(doc, s)
  {
    OnlyMergeFails(doc, Mask, s, One(v));
    Walk(doc, Mask, s, One(v)).value
  }

  function RestoreSecrets(doc: Doc, s: Schema, restored: Dict, current: Dict): Dict
    requires Walkable(doc, s)
  {
    OnlyMergeFails(doc, Restore, s, Two(restored, current));
    Walk(doc, Restore, s, Two(restored, current)).value
  }

  /** `None` when a submitted scalar cannot be coerced to its declared type. */
  function MergeConfig(doc: Doc, s: Schema, rt: Runtime, prefer: bool, existing: Dict, submitted: Dict): Option<Dict>
    requires Walkable(doc, s)
  {
    Walk(doc, Merge(rt, prefer), s, Two(existing, submitted))
  }
}
