/**
 * The walker as the loops that fill local dictionaries and lists, proved to compute `Walk`.
 * Dictionary iteration order is left open: any order gives the same result.
 */
module SchemaWalkerLoops {
  import opened Wrappers
  import opened JsonModel
  import opened ConfigSchema
  import opened SchemaWalker

  /** Every map entry key of the value objects not yet visited, each once, those of the first object first. */
  method MapKeyList(vals: Values, visited: set<string>) returns (keys: seq<string>)
    ensures forall k :: k in keys <==> k in vals.Keys() - visited
    ensures forall i, j :: 0 <= i < j < |keys| ==> keys[i] != keys[j]
    ensures vals.Two? ==> forall i, j :: 0 <= i < j < |keys| && keys[j] in vals.fst ==> keys[i] in vals.fst
  {
    keys := [];
    var dicts := match vals case One(v) => [v] case Two(fst, snd) => [fst, snd];
    for d := 0 to |dicts|
      invariant forall k :: k in keys <==> k !in visited && exists e :: 0 <= e < d && k in dicts[e]
      invariant forall i, j :: 0 <= i < j < |keys| ==> keys[i] != keys[j]
      invariant forall i, j :: 0 <= i < j < |keys| && keys[j] in dicts[0] ==> keys[i] in dicts[0]
    {
      var todo := dicts[d].Keys;
      while todo != {}
        invariant todo <= dicts[d].Keys
        invariant forall k :: k in keys <==>
          k !in visited && ((exists e :: 0 <= e < d && k in dicts[e]) || k in dicts[d].Keys - todo)
        invariant forall i, j :: 0 <= i < j < |keys| ==> keys[i] != keys[j]
        invariant forall i, j :: 0 <= i < j < |keys| && keys[j] in dicts[0] ==> keys[i] in dicts[0]
        decreases todo
      {
        var key :| key in todo;
        if key !in visited && key !in keys {
          assert if d == 0 then forall k :: k in keys ==> k in dicts[0] else key !in dicts[0];
          keys := keys + [key];
        }
        todo := todo - {key};
      }
    }
    assert forall k :: k in vals.Keys() <==> exists e :: 0 <= e < |dicts| && k in dicts[e] by {
      match vals
      case One(v) => assert dicts[0] == v;
      case Two(fst, snd) => assert dicts[0] == fst && dicts[1] == snd;
    }
  }

  /** The part of the result that the keys in `done` contribute. */
  ghost function Built(doc: Doc, vis: Visitor, s: Schema, vals: Values, done: set<string>): Dict
    requires Walkable(doc, s) && Suits(vis, vals) && done <= Considered(vis, s, vals)
  {
    map k | k in done && SlotOf(doc, vis, s, vals, k).Keep? :: SlotOf(doc, vis, s, vals, k).value
  }

  ghost predicate NoneFailed(doc: Doc, vis: Visitor, s: Schema, vals: Values, done: set<string>)
    requires Walkable(doc, s) && Suits(vis, vals) && done <= Considered(vis, s, vals)
  {
    forall k :: k in done ==> !SlotOf(doc, vis, s, vals, k).Fail?
  }

  lemma BuiltAll(doc: Doc, vis: Visitor, s: Schema, vals: Values)
    requires Walkable(doc, s) && Suits(vis, vals)
    requires NoneFailed(doc, vis, s, vals, Considered(vis, s, vals))
    ensures Walk(doc, vis, s, vals) == Some(Built(doc, vis, s, vals, Considered(vis, s, vals)))
  {
    SameEntries(Walk(doc, vis, s, vals).value, Built(doc, vis, s, vals, Considered(vis, s, vals)));
  }

  lemma BuiltStep(doc: Doc, vis: Visitor, s: Schema, vals: Values, done: set<string>, k: string)
    requires Walkable(doc, s) && Suits(vis, vals) && done <= Considered(vis, s, vals)
    requires k in Considered(vis, s, vals) && k !in done
    requires NoneFailed(doc, vis, s, vals, done) && !SlotOf(doc, vis, s, vals, k).Fail?
    ensures NoneFailed(doc, vis, s, vals, done + {k})
    ensures Built(doc, vis, s, vals, done + {k}) ==
      var slot := SlotOf(doc, vis, s, vals, k);
      if slot.Keep? then Built(doc, vis, s, vals, done)[k := slot.value] else Built(doc, vis, s, vals, done)
  {
  }

  method WalkObject(doc: Doc, vis: Visitor, s: Schema, vals: Values) returns (r: Option<Dict>)
    requires Walkable(doc, s) && Suits(vis, vals)
    ensures r == Walk(doc, vis, s, vals)
    decreases vals.Depth(), Rank(doc, s), 4
  {
    r := WalkKeySet(doc, vis, s, vals, s.properties.Keys, {}, map[]);
    if r.None? { return; }
    assert {} + s.properties.Keys == s.properties.Keys;
    if s.additional.Some? {
      r := WalkEntries(doc, vis, s, vals, r.value);
      if r.None? { return; }
    } else {
      assert s.properties.Keys == Known(s, vals);
    }
    r := FinishObject(doc, vis, s, vals, r.value);
  }

  /** The map entries, on top of the declared properties. */
  method WalkEntries(doc: Doc, vis: Visitor, s: Schema, vals: Values, start: Dict) returns (r: Option<Dict>)
    requires Walkable(doc, s) && Suits(vis, vals) && s.additional.Some?
    requires NoneFailed(doc, vis, s, vals, s.properties.Keys) && start == Built(doc, vis, s, vals, s.properties.Keys)
    ensures r.None? ==> Walk(doc, vis, s, vals).None?
    ensures r.Some? ==> var all := Known(s, vals);
      NoneFailed(doc, vis, s, vals, all) && r.value == Built(doc, vis, s, vals, all)
    decreases vals.Depth(), Rank(doc, s), 3
  {
    var keys := MapKeyList(vals, s.properties.Keys);
    r := WalkKeyList(doc, vis, s, vals, keys, s.properties.Keys, start);
    assert s.properties.Keys + (set k | k in keys) == Known(s, vals);
  }

  method FinishObject(doc: Doc, vis: Visitor, s: Schema, vals: Values, start: Dict) returns (r: Option<Dict>)
    requires Walkable(doc, s) && Suits(vis, vals)
    requires NoneFailed(doc, vis, s, vals, Known(s, vals)) && start == Built(doc, vis, s, vals, Known(s, vals))
    ensures r == Walk(doc, vis, s, vals)
  {
    var out := start;
    if vis.Strip? {
      out := CopyUnknown(doc, s, vals, start);
    } else {
      assert Considered(vis, s, vals) == Known(s, vals);
    }
    BuiltAll(doc, vis, s, vals);
    return Some(out);
  }

  /** The loop over the declared properties. */
  method WalkKeySet(doc: Doc, vis: Visitor, s: Schema, vals: Values, keys: set<string>, done: set<string>, start: Dict)
    returns (r: Option<Dict>)
    requires Walkable(doc, s) && Suits(vis, vals) && keys <= Known(s, vals) && done <= Known(s, vals) && keys !! done
    requires NoneFailed(doc, vis, s, vals, done) && start == Built(doc, vis, s, vals, done)
    ensures r.None? ==> Walk(doc, vis, s, vals).None?
    ensures r.Some? ==> NoneFailed(doc, vis, s, vals, done + keys) && r.value == Built(doc, vis, s, vals, done + keys)
    decreases vals.Depth(), Rank(doc, s), 2
  {
    var result, todo, visited := start, keys, done;
    while todo != {}
      invariant todo <= keys && todo !! visited && visited + todo == done + keys
      invariant NoneFailed(doc, vis, s, vals, visited) && result == Built(doc, vis, s, vals, visited)
      decreases todo
    {
      var key :| key in todo;
      var slot := DispatchKey(doc, vis, s, vals, key);
      if slot.Fail? { return None; }
      BuiltStep(doc, vis, s, vals, visited, key);
      visited := visited + {key};
      todo := todo - {key};
      if slot.Keep? { result := result[key := slot.value]; }
    }
    assert visited == done + keys;
    return Some(result);
  }

  /** The loop over the map entries, in the order in which they were first seen. */
  method WalkKeyList(doc: Doc, vis: Visitor, s: Schema, vals: Values, keys: seq<string>, done: set<string>, start: Dict)
    returns (r: Option<Dict>)
    requires Walkable(doc, s) && Suits(vis, vals) && done <= Known(s, vals)
    requires forall i :: 0 <= i < |keys| ==> keys[i] in Known(s, vals) && keys[i] !in done
    requires forall i, j :: 0 <= i < j < |keys| ==> keys[i] != keys[j]
    requires NoneFailed(doc, vis, s, vals, done) && start == Built(doc, vis, s, vals, done)
    ensures r.None? ==> Walk(doc, vis, s, vals).None?
    ensures r.Some? ==> var all := done + set k | k in keys;
      NoneFailed(doc, vis, s, vals, all) && r.value == Built(doc, vis, s, vals, all)
    decreases vals.Depth(), Rank(doc, s), 2
  {
    var result, visited := start, done;
    for i := 0 to |keys|
      invariant visited <= Known(s, vals) && forall k :: k in visited <==> k in done || k in keys[..i]
      invariant NoneFailed(doc, vis, s, vals, visited) && result == Built(doc, vis, s, vals, visited)
    {
      var slot := DispatchKey(doc, vis, s, vals, keys[i]);
      if slot.Fail? { return None; }
      BuiltStep(doc, vis, s, vals, visited, keys[i]);
      visited := visited + {keys[i]};
      assert keys[..i + 1] == keys[..i] + [keys[i]];
      if slot.Keep? { result := result[keys[i] := slot.value]; }
    }
    assert keys[..|keys|] == keys;
    assert visited == done + set k | k in keys;
    return Some(result);
  }

  /** The loop that keeps keys of the value that the schema does not know; strip only. */
  method CopyUnknown(doc: Doc, s: Schema, vals: Values, start: Dict) returns (result: Dict)
    requires Walkable(doc, s) && vals.One?
    requires NoneFailed(doc, Strip, s, vals, Known(s, vals)) && start == Built(doc, Strip, s, vals, Known(s, vals))
    ensures NoneFailed(doc, Strip, s, vals, Considered(Strip, s, vals))
    ensures result == Built(doc, Strip, s, vals, Considered(Strip, s, vals))
  {
    result := start;
    var visited := Known(s, vals);
    var todo := vals.v.Keys - visited;
    while todo != {}
      invariant todo <= vals.v.Keys && todo !! visited
      invariant visited + todo == Considered(Strip, s, vals) && Known(s, vals) <= visited
      invariant NoneFailed(doc, Strip, s, vals, visited) && result == Built(doc, Strip, s, vals, visited)
      decreases todo
    {
      var key :| key in todo;
      BuiltStep(doc, Strip, s, vals, visited, key);
      todo := todo - {key};
      visited := visited + {key};
      result := result[key := vals.v[key]];
    }
    assert visited == Considered(Strip, s, vals);
  }

  method DispatchKey(doc: Doc, vis: Visitor, s: Schema, vals: Values, k: string) returns (slot: Slot)
    requires Walkable(doc, s) && Suits(vis, vals) && k in Known(s, vals)
    ensures slot == SlotOf(doc, vis, s, vals, k)
    decreases vals.Depth(), Rank(doc, s), 1
  {
    var p := PropOf(doc, s, k);
    if IsSecret(p) {
      slot := Secret(vis, k, vals);
    } else if p.typ.ObjectType? {
      ObjectSlotAt(doc, vis, s, vals, k);
      var d := WalkObject(doc, vis, p, Children(vals, k));
      slot := ObjectSlot(d);
    } else if p.typ.ArrayType? {
      var items := ObjectItems(doc, p);
      if !ArrayPlan(vis, items.Some?, k, vals).Each? {
        return ArrayPlan(vis, items.Some?, k, vals).slot;
      }
      ArraySlotAt(doc, vis, s, vals, k);
      var list: Option<seq<Json>>;
      match vis {
        case Strip => list := SingleItems(doc, vis, items.value, vals.v[k].items, vals.Depth());
        case Mask => list := SingleItems(doc, vis, items.value, Get(vals.v, k, Arr([])).items, vals.Depth());
        case Merge(rt, prefer) =>
          list := MergeItems(doc, vis, items.value, Items(Get(vals.fst, k, Null)), vals.snd[k].items, vals.Depth());
        case Restore =>
          list := RestoreItems(doc, items.value, vals.fst[k].items, vals.snd[k].items, vals.Depth());
      }
      SlotRebuilt(doc, vis, s, vals, k, list);
      slot := if list.Some? then Keep(Arr(list.value)) else Fail;
    } else {
      slot := Scalar(vis, p, k, vals);
    }
  }

  lemma SlotRebuilt(doc: Doc, vis: Visitor, s: Schema, vals: Values, k: string, list: Option<seq<Json>>)
    requires Walkable(doc, s) && Suits(vis, vals) && WalksArray(doc, vis, s, vals, k)
    requires var jobs := ArrayJobs(doc, vis, s, vals, k);
      && ObjectItems(doc, PropOf(doc, s, k)).Some?
      && (forall i :: 0 <= i < |jobs| && jobs[i].Recur? ==> Suits(vis, jobs[i].vals))
      && Rebuilds(doc, vis, ObjectItems(doc, PropOf(doc, s, k)).value, jobs, list)
    ensures SlotOf(doc, vis, s, vals, k) == if list.Some? then Keep(Arr(list.value)) else Fail
  {
    ArraySlotAt(doc, vis, s, vals, k);
    if list.Some? && SlotOf(doc, vis, s, vals, k).Keep? {
      assert SlotOf(doc, vis, s, vals, k).value.items == list.value;
    }
  }

  /** The list that an array visitor fills, or `None` when an item fails: what `jobs` ask for, in order. */
  ghost predicate Rebuilds(doc: Doc, vis: Visitor, items: Schema, jobs: seq<Job>, list: Option<seq<Json>>)
    requires Walkable(doc, items) && forall i :: 0 <= i < |jobs| && jobs[i].Recur? ==> Suits(vis, jobs[i].vals)
  {
    match list
    case None => exists i :: 0 <= i < |jobs| && JobOut(doc, vis, items, jobs[i]).None?
    case Some(ys) => |ys| == |jobs| && forall i :: 0 <= i < |jobs| ==> JobOut(doc, vis, items, jobs[i]) == Some(ys[i])
  }

  function SingleJobs(xs: seq<Json>): seq<Job> {
    seq(|xs|, i requires 0 <= i < |xs| => SingleJob(xs[i]))
  }

  function MergeJobs(stored: seq<Json>, sub: seq<Json>): seq<Job> {
    seq(|sub|, i requires 0 <= i < |sub| => MergeJob(stored, sub[i], i))
  }

  function RestoreJobs(r: seq<Json>, c: seq<Json>): seq<Job> {
    seq(|r|, i requires 0 <= i < |r| => RestoreJob(r[i], c, i))
  }

  ghost predicate Bounded(jobs: seq<Job>, one: bool, bound: nat) {
    forall i :: 0 <= i < |jobs| && jobs[i].Recur? ==> jobs[i].vals.One? == one && jobs[i].vals.Depth() < bound
  }

  method SingleItems(doc: Doc, vis: Visitor, items: Schema, xs: seq<Json>, ghost bound: nat)
    returns (list: Option<seq<Json>>)
    requires Walkable(doc, items) && (vis.Strip? || vis.Mask?) && Bounded(SingleJobs(xs), true, bound)
    ensures Rebuilds(doc, vis, items, SingleJobs(xs), list)
    decreases bound, 0, 0
  {
    ghost var jobs := SingleJobs(xs);
    var out: seq<Json> := [];
    for i := 0 to |xs|
      invariant |out| == i
      invariant forall j :: 0 <= j < i ==> JobOut(doc, vis, items, jobs[j]) == Some(out[j])
    {
      assert jobs[i] == SingleJob(xs[i]);
      if xs[i].Obj? {
        var d := WalkObject(doc, vis, items, One(xs[i].fields));
        if d.None? { return None; }
        out := out + [Obj(d.value)];
      } else {
        out := out + [xs[i]];
      }
    }
    return Some(out);
  }

  method MergeItems(doc: Doc, vis: Visitor, items: Schema, stored: seq<Json>, submitted: seq<Json>, ghost bound: nat)
    returns (list: Option<seq<Json>>)
    requires Walkable(doc, items) && vis.Merge? && Bounded(MergeJobs(stored, submitted), false, bound)
    ensures Rebuilds(doc, vis, items, MergeJobs(stored, submitted), list)
    decreases bound, 0, 0
  {
    ghost var jobs := MergeJobs(stored, submitted);
    var out: seq<Json> := [];
    for i := 0 to |submitted|
      invariant |out| == i
      invariant forall j :: 0 <= j < i ==> JobOut(doc, vis, items, jobs[j]) == Some(out[j])
    {
      var item := submitted[i];
      assert jobs[i] == MergeJob(stored, item, i);
      if item.Obj? {
        var prior := if i < |stored| && stored[i].Obj? then stored[i].fields else map[];
        var d := WalkObject(doc, vis, items, Two(prior, item.fields));
        if d.None? { return None; }
        out := out + [Obj(d.value)];
      } else {
        out := out + [item];
      }
    }
    return Some(out);
  }

  method RestoreItems(doc: Doc, items: Schema, r: seq<Json>, c: seq<Json>, ghost bound: nat)
    returns (list: Option<seq<Json>>)
    requires Walkable(doc, items) && Bounded(RestoreJobs(r, c), false, bound)
    ensures Rebuilds(doc, Restore, items, RestoreJobs(r, c), list)
    decreases bound, 0, 0
  {
    ghost var jobs := RestoreJobs(r, c);
    var n := Min(|r|, |c|);
    var out: seq<Json> := [];
    for i := 0 to n
      invariant |out| == i
      invariant forall j :: 0 <= j < i ==> JobOut(doc, Restore, items, jobs[j]) == Some(out[j])
    {
      assert jobs[i] == RestoreJob(r[i], c, i);
      if r[i].Obj? && c[i].Obj? {
        var d := WalkObject(doc, Restore, items, Two(r[i].fields, c[i].fields));
        if d.None? { return None; }
        out := out + [Obj(d.value)];
      } else {
        out := out + [r[i]];
      }
    }
    out := out + r[n..];
    return Some(out);
  }
}
