/**
 * JSON documents as the configuration code sees them after parsing.
 * Objects are maps: key order never influences any result modelled here.
 */
module JsonModel {
  import opened Wrappers

  datatype Json =
    | Null
    | Bool(b: bool)
    | Int(i: int)
    | Real(r: real)
    | Str(s: string)
    | Arr(items: seq<Json>)
    | Obj(fields: Dict)

  type Dict = map<string, Json>

  /** Python's truth test, which decides whether a submitted secret counts as supplied. */
  predicate Truthy(v: Json) {
    match v
    case Null => false
    case Bool(b) => b
    case Int(i) => i != 0
    case Real(r) => r != 0.0
    case Str(s) => s != ""
    case Arr(items) => items != []
    case Obj(fields) => fields != map[]
  }

  /** The nesting depth of a value: the first component of every termination measure over values. */
  ghost function Depth(v: Json): (d: nat)
    ensures d > 0
  {
    match v
    case Arr(items) => 1 + MaxOf(set i | 0 <= i < |items| :: Depth(items[i]))
    case Obj(fields) => 1 + MaxOf(set k | k in fields :: Depth(fields[k]))
    case _ => 1
  }

  lemma FieldShallower(fields: Dict, k: string)
    requires k in fields
    ensures Depth(fields[k]) < Depth(Obj(fields))
  {
    var depths := set k' | k' in fields :: Depth(fields[k']);
    assert Depth(fields[k]) in depths && Depth(Obj(fields)) == 1 + MaxOf(depths);
  }

  lemma ItemShallower(items: seq<Json>, i: nat)
    requires i < |items|
    ensures Depth(items[i]) < Depth(Arr(items))
  {
    var depths := set i' | 0 <= i' < |items| :: Depth(items[i']);
    assert Depth(items[i]) in depths && Depth(Arr(items)) == 1 + MaxOf(depths);
  }

  lemma KeyDeepens(fields: Dict)
    ensures Depth(Obj(fields)) == 1 <==> fields == map[]
  {
    var depths := set k | k in fields :: Depth(fields[k]);
    assert Depth(Obj(fields)) == 1 + MaxOf(depths);
    if k :| k in fields {
      assert Depth(fields[k]) in depths;
    } else {
      assert depths == {};
    }
  }

  /** A value counts as supplied unless it is null, false, zero or empty. */
  lemma TruthyMeans(v: Json)
    ensures Truthy(v) <==> v !in {Null, Bool(false), Int(0), Real(0.0), Str(""), Arr([]), Obj(map[])}
  {
  }
}
