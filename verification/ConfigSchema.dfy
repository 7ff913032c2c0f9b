/**
 * The subset of JSON Schema 2020-12 that the configuration walker interprets:
 * `$ref` / `$defs` (Core 8.2.3.1, 8.2.4), `properties`, `items` and
 * `additionalProperties` (Core 10.3), and the `default` and `writeOnly`
 * annotations (Validation 9.2, 9.4).
 */
module ConfigSchema {
  import opened Wrappers
  import opened JsonModel

  /** The `type` keyword; `OtherType` also stands for an absent or non-string one. */
  datatype SchemaType =
    | ObjectType | ArrayType | IntegerType | NumberType | BooleanType | StringType | OtherType

  /**
   * One sub-schema.  `additional` and `items` are `Some` exactly when the keyword holds an
   * object; for `additionalProperties` the object must also be non-empty, because `true` and
   * `{}` carry no type to dispatch on.
   */
  datatype Schema = Schema(
    ref: Option<string>,
    typ: SchemaType,
    format: string,
    writeOnly: bool,
    default: Option<Json>,
    properties: map<string, Schema>,
    items: Option<Schema>,
    additional: Option<Schema>)

  /** A root schema together with its `$defs`; references resolve against the root only. */
  datatype Doc = Doc(root: Schema, defs: map<string, Schema>)

  const DEFS_PREFIX := "#/$defs/"

  predicate IsSecret(p: Schema) {
    p.format == "password" && p.writeOnly
  }

  /** The definition a property refers to, if it refers to one that exists. */
  function Target(doc: Doc, p: Schema): Option<string> {
    if p.ref.Some? && DEFS_PREFIX <= p.ref.value && p.ref.value[|DEFS_PREFIX|..] in doc.defs
    then Some(p.ref.value[|DEFS_PREFIX|..])
    else None
  }

  /** One hop: a reference inside the referenced definition is not followed further. */
  function Resolve(doc: Doc, p: Schema): Schema {
    if Target(doc, p).Some? then doc.defs[Target(doc, p).value] else p
  }

  /** A local reference to a definition that exists stands for it. */
  lemma ResolveMeans(doc: Doc, p: Schema, d: string)
    requires d in doc.defs && p.ref == Some("#/$defs/" + d)
    ensures Resolve(doc, p) == doc.defs[d]
  {
    assert p.ref.value[|DEFS_PREFIX|..] == d;
  }

  /** Whatever does not stand for itself is such a reference. */
  lemma ResolvesOnlyRefs(doc: Doc, p: Schema) returns (d: string)
    requires Resolve(doc, p) != p
    ensures d in doc.defs && p.ref == Some("#/$defs/" + d) && Resolve(doc, p) == doc.defs[d]
  {
    d := Target(doc, p).value;
    assert p.ref.value == "#/$defs/" + d;
  }

  /** The schema whose declared object the walker descends into without consuming a value. */
  predicate Descends(p: Schema) {
    !IsSecret(p) && p.typ.ObjectType?
  }

  /** The resolved `items` schema when it describes objects, the only case arrays are walked in. */
  function ObjectItems(doc: Doc, p: Schema): Option<Schema> {
    if p.items.Some? && Resolve(doc, p.items.value).typ.ObjectType? then Some(Resolve(doc, p.items.value)) else None
  }

  /** The items of an array are described if `items` is, or refers to, the schema of an object, and only then. */
  lemma ObjectItemsMeans(doc: Doc, p: Schema)
    ensures p.items.None? ==> ObjectItems(doc, p).None?
    ensures p.items.Some? ==>
      var r := Resolve(doc, p.items.value); ObjectItems(doc, p) == if r.typ == ObjectType then Some(r) else None
  {
  }

  /** The schema of an array whose items the walker descends into. */
  predicate ListsObjects(doc: Doc, p: Schema) {
    !IsSecret(p) && p.typ.ArrayType? && ObjectItems(doc, p).Some?
  }

  // ---- Which documents can be walked at all ------------------------------------------------

  /** The schemas that describe the keys of an object, references not yet resolved. */
  function KeySchemas(s: Schema): set<Schema> {
    (set k | k in s.properties :: s.properties[k]) + if s.additional.Some? then {s.additional.value} else {}
  }

  /** The walk of an object described by `s` can go on to an object described by `t`. */
  predicate LeadsTo(doc: Doc, s: Schema, t: Schema) {
    exists x | x in KeySchemas(s) ::
      var p := Resolve(doc, x);
      (Descends(p) && t == p) || (ListsObjects(doc, p) && ObjectItems(doc, p) == Some(t))
  }

  ghost predicate Closed(doc: Doc, inside: Schema -> bool) {
    forall s, t :: inside(s) && LeadsTo(doc, s, t) ==> inside(t)
  }

  /** The schemas of the objects that a walk from the root can come to. */
  ghost predicate Reachable(doc: Doc, s: Schema) {
    forall inside: Schema -> bool :: Closed(doc, inside) && inside(doc.root) ==> inside(s)
  }

  ghost predicate Ranks(doc: Doc, rank: Schema -> nat) {
    forall s: Schema, k :: Reachable(doc, s) && k in s.properties && Descends(Resolve(doc, s.properties[k])) ==>
      rank(Resolve(doc, s.properties[k])) < rank(s)
  }

  /** Every chain of declared object properties from the root is finite.  Cycles through arrays and maps are fine. */
  ghost predicate Grounded(doc: Doc) {
    exists rank: Schema -> nat :: Ranks(doc, rank)
  }

  /** A schema that a walk of the document can come to. */
  ghost predicate Walkable(doc: Doc, s: Schema) {
    Grounded(doc) && Reachable(doc, s)
  }

  lemma LeadsToReachable(doc: Doc, s: Schema, t: Schema)
    requires Reachable(doc, s) && LeadsTo(doc, s, t)
    ensures Reachable(doc, t)
  {
    forall inside: Schema -> bool | Closed(doc, inside) && inside(doc.root) ensures inside(t) {
      assert inside(s);
    }
  }

  ghost function Rank(doc: Doc, s: Schema): nat
    requires Grounded(doc)
  {
    var rank: Schema -> nat :| Ranks(doc, rank);
    rank(s)
  }

  lemma RankDecreases(doc: Doc, s: Schema, k: string)
    requires Walkable(doc, s) && k in s.properties && Descends(Resolve(doc, s.properties[k]))
    ensures Rank(doc, Resolve(doc, s.properties[k])) < Rank(doc, s)
  {
  }

  /**
   * A finite certificate for `Grounded`: a level for each definition of objects that a walk can come
   * to, such that each of them reaches, along declared object properties written inline, only lower
   * ones; and the definitions of arrays whose items it can come to.
   */
  datatype Layers = Layers(level: map<string, nat>, lists: set<string>)

  predicate Layered(doc: Doc, c: Layers) {
    && c.level.Keys <= doc.defs.Keys && c.lists <= doc.defs.Keys
    && Covered(doc, c, doc.root)
    && (forall d | d in c.level :: Covered(doc, c, doc.defs[d]) && RefsBelow(doc, c.level, doc.defs[d], c.level[d]))
    && forall d | d in c.lists :: CoversItems(doc, c, doc.defs[d])
  }

  /** Every definition that the walk of an object goes on to, at any inline depth, is in the certificate. */
  predicate Covered(doc: Doc, c: Layers, s: Schema)
    decreases s, 1
  {
    && (forall k | k in s.properties :: CoversKey(doc, c, s.properties[k]))
    && (s.additional.Some? ==> CoversKey(doc, c, s.additional.value))
  }

  predicate CoversKey(doc: Doc, c: Layers, x: Schema)
    decreases x, 3
  {
    match Target(doc, x)
    case Some(d) => (Descends(doc.defs[d]) ==> d in c.level) && (ListsObjects(doc, doc.defs[d]) ==> d in c.lists)
    case None => (Descends(x) ==> Covered(doc, c, x)) && (ListsObjects(doc, x) ==> CoversItems(doc, c, x))
  }

  predicate CoversItems(doc: Doc, c: Layers, p: Schema)
    decreases p, 2
  {
    p.items.Some? ==>
      match Target(doc, p.items.value)
      case Some(d) => d in c.level
      case None => Covered(doc, c, p.items.value)
  }

  predicate RefsBelow(doc: Doc, level: map<string, nat>, s: Schema, bound: nat) {
    forall k | k in s.properties ::
      Descends(Resolve(doc, s.properties[k])) ==>
        match Target(doc, s.properties[k])
        case Some(d) => d in level && level[d] < bound
        case None => RefsBelow(doc, level, s.properties[k], bound)
  }

  /** The rank of a schema read off a certificate: one more than everything it descends into. */
  ghost function CertifiedRank(doc: Doc, c: Layers, s: Schema, bound: nat): (r: nat)
    requires Layered(doc, c) && RefsBelow(doc, c.level, s, bound)
    decreases bound, s
  {
    1 + MaxOf(set k | k in s.properties && Descends(Resolve(doc, s.properties[k])) ::
                CertifiedEdge(doc, c, s, k, bound))
  }

  ghost function CertifiedEdge(doc: Doc, c: Layers, s: Schema, k: string, bound: nat): nat
    requires Layered(doc, c) && RefsBelow(doc, c.level, s, bound)
    requires k in s.properties && Descends(Resolve(doc, s.properties[k]))
    decreases bound, s, 0
  {
    match Target(doc, s.properties[k])
    case Some(d) => CertifiedRank(doc, c, doc.defs[d], c.level[d])
    case None => CertifiedRank(doc, c, s.properties[k], bound)
  }

  lemma CertifiedEdgeBelow(doc: Doc, c: Layers, s: Schema, k: string, bound: nat)
    requires Layered(doc, c) && RefsBelow(doc, c.level, s, bound)
    requires k in s.properties && Descends(Resolve(doc, s.properties[k]))
    ensures CertifiedEdge(doc, c, s, k, bound) < CertifiedRank(doc, c, s, bound)
  {
    var edges := set k' | k' in s.properties && Descends(Resolve(doc, s.properties[k'])) ::
      CertifiedEdge(doc, c, s, k', bound);
    assert CertifiedEdge(doc, c, s, k, bound) in edges;
    assert CertifiedRank(doc, c, s, bound) == 1 + MaxOf(edges);
  }

  lemma {:induction false} CertifiedRankStable(doc: Doc, c: Layers, s: Schema, lo: nat, hi: nat)
    requires Layered(doc, c) && RefsBelow(doc, c.level, s, lo) && RefsBelow(doc, c.level, s, hi)
    ensures CertifiedRank(doc, c, s, lo) == CertifiedRank(doc, c, s, hi)
    decreases s
  {
    forall k | k in s.properties && Descends(Resolve(doc, s.properties[k]))
      ensures CertifiedEdge(doc, c, s, k, lo) == CertifiedEdge(doc, c, s, k, hi)
    {
      if Target(doc, s.properties[k]).None? {
        CertifiedRankStable(doc, c, s.properties[k], lo, hi);
      }
    }
    assert (set k | k in s.properties && Descends(Resolve(doc, s.properties[k])) :: CertifiedEdge(doc, c, s, k, lo))
        == (set k | k in s.properties && Descends(Resolve(doc, s.properties[k])) :: CertifiedEdge(doc, c, s, k, hi));
  }

  /** With a bound above every level, every covered schema is within it. */
  lemma {:induction false} AllRefsBelow(doc: Doc, c: Layers, s: Schema, bound: nat)
    requires Covered(doc, c, s) && forall d | d in c.level :: c.level[d] < bound
    ensures RefsBelow(doc, c.level, s, bound)
    decreases s
  {
    forall k | k in s.properties && Descends(Resolve(doc, s.properties[k]))
      ensures match Target(doc, s.properties[k])
              case Some(d) => d in c.level && c.level[d] < bound
              case None => RefsBelow(doc, c.level, s.properties[k], bound)
    {
      assert CoversKey(doc, c, s.properties[k]);
      if Target(doc, s.properties[k]).None? {
        AllRefsBelow(doc, c, s.properties[k], bound);
      }
    }
  }

  lemma CoveredIsClosed(doc: Doc, c: Layers, s: Schema, t: Schema)
    requires Layered(doc, c) && Covered(doc, c, s) && LeadsTo(doc, s, t)
    ensures Covered(doc, c, t)
  {
    var x :| x in KeySchemas(s) && var p := Resolve(doc, x);
      (Descends(p) && t == p) || (ListsObjects(doc, p) && ObjectItems(doc, p) == Some(t));
    assert CoversKey(doc, c, x);
    assert ListsObjects(doc, Resolve(doc, x)) ==> CoversItems(doc, c, Resolve(doc, x));
  }

  lemma {:induction false} ReachableIsCovered(doc: Doc, c: Layers, s: Schema)
    requires Layered(doc, c) && Reachable(doc, s)
    ensures Covered(doc, c, s)
  {
    var inside: Schema -> bool := t => Covered(doc, c, t);
    forall a, b | inside(a) && LeadsTo(doc, a, b) ensures inside(b) {
      CoveredIsClosed(doc, c, a, b);
    }
    assert Closed(doc, inside) && inside(doc.root);
  }

  lemma {:induction false} LayeredIsGrounded(doc: Doc, c: Layers)
    requires Layered(doc, c)
    ensures Grounded(doc)
  {
    var levels := set d | d in c.level :: c.level[d];
    var top := 1 + MaxOf(levels);
    assert forall d | d in c.level :: c.level[d] in levels;
    var rank: Schema -> nat := s => RankUpTo(doc, c, s, top);
    forall s: Schema, k | Reachable(doc, s) && k in s.properties && Descends(Resolve(doc, s.properties[k]))
      ensures rank(Resolve(doc, s.properties[k])) < rank(s)
    {
      CertifiedEdgeRanks(doc, c, s, k, top);
    }
    assert Ranks(doc, rank);
  }

  ghost function RankUpTo(doc: Doc, c: Layers, s: Schema, top: nat): nat
    requires Layered(doc, c)
  {
    if RefsBelow(doc, c.level, s, top) then CertifiedRank(doc, c, s, top) else 0
  }

  lemma {:induction false} CertifiedEdgeRanks(doc: Doc, c: Layers, s: Schema, k: string, top: nat)
    requires Layered(doc, c) && Reachable(doc, s) && forall d | d in c.level :: c.level[d] < top
    requires k in s.properties && Descends(Resolve(doc, s.properties[k]))
    ensures RankUpTo(doc, c, Resolve(doc, s.properties[k]), top) < RankUpTo(doc, c, s, top)
  {
    var t := Resolve(doc, s.properties[k]);
    assert s.properties[k] in KeySchemas(s);
    ReachableIsCovered(doc, c, s);
    CoveredIsClosed(doc, c, s, t);
    AllRefsBelow(doc, c, s, top);
    AllRefsBelow(doc, c, t, top);
    CertifiedEdgeBelow(doc, c, s, k, top);
    if Target(doc, s.properties[k]).Some? {
      var d := Target(doc, s.properties[k]).value;
      CertifiedRankStable(doc, c, doc.defs[d], c.level[d], top);
    }
  }

  /** The ranks of the reachable definitions, and the definitions of arrays with reachable items. */
  ghost function RankLayers(doc: Doc): Layers
    requires Grounded(doc)
  {
    Layers(map d | d in doc.defs && Reachable(doc, doc.defs[d]) :: Rank(doc, doc.defs[d]),
           set d | d in doc.defs && ReachesItems(doc, doc.defs[d]))
  }

  ghost predicate ReachesItems(doc: Doc, p: Schema) {
    ListsObjects(doc, p) && Reachable(doc, ObjectItems(doc, p).value)
  }

  lemma {:induction false} RankBoundsRefs(doc: Doc, s: Schema, bound: nat)
    requires Walkable(doc, s) && Rank(doc, s) <= bound
    ensures RefsBelow(doc, RankLayers(doc).level, s, bound)
    decreases s
  {
    var level := RankLayers(doc).level;
    forall k | k in s.properties && Descends(Resolve(doc, s.properties[k]))
      ensures match Target(doc, s.properties[k])
              case Some(d) => d in level && level[d] < bound
              case None => RefsBelow(doc, level, s.properties[k], bound)
    {
      assert s.properties[k] in KeySchemas(s);
      LeadsToReachable(doc, s, Resolve(doc, s.properties[k]));
      RankDecreases(doc, s, k);
      if Target(doc, s.properties[k]).None? {
        RankBoundsRefs(doc, s.properties[k], bound);
      }
    }
  }

  lemma {:induction false} RankLayersCover(doc: Doc, s: Schema)
    requires Walkable(doc, s)
    ensures Covered(doc, RankLayers(doc), s)
    decreases s, 1
  {
    forall k | k in s.properties ensures CoversKey(doc, RankLayers(doc), s.properties[k]) {
      assert s.properties[k] in KeySchemas(s);
      RankLayersCoverKey(doc, s, s.properties[k]);
    }
    if s.additional.Some? {
      RankLayersCoverKey(doc, s, s.additional.value);
    }
  }

  lemma {:induction false} RankLayersCoverKey(doc: Doc, s: Schema, x: Schema)
    requires Walkable(doc, s) && x in KeySchemas(s)
    ensures CoversKey(doc, RankLayers(doc), x)
    decreases x, 3
  {
    var p := Resolve(doc, x);
    if Descends(p) {
      LeadsToReachable(doc, s, p);
      if Target(doc, x).None? {
        RankLayersCover(doc, x);
      }
    }
    if ListsObjects(doc, p) {
      LeadsToReachable(doc, s, ObjectItems(doc, p).value);
      if Target(doc, x).None? {
        RankLayersCoverItems(doc, x);
      }
    }
  }

  lemma {:induction false} RankLayersCoverItems(doc: Doc, p: Schema)
    requires Grounded(doc) && ReachesItems(doc, p)
    ensures CoversItems(doc, RankLayers(doc), p)
    decreases p, 2
  {
    if Target(doc, p.items.value).None? {
      RankLayersCover(doc, p.items.value);
    }
  }

  /** The walk is well-founded exactly for the documents that have a finite certificate. */
  lemma {:induction false} GroundedIffLayered(doc: Doc)
    ensures Grounded(doc) <==> exists c :: Layered(doc, c)
  {
    if Grounded(doc) {
      var c := RankLayers(doc);
      RootIsReachable(doc);
      RankLayersCover(doc, doc.root);
      forall d | d in c.level
        ensures Covered(doc, c, doc.defs[d]) && RefsBelow(doc, c.level, doc.defs[d], c.level[d])
      {
        RankLayersCover(doc, doc.defs[d]);
        RankBoundsRefs(doc, doc.defs[d], c.level[d]);
      }
      forall d | d in c.lists ensures CoversItems(doc, c, doc.defs[d]) {
        RankLayersCoverItems(doc, doc.defs[d]);
      }
      assert Layered(doc, c);
    }
    if c :| Layered(doc, c) {
      LayeredIsGrounded(doc, c);
    }
  }

  lemma RootIsReachable(doc: Doc)
    ensures Reachable(doc, doc.root)
  {
  }
}
