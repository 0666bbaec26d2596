/** Dropping the OpenAPI schemas that no path refers to, directly or through other schemas. */
module OpenApiPrune {
  import opened Json
  import opened Closure

  // ----- what a value refers to -----

  /** `ref.split('/').pop()` */
  function LastSegment(ref: string): (name: string)
    ensures '/' !in name
  {
    if ref == "" then ""
    else if '/' in ref then LastSegment(ref[1..])
    else ref
  }

  function RefName(j: Json): seq<string> {
    if j.Str? && LastSegment(j.s) != "" then [LastSegment(j.s)] else []
  }

  /** Names under `$ref` keys, anywhere in the value. */
  function Refs(value: Json): seq<string>
    decreases value, 0
  {
    match value
    case Arr(items) => ItemRefs(items)
    case Obj(fields) => FieldRefs(fields)
    case _ => []
  }

  function ItemRefs(items: seq<Json>): seq<string>
    decreases items, 1
  {
    if items == [] then [] else Refs(items[0]) + ItemRefs(items[1..])
  }

  function FieldRefs(fields: seq<Prop>): seq<string>
    decreases fields, 1
  {
    if fields == [] then []
    else (if fields[0].key == "$ref" then RefName(fields[0].val) else Refs(fields[0].val)) + FieldRefs(fields[1..])
  }

  /** `collectUsedComponents` */
  method CollectUsedComponents(value: Json, allUsed: set<string>) returns (used: set<string>)
    ensures used == allUsed + ToSet(Refs(value))
    decreases value
  {
    used := allUsed;
    match value {
      case Arr(items) =>
        var i := 0;
        assert items[0..] == items;
        while i < |items|
          invariant 0 <= i <= |items|
          invariant used + ToSet(ItemRefs(items[i..])) == allUsed + ToSet(Refs(value))
        {
          assert items[i..][1..] == items[i + 1..];
          used := CollectUsedComponents(items[i], used);
          i := i + 1;
        }
      case Obj(fields) =>
        var i := 0;
        assert fields[0..] == fields;
        while i < |fields|
          invariant 0 <= i <= |fields|
          invariant used + ToSet(FieldRefs(fields[i..])) == allUsed + ToSet(Refs(value))
        {
          assert fields[i..][1..] == fields[i + 1..];
          if fields[i].key == "$ref" {
            used := used + ToSet(RefName(fields[i].val));
          } else {
            used := CollectUsedComponents(fields[i].val, used);
          }
          i := i + 1;
        }
      case _ =>
    }
  }

  // ----- schemas as a graph -----

  function Uses(schemas: seq<Prop>): Graph<string> {
    if schemas == [] then map[] else Uses(schemas[1..])[schemas[0].key := Refs(schemas[0].val)]
  }

  lemma {:induction false} UsesIs(schemas: seq<Prop>, p: Prop)
    requires DistinctKeys(schemas) && p in schemas
    ensures p.key in Uses(schemas) && Uses(schemas)[p.key] == Refs(p.val)
  {
    if p != schemas[0] {
      UsesIs(schemas[1..], p);
    }
  }

  lemma {:induction false} UsesKeys(schemas: seq<Prop>, k: string)
    ensures k in Uses(schemas) <==> exists p | p in schemas :: p.key == k
  {
    if schemas == [] {
    } else {
      UsesKeys(schemas[1..], k);
      assert forall p :: p in schemas <==> p == schemas[0] || p in schemas[1..];
    }
  }

  function PathRefs(paths: seq<Prop>): set<string> {
    if paths == [] then {} else ToSet(Refs(paths[0].val)) + PathRefs(paths[1..])
  }

  function Kept(schemas: seq<Prop>, used: set<string>): seq<Prop> {
    if schemas == [] then []
    else (if schemas[0].key in used then [schemas[0]] else []) + Kept(schemas[1..], used)
  }

  lemma {:induction false} KeptAre(schemas: seq<Prop>, used: set<string>, p: Prop)
    ensures p in Kept(schemas, used) <==> p in schemas && p.key in used
  {
    if schemas == [] {
    } else {
      KeptAre(schemas[1..], used, p);
    }
  }

  // ----- pruneComponents -----

  /** The schemas that the paths reach. */
  ghost function Pruned(paths: seq<Prop>, schemas: seq<Prop>): seq<Prop> {
    Kept(schemas, Reach(Uses(schemas), PathRefs(paths)))
  }

  class Components {
    var schemas: seq<Prop>

    constructor (schemas: seq<Prop>)
      ensures this.schemas == schemas
    {
      this.schemas := schemas;
    }

    /** One pass over the schemas on the worklist. */
    method CollectFrom(todo: set<string>, allUsed: set<string>, ghost bound: set<string>) returns (used: set<string>)
      requires DistinctKeys(schemas) && Closed(Uses(schemas), bound) && todo <= allUsed <= bound
      ensures allUsed <= used <= bound
      ensures forall n, k | n in todo && k in Next(Uses(schemas), n) :: k in used
    {
      var g := Uses(schemas);
      used := allUsed;
      var i := 0;
      while i < |schemas|
        invariant 0 <= i <= |schemas| && allUsed <= used <= bound
        invariant forall j, k | 0 <= j < i && schemas[j].key in todo && k in Refs(schemas[j].val) :: k in used
      {
        if schemas[i].key in todo {
          UsesIs(schemas, schemas[i]);
          assert schemas[i].key in bound;
          assert forall k | k in Refs(schemas[i].val) :: k in Next(g, schemas[i].key);
          var before := used;
          used := CollectUsedComponents(schemas[i].val, used);
          assert forall k | k in Refs(schemas[i].val) :: k in ToSet(Refs(schemas[i].val));
        }
        i := i + 1;
      }
      forall n, k | n in todo && k in Next(g, n) ensures k in used {
        UsesKeys(schemas, n);
        var p :| p in schemas && p.key == n;
        UsesIs(schemas, p);
        var j :| 0 <= j < |schemas| && schemas[j] == p;
        assert schemas[j].key in todo;
      }
    }

    method CollectRoots(paths: seq<Prop>) returns (roots: set<string>)
      ensures roots == PathRefs(paths)
    {
      roots := {};
      var i := 0;
      assert paths[0..] == paths;
      while i < |paths|
        invariant 0 <= i <= |paths|
        invariant roots + PathRefs(paths[i..]) == PathRefs(paths)
      {
        assert paths[i..][1..] == paths[i + 1..];
        roots := CollectUsedComponents(paths[i].val, roots);
        i := i + 1;
      }
    }

    /** The worklist: everything new is looked into in the next round. */
    method CloseOver(roots: set<string>, ghost bound: set<string>) returns (allUsed: set<string>)
      requires DistinctKeys(schemas) && roots <= bound && Closed(Uses(schemas), bound)
      ensures roots <= allUsed <= bound && Closed(Uses(schemas), allUsed)
    {
      ghost var g := Uses(schemas);
      allUsed := roots;
      var todo := roots;
      while todo != {}
        invariant todo <= allUsed && roots <= allUsed <= bound
        invariant forall n, k | n in allUsed && n !in todo && k in Next(g, n) :: k in allUsed
        decreases bound - allUsed, todo
      {
        var curr := allUsed;
        allUsed := CollectFrom(todo, allUsed, bound);
        todo := allUsed - curr;
      }
    }

    method PruneComponents(paths: seq<Prop>)
      requires DistinctKeys(schemas)
      modifies this
      ensures schemas == Pruned(paths, old(schemas))
    {
      var roots := CollectRoots(paths);
      ghost var g := Uses(schemas);
      ReachIsClosed(g, roots);
      var allUsed := CloseOver(roots, Reach(g, roots));
      ClosedWithinReach(g, roots, allUsed);
      schemas := Kept(schemas, allUsed);
    }
  }

  // ----- what pruning means for references -----

  lemma {:induction false} KeptDistinct(schemas: seq<Prop>, used: set<string>)
    requires DistinctKeys(schemas)
    ensures DistinctKeys(Kept(schemas, used))
  {
    if schemas == [] {
    } else {
      var rest := Kept(schemas[1..], used);
      KeptDistinct(schemas[1..], used);
      forall p | p in rest ensures p.key != schemas[0].key {
        KeptAre(schemas[1..], used, p);
      }
    }
  }

  lemma {:induction false} KeptTwice(schemas: seq<Prop>, used: set<string>)
    ensures Kept(Kept(schemas, used), used) == Kept(schemas, used)
  {
    if schemas == [] {
    } else {
      KeptTwice(schemas[1..], used);
      var rest := Kept(schemas[1..], used);
      if schemas[0].key in used {
        assert ([schemas[0]] + rest)[1..] == rest;
      } else {
        assert [] + rest == rest;
      }
    }
  }

  /** What remains refers to the same schemas as before. */
  lemma SameUses(schemas: seq<Prop>, used: set<string>, n: string)
    requires DistinctKeys(schemas) && n in used
    ensures Next(Uses(Kept(schemas, used)), n) == Next(Uses(schemas), n)
  {
    var kept := Kept(schemas, used);
    KeptDistinct(schemas, used);
    UsesKeys(schemas, n);
    UsesKeys(kept, n);
    if p :| p in schemas && p.key == n {
      KeptAre(schemas, used, p);
      UsesIs(schemas, p);
      UsesIs(kept, p);
    } else if p :| p in kept && p.key == n {
      KeptAre(schemas, used, p);
    }
  }

  /** Pruning again changes nothing. */
  lemma PruneTwice(paths: seq<Prop>, schemas: seq<Prop>)
    requires DistinctKeys(schemas)
    ensures Pruned(paths, Pruned(paths, schemas)) == Pruned(paths, schemas)
  {
    var g, all := Uses(schemas), Reach(Uses(schemas), PathRefs(paths));
    forall n | n in all ensures Next(Uses(Kept(schemas, all)), n) == Next(g, n) {
      SameUses(schemas, all, n);
    }
    SameReach(g, Uses(Kept(schemas, all)), PathRefs(paths));
    KeptTwice(schemas, all);
  }

  /** The paths or one of the schemas refer to the name. */
  ghost predicate Referred(paths: seq<Prop>, schemas: seq<Prop>, name: string) {
    name in PathRefs(paths) || exists q | q in schemas :: name in Refs(q.val)
  }

  /** A reference from what remains leads to a schema exactly if it did before. */
  lemma NoReferenceDangles(paths: seq<Prop>, schemas: seq<Prop>, p: Prop)
    requires DistinctKeys(schemas) && Referred(paths, Pruned(paths, schemas), p.key)
    ensures p in Pruned(paths, schemas) <==> p in schemas
  {
    var g, roots := Uses(schemas), PathRefs(paths);
    var all := Reach(g, roots);
    ReachIsClosed(g, roots);
    KeptAre(schemas, all, p);
    if p.key !in roots {
      var q :| q in Pruned(paths, schemas) && p.key in Refs(q.val);
      KeptAre(schemas, all, q);
      UsesIs(schemas, q);
      assert p.key in Next(g, q.key);
    }
  }

  /** Names that could be kept without a dangling reference. */
  ghost predicate Suffices(paths: seq<Prop>, schemas: seq<Prop>, names: set<string>) {
    && (forall p | p in schemas && p.key in PathRefs(paths) :: p.key in names)
    && forall p, q | p in schemas && q in schemas && q.key in names && p.key in Refs(q.val) :: p.key in names
  }

  /** Nothing more could be dropped. */
  lemma PruningIsMaximal(paths: seq<Prop>, schemas: seq<Prop>, names: set<string>, p: Prop)
    requires DistinctKeys(schemas) && Suffices(paths, schemas, names) && p in Pruned(paths, schemas)
    ensures p.key in names
  {
    var g, roots := Uses(schemas), PathRefs(paths);
    var all := Reach(g, roots);
    ReachIsClosed(g, roots);
    KeptAre(schemas, all, p);
    var fine := set n | n in all && (n in g ==> n in names);
    forall n | n in roots ensures n in fine {
      UsesKeys(schemas, n);
    }
    forall n, k | n in fine && k in Next(g, n) ensures k in fine {
      UsesKeys(schemas, n);
      UsesKeys(schemas, k);
      var q :| q in schemas && q.key == n;
      UsesIs(schemas, q);
    }
    ReachStaysWithin(g, roots, fine);
    UsesKeys(schemas, p.key);
  }
}
