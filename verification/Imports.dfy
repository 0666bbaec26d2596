/**
 * Two ways of following imports between documents, cycles included: a list that grows while it is walked, and a
 * recursion that skips what it has met.
 */
module Imports {
  import opened Optional
  import opened Closure

  /** The imports of each document; None is one that cannot be resolved. */
  type ImportMap<T(==)> = map<T, seq<Option<T>>>

  function Resolved<T(==)>(imports: seq<Option<T>>): seq<T> {
    if imports == [] then []
    else (if imports[0].Some? then [imports[0].value] else []) + Resolved(imports[1..])
  }

  function ImportGraph<T(==)>(imports: ImportMap<T>): Graph<T> {
    map d | d in imports :: Resolved(imports[d])
  }

  function ImportsOf<T(==)>(imports: ImportMap<T>, d: T): seq<Option<T>> {
    if d in imports then imports[d] else []
  }

  lemma {:induction false} ResolvedAre<T>(imports: seq<Option<T>>, d: T)
    ensures d in Resolved(imports) <==> Some(d) in imports
  {
    if imports == [] {
    } else {
      ResolvedAre(imports[1..], d);
    }
  }

  lemma ImportsAre<T>(imports: ImportMap<T>, d: T, k: T)
    ensures k in Next(ImportGraph(imports), d) <==> Some(k) in ImportsOf(imports, d)
  {
    ResolvedAre(ImportsOf(imports, d), k);
  }

  /** Everything imported, directly or not. */
  ghost function Imported<T(!new)>(imports: ImportMap<T>, d: T): set<T> {
    Reach(ImportGraph(imports), {d}) - {d}
  }

  // ----- eagerLoadAllImports -----

  class EagerLoader<T(==,!new)> {
    const imports: ImportMap<T>
    var uris: set<T>

    constructor (imports: ImportMap<T>)
      ensures this.imports == imports && uris == {}
    {
      this.imports, uris := imports, {};
    }

    /** Depth first; all that a new document imports is loaded before the call is over. */
    method Load(d: T, ghost bound: set<T>)
      requires d in bound && Closed(ImportGraph(imports), bound)
      modifies this
      ensures old(uris) + {d} <= uris <= old(uris) + bound
      ensures forall n, k | n in uris && n !in old(uris) && k in Next(ImportGraph(imports), n) :: k in uris
      decreases bound - uris
    {
      if d in uris {
        return;
      }
      uris := uris + {d};
      var list := ImportsOf(imports, d);
      var i := 0;
      while i < |list|
        invariant 0 <= i <= |list|
        invariant old(uris) + {d} <= uris <= old(uris) + bound
        invariant forall k | Some(k) in list[..i] :: k in uris
        invariant forall n, k | n in uris && n !in old(uris) && n != d && k in Next(ImportGraph(imports), n) ::
          k in uris
      {
        if list[i].Some? {
          ImportsAre(imports, d, list[i].value);
          Load(list[i].value, bound);
        }
        assert list[..i + 1] == list[..i] + [list[i]];
        i := i + 1;
      }
      forall k | k in Next(ImportGraph(imports), d) ensures k in uris {
        ImportsAre(imports, d, k);
        assert list[..i] == list;
      }
    }

    method EagerLoadAllImports(d: T) returns (r: set<T>)
      requires uris == {}
      modifies this
      ensures r == Imported(imports, d)
    {
      ghost var g := ImportGraph(imports);
      ReachIsClosed(g, {d});
      Load(d, Reach(g, {d}));
      ClosedWithinReach(g, {d}, uris);
      r := uris - {d};
    }
  }

  // ----- resolveTransitiveImports -----

  class ImportResolver<T(==,!new), P(==,!new)> {
    const imports: ImportMap<T>
    const paths: map<T, P>      // the file path of each document, in lower case
    var visited: set<P>
    var models: set<T>

    constructor (imports: ImportMap<T>, paths: map<T, P>)
      ensures this.imports == imports && this.paths == paths && visited == {} && models == {}
    {
      this.imports, this.paths, visited, models := imports, paths, {}, {};
    }

    /** Different documents have different paths. */
    ghost predicate Identifies(docs: set<T>) {
      docs <= paths.Keys && forall a, b | a in docs && b in docs && paths[a] == paths[b] :: a == b
    }

    /** What the given documents import is collected. */
    ghost predicate Followed(n: T, initial: T)
      reads this
    {
      forall k | k in Next(ImportGraph(imports), n) :: Collected(k, initial)
    }

    ghost predicate Collected(n: T, initial: T)
      reads this
    {
      n in paths && paths[n] in visited && (n in models || n == initial)
    }

    method Resolve(model: T, initial: T, ghost bound: set<T>)
      requires Identifies(bound) && model in bound && initial in bound && Closed(ImportGraph(imports), bound)
      modifies this
      ensures old(visited) <= visited <= old(visited) + (set n | n in bound :: paths[n])
      ensures old(models) <= models <= old(models) + (bound - {initial})
      ensures Collected(model, initial)
      ensures forall n | n in bound && paths[n] in visited && paths[n] !in old(visited) :: Followed(n, initial)
      decreases (set n | n in bound :: paths[n]) - visited
    {
      if paths[initial] != paths[model] {
        models := models + {model};
      }
      if paths[model] in visited {
        return;
      }
      visited := visited + {paths[model]};
      var list := ImportsOf(imports, model);
      var i := 0;
      while i < |list|
        invariant 0 <= i <= |list|
        invariant old(visited) + {paths[model]} <= visited <= old(visited) + (set n | n in bound :: paths[n])
        invariant old(models) <= models <= old(models) + (bound - {initial}) && Collected(model, initial)
        invariant forall k | Some(k) in list[..i] :: Collected(k, initial)
        invariant forall n | n in bound && n != model && paths[n] in visited && paths[n] !in old(visited) ::
          Followed(n, initial)
      {
        if list[i].Some? {
          ImportsAre(imports, model, list[i].value);
          ghost var v := visited;
          label before:
          Resolve(list[i].value, initial, bound);
          forall n | n in bound && n != model && paths[n] in visited && paths[n] !in old(visited)
            ensures Followed(n, initial)
          {
            if paths[n] in v {
              assert old@before(Followed(n, initial));
            }
          }
        }
        assert list[..i + 1] == list[..i] + [list[i]];
        i := i + 1;
      }
      forall k | k in Next(ImportGraph(imports), model) ensures Collected(k, initial) {
        ImportsAre(imports, model, k);
        assert list[..i] == list;
      }
    }

    method ResolveTransitiveImports(model: T) returns (r: set<T>)
      requires visited == {} && models == {}
      requires Identifies(Reach(ImportGraph(imports), {model}))
      modifies this
      ensures r == Imported(imports, model)
    {
      ghost var g := ImportGraph(imports);
      ReachIsClosed(g, {model});
      ghost var docs := Reach(g, {model});
      Resolve(model, model, docs);
      AllCollected(model, docs);
      r := models;
    }

    lemma AllCollected(model: T, docs: set<T>)
      requires docs == Reach(ImportGraph(imports), {model}) && docs <= paths.Keys && Collected(model, model)
      requires forall n | n in docs && paths[n] in visited :: Followed(n, model)
      ensures forall n | n in docs :: Collected(n, model)
    {
      var g, found := ImportGraph(imports), set n | n in docs && Collected(n, model);
      ReachIsClosed(g, {model});
      forall n, k | n in found && k in Next(g, n) ensures k in found {
        assert Followed(n, model);
      }
      ReachStaysWithin(g, {model}, found);
      assert forall n | n in docs :: n in found;
    }
  }
}
