/**
 * Walking an object graph that may have cycles, with a callback that changes nothing. A path of property names is
 * visited if it leads somewhere and meets no object twice.
 */
module SimpleTraverse {
  import opened Optional
  import opened Closure

  datatype Value<T> = Prim(text: string) | Ref(o: T)

  datatype Entry<T> = Entry(key: string, value: Value<T>)

  /** The entries of each object, in the order of its keys. */
  type Objects<T(==)> = map<T, seq<Entry<T>>>

  /** One call of the callback. */
  datatype Call<T> = Call(path: seq<string>, key: Option<string>, value: Value<T>)

  predicate DistinctKeys<T>(entries: seq<Entry<T>>) {
    forall i, j | 0 <= i < j < |entries| :: entries[i].key != entries[j].key
  }

  ghost predicate WellFormed<T>(g: Objects<T>) {
    forall o | o in g :: DistinctKeys(g[o]) && forall e | e in g[o] && e.value.Ref? :: e.value.o in g
  }

  function KeyOf(path: seq<string>): Option<string> {
    if path == [] then None else Some(path[|path| - 1])
  }

  /** The calls for a value found at `path` below `parents`. */
  function Calls<T(==)>(g: Objects<T>, path: seq<string>, parents: seq<T>, v: Value<T>): seq<Call<T>>
    decreases g.Keys - ToSet(parents), 1, 0
  {
    [Call(path, KeyOf(path), v)]
    + (if v.Ref? && v.o !in parents && v.o in g then
         assert v.o in ToSet(parents + [v.o]) && ToSet(parents) <= ToSet(parents + [v.o]);
         EntryCalls(g, path, parents + [v.o], g[v.o])
       else [])
  }

  function EntryCalls<T(==)>(g: Objects<T>, path: seq<string>, parents: seq<T>, entries: seq<Entry<T>>): seq<Call<T>>
    decreases g.Keys - ToSet(parents), 2, |entries|
  {
    if entries == [] then []
    else Calls(g, path + [entries[0].key], parents, entries[0].value) + EntryCalls(g, path, parents, entries[1..])
  }

  // ----- the walk on the heap -----

  lemma CallsOfObject<T>(g: Objects<T>, path: seq<string>, parents: seq<T>, v: Value<T>)
    requires v.Ref? && v.o !in parents && v.o in g
    ensures Calls(g, path, parents, v)
         == [Call(path, KeyOf(path), v)] + EntryCalls(g, path, parents + [v.o], g[v.o])
  {
    assert v.o in ToSet(parents + [v.o]) && ToSet(parents) <= ToSet(parents + [v.o]);
  }

  class JsNode {
    var entries: seq<Entry<JsNode>>
  }

  function Snapshot(nodes: set<JsNode>): Objects<JsNode>
    reads nodes
  {
    map o | o in nodes :: o.entries
  }

  ghost predicate ClosedHeap(nodes: set<JsNode>)
    reads nodes
  {
    forall o, i | o in nodes && 0 <= i < |o.entries| && o.entries[i].value.Ref? :: o.entries[i].value.o in nodes
  }

  class Traverser {
    var path: seq<string>
    var parents: seq<JsNode>
    var log: seq<Call<JsNode>>

    constructor ()
      ensures path == [] && parents == [] && log == []
    {
      path, parents, log := [], [], [];
    }

    /** Leaves both stacks as they were. */
    method Walker(node: Value<JsNode>, ghost nodes: set<JsNode>)
      requires ClosedHeap(nodes) && (node.Ref? ==> node.o in nodes)
      modifies this
      ensures path == old(path) && parents == old(parents)
      ensures log == old(log) + Calls(Snapshot(nodes), old(path), old(parents), node)
      decreases nodes - ToSet(parents), 1, 0
    {
      var isCircular := node.Ref? && node.o in parents;
      log := log + [Call(path, KeyOf(path), node)];
      if node.Ref? && !isCircular {
        parents := parents + [node.o];
        CallsOfObject(Snapshot(nodes), path, old(parents), node);
        assert node.o in ToSet(parents) && ToSet(old(parents)) <= ToSet(parents);
        WalkEntries(node.o.entries, nodes);
        parents := parents[..|parents| - 1];
      }
    }

    /** `Object.keys(node).forEach(...)` */
    method WalkEntries(entries: seq<Entry<JsNode>>, ghost nodes: set<JsNode>)
      requires ClosedHeap(nodes) && forall i | 0 <= i < |entries| && entries[i].value.Ref? ::
        entries[i].value.o in nodes
      modifies this
      ensures path == old(path) && parents == old(parents)
      ensures log == old(log) + EntryCalls(Snapshot(nodes), path, parents, entries)
      decreases nodes - ToSet(parents), 2, |entries|
    {
      ghost var g, done := Snapshot(nodes), [];
      var i := 0;
      assert entries[0..] == entries && log + done == log;
      while i < |entries|
        invariant 0 <= i <= |entries|
        invariant path == old(path) && parents == old(parents) && log == old(log) + done
        invariant done + EntryCalls(g, path, parents, entries[i..]) == EntryCalls(g, path, parents, entries)
      {
        EntryStep(g, path, parents, entries, i, done);
        done := done + Calls(g, path + [entries[i].key], parents, entries[i].value);
        path := path + [entries[i].key];
        Walker(entries[i].value, nodes);
        path := path[..|path| - 1];
        i := i + 1;
      }
      assert done + [] == done;
    }
  }

  lemma EntryStep<T>(
      g: Objects<T>, path: seq<string>, parents: seq<T>, entries: seq<Entry<T>>, i: nat, done: seq<Call<T>>)
    requires i < |entries|
    ensures done + EntryCalls(g, path, parents, entries[i..])
         == (done + Calls(g, path + [entries[i].key], parents, entries[i].value))
            + EntryCalls(g, path, parents, entries[i + 1..])
  {
    assert entries[i..][0] == entries[i] && entries[i..][1..] == entries[i + 1..];
  }

  // ----- what is visited -----

  function Find<T>(entries: seq<Entry<T>>, key: string): Option<Value<T>> {
    if entries == [] then None
    else if entries[0].key == key then Some(entries[0].value)
    else Find(entries[1..], key)
  }

  function Member<T(==)>(g: Objects<T>, v: Value<T>, key: string): Option<Value<T>> {
    if v.Ref? && v.o in g then Find(g[v.o], key) else None
  }

  /** The value at the end of a path. */
  function Follow<T(==)>(g: Objects<T>, v: Value<T>, path: seq<string>): Option<Value<T>>
    decreases |path|
  {
    if path == [] then Some(v)
    else
      match Member(g, v, path[0])
      case None => None
      case Some(child) => Follow(g, child, path[1..])
  }

  /** The objects that a path leaves, from the root on. */
  function Ancestors<T(==)>(g: Objects<T>, v: Value<T>, path: seq<string>): seq<T>
    decreases |path|
  {
    if path == [] || !v.Ref? then []
    else
      [v.o] + (match Member(g, v, path[0])
               case None => []
               case Some(child) => Ancestors(g, child, path[1..]))
  }

  function Count<T>(calls: seq<Call<T>>, path: seq<string>): nat {
    if calls == [] then 0 else (if calls[0].path == path then 1 else 0) + Count(calls[1..], path)
  }

  lemma {:induction false} CountJoin<T>(a: seq<Call<T>>, b: seq<Call<T>>, path: seq<string>)
    ensures Count(a + b, path) == Count(a, path) + Count(b, path)
  {
    if a == [] {
      assert a + b == b;
    } else {
      assert (a + b)[1..] == a[1..] + b;
      CountJoin(a[1..], b, path);
    }
  }

  /** A path along which no object is left twice, nor any of `parents`. */
  ghost predicate Simple<T>(g: Objects<T>, parents: seq<T>, v: Value<T>, path: seq<string>)
    decreases |path|
  {
    path != [] ==>
      v.Ref? && v.o !in parents && Member(g, v, path[0]).Some?
      && Simple(g, parents + [v.o], Member(g, v, path[0]).value, path[1..])
  }

  /** All calls below a path extend it. */
  lemma {:induction false} CallsExtend<T>(g: Objects<T>, path: seq<string>, parents: seq<T>, v: Value<T>, c: Call<T>)
    requires c in Calls(g, path, parents, v)
    ensures path <= c.path
    decreases g.Keys - ToSet(parents), 1, 0
  {
    if c.path != path {
      assert v.o in ToSet(parents + [v.o]) && ToSet(parents) <= ToSet(parents + [v.o]);
      var k := EntryCallsExtend(g, path, parents + [v.o], g[v.o], c);
    }
  }

  lemma {:induction false} EntryCallsExtend<T>(
      g: Objects<T>, path: seq<string>, parents: seq<T>, entries: seq<Entry<T>>, c: Call<T>) returns (k: string)
    requires c in EntryCalls(g, path, parents, entries)
    ensures path + [k] <= c.path && exists e | e in entries :: e.key == k
    decreases g.Keys - ToSet(parents), 2, |entries|
  {
    k := entries[0].key;
    if c in Calls(g, path + [k], parents, entries[0].value) {
      CallsExtend(g, path + [k], parents, entries[0].value, c);
      assert entries[0] in entries;
    } else {
      k := EntryCallsExtend(g, path, parents, entries[1..], c);
    }
  }

  lemma {:induction false} NoneCounted<T>(calls: seq<Call<T>>, path: seq<string>)
    requires forall c | c in calls :: c.path != path
    ensures Count(calls, path) == 0
  {
    if calls == [] {
    } else {
      NoneCounted(calls[1..], path);
    }
  }

  /** Of the calls below an object, those for a path through `k` are those below its entry `k`. */
  lemma {:induction false} OneEntryCounts<T>(
      g: Objects<T>, path: seq<string>, parents: seq<T>, entries: seq<Entry<T>>, k: string, q: seq<string>)
    requires DistinctKeys(entries)
    ensures Count(EntryCalls(g, path, parents, entries), path + [k] + q)
         == match Find(entries, k)
            case None => 0
            case Some(child) => Count(Calls(g, path + [k], parents, child), path + [k] + q)
    decreases |entries|
  {
    if entries == [] {
    } else {
      var e, rest := entries[0], entries[1..];
      var first := Calls(g, path + [e.key], parents, e.value);
      CountJoin(first, EntryCalls(g, path, parents, rest), path + [k] + q);
      OneEntryCounts(g, path, parents, rest, k, q);
      if e.key != k {
        forall c | c in first ensures c.path != path + [k] + q {
          CallsExtend(g, path + [e.key], parents, e.value, c);
          assert c.path[|path|] == e.key && (path + [k] + q)[|path|] == k;
        }
        NoneCounted(first, path + [k] + q);
      } else {
        FindNone(rest, k);
      }
    }
  }

  lemma {:induction false} FindNone<T>(entries: seq<Entry<T>>, k: string)
    requires forall e | e in entries :: e.key != k
    ensures Find(entries, k).None?
  {
    if entries == [] {
    } else {
      FindNone(entries[1..], k);
    }
  }

  /** A path is called for once if it is simple, else not at all. */
  lemma {:induction false} SimplePathsOnce<T>(
      g: Objects<T>, path: seq<string>, parents: seq<T>, v: Value<T>, p: seq<string>)
    requires WellFormed(g)
    ensures Count(Calls(g, path, parents, v), path + p) == if Simple(g, parents, v, p) then 1 else 0
    decreases |p|
  {
    var first := Call(path, KeyOf(path), v);
    var expands := v.Ref? && v.o !in parents && v.o in g;
    var below := if expands then EntryCalls(g, path, parents + [v.o], g[v.o]) else [];
    assert Calls(g, path, parents, v) == [first] + below by {
      if expands {
        assert v.o in ToSet(parents + [v.o]) && ToSet(parents) <= ToSet(parents + [v.o]);
      }
    }
    assert ([first] + below)[1..] == below;
    if p == [] {
      assert path + p == path;
      forall c | c in below ensures c.path != path {
        var k := EntryCallsExtend(g, path, parents + [v.o], g[v.o], c);
      }
      NoneCounted(below, path);
    } else {
      var k, q := p[0], p[1..];
      assert path + p == path + [k] + q && |path + p| > |path|;
      if expands {
        OneEntryCounts(g, path, parents + [v.o], g[v.o], k, q);
        if Member(g, v, k).Some? {
          SimplePathsOnce(g, path + [k], parents + [v.o], Member(g, v, k).value, q);
        }
      }
    }
  }

  /** Simple means: the path leads somewhere and leaves no object twice. */
  lemma {:induction false} SimpleIffDistinct<T>(g: Objects<T>, parents: seq<T>, v: Value<T>, p: seq<string>)
    requires Distinct(parents)
    ensures Simple(g, parents, v, p) <==> Follow(g, v, p).Some? && Distinct(parents + Ancestors(g, v, p))
    decreases |p|
  {
    if p == [] {
      assert parents + Ancestors(g, v, p) == parents;
    } else if Member(g, v, p[0]).Some? {
      var child := Member(g, v, p[0]).value;
      var up := Ancestors(g, child, p[1..]);
      assert parents + Ancestors(g, v, p) == (parents + [v.o]) + up;
      if v.o !in parents {
        SimpleIffDistinct(g, parents + [v.o], child, p[1..]);
      } else {
        var i :| 0 <= i < |parents| && parents[i] == v.o;
        var all := (parents + [v.o]) + up;
        assert all[i] == all[|parents|];
      }
    }
  }

  /** What a call reports is what its path leads to. */
  lemma {:induction false} CallsFollow<T>(g: Objects<T>, path: seq<string>, parents: seq<T>, v: Value<T>, c: Call<T>)
    requires WellFormed(g) && c in Calls(g, path, parents, v)
    ensures path <= c.path && c.key == KeyOf(c.path) && Follow(g, v, c.path[|path|..]) == Some(c.value)
    decreases g.Keys - ToSet(parents), 1, 0
  {
    if c == Call(path, KeyOf(path), v) {
      assert c.path[|path|..] == [];
    } else {
      assert v.o in ToSet(parents + [v.o]) && ToSet(parents) <= ToSet(parents + [v.o]);
      var e := EntryCallsFollow(g, path, parents + [v.o], g[v.o], c);
      FindIs(g[v.o], e);
      assert c.path[|path|..][0] == e.key && c.path[|path|..][1..] == c.path[|path| + 1..];
    }
  }

  lemma {:induction false} EntryCallsFollow<T>(
      g: Objects<T>, path: seq<string>, parents: seq<T>, entries: seq<Entry<T>>, c: Call<T>) returns (e: Entry<T>)
    requires WellFormed(g) && c in EntryCalls(g, path, parents, entries)
    ensures e in entries && path + [e.key] <= c.path && c.key == KeyOf(c.path)
    ensures Follow(g, e.value, c.path[|path| + 1..]) == Some(c.value)
    decreases g.Keys - ToSet(parents), 2, |entries|
  {
    e := entries[0];
    if c in Calls(g, path + [e.key], parents, e.value) {
      CallsFollow(g, path + [e.key], parents, e.value, c);
    } else {
      e := EntryCallsFollow(g, path, parents, entries[1..], c);
    }
  }

  lemma {:induction false} FindIs<T>(entries: seq<Entry<T>>, e: Entry<T>)
    requires DistinctKeys(entries) && e in entries
    ensures Find(entries, e.key) == Some(e.value)
  {
    if entries[0] != e {
      FindIs(entries[1..], e);
    }
  }

  /** How often a path should be visited. */
  ghost function Visits<T>(g: Objects<T>, root: Value<T>, p: seq<string>): nat {
    if Follow(g, root, p).Some? && Distinct(Ancestors(g, root, p)) then 1 else 0
  }

  /** Every path that leaves no object twice is visited once, with the value it leads to; no other path is visited. */
  lemma EveryPathOnce<T>(g: Objects<T>, root: Value<T>, p: seq<string>)
    requires WellFormed(g)
    ensures Count(Calls(g, [], [], root), p) == Visits(g, root, p)
    ensures forall c | c in Calls(g, [], [], root) :: c.key == KeyOf(c.path) && Follow(g, root, c.path) == Some(c.value)
  {
    assert [] + p == p;
    SimplePathsOnce(g, [], [], root, p);
    assert [] + Ancestors(g, root, p) == Ancestors(g, root, p);
    SimpleIffDistinct(g, [], root, p);
    forall c | c in Calls(g, [], [], root)
      ensures c.key == KeyOf(c.path) && Follow(g, root, c.path) == Some(c.value)
    {
      CallsFollow(g, [], [], root, c);
      assert c.path[0..] == c.path;
    }
  }

  /** `simpleTraverse`: the callback is called once for every path from the root that leaves no object twice. */
  method Traverse(root: Value<JsNode>, ghost nodes: set<JsNode>) returns (log: seq<Call<JsNode>>)
    requires ClosedHeap(nodes) && WellFormed(Snapshot(nodes)) && (root.Ref? ==> root.o in nodes)
    ensures forall p: seq<string> :: Count(log, p) == Visits(Snapshot(nodes), root, p)
    ensures forall c | c in log :: c.key == KeyOf(c.path) && Follow(Snapshot(nodes), root, c.path) == Some(c.value)
  {
    var t := new Traverser();
    t.Walker(root, nodes);
    log := t.log;
    ghost var g := Snapshot(nodes);
    assert log == Calls(g, [], [], root);
    forall p: seq<string> ensures Count(log, p) == Visits(g, root, p) {
      EveryPathOnce(g, root, p);
    }
    EveryPathOnce(g, root, []);
  }
}
