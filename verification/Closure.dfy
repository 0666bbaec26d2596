/**
 * Reachability in finite graphs, as least closed sets and as paths. Cascades, base models, references between schemas
 * and imports between documents are such graphs.
 */
module Closure {

  function ToSet<T>(s: seq<T>): set<T> {
    set x | x in s
  }

  ghost predicate Distinct<T>(s: seq<T>) {
    forall i, j | 0 <= i < j < |s| :: s[i] != s[j]
  }

  type Graph<T(==)> = map<T, seq<T>>

  function Next<T>(g: Graph<T>, n: T): seq<T> {
    if n in g then g[n] else []
  }

  ghost predicate Closed<T>(g: Graph<T>, s: set<T>) {
    forall n, k | n in s && k in Next(g, n) :: k in s
  }

  /** The least set that contains the roots and everything its members lead to. */
  ghost predicate IsClosure<T(!new)>(g: Graph<T>, roots: set<T>, s: set<T>) {
    roots <= s && Closed(g, s) && forall t: set<T> | roots <= t && Closed(g, t) :: s <= t
  }

  predicate IsPath<T(==)>(g: Graph<T>, p: seq<T>) {
    p != [] && forall i | 0 < i < |p| :: p[i] in Next(g, p[i - 1])
  }

  ghost predicate Reachable<T(!new)>(g: Graph<T>, roots: set<T>, n: T) {
    exists p: seq<T> :: IsPath(g, p) && p[0] in roots && p[|p| - 1] == n
  }

  function Nodes<T>(g: Graph<T>): set<T> {
    g.Keys + (set n, k | n in g && k in g[n] :: k)
  }

  /** Everything a path from a root ends at. */
  ghost function Reach<T(!new)>(g: Graph<T>, roots: set<T>): set<T> {
    set n | n in roots + Nodes(g) && Reachable(g, roots, n)
  }

  lemma ReachableIsReached<T(!new)>(g: Graph<T>, roots: set<T>, n: T)
    ensures n in Reach(g, roots) <==> Reachable(g, roots, n)
  {
    if p: seq<T> :| IsPath(g, p) && p[0] in roots && p[|p| - 1] == n {
      if |p| > 1 {
        assert p[|p| - 1] in Next(g, p[|p| - 2]);
      }
    }
  }

  /** What paths reach is the least closed set around the roots. */
  lemma ReachIsLeast<T(!new)>(g: Graph<T>, roots: set<T>)
    ensures IsClosure(g, roots, Reach(g, roots))
  {
    var r := Reach(g, roots);
    forall x | x in roots ensures x in r {
      assert IsPath(g, [x]) && [x][0] in roots && [x][|[x]| - 1] == x;
    }
    forall x, k | x in r && k in Next(g, x) ensures k in r {
      var p: seq<T> :| IsPath(g, p) && p[0] in roots && p[|p| - 1] == x;
      assert IsPath(g, p + [k]);
      assert (p + [k])[0] in roots && (p + [k])[|p + [k]| - 1] == k;
    }
    forall t: set<T> | roots <= t && Closed(g, t) ensures r <= t {
      forall n | n in r ensures n in t {
        var p: seq<T> :| IsPath(g, p) && p[0] in roots && p[|p| - 1] == n;
        PathStaysInside(g, t, p);
      }
    }
  }

  lemma ReachIsClosed<T(!new)>(g: Graph<T>, roots: set<T>)
    ensures roots <= Reach(g, roots) && Closed(g, Reach(g, roots))
  {
    ReachIsLeast(g, roots);
  }

  lemma ReachStaysWithin<T(!new)>(g: Graph<T>, roots: set<T>, s: set<T>)
    requires roots <= s && Closed(g, s)
    ensures Reach(g, roots) <= s
  {
    ReachIsLeast(g, roots);
  }

  /** One root more adds itself and the closure of what it leads to. */
  lemma ClosuresJoin<T(!new)>(g: Graph<T>, roots: set<T>, n: T, a: set<T>, b: set<T>)
    requires IsClosure(g, roots, a) && IsClosure(g, ToSet(Next(g, n)), b)
    ensures IsClosure(g, roots + {n}, a + {n} + b)
  {
    assert forall k | k in Next(g, n) :: k in ToSet(Next(g, n));
    forall t: set<T> | roots + {n} <= t && Closed(g, t) ensures a + {n} + b <= t {
      assert n in t && ToSet(Next(g, n)) <= t;
    }
  }

  lemma SameClosures<T(!new)>(g: Graph<T>, h: Graph<T>, roots: set<T>, a: set<T>, b: set<T>)
    requires IsClosure(g, roots, a) && IsClosure(h, roots, b) && forall n | n in a :: Next(h, n) == Next(g, n)
    ensures a == b
  {
    assert Closed(h, a);
    assert Closed(g, b);
  }

  /** Graphs that agree on what is reached reach the same. */
  lemma SameReach<T(!new)>(g: Graph<T>, h: Graph<T>, roots: set<T>)
    requires forall n | n in Reach(g, roots) :: Next(h, n) == Next(g, n)
    ensures Reach(h, roots) == Reach(g, roots)
  {
    ReachIsLeast(g, roots);
    ReachIsLeast(h, roots);
    SameClosures(g, h, roots, Reach(g, roots), Reach(h, roots));
  }

  /** A closed set around the roots and within their reach is their reach. */
  lemma ClosedWithinReach<T(!new)>(g: Graph<T>, roots: set<T>, s: set<T>)
    requires roots <= s <= Reach(g, roots) && Closed(g, s)
    ensures s == Reach(g, roots)
  {
    ReachIsLeast(g, roots);
  }

  lemma {:induction false} PathStaysInside<T>(g: Graph<T>, s: set<T>, p: seq<T>)
    requires IsPath(g, p) && p[0] in s && Closed(g, s)
    ensures p[|p| - 1] in s
  {
    if |p| > 1 {
      PathStaysInside(g, s, p[..|p| - 1]);
      assert p[|p| - 1] in Next(g, p[|p| - 2]);
    }
  }
}
