/** Walking up the super types of a data model, and the check that makes the walk meet every base once. */
module Hierarchy {
  import opened Closure

  // ----- getRecursiveBases -----

  /** The bases pushed for a list of super types, and the models expanded so far; `seen` only stops expansion. */
  function BasesOf<T(==)>(g: Graph<T>, supers: seq<T>, seen: seq<T>): (r: (seq<T>, seq<T>))
    ensures seen <= r.1
    decreases g.Keys - ToSet(seen), |supers|
  {
    if supers == [] then ([], seen)
    else
      var b := supers[0];
      if b in seen then
        var rest := BasesOf(g, supers[1..], seen);
        ([b] + rest.0, rest.1)
      else
        assert b in ToSet(seen + [b]) && ToSet(seen) <= ToSet(seen + [b]);
        var up := BasesOf(g, Next(g, b), seen + [b]);
        assert ToSet(seen) <= ToSet(up.1);
        var rest := BasesOf(g, supers[1..], up.1);
        ([b] + up.0 + rest.0, rest.1)
  }

  function RecursiveBases<T(==)>(g: Graph<T>, m: T): seq<T> {
    BasesOf(g, Next(g, m), [m]).0
  }

  lemma BasesUnfold<T(!new)>(g: Graph<T>, supers: seq<T>, seen: seq<T>)
    requires supers != [] && supers[0] !in seen
    ensures var b := supers[0];
      var up := BasesOf(g, Next(g, b), seen + [b]);
      var rest := BasesOf(g, supers[1..], up.1);
      BasesOf(g, supers, seen) == ([b] + up.0 + rest.0, rest.1) && seen + [b] <= up.1 <= rest.1
  {
  }

  lemma BasesSkip<T(!new)>(g: Graph<T>, supers: seq<T>, seen: seq<T>)
    requires supers != [] && supers[0] in seen
    ensures var rest := BasesOf(g, supers[1..], seen);
      BasesOf(g, supers, seen) == ([supers[0]] + rest.0, rest.1)
  {
  }

  lemma PushAssociates<T>(result: seq<T>, b: T, up: seq<T>, rest: seq<T>)
    ensures result + ([b] + up + rest) == (result + [b] + up) + rest
    ensures up == [] ==> [b] + up + rest == [b] + rest
  {
  }

  lemma BasesStep<T(!new)>(g: Graph<T>, supers: seq<T>, i: nat, seen: seq<T>, result: seq<T>)
    requires i < |supers|
    ensures var b, all := supers[i], BasesOf(g, supers[i..], seen);
      var up := if b in seen then ([], seen) else BasesOf(g, Next(g, b), seen + [b]);
      var rest := BasesOf(g, supers[i + 1..], up.1);
      result + all.0 == (result + [b] + up.0) + rest.0 && all.1 == rest.1
  {
    var b := supers[i];
    assert supers[i..][1..] == supers[i + 1..] && supers[i..][0] == b;
    if b in seen {
      BasesSkip(g, supers[i..], seen);
      PushAssociates(result, b, [], BasesOf(g, supers[i + 1..], seen).0);
    } else {
      BasesUnfold(g, supers[i..], seen);
      var up := BasesOf(g, Next(g, b), seen + [b]);
      PushAssociates(result, b, up.0, BasesOf(g, supers[i + 1..], up.1).0);
    }
  }

  /** `getRecursiveBases`, where `seen` is shared by the whole recursion. */
  method GetRecursiveBases<T(==,!new)>(g: Graph<T>, m: T, seen: seq<T>) returns (result: seq<T>, seen': seq<T>)
    ensures m in seen ==> result == [] && seen' == seen
    ensures m !in seen ==> (result, seen') == BasesOf(g, Next(g, m), seen + [m])
    decreases g.Keys - ToSet(seen), 0
  {
    result, seen' := [], seen;
    if m in seen {
      return;
    }
    seen' := seen + [m];
    var supers := Next(g, m);
    var i := 0;
    assert supers[0..] == supers && [] + BasesOf(g, supers, seen').0 == BasesOf(g, supers, seen').0;
    while i < |supers|
      invariant 0 <= i <= |supers|
      invariant seen + [m] <= seen'
      invariant var rest := BasesOf(g, supers[i..], seen');
        BasesOf(g, supers, seen + [m]) == (result + rest.0, rest.1)
    {
      BasesStep(g, supers, i, seen', result);
      assert m in g && m in ToSet(seen + [m]) && ToSet(seen) <= ToSet(seen + [m]) <= ToSet(seen');
      var up;
      up, seen' := GetRecursiveBases(g, supers[i], seen');
      result := result + [supers[i]] + up;
      i := i + 1;
    }
    assert supers[i..] == [] && result + [] == result;
  }

  // ----- every model is expanded once, so every edge is pushed once -----

  /** What the given models extend, with multiplicity. */
  function Edges<T(==)>(g: Graph<T>, models: seq<T>): multiset<T> {
    if models == [] then multiset{} else multiset(Next(g, models[0])) + Edges(g, models[1..])
  }

  lemma {:induction false} EdgesJoin<T(!new)>(g: Graph<T>, a: seq<T>, b: seq<T>)
    ensures Edges(g, a + b) == Edges(g, a) + Edges(g, b)
  {
    if a == [] {
      assert a + b == b;
    } else {
      assert (a + b)[1..] == a[1..] + b;
      EdgesJoin(g, a[1..], b);
    }
  }

  lemma NewlyExpanded<T(!new)>(g: Graph<T>, b: T, seen: seq<T>, up: seq<T>, rest: seq<T>)
    requires seen + [b] <= up <= rest
    ensures Edges(g, rest[|seen|..]) == multiset(Next(g, b)) + Edges(g, up[|seen| + 1..]) + Edges(g, rest[|up|..])
  {
    assert rest[|seen|..] == [b] + (up[|seen| + 1..] + rest[|up|..]);
    EdgesJoin(g, [b], up[|seen| + 1..] + rest[|up|..]);
    EdgesJoin(g, up[|seen| + 1..], rest[|up|..]);
    assert Edges(g, [b]) == multiset(Next(g, b));
  }

  /** A super type, what its own walk pushes and what the rest of the list pushes, counted. */
  lemma PushedOnce<T(!new)>(
      g: Graph<T>, supers: seq<T>, up: seq<T>, rest: seq<T>, below: multiset<T>, beside: multiset<T>)
    requires supers != []
    requires multiset(up) == multiset(Next(g, supers[0])) + below
    requires multiset(rest) == multiset(supers[1..]) + beside
    ensures multiset([supers[0]] + up + rest) == multiset(supers) + (multiset(Next(g, supers[0])) + below + beside)
  {
    assert supers == [supers[0]] + supers[1..];
  }

  /** What is left to expand shrinks; a model that is not declared has nothing to walk. */
  lemma ExpandingShrinks<T(!new)>(g: Graph<T>, b: T, seen: seq<T>, up: seq<T>)
    requires b !in seen && seen + [b] <= up
    ensures g.Keys - ToSet(up) <= g.Keys - ToSet(seen + [b]) <= g.Keys - ToSet(seen)
    ensures b in g ==> g.Keys - ToSet(seen + [b]) < g.Keys - ToSet(seen)
    ensures b !in g ==> Next(g, b) == []
  {
    assert ToSet(seen) <= ToSet(seen + [b]) <= ToSet(up) && b in ToSet(seen + [b]);
  }

  /** The walk of a list counts each edge of what it expands once. */
  ghost predicate EdgesCounted<T(!new)>(g: Graph<T>, supers: seq<T>, seen: seq<T>, r: (seq<T>, seq<T>))
    requires seen <= r.1
  {
    Distinct(r.1) && multiset(r.0) == multiset(supers) + Edges(g, r.1[|seen|..])
  }

  lemma EdgesCountedStep<T(!new)>(
      g: Graph<T>, supers: seq<T>, seen: seq<T>, up: (seq<T>, seq<T>), rest: (seq<T>, seq<T>))
    requires supers != [] && seen + [supers[0]] <= up.1 <= rest.1
    requires EdgesCounted(g, Next(g, supers[0]), seen + [supers[0]], up) && EdgesCounted(g, supers[1..], up.1, rest)
    ensures EdgesCounted(g, supers, seen, ([supers[0]] + up.0 + rest.0, rest.1))
  {
    NewlyExpanded(g, supers[0], seen, up.1, rest.1);
    PushedOnce(g, supers, up.0, rest.0, Edges(g, up.1[|seen| + 1..]), Edges(g, rest.1[|up.1|..]));
  }

  lemma {:induction false} EachEdgeOnce<T(!new)>(g: Graph<T>, supers: seq<T>, seen: seq<T>)
    requires Distinct(seen)
    ensures EdgesCounted(g, supers, seen, BasesOf(g, supers, seen))
    decreases g.Keys - ToSet(seen), |supers|
  {
    if supers == [] {
    } else if supers[0] in seen {
      assert supers == [supers[0]] + supers[1..];
      EachEdgeOnce(g, supers[1..], seen);
    } else {
      var b := supers[0];
      var up := BasesOf(g, Next(g, b), seen + [b]);
      var rest := BasesOf(g, supers[1..], up.1);
      BasesUnfold(g, supers, seen);
      ExpandingShrinks(g, b, seen, up.1);
      EachEdgeOnce(g, Next(g, b), seen + [b]);
      EachEdgeOnce(g, supers[1..], up.1);
      EdgesCountedStep(g, supers, seen, up, rest);
    }
  }

  /** What is expanded is what can be reached. */
  lemma {:induction false} ExpandedAreReached<T(!new)>(g: Graph<T>, supers: seq<T>, seen: seq<T>, bound: set<T>)
    requires Closed(g, bound) && ToSet(supers) <= bound
    ensures var r := BasesOf(g, supers, seen);
      && ToSet(supers) <= ToSet(r.1) <= ToSet(seen) + bound
      && ToSet(r.0) <= bound
      && forall n, k | n in r.1 && n !in seen && k in Next(g, n) :: k in r.1
    decreases g.Keys - ToSet(seen), |supers|
  {
    if supers == [] {
    } else {
      var b := supers[0];
      assert b in ToSet(supers);
      assert ToSet(supers) == {b} + ToSet(supers[1..]);
      if b in seen {
        ExpandedAreReached(g, supers[1..], seen, bound);
      } else {
        var up := BasesOf(g, Next(g, b), seen + [b]);
        var rest := BasesOf(g, supers[1..], up.1);
        assert b in ToSet(seen + [b]) && ToSet(seen + [b]) <= ToSet(up.1) <= ToSet(rest.1);
        ExpandedAreReached(g, Next(g, b), seen + [b], bound);
        ExpandedAreReached(g, supers[1..], up.1, bound);
        forall n, k | n in rest.1 && n !in seen && k in Next(g, n) ensures k in rest.1 {
          if n == b {
            assert k in ToSet(Next(g, b));
          }
          if n in up.1 {
            assert k in ToSet(up.1);
          }
          assert k in ToSet(rest.1);
        }
      }
    }
  }

  /** Each inheritance edge above `m` contributes one base: a base is listed as often as it is extended. */
  lemma BasesCountEdges<T(!new)>(g: Graph<T>, m: T) returns (expanded: seq<T>)
    ensures Distinct(expanded) && ToSet(expanded) == Reach(g, {m})
    ensures multiset([m] + RecursiveBases(g, m)) == multiset{m} + Edges(g, expanded)
  {
    ReachIsLeast(g, {m});
    var all := Reach(g, {m});
    expanded := BasesOf(g, Next(g, m), [m]).1;
    EachEdgeOnce(g, Next(g, m), [m]);
    assert m in all;
    ExpandedAreReached(g, Next(g, m), [m], all);
    assert expanded == [m] + expanded[1..];
    EdgesJoin(g, [m], expanded[1..]);
    assert Edges(g, [m]) == multiset(Next(g, m));
    forall n, k | n in ToSet(expanded) && k in Next(g, n) ensures k in ToSet(expanded) {
      if n == m {
        assert k in ToSet(Next(g, m));
      }
    }
    ClosedWithinReach(g, {m}, ToSet(expanded));
  }

  /** Nothing occurs twice. */
  ghost predicate Single<T(!new)>(models: multiset<T>) {
    forall x :: models[x] <= 1
  }

  lemma {:induction false} DistinctIsSingle<T(!new)>(s: seq<T>)
    ensures Distinct(s) <==> Single(multiset(s))
  {
    if s == [] {
    } else {
      DistinctIsSingle(s[1..]);
      assert s == [s[0]] + s[1..];
      assert Single(multiset(s)) <==> Single(multiset(s[1..])) && s[0] !in multiset(s[1..]) by {
        assert multiset(s) == multiset{s[0]} + multiset(s[1..]);
        if Single(multiset(s)) {
          assert multiset(s)[s[0]] <= 1;
          forall x ensures multiset(s[1..])[x] <= 1 { assert multiset(s)[x] <= 1; }
        }
      }
      DistinctFrom(s);
    }
  }

  lemma DistinctFrom<T(!new)>(s: seq<T>)
    requires s != []
    ensures Distinct(s) <==> Distinct(s[1..]) && s[0] !in s[1..]
  {
    if Distinct(s[1..]) && s[0] !in s[1..] {
      forall i, j | 0 <= i < j < |s| ensures s[i] != s[j] {
        assert s[j] == s[1..][j - 1];
        if i > 0 { assert s[i] == s[1..][i - 1]; }
      }
    }
  }

  lemma {:induction false} EdgesGrow<T(!new)>(g: Graph<T>, a: seq<T>, b: seq<T>)
    requires Distinct(a) && ToSet(a) <= ToSet(b)
    ensures Edges(g, a) <= Edges(g, b)
  {
    if a == [] {
    } else {
      assert a[0] in ToSet(b);
      var i :| 0 <= i < |b| && b[i] == a[0];
      var rest := b[..i] + b[i + 1..];
      assert b == b[..i] + ([a[0]] + b[i + 1..]);
      EdgesJoin(g, b[..i], [a[0]] + b[i + 1..]);
      EdgesJoin(g, [a[0]], b[i + 1..]);
      EdgesJoin(g, b[..i], b[i + 1..]);
      forall x | x in ToSet(a[1..]) ensures x in ToSet(rest) {
        assert x in ToSet(a) && x != a[0];
        var j :| 0 <= j < |b| && b[j] == x;
        assert if j < i then rest[j] == x else rest[j - 1] == x;
      }
      EdgesGrow(g, a[1..], rest);
      assert Edges(g, [a[0]]) == multiset(Next(g, a[0]));
    }
  }

  lemma {:induction false} EdgeIsCounted<T(!new)>(g: Graph<T>, models: seq<T>, n: T, k: T)
    requires n in models && k in Next(g, n)
    ensures k in Edges(g, models)
  {
    if n != models[0] {
      EdgeIsCounted(g, models[1..], n, k);
    }
  }

  /** Neither a cycle above `m` nor two ways up to the same base. */
  ghost predicate MeetsEachOnce<T(!new)>(g: Graph<T>, m: T) {
    Distinct([m] + RecursiveBases(g, m))
  }

  lemma TodoStep<T(!new)>(g: Graph<T>, m: T, all: set<T>, seen: seq<T>, todo: seq<T>)
    requires Closed(g, all) && Distinct(seen) && ToSet(seen) <= all && ToSet(todo) <= all
    requires multiset(seen) + multiset(todo) == multiset{m} + Edges(g, seen)
    requires todo != [] && todo[0] !in seen
    ensures var seen', todo' := seen + [todo[0]], todo[1..] + Next(g, todo[0]);
      && Distinct(seen') && ToSet(seen') == ToSet(seen) + {todo[0]} <= all && ToSet(todo') <= all
      && multiset(seen') + multiset(todo') == multiset{m} + Edges(g, seen')
  {
    var current := todo[0];
    assert current in ToSet(todo) && ToSet(todo[1..]) <= ToSet(todo);
    TodoCount(g, m, seen, todo);
    forall k | k in ToSet(todo[1..] + Next(g, current)) ensures k in all {
      assert k in todo[1..] || k in Next(g, current);
    }
  }

  lemma TodoCount<T(!new)>(g: Graph<T>, m: T, seen: seq<T>, todo: seq<T>)
    requires multiset(seen) + multiset(todo) == multiset{m} + Edges(g, seen) && todo != []
    ensures multiset(seen + [todo[0]]) + multiset(todo[1..] + Next(g, todo[0]))
      == multiset{m} + Edges(g, seen + [todo[0]])
  {
    var current := todo[0];
    assert todo == [current] + todo[1..];
    EdgesJoin(g, seen, [current]);
    assert Edges(g, [current]) == multiset(Next(g, current));
    assert multiset(todo) == multiset{current} + multiset(todo[1..]);
    MovedOver(multiset(seen), multiset{current}, multiset(todo[1..]), multiset(Next(g, current)), multiset{m},
              Edges(g, seen));
    assert multiset(seen + [current]) == multiset(seen) + multiset{current};
  }

  lemma MovedOver<T>(a: multiset<T>, b: multiset<T>, c: multiset<T>, n: multiset<T>, m: multiset<T>, e: multiset<T>)
    requires a + (b + c) == m + e
    ensures (a + b) + (c + n) == m + (e + n)
  {
    forall x | true ensures ((a + b) + (c + n))[x] == (m + (e + n))[x] {
      assert (a + (b + c))[x] == (m + e)[x];
    }
  }

  /** A walk that expands one more base, which has no bases of its own. */
  lemma BasesOfLeaf<T>(g: Graph<T>, b: T, seen: seq<T>)
    requires Next(g, b) == []
    ensures BasesOf(g, [b], seen) == ([b], if b in seen then seen else seen + [b])
  {
    var none: seq<T> := [];
    assert [b][1..] == none && [b] + none == [b] && [b] + none + none == [b];
    assert BasesOf(g, none, seen + [b]) == (none, seen + [b]) && BasesOf(g, none, seen) == (none, seen);
  }

  /** `seen` stops a base from being expanded again, not from being listed again. */
  lemma DiamondListsItsTopTwice<T(!new)>(a: T, b: T, c: T, d: T)
    requires Distinct([a, b, c, d])
    ensures var g: Graph<T> := map[a := [b, c], b := [d], c := [d], d := []];
      RecursiveBases(g, a) == [b, d, c, d] && !MeetsEachOnce(g, a)
  {
    var g: Graph<T> := map[a := [b, c], b := [d], c := [d], d := []];
    var four := [a, b, c, d];
    assert four[0] != four[1] && four[0] != four[2] && four[0] != four[3];
    assert four[1] != four[2] && four[1] != four[3] && four[2] != four[3];
    BasesOfLeaf(g, d, [a] + [b]);
    BasesOfLeaf(g, d, [a] + [b] + [d] + [c]);
    assert [b, c][1..] == [c] && [c][1..] == [];
    assert BasesOf(g, [], [a] + [b] + [d] + [c]) == ([], [a] + [b] + [d] + [c]);
    assert [c] + [d] + [] == [c, d];
    assert BasesOf(g, [c], [a] + [b] + [d]) == ([c, d], [a] + [b] + [d] + [c]);
    assert [b] + [d] + [c, d] == [b, d, c, d];
    var all := [a] + RecursiveBases(g, a);
    assert all[2] == d && all[4] == d;
  }

  /** `validateInheritance`: breadth first, and any model met twice is reported, diamonds as much as cycles. */
  method ValidateInheritance<T(==,!new)>(g: Graph<T>, m: T) returns (ok: bool)
    ensures ok <==> MeetsEachOnce(g, m)
  {
    ReachIsLeast(g, {m});
    ghost var expanded := BasesCountEdges(g, m);
    ghost var all := Reach(g, {m});
    var seen, todo := [m], Next(g, m);
    assert m in all && Edges(g, [m]) == multiset(Next(g, m));
    while todo != []
      invariant Distinct(seen) && m in seen
      invariant ToSet(seen) <= all && ToSet(todo) <= all
      invariant multiset(seen) + multiset(todo) == multiset{m} + Edges(g, seen)
      decreases all - ToSet(seen)
    {
      var current := todo[0];
      if current in seen {
        MetTwice(g, [m] + RecursiveBases(g, m), m, seen, todo, expanded);
        return false;
      }
      TodoStep(g, m, all, seen, todo);
      seen, todo := seen + [current], todo[1..] + Next(g, current);
    }
    SeenIsAll(g, m, seen);
    MetOnce(g, [m] + RecursiveBases(g, m), m, seen, expanded);
    return true;
  }

  lemma MetTwice<T(!new)>(g: Graph<T>, models: seq<T>, m: T, seen: seq<T>, todo: seq<T>, expanded: seq<T>)
    requires Distinct(seen) && ToSet(seen) <= ToSet(expanded)
    requires multiset(seen) + multiset(todo) == multiset{m} + Edges(g, seen)
    requires multiset(models) == multiset{m} + Edges(g, expanded)
    requires todo != [] && todo[0] in seen
    ensures !Distinct(models)
  {
    EdgesGrow(g, seen, expanded);
    var x := todo[0];
    assert multiset(seen)[x] >= 1 && multiset(todo)[x] >= 1;
    assert (multiset{m} + Edges(g, seen))[x] >= 2;
    assert multiset(models)[x] >= 2;
    DistinctIsSingle(models);
  }

  lemma SeenIsAll<T(!new)>(g: Graph<T>, m: T, seen: seq<T>)
    requires m in seen && ToSet(seen) <= Reach(g, {m})
    requires multiset(seen) == multiset{m} + Edges(g, seen)
    ensures ToSet(seen) == Reach(g, {m})
  {
    forall n, k | n in ToSet(seen) && k in Next(g, n) ensures k in ToSet(seen) {
      EdgeIsCounted(g, seen, n, k);
      assert k in multiset(seen);
    }
    ClosedWithinReach(g, {m}, ToSet(seen));
  }

  lemma MetOnce<T(!new)>(g: Graph<T>, models: seq<T>, m: T, seen: seq<T>, expanded: seq<T>)
    requires Distinct(seen) && Distinct(expanded) && ToSet(expanded) == ToSet(seen)
    requires multiset(seen) == multiset{m} + Edges(g, seen)
    requires multiset(models) == multiset{m} + Edges(g, expanded)
    ensures Distinct(models)
  {
    EdgesGrow(g, expanded, seen);
    EdgesGrow(g, seen, expanded);
    assert multiset(models) == multiset(seen);
    DistinctIsSingle(seen);
    DistinctIsSingle(models);
  }

  // ----- where nothing is met twice, the walk is the plain recursion -----

  /** Each super type followed by its own bases. */
  function Blocks<T(==)>(g: Graph<T>, supers: seq<T>): seq<T> {
    if supers == [] then [] else [supers[0]] + RecursiveBases(g, supers[0]) + Blocks(g, supers[1..])
  }

  ghost predicate Disjoint<T(!new)>(a: seq<T>, b: seq<T>) {
    forall x :: !(x in a && x in b)
  }

  /** The walk pushes whatever it expands. */
  lemma {:induction false} ExpandedArePushed<T(!new)>(g: Graph<T>, supers: seq<T>, seen: seq<T>)
    ensures var r := BasesOf(g, supers, seen); forall x | x in r.1 :: x in seen || x in r.0
    decreases g.Keys - ToSet(seen), |supers|
  {
    if supers == [] {
    } else {
      var b := supers[0];
      if b in seen {
        ExpandedArePushed(g, supers[1..], seen);
      } else {
        var up := BasesOf(g, Next(g, b), seen + [b]);
        assert b in ToSet(seen + [b]) && ToSet(seen) <= ToSet(seen + [b]) <= ToSet(up.1);
        ExpandedArePushed(g, Next(g, b), seen + [b]);
        ExpandedArePushed(g, supers[1..], up.1);
        var rest := BasesOf(g, supers[1..], up.1);
        assert BasesOf(g, supers, seen) == ([b] + up.0 + rest.0, rest.1);
        forall x | x in rest.1 ensures x in seen || x in [b] + up.0 + rest.0 {
          assert x in up.1 || x in rest.0;
          assert x in up.1 ==> x in seen + [b] || x in up.0;
        }
      }
    }
  }

  /** A walk that pushes nothing twice and nothing seen does not depend on what was seen. */
  lemma {:induction false} SeenDoesNotMatter<T(!new)>(g: Graph<T>, supers: seq<T>, seen: seq<T>, fewer: seq<T>)
    requires var r := BasesOf(g, supers, seen).0; Distinct(r) && Disjoint(r, seen)
    requires ToSet(fewer) <= ToSet(seen)
    ensures BasesOf(g, supers, fewer).0 == BasesOf(g, supers, seen).0
    ensures BasesOf(g, supers, fewer).1 == fewer + BasesOf(g, supers, seen).1[|seen|..]
    decreases g.Keys - ToSet(seen), |supers|
  {
    if supers == [] {
      assert seen[|seen|..] == [];
    } else {
      var b := supers[0];
      var all := BasesOf(g, supers, seen).0;
      assert b == all[0] && b !in seen;
      assert b in fewer ==> b in ToSet(fewer);
      BasesUnfold(g, supers, seen);
      BasesUnfold(g, supers, fewer);
      var up := BasesOf(g, Next(g, b), seen + [b]);
      var rest := BasesOf(g, supers[1..], up.1);
      PartsAreApart(b, up.0, rest.0, seen);
      ExpandingShrinks(g, b, seen, up.1);
      StillFewer(b, seen, fewer, up.1);
      SeenDoesNotMatter(g, Next(g, b), seen + [b], fewer + [b]);
      ExpandedArePushed(g, Next(g, b), seen + [b]);
      SeenDoesNotMatter(g, supers[1..], up.1, fewer + [b] + up.1[|seen| + 1..]);
      SameSuffix(b, seen, fewer, up.1, rest.1);
    }
  }

  lemma StillFewer<T(!new)>(b: T, seen: seq<T>, fewer: seq<T>, up: seq<T>)
    requires ToSet(fewer) <= ToSet(seen) && seen + [b] <= up
    ensures ToSet(fewer + [b]) <= ToSet(seen + [b])
    ensures ToSet(fewer + [b] + up[|seen| + 1..]) <= ToSet(up)
  {
    forall x | x in fewer ensures x in seen {
      assert x in ToSet(fewer);
    }
    assert forall x | x in seen + [b] :: x in up;
  }

  lemma SameSuffix<T>(b: T, seen: seq<T>, fewer: seq<T>, up: seq<T>, rest: seq<T>)
    requires seen + [b] <= up <= rest
    ensures (fewer + [b] + up[|seen| + 1..]) + rest[|up|..] == fewer + rest[|seen|..]
  {
    assert rest[|seen|..] == [b] + up[|seen| + 1..] + rest[|up|..];
  }

  lemma PartsAreApart<T(!new)>(b: T, up: seq<T>, rest: seq<T>, seen: seq<T>)
    requires Distinct([b] + up + rest) && Disjoint([b] + up + rest, seen)
    ensures Distinct(up) && Disjoint(up, seen + [b])
    ensures Distinct(rest) && Disjoint(rest, seen + [b]) && Disjoint(rest, up)
    ensures Distinct([b] + up) && b !in rest && b !in up
  {
    var all := [b] + up + rest;
    forall i, j | 0 <= i < j < |up| ensures up[i] != up[j] { assert all[i + 1] == up[i] && all[j + 1] == up[j]; }
    forall i, j | 0 <= i < j < |rest| ensures rest[i] != rest[j] {
      assert all[|up| + 1 + i] == rest[i] && all[|up| + 1 + j] == rest[j];
    }
    forall i | 0 <= i < |up| ensures up[i] != b && up[i] !in seen { assert all[i + 1] == up[i] && all[0] == b; }
    forall j | 0 <= j < |rest| ensures rest[j] != b && rest[j] !in seen && rest[j] !in up {
      assert all[|up| + 1 + j] == rest[j] && all[0] == b;
      forall i | 0 <= i < |up| ensures up[i] != rest[j] { assert all[i + 1] == up[i]; }
    }
  }

  lemma {:induction false} BasesAreBlocks<T(!new)>(g: Graph<T>, supers: seq<T>, seen: seq<T>)
    requires var r := BasesOf(g, supers, seen).0; Distinct(r) && Disjoint(r, seen)
    ensures BasesOf(g, supers, seen).0 == Blocks(g, supers)
    ensures forall b | b in supers :: MeetsEachOnce(g, b)
    decreases |supers|
  {
    if supers == [] {
    } else {
      var b := supers[0];
      assert b == BasesOf(g, supers, seen).0[0] && b !in seen;
      var up := BasesOf(g, Next(g, b), seen + [b]);
      var rest := BasesOf(g, supers[1..], up.1);
      PartsAreApart(b, up.0, rest.0, seen);
      SeenDoesNotMatter(g, Next(g, b), seen + [b], [b]);
      ExpandedArePushed(g, Next(g, b), seen + [b]);
      BasesAreBlocks(g, supers[1..], up.1);
    }
  }

  /** In a valid hierarchy the bases are the super types, each with the bases it has on its own. */
  lemma BasesAreRecursive<T(!new)>(g: Graph<T>, m: T)
    requires MeetsEachOnce(g, m)
    ensures RecursiveBases(g, m) == Blocks(g, Next(g, m))
    ensures forall b | b in Next(g, m) :: MeetsEachOnce(g, b)
  {
    var bases := RecursiveBases(g, m);
    assert [m] + bases + [] == [m] + bases;
    PartsAreApart(m, bases, [], []);
    BasesAreBlocks(g, Next(g, m), [m]);
  }

  /** A base of a base is a base. */
  lemma {:induction false} BlocksGoUp<T(!new)>(g: Graph<T>, supers: seq<T>, d: T)
    requires forall b | b in supers :: MeetsEachOnce(g, b)
    requires d in Blocks(g, supers)
    ensures ToSet(RecursiveBases(g, d)) <= ToSet(Blocks(g, supers)) && MeetsEachOnce(g, d)
    decreases |Blocks(g, supers)|, |supers|
  {
    var b := supers[0];
    assert b in supers;
    if d in RecursiveBases(g, b) {
      BasesAreRecursive(g, b);
      BlocksGoUp(g, Next(g, b), d);
    } else if d != b {
      BlocksGoUp(g, supers[1..], d);
    }
  }

  // ----- getInheritanceChain -----

  datatype Chain<T> = NoChain | Chain(between: seq<T>)

  /** The models strictly between `from` and `to`, on the first way up that is found. */
  function InheritanceChain<T(==,!new)>(g: Graph<T>, from: T, to: T): Chain<T>
    requires MeetsEachOnce(g, from)
    decreases |RecursiveBases(g, from)|, 1, 0
  {
    if from == to then Chain([])
    else
      BasesAreRecursive(g, from);
      ChainVia(g, Next(g, from), to)
  }

  function ChainVia<T(==,!new)>(g: Graph<T>, supers: seq<T>, to: T): Chain<T>
    requires forall b | b in supers :: MeetsEachOnce(g, b)
    decreases |Blocks(g, supers)|, 0, |supers|
  {
    if supers == [] then NoChain
    else
      var b := supers[0];
      if b == to then Chain([])
      else
        match InheritanceChain(g, b, to)
        case Chain(path) => Chain([b] + path)
        case NoChain => ChainVia(g, supers[1..], to)
  }

  /** Some chain is found for every base; on it lie exactly the models below `to` and above the super types' model. */
  lemma {:induction false} ChainViaIs<T(!new)>(g: Graph<T>, supers: seq<T>, to: T)
    requires Distinct(Blocks(g, supers)) && forall b | b in supers :: MeetsEachOnce(g, b)
    ensures ChainVia(g, supers, to).Chain? <==> to in Blocks(g, supers)
    ensures ChainVia(g, supers, to).Chain? ==>
      forall d :: d in ChainVia(g, supers, to).between <==> d in Blocks(g, supers) && to in RecursiveBases(g, d)
    decreases |Blocks(g, supers)|, |supers|
  {
    if supers == [] {
    } else {
      var b, up, rest := supers[0], RecursiveBases(g, supers[0]), Blocks(g, supers[1..]);
      assert b in supers && Disjoint(Blocks(g, supers), []);
      PartsAreApart(b, up, rest, []);
      BasesAreRecursive(g, b);
      forall d | d in rest ensures forall x | x in RecursiveBases(g, d) :: x in rest {
        BlocksGoUp(g, supers[1..], d);
        assert forall x | x in RecursiveBases(g, d) :: x in ToSet(rest);
      }
      forall d | d in up ensures forall x | x in RecursiveBases(g, d) :: x in up {
        BlocksGoUp(g, Next(g, b), d);
        assert forall x | x in RecursiveBases(g, d) :: x in ToSet(up);
      }
      if to != b {
        ChainViaIs(g, Next(g, b), to);
        ChainViaIs(g, supers[1..], to);
      }
    }
  }

  /** The chain from `m` up to a base consists of all models that lie between the two. */
  lemma ChainIsBetween<T(!new)>(g: Graph<T>, m: T, to: T)
    requires MeetsEachOnce(g, m) && m != to
    ensures var c := InheritanceChain(g, m, to);
      && (c.Chain? <==> to in RecursiveBases(g, m))
      && (c.Chain? ==> forall d :: d in c.between <==> d in RecursiveBases(g, m) && to in RecursiveBases(g, d))
  {
    BasesAreRecursive(g, m);
    assert [m] + RecursiveBases(g, m) + [] == [m] + RecursiveBases(g, m);
    PartsAreApart(m, RecursiveBases(g, m), [], []);
    ChainViaIs(g, Next(g, m), to);
  }
}
