/**
 * Walking a list from its end while the callback may delete what it was just given: the indices still to come do not
 * move.
 */
module ReverseEnumeration {

  /** What is left when the elements marked in `deleted` are gone. */
  function Survivors<T>(items: seq<T>, deleted: seq<bool>): seq<T>
    requires |items| == |deleted|
  {
    if items == [] then []
    else (if deleted[0] then [] else [items[0]]) + Survivors(items[1..], deleted[1..])
  }

  /** A list that callbacks may shrink. */
  class JsList<T> {
    var items: seq<T>

    constructor (items: seq<T>)
      ensures this.items == items
    {
      this.items := items;
    }

    method Remove(i: nat)
      requires i < |items|
      modifies this
      ensures items == old(items[..i] + items[i + 1..])
    {
      items := items[..i] + items[i + 1..];
    }

    /**
     * `enumerateReverse` under any callback that deletes the current element or leaves the list alone;
     * `deletes` is what it will do with each of the original elements.
     */
    method EnumerateReverse(deletes: seq<bool>) returns (yielded: seq<T>)
      requires |deletes| == |items|
      modifies this
      ensures |yielded| == |old(items)|
      ensures forall k | 0 <= k < |yielded| :: yielded[k] == old(items)[|yielded| - 1 - k]
      ensures items == Survivors(old(items), deletes)
    {
      yielded := [];
      ghost var all := items;
      var n := |items|;
      var i := n - 1;
      Ends(all, deletes);
      while i >= 0
        invariant -1 <= i < n == |all| == |deletes|
        invariant |yielded| == n - 1 - i && forall k | 0 <= k < |yielded| :: yielded[k] == all[n - 1 - k]
        invariant items == Midway(all, deletes, i + 1)
      {
        Turn(all, deletes, i);
        yielded := yielded + [items[i]];
        if deletes[i] {
          Remove(i);
        }
        i := i - 1;
      }
    }
  }

  /** The list when the elements from the n-th on have been visited. */
  function Midway<T>(all: seq<T>, deletes: seq<bool>, n: nat): seq<T>
    requires n <= |all| == |deletes|
  {
    all[..n] + Survivors(all[n..], deletes[n..])
  }

  lemma Ends<T>(all: seq<T>, deletes: seq<bool>)
    requires |all| == |deletes|
    ensures Midway(all, deletes, |all|) == all && Midway(all, deletes, 0) == Survivors(all, deletes)
  {
    assert all[..|all|] == all && all[|all|..] == [] && all[..0] == [];
    assert all[0..] == all && deletes[0..] == deletes;
  }

  lemma Turn<T>(all: seq<T>, deletes: seq<bool>, i: nat)
    requires i < |all| == |deletes|
    ensures var list := Midway(all, deletes, i + 1);
      |list| > i && list[i] == all[i]
      && Midway(all, deletes, i) == if deletes[i] then list[..i] + list[i + 1..] else list
  {
    var rest := Survivors(all[i + 1..], deletes[i + 1..]);
    assert all[i..][1..] == all[i + 1..] && deletes[i..][1..] == deletes[i + 1..];
    var list := Midway(all, deletes, i + 1);
    assert list == all[..i] + [all[i]] + rest;
    assert list[..i] == all[..i] && list[i + 1..] == rest;
  }
}
