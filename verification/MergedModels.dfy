/** What merging base models does to fields, attributes and the origin of fields. */
module MergedModels {
  import opened Optional
  import opened Closure
  import opened Hierarchy
  import opened BaseMerge

  /** Every model is in its merged form. */
  ghost predicate AllMerged(s0: Schema, s: Schema) {
    WellLinked(s0) && Growth(s0, s) && forall m | m in s0 :: MergedAs(s0, s, m)
  }

  // ----- fields -----

  lemma {:induction false} ReverseJoin<T>(a: seq<T>, b: seq<T>)
    ensures Reverse(a + b) == Reverse(b) + Reverse(a)
  {
    if a == [] {
      assert a + b == b;
    } else {
      assert (a + b)[1..] == a[1..] + b;
      ReverseJoin(a[1..], b);
    }
  }

  lemma {:induction false} OwnFieldsJoin(s: Schema, a: seq<string>, b: seq<string>)
    requires forall m | m in a + b :: m in s
    ensures (forall m | m in a :: m in s) && forall m | m in b :: m in s
    ensures OwnFields(s, a + b) == OwnFields(s, a) + OwnFields(s, b)
  {
    forall m | m in a ensures m in s { assert m in a + b; }
    forall m | m in b ensures m in s { assert m in a + b; }
    if a == [] {
      assert a + b == b;
    } else {
      assert (a + b)[1..] == a[1..] + b && a[0] in a + b;
      OwnFieldsJoin(s, a[1..], b);
    }
  }

  lemma SeenAfter(s: Schema, models: seq<string>, more: seq<string>)
    requires forall m | m in models + more :: m in s
    ensures (forall m | m in models :: m in s) && forall m | m in more :: m in s
    ensures Seen(OwnFields(s, models + more)) == Seen(OwnFields(s, models)) + Seen(OwnFields(s, more))
  {
    OwnFieldsJoin(s, models, more);
    SeenJoin(OwnFields(s, models), OwnFields(s, more));
  }

  /** What an ancestor contributes is what it shows when merged itself. */
  lemma MergedShows(s0: Schema, s: Schema, b: string)
    requires WellLinked(s0) && b in s0 && b in s && MergedAs(s0, s, b)
    ensures forall x | x in BasesTopDown(s0, b) + [b] :: x in s0
    ensures Seen(OwnFields(s0, BasesTopDown(s0, b) + [b])) == Seen(OwnFields(s, [b]))
  {
    BasesAreDeclared(s0, b);
    SeenAfter(s0, BasesTopDown(s0, b), [b]);
    OwnFieldsOfOne(s0, b);
    OwnFieldsOfOne(s, b);
  }

  lemma OwnFieldsOfOne(s: Schema, b: string)
    requires b in s
    ensures OwnFields(s, [b]) == s[b].fields
  {
    assert [b][1..] == [] && s[b].fields + [] == s[b].fields;
  }

  lemma ReversedBlocks(g: Graph<string>, supers: seq<string>)
    requires supers != []
    ensures Reverse(Blocks(g, supers))
         == Reverse(Blocks(g, supers[1..])) + (Reverse(RecursiveBases(g, supers[0])) + [supers[0]])
  {
    var b := supers[0];
    ReverseJoin([b] + RecursiveBases(g, b), Blocks(g, supers[1..]));
    ReverseJoin([b], RecursiveBases(g, b));
    assert Reverse([b]) == [b];
  }

  lemma {:induction false} AncestorsFirst(s0: Schema, s: Schema, supers: seq<string>)
    requires ValidSchema(s0) && AllMerged(s0, s)
    requires forall b | b in supers :: b in s0
    ensures forall b | b in Reverse(Blocks(Supers(s0), supers)) :: b in s0
    ensures forall b | b in Reverse(supers) :: b in s
    ensures Seen(OwnFields(s0, Reverse(Blocks(Supers(s0), supers)))) == Seen(OwnFields(s, Reverse(supers)))
  {
    if supers == [] {
    } else {
      var g, b := Supers(s0), supers[0];
      assert b in supers;
      AncestorsFirst(s0, s, supers[1..]);
      assert MergedAs(s0, s, b);
      MergedShows(s0, s, b);
      ReversedBlocks(g, supers);
      SeenAfter(s0, Reverse(Blocks(g, supers[1..])), BasesTopDown(s0, b) + [b]);
      SeenAfter(s, Reverse(supers[1..]), [b]);
    }
  }

  /** A merged model shows the fields of its merged super types, the last one's first, and then its own. */
  lemma MergedIsRecursive(s0: Schema, s: Schema, m: string)
    requires ValidSchema(s0) && AllMerged(s0, s) && m in s0
    ensures forall b | b in Reverse(s0[m].supers) :: b in s
    ensures Seen(s[m].fields) == Seen(OwnFields(s, Reverse(s0[m].supers))) + Seen(s0[m].fields)
  {
    BasesAreRecursive(Supers(s0), m);
    BasesAreDeclared(s0, m);
    AncestorsFirst(s0, s, s0[m].supers);
    assert MergedAs(s0, s, m);
  }

  // ----- attributes -----

  /** A delegate that is `b` itself or lies between `m` and `b`. */
  ghost predicate DelegateUpTo(s: Schema, m: string, b: string) {
    IsDelegate(s, b) || exists d | d in RecursiveBases(Supers(s), m) ::
      IsDelegate(s, d) && b in RecursiveBases(Supers(s), d)
  }

  /** Which attributes of a base a model inherits. */
  lemma InheritedAttributeIff(s: Schema, m: string, b: string, a: Attribute)
    requires ValidSchema(s) && m in s && b in RecursiveBases(Supers(s), m) && b in s && a in s[b].attributes
    ensures InheritsAttribute(s, m, b, a) <==>
      && a.name != DELEGATE && a.name != MAP
      && !(IsConstraint(a.name) && DelegateUpTo(s, m, b))
      && !(a.name == SCHEMA && HasAttribute(s[m].attributes, SCHEMA))
  {
    var g := Supers(s);
    assert m != b by {
      PartsAreApart(m, RecursiveBases(g, m), [], []);
    }
    ChainIsBetween(g, m, b);
  }

  lemma {:induction false} ClonedAttribute(s: Schema, m: string, b: string, attributes: seq<Attribute>, x: Attribute)
    requires m in s && MeetsEachOnce(Supers(s), m)
    ensures x in CloneAttributes(s, m, b, attributes)
       <==> exists a | a in attributes :: InheritsAttribute(s, m, b, a) && x == CloneAttribute(m, a)
  {
    if attributes == [] {
    } else {
      ClonedAttribute(s, m, b, attributes[1..], x);
      assert forall a :: a in attributes <==> a == attributes[0] || a in attributes[1..];
    }
  }

  /** The inherited attributes are the clones of those that pass. */
  lemma {:induction false} InheritedAttributesAre(s: Schema, m: string, bases: seq<string>, x: Attribute)
    requires m in s && MeetsEachOnce(Supers(s), m) && forall b | b in bases :: b in s
    ensures x in InheritedAttributes(s, m, bases)
       <==> exists b, a | b in bases && a in s[b].attributes ::
         InheritsAttribute(s, m, b, a) && x == CloneAttribute(m, a)
  {
    if bases == [] {
    } else {
      ClonedAttribute(s, m, bases[0], s[bases[0]].attributes, x);
      InheritedAttributesAre(s, m, bases[1..], x);
      assert forall b :: b in bases <==> b == bases[0] || b in bases[1..];
    }
  }

  // ----- the model that a field is said to be inherited from -----

  /** Fields of different ancestors have different names, as validated. */
  ghost predicate UniqueFields(s: Schema, m: string) {
    forall b, c, f, g |
      b in RecursiveBases(Supers(s), m) && c in RecursiveBases(Supers(s), m) && b in s && c in s
      && f in s[b].fields && g in s[c].fields && f.name == g.name :: b == c
  }

  ghost predicate HasField(s: Schema, m: string, name: string) {
    m in s && exists f | f in s[m].fields :: f.name == name
  }

  /** During the loop each model is either merged or as declared. */
  ghost predicate Midway(s0: Schema, s: Schema, merged: set<string>) {
    && WellLinked(s0) && Growth(s0, s)
    && forall d | d in s0 :: if d in merged then MergedAs(s0, s, d) else s[d] == s0[d]
  }

  lemma {:induction false} SeenNames(fields: seq<Field>, name: string)
    ensures (exists f | f in fields :: f.name == name) <==> (exists p | p in Seen(fields) :: p.0 == name)
  {
    if fields == [] {
    } else {
      SeenNames(fields[1..], name);
      assert forall f :: f in fields <==> f == fields[0] || f in fields[1..];
      var first := (fields[0].name, fields[0].content);
      assert Seen(fields) == [first] + Seen(fields[1..]);
      assert forall p :: p in Seen(fields) <==> p == first || p in Seen(fields[1..]);
    }
  }

  lemma {:induction false} OwnFieldsAre(s: Schema, models: seq<string>, f: Field)
    requires forall m | m in models :: m in s
    ensures f in OwnFields(s, models) <==> exists m | m in models :: f in s[m].fields
  {
    if models == [] {
    } else {
      OwnFieldsAre(s, models[1..], f);
      assert forall m :: m in models <==> m == models[0] || m in models[1..];
    }
  }

  lemma MergedHas(s0: Schema, s: Schema, d: string, name: string)
    requires WellLinked(s0) && d in s0 && d in s && MergedAs(s0, s, d)
    ensures HasField(s, d, name)
       <==> HasField(s0, d, name) || exists b | b in RecursiveBases(Supers(s0), d) :: HasField(s0, b, name)
  {
    BasesAreDeclared(s0, d);
    var bases := BasesTopDown(s0, d);
    var above := OwnFields(s0, bases);
    SeenNames(s[d].fields, name);
    SeenNames(above, name);
    SeenNames(s0[d].fields, name);
    if f :| f in above && f.name == name {
      OwnFieldsAre(s0, bases, f);
      var b :| b in bases && f in s0[b].fields;
      ReverseHolds(RecursiveBases(Supers(s0), d), b);
      assert HasField(s0, b, name);
    }
    if b :| b in RecursiveBases(Supers(s0), d) && HasField(s0, b, name) {
      var f :| f in s0[b].fields && f.name == name;
      ReverseHolds(RecursiveBases(Supers(s0), d), b);
      OwnFieldsAre(s0, bases, f);
      assert f in above;
    }
    var x, y := Seen(above), Seen(s0[d].fields);
    assert forall p :: p in x + y <==> p in x || p in y;
  }

  /** In the walk upwards a model comes before its bases. */
  lemma {:induction false} BelowComesFirst<T(!new)>(g: Graph<T>, supers: seq<T>, d: T, b: T) returns (i: nat, j: nat)
    requires forall x | x in supers :: MeetsEachOnce(g, x)
    requires d in Blocks(g, supers) && b in RecursiveBases(g, d)
    ensures i < j < |Blocks(g, supers)| && Blocks(g, supers)[i] == d && Blocks(g, supers)[j] == b
    decreases |Blocks(g, supers)|, |supers|
  {
    var x, up, rest := supers[0], RecursiveBases(g, supers[0]), Blocks(g, supers[1..]);
    assert x in supers;
    if d == x {
      var k :| 0 <= k < |up| && up[k] == b;
      i, j := 0, k + 1;
    } else if d in up {
      BasesAreRecursive(g, x);
      i, j := BelowComesFirst(g, Next(g, x), d, b);
      i, j := i + 1, j + 1;
    } else {
      i, j := BelowComesFirst(g, supers[1..], d, b);
      i := Shifted(x, up, rest, i);
      j := Shifted(x, up, rest, j);
    }
  }

  lemma Shifted<T>(x: T, up: seq<T>, rest: seq<T>, i: nat) returns (k: nat)
    requires i < |rest|
    ensures k == i + 1 + |up| < |[x] + up + rest| && ([x] + up + rest)[k] == rest[i]
  {
    k := i + 1 + |up|;
  }

  ghost predicate Candidate(s: Schema, d: string, name: string) {
    IsDelegate(s, d) && HasField(s, d, name)
  }

  lemma {:induction false} LastDelegateIs(s: Schema, models: seq<string>, name: string)
    ensures var r := LastDelegateWith(s, models, name);
      if r.Some? then exists j | 0 <= j < |models| ::
        models[j] == r.value && Candidate(s, models[j], name)
        && forall k | j < k < |models| :: !Candidate(s, models[k], name)
      else forall k | 0 <= k < |models| :: !Candidate(s, models[k], name)
    decreases |models|
  {
    if models == [] {
    } else {
      var n := |models| - 1;
      if !Candidate(s, models[n], name) {
        LastDelegateIs(s, models[..n], name);
        assert forall k | 0 <= k < n :: models[..n][k] == models[k];
        var r := LastDelegateWith(s, models[..n], name);
        if r.Some? {
          var j :| 0 <= j < n && models[..n][j] == r.value && Candidate(s, models[..n][j], name)
            && forall k | j < k < n :: !Candidate(s, models[..n][k], name);
          forall k | j < k < |models| ensures !Candidate(s, models[k], name) {
            if k < n { assert !Candidate(s, models[..n][k], name); }
          }
        }
      } else {
        assert models[n] == models[|models| - 1];
      }
    }
  }

  lemma BaseOfBase(g: Graph<string>, m: string, d: string, c: string)
    requires MeetsEachOnce(g, m) && d in RecursiveBases(g, m) && c in RecursiveBases(g, d)
    ensures c in RecursiveBases(g, m)
  {
    BasesAreRecursive(g, m);
    BlocksGoUp(g, Next(g, m), d);
    assert c in ToSet(RecursiveBases(g, d));
  }

  lemma OnlyDeclarerHas(s: Schema, m: string, b: string, f: Field, d: string)
    requires UniqueFields(s, m) && b in s && f in s[b].fields
    requires b in RecursiveBases(Supers(s), m) && d in RecursiveBases(Supers(s), m)
    ensures HasField(s, d, f.name) <==> d == b
  {
    if d in s && d != b {
      forall h | h in s[d].fields ensures h.name != f.name {
      }
    }
  }

  /** Which ancestors of `m` have the field that `b` declares, merged or not. */
  lemma WhoHasTheField(s0: Schema, s: Schema, isMerged: bool, m: string, b: string, f: Field, d: string)
    requires WellLinked(s0) && m in s0 && UniqueFields(s0, m)
    requires b in s0 && f in s0[b].fields && d in s0 && d in s
    requires b in RecursiveBases(Supers(s0), m) && d in RecursiveBases(Supers(s0), m)
    requires if isMerged then MergedAs(s0, s, d) else s[d] == s0[d]
    ensures HasField(s, d, f.name) <==> d == b || (isMerged && b in RecursiveBases(Supers(s0), d))
  {
    var g := Supers(s0);
    OnlyDeclarerHas(s0, m, b, f, d);
    if isMerged {
      MergedHas(s0, s, d, f.name);
      forall c | c in RecursiveBases(g, d) ensures HasField(s0, c, f.name) <==> c == b {
        BaseOfBase(g, m, d, c);
        OnlyDeclarerHas(s0, m, b, f, c);
      }
    }
  }

  ghost predicate DelegateBetween(s: Schema, m: string, b: string) {
    exists d | d in RecursiveBases(Supers(s), m) :: IsDelegate(s, d) && b in RecursiveBases(Supers(s), d)
  }

  /** Of the ancestors that count, the declarer is the last, if it counts at all. */
  lemma DeclarerIsLast(s: Schema, g: Graph<string>, m: string, b: string, name: string)
    requires MeetsEachOnce(g, m) && b in RecursiveBases(g, m)
    requires forall d | d in RecursiveBases(g, m) && Candidate(s, d, name) :: d == b || b in RecursiveBases(g, d)
    requires Candidate(s, b, name)
    ensures LastDelegateWith(s, RecursiveBases(g, m), name) == Some(b)
  {
    var bases := RecursiveBases(g, m);
    LastDelegateIs(s, bases, name);
    var r := LastDelegateWith(s, bases, name);
    var n :| 0 <= n < |bases| && bases[n] == b;
    assert Candidate(s, bases[n], name);
    var j :| 0 <= j < |bases| && bases[j] == r.value && Candidate(s, bases[j], name)
      && forall k | j < k < |bases| :: !Candidate(s, bases[k], name);
    assert [m] + bases + [] == [m] + bases;
    PartsAreApart(m, bases, [], []);
    BasesAreRecursive(g, m);
    if r.value != b {
      var x, y := BelowComesFirst(g, Next(g, m), r.value, b);
      assert false;
    }
  }

  lemma NoCandidates(s: Schema, models: seq<string>, name: string)
    requires forall d | d in models :: !Candidate(s, d, name)
    ensures LastDelegateWith(s, models, name).None?
  {
    LastDelegateIs(s, models, name);
  }

  lemma SomeCandidate(s: Schema, models: seq<string>, d: string, name: string)
    requires d in models && Candidate(s, d, name)
    ensures var r := LastDelegateWith(s, models, name); r.Some? && r.value in models && IsDelegate(s, r.value)
  {
    LastDelegateIs(s, models, name);
    var k :| 0 <= k < |models| && models[k] == d;
    assert Candidate(s, models[k], name);
  }

  lemma WhoCounts(s0: Schema, s: Schema, merged: set<string>, m: string, b: string, f: Field, d: string)
    requires Midway(s0, s, merged) && m in s0 && UniqueFields(s0, m)
    requires b in s0 && f in s0[b].fields && b in RecursiveBases(Supers(s0), m) && d in RecursiveBases(Supers(s0), m)
    ensures Candidate(s, d, f.name)
       <==> IsDelegate(s0, d) && (d == b || (d in merged && b in RecursiveBases(Supers(s0), d)))
  {
    BasesAreDeclared(s0, m);
    DelegatesStay(s0, s, d);
    WhoHasTheField(s0, s, d in merged, m, b, f, d);
  }

  /**
   * A field counts as inherited from its declarer if that is a delegate or no delegate lies between, whatever is
   * merged.
   */
  lemma OriginIsDeclarer(s0: Schema, s: Schema, merged: set<string>, m: string, b: string, f: Field)
    requires ValidSchema(s0) && Midway(s0, s, merged) && m in s0 && UniqueFields(s0, m)
    requires b in RecursiveBases(Supers(s0), m) && b in s0 && f in s0[b].fields
    requires IsDelegate(s0, b) || !DelegateBetween(s0, m, b)
    ensures Origin(s, m, f) == b
  {
    var g := Supers(s0);
    SameSupers(s0, s);
    forall d | d in RecursiveBases(g, m)
      ensures Candidate(s, d, f.name) <==> IsDelegate(s0, d) && (d == b || (d in merged && b in RecursiveBases(g, d)))
    {
      WhoCounts(s0, s, merged, m, b, f, d);
    }
    if IsDelegate(s0, b) {
      DeclarerIsLast(s, g, m, b, f.name);
    } else {
      NoCandidates(s, RecursiveBases(g, m), f.name);
    }
  }

  lemma OriginBeforeMerging(s: Schema, m: string, b: string, f: Field)
    requires ValidSchema(s) && m in s && UniqueFields(s, m)
    requires b in RecursiveBases(Supers(s), m) && b in s && f in s[b].fields
    ensures Origin(s, m, f) == b
  {
    NothingMerged(s);
    var bases := RecursiveBases(Supers(s), m);
    forall d | d in bases ensures Candidate(s, d, f.name) <==> IsDelegate(s, d) && d == b {
      WhoCounts(s, s, {}, m, b, f, d);
    }
    if IsDelegate(s, b) {
      DeclarerIsLast(s, Supers(s), m, b, f.name);
    } else {
      NoCandidates(s, bases, f.name);
    }
  }

  lemma DelegateTakesOver(s0: Schema, s: Schema, merged: set<string>, m: string, b: string, f: Field, d: string)
    requires Midway(s0, s, merged) && m in s0 && UniqueFields(s0, m)
    requires b in RecursiveBases(Supers(s0), m) && b in s0 && f in s0[b].fields && !IsDelegate(s0, b)
    requires d in RecursiveBases(Supers(s0), m) && IsDelegate(s0, d) && b in RecursiveBases(Supers(s0), d)
      && d in merged
    ensures var o := Origin(s, m, f); o != b && o in RecursiveBases(Supers(s0), m) && IsDelegate(s0, o)
  {
    SameSupers(s0, s);
    WhoCounts(s0, s, merged, m, b, f, d);
    SomeCandidate(s, RecursiveBases(Supers(s0), m), d, f.name);
    DelegatesStay(s0, s, b);
    DelegatesStay(s0, s, Origin(s, m, f));
  }

  /** Only then: else the origin of the field tells whether the delegates in between were declared before the model. */
  lemma OriginIsStableIff(s0: Schema, s: Schema, m: string, b: string, f: Field)
    requires ValidSchema(s0) && AllMerged(s0, s) && m in s0 && UniqueFields(s0, m)
    requires b in RecursiveBases(Supers(s0), m) && b in s0 && f in s0[b].fields
    ensures Origin(s0, m, f) == b
    ensures Origin(s, m, f) == b <==> IsDelegate(s0, b) || !DelegateBetween(s0, m, b)
  {
    OriginBeforeMerging(s0, m, b, f);
    assert Midway(s0, s, s0.Keys);
    if IsDelegate(s0, b) || !DelegateBetween(s0, m, b) {
      OriginIsDeclarer(s0, s, s0.Keys, m, b, f);
    } else {
      var d :| d in RecursiveBases(Supers(s0), m) && IsDelegate(s0, d) && b in RecursiveBases(Supers(s0), d);
      DelegateTakesOver(s0, s, s0.Keys, m, b, f, d);
    }
  }

  lemma NothingMerged(s0: Schema)
    requires WellLinked(s0)
    ensures Midway(s0, s0, {})
  {
  }

  /** A model under a delegate under an abstract model with a field. */
  function Example(a: string, d: string, m: string, x: Field): Schema {
    map[
      a := Decl(true, [], [x], [], false),
      d := Decl(false, [a], [], [Attribute(DELEGATE, "", d, None)], false),
      m := Decl(false, [d], [], [], false)]
  }

  lemma ExampleBases(a: string, d: string, m: string, x: Field)
    requires a != d && d != m && m != a
    ensures var g := Supers(Example(a, d, m, x));
      RecursiveBases(g, a) == [] && RecursiveBases(g, d) == [a] && RecursiveBases(g, m) == [d, a]
  {
    var g := Supers(Example(a, d, m, x));
    assert Next(g, a) == [] && Next(g, d) == [a] && Next(g, m) == [d];
    BasesOfLeaf(g, a, [d]);
    BasesOfLeaf(g, a, [m] + [d]);
    assert [d][1..] == [] && [d] + [a] + [] == [d, a];
    assert BasesOf(g, [], [m] + [d] + [a]) == ([], [m] + [d] + [a]);
  }

  lemma ExampleIsLinked(a: string, d: string, m: string, x: Field)
    requires a != d && d != m && m != a
    ensures WellLinked(Example(a, d, m, x))
  {
    var s := Example(a, d, m, x);
    ExampleBases(a, d, m, x);
    forall n | n in s ensures MeetsEachOnce(Supers(s), n) && forall b | b in s[n].supers :: b in s {
      if n == m {
        assert [m] + [d, a] == [m, d, a];
      }
    }
  }

  lemma ExampleIsUnique(a: string, d: string, m: string, x: Field)
    requires a != d && d != m && m != a
    ensures UniqueFields(Example(a, d, m, x), m)
  {
    var s := Example(a, d, m, x);
    ExampleBases(a, d, m, x);
    forall b, c, f, g |
      b in RecursiveBases(Supers(s), m) && c in RecursiveBases(Supers(s), m) && b in s && c in s
      && f in s[b].fields && g in s[c].fields && f.name == g.name
      ensures b == c
    {
      assert s[d].fields == [];
    }
  }

  lemma ExampleIsValid(a: string, d: string, m: string, x: Field)
    requires a != d && d != m && m != a && x.container == a && x.inheritedFrom.None?
    ensures var s := Example(a, d, m, x); ValidSchema(s) && IsDelegate(s, d) && !IsDelegate(s, a)
  {
    ExampleIsLinked(a, d, m, x);
    assert Example(a, d, m, x)[d].attributes[0].name == DELEGATE;
  }

  /** After the turns of some models, just these are merged. */
  lemma MidwayAfter(s: Schema, order: seq<string>)
    requires ValidSchema(s) && Distinct(order) && forall m | m in order :: m in s
    ensures Midway(s, MergeAll(s, order), ToSet(order))
  {
    NothingMerged(s);
    MergeRest(s, s, order);
  }

  /** The same field of the same model: inherited from `a` if `m` is declared first, but not if it is declared last. */
  lemma OriginDependsOnOrder(a: string, d: string, m: string, x: Field)
    requires a != d && d != m && m != a && x.container == a && x.inheritedFrom.None?
    ensures var s := Example(a, d, m, x);
      WellLinked(s) && Origin(s, m, x) == a && Origin(MergeAll(s, [a, d]), m, x) != a
  {
    var s := Example(a, d, m, x);
    ExampleBases(a, d, m, x);
    ExampleIsValid(a, d, m, x);
    ExampleIsUnique(a, d, m, x);
    OriginBeforeMerging(s, m, a, x);
    MidwayAfter(s, [a, d]);
    DelegateTakesOver(s, MergeAll(s, [a, d]), ToSet([a, d]), m, a, x, d);
  }
}
