/** Copying the members of base models into the models that extend them. */
module BaseMerge {
  import opened Optional
  import opened Closure
  import opened Hierarchy

  /** `container` and `inheritedFrom` name data models; `content` is all that cloning copies. */
  datatype Field = Field(name: string, content: string, container: string, inheritedFrom: Option<string>)

  datatype Attribute = Attribute(name: string, content: string, container: string, inheritedFrom: Option<string>)

  datatype Decl = Decl(
    isAbstract: bool, supers: seq<string>, fields: seq<Field>, attributes: seq<Attribute>, baseMerged: bool)

  type Schema = map<string, Decl>

  const DELEGATE := "@@delegate"
  const MAP := "@@map"
  const SCHEMA := "@@schema"

  /** Attributes about fields that a delegate base keeps for itself. */
  predicate IsConstraint(name: string) {
    name == "@@unique" || name == "@@index" || name == "@@fulltext"
  }

  function Supers(s: Schema): Graph<string> {
    map m | m in s :: s[m].supers
  }

  predicate HasAttribute(attributes: seq<Attribute>, name: string) {
    exists a | a in attributes :: a.name == name
  }

  predicate IsDelegate(s: Schema, m: string) {
    m in s && HasAttribute(s[m].attributes, DELEGATE)
  }

  /** As validated: super types exist, no model meets a base twice; nothing is inherited yet. */
  ghost predicate ValidSchema(s: Schema) {
    && WellLinked(s)
    && forall m | m in s ::
      (forall f | f in s[m].fields :: f.container == m && f.inheritedFrom.None?)
      && forall a | a in s[m].attributes :: a.container == m && a.inheritedFrom.None?
  }

  ghost predicate WellLinked(s: Schema) {
    forall m | m in s :: MeetsEachOnce(Supers(s), m) && forall b | b in s[m].supers :: b in s
  }

  function Reverse<T>(l: seq<T>): seq<T> {
    if l == [] then [] else Reverse(l[1..]) + [l[0]]
  }

  // ----- mergeBaseModels, one model at a time -----

  /** `getRecursiveBases(dataModel).reverse()` */
  function BasesTopDown(s: Schema, m: string): seq<string> {
    Reverse(RecursiveBases(Supers(s), m))
  }

  /** The last delegate of the list that now has a field of that name. */
  function LastDelegateWith(s: Schema, models: seq<string>, name: string): Option<string> {
    if models == [] then None
    else
      var last := models[|models| - 1];
      if IsDelegate(s, last) && exists f | f in s[last].fields :: f.name == name then Some(last)
      else LastDelegateWith(s, models[..|models| - 1], name)
  }

  function Origin(s: Schema, m: string, f: Field): string {
    var d := LastDelegateWith(s, RecursiveBases(Supers(s), m), f.name);
    if d.Some? then d.value else if f.inheritedFrom.Some? then f.inheritedFrom.value else f.container
  }

  function CloneField(s: Schema, m: string, f: Field): Field {
    f.(container := m, inheritedFrom := Some(Origin(s, m, f)))
  }

  /** Clones of the fields that are not inherited themselves. */
  function CloneFields(s: Schema, m: string, fields: seq<Field>): seq<Field> {
    if fields == [] then []
    else (if fields[0].inheritedFrom.Some? then [] else [CloneField(s, m, fields[0])]) + CloneFields(s, m, fields[1..])
  }

  function InheritedFields(s: Schema, m: string, bases: seq<string>): seq<Field>
    requires forall b | b in bases :: b in s
  {
    if bases == [] then [] else CloneFields(s, m, s[bases[0]].fields) + InheritedFields(s, m, bases[1..])
  }

  predicate FromOrThroughDelegate(s: Schema, m: string, b: string)
    requires MeetsEachOnce(Supers(s), m)
  {
    IsDelegate(s, b)
    || (match InheritanceChain(Supers(s), m, b)
        case NoChain => false
        case Chain(between) => exists d | d in between :: IsDelegate(s, d))
  }

  /** `filterBaseAttribute` */
  predicate InheritsAttribute(s: Schema, m: string, b: string, a: Attribute)
    requires m in s && MeetsEachOnce(Supers(s), m)
  {
    && a.inheritedFrom.None?
    && a.name != DELEGATE && a.name != MAP
    && !(FromOrThroughDelegate(s, m, b) && IsConstraint(a.name))
    && !(HasAttribute(s[m].attributes, a.name) && a.name == SCHEMA)
  }

  function CloneAttribute(m: string, a: Attribute): Attribute {
    a.(container := m, inheritedFrom := Some(if a.inheritedFrom.Some? then a.inheritedFrom.value else a.container))
  }

  function CloneAttributes(s: Schema, m: string, b: string, attributes: seq<Attribute>): seq<Attribute>
    requires m in s && MeetsEachOnce(Supers(s), m)
  {
    if attributes == [] then []
    else
      (if InheritsAttribute(s, m, b, attributes[0]) then [CloneAttribute(m, attributes[0])] else [])
      + CloneAttributes(s, m, b, attributes[1..])
  }

  function InheritedAttributes(s: Schema, m: string, bases: seq<string>): seq<Attribute>
    requires m in s && MeetsEachOnce(Supers(s), m) && forall b | b in bases :: b in s
  {
    if bases == [] then []
    else CloneAttributes(s, m, bases[0], s[bases[0]].attributes) + InheritedAttributes(s, m, bases[1..])
  }

  lemma {:induction false} ReverseHolds<T>(l: seq<T>, x: T)
    ensures x in Reverse(l) <==> x in l
  {
    if l == [] {
    } else {
      ReverseHolds(l[1..], x);
    }
  }

  lemma BasesAreDeclared(s: Schema, m: string)
    requires WellLinked(s) && m in s
    ensures forall b | b in BasesTopDown(s, m) :: b in s
    ensures forall b | b in RecursiveBases(Supers(s), m) :: b in s
  {
    var g := Supers(s);
    assert Closed(g, s.Keys) by {
      forall n, k | n in s.Keys && k in Next(g, n) ensures k in s.Keys { assert k in s[n].supers; }
    }
    forall b | b in ToSet(Next(g, m)) ensures b in s.Keys { assert b in s[m].supers; }
    ExpandedAreReached(g, Next(g, m), [m], s.Keys);
    forall b | b in RecursiveBases(g, m) ensures b in s { assert b in ToSet(RecursiveBases(g, m)); }
    forall b | b in BasesTopDown(s, m) ensures b in s { ReverseHolds(RecursiveBases(g, m), b); }
  }

  /** One turn of the loop of `mergeBaseModels`. */
  function MergeOne(s: Schema, m: string): Schema
    requires WellLinked(s) && m in s
  {
    BasesAreDeclared(s, m);
    s[m := s[m].(
      fields := InheritedFields(s, m, BasesTopDown(s, m)) + s[m].fields,
      attributes := InheritedAttributes(s, m, BasesTopDown(s, m)) + s[m].attributes,
      baseMerged := true)]
  }

  /** The loop, in declaration order: later models see what earlier turns have made of their bases. */
  function MergeAll(s: Schema, order: seq<string>): Schema
    requires WellLinked(s) && forall m | m in order :: m in s
    decreases |order|
  {
    if order == [] then s
    else
      MergeKeepsLinks(s, order[0]);
      MergeAll(MergeOne(s, order[0]), order[1..])
  }

  lemma MergeKeepsLinks(s: Schema, m: string)
    requires WellLinked(s) && m in s
    ensures Supers(MergeOne(s, m)) == Supers(s) && WellLinked(MergeOne(s, m)) && MergeOne(s, m).Keys == s.Keys
  {
    var r := MergeOne(s, m);
    assert Supers(r) == Supers(s);
  }

  // ----- the result, told without an order -----

  /** What a reader of the schema sees of a field. */
  function Seen(fields: seq<Field>): seq<(string, string)> {
    if fields == [] then [] else [(fields[0].name, fields[0].content)] + Seen(fields[1..])
  }

  function OwnFields(s: Schema, models: seq<string>): seq<Field>
    requires forall b | b in models :: b in s
  {
    if models == [] then [] else s[models[0]].fields + OwnFields(s, models[1..])
  }

  /** A list of members as declared, possibly after some that are inherited. */
  ghost predicate GrownFields(own: seq<Field>, now: seq<Field>) {
    |own| <= |now| && now[|now| - |own|..] == own && forall f | f in now[..|now| - |own|] :: f.inheritedFrom.Some?
  }

  ghost predicate GrownAttributes(own: seq<Attribute>, now: seq<Attribute>) {
    |own| <= |now| && now[|now| - |own|..] == own
    && forall a | a in now[..|now| - |own|] :: a.inheritedFrom.Some? && a.name != DELEGATE
  }

  /** What may have happened to a schema so far. */
  ghost predicate Growth(s0: Schema, s: Schema) {
    s.Keys == s0.Keys && forall m | m in s0 ::
      s[m].isAbstract == s0[m].isAbstract && s[m].supers == s0[m].supers
      && GrownFields(s0[m].fields, s[m].fields) && GrownAttributes(s0[m].attributes, s[m].attributes)
  }

  lemma {:induction false} ClonesSkipInherited(s: Schema, m: string, a: seq<Field>, b: seq<Field>)
    requires forall f | f in a :: f.inheritedFrom.Some?
    ensures CloneFields(s, m, a + b) == CloneFields(s, m, b)
  {
    if a == [] {
      assert a + b == b;
    } else {
      assert (a + b)[1..] == a[1..] + b;
      ClonesSkipInherited(s, m, a[1..], b);
    }
  }

  lemma {:induction false} ClonesAreSeen(s: Schema, m: string, fields: seq<Field>)
    requires forall f | f in fields :: f.inheritedFrom.None?
    ensures Seen(CloneFields(s, m, fields)) == Seen(fields)
    ensures forall f | f in CloneFields(s, m, fields) :: f.inheritedFrom.Some?
  {
    if fields == [] {
    } else {
      ClonesAreSeen(s, m, fields[1..]);
    }
  }

  lemma {:induction false} SeenJoin(a: seq<Field>, b: seq<Field>)
    ensures Seen(a + b) == Seen(a) + Seen(b)
  {
    if a == [] {
      assert a + b == b;
    } else {
      assert (a + b)[1..] == a[1..] + b;
      SeenJoin(a[1..], b);
    }
  }

  lemma SuffixSplits<T>(own: seq<T>, now: seq<T>)
    requires |own| <= |now| && now[|now| - |own|..] == own
    ensures now == now[..|now| - |own|] + own
  {
  }

  /** Whether bases are merged already or not, the same fields are inherited, all marked. */
  lemma {:induction false} InheritedAreSeen(s0: Schema, s: Schema, m: string, bases: seq<string>)
    requires ValidSchema(s0) && Growth(s0, s) && forall b | b in bases :: b in s0
    ensures Seen(InheritedFields(s, m, bases)) == Seen(OwnFields(s0, bases))
    ensures forall f | f in InheritedFields(s, m, bases) :: f.inheritedFrom.Some?
  {
    if bases == [] {
    } else {
      var b := bases[0];
      assert b in bases;
      var own, now := s0[b].fields, s[b].fields;
      SuffixSplits(own, now);
      ClonesSkipInherited(s, m, now[..|now| - |own|], own);
      ClonesAreSeen(s, m, own);
      InheritedAreSeen(s0, s, m, bases[1..]);
      SeenJoin(CloneFields(s, m, now), InheritedFields(s, m, bases[1..]));
      SeenJoin(own, OwnFields(s0, bases[1..]));
    }
  }

  lemma DelegatesStay(s0: Schema, s: Schema, b: string)
    requires Growth(s0, s)
    ensures IsDelegate(s, b) == IsDelegate(s0, b)
  {
    if b in s0 {
      var own, now := s0[b].attributes, s[b].attributes;
      SuffixSplits(own, now);
      assert forall a :: a in now <==> a in now[..|now| - |own|] || a in own;
    }
  }

  lemma SameSupers(s0: Schema, s: Schema)
    requires Growth(s0, s)
    ensures Supers(s) == Supers(s0)
  {
  }

  lemma SameInheritance(s0: Schema, s: Schema, m: string, b: string, a: Attribute)
    requires WellLinked(s0) && Growth(s0, s) && m in s0 && s[m].attributes == s0[m].attributes
    ensures Supers(s) == Supers(s0) && InheritsAttribute(s, m, b, a) == InheritsAttribute(s0, m, b, a)
  {
    SameSupers(s0, s);
    DelegatesStay(s0, s, b);
    forall d | true ensures IsDelegate(s, d) == IsDelegate(s0, d) {
      DelegatesStay(s0, s, d);
    }
  }

  lemma {:induction false} SameClones(s0: Schema, s: Schema, m: string, b: string, attributes: seq<Attribute>)
    requires WellLinked(s0) && Growth(s0, s) && m in s0 && s[m].attributes == s0[m].attributes
    ensures Supers(s) == Supers(s0)
    ensures CloneAttributes(s, m, b, attributes) == CloneAttributes(s0, m, b, attributes)
    ensures forall a | a in CloneAttributes(s, m, b, attributes) :: a.inheritedFrom.Some? && a.name != DELEGATE
  {
    SameSupers(s0, s);
    if attributes == [] {
    } else {
      SameInheritance(s0, s, m, b, attributes[0]);
      SameClones(s0, s, m, b, attributes[1..]);
    }
  }

  lemma {:induction false} AttributesSkipInherited(
      s: Schema, m: string, b: string, x: seq<Attribute>, y: seq<Attribute>)
    requires m in s && MeetsEachOnce(Supers(s), m) && forall a | a in x :: a.inheritedFrom.Some?
    ensures CloneAttributes(s, m, b, x + y) == CloneAttributes(s, m, b, y)
  {
    if x == [] {
      assert x + y == y;
    } else {
      assert (x + y)[1..] == x[1..] + y;
      AttributesSkipInherited(s, m, b, x[1..], y);
    }
  }

  lemma {:induction false} SameInherited(s0: Schema, s: Schema, m: string, bases: seq<string>)
    requires WellLinked(s0) && Growth(s0, s) && m in s0 && s[m].attributes == s0[m].attributes
    requires forall b | b in bases :: b in s0
    ensures Supers(s) == Supers(s0)
    ensures InheritedAttributes(s, m, bases) == InheritedAttributes(s0, m, bases)
    ensures forall a | a in InheritedAttributes(s, m, bases) :: a.inheritedFrom.Some? && a.name != DELEGATE
  {
    SameSupers(s0, s);
    if bases == [] {
    } else {
      var b := bases[0];
      var own, now := s0[b].attributes, s[b].attributes;
      SuffixSplits(own, now);
      AttributesSkipInherited(s, m, b, now[..|now| - |own|], own);
      SameClones(s0, s, m, b, own);
      SameInherited(s0, s, m, bases[1..]);
    }
  }

  /** The merged form of a model, in terms of the declarations alone: ancestors root first, then the model itself. */
  ghost predicate MergedAs(s0: Schema, s: Schema, m: string)
    requires WellLinked(s0) && m in s0 && m in s
  {
    BasesAreDeclared(s0, m);
    var bases := BasesTopDown(s0, m);
    && Seen(s[m].fields) == Seen(OwnFields(s0, bases)) + Seen(s0[m].fields)
    && s[m].attributes == InheritedAttributes(s0, m, bases) + s0[m].attributes
    && s[m].baseMerged
  }

  lemma GrowFields(fs: seq<Field>, own: seq<Field>)
    requires forall f | f in fs :: f.inheritedFrom.Some?
    ensures GrownFields(own, fs + own)
  {
    assert (fs + own)[..|fs|] == fs && (fs + own)[|fs|..] == own;
  }

  lemma GrowAttributes(attrs: seq<Attribute>, own: seq<Attribute>)
    requires forall a | a in attrs :: a.inheritedFrom.Some? && a.name != DELEGATE
    ensures GrownAttributes(own, attrs + own)
  {
    assert (attrs + own)[..|attrs|] == attrs && (attrs + own)[|attrs|..] == own;
  }

  lemma MergedFieldsAre(s0: Schema, s: Schema, m: string)
    requires ValidSchema(s0) && WellLinked(s) && Growth(s0, s) && m in s0 && s[m] == s0[m]
    ensures forall b | b in BasesTopDown(s0, m) :: b in s0
    ensures GrownFields(s0[m].fields, MergeOne(s, m)[m].fields)
    ensures Seen(MergeOne(s, m)[m].fields) == Seen(OwnFields(s0, BasesTopDown(s0, m))) + Seen(s0[m].fields)
  {
    SameSupers(s0, s);
    BasesAreDeclared(s0, m);
    var fs := InheritedFields(s, m, BasesTopDown(s0, m));
    InheritedAreSeen(s0, s, m, BasesTopDown(s0, m));
    SeenJoin(fs, s0[m].fields);
    GrowFields(fs, s0[m].fields);
  }

  lemma MergedAttributesAre(s0: Schema, s: Schema, m: string)
    requires ValidSchema(s0) && WellLinked(s) && Growth(s0, s) && m in s0 && s[m] == s0[m]
    ensures forall b | b in BasesTopDown(s0, m) :: b in s0
    ensures MergeOne(s, m)[m].attributes == InheritedAttributes(s0, m, BasesTopDown(s0, m)) + s0[m].attributes
    ensures GrownAttributes(s0[m].attributes, MergeOne(s, m)[m].attributes)
  {
    SameSupers(s0, s);
    BasesAreDeclared(s0, m);
    SameInherited(s0, s, m, BasesTopDown(s0, m));
    GrowAttributes(InheritedAttributes(s, m, BasesTopDown(s0, m)), s0[m].attributes);
  }

  lemma MergeTouchesOne(s: Schema, m: string)
    requires WellLinked(s) && m in s
    ensures var r := MergeOne(s, m);
      r.Keys == s.Keys && r[m].baseMerged && r[m].isAbstract == s[m].isAbstract && r[m].supers == s[m].supers
      && forall b | b in s && b != m :: r[b] == s[b]
  {
  }

  lemma GrowthStep(s0: Schema, s: Schema, r: Schema, m: string)
    requires Growth(s0, s) && m in s0 && r.Keys == s.Keys && forall b | b in s && b != m :: r[b] == s[b]
    requires r[m].isAbstract == s[m].isAbstract && r[m].supers == s[m].supers
    requires GrownFields(s0[m].fields, r[m].fields) && GrownAttributes(s0[m].attributes, r[m].attributes)
    ensures Growth(s0, r)
  {
  }

  lemma MergeOneIs(s0: Schema, s: Schema, m: string)
    requires ValidSchema(s0) && WellLinked(s) && Growth(s0, s) && m in s0 && s[m] == s0[m]
    ensures Growth(s0, MergeOne(s, m)) && MergedAs(s0, MergeOne(s, m), m)
  {
    var r := MergeOne(s, m);
    MergeTouchesOne(s, m);
    assert Growth(s0, r) by {
      MergedFieldsAre(s0, s, m);
      MergedAttributesAre(s0, s, m);
      GrowthStep(s0, s, r, m);
    }
    assert MergedAs(s0, r, m) by {
      MergedFieldsAre(s0, s, m);
      MergedAttributesAre(s0, s, m);
    }
  }

  lemma {:induction false} MergeRest(s0: Schema, s: Schema, order: seq<string>)
    requires ValidSchema(s0) && WellLinked(s) && Growth(s0, s)
    requires Distinct(order) && forall m | m in order :: m in s0 && s[m] == s0[m]
    ensures var r := MergeAll(s, order);
      && Growth(s0, r)
      && (forall m | m in order :: MergedAs(s0, r, m))
      && forall m | m in s0 && m !in order :: r[m] == s[m]
    decreases |order|
  {
    if order == [] {
    } else {
      var m, t := order[0], MergeOne(s, order[0]);
      assert m in order;
      MergeOneIs(s0, s, m);
      MergeKeepsLinks(s, m);
      DistinctTail(order);
      MergeRest(s0, t, order[1..]);
    }
  }

  lemma DistinctTail(order: seq<string>)
    requires Distinct(order) && order != []
    ensures Distinct(order[1..]) && order[0] !in order[1..]
  {
    DistinctFrom(order);
  }

  /** The loop reaches the merged form of every model, whatever the order in which models are declared. */
  lemma OrderDoesNotMatter(s: Schema, order: seq<string>)
    requires ValidSchema(s) && Distinct(order) && ToSet(order) == s.Keys
    ensures forall m | m in order :: m in ToSet(order)
    ensures forall m | m in s :: m in MergeAll(s, order) && MergedAs(s, MergeAll(s, order), m)
  {
    forall m | m in order ensures m in s { assert m in ToSet(order); }
    forall m | m in s
      ensures GrownFields(s[m].fields, s[m].fields) && GrownAttributes(s[m].attributes, s[m].attributes)
    {
    }
    MergeRest(s, s, order);
    forall m | m in s ensures m in order { assert m in ToSet(order); }
  }
}
