/**
 * `mergeBaseModels` on the syntax tree, which it changes in place. Each declaration is an object, and super types are
 * names that the linker has resolved to objects.
 */
module SchemaMerger {
  import opened Closure
  import opened Hierarchy
  import opened BaseMerge
  import opened MergedModels

  class DataModel {
    const name: string
    const isAbstract: bool
    var superTypes: seq<string>
    var fields: seq<Field>
    var attributes: seq<Attribute>
    var baseMerged: bool

    constructor (decl: Decl, name: string)
      ensures this.name == name && Declared() == decl
    {
      this.name, isAbstract, baseMerged := name, decl.isAbstract, decl.baseMerged;
      superTypes, fields, attributes := decl.supers, decl.fields, decl.attributes;
    }

    function Declared(): Decl
      reads this
    {
      Decl(isAbstract, superTypes, fields, attributes, baseMerged)
    }
  }

  function Names(models: seq<DataModel>): seq<string> {
    seq(|models|, i requires 0 <= i < |models| => models[i].name)
  }

  function Concrete(models: seq<DataModel>): seq<DataModel> {
    if models == [] then []
    else (if models[0].isAbstract then [] else [models[0]]) + Concrete(models[1..])
  }

  function DelegatesOnly(s: Schema, supers: seq<string>): seq<string> {
    if supers == [] then []
    else (if IsDelegate(s, supers[0]) then [supers[0]] else []) + DelegatesOnly(s, supers[1..])
  }

  lemma {:induction false} ConcreteAre(models: seq<DataModel>, m: DataModel)
    ensures m in Concrete(models) <==> m in models && !m.isAbstract
  {
    if models == [] {
    } else {
      ConcreteAre(models[1..], m);
    }
  }

  ghost predicate SameStatus(s0: Schema, s: Schema) {
    forall b :: IsDelegate(s, b) == IsDelegate(s0, b)
  }

  lemma {:induction false} SameDelegates(s0: Schema, s: Schema, supers: seq<string>)
    requires SameStatus(s0, s)
    ensures DelegatesOnly(s, supers) == DelegatesOnly(s0, supers)
  {
    if supers == [] {
    } else {
      SameDelegates(s0, s, supers[1..]);
    }
  }

  /** Every reference leads to the declaration of that name. */
  ghost predicate Linked(models: seq<DataModel>, linked: map<string, DataModel>) {
    && Distinct(Names(models)) && ToSet(Names(models)) == linked.Keys
    && (forall n | n in linked :: linked[n].name == n)
    && forall d | d in models :: d.name in linked && linked[d.name] == d
  }

  ghost predicate Links(models: seq<DataModel>, linked: map<string, DataModel>) {
    && (forall n | n in linked :: linked[n].name == n)
    && forall d | d in models :: d.name in linked && linked[d.name] == d
  }

  lemma {:induction false} ConcreteLinks(models: seq<DataModel>, linked: map<string, DataModel>)
    requires Links(models, linked) && Distinct(models)
    ensures Links(Concrete(models), linked) && Distinct(Concrete(models))
  {
    forall d | d in Concrete(models) ensures d in models { ConcreteAre(models, d); }
    if models == [] {
    } else {
      assert Links(models[1..], linked) && models[0] !in models[1..];
      ConcreteLinks(models[1..], linked);
      ConcreteAre(models[1..], models[0]);
    }
  }

  lemma AllLinked(models: seq<DataModel>, linked: map<string, DataModel>)
    requires Linked(models, linked)
    ensures Links(models, linked) && Distinct(models) && forall n | n in linked :: linked[n] in models
  {
    forall i, j | 0 <= i < j < |models| ensures models[i] != models[j] { assert Names(models)[i] != Names(models)[j]; }
    forall n | n in linked ensures linked[n] in models {
      assert n in ToSet(Names(models));
      var i :| 0 <= i < |models| && Names(models)[i] == n;
      assert models[i] in models;
    }
  }

  function MembersOf(s: Schema): map<string, (seq<Field>, seq<Attribute>, bool)> {
    map n | n in s :: (s[n].fields, s[n].attributes, s[n].baseMerged)
  }

  ghost predicate InSchema(names: seq<string>, s: Schema) {
    forall i | 0 <= i < |names| :: names[i] in s
  }

  /** What the turns from the i-th on make of a schema. */
  ghost function Remaining(s: Schema, names: seq<string>, i: nat): Schema
    requires WellLinked(s) && InSchema(names, s) && i <= |names|
  {
    MergeAll(s, names[i..])
  }

  lemma MergeTurn(s: Schema, names: seq<string>, i: nat)
    requires WellLinked(s) && InSchema(names, s) && i < |names|
    ensures var t := MergeOne(s, names[i]);
      WellLinked(t) && InSchema(names, t) && Remaining(s, names, i) == Remaining(t, names, i + 1)
  {
    assert names[i..][0] == names[i] && names[i..][1..] == names[i + 1..];
    MergeKeepsLinks(s, names[i]);
  }

  method GetBasesTopDown(s: Schema, m: string) returns (bases: seq<string>)
    requires WellLinked(s) && m in s
    ensures bases == BasesTopDown(s, m) && forall b | b in bases :: b in s
  {
    BasesAreDeclared(s, m);
    var seen;
    bases, seen := GetRecursiveBases(Supers(s), m, []);
    assert [] + [m] == [m];
    bases := Reverse(bases);
  }

  /** A document whose references resolve through `linked`. */
  class Model {
    const linked: map<string, DataModel>
    var declarations: seq<DataModel>

    constructor (models: seq<DataModel>, linked: map<string, DataModel>)
      requires Linked(models, linked)
      ensures Valid() && declarations == models && this.linked == linked
    {
      this.linked, declarations := linked, models;
    }

    ghost predicate Valid()
      reads this
    {
      Linked(declarations, linked)
    }

    function Current(): Schema
      reads linked.Values
    {
      map n | n in linked :: linked[n].Declared()
    }

    function Members(): map<string, (seq<Field>, seq<Attribute>, bool)>
      reads linked.Values
    {
      map n | n in linked :: (linked[n].fields, linked[n].attributes, linked[n].baseMerged)
    }

    /** `dataModel.fields = ..., dataModel.attributes = ..., dataModel.$baseMerged = true` */
    method Assign(dm: DataModel, fields: seq<Field>, attributes: seq<Attribute>)
      requires dm.name in linked && linked[dm.name] == dm && (forall n | n in linked :: linked[n].name == n)
      modifies dm`fields, dm`attributes, dm`baseMerged
      ensures Current() == old(Current())[dm.name :=
        old(dm.Declared()).(fields := fields, attributes := attributes, baseMerged := true)]
    {
      dm.fields, dm.attributes, dm.baseMerged := fields, attributes, true;
      assert forall n | n in linked && n != dm.name :: linked[n].Declared() == old(linked[n].Declared());
    }

    /** The body of the first loop. */
    method MergeBases(dm: DataModel)
      requires dm.name in linked && linked[dm.name] == dm && (forall n | n in linked :: linked[n].name == n)
      requires WellLinked(Current())
      modifies dm`fields, dm`attributes, dm`baseMerged
      ensures Current() == MergeOne(old(Current()), dm.name)
    {
      var s := Current();
      var bases := GetBasesTopDown(s, dm.name);
      var fields, attributes := dm.fields, dm.attributes;
      if bases != [] {
        fields := InheritedFields(s, dm.name, bases) + fields;
        attributes := InheritedAttributes(s, dm.name, bases) + attributes;
      } else {
        assert [] + fields == fields && [] + attributes == attributes;
      }
      Assign(dm, fields, attributes);
    }

    /** The first loop; `s` follows the schema. */
    method MergeEach(ghost s0: Schema) returns (ghost s: Schema)
      requires Links(declarations, linked) && Current() == s0 && WellLinked(s0) && InSchema(Names(declarations), s0)
      modifies linked.Values
      ensures Current() == s == Remaining(s0, Names(declarations), 0)
    {
      ghost var names := Names(declarations);
      s := s0;
      var i := 0;
      while i < |declarations|
        invariant 0 <= i <= |declarations|
        invariant Current() == s && WellLinked(s) && InSchema(names, s)
        invariant Remaining(s, names, i) == Remaining(s0, names, 0)
      {
        var dm := declarations[i];
        assert dm in declarations && names[i] == dm.name;
        MergeTurn(s, names, i);
        MergeBases(dm);
        s := MergeOne(s, names[i]);
        i := i + 1;
      }
      assert names[i..] == [];
    }

    method KeepOnlyDelegates(dm: DataModel, ghost s0: Schema)
      requires dm.name in linked && linked[dm.name] == dm && (forall n | n in linked :: linked[n].name == n)
      requires SameStatus(s0, Current())
      modifies dm`superTypes
      ensures SameStatus(s0, Current()) && Members() == old(Members())
      ensures dm.superTypes == DelegatesOnly(s0, old(dm.superTypes))
    {
      SameDelegates(s0, Current(), dm.superTypes);
      dm.superTypes := DelegatesOnly(Current(), dm.superTypes);
      assert forall b :: IsDelegate(Current(), b) == IsDelegate(old(Current()), b);
    }

    /** The second loop: what remains of super types is the delegates. */
    method KeepDelegates(ghost s0: Schema)
      requires Links(declarations, linked) && Distinct(declarations) && SameStatus(s0, Current())
      modifies linked.Values`superTypes
      ensures Members() == old(Members())
      ensures forall d | d in declarations :: d.superTypes == DelegatesOnly(s0, old(d.superTypes))
    {
      var i := 0;
      while i < |declarations|
        invariant 0 <= i <= |declarations| && SameStatus(s0, Current()) && Members() == old(Members())
        invariant forall j | 0 <= j < |declarations| ::
          declarations[j].superTypes ==
          (if j < i then DelegatesOnly(s0, old(declarations[j].superTypes)) else old(declarations[j].superTypes))
      {
        assert declarations[i] in declarations;
        KeepOnlyDelegates(declarations[i], s0);
        i := i + 1;
      }
    }

    /** Removal of abstract models, from the declarations and from super types. */
    method RemoveAbstract(ghost s0: Schema, ghost s: Schema)
      requires Links(declarations, linked) && Distinct(declarations)
      requires Current() == s && SameStatus(s0, s) && Supers(s) == Supers(s0)
      modifies `declarations, linked.Values`superTypes
      ensures Members() == MembersOf(s) && declarations == Concrete(old(declarations))
      ensures forall d | d in declarations :: d.name in s0 && d.superTypes == DelegatesOnly(s0, s0[d.name].supers)
    {
      ConcreteLinks(declarations, linked);
      declarations := Concrete(declarations);
      SupersAreDeclared(s0, s);
      KeepDelegates(s0);
    }

    /** The super types are still the declared ones. */
    lemma SupersAreDeclared(s0: Schema, s: Schema)
      requires Links(declarations, linked) && Current() == s && Supers(s) == Supers(s0)
      ensures forall d | d in declarations :: d.name in s0 && d.superTypes == s0[d.name].supers
    {
      forall d | d in declarations ensures d.name in s0 && d.superTypes == s0[d.name].supers {
        assert s[d.name] == d.Declared() && Supers(s)[d.name] == d.superTypes;
        assert d.name in Supers(s0);
      }
    }

    /** The whole of `mergeBaseModels`, in terms of the schema as declared. */
    method MergeBaseModels(ghost s0: Schema)
      requires Valid() && Current() == s0 && ValidSchema(s0)
      modifies this, linked.Values
      ensures InSchema(old(Names(declarations)), s0)
      ensures Members() == MembersOf(Remaining(s0, old(Names(declarations)), 0))
      ensures declarations == Concrete(old(declarations))
      ensures forall d | d in declarations :: d.name in s0 && d.superTypes == DelegatesOnly(s0, s0[d.name].supers)
    {
      AllLinked(declarations, linked);
      LoopKeepsStatus(s0, Names(declarations));
      ghost var s := MergeEach(s0);
      RemoveAbstract(s0, s);
    }
  }

  lemma LoopKeepsStatus(s0: Schema, names: seq<string>)
    requires ValidSchema(s0) && Distinct(names) && ToSet(names) == s0.Keys
    ensures InSchema(names, s0)
    ensures var t := Remaining(s0, names, 0); SameStatus(s0, t) && Supers(t) == Supers(s0)
  {
    forall i | 0 <= i < |names| ensures names[i] in s0 { assert names[i] in ToSet(names); }
    assert names[0..] == names;
    NothingMerged(s0);
    MergeRest(s0, s0, names);
    var t := MergeAll(s0, names);
    forall b | true ensures IsDelegate(t, b) == IsDelegate(s0, b) { DelegatesStay(s0, t, b); }
    SameSupers(s0, t);
  }

  /** In what `MergeBaseModels` leaves, every model is in its merged form. */
  lemma ResultIsMerged(s0: Schema, names: seq<string>)
    requires ValidSchema(s0) && Distinct(names) && ToSet(names) == s0.Keys && InSchema(names, s0)
    ensures AllMerged(s0, Remaining(s0, names, 0))
  {
    NothingMerged(s0);
    assert names[0..] == names;
    MergeRest(s0, s0, names);
    OrderDoesNotMatter(s0, names);
  }
}
