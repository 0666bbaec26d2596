/** Two notions of a model's id fields: the schema's, and the first unique constraint of the generated metadata. */
module IdFields {
  import opened Optional

  datatype Field = Field(name: string, isId: bool, isUnique: bool)

  /** A model-level `@@id` or `@@unique`; `name` is its optional argument. */
  datatype KeyAttribute = KeyAttribute(fields: seq<string>, name: Option<string>)

  /** A model with its bases merged. */
  datatype Model = Model(fields: seq<Field>, ids: seq<KeyAttribute>, uniques: seq<KeyAttribute>)

  datatype Constraint = Constraint(name: string, fields: seq<string>)

  // ----- the schema: isIdField -----

  function FieldsOfFirst(keys: seq<KeyAttribute>): seq<string> {
    if keys == [] then [] else keys[0].fields
  }

  /** The field attributes `@id` and `@unique`. */
  datatype Mark = Id | Unique

  predicate Has(f: Field, mark: Mark) {
    match mark
    case Id => f.isId
    case Unique => f.isUnique
  }

  function FirstField(fields: seq<Field>, mark: Mark): (r: Option<Field>)
    ensures r.Some? ==> r.value in fields && Has(r.value, mark)
    ensures r.None? <==> forall f | f in fields :: !Has(f, mark)
  {
    if fields == [] then None else if Has(fields[0], mark) then Some(fields[0]) else FirstField(fields[1..], mark)
  }

  predicate IsIdField(m: Model, f: Field) {
    if f.isId then true
    else if f.name in FieldsOfFirst(m.ids) then true
    else if (exists g | g in m.fields :: g.isId) || FieldsOfFirst(m.ids) != [] then false
    else
      match FirstField(m.fields, Unique)
      case Some(g) => g.name == f.name
      case None => f.name in FieldsOfFirst(m.uniques)
  }

  // ----- the generator: getUniqueConstraints -----

  function Joined(names: seq<string>): string {
    if names == [] then "" else if |names| == 1 then names[0] else names[0] + "_" + Joined(names[1..])
  }

  function ExtractConstraint(k: KeyAttribute): Constraint {
    Constraint(if k.name.Some? && k.name.value != "" then k.name.value else Joined(k.fields), k.fields)
  }

  function FieldConstraints(fields: seq<Field>, mark: Mark): seq<Constraint> {
    if fields == [] then []
    else (if Has(fields[0], mark) then [Constraint(fields[0].name, [fields[0].name])] else [])
         + FieldConstraints(fields[1..], mark)
  }

  function KeyConstraints(keys: seq<KeyAttribute>): seq<Constraint> {
    if keys == [] then [] else [ExtractConstraint(keys[0])] + KeyConstraints(keys[1..])
  }

  /** All constraints, strongest first, repeated names included. */
  function Candidates(m: Model): seq<Constraint> {
    FieldConstraints(m.fields, Id) + KeyConstraints(m.ids) + FieldConstraints(m.fields, Unique)
      + KeyConstraints(m.uniques)
  }

  predicate Named(cs: seq<Constraint>, name: string) {
    exists c | c in cs :: c.name == name
  }

  /** The constraints without those whose name came before. */
  function FirstOfEachName(all: seq<Constraint>): (r: seq<Constraint>)
    ensures all != [] ==> r != [] && r[0] == all[0]
    ensures forall c | c in r :: c in all
    decreases |all|
  {
    if all == [] then []
    else
      var n := |all| - 1;
      var r := FirstOfEachName(all[..n]);
      if Named(r, all[n].name) then r else r + [all[n]]
  }

  /** Names are distinct, and every name of the list is among them. */
  ghost predicate HoldsNames(r: seq<Constraint>, all: seq<Constraint>) {
    && (forall i, j | 0 <= i < j < |r| :: r[i].name != r[j].name)
    && forall c | c in all :: Named(r, c.name)
  }

  lemma HoldsNamesStep(r: seq<Constraint>, all: seq<Constraint>)
    requires all != [] && HoldsNames(r, all[..|all| - 1])
    ensures var c := all[|all| - 1]; HoldsNames(if Named(r, c.name) then r else r + [c], all)
  {
    var c := all[|all| - 1];
    var r' := if Named(r, c.name) then r else r + [c];
    forall d | d in all ensures Named(r', d.name) {
      if d in all[..|all| - 1] {
        var e :| e in r && e.name == d.name;
        assert e in r';
      } else {
        assert d == c && c in r + [c];
      }
    }
  }

  /** Every name of the list is there, once, and first come first served. */
  lemma {:induction false} NamesOnce(all: seq<Constraint>)
    ensures HoldsNames(FirstOfEachName(all), all)
    decreases |all|
  {
    if all == [] {
    } else {
      var before := all[..|all| - 1];
      NamesOnce(before);
      HoldsNamesStep(FirstOfEachName(before), all);
    }
  }

  lemma AddedOne(all: seq<Constraint>, c: Constraint)
    ensures var r := FirstOfEachName(all); FirstOfEachName(all + [c]) == if Named(r, c.name) then r else r + [c]
  {
    assert (all + [c])[..|all|] == all;
  }

  lemma FieldStep(fields: seq<Field>, mark: Mark, i: nat, done: seq<Constraint>)
    requires i < |fields|
    ensures var c := Constraint(fields[i].name, [fields[i].name]);
      done + FieldConstraints(fields[i..], mark)
      == (if Has(fields[i], mark) then done + [c] else done) + FieldConstraints(fields[i + 1..], mark)
  {
    assert fields[i..][0] == fields[i] && fields[i..][1..] == fields[i + 1..];
  }

  class ConstraintCollector {
    var constraints: seq<Constraint>

    constructor ()
      ensures constraints == FirstOfEachName([])
    {
      constraints := [];
    }

    /** `addConstraint` */
    method AddConstraint(c: Constraint, ghost all: seq<Constraint>)
      requires constraints == FirstOfEachName(all)
      modifies this
      ensures constraints == FirstOfEachName(all + [c])
    {
      AddedOne(all, c);
      if !Named(constraints, c.name) {
        constraints := constraints + [c];
      }
    }

    method AddFields(fields: seq<Field>, mark: Mark, ghost all: seq<Constraint>)
      requires constraints == FirstOfEachName(all)
      modifies this
      ensures constraints == FirstOfEachName(all + FieldConstraints(fields, mark))
    {
      ghost var done := all;
      var i := 0;
      assert fields[0..] == fields;
      while i < |fields|
        invariant 0 <= i <= |fields| && constraints == FirstOfEachName(done)
        invariant done + FieldConstraints(fields[i..], mark) == all + FieldConstraints(fields, mark)
      {
        FieldStep(fields, mark, i, done);
        if Has(fields[i], mark) {
          var c := Constraint(fields[i].name, [fields[i].name]);
          AddConstraint(c, done);
          done := done + [c];
        }
        i := i + 1;
      }
      assert done + [] == done;
    }

    method AddKeys(keys: seq<KeyAttribute>, ghost all: seq<Constraint>)
      requires constraints == FirstOfEachName(all)
      modifies this
      ensures constraints == FirstOfEachName(all + KeyConstraints(keys))
    {
      ghost var done := all;
      var i := 0;
      assert keys[0..] == keys;
      while i < |keys|
        invariant 0 <= i <= |keys| && constraints == FirstOfEachName(done)
        invariant done + KeyConstraints(keys[i..]) == all + KeyConstraints(keys)
      {
        assert keys[i..][0] == keys[i] && keys[i..][1..] == keys[i + 1..];
        var c := ExtractConstraint(keys[i]);
        ghost var rest := KeyConstraints(keys[i + 1..]);
        assert (done + [c]) + rest == done + ([c] + rest);
        AddConstraint(c, done);
        done := done + [c];
        i := i + 1;
      }
      assert done + [] == done;
    }
  }

  method GetUniqueConstraints(m: Model) returns (constraints: seq<Constraint>)
    ensures constraints == FirstOfEachName(Candidates(m))
  {
    var c := new ConstraintCollector();
    c.AddFields(m.fields, Id, []);
    assert [] + FieldConstraints(m.fields, Id) == FieldConstraints(m.fields, Id);
    c.AddKeys(m.ids, FieldConstraints(m.fields, Id));
    c.AddFields(m.fields, Unique, FieldConstraints(m.fields, Id) + KeyConstraints(m.ids));
    c.AddKeys(m.uniques, FieldConstraints(m.fields, Id) + KeyConstraints(m.ids) + FieldConstraints(m.fields, Unique));
    constraints := c.constraints;
  }

  // ----- the runtime: getIdFields -----

  /**
   * The constraint listed first when the metadata object is enumerated: names that are array indices come first,
   * in ascending order, then the rest in the order of insertion.
   */
  predicate ListedFirst(arrayIndex: string -> Option<nat>, cs: seq<Constraint>, c: Constraint) {
    c in cs &&
    match arrayIndex(c.name)
    case Some(n) => forall d | d in cs && arrayIndex(d.name).Some? :: n <= arrayIndex(d.name).value
    case None => c == cs[0] && forall d | d in cs :: arrayIndex(d.name).None?
  }

  /** The names of the runtime id fields, empty if there are no constraints. */
  ghost predicate RuntimeIds(arrayIndex: string -> Option<nat>, m: Model, names: seq<string>) {
    var cs := FirstOfEachName(Candidates(m));
    if cs == [] then names == [] else exists c :: ListedFirst(arrayIndex, cs, c) && names == c.fields
  }

  function IdFields(m: Model): seq<string> {
    var cs := FirstOfEachName(Candidates(m));
    if cs == [] then [] else cs[0].fields
  }

  /** A constraint whose name is an array index, with none before it. */
  predicate IsLeastIndex(arrayIndex: string -> Option<nat>, m: Model, c: Constraint) {
    var cs := FirstOfEachName(Candidates(m));
    c in cs && arrayIndex(c.name).Some?
    && forall d | d in cs && arrayIndex(d.name).Some? :: arrayIndex(c.name).value <= arrayIndex(d.name).value
  }

  /** The runtime id is the first constraint if and only if no array index names another one with other fields. */
  lemma RuntimeIdsAreFirst(arrayIndex: string -> Option<nat>, m: Model)
    ensures (forall names | RuntimeIds(arrayIndex, m, names) :: names == IdFields(m))
       <==> forall c | IsLeastIndex(arrayIndex, m, c) :: c.fields == IdFields(m)
  {
    var cs := FirstOfEachName(Candidates(m));
    forall c | IsLeastIndex(arrayIndex, m, c) ensures RuntimeIds(arrayIndex, m, c.fields) {
      assert ListedFirst(arrayIndex, cs, c);
    }
    forall names | RuntimeIds(arrayIndex, m, names)
      ensures names == IdFields(m) || exists c :: IsLeastIndex(arrayIndex, m, c) && c.fields == names
    {
      if cs != [] {
        var c :| ListedFirst(arrayIndex, cs, c) && names == c.fields;
        assert arrayIndex(c.name).Some? ==> IsLeastIndex(arrayIndex, m, c);
      }
    }
  }

  lemma {:induction false} LeastOf(arrayIndex: string -> Option<nat>, cs: seq<Constraint>)
    ensures (exists c :: c in cs && arrayIndex(c.name).Some?) ==>
      exists c :: c in cs && arrayIndex(c.name).Some?
        && forall d | d in cs && arrayIndex(d.name).Some? :: arrayIndex(c.name).value <= arrayIndex(d.name).value
  {
    if cs == [] {
    } else {
      LeastOf(arrayIndex, cs[1..]);
      assert forall d :: d in cs <==> d == cs[0] || d in cs[1..];
      if !exists c :: c in cs[1..] && arrayIndex(c.name).Some? {
        if arrayIndex(cs[0].name).Some? { assert cs[0] in cs; }
      } else {
        var c :| c in cs[1..] && arrayIndex(c.name).Some?
          && forall d | d in cs[1..] && arrayIndex(d.name).Some? ::
            arrayIndex(c.name).value <= arrayIndex(d.name).value;
        var least := if arrayIndex(cs[0].name).Some? && arrayIndex(cs[0].name).value < arrayIndex(c.name).value
          then cs[0] else c;
        assert least in cs;
      }
    }
  }

  /** Some constraint is listed first. */
  lemma RuntimeIdsExist(arrayIndex: string -> Option<nat>, m: Model) returns (names: seq<string>)
    ensures RuntimeIds(arrayIndex, m, names)
    ensures (forall c :: !IsLeastIndex(arrayIndex, m, c)) ==> names == IdFields(m)
  {
    var cs := FirstOfEachName(Candidates(m));
    LeastOf(arrayIndex, cs);
    if cs == [] {
      names := [];
    } else if c :| IsLeastIndex(arrayIndex, m, c) {
      assert ListedFirst(arrayIndex, cs, c);
      names := c.fields;
    } else {
      assert cs[0] in cs && forall d | d in cs :: arrayIndex(d.name).None? by {
        if d :| d in cs && arrayIndex(d.name).Some? {
          var c :| c in cs && arrayIndex(c.name).Some?
            && forall d | d in cs && arrayIndex(d.name).Some? :: arrayIndex(c.name).value <= arrayIndex(d.name).value;
          assert IsLeastIndex(arrayIndex, m, c);
        }
      }
      assert ListedFirst(arrayIndex, cs, cs[0]);
      names := cs[0].fields;
    }
  }

  // ----- the same in terms of the declared names -----

  function FirstWith(cs: seq<Constraint>, name: string): (r: Option<Constraint>)
    ensures r.Some? ==> r.value in cs && r.value.name == name
    ensures r.None? <==> !Named(cs, name)
  {
    if cs == [] then None else if cs[0].name == name then Some(cs[0]) else FirstWith(cs[1..], name)
  }

  lemma {:induction false} FirstWithJoins(a: seq<Constraint>, b: seq<Constraint>, name: string)
    ensures FirstWith(a + b, name) == if FirstWith(a, name).Some? then FirstWith(a, name) else FirstWith(b, name)
  {
    if a == [] {
      assert a + b == b;
    } else {
      assert (a + b)[1..] == a[1..] + b;
      FirstWithJoins(a[1..], b, name);
    }
  }

  lemma {:induction false} KeptAreFirst(all: seq<Constraint>, c: Constraint)
    ensures c in FirstOfEachName(all) <==> FirstWith(all, c.name) == Some(c)
    decreases |all|
  {
    if all == [] {
    } else {
      var before, last := all[..|all| - 1], all[|all| - 1];
      KeptAreFirst(before, c);
      assert all == before + [last];
      FirstWithJoins(before, [last], c.name);
      SameNames(before, last.name);
    }
  }

  lemma SameNames(all: seq<Constraint>, name: string)
    ensures Named(FirstOfEachName(all), name) <==> Named(all, name)
  {
    NamesOnce(all);
    if Named(FirstOfEachName(all), name) {
      var d :| d in FirstOfEachName(all) && d.name == name;
      assert d in all;
    }
  }

  /** Array indices start with a digit, and names of fields do not. */
  ghost predicate DigitsFirst(arrayIndex: string -> Option<nat>, m: Model) {
    && (forall x | arrayIndex(x).Some? :: IsDigitFirst(x))
    && (forall f | f in m.fields :: IsName(f.name))
  }

  predicate IsDigitFirst(x: string) {
    x != "" && '0' <= x[0] <= '9'
  }

  predicate IsName(x: string) {
    x != "" && !IsDigitFirst(x)
  }

  predicate NamesFields(k: KeyAttribute) {
    forall n | n in k.fields :: IsName(n)
  }

  /** The model's `@@id` and `@@unique` attributes, strongest first. */
  function Keys(m: Model): seq<KeyAttribute> {
    m.ids + m.uniques
  }

  /** The fields of the first attribute with the given `name`. */
  function DeclaredWith(keys: seq<KeyAttribute>, name: string): Option<seq<string>> {
    if keys == [] then None
    else if keys[0].name == Some(name) then Some(keys[0].fields)
    else DeclaredWith(keys[1..], name)
  }

  lemma {:induction false} DeclaredWithJoins(a: seq<KeyAttribute>, b: seq<KeyAttribute>, name: string)
    ensures DeclaredWith(a + b, name)
         == if DeclaredWith(a, name).Some? then DeclaredWith(a, name) else DeclaredWith(b, name)
  {
    if a == [] {
      assert a + b == b;
    } else {
      assert (a + b)[1..] == a[1..] + b;
      DeclaredWithJoins(a[1..], b, name);
    }
  }

  lemma {:induction false} FieldsHaveOtherNames(fields: seq<Field>, mark: Mark, name: string)
    requires IsDigitFirst(name) && forall f | f in fields :: IsName(f.name)
    ensures FirstWith(FieldConstraints(fields, mark), name).None?
  {
    if fields == [] {
    } else {
      assert fields[0] in fields;
      FieldsHaveOtherNames(fields[1..], mark, name);
    }
  }

  lemma DefaultNameIsOther(k: KeyAttribute, name: string)
    requires IsDigitFirst(name) && NamesFields(k)
    ensures ExtractConstraint(k).name == name <==> k.name == Some(name)
  {
    if k.fields != [] {
      assert k.fields[0] in k.fields && Joined(k.fields)[0] == k.fields[0][0];
    }
  }

  lemma {:induction false} KeysAreDeclared(keys: seq<KeyAttribute>, name: string)
    requires IsDigitFirst(name) && forall k | k in keys :: NamesFields(k)
    ensures FirstWith(KeyConstraints(keys), name)
         == match DeclaredWith(keys, name) case None => None case Some(fields) => Some(Constraint(name, fields))
  {
    if keys == [] {
    } else {
      assert keys[0] in keys;
      DefaultNameIsOther(keys[0], name);
      assert KeyConstraints(keys)[1..] == KeyConstraints(keys[1..]);
      KeysAreDeclared(keys[1..], name);
    }
  }

  lemma KeysNameFields(arrayIndex: string -> Option<nat>, m: Model)
    requires WellFormed(m) && DigitsFirst(arrayIndex, m)
    ensures forall k | k in m.ids || k in m.uniques :: NamesFields(k)
  {
    forall k | k in m.ids || k in m.uniques ensures NamesFields(k) {
      forall n | n in k.fields ensures IsName(n) {
        assert IsField(m, n);
      }
    }
  }

  lemma FourParts(a: seq<Constraint>, b: seq<Constraint>, d: seq<Constraint>, e: seq<Constraint>, name: string)
    requires FirstWith(a, name).None? && FirstWith(d, name).None?
    ensures FirstWith(a + b + d + e, name)
         == if FirstWith(b, name).Some? then FirstWith(b, name) else FirstWith(e, name)
  {
    FirstWithJoins(a + b + d, e, name);
    FirstWithJoins(a + b, d, name);
    FirstWithJoins(a, b, name);
  }

  /** A constraint named like an array index is the first attribute that declares that name. */
  lemma IndexIsDeclared(arrayIndex: string -> Option<nat>, m: Model, c: Constraint)
    requires WellFormed(m) && DigitsFirst(arrayIndex, m) && arrayIndex(c.name).Some?
    ensures c in FirstOfEachName(Candidates(m)) <==> DeclaredWith(Keys(m), c.name) == Some(c.fields)
  {
    KeptAreFirst(Candidates(m), c);
    FieldsHaveOtherNames(m.fields, Id, c.name);
    FieldsHaveOtherNames(m.fields, Unique, c.name);
    KeysNameFields(arrayIndex, m);
    KeysAreDeclared(m.ids, c.name);
    KeysAreDeclared(m.uniques, c.name);
    FourParts(FieldConstraints(m.fields, Id), KeyConstraints(m.ids), FieldConstraints(m.fields, Unique),
              KeyConstraints(m.uniques), c.name);
    DeclaredWithJoins(m.ids, m.uniques, c.name);
  }

  /** A `name` argument that is an array index, with none before it among the declared ones. */
  predicate IsLeastName(arrayIndex: string -> Option<nat>, m: Model, name: string) {
    && DeclaredWith(Keys(m), name).Some? && arrayIndex(name).Some?
    && forall k | k in Keys(m) && k.name.Some? && arrayIndex(k.name.value).Some? ::
         arrayIndex(name).value <= arrayIndex(k.name.value).value
  }

  lemma {:induction false} DeclaredSome(keys: seq<KeyAttribute>, name: string)
    ensures DeclaredWith(keys, name).Some? <==> exists k | k in keys :: k.name == Some(name)
  {
    if keys == [] {
    } else {
      DeclaredSome(keys[1..], name);
      assert forall k :: k in keys <==> k == keys[0] || k in keys[1..];
    }
  }

  lemma LeastIndexIsName(arrayIndex: string -> Option<nat>, m: Model, c: Constraint)
    requires WellFormed(m) && DigitsFirst(arrayIndex, m)
    ensures IsLeastIndex(arrayIndex, m, c) <==>
      IsLeastName(arrayIndex, m, c.name) && DeclaredWith(Keys(m), c.name) == Some(c.fields)
  {
    var cs := FirstOfEachName(Candidates(m));
    if arrayIndex(c.name).Some? {
      IndexIsDeclared(arrayIndex, m, c);
      if c in cs {
        if IsLeastIndex(arrayIndex, m, c) {
          forall k | k in Keys(m) && k.name.Some? && arrayIndex(k.name.value).Some?
            ensures arrayIndex(c.name).value <= arrayIndex(k.name.value).value
          {
            DeclaredSome(Keys(m), k.name.value);
            IndexIsDeclared(arrayIndex, m, Constraint(k.name.value, DeclaredWith(Keys(m), k.name.value).value));
          }
        }
        if IsLeastName(arrayIndex, m, c.name) {
          forall d | d in cs && arrayIndex(d.name).Some? ensures arrayIndex(c.name).value <= arrayIndex(d.name).value {
            IndexIsDeclared(arrayIndex, m, d);
            DeclaredSome(Keys(m), d.name);
          }
        }
      }
    }
  }

  /**
   * The runtime id is the first constraint if and only if no `@@id` or `@@unique` is declared with an array index for
   * its `name`, or the first with the least one has the fields of the first constraint.
   */
  lemma RuntimeIdsByName(arrayIndex: string -> Option<nat>, m: Model)
    requires WellFormed(m) && DigitsFirst(arrayIndex, m)
    ensures (forall names | RuntimeIds(arrayIndex, m, names) :: names == IdFields(m))
       <==> forall name | IsLeastName(arrayIndex, m, name) :: DeclaredWith(Keys(m), name) == Some(IdFields(m))
  {
    RuntimeIdsAreFirst(arrayIndex, m);
    forall c ensures IsLeastIndex(arrayIndex, m, c) <==>
      IsLeastName(arrayIndex, m, c.name) && DeclaredWith(Keys(m), c.name) == Some(c.fields)
    {
      LeastIndexIsName(arrayIndex, m, c);
    }
    forall name | IsLeastName(arrayIndex, m, name)
      ensures IsLeastIndex(arrayIndex, m, Constraint(name, DeclaredWith(Keys(m), name).value))
    {
    }
  }

  // ----- when the two agree -----

  /** Field names are distinct, and keys consist of fields. */
  ghost predicate WellFormed(m: Model) {
    && (forall i, j | 0 <= i < j < |m.fields| :: m.fields[i].name != m.fields[j].name)
    && (forall k, n | (k in m.ids || k in m.uniques) && n in k.fields :: IsField(m, n))
  }

  predicate IsField(m: Model, name: string) {
    exists f | f in m.fields :: f.name == name
  }

  /** The id fields that the schema declares are those that the runtime uses. */
  ghost predicate Agree(m: Model) {
    forall f | f in m.fields :: IsIdField(m, f) <==> f.name in IdFields(m)
  }

  function Marked(fields: seq<Field>, mark: Mark): seq<Field> {
    if fields == [] then [] else (if Has(fields[0], mark) then [fields[0]] else []) + Marked(fields[1..], mark)
  }

  /** One `@id` and no `@@id` beyond it; or an `@@id` with fields; or neither, or an empty `@@id` over no unique key. */
  predicate OneKindOfId(m: Model) {
    var ids := Marked(m.fields, Id);
    if ids != [] then |ids| == 1 && forall n | n in FieldsOfFirst(m.ids) :: n == ids[0].name
    else
      m.ids == [] || m.ids[0].fields != []
      || (Marked(m.fields, Unique) == [] && FieldsOfFirst(m.uniques) == [])
  }

  lemma {:induction false} MarkedAre(fields: seq<Field>, mark: Mark)
    ensures var r, cs := Marked(fields, mark), FieldConstraints(fields, mark);
      && |cs| == |r| && (r != [] ==> cs[0].fields == [r[0].name])
      && FirstField(fields, mark) == (if r == [] then None else Some(r[0]))
      && forall f | f in r :: f in fields && Has(f, mark)
    ensures forall f | f in fields && Has(f, mark) :: f in Marked(fields, mark)
  {
    if fields == [] {
    } else {
      MarkedAre(fields[1..], mark);
    }
  }

  /** Two marked fields are two fields. */
  lemma {:induction false} MarkedApart(fields: seq<Field>, mark: Mark)
    requires forall i, j | 0 <= i < j < |fields| :: fields[i].name != fields[j].name
    ensures var r := Marked(fields, mark); |r| > 1 ==> r[0].name != r[1].name
  {
    if fields == [] {
    } else {
      MarkedApart(fields[1..], mark);
      MarkedAre(fields[1..], mark);
      var rest := Marked(fields[1..], mark);
      if Has(fields[0], mark) && rest != [] {
        assert rest[0] in fields[1..];
      }
    }
  }

  /** The runtime's choice in terms of the declarations. */
  lemma IdFieldsAre(m: Model)
    ensures IdFields(m) ==
      var ids, uniques := Marked(m.fields, Id), Marked(m.fields, Unique);
      if ids != [] then [ids[0].name] else if m.ids != [] then m.ids[0].fields
      else if uniques != [] then [uniques[0].name] else FieldsOfFirst(m.uniques)
  {
    MarkedAre(m.fields, Id);
    MarkedAre(m.fields, Unique);
  }

  lemma NameIsIdentity(m: Model, f: Field, g: Field)
    requires WellFormed(m) && f in m.fields && g in m.fields && f.name == g.name
    ensures f == g
  {
  }

  /** With an `@id` field, the id fields are those and the fields of the `@@id`; the runtime takes the first `@id`. */
  lemma WithFieldId(m: Model, x: Field)
    requires Marked(m.fields, Id) != [] && x == Marked(m.fields, Id)[0]
    ensures x in m.fields && x.isId && IdFields(m) == [x.name]
    ensures forall f :: IsIdField(m, f) <==> f.isId || f.name in FieldsOfFirst(m.ids)
  {
    IdFieldsAre(m);
    MarkedAre(m.fields, Id);
    assert x in Marked(m.fields, Id);
  }

  lemma OneIdAgrees(m: Model, x: Field)
    requires Marked(m.fields, Id) == [x] && forall f | f in m.fields && f.name == x.name :: f == x
    requires forall n | n in FieldsOfFirst(m.ids) :: n == x.name
    ensures Agree(m)
  {
    WithFieldId(m, x);
    MarkedAre(m.fields, Id);
    forall f | f in m.fields ensures IsIdField(m, f) <==> f.name in IdFields(m) {
      if f.isId {
        assert Has(f, Id) && f in Marked(m.fields, Id);
      }
    }
  }

  lemma MoreIdsDisagree(m: Model)
    requires WellFormed(m) && Marked(m.fields, Id) != [] && !OneKindOfId(m)
    ensures !Agree(m)
  {
    var ids := Marked(m.fields, Id);
    var x := ids[0];
    WithFieldId(m, x);
    if |ids| > 1 {
      MarkedAre(m.fields, Id);
      MarkedApart(m.fields, Id);
      assert ids[1] in ids && IsIdField(m, ids[1]) && ids[1].name !in IdFields(m);
    } else {
      var n :| n in FieldsOfFirst(m.ids) && n != x.name;
      assert m.ids[0] in m.ids && IsField(m, n);
      var f :| f in m.fields && f.name == n;
      assert IsIdField(m, f) && f.name !in IdFields(m);
    }
  }

  lemma AgreeWithoutFieldId(m: Model)
    requires WellFormed(m) && Marked(m.fields, Id) == []
    ensures Agree(m) <==> OneKindOfId(m)
  {
    IdFieldsAre(m);
    MarkedAre(m.fields, Id);
    MarkedAre(m.fields, Unique);
    assert forall f | f in m.fields :: !Has(f, Id);
    var uniques := Marked(m.fields, Unique);
    if !OneKindOfId(m) {
      assert IdFields(m) == [];
      if uniques != [] {
        assert uniques[0] in uniques && IsIdField(m, uniques[0]);
      } else {
        var n := FieldsOfFirst(m.uniques)[0];
        assert m.uniques[0] in m.uniques && n in m.uniques[0].fields && IsField(m, n);
        var f :| f in m.fields && f.name == n;
        assert IsIdField(m, f);
      }
    }
  }

  /** The schema and the runtime mean the same id fields exactly if the model has one kind of id. */
  lemma IdsAgreeIff(m: Model)
    requires WellFormed(m)
    ensures Agree(m) <==> OneKindOfId(m)
  {
    if Marked(m.fields, Id) != [] {
      var x := Marked(m.fields, Id)[0];
      WithFieldId(m, x);
      if OneKindOfId(m) {
        forall f | f in m.fields && f.name == x.name ensures f == x {
          NameIsIdentity(m, f, x);
        }
        assert Marked(m.fields, Id) == [x];
        OneIdAgrees(m, x);
      } else {
        MoreIdsDisagree(m);
      }
    } else {
      AgreeWithoutFieldId(m);
    }
  }

  /** `validateFields` accepts the ids of the model. */
  predicate Validated(m: Model) {
    var ids := Marked(m.fields, Id);
    && !(ids == [] && FieldsOfFirst(m.ids) == [] && Marked(m.fields, Unique) == [] && FieldsOfFirst(m.uniques) == [])
    && !(ids != [] && FieldsOfFirst(m.ids) != [])
    && |ids| <= 1
  }

  /** Of the validated models only those with an empty `@@id` are left out. */
  lemma ValidatedAgree(m: Model)
    requires WellFormed(m) && Validated(m)
    ensures Agree(m) <==> !(Marked(m.fields, Id) == [] && m.ids != [] && m.ids[0].fields == [])
  {
    IdsAgreeIff(m);
  }

  // ----- the runtime's choice itself -----

  /** The names of the fields that the schema takes for ids. */
  function SchemaIds(m: Model): set<string> {
    var ids, uniques := Marked(m.fields, Id), Marked(m.fields, Unique);
    if ids != [] || FieldsOfFirst(m.ids) != [] then (set f | f in ids :: f.name) + (set n | n in FieldsOfFirst(m.ids))
    else if uniques != [] then {uniques[0].name}
    else set n | n in FieldsOfFirst(m.uniques)
  }

  lemma SchemaIdsAre(m: Model, f: Field)
    requires WellFormed(m) && f in m.fields
    ensures IsIdField(m, f) <==> f.name in SchemaIds(m)
  {
    MarkedAre(m.fields, Id);
    MarkedAre(m.fields, Unique);
    var ids := Marked(m.fields, Id);
    if g :| g in ids && g.name == f.name {
      NameIsIdentity(m, f, g);
    }
    if f.isId {
      assert Has(f, Id) && f in ids;
    }
    if ids != [] {
      assert ids[0] in ids && ids[0].isId;
    } else {
      assert forall g | g in m.fields :: !Has(g, Id);
    }
  }

  lemma SchemaIdsAreFields(m: Model, n: string)
    requires WellFormed(m) && n in SchemaIds(m)
    ensures IsField(m, n)
  {
    MarkedAre(m.fields, Id);
    MarkedAre(m.fields, Unique);
    var ids, uniques := Marked(m.fields, Id), Marked(m.fields, Unique);
    if n in FieldsOfFirst(m.ids) {
      assert m.ids[0] in m.ids;
    } else if ids != [] || FieldsOfFirst(m.ids) != [] {
      var f :| f in ids && f.name == n;
    } else if uniques != [] {
      assert uniques[0] in uniques;
    } else {
      assert m.uniques[0] in m.uniques;
    }
  }

  lemma {:induction false} FieldConstraintsName(m: Model, fields: seq<Field>, mark: Mark, c: Constraint, n: string)
    requires (forall f | f in fields :: f in m.fields) && c in FieldConstraints(fields, mark) && n in c.fields
    ensures IsField(m, n)
  {
    if c !in FieldConstraints(fields[1..], mark) {
      assert fields[0] in fields && c.fields == [fields[0].name];
    } else {
      FieldConstraintsName(m, fields[1..], mark, c, n);
    }
  }

  lemma {:induction false} KeyConstraintsName(m: Model, keys: seq<KeyAttribute>, c: Constraint, n: string)
    requires (forall k, n | k in keys && n in k.fields :: IsField(m, n)) && c in KeyConstraints(keys) && n in c.fields
    ensures IsField(m, n)
  {
    if c !in KeyConstraints(keys[1..]) {
      assert keys[0] in keys && c.fields == keys[0].fields;
    } else {
      KeyConstraintsName(m, keys[1..], c, n);
    }
  }

  lemma ConstraintsNameFields(m: Model, c: Constraint, n: string)
    requires WellFormed(m) && c in FirstOfEachName(Candidates(m)) && n in c.fields
    ensures IsField(m, n)
  {
    if c in FieldConstraints(m.fields, Id) {
      FieldConstraintsName(m, m.fields, Id, c, n);
    } else if c in KeyConstraints(m.ids) {
      KeyConstraintsName(m, m.ids, c, n);
    } else if c in FieldConstraints(m.fields, Unique) {
      FieldConstraintsName(m, m.fields, Unique, c, n);
    } else {
      KeyConstraintsName(m, m.uniques, c, n);
    }
  }

  /** The id fields of the schema are those of a list of names. */
  ghost predicate AgreesWith(m: Model, names: seq<string>) {
    forall f | f in m.fields :: IsIdField(m, f) <==> f.name in names
  }

  lemma AgreesWithSet(m: Model, names: seq<string>)
    requires WellFormed(m) && forall n | n in names :: IsField(m, n)
    ensures AgreesWith(m, names) <==> (set n | n in names) == SchemaIds(m)
  {
    forall f | f in m.fields ensures IsIdField(m, f) <==> f.name in SchemaIds(m) {
      SchemaIdsAre(m, f);
    }
    if AgreesWith(m, names) {
      forall n | n in names ensures n in SchemaIds(m) {
        assert IsField(m, n);
        var f :| f in m.fields && f.name == n;
      }
      forall n | n in SchemaIds(m) ensures n in names {
        SchemaIdsAreFields(m, n);
        var f :| f in m.fields && f.name == n;
      }
    }
  }

  /**
   * Schema and runtime mean the same id fields if and only if the model has one kind of id; where array indices name
   * constraints, if and only if the constraint with the least one has just the schema's id fields.
   */
  lemma RuntimeAgreesIff(arrayIndex: string -> Option<nat>, m: Model)
    requires WellFormed(m)
    ensures (forall names | RuntimeIds(arrayIndex, m, names) :: AgreesWith(m, names)) <==>
      if exists c :: IsLeastIndex(arrayIndex, m, c)
      then forall c | IsLeastIndex(arrayIndex, m, c) :: (set n | n in c.fields) == SchemaIds(m)
      else OneKindOfId(m)
  {
    var cs := FirstOfEachName(Candidates(m));
    var some := RuntimeIdsExist(arrayIndex, m);
    forall c | IsLeastIndex(arrayIndex, m, c)
      ensures RuntimeIds(arrayIndex, m, c.fields)
        && (AgreesWith(m, c.fields) <==> (set n | n in c.fields) == SchemaIds(m))
    {
      assert ListedFirst(arrayIndex, cs, c);
      forall n | n in c.fields ensures IsField(m, n) { ConstraintsNameFields(m, c, n); }
      AgreesWithSet(m, c.fields);
    }
    if !exists c :: IsLeastIndex(arrayIndex, m, c) {
      RuntimeIdsAreFirst(arrayIndex, m);
      IdsAgreeIff(m);
      assert Agree(m) <==> AgreesWith(m, IdFields(m));
    } else {
      var least :| IsLeastIndex(arrayIndex, m, least);
      forall names | RuntimeIds(arrayIndex, m, names)
        ensures exists c :: IsLeastIndex(arrayIndex, m, c) && c.fields == names
      {
        var c :| ListedFirst(arrayIndex, cs, c) && names == c.fields;
        assert IsLeastIndex(arrayIndex, m, c);
      }
    }
  }

  lemma {:induction false} NoConstraints(fields: seq<Field>, mark: Mark)
    requires forall f | f in fields :: !Has(f, mark)
    ensures FieldConstraints(fields, mark) == []
  {
    if fields == [] {
    } else {
      NoConstraints(fields[1..], mark);
    }
  }

  lemma TwoCandidates(a: string, b: string, name: string)
    requires name != ""
    ensures var m := Model([Field(a, true, false), Field(b, false, false)], [], [KeyAttribute([b], Some(name))]);
      Candidates(m) == [Constraint(a, [a]), Constraint(name, [b])]
  {
    var x, y := Field(a, true, false), Field(b, false, false);
    var m := Model([x, y], [], [KeyAttribute([b], Some(name))]);
    NoConstraints([x, y], Unique);
    NoConstraints([y], Id);
    assert [x, y][1..] == [y] && [Constraint(a, [a])] + [] == [Constraint(a, [a])];
    assert KeyConstraints(m.uniques) == [Constraint(name, [b])];
  }

  lemma TwoNames(c: Constraint, d: Constraint)
    requires c.name != d.name
    ensures FirstOfEachName([c, d]) == [c, d]
  {
    AddedOne([], c);
    AddedOne([c], d);
    assert [] + [c] == [c] && [c] + [d] == [c, d];
  }

  lemma SecondOvertakes(arrayIndex: string -> Option<nat>, m: Model, c: Constraint, d: Constraint)
    requires FirstOfEachName(Candidates(m)) == [c, d] && arrayIndex(c.name).None? && arrayIndex(d.name).Some?
    ensures RuntimeIds(arrayIndex, m, d.fields)
  {
    assert ListedFirst(arrayIndex, [c, d], d);
  }

  /** A constraint called like an array index overtakes the id. */
  lemma IndexNameOvertakes(arrayIndex: string -> Option<nat>, a: string, b: string, name: string)
    requires a != b && arrayIndex(a).None? && arrayIndex(b).None? && arrayIndex(name).Some? && name != ""
    ensures var m := Model([Field(a, true, false), Field(b, false, false)], [], [KeyAttribute([b], Some(name))]);
      RuntimeIds(arrayIndex, m, [b]) && IsIdField(m, m.fields[0]) && !IsIdField(m, m.fields[1])
  {
    var m := Model([Field(a, true, false), Field(b, false, false)], [], [KeyAttribute([b], Some(name))]);
    TwoCandidates(a, b, name);
    TwoNames(Constraint(a, [a]), Constraint(name, [b]));
    SecondOvertakes(arrayIndex, m, Constraint(a, [a]), Constraint(name, [b]));
    assert m.fields[0].isId;
  }
}
