/**
 * Which models a query reads and which models a mutation writes. Both are over-approximations of what the server does,
 * closed under the cascades and the base models that the metadata knows.
 */
module QueryAnalyzer {
  import opened Json
  import opened ModelMeta
  import opened NestedWriteVisitor
  import opened Closure

  // ----- models read -----

  /** The select or include object that a visit descends into; `select` wins. */
  function Selection(args: Json): Json {
    if Member(args, "select").Truthy() then Member(args, "select") else Member(args, "include")
  }

  function ReadModels(meta: ModelMeta, model: string, args: Json): (r: set<string>)
    ensures model in r
    decreases Size(args), 0
  {
    var sel := Selection(args);
    if args.Obj? && sel.Obj? then
      SelectionIsSmaller(args);
      {model} + ReadFields(meta, model, sel.fields)
    else {model}
  }

  function ReadFields(meta: ModelMeta, model: string, fields: seq<Prop>): set<string>
    decreases SizeProps(fields), 1 + |fields|
  {
    if fields == [] then {}
    else
      var k, v, f := fields[0].key, fields[0].val, ResolveField(meta, model, fields[0].key);
      (if k == "_count" && (v.Obj? || v.Arr?) then ReadModels(meta, model, v)
       else if f.Some? then ReadModels(meta, f.value.type_, v)
       else {})
      + ReadFields(meta, model, fields[1..])
  }

  lemma SelectionIsSmaller(args: Json)
    requires args.Obj?
    ensures Size(Selection(args)) < Size(args)
    ensures Selection(args).Obj? ==> SizeProps(Selection(args).fields) < Size(args)
  {
    MemberSize(args, "select");
    MemberSize(args, "include");
  }

  /** What a selected field leads to is read too. */
  lemma {:induction false} FieldIsRead(meta: ModelMeta, model: string, fields: seq<Prop>, i: nat)
    requires i < |fields| && fields[i].key != "_count" && ResolveField(meta, model, fields[i].key).Some?
    ensures ReadModels(meta, ResolveField(meta, model, fields[i].key).value.type_, fields[i].val)
         <= ReadFields(meta, model, fields)
  {
    if i == 0 {
    } else {
      FieldIsRead(meta, model, fields[1..], i - 1);
    }
  }

  /** The visitor whose callback adds every visited model to a set. */
  class ReadVisitor {
    const meta: ModelMeta
    var result: set<string>

    constructor (meta: ModelMeta)
      ensures this.meta == meta && result == {}
    {
      this.meta, result := meta, {};
    }

    method DoVisit(model: string, args: Json)
      modifies this
      ensures result == old(result) + ReadModels(meta, model, args)
      decreases Size(args), 0
    {
      result := result + {model};
      var selectInclude := Undefined;
      if Member(args, "select").Truthy() {
        selectInclude := Member(args, "select");
      } else if Member(args, "include").Truthy() {
        selectInclude := Member(args, "include");
      }
      if selectInclude.Obj? {
        SelectionIsSmaller(args);
        var fields := selectInclude.fields;
        var i := 0;
        while i < |fields|
          invariant 0 <= i <= |fields|
          invariant result + ReadFields(meta, model, fields[i..]) == old(result) + ReadModels(meta, model, args)
        {
          var k, v := fields[i].key, fields[i].val;
          assert fields[i..][1..] == fields[i + 1..];
          PropIsSmaller(fields, fields[i]);
          if k == "_count" && (v.Obj? || v.Arr?) {
            DoVisit(model, v);
          } else {
            var f := ResolveField(meta, model, k);
            if f.Some? {
              DoVisit(f.value.type_, v);
            }
          }
          i := i + 1;
        }
      }
    }
  }

  // ----- models written -----

  function CascadeGraph(meta: ModelMeta): Graph<string> {
    meta.deleteCascade
  }

  function BaseGraph(meta: ModelMeta): Graph<string> {
    map m | m in meta.models :: meta.models[m].baseTypes
  }

  predicate IsDelete(e: Event) {
    e.callback.OnDelete? || e.callback.OnDeleteMany?
  }

  function EventModels(events: seq<Event>): set<string> {
    set e | e in events :: e.model
  }

  function DeletedModels(events: seq<Event>): set<string> {
    set e | e in events && IsDelete(e) :: e.model
  }

  /** What a mutation that makes these calls writes: cascades follow deletes only, bases follow everything. */
  ghost function MutatedModels(meta: ModelMeta, model: string, events: seq<Event>): set<string> {
    Reach(BaseGraph(meta), {model} + EventModels(events) + Reach(CascadeGraph(meta), DeletedModels(events)))
  }

  /** Base types have no cycles: each base ranks lower. */
  ghost predicate RankedBases(meta: ModelMeta, rank: map<string, nat>) {
    forall m, b | m in meta.models && b in meta.models[m].baseTypes :: m in rank && b in rank && rank[b] < rank[m]
  }

  ghost function Rank(rank: map<string, nat>, m: string): nat {
    if m in rank then rank[m] else 0
  }

  class MutationAnalyzer {
    const meta: ModelMeta
    var result: seq<string>     // a JavaScript Set, which remembers the order of insertion
    var cascades: set<string>
    var visited: set<string>

    constructor (meta: ModelMeta)
      ensures this.meta == meta && result == []
    {
      this.meta, result, cascades, visited := meta, [], {}, {};
    }

    method AddModel(m: string)
      requires Distinct(result)
      modifies `result
      ensures Distinct(result) && old(result) <= result
      ensures ToSet(result) == ToSet(old(result)) + {m}
    {
      if m !in result {
        result := result + [m];
      }
    }

    /** Depth first; `visited` breaks cycles. Whatever is newly visited has its cascades collected and visited. */
    method CollectDeleteCascades(m: string, ghost bound: set<string>)
      requires Closed(CascadeGraph(meta), bound) && m in bound
      modifies `cascades, `visited
      ensures old(visited) + {m} <= visited <= old(visited) + bound
      ensures old(cascades) <= cascades <= old(cascades) + bound && cascades <= old(cascades) + visited
      ensures forall n, k | n in visited - old(visited) && k in Next(CascadeGraph(meta), n) ::
        k in cascades && k in visited
      decreases bound - visited
    {
      var g := CascadeGraph(meta);
      if m in visited {
        return;
      }
      visited := visited + {m};
      var next := Next(g, m);
      var i := 0;
      while i < |next|
        invariant 0 <= i <= |next|
        invariant old(visited) + {m} <= visited <= old(visited) + bound
        invariant old(cascades) <= cascades <= old(cascades) + bound && cascades <= old(cascades) + visited
        invariant forall j | 0 <= j < i :: next[j] in cascades && next[j] in visited
        invariant forall n, k | n in visited - old(visited) - {m} && k in Next(g, n) :: k in cascades && k in visited
      {
        assert next[i] in Next(g, m);
        cascades := cascades + {next[i]};
        CollectDeleteCascades(next[i], bound);
        i := i + 1;
      }
    }

    /** `cascades.forEach(addModel)` */
    method AddAll(models: set<string>)
      requires Distinct(result)
      modifies `result
      ensures Distinct(result) && ToSet(result) == ToSet(old(result)) + models
    {
      var todo := models;
      while todo != {}
        invariant todo <= models && Distinct(result)
        invariant ToSet(result) == ToSet(old(result)) + (models - todo)
        decreases |todo|
      {
        var c :| c in todo;
        AddModel(c);
        todo := todo - {c};
      }
    }

    /** Adds the models that deleting `m` deletes. */
    method AddCascades(m: string, ghost bound: set<string>) returns (ghost added: set<string>)
      requires Closed(CascadeGraph(meta), bound) && m in bound
      requires Distinct(result) && m in result
      modifies this
      ensures Distinct(result) && ToSet(result) == ToSet(old(result)) + added
      ensures m in added && added <= bound && Closed(CascadeGraph(meta), added)
    {
      cascades, visited := {}, {};
      CollectDeleteCascades(m, bound);
      added := cascades + {m};
      assert Closed(CascadeGraph(meta), added);
      AddAll(cascades);
    }

    /** Adds exactly the strict ancestors of `m`; nothing but acyclicity stops the recursion. */
    method GetBaseRecursively(m: string, ghost rank: map<string, nat>) returns (ghost added: set<string>)
      requires RankedBases(meta, rank) && Distinct(result)
      modifies `result
      ensures Distinct(result) && old(result) <= result
      ensures ToSet(result) == ToSet(old(result)) + added
      ensures IsClosure(BaseGraph(meta), ToSet(Next(BaseGraph(meta), m)), added)
      decreases Rank(rank, m)
    {
      ghost var g := BaseGraph(meta);
      var bases := Next(BaseGraph(meta), m);
      var i := 0;
      added := {};
      while i < |bases|
        invariant 0 <= i <= |bases| && Distinct(result) && old(result) <= result
        invariant ToSet(result) == ToSet(old(result)) + added
        invariant IsClosure(g, ToSet(bases[..i]), added)
      {
        var b := bases[i];
        assert b in bases && bases == meta.models[m].baseTypes;
        AddModel(b);
        ghost var above := GetBaseRecursively(b, rank);
        ClosureGrows(g, bases, i, added, above);
        added := added + {b} + above;
        i := i + 1;
      }
      assert bases[..i] == bases;
    }

    /** `result.forEach(...)`, which also visits what is added on the way. */
    method AddBases(ghost bound: set<string>, ghost rank: map<string, nat>)
      requires RankedBases(meta, rank) && Distinct(result)
      requires Closed(BaseGraph(meta), bound) && ToSet(result) <= bound
      modifies this
      ensures Distinct(result)
      ensures ToSet(old(result)) <= ToSet(result) <= bound && Closed(BaseGraph(meta), ToSet(result))
    {
      var i := 0;
      while i < |result|
        invariant 0 <= i <= |result| && Distinct(result) && old(result) <= result
        invariant ToSet(result) <= bound
        invariant forall j, b | 0 <= j < i && b in Next(BaseGraph(meta), result[j]) :: b in result
        decreases bound - ToSet(result[..i])
      {
        ghost var before := result;
        assert result[i] in ToSet(result);
        ghost var added := GetBaseRecursively(result[i], rank);
        AncestorsStayWithin(BaseGraph(meta), before[i], added, bound);
        assert result[..i] == before[..i] && result[i] == before[i];
        assert forall x | x in before :: x in result;
        NextOfDistinct(result, i);
        i := i + 1;
      }
    }

    /** The calls of a visit, handled one by one. */
    method AddWritten(model: string, events: seq<Event>, ghost bound: set<string>) returns (ghost cascaded: set<string>)
      requires Closed(CascadeGraph(meta), bound) && DeletedModels(events) <= bound
      modifies this
      ensures Distinct(result) && ToSet(result) == {model} + EventModels(events) + cascaded
      ensures DeletedModels(events) <= cascaded <= bound && Closed(CascadeGraph(meta), cascaded)
    {
      result, cascaded := [model], {};
      var i := 0;
      while i < |events|
        invariant 0 <= i <= |events| && Distinct(result)
        invariant ToSet(result) == {model} + EventModels(events[..i]) + cascaded
        invariant DeletedModels(events[..i]) <= cascaded <= bound && Closed(CascadeGraph(meta), cascaded)
      {
        var e := events[i];
        EventsGrow(events, i);
        AddModel(e.model);
        if IsDelete(e) {
          assert e.model in DeletedModels(events) && e.model in ToSet(result);
          ghost var added := AddCascades(e.model, bound);
          cascaded := cascaded + added;
        }
        i := i + 1;
      }
      assert events[..i] == events;
    }

    /** `getMutatedModels`, given the calls that its visitor makes. */
    method GetMutatedModels(model: string, events: seq<Event>, ghost rank: map<string, nat>)
      requires RankedBases(meta, rank)
      modifies this
      ensures Distinct(result) && ToSet(result) == MutatedModels(meta, model, events)
    {
      ghost var deleted := Reach(CascadeGraph(meta), DeletedModels(events));
      ReachIsLeast(CascadeGraph(meta), DeletedModels(events));
      ghost var cascaded := AddWritten(model, events, deleted);
      ClosedWithinReach(CascadeGraph(meta), DeletedModels(events), cascaded);
      ghost var written := ToSet(result);
      ReachIsLeast(BaseGraph(meta), written);
      AddBases(Reach(BaseGraph(meta), written), rank);
      ClosedWithinReach(BaseGraph(meta), written, ToSet(result));
    }
  }

  lemma ClosureGrows(g: Graph<string>, bases: seq<string>, i: nat, below: set<string>, above: set<string>)
    requires i < |bases| && IsClosure(g, ToSet(bases[..i]), below) && IsClosure(g, ToSet(Next(g, bases[i])), above)
    ensures IsClosure(g, ToSet(bases[..i + 1]), below + {bases[i]} + above)
  {
    assert bases[..i + 1] == bases[..i] + [bases[i]];
    assert ToSet(bases[..i + 1]) == ToSet(bases[..i]) + {bases[i]};
    ClosuresJoin(g, ToSet(bases[..i]), bases[i], below, above);
  }

  lemma AncestorsStayWithin(g: Graph<string>, m: string, added: set<string>, bound: set<string>)
    requires IsClosure(g, ToSet(Next(g, m)), added) && Closed(g, bound) && m in bound
    ensures added <= bound && forall b | b in Next(g, m) :: b in added
  {
    assert forall b | b in Next(g, m) :: b in ToSet(Next(g, m));
  }

  lemma NextOfDistinct<T>(s: seq<T>, i: nat)
    requires i < |s| && Distinct(s)
    ensures s[i] in ToSet(s) && s[i] !in ToSet(s[..i]) && ToSet(s[..i + 1]) == ToSet(s[..i]) + {s[i]}
  {
    assert s[..i + 1] == s[..i] + [s[i]];
  }

  lemma EventsGrow(events: seq<Event>, i: nat)
    requires i < |events|
    ensures EventModels(events[..i + 1]) == EventModels(events[..i]) + {events[i].model}
    ensures DeletedModels(events[..i + 1])
         == DeletedModels(events[..i]) + if IsDelete(events[i]) then {events[i].model} else {}
  {
    assert events[..i + 1] == events[..i] + [events[i]];
  }
}
