/** Whatever an optimistic update changes, the invalidation that follows the mutation covers. */
module Invalidation {
  import opened Optional
  import opened Json
  import opened ModelMeta
  import opened NestedWriteVisitor
  import opened QueryAnalyzer
  import opened Mutator
  import opened Closure

  // ----- the predicate -----

  /** `getInvalidationPredicate`: a direct match, or a nested read found in the arguments. */
  predicate ShouldInvalidate(meta: ModelMeta, mutated: set<string>, queryModel: string, args: Json) {
    queryModel in mutated || (args.Truthy() && ReadModels(meta, queryModel, args) * mutated != {})
  }

  /** The key filter of the SWR runtime. */
  predicate SwrFilter(meta: ModelMeta, mutated: set<string>, queryModel: string, args: Json) {
    exists m | m in ReadModels(meta, queryModel, args) :: m in mutated
  }

  /** Both run-time libraries invalidate the same queries: those that read a mutated model. */
  lemma PredicatesAgree(meta: ModelMeta, mutated: set<string>, queryModel: string, args: Json)
    ensures ShouldInvalidate(meta, mutated, queryModel, args) <==> ReadModels(meta, queryModel, args) * mutated != {}
    ensures SwrFilter(meta, mutated, queryModel, args) <==> ShouldInvalidate(meta, mutated, queryModel, args)
  {
    var models := ReadModels(meta, queryModel, args);
    if m :| m in models && m in mutated {
      assert m in models * mutated;
    }
    assert !args.Truthy() ==> models == {queryModel};
    if queryModel in mutated {
      assert queryModel in models * mutated;
    }
    if models * mutated != {} {
      var m :| m in models * mutated;
      assert m in models && m in mutated;
    }
  }

  // ----- data that follows its query -----

  /** Nested relations appear in the data only where the query's select or include names them. */
  ghost predicate Follows(meta: ModelMeta, model: string, data: Json, args: Json)
    decreases data
  {
    match data
    case Arr(items) => forall i | 0 <= i < |items| :: Follows(meta, model, items[i], args)
    case Obj(fields) => forall i | 0 <= i < |fields| :: PropFollows(meta, model, fields[i], args)
    case _ => true
  }

  ghost predicate PropFollows(meta: ModelMeta, model: string, p: Prop, args: Json)
    decreases p
  {
    IsRelation(meta, model, p.key) && Container(p.val) ==>
      && Selects(args, p.key)
      && Follows(meta, ResolveField(meta, model, p.key).value.type_, p.val, Get(Selection(args).fields, p.key))
  }

  predicate Selects(args: Json, key: string) {
    args.Obj? && Selection(args).Obj? && key != "_count" && Has(Selection(args).fields, key)
  }

  lemma SelectedIsRead(meta: ModelMeta, model: string, args: Json, key: string)
    requires Selects(args, key) && ResolveField(meta, model, key).Some?
    ensures ReadModels(meta, ResolveField(meta, model, key).value.type_, Get(Selection(args).fields, key))
         <= ReadModels(meta, model, args)
  {
    var fields := Selection(args).fields;
    FieldIsRead(meta, model, fields, IndexOf(fields, key));
  }

  // ----- a change has a cause -----

  lemma {:induction false} EventsHaveCause(env: Env, meta: ModelMeta, model: string, data: Json, events: seq<Event>)
    returns (e: Event)
    requires ApplyEvents(env, meta, model, data, events).1
    ensures e in events && e.model == model
    decreases |events|
  {
    match ApplyEvent(env, meta, model, data, events[0]) {
      case None => e := EventsHaveCause(env, meta, model, data, events[1..]);
      case Some(_) => e := events[0];
    }
  }

  /** If the result changes, some call was made for a model that the query reads. */
  lemma {:induction false} ChangeHasCause(
      env: Env, meta: ModelMeta, model: string, data: Json, events: seq<Event>, args: Json)
    returns (e: Event)
    requires ValidMeta(meta) && Follows(meta, model, data, args)
    requires DoApply(env, meta, model, data, events).Some?
    ensures e in events && e.model in ReadModels(meta, model, args)
    decreases Size(data), 2, 0
  {
    var (r, updated) := ApplyEvents(env, meta, model, data, events);
    EventsKeep(env, meta, model, data, events);
    KeptIsWithin(meta, model, data, r);
    if updated {
      e := EventsHaveCause(env, meta, model, data, events);
    } else {
      EventsUnchanged(env, meta, model, data, events);
      match data {
        case Arr(items) => e := ItemsHaveCause(env, meta, model, items, events, Size(data), args);
        case Obj(fields) => e := FieldsHaveCause(env, meta, model, fields, events, Size(data), args);
      }
    }
  }

  lemma {:induction false} EventsUnchanged(env: Env, meta: ModelMeta, model: string, data: Json, events: seq<Event>)
    requires !ApplyEvents(env, meta, model, data, events).1
    ensures ApplyEvents(env, meta, model, data, events).0 == data
  {
    if events == [] {
    } else {
      EventsUnchanged(env, meta, model, data, events[1..]);
    }
  }

  lemma {:induction false} ItemsHaveCause(
      env: Env, meta: ModelMeta, model: string, items: seq<Json>, events: seq<Event>, bound: nat, args: Json)
    returns (e: Event)
    requires ValidMeta(meta) && ItemsWithin(items, bound)
    requires forall i | 0 <= i < |items| :: Follows(meta, model, items[i], args)
    requires ApplyItems(env, meta, model, items, events, bound).1
    ensures e in events && e.model in ReadModels(meta, model, args)
    decreases bound, 1, |items|
  {
    if !Skipped(items[0]) && DoApply(env, meta, model, items[0], events).Some? {
      e := ChangeHasCause(env, meta, model, items[0], events, args);
    } else {
      e := ItemsHaveCause(env, meta, model, items[1..], events, bound, args);
    }
  }

  lemma {:induction false} FieldsHaveCause(
      env: Env, meta: ModelMeta, model: string, fields: seq<Prop>, events: seq<Event>, bound: nat, args: Json)
    returns (e: Event)
    requires ValidMeta(meta) && FieldsWithin(meta, model, fields, bound)
    requires forall i | 0 <= i < |fields| :: PropFollows(meta, model, fields[i], args)
    requires ApplyFields(env, meta, model, fields, events, bound).1
    ensures e in events && e.model in ReadModels(meta, model, args)
    decreases bound, 1, |fields|
  {
    var p := fields[0];
    if IsRelation(meta, model, p.key)
       && DoApply(env, meta, ResolveField(meta, model, p.key).value.type_, p.val, events).Some? {
      OnlyContainersChange(env, meta, ResolveField(meta, model, p.key).value.type_, p.val, events);
      assert PropFollows(meta, model, p, args);
      e := ChangeHasCause(env, meta, ResolveField(meta, model, p.key).value.type_, p.val, events,
                          Get(Selection(args).fields, p.key));
      SelectedIsRead(meta, model, args, p.key);
    } else {
      e := FieldsHaveCause(env, meta, model, fields[1..], events, bound, args);
    }
  }

  lemma {:induction false} PrimitivesStay(env: Env, meta: ModelMeta, model: string, data: Json, events: seq<Event>)
    requires !Container(data)
    ensures ApplyEvents(env, meta, model, data, events) == (data, false)
  {
    if events == [] {
    } else {
      PrimitivesStay(env, meta, model, data, events[1..]);
    }
  }

  lemma OnlyContainersChange(env: Env, meta: ModelMeta, model: string, data: Json, events: seq<Event>)
    requires ValidMeta(meta) && DoApply(env, meta, model, data, events).Some?
    ensures Container(data)
  {
    if !Container(data) {
      PrimitivesStay(env, meta, model, data, events);
    }
  }

  // ----- the theorem -----

  /** A mutation as the client sees it. */
  datatype Mutation = Mutation(model: string, op: Action, args: Json)

  function OwnVisit(meta: ModelMeta, m: Mutation): Visit {
    VisitMutation(meta, MUTATOR_CALLBACKS, m.model, m.op, m.args)
  }

  function FullVisit(meta: ModelMeta, m: Mutation): Visit {
    VisitMutation(meta, ALL_CALLBACKS, m.model, m.op, m.args)
  }

  ghost function Mutated(meta: ModelMeta, m: Mutation): set<string> {
    MutatedModels(meta, m.model, FullVisit(meta, m).events)
  }

  lemma OwnCallsAreFullCalls(meta: ModelMeta, m: Mutation, e: Event)
    requires e in OwnVisit(meta, m).events
    ensures !OwnVisit(meta, m).threw ==> !FullVisit(meta, m).threw && e in FullVisit(meta, m).events
  {
    if !m.op.DeleteMany? {
      MutationQuieter(meta, MUTATOR_CALLBACKS, ALL_CALLBACKS, m.model, m.op, m.args);
      HeardAreHeard(FullVisit(meta, m).events, MUTATOR_CALLBACKS, e);
    }
  }

  lemma CalledIsMutated(meta: ModelMeta, m: Mutation, e: Event)
    requires e in FullVisit(meta, m).events
    ensures e.model in Mutated(meta, m)
  {
    var events := FullVisit(meta, m).events;
    assert e.model in EventModels(events);
    ReachIsLeast(BaseGraph(meta),
      {m.model} + EventModels(events) + Reach(CascadeGraph(meta), DeletedModels(events)));
  }

  /** If a mutation changes the cached data of a query, its invalidation accepts that query. */
  lemma ChangedIsInvalidated(
      env: Env, meta: ModelMeta, m: Mutation, queryModel: string, queryOp: string, data: Json, args: Json)
    requires ValidMeta(meta) && Follows(meta, queryModel, data, args) && !OwnVisit(meta, m).threw
    requires ApplyMutation(env, meta, queryModel, queryOp, data, OwnVisit(meta, m).events).Some?
    ensures !FullVisit(meta, m).threw
    ensures ShouldInvalidate(meta, Mutated(meta, m), queryModel, args)
  {
    var e := ChangeHasCause(env, meta, queryModel, data, OwnVisit(meta, m).events, args);
    OwnCallsAreFullCalls(meta, m, e);
    CalledIsMutated(meta, m, e);
    PredicatesAgree(meta, Mutated(meta, m), queryModel, args);
    assert e.model in ReadModels(meta, queryModel, args) * Mutated(meta, m);
  }

  // ----- optimistic data still follows its query -----

  ghost predicate FollowAll(meta: ModelMeta, model: string, fields: seq<Prop>, args: Json) {
    forall p | p in fields :: PropFollows(meta, model, p, args)
  }

  /** No relation field holds nested data. */
  ghost predicate Flat(meta: ModelMeta, model: string, fields: seq<Prop>) {
    forall p | p in fields && IsRelation(meta, model, p.key) :: !Container(p.val)
  }

  /** Assignments that give no relation field nested data. */
  lemma {:induction false} PutAllIsFlat(meta: ModelMeta, model: string, target: seq<Prop>, ps: seq<Prop>)
    requires Flat(meta, model, target) && Flat(meta, model, ps)
    ensures Flat(meta, model, PutAll(target, ps))
    decreases |ps|
  {
    if ps == [] {
    } else {
      assert ps[0] in ps;
      PutAllIsFlat(meta, model, Put(target, ps[0].key, ps[0].val), ps[1..]);
    }
  }

  lemma {:induction false} InsertIsFlat(env: Env, meta: ModelMeta, model: string, fields: seq<FieldInfo>, newData: Json)
    requires ValidMeta(meta) && model in meta.models && (forall f | f in fields :: f in meta.models[model].fields)
    ensures Flat(meta, model, InsertAssignments(env, fields, newData))
    decreases |fields|
  {
    if fields == [] {
    } else {
      var f := fields[0];
      assert ValidField(meta, model, f);
      ForeignKeysAreScalar(meta, model, f, Member(newData, f.name));
      InsertIsFlat(env, meta, model, fields[1..], newData);
    }
  }

  lemma {:induction false} IdsAreFlat(
      env: Env, meta: ModelMeta, model: string, ids: seq<string>, insert: seq<Prop>,
      maxes: map<string, Json>, count: nat, newData: Json)
    requires forall name | name in ids :: !IsRelation(meta, model, name) && name in maxes
    requires Flat(meta, model, insert)
    ensures Flat(meta, model, InsertIds(env, meta, model, ids, insert, maxes, count, newData))
    decreases |ids|
  {
    if ids == [] {
    } else {
      var f := ResolveField(meta, model, ids[0]);
      var next := if f.Some? && Get(insert, ids[0]).Undefined?
        then Put(insert, ids[0], TempId(env, f.value.type_, maxes[ids[0]], count, newData)) else insert;
      IdsAreFlat(env, meta, model, ids[1..], next, maxes, count, newData);
    }
  }

  lemma NewRecordIsFlat(env: Env, meta: ModelMeta, model: string, current: seq<Json>, newData: Json)
    requires ValidMeta(meta) && model in meta.models
    ensures Flat(meta, model, NewRecord(env, meta, model, current, newData).fields)
  {
    var ps := InsertAssignments(env, meta.models[model].fields, newData);
    InsertIsFlat(env, meta, model, meta.models[model].fields, newData);
    PutAllIsFlat(meta, model, [], ps);
    IdsAreFlat(env, meta, model, IdNames(meta, model), PutAll([], ps), Maxes(env, meta, model, current), |current|,
               newData);
  }

  lemma NewRecordFollows(env: Env, meta: ModelMeta, model: string, current: seq<Json>, newData: Json, args: Json)
    requires ValidMeta(meta) && model in meta.models
    ensures Follows(meta, model, NewRecord(env, meta, model, current, newData), args)
  {
    NewRecordIsFlat(env, meta, model, current, newData);
    var fields := NewRecord(env, meta, model, current, newData).fields;
    forall i | 0 <= i < |fields| ensures PropFollows(meta, model, fields[i], args) {
      assert fields[i] in fields;
    }
  }

  ghost predicate ItemsFollow(meta: ModelMeta, model: string, items: seq<Json>, args: Json) {
    forall x | x in items :: Follows(meta, model, x, args)
  }

  lemma {:induction false} CreateEachFollows(
      env: Env, meta: ModelMeta, model: string, current: seq<Json>, rows: seq<Json>, args: Json)
    requires ValidMeta(meta) && ItemsFollow(meta, model, current, args)
    ensures ItemsFollow(meta, model, CreateEach(env, meta, model, current, rows).0, args)
    decreases |rows|
  {
    if rows == [] {
    } else {
      if model in meta.models {
        NewRecordFollows(env, meta, model, current, rows[0], args);
      }
      match CreateMutate(env, meta, model, current, rows[0]) {
        case None => CreateEachFollows(env, meta, model, current, rows[1..], args);
        case Some(next) => CreateEachFollows(env, meta, model, next, rows[1..], args);
      }
    }
  }

  lemma UpdateFollows(meta: ModelMeta, model: string, data: Json, where_: Json, change: Json, args: Json)
    requires ValidMeta(meta) && Follows(meta, model, data, args)
    ensures var r := UpdateMutate(meta, model, data, where_, change);
      r.Some? ==> Follows(meta, model, r.value, args)
  {
    UpdateKeeps(meta, model, data, where_, change);
    var r := UpdateMutate(meta, model, data, where_, change);
    if r.Some? {
      var fields := r.value.fields;
      forall i | 0 <= i < |fields| ensures PropFollows(meta, model, fields[i], args) {
        assert fields[i] in fields;
      }
    }
  }

  lemma EventFollows(env: Env, meta: ModelMeta, model: string, data: Json, e: Event, args: Json)
    requires ValidMeta(meta) && Follows(meta, model, data, args)
    ensures var r := ApplyEvent(env, meta, model, data, e); r.Some? ==> Follows(meta, model, r.value, args)
  {
    if e.callback.OnUpdate? {
      UpdateFollows(meta, model, data, Member(e.data, "where"), Member(e.data, "data"), args);
    } else if e.callback.OnUpsert? && !data.Arr? {
      UpdateFollows(meta, model, data, Member(e.data, "where"), Member(e.data, "update"), args);
    } else if data.Arr? {
      assert ItemsFollow(meta, model, data.items, args);
      ListEventFollows(env, meta, model, data.items, e, args);
    }
  }

  lemma UpsertFollows(
      env: Env, meta: ModelMeta, model: string, items: seq<Json>, where_: Json, create: Json, update: Json, args: Json)
    requires ValidMeta(meta) && ItemsFollow(meta, model, items, args)
    ensures var r := UpsertList(env, meta, model, items, where_, create, update);
      r.Some? ==> ItemsFollow(meta, model, r.value, args)
  {
    var i := FindMatch(meta, model, items, where_);
    if i < |items| {
      UpdateFollows(meta, model, items[i], where_, update, args);
    } else if model in meta.models {
      NewRecordFollows(env, meta, model, items, create, args);
    }
  }

  lemma ListEventFollows(env: Env, meta: ModelMeta, model: string, items: seq<Json>, e: Event, args: Json)
    requires ValidMeta(meta) && ItemsFollow(meta, model, items, args) && !e.callback.OnUpdate?
    ensures var r := ApplyEvent(env, meta, model, Arr(items), e);
      r.Some? ==> r.value.Arr? && ItemsFollow(meta, model, r.value.items, args)
  {
    match e.callback {
      case OnCreate =>
        if model in meta.models { NewRecordFollows(env, meta, model, items, e.data, args); }
      case OnCreateMany => CreateEachFollows(env, meta, model, items, Enumerate(Member(e.data, "data")), args);
      case OnUpsert =>
        UpsertFollows(env, meta, model, items, Member(e.data, "where"), Member(e.data, "create"),
                      Member(e.data, "update"), args);
      case OnDelete =>
        forall x | x in Unmatched(meta, model, items, e.data) ensures x in items {
          UnmatchedAre(meta, model, items, e.data, x);
        }
      case _ =>
    }
  }

  lemma {:induction false} EventsFollow(
      env: Env, meta: ModelMeta, model: string, data: Json, events: seq<Event>, args: Json)
    requires ValidMeta(meta) && Follows(meta, model, data, args)
    ensures Follows(meta, model, ApplyEvents(env, meta, model, data, events).0, args)
    decreases |events|
  {
    if events == [] {
    } else {
      EventFollows(env, meta, model, data, events[0], args);
      match ApplyEvent(env, meta, model, data, events[0]) {
        case None => EventsFollow(env, meta, model, data, events[1..], args);
        case Some(next) => EventsFollow(env, meta, model, next, events[1..], args);
      }
    }
  }

  /** What an optimistic update writes follows the query again. */
  lemma {:induction false} ApplyFollows(
      env: Env, meta: ModelMeta, model: string, data: Json, events: seq<Event>, args: Json)
    requires ValidMeta(meta) && Follows(meta, model, data, args)
    ensures var r := DoApply(env, meta, model, data, events); r.Some? ==> Follows(meta, model, r.value, args)
    decreases Size(data), 2, 0
  {
    var (r, updated) := ApplyEvents(env, meta, model, data, events);
    EventsKeep(env, meta, model, data, events);
    KeptIsWithin(meta, model, data, r);
    EventsFollow(env, meta, model, data, events, args);
    match r {
      case Arr(items) =>
        assert ItemsFollow(meta, model, items, args);
        ItemsStillFollow(env, meta, model, items, events, Size(data), args);
        ArrayFollows(meta, model, ApplyItems(env, meta, model, items, events, Size(data)).0, args);
      case Obj(fields) =>
        assert FollowAll(meta, model, fields, args);
        FieldsStillFollow(env, meta, model, fields, events, Size(data), args);
        ObjectFollows(meta, model, ApplyFields(env, meta, model, fields, events, Size(data)).0, args);
      case _ =>
    }
  }

  lemma ArrayFollows(meta: ModelMeta, model: string, items: seq<Json>, args: Json)
    requires ItemsFollow(meta, model, items, args)
    ensures Follows(meta, model, Arr(items), args)
  {
  }

  lemma ObjectFollows(meta: ModelMeta, model: string, fields: seq<Prop>, args: Json)
    requires FollowAll(meta, model, fields, args)
    ensures Follows(meta, model, Obj(fields), args)
  {
    forall i | 0 <= i < |fields| ensures PropFollows(meta, model, fields[i], args) {
      assert fields[i] in fields;
    }
  }

  lemma {:induction false} ItemsStillFollow(
      env: Env, meta: ModelMeta, model: string, items: seq<Json>, events: seq<Event>, bound: nat, args: Json)
    requires ValidMeta(meta) && ItemsWithin(items, bound) && ItemsFollow(meta, model, items, args)
    ensures ItemsFollow(meta, model, ApplyItems(env, meta, model, items, events, bound).0, args)
    decreases bound, 1, |items|
  {
    if items == [] {
    } else {
      ItemsStillFollow(env, meta, model, items[1..], events, bound, args);
      if !Skipped(items[0]) {
        ApplyFollows(env, meta, model, items[0], events, args);
      }
    }
  }

  lemma {:induction false} FieldsStillFollow(
      env: Env, meta: ModelMeta, model: string, fields: seq<Prop>, events: seq<Event>, bound: nat, args: Json)
    requires ValidMeta(meta) && FieldsWithin(meta, model, fields, bound) && FollowAll(meta, model, fields, args)
    ensures FollowAll(meta, model, ApplyFields(env, meta, model, fields, events, bound).0, args)
    decreases bound, 1, |fields|
  {
    if fields == [] {
    } else {
      FieldsStillFollow(env, meta, model, fields[1..], events, bound, args);
      var p := fields[0];
      assert PropFollows(meta, model, p, args);
      if IsRelation(meta, model, p.key) {
        var type_ := ResolveField(meta, model, p.key).value.type_;
        var x := DoApply(env, meta, type_, p.val, events);
        if x.Some? {
          OnlyContainersChange(env, meta, type_, p.val, events);
          ApplyFollows(env, meta, type_, p.val, events, Get(Selection(args).fields, p.key));
          assert PropFollows(meta, model, Prop(p.key, x.value), args);
        }
      }
    }
  }
}
