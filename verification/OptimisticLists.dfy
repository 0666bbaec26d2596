/** On a list of flat records, an optimistic create, update, upsert or delete is the simple list operation, once. */
module OptimisticLists {
  import opened Optional
  import opened Json
  import opened ModelMeta
  import opened NestedWriteVisitor
  import opened Mutator
  import opened Invalidation

  // ----- flat data and flat payloads -----

  ghost predicate FlatRecord(meta: ModelMeta, model: string, x: Json) {
    x.Obj? && Flat(meta, model, x.fields)
  }

  ghost predicate FlatList(meta: ModelMeta, model: string, items: seq<Json>) {
    forall x | x in items :: FlatRecord(meta, model, x)
  }

  /** No two records have the same id. */
  ghost predicate UniqueIds(meta: ModelMeta, model: string, items: seq<Json>) {
    forall i, j | 0 <= i < j < |items| :: !IdFieldsMatch(meta, model, items[i], items[j])
  }

  /** A payload without nested writes. */
  ghost predicate ScalarPayload(meta: ModelMeta, model: string, payload: Json) {
    payload.Obj? && forall p | p in payload.fields && IsRelation(meta, model, p.key) :: !p.val.Obj?
  }

  lemma {:induction false} ScalarVisit(
      meta: ModelMeta, on: set<Callback>, model: string, fields: seq<Prop>, path: seq<PathItem>)
    requires forall p | p in fields && IsRelation(meta, model, p.key) :: !p.val.Obj?
    ensures VisitFields(meta, on, model, fields, path) == NOTHING
    decreases |fields|
  {
    if fields == [] {
    } else {
      assert fields[0] in fields;
      ScalarVisit(meta, on, model, fields[1..], path);
    }
  }

  /** The one call that a top-level scalar mutation makes. */
  ghost predicate TopLevel(meta: ModelMeta, m: Mutation, callback: Callback, data: Json) {
    var v := OwnVisit(meta, m);
    !v.threw && |v.events| == 1
    && v.events[0].callback == callback && v.events[0].model == m.model && v.events[0].data == data
  }

  ghost predicate ScalarMutation(meta: ModelMeta, m: Mutation) {
    match m.op
    case Create => ScalarPayload(meta, m.model, Member(m.args, "data"))
    case Update => ScalarPayload(meta, m.model, Member(m.args, "data"))
    case Upsert =>
      ScalarPayload(meta, m.model, Member(m.args, "create")) && ScalarPayload(meta, m.model, Member(m.args, "update"))
    case Delete => Member(m.args, "where").Obj?
    case _ => false
  }

  lemma ScalarMutationIsOneCall(meta: ModelMeta, m: Mutation)
    requires ScalarMutation(meta, m)
    ensures TopLevel(meta, m, CallbackOf(m.op), TopData(m.op, m.args))
  {
    var data := TopData(m.op, m.args);
    assert data.Obj? && m.args.Obj?;
    assert OwnVisit(meta, m) == VisitItem(meta, MUTATOR_CALLBACKS, m.model, m.op, data, None, []);
    ScalarItem(meta, m.model, m.op, data);
  }

  lemma ScalarItem(meta: ModelMeta, model: string, op: Action, data: Json)
    requires data.Obj? && CallbackOf(op) in MUTATOR_CALLBACKS
    requires NoNestedWrites(meta, model, FirstPayload(op, data)) && NoNestedWrites(meta, model, SecondPayload(op, data))
    ensures var v := VisitItem(meta, MUTATOR_CALLBACKS, model, op, data, None, []);
      var path := [PathItem(None, model, WhereOf(op, data, true).value, UniqueOf(op, data))];
      v == Visit([Event(CallbackOf(op), model, data, path)], false)
  {
    var path := [PathItem(None, model, WhereOf(op, data, true).value, UniqueOf(op, data))];
    assert [] + path == path;
    NoNestedVisit(meta, model, FirstPayload(op, data), path);
    NoNestedVisit(meta, model, SecondPayload(op, data), path);
  }

  ghost predicate NoNestedWrites(meta: ModelMeta, model: string, payload: Json) {
    payload.Undefined? || ScalarPayload(meta, model, payload)
  }

  lemma NoNestedVisit(meta: ModelMeta, model: string, payload: Json, path: seq<PathItem>)
    requires NoNestedWrites(meta, model, payload)
    ensures VisitPayload(meta, MUTATOR_CALLBACKS, model, payload, path) == NOTHING
  {
    if payload.Obj? {
      ScalarVisit(meta, MUTATOR_CALLBACKS, model, payload.fields, path);
    }
  }

  // ----- below the list -----

  lemma {:induction false} FlatFieldsStay(
      env: Env, meta: ModelMeta, model: string, fields: seq<Prop>, events: seq<Event>, bound: nat)
    requires ValidMeta(meta) && FieldsWithin(meta, model, fields, bound) && Flat(meta, model, fields)
    ensures ApplyFields(env, meta, model, fields, events, bound) == (fields, false)
    decreases |fields|
  {
    if fields == [] {
    } else {
      assert fields[0] in fields;
      FlatFieldsStay(env, meta, model, fields[1..], events, bound);
      if IsRelation(meta, model, fields[0].key) {
        PrimitivesStay(env, meta, ResolveField(meta, model, fields[0].key).value.type_, fields[0].val, events);
        assert DoApply(env, meta, ResolveField(meta, model, fields[0].key).value.type_, fields[0].val, events).None?;
      }
      assert [fields[0]] + fields[1..] == fields;
    }
  }

  lemma OneEvent(env: Env, meta: ModelMeta, model: string, x: Json, e: Event)
    ensures var r := ApplyEvent(env, meta, model, x, e);
      ApplyEvents(env, meta, model, x, [e]) == (if r.Some? then r.value else x, r.Some?)
  {
    var r := ApplyEvent(env, meta, model, x, e);
    var y := if r.Some? then r.value else x;
    assert [e][1..] == [];
    assert ApplyEvents(env, meta, model, y, []) == (y, false);
  }

  /** On a flat record, the recursion does just what the one call does. */
  lemma FlatRecordApply(env: Env, meta: ModelMeta, model: string, x: Json, e: Event)
    requires ValidMeta(meta) && FlatRecord(meta, model, x)
    ensures DoApply(env, meta, model, x, [e]) == ApplyEvent(env, meta, model, x, e)
  {
    var r := ApplyEvent(env, meta, model, x, e);
    var y := if r.Some? then r.value else x;
    OneEvent(env, meta, model, x, e);
    EventsKeep(env, meta, model, x, [e]);
    KeptIsWithin(meta, model, x, y);
    FlatFieldsStay(env, meta, model, y.fields, [e], Size(x));
  }

  /** What the recursion makes of each item: skipped, or given the call once more. */
  function Again(env: Env, meta: ModelMeta, model: string, x: Json, e: Event): Json {
    if Skipped(x) then x
    else
      match ApplyEvent(env, meta, model, x, e)
      case None => x
      case Some(y) => y
  }

  function AgainAll(env: Env, meta: ModelMeta, model: string, items: seq<Json>, e: Event): seq<Json> {
    seq(|items|, i requires 0 <= i < |items| => Again(env, meta, model, items[i], e))
  }

  ghost predicate ChangesSome(env: Env, meta: ModelMeta, model: string, items: seq<Json>, e: Event) {
    exists x | x in items :: !Skipped(x) && ApplyEvent(env, meta, model, x, e).Some?
  }

  lemma {:induction false} FlatItemsApply(
      env: Env, meta: ModelMeta, model: string, items: seq<Json>, e: Event, bound: nat)
    requires ValidMeta(meta) && ItemsWithin(items, bound)
    requires forall x | x in items :: Skipped(x) || FlatRecord(meta, model, x)
    ensures ApplyItems(env, meta, model, items, [e], bound)
         == (AgainAll(env, meta, model, items, e), ChangesSome(env, meta, model, items, e))
    decreases |items|
  {
    if items == [] {
    } else {
      assert items[0] in items;
      FlatItemsApply(env, meta, model, items[1..], e, bound);
      if !Skipped(items[0]) {
        FlatRecordApply(env, meta, model, items[0], e);
      }
      assert AgainAll(env, meta, model, items, e)
          == [Again(env, meta, model, items[0], e)] + AgainAll(env, meta, model, items[1..], e);
      assert items == [items[0]] + items[1..];
    }
  }

  /** The whole update of a list: the call on the list, then once more on each unmarked item. */
  lemma FlatListApply(env: Env, meta: ModelMeta, model: string, items: seq<Json>, e: Event)
    requires ValidMeta(meta) && FlatList(meta, model, items)
    ensures var top := ApplyEvent(env, meta, model, Arr(items), e);
      var list := if top.Some? then top.value else Arr(items);
      list.Arr? &&
      DoApply(env, meta, model, Arr(items), [e])
      == if top.Some? || ChangesSome(env, meta, model, list.items, e)
         then Some(Arr(AgainAll(env, meta, model, list.items, e))) else None
  {
    var top := ApplyEvent(env, meta, model, Arr(items), e);
    var list := if top.Some? then top.value else Arr(items);
    OneEvent(env, meta, model, Arr(items), e);
    EventsKeep(env, meta, model, Arr(items), [e]);
    KeptIsWithin(meta, model, Arr(items), list);
    FlatItemsApply(env, meta, model, list.items, e, Size(Arr(items)));
  }

  lemma NothingAgain(env: Env, meta: ModelMeta, model: string, items: seq<Json>, e: Event)
    requires forall x | x in items :: Skipped(x) || ApplyEvent(env, meta, model, x, e).None?
    ensures AgainAll(env, meta, model, items, e) == items && !ChangesSome(env, meta, model, items, e)
  {
    forall i | 0 <= i < |items| ensures Again(env, meta, model, items[i], e) == items[i] {
      assert items[i] in items;
    }
  }

  // ----- the simple operations -----

  function Applied(env: Env, meta: ModelMeta, m: Mutation, items: seq<Json>): Option<Json>
    requires ValidMeta(meta)
  {
    ApplyMutation(env, meta, m.model, "findMany", Arr(items), OwnVisit(meta, m).events)
  }

  /** Create: one new record in front. */
  lemma CreatePrepends(env: Env, meta: ModelMeta, m: Mutation, items: seq<Json>)
    requires ValidMeta(meta) && FlatList(meta, m.model, items) && m.model in meta.models
    requires m.op.Create? && ScalarMutation(meta, m)
    ensures Applied(env, meta, m, items)
         == Some(Arr([NewRecord(env, meta, m.model, items, Member(m.args, "data"))] + items))
  {
    ScalarMutationIsOneCall(meta, m);
    var e := OwnVisit(meta, m).events[0];
    assert OwnVisit(meta, m).events == [e];
    FlatListApply(env, meta, m.model, items, e);
    var list := [NewRecord(env, meta, m.model, items, e.data)] + items;
    assert Marked(list[0]);
    NothingAgain(env, meta, m.model, list, e);
  }

  lemma DeleteOnList(env: Env, meta: ModelMeta, model: string, items: seq<Json>, e: Event)
    requires e.callback.OnDelete? && e.model == model && e.data.Truthy()
    ensures ApplyEvent(env, meta, model, Arr(items), e)
         == if exists x | x in items :: IdFieldsMatch(meta, model, x, e.data)
            then Some(Arr(Unmatched(meta, model, items, e.data))) else None
  {
  }

  lemma DeleteOnRecord(env: Env, meta: ModelMeta, model: string, x: Json, e: Event)
    requires e.callback.OnDelete? && x.Obj?
    ensures ApplyEvent(env, meta, model, x, e).None?
  {
  }

  /** Delete: exactly the records with the id are gone. */
  lemma DeleteFilters(env: Env, meta: ModelMeta, m: Mutation, items: seq<Json>)
    requires ValidMeta(meta) && FlatList(meta, m.model, items)
    requires m.op.Delete? && ScalarMutation(meta, m)
    ensures var where_ := Member(m.args, "where");
      Applied(env, meta, m, items)
      == if exists x | x in items :: IdFieldsMatch(meta, m.model, x, where_)
         then Some(Arr(Unmatched(meta, m.model, items, where_))) else None
  {
    ScalarMutationIsOneCall(meta, m);
    var e := OwnVisit(meta, m).events[0];
    assert OwnVisit(meta, m).events == [e];
    FlatListApply(env, meta, m.model, items, e);
    DeleteOnList(env, meta, m.model, items, e);
    var rest := Unmatched(meta, m.model, items, e.data);
    forall x | x in rest ensures x in items {
      UnmatchedAre(meta, m.model, items, e.data, x);
    }
    forall x | x in items ensures Skipped(x) || ApplyEvent(env, meta, m.model, x, e).None? {
      if x.Obj? { DeleteOnRecord(env, meta, m.model, x, e); }
    }
    NothingAgain(env, meta, m.model, rest, e);
    NothingAgain(env, meta, m.model, items, e);
  }

  /** The record after the update, or itself when the update does not apply to it. */
  function Changed(meta: ModelMeta, m: Mutation, x: Json, data: Json): Json {
    var r := UpdateMutate(meta, m.model, x, Member(m.args, "where"), data);
    if r.Some? then r.value else x
  }

  /** Update: every unmarked record with the id is changed, each once; marked ones are passed over. */
  lemma UpdateMaps(env: Env, meta: ModelMeta, m: Mutation, items: seq<Json>)
    requires ValidMeta(meta) && FlatList(meta, m.model, items)
    requires m.op.Update? && ScalarMutation(meta, m)
    ensures var data := Member(m.args, "data");
      Applied(env, meta, m, items)
      == if exists x | x in items :: !Marked(x) && UpdateMutate(meta, m.model, x, Member(m.args, "where"), data).Some?
         then Some(Arr(seq(|items|, i requires 0 <= i < |items| =>
                if Marked(items[i]) then items[i] else Changed(meta, m, items[i], data))))
         else None
  {
    ScalarMutationIsOneCall(meta, m);
    var e := OwnVisit(meta, m).events[0];
    assert OwnVisit(meta, m).events == [e];
    FlatListApply(env, meta, m.model, items, e);
    UpdateAgain(env, meta, m, items, e);
  }

  lemma UpdateOnRecord(env: Env, meta: ModelMeta, model: string, x: Json, e: Event)
    requires e.callback.OnUpdate? && e.model == model && x.Obj?
    ensures ApplyEvent(env, meta, model, x, e)
      == UpdateMutate(meta, model, x, Member(e.data, "where"), Member(e.data, "data"))
  {
  }

  lemma UpdateAgain(env: Env, meta: ModelMeta, m: Mutation, items: seq<Json>, e: Event)
    requires FlatList(meta, m.model, items) && e.callback.OnUpdate? && e.model == m.model && e.data == m.args
    ensures var data := Member(m.args, "data");
      && ApplyEvent(env, meta, m.model, Arr(items), e).None?
      && AgainAll(env, meta, m.model, items, e) == seq(|items|, i requires 0 <= i < |items| =>
           if Marked(items[i]) then items[i] else Changed(meta, m, items[i], data))
      && (ChangesSome(env, meta, m.model, items, e) <==>
          exists x | x in items :: !Marked(x) && UpdateMutate(meta, m.model, x, Member(m.args, "where"), data).Some?)
  {
    forall i | 0 <= i < |items|
      ensures Again(env, meta, m.model, items[i], e)
           == if Marked(items[i]) then items[i] else Changed(meta, m, items[i], Member(m.args, "data"))
    {
      assert items[i] in items && FlatRecord(meta, m.model, items[i]);
      UpdateOnRecord(env, meta, m.model, items[i], e);
    }
    forall x | x in items
      ensures ApplyEvent(env, meta, m.model, x, e)
           == UpdateMutate(meta, m.model, x, Member(m.args, "where"), Member(m.args, "data"))
    {
      assert FlatRecord(meta, m.model, x);
      UpdateOnRecord(env, meta, m.model, x, e);
    }
    assert forall x | x in items :: x.Obj? by {
      forall x | x in items ensures x.Obj? {
        assert FlatRecord(meta, m.model, x);
      }
    }
  }

  lemma MatchIsUnique(meta: ModelMeta, model: string, items: seq<Json>, where_: Json, i: nat, j: nat)
    requires UniqueIds(meta, model, items) && i < |items| && j < |items|
    requires IdFieldsMatch(meta, model, items[i], where_) && IdFieldsMatch(meta, model, items[j], where_)
    ensures i == j
  {
    var a, b := if i < j then i else j, if i < j then j else i;
    if a < b {
      assert IdFieldsMatch(meta, model, items[a], items[b]);
    }
  }

  /**
   * Upsert: the record with the id is changed where it stands, or a new one is put in front; never both, never twice.
   */
  lemma UpsertUpdatesOrPrepends(env: Env, meta: ModelMeta, m: Mutation, items: seq<Json>)
    requires ValidMeta(meta) && FlatList(meta, m.model, items) && UniqueIds(meta, m.model, items)
    requires m.op.Upsert? && ScalarMutation(meta, m) && m.model in meta.models && Member(m.args, "where").Obj?
    ensures var where_ := Member(m.args, "where");
      var i := FindMatch(meta, m.model, items, where_);
      Applied(env, meta, m, items)
      == if i == |items| then Some(Arr([NewRecord(env, meta, m.model, items, Member(m.args, "create"))] + items))
         else
           var r := UpdateMutate(meta, m.model, items[i], where_, Member(m.args, "update"));
           if r.Some? then Some(Arr(items[i := r.value])) else None
  {
    ScalarMutationIsOneCall(meta, m);
    var e := OwnVisit(meta, m).events[0];
    assert OwnVisit(meta, m).events == [e];
    FlatListApply(env, meta, m.model, items, e);
    UpsertTop(env, meta, m.model, items, e);
    var list := UpsertedList(env, meta, m.model, items, e);
    forall x | x in list ensures Skipped(x) || ApplyEvent(env, meta, m.model, x, e).None? {
      var j :| 0 <= j < |list| && list[j] == x;
      UpsertLeavesNothing(env, meta, m.model, items, e, j);
    }
    NothingAgain(env, meta, m.model, list, e);
  }

  function UpsertedList(env: Env, meta: ModelMeta, model: string, items: seq<Json>, e: Event): seq<Json>
    requires model in meta.models
  {
    var where_ := Member(e.data, "where");
    var i := FindMatch(meta, model, items, where_);
    if i == |items| then [NewRecord(env, meta, model, items, Member(e.data, "create"))] + items
    else
      var r := UpdateMutate(meta, model, items[i], where_, Member(e.data, "update"));
      if r.Some? then items[i := r.value] else items
  }

  ghost predicate UpsertCall(e: Event, model: string) {
    e.callback.OnUpsert? && e.model == model
    && Member(e.data, "where").Obj? && Member(e.data, "create").Obj? && Member(e.data, "update").Obj?
  }

  lemma UpsertOnRecord(env: Env, meta: ModelMeta, model: string, x: Json, e: Event)
    requires UpsertCall(e, model) && x.Obj?
    ensures ApplyEvent(env, meta, model, x, e)
         == UpdateMutate(meta, model, x, Member(e.data, "where"), Member(e.data, "update"))
  {
    UpsertIsCalled(env, meta, model, x, e);
  }

  lemma UpsertIsCalled(env: Env, meta: ModelMeta, model: string, x: Json, e: Event)
    requires UpsertCall(e, model)
    ensures ApplyEvent(env, meta, model, x, e)
         == UpsertMutate(env, meta, model, x, Member(e.data, "where"), Member(e.data, "create"),
                         Member(e.data, "update"))
  {
    UpsertCase(env, meta, model, x, e);
  }

  lemma UpsertOnList(env: Env, meta: ModelMeta, model: string, items: seq<Json>, e: Event)
    requires UpsertCall(e, model)
    ensures ApplyEvent(env, meta, model, Arr(items), e)
         == UpsertMutate(env, meta, model, Arr(items),
                         Member(e.data, "where"), Member(e.data, "create"), Member(e.data, "update"))
  {
    UpsertIsCalled(env, meta, model, Arr(items), e);
  }

  function Listed(items: Option<seq<Json>>): Option<Json> {
    if items.Some? then Some(Arr(items.value)) else None
  }

  lemma UpsertListIs(
      env: Env, meta: ModelMeta, model: string, items: seq<Json>, where_: Json, create: Json, update: Json)
    requires create.Obj? && model in meta.models
    ensures UpsertMutate(env, meta, model, Arr(items), where_, create, update)
         == Listed(UpsertList(env, meta, model, items, where_, create, update))
    ensures var r, i := UpsertList(env, meta, model, items, where_, create, update),
                        FindMatch(meta, model, items, where_);
      if i == |items| then r == Some([NewRecord(env, meta, model, items, create)] + items)
      else
        var u := UpdateMutate(meta, model, items[i], where_, update);
        r == if u.Some? then Some(items[i := u.value]) else None
  {
  }

  lemma UpsertTop(env: Env, meta: ModelMeta, model: string, items: seq<Json>, e: Event)
    requires UpsertCall(e, model) && model in meta.models
    ensures var r, list := ApplyEvent(env, meta, model, Arr(items), e), UpsertedList(env, meta, model, items, e);
      var i := FindMatch(meta, model, items, Member(e.data, "where"));
      if i == |items| || UpdateMutate(meta, model, items[i], Member(e.data, "where"), Member(e.data, "update")).Some?
      then r == Some(Arr(list)) else r.None? && list == items
  {
    UpsertOnList(env, meta, model, items, e);
    UpsertListIs(env, meta, model, items, Member(e.data, "where"), Member(e.data, "create"), Member(e.data, "update"));
  }

  /** After the call on the list, no item is left for the call to apply to again. */
  lemma UpsertLeavesNothing(env: Env, meta: ModelMeta, model: string, items: seq<Json>, e: Event, j: nat)
    requires ValidMeta(meta) && FlatList(meta, model, items) && UniqueIds(meta, model, items)
    requires UpsertCall(e, model) && model in meta.models && j < |UpsertedList(env, meta, model, items, e)|
    ensures var x := UpsertedList(env, meta, model, items, e)[j];
      Skipped(x) || ApplyEvent(env, meta, model, x, e).None?
  {
    var where_, update := Member(e.data, "where"), Member(e.data, "update");
    var i, x := FindMatch(meta, model, items, where_), UpsertedList(env, meta, model, items, e)[j];
    if i == |items| {
      if j > 0 {
        assert x == items[j - 1] && x in items && FlatRecord(meta, model, x);
        UpsertOnRecord(env, meta, model, x, e);
      }
    } else if j == i {
      assert items[i] in items && FlatRecord(meta, model, items[i]);
      UpdateKeeps(meta, model, items[i], where_, update);
      UpsertOnRecord(env, meta, model, items[i], e);
    } else {
      assert x == items[j] && x in items && FlatRecord(meta, model, x);
      UpsertOnRecord(env, meta, model, x, e);
      if IdFieldsMatch(meta, model, x, where_) {
        MatchIsUnique(meta, model, items, where_, i, j);
      }
    }
  }

  // ----- temporary ids -----

  /**
   * Creating without an id: neither the payload, nor a default with a value, nor a connected record gives the number.
   * `@default(autoincrement())` has no value in the metadata.
   */
  ghost predicate IdIsGenerated(meta: ModelMeta, model: string, id: string, newData: Json) {
    model in meta.models && id in IdNames(meta, model) && newData.Truthy() && Member(newData, id).Undefined?
    && ResolveField(meta, model, id).Some? && ResolveField(meta, model, id).value.type_ in {"Int", "BigInt"}
    && forall f | f in meta.models[model].fields ::
         (f.name == id ==> !f.isDataModel && (f.defaultValue.None? || f.defaultValue.value.Undefined?))
         && (f.isDataModel && Member(newData, f.name).Truthy() ==>
               forall p | p in ForeignKeys(f, Member(newData, f.name)) :: p.key == id ==> p.val.Undefined?)
  }

  lemma {:induction false} InsertLeavesId(
      env: Env, meta: ModelMeta, model: string, fields: seq<FieldInfo>, newData: Json, id: string)
    requires ValidMeta(meta) && IdIsGenerated(meta, model, id, newData)
    requires forall f | f in fields :: f in meta.models[model].fields
    ensures forall p | p in InsertAssignments(env, fields, newData) :: p.key == id ==> p.val.Undefined?
    decreases |fields|
  {
    if fields == [] {
    } else {
      var f := fields[0];
      assert ValidField(meta, model, f);
      assert f.name == id
        ==> !f.isDataModel && f.type_ != "DateTime" && (f.defaultValue.None? || f.defaultValue.value.Undefined?);
      InsertLeavesId(env, meta, model, fields[1..], newData, id);
    }
  }

  /** An id field without a value gets a temporary one, whatever other id fields there are. */
  lemma {:induction false} InsertIdsSets(
      env: Env, meta: ModelMeta, model: string, ids: seq<string>, insert: seq<Prop>,
      maxes: map<string, Json>, count: nat, newData: Json, id: string)
    requires (forall f | f in ids :: f in maxes) && id in ids
    requires Get(insert, id).Undefined? && ResolveField(meta, model, id).Some?
    ensures Get(InsertIds(env, meta, model, ids, insert, maxes, count, newData), id)
         == TempId(env, ResolveField(meta, model, id).value.type_, maxes[id], count, newData)
    decreases |ids|
  {
    var f := ResolveField(meta, model, ids[0]);
    var next := if f.Some? && Get(insert, ids[0]).Undefined?
      then Put(insert, ids[0], TempId(env, f.value.type_, maxes[ids[0]], count, newData)) else insert;
    if ids[0] == id {
      IdsStay(env, meta, model, ids[1..], next, maxes, count, newData, id);
    } else {
      InsertIdsSets(env, meta, model, ids[1..], next, maxes, count, newData, id);
    }
  }

  ghost predicate IntIds(items: seq<Json>, id: string) {
    forall x | x in items :: Member(x, id).Num?
  }

  function IdOf(x: Json, id: string): int
    requires Member(x, id).Num?
  {
    Member(x, id).n
  }

  lemma {:induction false} MaxIsMax(env: Env, items: seq<Json>, id: string)
    requires items != [] && IntIds(items, id)
    ensures var m := CurrMax(env, items, id);
      m.Num? && (forall x | x in items :: IdOf(x, id) <= m.n) && exists x | x in items :: IdOf(x, id) == m.n
    decreases |items|
  {
    if |items| > 1 {
      MaxIsMax(env, items[1..], id);
      var x :| x in items[1..] && IdOf(x, id) == CurrMax(env, items[1..], id).n;
      assert x in items;
    }
    assert items[0] in items;
  }

  /** Without an explicit id, the id of a new record is the temporary one. */
  lemma GeneratedId(env: Env, meta: ModelMeta, model: string, items: seq<Json>, newData: Json, id: string)
    requires ValidMeta(meta) && IdIsGenerated(meta, model, id, newData)
    ensures Member(NewRecord(env, meta, model, items, newData), id)
         == TempId(env, "Int", CurrMax(env, items, id), |items|, newData)
  {
    var ps := InsertAssignments(env, meta.models[model].fields, newData);
    InsertLeavesId(env, meta, model, meta.models[model].fields, newData, id);
    PutAllSets([], ps, id, Undefined);
    var ids, insert, maxes := IdNames(meta, model), PutAll([], ps), Maxes(env, meta, model, items);
    InsertIdsSets(env, meta, model, ids, insert, maxes, |items|, newData, id);
    assert id != OPTIMISTIC;
    var all := InsertIds(env, meta, model, ids, insert, maxes, |items|, newData);
    assert Get(Put(all, OPTIMISTIC, Bool(true)), id) == Get(all, id);
  }

  /** The record of a create without an id gets the next number. */
  lemma NewIdIsNext(env: Env, meta: ModelMeta, model: string, items: seq<Json>, newData: Json, id: string)
    requires ValidMeta(meta) && IdIsGenerated(meta, model, id, newData) && items != [] && IntIds(items, id)
    ensures CurrMax(env, items, id).Num?
    ensures Member(NewRecord(env, meta, model, items, newData), id) == Num(CurrMax(env, items, id).n + 1)
  {
    MaxIsMax(env, items, id);
    GeneratedId(env, meta, model, items, newData, id);
  }

  /** Several creates, one after the other. */
  function CreateAll(env: Env, meta: ModelMeta, model: string, items: seq<Json>, rows: seq<Json>): (r: seq<Json>)
    requires model in meta.models
    ensures |r| == |items| + |rows|
    decreases |rows|
  {
    if rows == [] then items
    else CreateAll(env, meta, model, [NewRecord(env, meta, model, items, rows[0])] + items, rows[1..])
  }

  /** Each of the first `n` ids exceeds every id behind it. */
  ghost predicate Descending(r: seq<Json>, n: nat, id: string)
    requires IntIds(r, id)
  {
    forall i, j | 0 <= i < n && i < j < |r| :: r[i] in r && r[j] in r && IdOf(r[i], id) > IdOf(r[j], id)
  }

  lemma DescendingFurther(r: seq<Json>, n: nat, x: Json, items: seq<Json>, id: string)
    requires n < |r| && r[n..] == [x] + items && IntIds(r, id) && Descending(r, n, id)
    requires Member(x, id).Num? && IntIds(items, id) && forall y | y in items :: IdOf(x, id) > IdOf(y, id)
    ensures r[n + 1..] == items && Descending(r, n + 1, id)
  {
    assert r[n + 1..] == r[n..][1..];
    forall j | n < j < |r| ensures IdOf(r[n], id) > IdOf(r[j], id) {
      assert r[n] == r[n..][0] && r[j] == r[n..][j - n] == items[j - n - 1];
      assert items[j - n - 1] in items;
    }
  }

  /** Any number of creates without ids: the old list is the tail, and each new id exceeds everything behind it. */
  lemma {:induction false} NewIdsAreFresh(
      env: Env, meta: ModelMeta, model: string, items: seq<Json>, rows: seq<Json>, id: string)
    requires ValidMeta(meta) && (forall row | row in rows :: IdIsGenerated(meta, model, id, row))
      && model in meta.models
    requires items != [] && IntIds(items, id)
    ensures var r := CreateAll(env, meta, model, items, rows);
      IntIds(r, id) && r[|rows|..] == items && Descending(r, |rows|, id)
    decreases |rows|
  {
    var r := CreateAll(env, meta, model, items, rows);
    if rows == [] {
      assert r == items && r[|rows|..] == items;
    } else {
      assert rows[0] in rows;
      NewIdIsNext(env, meta, model, items, rows[0], id);
      MaxIsMax(env, items, id);
      var x := NewRecord(env, meta, model, items, rows[0]);
      NewIdsAreFresh(env, meta, model, [x] + items, rows[1..], id);
      DescendingFurther(r, |rows| - 1, x, items, id);
    }
  }

  /** So ids that were distinct stay distinct. */
  lemma NewIdsStayDistinct(env: Env, meta: ModelMeta, model: string, items: seq<Json>, rows: seq<Json>, id: string)
    requires ValidMeta(meta) && (forall row | row in rows :: IdIsGenerated(meta, model, id, row))
      && model in meta.models
    requires items != [] && IntIds(items, id)
    requires forall i, j | 0 <= i < j < |items| :: Member(items[i], id) != Member(items[j], id)
    ensures var r := CreateAll(env, meta, model, items, rows);
      forall i, j | 0 <= i < j < |r| :: Member(r[i], id) != Member(r[j], id)
  {
    NewIdsAreFresh(env, meta, model, items, rows, id);
    var r := CreateAll(env, meta, model, items, rows);
    forall i, j | 0 <= i < j < |r| ensures Member(r[i], id) != Member(r[j], id) {
      if i >= |rows| {
        assert r[i] == r[|rows|..][i - |rows|] && r[j] == r[|rows|..][j - |rows|];
      } else {
        assert IdOf(r[i], id) > IdOf(r[j], id);
      }
    }
  }

  // ----- the same of mutations -----

  /** A cached list after several mutations in turn; one that changes nothing leaves it alone. */
  function AfterAll(env: Env, meta: ModelMeta, ms: seq<Mutation>, data: Json): Json
    requires ValidMeta(meta)
    decreases |ms|
  {
    if ms == [] then data
    else
      var r := ApplyMutation(env, meta, ms[0].model, "findMany", data, OwnVisit(meta, ms[0]).events);
      AfterAll(env, meta, ms[1..], if r.Some? then r.value else data)
  }

  function RowsOf(ms: seq<Mutation>): (rows: seq<Json>)
    ensures |rows| == |ms| && forall i | 0 <= i < |ms| :: rows[i] == Member(ms[i].args, "data")
  {
    seq(|ms|, i requires 0 <= i < |ms| => Member(ms[i].args, "data"))
  }

  ghost predicate ScalarCreates(meta: ModelMeta, model: string, ms: seq<Mutation>) {
    forall m | m in ms :: m.model == model && m.op.Create? && ScalarMutation(meta, m)
  }

  /** Any number of create mutations prepend their records one after the other. */
  lemma {:induction false} CreatesPrepend(
      env: Env, meta: ModelMeta, model: string, ms: seq<Mutation>, items: seq<Json>)
    requires ValidMeta(meta) && model in meta.models && FlatList(meta, model, items) && ScalarCreates(meta, model, ms)
    ensures AfterAll(env, meta, ms, Arr(items)) == Arr(CreateAll(env, meta, model, items, RowsOf(ms)))
    decreases |ms|
  {
    if ms == [] {
    } else {
      assert ms[0] in ms && RowsOf(ms)[1..] == RowsOf(ms[1..]);
      var row := Member(ms[0].args, "data");
      CreatePrepends(env, meta, ms[0], items);
      NewRecordIsFlat(env, meta, model, items, row);
      CreatesPrepend(env, meta, model, ms[1..], [NewRecord(env, meta, model, items, row)] + items);
    }
  }

  /**
   * So create mutations without ids, optimistically applied to a list with distinct ids, leave one with distinct ids.
   */
  lemma CreatesKeepIdsDistinct(
      env: Env, meta: ModelMeta, model: string, ms: seq<Mutation>, items: seq<Json>, id: string)
    requires ValidMeta(meta) && model in meta.models && FlatList(meta, model, items) && ScalarCreates(meta, model, ms)
    requires forall m | m in ms :: IdIsGenerated(meta, model, id, Member(m.args, "data"))
    requires items != [] && IntIds(items, id)
    requires forall i, j | 0 <= i < j < |items| :: Member(items[i], id) != Member(items[j], id)
    ensures var r := AfterAll(env, meta, ms, Arr(items));
      && r.Arr? && |r.items| == |ms| + |items| && r.items[|ms|..] == items
      && forall i, j | 0 <= i < j < |r.items| :: Member(r.items[i], id) != Member(r.items[j], id)
  {
    CreatesPrepend(env, meta, model, ms, items);
    forall row | row in RowsOf(ms) ensures IdIsGenerated(meta, model, id, row) {
      var i :| 0 <= i < |ms| && RowsOf(ms)[i] == row;
      assert ms[i] in ms;
    }
    NewIdsAreFresh(env, meta, model, items, RowsOf(ms), id);
    NewIdsStayDistinct(env, meta, model, items, RowsOf(ms), id);
  }

  /** On an empty list there is no number to go on from. */
  lemma EmptyListHasNoNextId(env: Env, meta: ModelMeta, model: string, newData: Json, id: string)
    requires ValidMeta(meta) && IdIsGenerated(meta, model, id, newData)
    ensures Member(NewRecord(env, meta, model, [], newData), id) == NegInfinity
  {
    GeneratedId(env, meta, model, [], newData, id);
  }

  // ----- what the records hold -----

  lemma {:induction false} PutAllSets(target: seq<Prop>, ps: seq<Prop>, k: string, v: Json)
    requires forall p | p in ps && p.key == k :: p.val == v
    requires Get(target, k) == v || exists p | p in ps :: p.key == k
    ensures Get(PutAll(target, ps), k) == v
    decreases |ps|
  {
    if ps == [] {
    } else {
      PutAllSets(Put(target, ps[0].key, ps[0].val), ps[1..], k, v);
    }
  }

  /** Without nested writes, a payload field is assigned its value and nothing else. */
  lemma {:induction false} InsertSets(env: Env, fields: seq<FieldInfo>, newData: Json, f: FieldInfo)
    requires HasMember(newData, f.name) && !f.isDataModel
    requires forall g | g in fields ::
      (g.name == f.name ==> g == f) && (g.isDataModel ==> !Member(newData, g.name).Truthy())
    ensures var ps := InsertAssignments(env, fields, newData);
      && (forall p | p in ps && p.key == f.name :: p.val == Member(newData, f.name))
      && (f in fields ==> Prop(f.name, Member(newData, f.name)) in ps)
  {
    if fields == [] {
    } else {
      assert fields[0] in fields;
      InsertSets(env, fields[1..], newData, f);
      forall p | p in FieldAssignments(env, fields[0], newData) ensures p.key == fields[0].name {
      }
    }
  }

  lemma {:induction false} IdsStay(
      env: Env, meta: ModelMeta, model: string, ids: seq<string>, insert: seq<Prop>,
      maxes: map<string, Json>, count: nat, newData: Json, k: string)
    requires (forall f | f in ids :: f in maxes) && !Get(insert, k).Undefined?
    ensures Get(InsertIds(env, meta, model, ids, insert, maxes, count, newData), k) == Get(insert, k)
    decreases |ids|
  {
    if ids == [] {
    } else {
      var f := ResolveField(meta, model, ids[0]);
      var next := if f.Some? && Get(insert, ids[0]).Undefined?
        then Put(insert, ids[0], TempId(env, f.value.type_, maxes[ids[0]], count, newData)) else insert;
      IdsStay(env, meta, model, ids[1..], next, maxes, count, newData, k);
    }
  }

  /** A created record holds what the payload gives for its scalar fields, and the mark. */
  lemma CreatedRecord(env: Env, meta: ModelMeta, model: string, items: seq<Json>, newData: Json, f: FieldInfo)
    requires ValidMeta(meta) && model in meta.models && f in meta.models[model].fields && !f.isDataModel
    requires HasMember(newData, f.name) && !Member(newData, f.name).Undefined?
    requires forall g | g in meta.models[model].fields && g.isDataModel :: !Member(newData, g.name).Truthy()
    ensures var r := NewRecord(env, meta, model, items, newData);
      Member(r, f.name) == Member(newData, f.name) && Marked(r)
  {
    var fields, k := meta.models[model].fields, f.name;
    forall g | g in fields && g.name == k ensures g == f {
      assert ValidField(meta, model, g) && ValidField(meta, model, f);
    }
    InsertSets(env, fields, newData, f);
    var insert := PutAll([], InsertAssignments(env, fields, newData));
    PutAllSets([], InsertAssignments(env, fields, newData), k, Member(newData, k));
    var ids, maxes := IdNames(meta, model), Maxes(env, meta, model, items);
    IdsStay(env, meta, model, ids, insert, maxes, |items|, newData, k);
    assert ValidField(meta, model, f) && k != OPTIMISTIC;
    var all := InsertIds(env, meta, model, ids, insert, maxes, |items|, newData);
    assert Get(Put(all, OPTIMISTIC, Bool(true)), k) == Get(all, k);
  }

  /** A scalar update sets each declared field it names, marks the record, and changes nothing else. */
  lemma {:induction false} ScalarChanges(
      meta: ModelMeta, model: string, target: seq<Prop>, changes: seq<Prop>, k: string)
    requires ValidMeta(meta) && DistinctKeys(changes) && k != OPTIMISTIC
    requires forall p | p in changes && IsRelation(meta, model, p.key) :: !p.val.Obj?
    ensures Get(PutAll(target, ChangeAssignments(meta, model, changes)), k)
         == if Has(changes, k) && ResolveField(meta, model, k).Some? && !IsRelation(meta, model, k)
            then Get(changes, k) else Get(target, k)
    decreases |changes|
  {
    if changes == [] {
    } else {
      var p, rest := changes[0], changes[1..];
      assert p in changes;
      var ps := ChangeAssignments(meta, model, rest);
      if Changes(meta, model, p) {
        assert ChangeAssignments(meta, model, changes) == [p] + [Prop(OPTIMISTIC, Bool(true))] + ps;
        var next := Put(Put(target, p.key, p.val), OPTIMISTIC, Bool(true));
        PutTwo(target, p, Prop(OPTIMISTIC, Bool(true)), ps);
        ScalarChanges(meta, model, next, rest, k);
      } else {
        ScalarChanges(meta, model, target, rest, k);
      }
      if p.key == k {
        assert forall i | 0 <= i < |rest| :: rest[i] == changes[i + 1] && rest[i].key != k;
      }
    }
  }

  lemma PutTwo(target: seq<Prop>, a: Prop, b: Prop, ps: seq<Prop>)
    ensures PutAll(target, [a] + [b] + ps) == PutAll(Put(Put(target, a.key, a.val), b.key, b.val), ps)
  {
    assert ([a] + [b] + ps)[1..] == [b] + ps;
    assert ([b] + ps)[1..] == ps;
  }

  /** The changed record of a scalar update, field by field. */
  lemma UpdatedRecord(meta: ModelMeta, m: Mutation, x: Json, k: string)
    requires ValidMeta(meta) && m.op.Update? && ScalarMutation(meta, m) && DistinctKeys(Member(m.args, "data").fields)
    requires UpdateMutate(meta, m.model, x, Member(m.args, "where"), Member(m.args, "data")).Some? && k != OPTIMISTIC
    ensures var data, y := Member(m.args, "data"), Changed(meta, m, x, Member(m.args, "data"));
      && Marked(y)
      && Member(y, k) == if HasMember(data, k) && ResolveField(meta, m.model, k).Some? && !IsRelation(meta, m.model, k)
                         then Member(data, k) else Member(x, k)
  {
    var data := Member(m.args, "data");
    UpdateKeeps(meta, m.model, x, Member(m.args, "where"), data);
    ScalarChanges(meta, m.model, x.fields, data.fields, k);
  }
}
