/**
 * Walking the payload of a write: which callbacks are made, in which order and in which context. The walk is a function
 * on payloads first, and the visitor's loops are proved to make its calls.
 */
module NestedWriteVisitor {
  import opened Optional
  import opened Json
  import opened ModelMeta

  datatype Action =
    | Create | CreateMany | CreateManyAndReturn | ConnectOrCreate
    | Update | UpdateMany | UpdateManyAndReturn | Upsert
    | Connect | Disconnect | Set | Delete | DeleteMany

  /** `isPrismaWriteAction` */
  function ActionOf(key: string): Option<Action> {
    if key == "create" then Some(Create)
    else if key == "createMany" then Some(CreateMany)
    else if key == "createManyAndReturn" then Some(CreateManyAndReturn)
    else if key == "connectOrCreate" then Some(ConnectOrCreate)
    else if key == "update" then Some(Update)
    else if key == "updateMany" then Some(UpdateMany)
    else if key == "updateManyAndReturn" then Some(UpdateManyAndReturn)
    else if key == "upsert" then Some(Upsert)
    else if key == "connect" then Some(Connect)
    else if key == "disconnect" then Some(Disconnect)
    else if key == "set" then Some(Set)
    else if key == "delete" then Some(Delete)
    else if key == "deleteMany" then Some(DeleteMany)
    else None
  }

  datatype Callback =
    | OnCreate | OnCreateMany | OnConnectOrCreate | OnUpdate | OnUpdateMany | OnUpsert
    | OnConnect | OnDisconnect | OnSet | OnDelete | OnDeleteMany

  const ALL_CALLBACKS: set<Callback> :=
    {OnCreate, OnCreateMany, OnConnectOrCreate, OnUpdate, OnUpdateMany, OnUpsert,
     OnConnect, OnDisconnect, OnSet, OnDelete, OnDeleteMany}

  function CallbackOf(a: Action): Callback {
    match a
    case Create => OnCreate
    case CreateMany | CreateManyAndReturn => OnCreateMany
    case ConnectOrCreate => OnConnectOrCreate
    case Update => OnUpdate
    case UpdateMany | UpdateManyAndReturn => OnUpdateMany
    case Upsert => OnUpsert
    case Connect => OnConnect
    case Disconnect => OnDisconnect
    case Set => OnSet
    case Delete => OnDelete
    case DeleteMany => OnDeleteMany
  }

  /** Actions without nested payloads; they are not even enumerated when nobody listens. */
  predicate IsLeaf(a: Action) {
    a.Connect? || a.Disconnect? || a.Set? || a.Delete? || a.DeleteMany?
  }

  /** One item of the top-down path of nested writes; the top level has no field. */
  datatype PathItem = PathItem(field: Option<FieldInfo>, model: string, where_: Json, unique: bool)

  datatype Event = Event(callback: Callback, model: string, data: Json, path: seq<PathItem>)

  /** The callbacks made, and whether the walk ended in a TypeError on a missing item. */
  datatype Visit = Visit(events: seq<Event>, threw: bool) {
    function Then(next: Visit): Visit {
      if threw then this else Visit(events + next.events, next.threw)
    }
  }

  const NOTHING := Visit([], false)

  // ----- per-action tables -----

  /** The `where` of the new context, None if reading it throws. */
  function WhereOf(a: Action, item: Json, toplevel: bool): Option<Json> {
    match a
    case Create | CreateMany | CreateManyAndReturn => Some(Obj([]))
    case Connect | Disconnect | Set => Some(item)
    case Delete | DeleteMany =>
      if !toplevel then Some(item) else if item.Nullish() then None else Some(Member(item, "where"))
    case _ => if item.Nullish() then None else Some(Member(item, "where"))
  }

  predicate UniqueOf(a: Action, item: Json) {
    a.Connect? || a.Set? || (a.Disconnect? && item.IsObject())
  }

  function FirstPayload(a: Action, item: Json): Json {
    match a
    case Create | UpdateMany | UpdateManyAndReturn => item
    case CreateMany | CreateManyAndReturn => Member(item, "data")
    case ConnectOrCreate | Upsert => Member(item, "create")
    case Update => if Member(item, "data").IsObject() then Member(item, "data") else item
    case _ => Undefined
  }

  function SecondPayload(a: Action, item: Json): Json {
    if a.Upsert? then Member(item, "update") else Undefined
  }

  lemma MemberSize(j: Json, key: string)
    ensures Size(Member(j, key)) <= Size(j)
    ensures j.Obj? ==> Size(Member(j, key)) < Size(j)
  {
    if j.Obj? {
      var i := IndexOf(j.fields, key);
      if i < |j.fields| {
        PropIsSmaller(j.fields, j.fields[i]);
      }
    }
  }

  lemma PayloadSizes(a: Action, item: Json)
    ensures Size(FirstPayload(a, item)) <= Size(item) && Size(SecondPayload(a, item)) <= Size(item)
  {
    MemberSize(item, "data");
    MemberSize(item, "create");
    MemberSize(item, "update");
  }

  lemma {:induction false} SizeOfLast(items: seq<Json>)
    requires items != []
    ensures SizeAll(items) == SizeAll(items[..|items| - 1]) + Size(items[|items| - 1])
  {
    if |items| > 1 {
      SizeOfLast(items[1..]);
      assert items[..|items| - 1][1..] == items[1..][..|items| - 2];
    }
  }

  // ----- the walk -----

  function VisitData(
      meta: ModelMeta, on: set<Callback>, model: string, a: Action, data: Json,
      field: Option<FieldInfo>, path: seq<PathItem>): Visit
    decreases Size(data), 5, 0
  {
    if !data.Truthy() || (IsLeaf(a) && CallbackOf(a) !in on) then NOTHING
    else if data.Arr? && !a.CreateMany? && !a.CreateManyAndReturn? then
      VisitItems(meta, on, model, a, data.items, field, path)
    else VisitItem(meta, on, model, a, data, field, path)
  }

  /** `enumerateReverse`: the last item first. */
  function VisitItems(
      meta: ModelMeta, on: set<Callback>, model: string, a: Action, items: seq<Json>,
      field: Option<FieldInfo>, path: seq<PathItem>): Visit
    decreases SizeAll(items), 4, |items|
  {
    if items == [] then NOTHING
    else
      SizeOfLast(items);
      VisitItem(meta, on, model, a, items[|items| - 1], field, path)
        .Then(VisitItems(meta, on, model, a, items[..|items| - 1], field, path))
  }

  function VisitItem(
      meta: ModelMeta, on: set<Callback>, model: string, a: Action, item: Json,
      field: Option<FieldInfo>, path: seq<PathItem>): Visit
    decreases Size(item), 3, 0
  {
    var where_ := WhereOf(a, item, field.None?);
    if where_.None? then Visit([], true)
    else
      var path' := path + [PathItem(field, model, where_.value, UniqueOf(a, item))];
      var call := if CallbackOf(a) in on then [Event(CallbackOf(a), model, item, path')] else [];
      PayloadSizes(a, item);
      Visit(call, false)
        .Then(VisitPayload(meta, on, model, FirstPayload(a, item), path'))
        .Then(VisitPayload(meta, on, model, SecondPayload(a, item), path'))
  }

  /** `visitSubPayload` */
  function VisitPayload(meta: ModelMeta, on: set<Callback>, model: string, payload: Json, path: seq<PathItem>): Visit
    decreases Size(payload), 2, 0
  {
    match payload
    case Arr(items) => VisitPayloads(meta, on, model, items, path)
    case Obj(fields) => VisitFields(meta, on, model, fields, path)
    case _ => NOTHING
  }

  function VisitPayloads(
      meta: ModelMeta, on: set<Callback>, model: string, items: seq<Json>, path: seq<PathItem>): Visit
    decreases SizeAll(items), 1, |items|
  {
    if items == [] then NOTHING
    else
      assert items[0].Obj? ==> Size(items[0]) == 1 + SizeProps(items[0].fields);
      (if items[0].Obj? then VisitFields(meta, on, model, items[0].fields, path) else NOTHING)
        .Then(VisitPayloads(meta, on, model, items[1..], path))
  }

  function VisitFields(meta: ModelMeta, on: set<Callback>, model: string, fields: seq<Prop>, path: seq<PathItem>): Visit
    decreases SizeProps(fields), 7, |fields|
  {
    if fields == [] then NOTHING
    else
      var f, val := ResolveField(meta, model, fields[0].key), fields[0].val;
      assert val.Obj? ==> Size(val) == 1 + SizeProps(val.fields);
      (if f.Some? && f.value.isDataModel && val.Obj?
       then VisitActions(meta, on, f.value, val.fields, path) else NOTHING)
        .Then(VisitFields(meta, on, model, fields[1..], path))
  }

  /** The nested writes under one relation field. */
  function VisitActions(
      meta: ModelMeta, on: set<Callback>, field: FieldInfo, writes: seq<Prop>, path: seq<PathItem>): Visit
    decreases SizeProps(writes), 6, |writes|
  {
    if writes == [] then NOTHING
    else
      var a := ActionOf(writes[0].key);
      (if a.Some? then VisitData(meta, on, field.type_, a.value, writes[0].val, Some(field), path) else NOTHING)
        .Then(VisitActions(meta, on, field, writes[1..], path))
  }

  /** `visit`: what a whole mutation calls back. */
  function VisitMutation(meta: ModelMeta, on: set<Callback>, model: string, a: Action, args: Json): Visit {
    if !args.Truthy() then NOTHING
    else VisitData(meta, on, model, a, TopData(a, args), None, [])
  }

  function TopData(a: Action, args: Json): Json {
    match a
    case Create => Member(args, "data")
    case Delete | DeleteMany => Member(args, "where")
    case _ => args
  }

  // ----- every context is a chain -----

  predicate IsChain(meta: ModelMeta, path: seq<PathItem>) {
    path != [] && path[0].field.None?
    && forall i | 0 < i < |path| ::
         && path[i].field.Some?
         && ResolveField(meta, path[i - 1].model, path[i].field.value.name) == path[i].field
         && path[i].field.value.isDataModel
         && path[i].field.value.type_ == path[i].model
  }

  /** A path that a write of `model` through `field` extends to a chain. */
  predicate Leads(meta: ModelMeta, path: seq<PathItem>, field: Option<FieldInfo>, model: string) {
    if path == [] then field.None?
    else
      && IsChain(meta, path) && field.Some? && field.value.isDataModel && field.value.type_ == model
      && ResolveField(meta, path[|path| - 1].model, field.value.name) == field
  }

  predicate ChainEndsAt(meta: ModelMeta, path: seq<PathItem>, model: string) {
    IsChain(meta, path) && path[|path| - 1].model == model
  }

  ghost predicate AllChains(meta: ModelMeta, v: Visit) {
    forall e | e in v.events :: ChainEndsAt(meta, e.path, e.model)
  }

  lemma {:induction false} DataChains(
      meta: ModelMeta, on: set<Callback>, model: string, a: Action, data: Json,
      field: Option<FieldInfo>, path: seq<PathItem>)
    requires Leads(meta, path, field, model)
    ensures AllChains(meta, VisitData(meta, on, model, a, data, field, path))
    decreases Size(data), 5, 0
  {
    if data.Arr? {
      ItemsChains(meta, on, model, a, data.items, field, path);
    }
    ItemChains(meta, on, model, a, data, field, path);
  }

  lemma {:induction false} ItemsChains(
      meta: ModelMeta, on: set<Callback>, model: string, a: Action, items: seq<Json>,
      field: Option<FieldInfo>, path: seq<PathItem>)
    requires Leads(meta, path, field, model)
    ensures AllChains(meta, VisitItems(meta, on, model, a, items, field, path))
    decreases SizeAll(items), 4, |items|
  {
    if items == [] {
    } else {
      SizeOfLast(items);
      ItemChains(meta, on, model, a, items[|items| - 1], field, path);
      ItemsChains(meta, on, model, a, items[..|items| - 1], field, path);
    }
  }

  lemma {:induction false} ItemChains(
      meta: ModelMeta, on: set<Callback>, model: string, a: Action, item: Json,
      field: Option<FieldInfo>, path: seq<PathItem>)
    requires Leads(meta, path, field, model)
    ensures AllChains(meta, VisitItem(meta, on, model, a, item, field, path))
    decreases Size(item), 3, 0
  {
    var where_ := WhereOf(a, item, field.None?);
    if where_.Some? {
      var path' := path + [PathItem(field, model, where_.value, UniqueOf(a, item))];
      assert ChainEndsAt(meta, path', model);
      PayloadSizes(a, item);
      PayloadChains(meta, on, model, FirstPayload(a, item), path');
      PayloadChains(meta, on, model, SecondPayload(a, item), path');
    }
  }

  lemma {:induction false} PayloadChains(
      meta: ModelMeta, on: set<Callback>, model: string, payload: Json, path: seq<PathItem>)
    requires ChainEndsAt(meta, path, model)
    ensures AllChains(meta, VisitPayload(meta, on, model, payload, path))
    decreases Size(payload), 2, 0
  {
    match payload {
      case Arr(items) => PayloadsChains(meta, on, model, items, path);
      case Obj(fields) => FieldsChains(meta, on, model, fields, path);
      case _ =>
    }
  }

  lemma {:induction false} PayloadsChains(
      meta: ModelMeta, on: set<Callback>, model: string, items: seq<Json>, path: seq<PathItem>)
    requires ChainEndsAt(meta, path, model)
    ensures AllChains(meta, VisitPayloads(meta, on, model, items, path))
    decreases SizeAll(items), 1, |items|
  {
    if items == [] {
    } else {
      if items[0].Obj? {
        assert Size(items[0]) == 1 + SizeProps(items[0].fields);
        FieldsChains(meta, on, model, items[0].fields, path);
      }
      PayloadsChains(meta, on, model, items[1..], path);
    }
  }

  lemma {:induction false} FieldsChains(
      meta: ModelMeta, on: set<Callback>, model: string, fields: seq<Prop>, path: seq<PathItem>)
    requires ChainEndsAt(meta, path, model)
    ensures AllChains(meta, VisitFields(meta, on, model, fields, path))
    decreases SizeProps(fields), 7, |fields|
  {
    if fields == [] {
    } else {
      var f, val := ResolveField(meta, model, fields[0].key), fields[0].val;
      if f.Some? && f.value.isDataModel && val.Obj? {
        assert Size(val) == 1 + SizeProps(val.fields);
        ActionsChains(meta, on, f.value, val.fields, path);
      }
      FieldsChains(meta, on, model, fields[1..], path);
    }
  }

  lemma {:induction false} ActionsChains(
      meta: ModelMeta, on: set<Callback>, field: FieldInfo, writes: seq<Prop>, path: seq<PathItem>)
    requires Leads(meta, path, Some(field), field.type_) && path != []
    ensures AllChains(meta, VisitActions(meta, on, field, writes, path))
    decreases SizeProps(writes), 6, |writes|
  {
    if writes == [] {
    } else {
      var a := ActionOf(writes[0].key);
      if a.Some? {
        DataChains(meta, on, field.type_, a.value, writes[0].val, Some(field), path);
      }
      ActionsChains(meta, on, field, writes[1..], path);
    }
  }

  /** Each callback's nesting path resolves, field by field, from the mutated model down to the callback's model. */
  lemma NestingPathsAreChains(meta: ModelMeta, on: set<Callback>, model: string, a: Action, args: Json, e: Event)
    requires e in VisitMutation(meta, on, model, a, args).events
    ensures ChainEndsAt(meta, e.path, e.model)
  {
    DataChains(meta, on, model, a, TopData(a, args), None, []);
  }

  // ----- listening to less -----

  function Heard(events: seq<Event>, on: set<Callback>): seq<Event> {
    if events == [] then []
    else (if events[0].callback in on then [events[0]] else []) + Heard(events[1..], on)
  }

  lemma {:induction false} HeardConcat(x: seq<Event>, y: seq<Event>, on: set<Callback>)
    ensures Heard(x + y, on) == Heard(x, on) + Heard(y, on)
  {
    if x == [] {
      assert x + y == y;
    } else {
      assert (x + y)[1..] == x[1..] + y;
      HeardConcat(x[1..], y, on);
    }
  }

  /** With fewer callbacks the walk makes the same calls, less those nobody listens to, and throws in the same cases. */
  ghost predicate Quieter(few: Visit, all: Visit, on: set<Callback>) {
    if all.threw then few.threw else few == Visit(Heard(all.events, on), false)
  }

  /** A top-level delete nobody listens to is not enumerated, so it cannot throw as it otherwise might. */
  predicate SameThrows(a: Action, on: set<Callback>, toplevel: bool) {
    toplevel ==> (a.Delete? ==> OnDelete in on) && (a.DeleteMany? ==> OnDeleteMany in on)
  }

  lemma ThenQuieter(f1: Visit, f2: Visit, a1: Visit, a2: Visit, on: set<Callback>)
    requires Quieter(f1, a1, on) && Quieter(f2, a2, on)
    ensures Quieter(f1.Then(f2), a1.Then(a2), on)
  {
    HeardConcat(a1.events, a2.events, on);
  }

  lemma {:induction false} DataQuieter(
      meta: ModelMeta, on: set<Callback>, all: set<Callback>, model: string, a: Action, data: Json,
      field: Option<FieldInfo>, path: seq<PathItem>)
    requires on <= all && SameThrows(a, on, field.None?)
    ensures Quieter(VisitData(meta, on, model, a, data, field, path),
                    VisitData(meta, all, model, a, data, field, path), on)
    decreases Size(data), 5, 0
  {
    if IsLeaf(a) && CallbackOf(a) !in on {
      if data.Arr? {
        LeafItemsAreSilent(meta, on, all, model, a, data.items, field, path);
      }
      LeafIsSilent(meta, on, all, model, a, data, field, path);
    } else {
      if data.Arr? {
        ItemsQuieter(meta, on, all, model, a, data.items, field, path);
      }
      ItemQuieter(meta, on, all, model, a, data, field, path);
    }
  }

  lemma LeafIsSilent(
      meta: ModelMeta, on: set<Callback>, all: set<Callback>, model: string, a: Action, item: Json,
      field: Option<FieldInfo>, path: seq<PathItem>)
    requires IsLeaf(a) && CallbackOf(a) !in on && SameThrows(a, on, field.None?)
    ensures Quieter(NOTHING, VisitItem(meta, all, model, a, item, field, path), on)
  {
    assert FirstPayload(a, item) == SecondPayload(a, item) == Undefined;
    var where_ := WhereOf(a, item, field.None?);
    assert where_.Some?;
    var e := Event(CallbackOf(a), model, item, path + [PathItem(field, model, where_.value, UniqueOf(a, item))]);
    var call := if CallbackOf(a) in all then [e] else [];
    assert VisitItem(meta, all, model, a, item, field, path) == Visit(call + [] + [], false);
    assert call + [] + [] == call && Heard(call, on) == [];
  }

  lemma {:induction false} LeafItemsAreSilent(
      meta: ModelMeta, on: set<Callback>, all: set<Callback>, model: string, a: Action, items: seq<Json>,
      field: Option<FieldInfo>, path: seq<PathItem>)
    requires IsLeaf(a) && CallbackOf(a) !in on && SameThrows(a, on, field.None?)
    ensures Quieter(NOTHING, VisitItems(meta, all, model, a, items, field, path), on)
  {
    if items == [] {
    } else {
      var last, rest := items[|items| - 1], items[..|items| - 1];
      LeafIsSilent(meta, on, all, model, a, last, field, path);
      LeafItemsAreSilent(meta, on, all, model, a, rest, field, path);
      ThenQuieter(NOTHING, NOTHING, VisitItem(meta, all, model, a, last, field, path),
                  VisitItems(meta, all, model, a, rest, field, path), on);
    }
  }

  lemma {:induction false} ItemsQuieter(
      meta: ModelMeta, on: set<Callback>, all: set<Callback>, model: string, a: Action, items: seq<Json>,
      field: Option<FieldInfo>, path: seq<PathItem>)
    requires on <= all
    ensures Quieter(VisitItems(meta, on, model, a, items, field, path),
                    VisitItems(meta, all, model, a, items, field, path), on)
    decreases SizeAll(items), 4, |items|
  {
    if items == [] {
    } else {
      SizeOfLast(items);
      var last, rest := items[|items| - 1], items[..|items| - 1];
      ItemQuieter(meta, on, all, model, a, last, field, path);
      ItemsQuieter(meta, on, all, model, a, rest, field, path);
      ThenQuieter(VisitItem(meta, on, model, a, last, field, path), VisitItems(meta, on, model, a, rest, field, path),
                  VisitItem(meta, all, model, a, last, field, path), VisitItems(meta, all, model, a, rest, field, path),
                  on);
    }
  }

  function CallIfHeard(e: Event, on: set<Callback>): Visit {
    Visit(if e.callback in on then [e] else [], false)
  }

  lemma CallQuieter(e: Event, on: set<Callback>, all: set<Callback>)
    requires on <= all
    ensures Quieter(CallIfHeard(e, on), CallIfHeard(e, all), on)
  {
  }

  lemma {:induction false} ItemQuieter(
      meta: ModelMeta, on: set<Callback>, all: set<Callback>, model: string, a: Action, item: Json,
      field: Option<FieldInfo>, path: seq<PathItem>)
    requires on <= all
    ensures Quieter(VisitItem(meta, on, model, a, item, field, path),
                    VisitItem(meta, all, model, a, item, field, path), on)
    decreases Size(item), 3, 0
  {
    var where_ := WhereOf(a, item, field.None?);
    if where_.Some? {
      var path' := path + [PathItem(field, model, where_.value, UniqueOf(a, item))];
      var e := Event(CallbackOf(a), model, item, path');
      var few, many := CallIfHeard(e, on), CallIfHeard(e, all);
      CallQuieter(e, on, all);
      var first, second := FirstPayload(a, item), SecondPayload(a, item);
      PayloadSizes(a, item);
      PayloadQuieter(meta, on, all, model, first, path');
      PayloadQuieter(meta, on, all, model, second, path');
      ThenQuieter(few, VisitPayload(meta, on, model, first, path'), many, VisitPayload(meta, all, model, first, path'),
                  on);
      ThenQuieter(few.Then(VisitPayload(meta, on, model, first, path')), VisitPayload(meta, on, model, second, path'),
                  many.Then(VisitPayload(meta, all, model, first, path')),
                  VisitPayload(meta, all, model, second, path'), on);
    }
  }

  lemma {:induction false} PayloadQuieter(
      meta: ModelMeta, on: set<Callback>, all: set<Callback>, model: string, payload: Json, path: seq<PathItem>)
    requires on <= all
    ensures Quieter(VisitPayload(meta, on, model, payload, path), VisitPayload(meta, all, model, payload, path), on)
    decreases Size(payload), 2, 0
  {
    match payload {
      case Arr(items) => PayloadsQuieter(meta, on, all, model, items, path);
      case Obj(fields) => FieldsQuieter(meta, on, all, model, fields, path);
      case _ =>
    }
  }

  lemma {:induction false} PayloadsQuieter(
      meta: ModelMeta, on: set<Callback>, all: set<Callback>, model: string, items: seq<Json>, path: seq<PathItem>)
    requires on <= all
    ensures Quieter(VisitPayloads(meta, on, model, items, path), VisitPayloads(meta, all, model, items, path), on)
    decreases SizeAll(items), 1, |items|
  {
    if items == [] {
    } else {
      PayloadsQuieter(meta, on, all, model, items[1..], path);
      if items[0].Obj? {
        assert Size(items[0]) == 1 + SizeProps(items[0].fields);
        FieldsQuieter(meta, on, all, model, items[0].fields, path);
        ThenQuieter(VisitFields(meta, on, model, items[0].fields, path),
                    VisitPayloads(meta, on, model, items[1..], path),
                    VisitFields(meta, all, model, items[0].fields, path),
                    VisitPayloads(meta, all, model, items[1..], path), on);
      } else {
        ThenQuieter(NOTHING, VisitPayloads(meta, on, model, items[1..], path),
                    NOTHING, VisitPayloads(meta, all, model, items[1..], path), on);
      }
    }
  }

  lemma {:induction false} FieldsQuieter(
      meta: ModelMeta, on: set<Callback>, all: set<Callback>, model: string, fields: seq<Prop>, path: seq<PathItem>)
    requires on <= all
    ensures Quieter(VisitFields(meta, on, model, fields, path), VisitFields(meta, all, model, fields, path), on)
    decreases SizeProps(fields), 7, |fields|
  {
    if fields == [] {
    } else {
      var f, val := ResolveField(meta, model, fields[0].key), fields[0].val;
      FieldsQuieter(meta, on, all, model, fields[1..], path);
      var few, many := NOTHING, NOTHING;
      if f.Some? && f.value.isDataModel && val.Obj? {
        assert Size(val) == 1 + SizeProps(val.fields);
        ActionsQuieter(meta, on, all, f.value, val.fields, path);
        few, many := VisitActions(meta, on, f.value, val.fields, path),
                     VisitActions(meta, all, f.value, val.fields, path);
      }
      ThenQuieter(few, VisitFields(meta, on, model, fields[1..], path),
                  many, VisitFields(meta, all, model, fields[1..], path), on);
    }
  }

  lemma {:induction false} ActionsQuieter(
      meta: ModelMeta, on: set<Callback>, all: set<Callback>, field: FieldInfo, writes: seq<Prop>, path: seq<PathItem>)
    requires on <= all
    ensures Quieter(VisitActions(meta, on, field, writes, path), VisitActions(meta, all, field, writes, path), on)
    decreases SizeProps(writes), 6, |writes|
  {
    if writes == [] {
    } else {
      var a := ActionOf(writes[0].key);
      ActionsQuieter(meta, on, all, field, writes[1..], path);
      var few, many := NOTHING, NOTHING;
      if a.Some? {
        DataQuieter(meta, on, all, field.type_, a.value, writes[0].val, Some(field), path);
        few := VisitData(meta, on, field.type_, a.value, writes[0].val, Some(field), path);
        many := VisitData(meta, all, field.type_, a.value, writes[0].val, Some(field), path);
      }
      ThenQuieter(few, VisitActions(meta, on, field, writes[1..], path),
                  many, VisitActions(meta, all, field, writes[1..], path), on);
    }
  }

  lemma MutationQuieter(
      meta: ModelMeta, on: set<Callback>, all: set<Callback>, model: string, a: Action, args: Json)
    requires on <= all && SameThrows(a, on, true)
    ensures Quieter(VisitMutation(meta, on, model, a, args), VisitMutation(meta, all, model, a, args), on)
  {
    DataQuieter(meta, on, all, model, a, TopData(a, args), None, []);
  }

  lemma {:induction false} HeardAreHeard(events: seq<Event>, on: set<Callback>, e: Event)
    ensures e in Heard(events, on) <==> e in events && e.callback in on
  {
    if events == [] {
    } else {
      HeardAreHeard(events[1..], on, e);
    }
  }

  // ----- the visitor -----

  /** The visitor with its callbacks, seen through the calls they receive. */
  class Visitor {
    const meta: ModelMeta
    const on: set<Callback>
    var events: seq<Event>

    constructor (meta: ModelMeta, on: set<Callback>)
      ensures this.meta == meta && this.on == on && events == []
    {
      this.meta, this.on, events := meta, on, [];
    }

    method VisitAll(model: string, a: Action, args: Json) returns (threw: bool)
      modifies this
      ensures Visit(events, threw) == Visit(old(events), false).Then(VisitMutation(meta, on, model, a, args))
    {
      threw := false;
      if args.Truthy() {
        threw := DoVisit(model, a, TopData(a, args), None, []);
      }
    }

    method DoVisit(model: string, a: Action, data: Json, field: Option<FieldInfo>, path: seq<PathItem>)
      returns (threw: bool)
      modifies this
      ensures Visit(events, threw) == Visit(old(events), false).Then(VisitData(meta, on, model, a, data, field, path))
      decreases Size(data), 5, 0
    {
      threw := false;
      if !data.Truthy() || (IsLeaf(a) && CallbackOf(a) !in on) {
        return;
      }
      if data.Arr? && !a.CreateMany? && !a.CreateManyAndReturn? {
        var items := data.items;
        ghost var start := Visit(events, false);
        var i := |items|;
        assert items[..i] == items;
        while i > 0
          invariant 0 <= i <= |items|
          invariant start.Then(VisitItems(meta, on, model, a, items, field, path))
                 == Visit(events, false).Then(VisitItems(meta, on, model, a, items[..i], field, path))
        {
          i := i - 1;
          ghost var before := Visit(events, false);
          assert items[..i + 1][..i] == items[..i];
          ItemIsSmaller(items, items[i]);
          threw := VisitOne(model, a, items[i], field, path);
          ThenAssociates(before, VisitItem(meta, on, model, a, items[i], field, path),
                         VisitItems(meta, on, model, a, items[..i], field, path));
          if threw {
            return;
          }
        }
      } else {
        threw := VisitOne(model, a, data, field, path);
      }
    }

    method VisitOne(model: string, a: Action, item: Json, field: Option<FieldInfo>, path: seq<PathItem>)
      returns (threw: bool)
      modifies this
      ensures Visit(events, threw) == Visit(old(events), false).Then(VisitItem(meta, on, model, a, item, field, path))
      decreases Size(item), 3, 0
    {
      var where_ := WhereOf(a, item, field.None?);
      if where_.None? {
        ItemThrows(meta, on, model, a, item, field, path, Visit(events, false));
        return true;
      }
      var path' := path + [PathItem(field, model, where_.value, UniqueOf(a, item))];
      ItemUnfolds(meta, on, model, a, item, field, path, Visit(events, false));
      assert CallbackOf(a) !in on ==> events + [] == events;
      if CallbackOf(a) in on {
        events := events + [Event(CallbackOf(a), model, item, path')];
      }
      PayloadSizes(a, item);
      threw := VisitSubPayload(model, FirstPayload(a, item), path');
      if !threw {
        threw := VisitSubPayload(model, SecondPayload(a, item), path');
      }
    }

    method VisitSubPayload(model: string, payload: Json, path: seq<PathItem>) returns (threw: bool)
      modifies this
      ensures Visit(events, threw) == Visit(old(events), false).Then(VisitPayload(meta, on, model, payload, path))
      decreases Size(payload), 2, 0
    {
      threw := false;
      match payload {
        case Arr(items) =>
          ghost var start := Visit(events, false);
          var i := 0;
          while i < |items|
            invariant 0 <= i <= |items|
            invariant start.Then(VisitPayloads(meta, on, model, items, path))
                   == Visit(events, false).Then(VisitPayloads(meta, on, model, items[i..], path))
          {
            ghost var before := Visit(events, false);
            assert items[i..][1..] == items[i + 1..];
            if items[i].Obj? {
              ItemIsSmaller(items, items[i]);
              ThenAssociates(before, VisitFields(meta, on, model, items[i].fields, path),
                             VisitPayloads(meta, on, model, items[i + 1..], path));
              assert Size(items[i]) == 1 + SizeProps(items[i].fields);
              threw := VisitObject(model, items[i].fields, path);
              if threw {
                return;
              }
            }
            i := i + 1;
          }
        case Obj(fields) => threw := VisitObject(model, fields, path);
        case _ =>
      }
    }

    method VisitObject(model: string, fields: seq<Prop>, path: seq<PathItem>) returns (threw: bool)
      modifies this
      ensures Visit(events, threw) == Visit(old(events), false).Then(VisitFields(meta, on, model, fields, path))
      decreases SizeProps(fields), 7, 0
    {
      threw := false;
      ghost var start := Visit(events, false);
      var i := 0;
      while i < |fields|
        invariant 0 <= i <= |fields|
        invariant start.Then(VisitFields(meta, on, model, fields, path))
               == Visit(events, false).Then(VisitFields(meta, on, model, fields[i..], path))
      {
        ghost var before := Visit(events, false);
        assert fields[i..][1..] == fields[i + 1..];
        var f, val := ResolveField(meta, model, fields[i].key), fields[i].val;
        if f.Some? && f.value.isDataModel && val.Obj? {
          PropIsSmaller(fields, fields[i]);
          assert Size(val) == 1 + SizeProps(val.fields);
          ThenAssociates(before, VisitActions(meta, on, f.value, val.fields, path),
                         VisitFields(meta, on, model, fields[i + 1..], path));
          threw := VisitWrites(f.value, val.fields, path);
          if threw {
            return;
          }
        }
        i := i + 1;
      }
    }

    method VisitWrites(field: FieldInfo, writes: seq<Prop>, path: seq<PathItem>) returns (threw: bool)
      modifies this
      ensures Visit(events, threw) == Visit(old(events), false).Then(VisitActions(meta, on, field, writes, path))
      decreases SizeProps(writes), 6, 0
    {
      threw := false;
      ghost var start := Visit(events, false);
      var i := 0;
      while i < |writes|
        invariant 0 <= i <= |writes|
        invariant start.Then(VisitActions(meta, on, field, writes, path))
               == Visit(events, false).Then(VisitActions(meta, on, field, writes[i..], path))
      {
        ghost var before := Visit(events, false);
        assert writes[i..][1..] == writes[i + 1..];
        var a := ActionOf(writes[i].key);
        if a.Some? {
          PropIsSmaller(writes, writes[i]);
          ThenAssociates(before, VisitData(meta, on, field.type_, a.value, writes[i].val, Some(field), path),
                         VisitActions(meta, on, field, writes[i + 1..], path));
          threw := DoVisit(field.type_, a.value, writes[i].val, Some(field), path);
          if threw {
            return;
          }
        }
        i := i + 1;
      }
    }
  }

  lemma ItemThrows(
      meta: ModelMeta, on: set<Callback>, model: string, a: Action, item: Json,
      field: Option<FieldInfo>, path: seq<PathItem>, start: Visit)
    requires WhereOf(a, item, field.None?).None? && !start.threw
    ensures start.Then(VisitItem(meta, on, model, a, item, field, path)) == Visit(start.events, true)
  {
    assert start.events + [] == start.events;
  }

  lemma ItemUnfolds(
      meta: ModelMeta, on: set<Callback>, model: string, a: Action, item: Json,
      field: Option<FieldInfo>, path: seq<PathItem>, start: Visit)
    requires WhereOf(a, item, field.None?).Some?
    ensures var path' := path + [PathItem(field, model, WhereOf(a, item, field.None?).value, UniqueOf(a, item))];
      var call := Visit(if CallbackOf(a) in on then [Event(CallbackOf(a), model, item, path')] else [], false);
      start.Then(VisitItem(meta, on, model, a, item, field, path))
      == start.Then(call).Then(VisitPayload(meta, on, model, FirstPayload(a, item), path'))
              .Then(VisitPayload(meta, on, model, SecondPayload(a, item), path'))
  {
    var path' := path + [PathItem(field, model, WhereOf(a, item, field.None?).value, UniqueOf(a, item))];
    var call := Visit(if CallbackOf(a) in on then [Event(CallbackOf(a), model, item, path')] else [], false);
    var first := VisitPayload(meta, on, model, FirstPayload(a, item), path');
    var second := VisitPayload(meta, on, model, SecondPayload(a, item), path');
    ThenAssociates(start, call.Then(first), second);
    ThenAssociates(start, call, first);
  }

  lemma ThenAssociates(x: Visit, y: Visit, z: Visit)
    ensures x.Then(y).Then(z) == x.Then(y.Then(z))
  {
    assert (x.events + y.events) + z.events == x.events + (y.events + z.events);
  }
}
