/**
 * Applying a mutation to a cached query result before the server answers: what the result is. Nothing is a result of
 * its own, for it tells the client to leave its cache alone.
 */
module Mutator {
  import opened Optional
  import opened Json
  import opened ModelMeta
  import opened NestedWriteVisitor

  /**
   * What the computation takes from outside: the time, an id for the n-th record of a list, and `parseInt` of strings.
   */
  datatype Env = Env(now: Json, uuid: (nat, Json) -> string, parse: string -> Option<int>)

  /** The callbacks with which the mutator walks the payload. */
  const MUTATOR_CALLBACKS: set<Callback> := {OnCreate, OnCreateMany, OnUpdate, OnUpsert, OnDelete}

  predicate Container(j: Json) {
    j.Obj? || j.Arr?
  }

  /** Marked as written optimistically. */
  predicate Marked(j: Json) {
    Member(j, OPTIMISTIC).Truthy()
  }

  // ----- the mutations of one result -----

  predicate IdFieldsMatch(meta: ModelMeta, model: string, x: Json, y: Json) {
    var ids := IdNames(meta, model);
    x.Obj? && Container(y) && ids != [] && forall f | f in ids :: StrictEqual(Member(x, f), Member(y, f))
  }

  // Records are cloned and then assigned to, field by field; these are the assignments, in order.

  function PairAssignments(pairs: seq<KeyPair>, connect: Json): seq<Prop> {
    if pairs == [] then []
    else
      (if HasMember(connect, pairs[0].id) then [Prop(pairs[0].fk, Member(connect, pairs[0].id))] else [])
      + PairAssignments(pairs[1..], connect)
  }

  /** `assignForeignKeyFields` */
  function ForeignKeys(f: FieldInfo, data: Json): seq<Prop> {
    var connect := Member(data, "connect");
    if !connect.Truthy() || f.foreignKeyMapping.None? then [] else PairAssignments(f.foreignKeyMapping.value, connect)
  }

  function PutAll(target: seq<Prop>, ps: seq<Prop>): seq<Prop>
    decreases |ps|
  {
    if ps == [] then target else PutAll(Put(target, ps[0].key, ps[0].val), ps[1..])
  }

  function FieldAssignments(env: Env, f: FieldInfo, newData: Json): seq<Prop> {
    if f.isDataModel && Member(newData, f.name).Truthy() then ForeignKeys(f, Member(newData, f.name))
    else if HasMember(newData, f.name) then [Prop(f.name, Member(newData, f.name))]
    else if f.type_ == "DateTime" then
      if f.defaultValue.Some? || f.isUpdatedAt then [Prop(f.name, env.now)] else []
    else if f.defaultValue.Some? && !f.defaultValue.value.Undefined? then [Prop(f.name, f.defaultValue.value)]
    else []
  }

  function InsertAssignments(env: Env, fields: seq<FieldInfo>, newData: Json): seq<Prop> {
    if fields == [] then []
    else FieldAssignments(env, fields[0], newData) + InsertAssignments(env, fields[1..], newData)
  }

  /** `parseInt`, with 0 for what is not a number. */
  function IntOf(env: Env, j: Json): int {
    match j
    case Num(n) => n
    case Str(s) => (match env.parse(s) case Some(n) => n case None => 0)
    case _ => 0
  }

  function CurrMax(env: Env, items: seq<Json>, name: string): Json {
    if items == [] then NegInfinity
    else
      var n, rest := IntOf(env, Member(items[0], name)), CurrMax(env, items[1..], name);
      if rest.Num? && rest.n > n then rest else Num(n)
  }

  /** The largest id of the list, for each id field. */
  function Maxes(env: Env, meta: ModelMeta, model: string, items: seq<Json>): map<string, Json> {
    map f | f in IdNames(meta, model) :: CurrMax(env, items, f)
  }

  function TempId(env: Env, type_: string, max: Json, count: nat, newData: Json): Json {
    if type_ == "Int" || type_ == "BigInt" then (if max.Num? then Num(max.n + 1) else NegInfinity)
    else Str(env.uuid(count, newData))
  }

  function InsertIds(
      env: Env, meta: ModelMeta, model: string, ids: seq<string>, insert: seq<Prop>,
      maxes: map<string, Json>, count: nat, newData: Json): seq<Prop>
    requires forall f | f in ids :: f in maxes
    decreases |ids|
  {
    if ids == [] then insert
    else
      var f := ResolveField(meta, model, ids[0]);
      InsertIds(env, meta, model, ids[1..],
        if f.Some? && Get(insert, ids[0]).Undefined?
        then Put(insert, ids[0], TempId(env, f.value.type_, maxes[ids[0]], count, newData)) else insert,
        maxes, count, newData)
  }

  /** The record that a create inserts, given the largest ids and the length of the list. */
  function NewRecordFields(
      env: Env, meta: ModelMeta, model: string, maxes: map<string, Json>, count: nat, newData: Json): seq<Prop>
    requires model in meta.models && forall f | f in IdNames(meta, model) :: f in maxes
  {
    var insert := PutAll([], InsertAssignments(env, meta.models[model].fields, newData));
    Put(InsertIds(env, meta, model, IdNames(meta, model), insert, maxes, count, newData), OPTIMISTIC, Bool(true))
  }

  function NewRecord(env: Env, meta: ModelMeta, model: string, current: seq<Json>, newData: Json): Json
    requires model in meta.models
  {
    Obj(NewRecordFields(env, meta, model, Maxes(env, meta, model, current), |current|, newData))
  }

  function CreateMutate(
      env: Env, meta: ModelMeta, model: string, current: seq<Json>, newData: Json): Option<seq<Json>>
  {
    if !newData.Truthy() || model !in meta.models then None
    else Some([NewRecord(env, meta, model, current, newData)] + current)
  }

  function CreateEach(env: Env, meta: ModelMeta, model: string, current: seq<Json>, rows: seq<Json>): (seq<Json>, bool)
    decreases |rows|
  {
    if rows == [] then (current, false)
    else
      match CreateMutate(env, meta, model, current, rows[0])
      case None => CreateEach(env, meta, model, current, rows[1..])
      case Some(next) => (CreateEach(env, meta, model, next, rows[1..]).0, true)
  }

  /** `enumerate` */
  function Enumerate(j: Json): seq<Json> {
    if j.Nullish() then [] else if j.Arr? then j.items else [j]
  }

  predicate Changes(meta: ModelMeta, model: string, p: Prop) {
    var f := ResolveField(meta, model, p.key);
    f.Some? && (f.value.isDataModel ==> Member(p.val, "connect").Truthy())
  }

  function ChangeAssignments(meta: ModelMeta, model: string, changes: seq<Prop>): seq<Prop> {
    if changes == [] then []
    else if !Changes(meta, model, changes[0]) then ChangeAssignments(meta, model, changes[1..])
    else
      var f := ResolveField(meta, model, changes[0].key).value;
      (if f.isDataModel then ForeignKeys(f, changes[0].val) else [changes[0]])
      + [Prop(OPTIMISTIC, Bool(true))]
      + ChangeAssignments(meta, model, changes[1..])
  }

  /** The assignments of an update, none when it does not apply. */
  function UpdateAssignments(meta: ModelMeta, model: string, data: Json, where_: Json, change: Json): seq<Prop> {
    if !IdFieldsMatch(meta, model, data, where_) || !change.Obj? || model !in meta.models then []
    else ChangeAssignments(meta, model, change.fields)
  }

  function UpdateMutate(meta: ModelMeta, model: string, data: Json, where_: Json, change: Json): Option<Json> {
    var ps := UpdateAssignments(meta, model, data, where_, change);
    if ps == [] then None else Some(Obj(PutAll(data.fields, ps)))
  }

  function FindMatch(meta: ModelMeta, model: string, items: seq<Json>, where_: Json): (i: nat)
    ensures i <= |items|
    ensures i < |items| ==> IdFieldsMatch(meta, model, items[i], where_)
    ensures forall j | 0 <= j < i :: !IdFieldsMatch(meta, model, items[j], where_)
  {
    if items == [] || IdFieldsMatch(meta, model, items[0], where_) then 0
    else 1 + FindMatch(meta, model, items[1..], where_)
  }

  /** Change the first record with the id, or create one. */
  function UpsertList(
      env: Env, meta: ModelMeta, model: string, items: seq<Json>, where_: Json, create: Json,
      update: Json): Option<seq<Json>>
  {
    var i := FindMatch(meta, model, items, where_);
    if i < |items| then
      var r := UpdateMutate(meta, model, items[i], where_, update);
      if r.Some? then Some(items[i := r.value]) else None
    else CreateMutate(env, meta, model, items, create)
  }

  function UpsertMutate(
      env: Env, meta: ModelMeta, model: string, data: Json, where_: Json, create: Json, update: Json): Option<Json>
  {
    if data.Arr? then
      var r := UpsertList(env, meta, model, data.items, where_, create, update);
      if r.Some? then Some(Arr(r.value)) else None
    else UpdateMutate(meta, model, data, where_, update)
  }

  function Unmatched(meta: ModelMeta, model: string, items: seq<Json>, where_: Json): seq<Json> {
    if items == [] then []
    else
      (if IdFieldsMatch(meta, model, items[0], where_) then [] else [items[0]])
      + Unmatched(meta, model, items[1..], where_)
  }

  /** A single deleted object would become null, which the caller takes for no change. */
  function DeleteMutate(meta: ModelMeta, model: string, data: Json, args: Json): Option<Json> {
    if data.Arr? && args.Truthy() && exists x | x in data.items :: IdFieldsMatch(meta, model, x, args)
    then Some(Arr(Unmatched(meta, model, data.items, args)))
    else None
  }

  function OnCreateCalled(env: Env, meta: ModelMeta, model: string, data: Json, args: Json): Option<Json> {
    if !data.Arr? then None
    else
      match CreateMutate(env, meta, model, data.items, args)
      case None => None
      case Some(items) => Some(Arr(items))
  }

  function OnCreateManyCalled(env: Env, meta: ModelMeta, model: string, data: Json, args: Json): Option<Json> {
    if !data.Arr? || !Member(args, "data").Truthy() then None
    else
      var (items, changed) := CreateEach(env, meta, model, data.items, Enumerate(Member(args, "data")));
      if changed then Some(Arr(items)) else None
  }

  function OnUpsertCalled(env: Env, meta: ModelMeta, model: string, data: Json, args: Json): Option<Json> {
    var where_, create, update := Member(args, "where"), Member(args, "create"), Member(args, "update");
    if where_.Truthy() && create.Truthy() && update.Truthy()
    then UpsertMutate(env, meta, model, data, where_, create, update) else None
  }

  /** One visitor callback on the result so far; None leaves it alone. */
  function ApplyEvent(env: Env, meta: ModelMeta, model: string, data: Json, e: Event): Option<Json> {
    if e.model != model then None
    else
      match e.callback
      case OnCreate => OnCreateCalled(env, meta, model, data, e.data)
      case OnCreateMany => OnCreateManyCalled(env, meta, model, data, e.data)
      case OnUpdate =>
        if data.Arr? then None else UpdateMutate(meta, model, data, Member(e.data, "where"), Member(e.data, "data"))
      case OnUpsert => OnUpsertCalled(env, meta, model, data, e.data)
      case OnDelete => DeleteMutate(meta, model, data, e.data)
      case _ => None
  }

  lemma UpsertCase(env: Env, meta: ModelMeta, model: string, x: Json, e: Event)
    requires e.callback.OnUpsert? && e.model == model
    ensures ApplyEvent(env, meta, model, x, e) == OnUpsertCalled(env, meta, model, x, e.data)
  {
  }

  function ApplyEvents(env: Env, meta: ModelMeta, model: string, data: Json, events: seq<Event>): (Json, bool)
    decreases |events|
  {
    if events == [] then (data, false)
    else
      match ApplyEvent(env, meta, model, data, events[0])
      case None => ApplyEvents(env, meta, model, data, events[1..])
      case Some(next) => (ApplyEvents(env, meta, model, next, events[1..]).0, true)
  }

  // ----- what callbacks leave alone -----

  /** A result keeps its shape; new list items are marked, and relation fields of a record stay. */
  ghost predicate Keeps(meta: ModelMeta, model: string, data: Json, r: Json) {
    if data.Arr? then r.Arr? && forall x | x in r.items :: x in data.items || Marked(x)
    else if data.Obj? then r.Obj? && forall p | p in r.fields :: p in data.fields || !IsRelation(meta, model, p.key)
    else r == data
  }

  ghost predicate KeepsRelations(meta: ModelMeta, model: string, fields: seq<Prop>, r: seq<Prop>) {
    forall p | p in r :: p in fields || !IsRelation(meta, model, p.key)
  }

  ghost predicate NoRelations(meta: ModelMeta, model: string, ps: seq<Prop>) {
    forall p | p in ps :: !IsRelation(meta, model, p.key)
  }

  lemma {:induction false} PutAllKeeps(meta: ModelMeta, model: string, target: seq<Prop>, ps: seq<Prop>)
    requires NoRelations(meta, model, ps)
    ensures KeepsRelations(meta, model, target, PutAll(target, ps))
    decreases |ps|
  {
    if ps == [] {
    } else {
      PutAllKeeps(meta, model, Put(target, ps[0].key, ps[0].val), ps[1..]);
    }
  }

  lemma {:induction false} PairsAssignKeys(pairs: seq<KeyPair>, connect: Json, p: Prop)
    requires p in PairAssignments(pairs, connect)
    ensures exists kp | kp in pairs :: kp.fk == p.key
  {
    if p !in PairAssignments(pairs[1..], connect) {
      assert pairs[0] in pairs && pairs[0].fk == p.key;
    } else {
      PairsAssignKeys(pairs[1..], connect, p);
    }
  }

  lemma ForeignKeysAreScalar(meta: ModelMeta, model: string, f: FieldInfo, data: Json)
    requires ValidField(meta, model, f)
    ensures NoRelations(meta, model, ForeignKeys(f, data))
  {
    forall p | p in ForeignKeys(f, data) ensures !IsRelation(meta, model, p.key) {
      PairsAssignKeys(f.foreignKeyMapping.value, Member(data, "connect"), p);
    }
  }

  lemma {:induction false} ChangesAreScalar(meta: ModelMeta, model: string, changes: seq<Prop>)
    requires ValidMeta(meta)
    ensures NoRelations(meta, model, ChangeAssignments(meta, model, changes))
  {
    if changes == [] {
    } else {
      ChangesAreScalar(meta, model, changes[1..]);
      if Changes(meta, model, changes[0]) {
        var f := ResolveField(meta, model, changes[0].key).value;
        assert ValidField(meta, model, f);
        ForeignKeysAreScalar(meta, model, f, changes[0].val);
      }
    }
  }

  /** The last assignment of an update is the mark. */
  lemma {:induction false} ChangesEndMarked(meta: ModelMeta, model: string, changes: seq<Prop>)
    ensures var ps := ChangeAssignments(meta, model, changes);
      ps != [] ==> ps[|ps| - 1] == Prop(OPTIMISTIC, Bool(true))
  {
    if changes == [] {
    } else {
      ChangesEndMarked(meta, model, changes[1..]);
    }
  }

  lemma {:induction false} LastPutStays(target: seq<Prop>, ps: seq<Prop>)
    requires ps != []
    ensures Get(PutAll(target, ps), ps[|ps| - 1].key) == ps[|ps| - 1].val
    decreases |ps|
  {
    if |ps| > 1 {
      LastPutStays(Put(target, ps[0].key, ps[0].val), ps[1..]);
    } else {
      assert ps[1..] == [];
    }
  }

  lemma ChangesKeep(meta: ModelMeta, model: string, fields: seq<Prop>, changes: seq<Prop>)
    requires ValidMeta(meta)
    ensures var ps := ChangeAssignments(meta, model, changes);
      ps != [] ==> KeepsRelations(meta, model, fields, PutAll(fields, ps)) && Marked(Obj(PutAll(fields, ps)))
  {
    var ps := ChangeAssignments(meta, model, changes);
    if ps != [] {
      ChangesAreScalar(meta, model, changes);
      ChangesEndMarked(meta, model, changes);
      PutAllKeeps(meta, model, fields, ps);
      LastPutStays(fields, ps);
    }
  }

  lemma UpdateKeeps(meta: ModelMeta, model: string, data: Json, where_: Json, change: Json)
    requires ValidMeta(meta)
    ensures var r := UpdateMutate(meta, model, data, where_, change);
      r.Some? ==> data.Obj? && Keeps(meta, model, data, r.value) && Marked(r.value)
  {
    if UpdateAssignments(meta, model, data, where_, change) != [] {
      ChangesKeep(meta, model, data.fields, change.fields);
    }
  }

  lemma {:induction false} CreateEachKeeps(
      env: Env, meta: ModelMeta, model: string, current: seq<Json>, rows: seq<Json>)
    ensures forall x | x in CreateEach(env, meta, model, current, rows).0 :: x in current || Marked(x)
    decreases |rows|
  {
    if rows == [] {
    } else {
      match CreateMutate(env, meta, model, current, rows[0]) {
        case None => CreateEachKeeps(env, meta, model, current, rows[1..]);
        case Some(next) => CreateEachKeeps(env, meta, model, next, rows[1..]);
      }
    }
  }

  lemma {:induction false} UnmatchedAre(meta: ModelMeta, model: string, items: seq<Json>, where_: Json, x: Json)
    ensures x in Unmatched(meta, model, items, where_) <==> x in items && !IdFieldsMatch(meta, model, x, where_)
  {
    if items == [] {
    } else {
      UnmatchedAre(meta, model, items[1..], where_, x);
    }
  }

  lemma EventKeeps(env: Env, meta: ModelMeta, model: string, data: Json, e: Event)
    requires ValidMeta(meta)
    ensures var r := ApplyEvent(env, meta, model, data, e); r.Some? ==> Keeps(meta, model, data, r.value)
  {
    match e.callback {
      case OnCreateMany =>
        if data.Arr? { CreateEachKeeps(env, meta, model, data.items, Enumerate(Member(e.data, "data"))); }
      case OnUpdate => UpdateKeeps(meta, model, data, Member(e.data, "where"), Member(e.data, "data"));
      case OnUpsert =>
        var where_, update := Member(e.data, "where"), Member(e.data, "update");
        UpdateKeeps(meta, model, data, where_, update);
        if data.Arr? {
          var i := FindMatch(meta, model, data.items, where_);
          if i < |data.items| { UpdateKeeps(meta, model, data.items[i], where_, update); }
        }
      case OnDelete =>
        if data.Arr? {
          forall x | x in Unmatched(meta, model, data.items, e.data) ensures x in data.items {
            UnmatchedAre(meta, model, data.items, e.data, x);
          }
        }
      case _ =>
    }
  }

  lemma {:induction false} EventsKeep(env: Env, meta: ModelMeta, model: string, data: Json, events: seq<Event>)
    requires ValidMeta(meta)
    ensures Keeps(meta, model, data, ApplyEvents(env, meta, model, data, events).0)
    decreases |events|
  {
    if events == [] {
    } else {
      EventKeeps(env, meta, model, data, events[0]);
      match ApplyEvent(env, meta, model, data, events[0]) {
        case None => EventsKeep(env, meta, model, data, events[1..]);
        case Some(next) => EventsKeep(env, meta, model, next, events[1..]);
      }
    }
  }

  // ----- the result and everything below it -----

  /** Items that the recursion passes over. */
  predicate Skipped(x: Json) {
    !Container(x) || Marked(x)
  }

  ghost predicate ItemsWithin(items: seq<Json>, bound: nat) {
    forall x | x in items :: Skipped(x) || Size(x) < bound
  }

  ghost predicate FieldsWithin(meta: ModelMeta, model: string, fields: seq<Prop>, bound: nat) {
    forall p | p in fields && IsRelation(meta, model, p.key) :: Size(p.val) < bound
  }

  lemma KeptIsWithin(meta: ModelMeta, model: string, data: Json, r: Json)
    requires Keeps(meta, model, data, r)
    ensures r.Arr? ==> ItemsWithin(r.items, Size(data))
    ensures r.Obj? ==> FieldsWithin(meta, model, r.fields, Size(data))
  {
    if data.Arr? {
      forall x | x in data.items ensures Size(x) < Size(data) {
        ItemIsSmaller(data.items, x);
      }
    } else if data.Obj? {
      forall p | p in data.fields ensures Size(p.val) < Size(data) {
        PropIsSmaller(data.fields, p);
      }
    }
  }

  /** `doApplyMutation`; None is undefined: not applicable. */
  function DoApply(env: Env, meta: ModelMeta, model: string, data: Json, events: seq<Event>): Option<Json>
    requires ValidMeta(meta)
    decreases Size(data), 2, 0
  {
    var (r, updated) := ApplyEvents(env, meta, model, data, events);
    EventsKeep(env, meta, model, data, events);
    KeptIsWithin(meta, model, data, r);
    match r
    case Arr(items) =>
      var (items', below) := ApplyItems(env, meta, model, items, events, Size(data));
      if updated || below then Some(Arr(items')) else None
    case Obj(fields) =>
      var (fields', below) := ApplyFields(env, meta, model, fields, events, Size(data));
      if updated || below then Some(Obj(fields')) else None
    case _ => if updated then Some(r) else None
  }

  function ApplyItems(
      env: Env, meta: ModelMeta, model: string, items: seq<Json>, events: seq<Event>,
      ghost bound: nat): (r: (seq<Json>, bool))
    requires ValidMeta(meta) && ItemsWithin(items, bound)
    ensures |r.0| == |items|
    decreases bound, 1, |items|
  {
    if items == [] then ([], false)
    else
      var (rest, below) := ApplyItems(env, meta, model, items[1..], events, bound);
      if Skipped(items[0]) then ([items[0]] + rest, below)
      else
        match DoApply(env, meta, model, items[0], events)
        case None => ([items[0]] + rest, below)
        case Some(x) => ([x] + rest, true)
  }

  function ApplyFields(
      env: Env, meta: ModelMeta, model: string, fields: seq<Prop>, events: seq<Event>,
      ghost bound: nat): (r: (seq<Prop>, bool))
    requires ValidMeta(meta) && FieldsWithin(meta, model, fields, bound)
    ensures |r.0| == |fields|
    decreases bound, 1, |fields|
  {
    if fields == [] then ([], false)
    else
      var (rest, below) := ApplyFields(env, meta, model, fields[1..], events, bound);
      var p := fields[0];
      if !IsRelation(meta, model, p.key) then ([p] + rest, below)
      else
        match DoApply(env, meta, ResolveField(meta, model, p.key).value.type_, p.val, events)
        case None => ([p] + rest, below)
        case Some(x) => ([Prop(p.key, x)] + rest, true)
  }

  /** `applyMutation`, given the calls of the payload's visitor: only results of find operations change. */
  function ApplyMutation(
      env: Env, meta: ModelMeta, queryModel: string, queryOp: string, data: Json, events: seq<Event>): Option<Json>
    requires ValidMeta(meta)
  {
    if !Container(data) || !("find" <= queryOp) then None
    else DoApply(env, meta, queryModel, data, events)
  }
}
