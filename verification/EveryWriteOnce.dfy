/**
 * Every nested write of a payload is called back once, wherever it stands, if every callback is listened to. The places
 * that hold writes are defined apart from the walk.
 */
module EveryWriteOnce {
  import opened Optional
  import opened Json
  import opened ModelMeta
  import opened NestedWriteVisitor

  /** A step into a payload, and a call with the place of its data. */
  datatype Step = Key(name: string) | At(index: nat)

  datatype Placed = Placed(at: seq<Step>, event: Event)

  // ----- which places hold a write, in terms of the place alone -----

  function FirstAt(a: Action, item: Json): seq<Step> {
    match a
    case CreateMany | CreateManyAndReturn => [Key("data")]
    case ConnectOrCreate | Upsert => [Key("create")]
    case Update => if Member(item, "data").IsObject() then [Key("data")] else []
    case _ => []
  }

  const SECOND_AT := [Key("update")]

  /** `data` is the value of action `a` on `model`: the writes are its items, or itself, and those in their payloads. */
  predicate IsWrite(meta: ModelMeta, model: string, a: Action, data: Json, loc: seq<Step>)
    decreases |loc|, 3
  {
    data.Truthy() &&
    if data.Arr? && !a.CreateMany? && !a.CreateManyAndReturn? then
      loc != [] && loc[0].At? && loc[0].index < |data.items|
      && IsWriteIn(meta, model, a, data.items[loc[0].index], loc[1..])
    else IsWriteIn(meta, model, a, data, loc)
  }

  predicate IsWriteIn(meta: ModelMeta, model: string, a: Action, item: Json, loc: seq<Step>)
    decreases |loc|, 2
  {
    || loc == []
    || (FirstAt(a, item) <= loc && InPayload(meta, model, FirstPayload(a, item), loc[|FirstAt(a, item)|..]))
    || (SECOND_AT <= loc && InPayload(meta, model, SecondPayload(a, item), loc[1..]))
  }

  predicate InPayload(meta: ModelMeta, model: string, payload: Json, loc: seq<Step>)
    decreases |loc|, 1
  {
    match payload
    case Arr(items) =>
      loc != [] && loc[0].At? && loc[0].index < |items| && items[loc[0].index].Obj?
      && InFields(meta, model, items[loc[0].index].fields, loc[1..])
    case Obj(fields) => InFields(meta, model, fields, loc)
    case _ => false
  }

  /** Under a relation field and the name of an action. */
  predicate InFields(meta: ModelMeta, model: string, fields: seq<Prop>, loc: seq<Step>)
    decreases |loc|, 0
  {
    loc != [] && loc[0].Key? && IsRelation(meta, model, loc[0].name) && Get(fields, loc[0].name).Obj?
    && InActions(meta, ResolveField(meta, model, loc[0].name).value, Get(fields, loc[0].name).fields, loc[1..])
  }

  predicate InActions(meta: ModelMeta, field: FieldInfo, writes: seq<Prop>, loc: seq<Step>)
    decreases |loc|, 4
  {
    loc != [] && loc[0].Key? && ActionOf(loc[0].name).Some? && Has(writes, loc[0].name)
    && IsWrite(meta, field.type_, ActionOf(loc[0].name).value, Get(writes, loc[0].name), loc[1..])
  }

  /** The value at a place. */
  function Lookup(j: Json, loc: seq<Step>): Option<Json>
    decreases |loc|
  {
    if loc == [] then Some(j)
    else
      match loc[0]
      case Key(k) => if HasMember(j, k) then Lookup(Member(j, k), loc[1..]) else None
      case At(i) => if j.Arr? && i < |j.items| then Lookup(j.items[i], loc[1..]) else None
  }

  /** No object has a key twice. */
  predicate Clean(j: Json) {
    match j
    case Arr(items) => forall i | 0 <= i < |items| :: Clean(items[i])
    case Obj(fields) => DistinctKeys(fields) && forall i | 0 <= i < |fields| :: CleanProp(fields[i])
    case _ => true
  }

  predicate CleanProp(p: Prop) {
    Clean(p.val)
  }

  // ----- the walk with places -----

  function Shift(pre: seq<Step>, calls: seq<Placed>): seq<Placed> {
    if calls == [] then [] else [Placed(pre + calls[0].at, calls[0].event)] + Shift(pre, calls[1..])
  }

  function EventsOf(calls: seq<Placed>): seq<Event> {
    if calls == [] then [] else [calls[0].event] + EventsOf(calls[1..])
  }

  function Count(calls: seq<Placed>, loc: seq<Step>): nat {
    if calls == [] then 0 else (if calls[0].at == loc then 1 else 0) + Count(calls[1..], loc)
  }

  function PlaceData(
      meta: ModelMeta, model: string, a: Action, data: Json, field: Option<FieldInfo>, path: seq<PathItem>): seq<Placed>
    decreases Size(data), 5, 0
  {
    if !data.Truthy() then []
    else if data.Arr? && !a.CreateMany? && !a.CreateManyAndReturn? then
      PlaceItems(meta, model, a, data.items, field, path)
    else PlaceItem(meta, model, a, data, field, path)
  }

  function PlaceItems(
      meta: ModelMeta, model: string, a: Action, items: seq<Json>, field: Option<FieldInfo>,
      path: seq<PathItem>): seq<Placed>
    decreases SizeAll(items), 4, |items|
  {
    if items == [] then []
    else
      SizeOfLast(items);
      var n := |items| - 1;
      Shift([At(n)], PlaceItem(meta, model, a, items[n], field, path))
      + PlaceItems(meta, model, a, items[..n], field, path)
  }

  function ItemPath(a: Action, model: string, item: Json, field: Option<FieldInfo>, path: seq<PathItem>): seq<PathItem>
    requires WhereOf(a, item, field.None?).Some?
  {
    path + [PathItem(field, model, WhereOf(a, item, field.None?).value, UniqueOf(a, item))]
  }

  function PlaceItem(
      meta: ModelMeta, model: string, a: Action, item: Json, field: Option<FieldInfo>, path: seq<PathItem>): seq<Placed>
    decreases Size(item), 3, 0
  {
    if WhereOf(a, item, field.None?).None? then []
    else
      var path' := ItemPath(a, model, item, field, path);
      PayloadSizes(a, item);
      [Placed([], Event(CallbackOf(a), model, item, path'))]
      + Shift(FirstAt(a, item), PlacePayload(meta, model, FirstPayload(a, item), path'))
      + Shift(SECOND_AT, PlacePayload(meta, model, SecondPayload(a, item), path'))
  }

  function PlacePayload(meta: ModelMeta, model: string, payload: Json, path: seq<PathItem>): seq<Placed>
    decreases Size(payload), 2, 0
  {
    match payload
    case Arr(items) => PlacePayloads(meta, model, items, 0, path)
    case Obj(fields) => PlaceFields(meta, model, fields, path)
    case _ => []
  }

  /** The first item stands at place `n` of the payload. */
  function PlacePayloads(meta: ModelMeta, model: string, items: seq<Json>, n: nat, path: seq<PathItem>): seq<Placed>
    decreases SizeAll(items), 1, |items|
  {
    if items == [] then []
    else
      assert items[0].Obj? ==> Size(items[0]) == 1 + SizeProps(items[0].fields);
      (if items[0].Obj? then Shift([At(n)], PlaceFields(meta, model, items[0].fields, path)) else [])
      + PlacePayloads(meta, model, items[1..], n + 1, path)
  }

  function PlaceFields(meta: ModelMeta, model: string, fields: seq<Prop>, path: seq<PathItem>): seq<Placed>
    decreases SizeProps(fields), 7, |fields|
  {
    if fields == [] then []
    else
      var f, val := ResolveField(meta, model, fields[0].key), fields[0].val;
      assert val.Obj? ==> Size(val) == 1 + SizeProps(val.fields);
      (if f.Some? && f.value.isDataModel && val.Obj?
       then Shift([Key(fields[0].key)], PlaceActions(meta, f.value, val.fields, path)) else [])
      + PlaceFields(meta, model, fields[1..], path)
  }

  function PlaceActions(meta: ModelMeta, field: FieldInfo, writes: seq<Prop>, path: seq<PathItem>): seq<Placed>
    decreases SizeProps(writes), 6, |writes|
  {
    if writes == [] then []
    else
      var a := ActionOf(writes[0].key);
      (if a.Some?
       then Shift([Key(writes[0].key)], PlaceData(meta, field.type_, a.value, writes[0].val, Some(field), path))
       else [])
      + PlaceActions(meta, field, writes[1..], path)
  }

  // ----- shifting and joining -----

  lemma {:induction false} CountJoin(x: seq<Placed>, y: seq<Placed>, loc: seq<Step>)
    ensures Count(x + y, loc) == Count(x, loc) + Count(y, loc)
  {
    if x == [] {
      assert x + y == y;
    } else {
      assert (x + y)[1..] == x[1..] + y;
      CountJoin(x[1..], y, loc);
    }
  }

  lemma {:induction false} EventsJoin(x: seq<Placed>, y: seq<Placed>)
    ensures EventsOf(x + y) == EventsOf(x) + EventsOf(y)
  {
    if x == [] {
      assert x + y == y;
    } else {
      assert (x + y)[1..] == x[1..] + y;
      EventsJoin(x[1..], y);
    }
  }

  lemma {:induction false} CountShifted(pre: seq<Step>, calls: seq<Placed>, loc: seq<Step>)
    ensures Count(Shift(pre, calls), loc) == if pre <= loc then Count(calls, loc[|pre|..]) else 0
  {
    if calls == [] {
    } else {
      CountShifted(pre, calls[1..], loc);
      var at := calls[0].at;
      assert pre <= pre + at && (pre + at)[|pre|..] == at;
      assert pre <= loc ==> loc == pre + loc[|pre|..];
      assert Shift(pre, calls)[1..] == Shift(pre, calls[1..]);
    }
  }

  /** Below one step, the calls are those for places that begin with it. */
  lemma CountBelow(step: Step, calls: seq<Placed>, loc: seq<Step>)
    ensures Count(Shift([step], calls), loc) == if loc != [] && loc[0] == step then Count(calls, loc[1..]) else 0
  {
    CountShifted([step], calls, loc);
    assert [step] <= loc <==> loc != [] && loc[0] == step;
  }

  lemma {:induction false} EventsShifted(pre: seq<Step>, calls: seq<Placed>)
    ensures EventsOf(Shift(pre, calls)) == EventsOf(calls)
  {
    if calls == [] {
    } else {
      EventsShifted(pre, calls[1..]);
      assert Shift(pre, calls)[1..] == Shift(pre, calls[1..]);
    }
  }

  // ----- forgetting the places gives the visitor's calls -----

  /** A walk makes the calls of the walk with places, and if it throws, the first of them. */
  ghost predicate Same(v: Visit, calls: seq<Placed>) {
    v.events <= EventsOf(calls) && (!v.threw ==> v.events == EventsOf(calls))
  }

  lemma SameThen(v: Visit, w: Visit, x: seq<Placed>, y: seq<Placed>)
    requires Same(v, x) && Same(w, y)
    ensures Same(v.Then(w), x + y)
  {
    EventsJoin(x, y);
  }

  lemma SameShifted(v: Visit, pre: seq<Step>, x: seq<Placed>)
    requires Same(v, x)
    ensures Same(v, Shift(pre, x))
  {
    EventsShifted(pre, x);
  }

  lemma {:induction false} DataSame(
      meta: ModelMeta, model: string, a: Action, data: Json, field: Option<FieldInfo>, path: seq<PathItem>)
    ensures Same(VisitData(meta, ALL_CALLBACKS, model, a, data, field, path),
                 PlaceData(meta, model, a, data, field, path))
    decreases Size(data), 5, 0
  {
    assert CallbackOf(a) in ALL_CALLBACKS;
    if data.Truthy() {
      if data.Arr? && !a.CreateMany? && !a.CreateManyAndReturn? {
        ItemsSame(meta, model, a, data.items, field, path);
      } else {
        ItemSame(meta, model, a, data, field, path);
      }
    }
  }

  lemma {:induction false} ItemsSame(
      meta: ModelMeta, model: string, a: Action, items: seq<Json>, field: Option<FieldInfo>, path: seq<PathItem>)
    ensures Same(VisitItems(meta, ALL_CALLBACKS, model, a, items, field, path),
                 PlaceItems(meta, model, a, items, field, path))
    decreases SizeAll(items), 4, |items|
  {
    if items == [] {
    } else {
      SizeOfLast(items);
      var n := |items| - 1;
      ItemSame(meta, model, a, items[n], field, path);
      ItemsSame(meta, model, a, items[..n], field, path);
      var v, x := VisitItem(meta, ALL_CALLBACKS, model, a, items[n], field, path),
                  PlaceItem(meta, model, a, items[n], field, path);
      SameShifted(v, [At(n)], x);
      SameThen(v, VisitItems(meta, ALL_CALLBACKS, model, a, items[..n], field, path),
               Shift([At(n)], x), PlaceItems(meta, model, a, items[..n], field, path));
    }
  }

  lemma {:induction false} ItemSame(
      meta: ModelMeta, model: string, a: Action, item: Json, field: Option<FieldInfo>, path: seq<PathItem>)
    ensures Same(VisitItem(meta, ALL_CALLBACKS, model, a, item, field, path),
                 PlaceItem(meta, model, a, item, field, path))
    decreases Size(item), 3, 0
  {
    if WhereOf(a, item, field.None?).Some? {
      var path' := ItemPath(a, model, item, field, path);
      PayloadSizes(a, item);
      PayloadSame(meta, model, FirstPayload(a, item), path');
      PayloadSame(meta, model, SecondPayload(a, item), path');
      var e := Event(CallbackOf(a), model, item, path');
      assert CallbackOf(a) in ALL_CALLBACKS;
      var v1, v2 := VisitPayload(meta, ALL_CALLBACKS, model, FirstPayload(a, item), path'),
                    VisitPayload(meta, ALL_CALLBACKS, model, SecondPayload(a, item), path');
      var x1, x2 := PlacePayload(meta, model, FirstPayload(a, item), path'),
                    PlacePayload(meta, model, SecondPayload(a, item), path');
      SameShifted(v1, FirstAt(a, item), x1);
      SameShifted(v2, SECOND_AT, x2);
      SameThen(Visit([e], false), v1, [Placed([], e)], Shift(FirstAt(a, item), x1));
      SameThen(Visit([e], false).Then(v1), v2, [Placed([], e)] + Shift(FirstAt(a, item), x1), Shift(SECOND_AT, x2));
    }
  }

  lemma {:induction false} PayloadSame(meta: ModelMeta, model: string, payload: Json, path: seq<PathItem>)
    ensures Same(VisitPayload(meta, ALL_CALLBACKS, model, payload, path), PlacePayload(meta, model, payload, path))
    decreases Size(payload), 2, 0
  {
    match payload {
      case Arr(items) => PayloadsSame(meta, model, items, 0, path);
      case Obj(fields) => FieldsSame(meta, model, fields, path);
      case _ =>
    }
  }

  lemma {:induction false} PayloadsSame(meta: ModelMeta, model: string, items: seq<Json>, n: nat, path: seq<PathItem>)
    ensures Same(VisitPayloads(meta, ALL_CALLBACKS, model, items, path), PlacePayloads(meta, model, items, n, path))
    decreases SizeAll(items), 1, |items|
  {
    if items == [] {
    } else {
      PayloadsSame(meta, model, items[1..], n + 1, path);
      var w, y := VisitPayloads(meta, ALL_CALLBACKS, model, items[1..], path),
                  PlacePayloads(meta, model, items[1..], n + 1, path);
      if items[0].Obj? {
        assert Size(items[0]) == 1 + SizeProps(items[0].fields);
        FieldsSame(meta, model, items[0].fields, path);
        var v, x := VisitFields(meta, ALL_CALLBACKS, model, items[0].fields, path),
                    PlaceFields(meta, model, items[0].fields, path);
        SameShifted(v, [At(n)], x);
        SameThen(v, w, Shift([At(n)], x), y);
      } else {
        SameThen(NOTHING, w, [], y);
      }
    }
  }

  lemma {:induction false} FieldsSame(meta: ModelMeta, model: string, fields: seq<Prop>, path: seq<PathItem>)
    ensures Same(VisitFields(meta, ALL_CALLBACKS, model, fields, path), PlaceFields(meta, model, fields, path))
    decreases SizeProps(fields), 7, |fields|
  {
    if fields == [] {
    } else {
      FieldsSame(meta, model, fields[1..], path);
      var f, val := ResolveField(meta, model, fields[0].key), fields[0].val;
      var w, y := VisitFields(meta, ALL_CALLBACKS, model, fields[1..], path),
                  PlaceFields(meta, model, fields[1..], path);
      if f.Some? && f.value.isDataModel && val.Obj? {
        assert Size(val) == 1 + SizeProps(val.fields);
        ActionsSame(meta, f.value, val.fields, path);
        var v, x := VisitActions(meta, ALL_CALLBACKS, f.value, val.fields, path),
                    PlaceActions(meta, f.value, val.fields, path);
        SameShifted(v, [Key(fields[0].key)], x);
        SameThen(v, w, Shift([Key(fields[0].key)], x), y);
      } else {
        SameThen(NOTHING, w, [], y);
      }
    }
  }

  lemma {:induction false} ActionsSame(meta: ModelMeta, field: FieldInfo, writes: seq<Prop>, path: seq<PathItem>)
    ensures Same(VisitActions(meta, ALL_CALLBACKS, field, writes, path), PlaceActions(meta, field, writes, path))
    decreases SizeProps(writes), 6, |writes|
  {
    if writes == [] {
    } else {
      ActionsSame(meta, field, writes[1..], path);
      var a, val := ActionOf(writes[0].key), writes[0].val;
      var w, y := VisitActions(meta, ALL_CALLBACKS, field, writes[1..], path),
                  PlaceActions(meta, field, writes[1..], path);
      if a.Some? {
        DataSame(meta, field.type_, a.value, val, Some(field), path);
        var v := VisitData(meta, ALL_CALLBACKS, field.type_, a.value, val, Some(field), path);
        var x := PlaceData(meta, field.type_, a.value, val, Some(field), path);
        SameShifted(v, [Key(writes[0].key)], x);
        SameThen(v, w, Shift([Key(writes[0].key)], x), y);
      } else {
        SameThen(NOTHING, w, [], y);
      }
    }
  }

  // ----- each place is called back as often as it should be -----

  function Once(b: bool): nat {
    if b then 1 else 0
  }

  /** One call for a place that holds a write and none for another; a walk that throws may not come to the write. */
  predicate Made(count: nat, write: bool, threw: bool) {
    count <= Once(write) && (!threw ==> count == Once(write))
  }

  lemma {:induction false} DataOnce(
      meta: ModelMeta, model: string, a: Action, data: Json, field: Option<FieldInfo>, path: seq<PathItem>,
      loc: seq<Step>)
    requires Clean(data)
    ensures Made(Count(PlaceData(meta, model, a, data, field, path), loc), IsWrite(meta, model, a, data, loc),
                 VisitData(meta, ALL_CALLBACKS, model, a, data, field, path).threw)
    decreases Size(data), 5, 0
  {
    assert CallbackOf(a) in ALL_CALLBACKS;
    if data.Truthy() {
      if data.Arr? && !a.CreateMany? && !a.CreateManyAndReturn? {
        ItemsOnce(meta, model, a, data.items, field, path, loc);
      } else {
        ItemOnce(meta, model, a, data, field, path, loc);
      }
    }
  }

  /** In one of the items. */
  predicate IsWriteOf(meta: ModelMeta, model: string, a: Action, items: seq<Json>, loc: seq<Step>) {
    loc != [] && loc[0].At? && loc[0].index < |items| && IsWriteIn(meta, model, a, items[loc[0].index], loc[1..])
  }

  lemma {:induction false} ItemsOnce(
      meta: ModelMeta, model: string, a: Action, items: seq<Json>, field: Option<FieldInfo>, path: seq<PathItem>,
      loc: seq<Step>)
    requires forall i | 0 <= i < |items| :: Clean(items[i])
    ensures Made(Count(PlaceItems(meta, model, a, items, field, path), loc), IsWriteOf(meta, model, a, items, loc),
                 VisitItems(meta, ALL_CALLBACKS, model, a, items, field, path).threw)
    decreases SizeAll(items), 4, |items|
  {
    if items == [] {
    } else {
      SizeOfLast(items);
      var n := |items| - 1;
      ItemsOnce(meta, model, a, items[..n], field, path, loc);
      LastOrEarlier(meta, model, a, items, loc);
      LastItemOnce(meta, model, a, items[n], n, field, path, loc);
      CountJoin(Shift([At(n)], PlaceItem(meta, model, a, items[n], field, path)),
                PlaceItems(meta, model, a, items[..n], field, path), loc);
    }
  }

  lemma LastOrEarlier(meta: ModelMeta, model: string, a: Action, items: seq<Json>, loc: seq<Step>)
    requires items != []
    ensures var n := |items| - 1;
      && IsWriteOf(meta, model, a, items, loc)
         == (if loc != [] && loc[0] == At(n) then IsWriteIn(meta, model, a, items[n], loc[1..])
             else IsWriteOf(meta, model, a, items[..n], loc))
      && (loc != [] && loc[0] == At(n) ==> !IsWriteOf(meta, model, a, items[..n], loc))
  {
  }

  lemma {:induction false} LastItemOnce(
      meta: ModelMeta, model: string, a: Action, item: Json, n: nat,
      field: Option<FieldInfo>, path: seq<PathItem>, loc: seq<Step>)
    requires Clean(item)
    ensures Made(Count(Shift([At(n)], PlaceItem(meta, model, a, item, field, path)), loc),
                 loc != [] && loc[0] == At(n) && IsWriteIn(meta, model, a, item, loc[1..]),
                 VisitItem(meta, ALL_CALLBACKS, model, a, item, field, path).threw)
    decreases Size(item), 3, 1
  {
    CountBelow(At(n), PlaceItem(meta, model, a, item, field, path), loc);
    if loc != [] && loc[0] == At(n) {
      ItemOnce(meta, model, a, item, field, path, loc[1..]);
    }
  }

  lemma ThreeParts(e: Event, pre: seq<Step>, x: seq<Placed>, y: seq<Placed>, loc: seq<Step>)
    ensures Count([Placed([], e)] + Shift(pre, x) + Shift(SECOND_AT, y), loc)
         == Once(loc == []) + (if pre <= loc then Count(x, loc[|pre|..]) else 0)
            + (if SECOND_AT <= loc then Count(y, loc[1..]) else 0)
  {
    var head := [Placed([], e)];
    CountJoin(head + Shift(pre, x), Shift(SECOND_AT, y), loc);
    CountJoin(head, Shift(pre, x), loc);
    CountShifted(pre, x, loc);
    CountShifted(SECOND_AT, y, loc);
    assert head[1..] == [];
  }

  lemma {:induction false} ItemOnce(
      meta: ModelMeta, model: string, a: Action, item: Json, field: Option<FieldInfo>, path: seq<PathItem>,
      loc: seq<Step>)
    requires Clean(item)
    ensures Made(Count(PlaceItem(meta, model, a, item, field, path), loc), IsWriteIn(meta, model, a, item, loc),
                 VisitItem(meta, ALL_CALLBACKS, model, a, item, field, path).threw)
    decreases Size(item), 3, 0
  {
    if WhereOf(a, item, field.None?).Some? {
      var path' := ItemPath(a, model, item, field, path);
      PayloadSizes(a, item);
      PayloadsAreClean(a, item);
      var pre, f, s := FirstAt(a, item), FirstPayload(a, item), SecondPayload(a, item);
      ThreeParts(Event(CallbackOf(a), model, item, path'), pre,
                 PlacePayload(meta, model, f, path'), PlacePayload(meta, model, s, path'), loc);
      if pre <= loc {
        PayloadOnce(meta, model, f, path', loc[|pre|..]);
      }
      if SECOND_AT <= loc {
        PayloadOnce(meta, model, s, path', loc[1..]);
      }
      OneWay(meta, model, a, item, loc);
    }
  }

  /** A place is the item itself, or in its first payload, or in its second. */
  lemma OneWay(meta: ModelMeta, model: string, a: Action, item: Json, loc: seq<Step>)
    ensures var pre := FirstAt(a, item);
      Once(IsWriteIn(meta, model, a, item, loc))
      == Once(loc == []) + (if pre <= loc then Once(InPayload(meta, model, FirstPayload(a, item), loc[|pre|..])) else 0)
         + (if SECOND_AT <= loc then Once(InPayload(meta, model, SecondPayload(a, item), loc[1..])) else 0)
  {
    if loc == [] {
      assert !InPayload(meta, model, FirstPayload(a, item), []);
    }
    if SECOND_AT <= loc && a.Upsert? {
      assert loc[0] == Key("update") != FirstAt(a, item)[0];
    }
  }

  lemma PayloadsAreClean(a: Action, item: Json)
    requires Clean(item)
    ensures Clean(FirstPayload(a, item)) && Clean(SecondPayload(a, item))
  {
    MemberIsClean(item, "data");
    MemberIsClean(item, "create");
    MemberIsClean(item, "update");
  }

  lemma MemberIsClean(j: Json, k: string)
    requires Clean(j)
    ensures Clean(Member(j, k))
  {
    if j.Obj? {
      GetIsClean(j.fields, k);
    }
  }

  lemma GetIsClean(fields: seq<Prop>, k: string)
    requires forall i | 0 <= i < |fields| :: CleanProp(fields[i])
    ensures Clean(Get(fields, k))
  {
    var i := IndexOf(fields, k);
    if i < |fields| {
      assert CleanProp(fields[i]);
    }
  }

  lemma {:induction false} PayloadOnce(
      meta: ModelMeta, model: string, payload: Json, path: seq<PathItem>, loc: seq<Step>)
    requires Clean(payload)
    ensures Made(Count(PlacePayload(meta, model, payload, path), loc), InPayload(meta, model, payload, loc),
                 VisitPayload(meta, ALL_CALLBACKS, model, payload, path).threw)
    decreases Size(payload), 2, 0
  {
    match payload {
      case Arr(items) => PayloadsOnce(meta, model, items, 0, path, loc);
      case Obj(fields) => FieldsOnce(meta, model, fields, path, loc);
      case _ =>
    }
  }

  /** In one of the items, the first of which stands at place `n`. */
  predicate InItems(meta: ModelMeta, model: string, items: seq<Json>, n: nat, loc: seq<Step>) {
    loc != [] && loc[0].At? && n <= loc[0].index < n + |items| && items[loc[0].index - n].Obj?
    && InFields(meta, model, items[loc[0].index - n].fields, loc[1..])
  }

  lemma FirstOrLater(meta: ModelMeta, model: string, items: seq<Json>, n: nat, loc: seq<Step>)
    requires items != []
    ensures InItems(meta, model, items, n, loc)
         == if loc != [] && loc[0] == At(n) then items[0].Obj? && InFields(meta, model, items[0].fields, loc[1..])
            else InItems(meta, model, items[1..], n + 1, loc)
    ensures loc != [] && loc[0] == At(n) ==> !InItems(meta, model, items[1..], n + 1, loc)
  {
    if loc != [] && loc[0].At? && n < loc[0].index < n + |items| {
      assert items[1..][loc[0].index - (n + 1)] == items[loc[0].index - n];
    }
  }

  lemma {:induction false} PayloadsOnce(
      meta: ModelMeta, model: string, items: seq<Json>, n: nat, path: seq<PathItem>, loc: seq<Step>)
    requires forall i | 0 <= i < |items| :: Clean(items[i])
    ensures Made(Count(PlacePayloads(meta, model, items, n, path), loc), InItems(meta, model, items, n, loc),
                 VisitPayloads(meta, ALL_CALLBACKS, model, items, path).threw)
    decreases SizeAll(items), 1, |items|
  {
    if items == [] {
    } else {
      var rest := PlacePayloads(meta, model, items[1..], n + 1, path);
      PayloadsOnce(meta, model, items[1..], n + 1, path, loc);
      FirstOrLater(meta, model, items, n, loc);
      if items[0].Obj? {
        FirstPayloadOnce(meta, model, items[0], n, path, loc);
        CountJoin(Shift([At(n)], PlaceFields(meta, model, items[0].fields, path)), rest, loc);
      } else {
        assert [] + rest == rest;
      }
    }
  }

  lemma {:induction false} FirstPayloadOnce(
      meta: ModelMeta, model: string, item: Json, n: nat, path: seq<PathItem>, loc: seq<Step>)
    requires item.Obj? && Clean(item)
    ensures Made(Count(Shift([At(n)], PlaceFields(meta, model, item.fields, path)), loc),
                 loc != [] && loc[0] == At(n) && InFields(meta, model, item.fields, loc[1..]),
                 VisitFields(meta, ALL_CALLBACKS, model, item.fields, path).threw)
    decreases Size(item), 0, 0
  {
    CountBelow(At(n), PlaceFields(meta, model, item.fields, path), loc);
    if loc != [] && loc[0] == At(n) {
      FieldsOnce(meta, model, item.fields, path, loc[1..]);
    }
  }

  ghost predicate CleanFields(fields: seq<Prop>) {
    DistinctKeys(fields) && forall i | 0 <= i < |fields| :: CleanProp(fields[i])
  }

  /** The first key of an object is found in front, the others behind. */
  lemma GetFirst(fields: seq<Prop>, k: string)
    requires fields != [] && DistinctKeys(fields)
    ensures Get(fields, k) == if k == fields[0].key then fields[0].val else Get(fields[1..], k)
    ensures Has(fields, k) <==> k == fields[0].key || Has(fields[1..], k)
    ensures !Has(fields[1..], fields[0].key) && Get(fields[1..], fields[0].key).Undefined?
  {
  }

  lemma {:induction false} FieldsOnce(
      meta: ModelMeta, model: string, fields: seq<Prop>, path: seq<PathItem>, loc: seq<Step>)
    requires CleanFields(fields)
    ensures Made(Count(PlaceFields(meta, model, fields, path), loc), InFields(meta, model, fields, loc),
                 VisitFields(meta, ALL_CALLBACKS, model, fields, path).threw)
    decreases SizeProps(fields), 7, |fields|
  {
    if fields == [] {
    } else {
      var k, val, rest := fields[0].key, fields[0].val, fields[1..];
      FieldsOnce(meta, model, rest, path, loc);
      if loc != [] && loc[0].Key? {
        GetFirst(fields, loc[0].name);
      }
      GetFirst(fields, k);
      assert CleanProp(fields[0]) && Clean(val);
      if IsRelation(meta, model, k) && val.Obj? {
        var f := ResolveField(meta, model, k).value;
        assert Size(val) == 1 + SizeProps(val.fields);
        var x := PlaceActions(meta, f, val.fields, path);
        CountJoin(Shift([Key(k)], x), PlaceFields(meta, model, rest, path), loc);
        CountBelow(Key(k), x, loc);
        if loc != [] && loc[0] == Key(k) {
          ActionsOnce(meta, f, val.fields, path, loc[1..]);
        }
      } else {
        assert [] + PlaceFields(meta, model, rest, path) == PlaceFields(meta, model, rest, path);
      }
    }
  }

  lemma {:induction false} ActionsOnce(
      meta: ModelMeta, field: FieldInfo, writes: seq<Prop>, path: seq<PathItem>, loc: seq<Step>)
    requires CleanFields(writes)
    ensures Made(Count(PlaceActions(meta, field, writes, path), loc), InActions(meta, field, writes, loc),
                 VisitActions(meta, ALL_CALLBACKS, field, writes, path).threw)
    decreases SizeProps(writes), 6, |writes|
  {
    if writes == [] {
    } else {
      var k, val, rest := writes[0].key, writes[0].val, writes[1..];
      ActionsOnce(meta, field, rest, path, loc);
      if loc != [] && loc[0].Key? {
        GetFirst(writes, loc[0].name);
      }
      GetFirst(writes, k);
      assert CleanProp(writes[0]);
      var a := ActionOf(k);
      if a.Some? {
        var x := PlaceData(meta, field.type_, a.value, val, Some(field), path);
        CountJoin(Shift([Key(k)], x), PlaceActions(meta, field, rest, path), loc);
        CountBelow(Key(k), x, loc);
        if loc != [] && loc[0] == Key(k) {
          DataOnce(meta, field.type_, a.value, val, Some(field), path, loc[1..]);
        }
      } else {
        assert [] + PlaceActions(meta, field, rest, path) == PlaceActions(meta, field, rest, path);
      }
    }
  }

  // ----- each call is given what stands at its place -----

  ghost predicate Found(j: Json, calls: seq<Placed>) {
    forall c | c in calls :: Lookup(j, c.at) == Some(c.event.data)
  }

  lemma {:induction false} LookupJoin(j: Json, pre: seq<Step>, loc: seq<Step>)
    ensures Lookup(j, pre + loc) == match Lookup(j, pre) case None => None case Some(x) => Lookup(x, loc)
    decreases |pre|
  {
    if pre == [] {
      assert pre + loc == loc;
    } else {
      assert (pre + loc)[0] == pre[0] && (pre + loc)[1..] == pre[1..] + loc;
      match pre[0] {
        case Key(k) => if HasMember(j, k) { LookupJoin(Member(j, k), pre[1..], loc); }
        case At(i) => if j.Arr? && i < |j.items| { LookupJoin(j.items[i], pre[1..], loc); }
      }
    }
  }

  lemma {:induction false} ShiftedFound(j: Json, pre: seq<Step>, x: Json, calls: seq<Placed>)
    requires Lookup(j, pre) == Some(x) && Found(x, calls)
    ensures Found(j, Shift(pre, calls))
  {
    if calls == [] {
    } else {
      assert calls[0] in calls;
      LookupJoin(j, pre, calls[0].at);
      ShiftedFound(j, pre, x, calls[1..]);
    }
  }

  lemma LookupKey(fields: seq<Prop>, i: nat)
    requires DistinctKeys(fields) && i < |fields|
    ensures Lookup(Obj(fields), [Key(fields[i].key)]) == Some(fields[i].val)
  {
    IndexIs(fields, fields[i].key, i);
    assert [Key(fields[i].key)][1..] == [];
  }

  lemma LookupAt(items: seq<Json>, i: nat)
    requires i < |items|
    ensures Lookup(Arr(items), [At(i)]) == Some(items[i])
  {
    assert [At(i)][1..] == [];
  }

  lemma {:induction false} DataFound(
      meta: ModelMeta, model: string, a: Action, data: Json, field: Option<FieldInfo>, path: seq<PathItem>)
    requires Clean(data)
    ensures Found(data, PlaceData(meta, model, a, data, field, path))
    decreases Size(data), 5, 0
  {
    if data.Truthy() {
      if data.Arr? && !a.CreateMany? && !a.CreateManyAndReturn? {
        assert data.items[..|data.items|] == data.items;
        ItemsFound(meta, model, a, data.items, |data.items|, field, path);
      } else {
        ItemFound(meta, model, a, data, field, path);
      }
    }
  }

  lemma {:induction false} ItemsFound(
      meta: ModelMeta, model: string, a: Action, all: seq<Json>, n: nat, field: Option<FieldInfo>, path: seq<PathItem>)
    requires n <= |all| && forall i | 0 <= i < |all| :: Clean(all[i])
    ensures Found(Arr(all), PlaceItems(meta, model, a, all[..n], field, path))
    decreases SizeAll(all[..n]), 4, n
  {
    if n == 0 {
    } else {
      SizeOfLast(all[..n]);
      assert all[..n][..n - 1] == all[..n - 1];
      ItemsFound(meta, model, a, all, n - 1, field, path);
      ItemFound(meta, model, a, all[n - 1], field, path);
      LookupAt(all, n - 1);
      ShiftedFound(Arr(all), [At(n - 1)], all[n - 1], PlaceItem(meta, model, a, all[n - 1], field, path));
    }
  }

  lemma {:induction false} ItemFound(
      meta: ModelMeta, model: string, a: Action, item: Json, field: Option<FieldInfo>, path: seq<PathItem>)
    requires Clean(item)
    ensures Found(item, PlaceItem(meta, model, a, item, field, path))
    decreases Size(item), 3, 0
  {
    if WhereOf(a, item, field.None?).Some? {
      var path' := ItemPath(a, model, item, field, path);
      PayloadSizes(a, item);
      PayloadsAreClean(a, item);
      PayloadAt(meta, model, item, FirstAt(a, item), FirstPayload(a, item), path');
      PayloadAt(meta, model, item, SECOND_AT, SecondPayload(a, item), path');
    }
  }

  /** A payload stands at its place, unless it is missing. */
  lemma {:induction false} PayloadAt(
      meta: ModelMeta, model: string, item: Json, pre: seq<Step>, payload: Json, path: seq<PathItem>)
    requires Clean(payload) && Size(payload) <= Size(item)
    requires payload == Undefined || (pre == [] && payload == item)
             || (|pre| == 1 && pre[0].Key? && payload == Member(item, pre[0].name))
    ensures Found(item, Shift(pre, PlacePayload(meta, model, payload, path)))
    decreases Size(item), 2, 1
  {
    if payload != Undefined {
      PayloadFound(meta, model, payload, path);
      assert |pre| == 1 ==> pre[1..] == [];
      ShiftedFound(item, pre, payload, PlacePayload(meta, model, payload, path));
    }
  }

  lemma {:induction false} PayloadFound(meta: ModelMeta, model: string, payload: Json, path: seq<PathItem>)
    requires Clean(payload)
    ensures Found(payload, PlacePayload(meta, model, payload, path))
    decreases Size(payload), 2, 0
  {
    match payload {
      case Arr(items) =>
        assert items[0..] == items;
        PayloadsFound(meta, model, items, 0, path);
      case Obj(fields) =>
        assert fields[0..] == fields;
        FieldsFound(meta, model, fields, 0, path);
      case _ =>
    }
  }

  lemma {:induction false} PayloadsFound(meta: ModelMeta, model: string, all: seq<Json>, n: nat, path: seq<PathItem>)
    requires n <= |all| && forall i | 0 <= i < |all| :: Clean(all[i])
    ensures Found(Arr(all), PlacePayloads(meta, model, all[n..], n, path))
    decreases SizeAll(all[n..]), 1, |all| - n
  {
    if n < |all| {
      assert all[n..][1..] == all[n + 1..] && all[n..][0] == all[n];
      PayloadsFound(meta, model, all, n + 1, path);
      if all[n].Obj? {
        assert Clean(all[n]) && Size(all[n]) == 1 + SizeProps(all[n].fields);
        assert all[n].fields[0..] == all[n].fields;
        FieldsFound(meta, model, all[n].fields, 0, path);
        LookupAt(all, n);
        ShiftedFound(Arr(all), [At(n)], all[n], PlaceFields(meta, model, all[n].fields, path));
      }
    }
  }

  lemma {:induction false} FieldsFound(meta: ModelMeta, model: string, all: seq<Prop>, n: nat, path: seq<PathItem>)
    requires n <= |all| && CleanFields(all)
    ensures Found(Obj(all), PlaceFields(meta, model, all[n..], path))
    decreases SizeProps(all[n..]), 7, |all| - n
  {
    if n < |all| {
      assert all[n..][1..] == all[n + 1..] && all[n..][0] == all[n];
      FieldsFound(meta, model, all, n + 1, path);
      var k, val := all[n].key, all[n].val;
      if IsRelation(meta, model, k) && val.Obj? {
        var f := ResolveField(meta, model, k).value;
        assert CleanProp(all[n]) && Clean(val) && Size(val) == 1 + SizeProps(val.fields);
        assert val.fields[0..] == val.fields;
        ActionsFound(meta, f, val.fields, 0, path);
        LookupKey(all, n);
        ShiftedFound(Obj(all), [Key(k)], val, PlaceActions(meta, f, val.fields, path));
      }
    }
  }

  lemma {:induction false} ActionsFound(meta: ModelMeta, field: FieldInfo, all: seq<Prop>, n: nat, path: seq<PathItem>)
    requires n <= |all| && CleanFields(all)
    ensures Found(Obj(all), PlaceActions(meta, field, all[n..], path))
    decreases SizeProps(all[n..]), 6, |all| - n
  {
    if n < |all| {
      assert all[n..][1..] == all[n + 1..] && all[n..][0] == all[n];
      ActionsFound(meta, field, all, n + 1, path);
      var a := ActionOf(all[n].key);
      if a.Some? {
        assert CleanProp(all[n]);
        DataFound(meta, field.type_, a.value, all[n].val, Some(field), path);
        LookupKey(all, n);
        ShiftedFound(Obj(all), [Key(all[n].key)], all[n].val,
                     PlaceData(meta, field.type_, a.value, all[n].val, Some(field), path));
      }
    }
  }

  // ----- the calls that are made -----

  lemma {:induction false} FirstCalls(calls: seq<Placed>, n: nat, loc: seq<Step>)
    requires n <= |EventsOf(calls)|
    ensures |EventsOf(calls)| == |calls| && EventsOf(calls[..n]) == EventsOf(calls)[..n]
    ensures Count(calls[..n], loc) <= Count(calls, loc)
  {
    if calls == [] {
    } else if n == 0 {
      FirstCalls(calls[1..], 0, loc);
    } else {
      FirstCalls(calls[1..], n - 1, loc);
      assert calls[..n][1..] == calls[1..][..n - 1];
    }
  }

  /**
   * A visit calls back at most once for every place that holds a write, and for no other, each time with the data at
   * that place; a visit that does not throw calls back for all of them.
   */
  lemma EveryWriteIsCalledOnce(meta: ModelMeta, model: string, a: Action, args: Json, loc: seq<Step>)
    requires args.Truthy() && Clean(TopData(a, args))
    ensures var visit := VisitMutation(meta, ALL_CALLBACKS, model, a, args);
      var calls := PlaceData(meta, model, a, TopData(a, args), None, []);
      && |visit.events| <= |calls|
      && var made := calls[..|visit.events|];
      && EventsOf(made) == visit.events
      && Made(Count(made, loc), IsWrite(meta, model, a, TopData(a, args), loc), visit.threw)
      && Found(TopData(a, args), made)
  {
    var calls := PlaceData(meta, model, a, TopData(a, args), None, []);
    DataSame(meta, model, a, TopData(a, args), None, []);
    DataOnce(meta, model, a, TopData(a, args), None, [], loc);
    DataFound(meta, model, a, TopData(a, args), None, []);
    var n := |VisitMutation(meta, ALL_CALLBACKS, model, a, args).events|;
    FirstCalls(calls, n, loc);
    assert n == |calls| ==> calls[..n] == calls;
  }
}
