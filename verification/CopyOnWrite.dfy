/** The mutator on the heap: cached arrays and objects are never written, only cloned on the way to a change. */
module CopyOnWrite {
  import opened Optional
  import opened Json
  import opened ModelMeta
  import opened NestedWriteVisitor
  import opened Mutator
  import opened CachedTrees

  /** `o[p.key] = p.val` on a clone that nothing else refers to. */
  method AssignOne(o: JsObject, ghost bs: seq<Branch>, p: Prop) returns (ghost bs': seq<Branch>)
    requires Stored(ObjectTree(o, bs)) && Apart(o, bs)
    modifies o
    ensures bs' == PutBranch(bs, p.key, Leaf(p.val)) && Stored(ObjectTree(o, bs')) && Apart(o, bs')
  {
    bs' := PutBranch(bs, p.key, Leaf(p.val));
    SameKeys(Stubs(o.slots), Props(bs), p.key);
    PutBranchBelow(bs, p.key, p.val);
    ghost var i := IndexOf(Props(bs), p.key);
    assert forall n | 0 <= n < |bs| :: Stored(bs[n].tree) && o !in Footprint(bs[n].tree);
    o.slots := PutSlot(o.slots, p.key, Plain(p.val));
    assert forall n | 0 <= n < |bs| :: Stored(bs[n].tree);
    assert forall n | 0 <= n < |bs'| :: bs'[n] == if n == i then Branch(p.key, Leaf(p.val)) else bs[n];
  }

  method Assign(o: JsObject, ghost bs: seq<Branch>, ps: seq<Prop>) returns (ghost bs': seq<Branch>)
    requires Stored(ObjectTree(o, bs)) && Apart(o, bs)
    modifies o
    ensures Stored(ObjectTree(o, bs')) && Props(bs') == PutAll(Props(bs), ps) && Below(bs') <= Below(bs)
    ensures bs' == PutLeaves(bs, ps)
  {
    bs' := bs;
    var n := 0;
    assert ps[0..] == ps;
    while n < |ps|
      invariant 0 <= n <= |ps|
      invariant Stored(ObjectTree(o, bs')) && Apart(o, bs') && Below(bs') <= Below(bs)
      invariant PutAll(Props(bs'), ps[n..]) == PutAll(Props(bs), ps)
      invariant PutLeaves(bs', ps[n..]) == PutLeaves(bs, ps)
    {
      PutBranchValue(bs', ps[n].key, ps[n].val);
      PutBranchBelow(bs', ps[n].key, ps[n].val);
      assert ps[n..][1..] == ps[n + 1..];
      bs' := AssignOne(o, bs', ps[n]);
      n := n + 1;
    }
  }

  /** `{ ...o }`: a new object with the same slots, over the same branches. */
  method CloneObject(o: JsObject, ghost bs: seq<Branch>) returns (clone: JsObject)
    requires Stored(ObjectTree(o, bs))
    ensures fresh(clone) && Stored(ObjectTree(clone, bs)) && Apart(clone, bs)
  {
    assert forall b | b in bs :: allocated(Footprint(b.tree));
    assert forall i | 0 <= i < |bs| :: Stored(bs[i].tree);
    clone := new JsObject(o.slots);
    assert forall i | 0 <= i < |bs| :: Stored(bs[i].tree);
  }

  /** An update applies to the record it means, and marks it. */
  lemma UpdateMarks(meta: ModelMeta, model: string, data: Json, where_: Json, change: Json)
    ensures var u := UpdateMutate(meta, model, data, where_, change);
      u.Some? ==> Marked(u.value) && IdFieldsMatch(meta, model, data, where_)
  {
    var ps := UpdateAssignments(meta, model, data, where_, change);
    if ps != [] {
      ChangesEndMarked(meta, model, change.fields);
      LastPutStays(data.fields, ps);
    }
  }

  /** The record after an update; the cached record itself is left alone. */
  method UpdateMutateRef(meta: ModelMeta, model: string, r: Ref, ghost t: Tree, where_: Json, change: Json)
    returns (changed: bool, r': Ref, ghost t': Tree)
    requires Stored(t) && RefOf(t) == r
    ensures changed == UpdateMutate(meta, model, Value(t), where_, change).Some?
    ensures changed
      ==> Stored(t') && RefOf(t') == r' && Some(Value(t')) == UpdateMutate(meta, model, Value(t), where_, change)
    ensures changed ==> SameKind(t, t') && forall x | x in Footprint(t') :: x in Footprint(t) || fresh(x)
    ensures changed ==> Updated(KeysOf(UpdateAssignments(meta, model, Value(t), where_, change)), t, t')
  {
    changed, r', t' := false, r, t;
    match r {
      case Plain(j) =>
        var u := UpdateMutate(meta, model, j, where_, change);
        if u.Some? {
          UpdateMarks(meta, model, j, where_, change);
          changed, r', t' := true, Plain(u.value), Leaf(u.value);
        }
      case ArrayRef(_) =>
      case ObjectRef(o) =>
        MatchIsShallow(meta, model, t, where_);
        var ps := UpdateAssignments(meta, model, Shallow(r), where_, change);
        if ps != [] {
          var clone := CloneObject(o, t.branches);
          ghost var bs := Assign(clone, t.branches, ps);
          UpdateMarks(meta, model, Value(t), where_, change);
          PutLeavesRewrite(t.branches, ps);
          changed, r', t' := true, ObjectRef(clone), ObjectTree(clone, bs);
        }
    }
  }

  // ----- building lists -----

  /** `refs` are the roots of stored trees. */
  ghost predicate AllStored(refs: seq<Ref>, items: seq<Tree>)
    reads ItemsFootprint(items)
  {
    |refs| == |items| && forall i | 0 <= i < |items| ::
      refs[i] == RefOf(items[i]) && (ItemInFootprint(items, i); Stored(items[i]))
  }

  lemma ItemInFootprint(items: seq<Tree>, i: nat)
    requires i < |items|
    ensures Footprint(items[i]) <= ItemsFootprint(items)
  {
    forall x: object | x in Footprint(items[i]) ensures x in ItemsFootprint(items) {
      ItemsFootprintIs(items, x);
    }
  }

  method NewArray(refs: seq<Ref>, ghost items: seq<Tree>) returns (a: JsArray)
    requires AllStored(refs, items)
    ensures fresh(a) && Stored(ArrayTree(a, items)) && a !in ItemsFootprint(items)
  {
    assert allocated(ItemsFootprint(items));
    a := new JsArray(refs);
    assert AllStored(refs, items);
  }

  /** The trees of `more` are those of `items`, or new. */
  twostate predicate OldOrNew(new more: seq<Tree>, items: seq<Tree>) {
    forall x | x in ItemsFootprint(more) :: x in ItemsFootprint(items) || fresh(x)
  }

  method NewObject(fields: seq<Prop>) returns (o: JsObject, ghost t: Tree)
    ensures fresh(o) && t == ObjectTree(o, PlainBranches(fields))
    ensures Stored(t) && Value(t) == Obj(fields) && Footprint(t) == {o}
  {
    o := new JsObject(PlainSlots(fields));
    t := ObjectTree(o, PlainBranches(fields));
    PlainBranchesHold(fields);
  }

  // ----- the callbacks on a list -----

  method CurrMaxOf(env: Env, refs: seq<Ref>, ghost items: seq<Tree>, name: string) returns (m: Json)
    requires AllStored(refs, items)
    ensures m == CurrMax(env, Values(items), name)
  {
    m := NegInfinity;
    var i := |refs|;
    while i > 0
      invariant 0 <= i <= |refs| && AllStored(refs, items)
      invariant m == CurrMax(env, Values(items)[i..], name)
    {
      i := i - 1;
      assert Values(items)[i..][1..] == Values(items)[i + 1..];
      IdIsShallow(env, items[i], name);
      var n := IntOf(env, Member(Shallow(refs[i]), name));
      m := if m.Num? && m.n > n then m else Num(n);
    }
  }

  method MaxesOf(env: Env, meta: ModelMeta, model: string, refs: seq<Ref>, ghost items: seq<Tree>)
    returns (maxes: map<string, Json>)
    requires AllStored(refs, items)
    ensures maxes == Maxes(env, meta, model, Values(items))
  {
    var ids := IdNames(meta, model);
    maxes := map[];
    var i := 0;
    while i < |ids|
      invariant 0 <= i <= |ids| && AllStored(refs, items)
      invariant maxes == map f | f in ids[..i] :: CurrMax(env, Values(items), f)
    {
      assert allocated(ItemsFootprint(items));
      var m := CurrMaxOf(env, refs, items, ids[i]);
      assert ids[..i + 1] == ids[..i] + [ids[i]];
      maxes := maxes[ids[i] := m];
      i := i + 1;
    }
    assert ids[..i] == ids;
  }

  /** New records in front of the very same items. */
  ghost predicate Prepended(items: seq<Tree>, items': seq<Tree>) {
    |items'| >= |items| && items'[|items'| - |items|..] == items
    && forall j | 0 <= j < |items'| - |items| :: Created(items'[j])
  }

  lemma OnePrepended(items: seq<Tree>, t: Tree)
    requires Created(t)
    ensures Prepended(items, [t] + items)
  {
    assert ([t] + items)[1..] == items;
  }

  lemma NewRecordIsCreated(
      env: Env, meta: ModelMeta, model: string, maxes: map<string, Json>, count: nat, newData: Json, o: JsObject)
    requires model in meta.models && forall f | f in IdNames(meta, model) :: f in maxes
    ensures Created(ObjectTree(o, PlainBranches(NewRecordFields(env, meta, model, maxes, count, newData))))
  {
    PlainBranchesHold(NewRecordFields(env, meta, model, maxes, count, newData));
  }

  lemma PrependedTwice(a: seq<Tree>, b: seq<Tree>, c: seq<Tree>)
    requires Prepended(a, b) && Prepended(b, c)
    ensures Prepended(a, c)
  {
    assert c[|c| - |a|..] == b[|b| - |a|..];
    forall j | 0 <= j < |c| - |a| ensures Created(c[j]) {
      assert j >= |c| - |b| ==> c[j] == b[j - (|c| - |b|)];
    }
  }

  /** One matching item is replaced by its update, all others are the very same. */
  ghost predicate Replaced(
      meta: ModelMeta, model: string, items: seq<Tree>, items': seq<Tree>, where_: Json, update: Json)
  {
    |items'| == |items| && exists i | 0 <= i < |items| ::
      items' == items[i := items'[i]] && IdFieldsMatch(meta, model, Value(items[i]), where_)
      && Updated(KeysOf(UpdateAssignments(meta, model, Value(items[i]), where_, update)), items[i], items'[i])
  }

  /** The unmatched items are the very same, the others are gone. */
  ghost predicate Filtered(meta: ModelMeta, model: string, items: seq<Tree>, items': seq<Tree>, where_: Json) {
    && (forall x | x in items' :: x in items && !IdFieldsMatch(meta, model, Value(x), where_))
    && (forall x | x in items && !IdFieldsMatch(meta, model, Value(x), where_) :: x in items')
  }

  lemma PrependedShares(meta: ModelMeta, model: string, events: seq<Event>, items: seq<Tree>, items': seq<Tree>)
    requires Prepended(items, items')
    ensures ListShares(meta, model, events, items, items')
  {
    var n := |items'| - |items|;
    forall y | y in items' ensures ItemFrom(AssignedKeys(meta, model, events), items, y) {
      var j :| 0 <= j < |items'| && items'[j] == y;
      assert j >= n ==> y == items'[n..][j - n];
    }
    forall x | x in items ensures x in items' {
      assert x in items'[n..];
    }
  }

  lemma AssignsKeys(meta: ModelMeta, model: string, e: Event, v: Json, change: Json)
    requires e.model == model && RecordUpdate(e) == Some(change)
    ensures KeysOf(UpdateAssignments(meta, model, v, Member(e.data, "where"), change)) <= AssignedKeys(meta, model, [e])
  {
    var ps := UpdateAssignments(meta, model, v, Member(e.data, "where"), change);
    forall p | p in ps ensures p.key in AssignedKeys(meta, model, [e]) {
      assert e in [e] && p in ChangesOf(meta, model, e);
    }
  }

  lemma ReplacedShares(meta: ModelMeta, model: string, e: Event, items: seq<Tree>, items': seq<Tree>, update: Json)
    requires e.model == model && e.callback.OnUpsert? && RecordUpdate(e) == Some(update)
    requires Replaced(meta, model, items, items', Member(e.data, "where"), update)
    ensures ListShares(meta, model, [e], items, items')
  {
    var i :| 0 <= i < |items| && items' == items[i := items'[i]]
      && IdFieldsMatch(meta, model, Value(items[i]), Member(e.data, "where"))
      && Updated(KeysOf(UpdateAssignments(meta, model, Value(items[i]), Member(e.data, "where"), update)), items[i],
                 items'[i]);
    var keys := AssignedKeys(meta, model, [e]);
    AssignsKeys(meta, model, e, Value(items[i]), update);
    UpdatedWithMore(KeysOf(UpdateAssignments(meta, model, Value(items[i]), Member(e.data, "where"), update)), keys,
                    items[i], items'[i]);
    forall y | y in items' ensures ItemFrom(keys, items, y) {
      var j :| 0 <= j < |items'| && items'[j] == y;
      assert j != i ==> y == items[j];
    }
    forall x | x in items && !Addressed(meta, model, [e], Value(x)) ensures x in items' {
      var j :| 0 <= j < |items| && items[j] == x;
      assert e in [e] && !Addresses(meta, model, e, Value(x));
      assert j != i && items'[j] == x;
    }
  }

  lemma FilteredShares(meta: ModelMeta, model: string, e: Event, items: seq<Tree>, items': seq<Tree>)
    requires e.model == model && e.callback.OnDelete? && Filtered(meta, model, items, items', e.data)
    ensures ListShares(meta, model, [e], items, items')
  {
    forall x | x in items && !Addressed(meta, model, [e], Value(x)) ensures x in items' {
      assert e in [e] && !Addresses(meta, model, e, Value(x));
    }
  }

  lemma UpdateShares(meta: ModelMeta, model: string, e: Event, change: Json, t: Tree, t': Tree)
    requires e.model == model && RecordUpdate(e) == Some(change)
    requires Updated(KeysOf(UpdateAssignments(meta, model, Value(t), Member(e.data, "where"), change)), t, t')
    ensures EventsShare(meta, model, [e], t, t')
  {
    AssignsKeys(meta, model, e, Value(t), change);
    UpdatedWithMore(KeysOf(UpdateAssignments(meta, model, Value(t), Member(e.data, "where"), change)),
                    AssignedKeys(meta, model, [e]), t, t');
  }

  method CreateOn(env: Env, meta: ModelMeta, model: string, refs: seq<Ref>, ghost items: seq<Tree>, newData: Json)
    returns (changed: bool, refs': seq<Ref>, ghost items': seq<Tree>)
    requires AllStored(refs, items)
    ensures changed == CreateMutate(env, meta, model, Values(items), newData).Some?
    ensures changed ==> Some(Values(items')) == CreateMutate(env, meta, model, Values(items), newData)
    ensures !changed ==> refs' == refs && items' == items
    ensures AllStored(refs', items') && OldOrNew(items', items) && Prepended(items, items')
  {
    changed, refs', items' := false, refs, items;
    assert allocated(ItemsFootprint(items));
    if newData.Truthy() && model in meta.models {
      var maxes := MaxesOf(env, meta, model, refs, items);
      var o, t := NewObject(NewRecordFields(env, meta, model, maxes, |refs|, newData));
      assert AllStored(refs, items);
      NewRecordIsCreated(env, meta, model, maxes, |refs|, newData, o);
      OnePrepended(items, t);
      changed, refs', items' := true, [ObjectRef(o)] + refs, [t] + items;
      assert Values(items') == [Value(t)] + Values(items);
      assert items'[1..] == items;
    }
  }

  method CreateEachOn(env: Env, meta: ModelMeta, model: string, refs: seq<Ref>, ghost items: seq<Tree>, rows: seq<Json>)
    returns (changed: bool, refs': seq<Ref>, ghost items': seq<Tree>)
    requires AllStored(refs, items)
    ensures (Values(items'), changed) == CreateEach(env, meta, model, Values(items), rows)
    ensures AllStored(refs', items') && OldOrNew(items', items) && Prepended(items, items')
  {
    changed, refs', items' := false, refs, items;
    var i := 0;
    assert rows[0..] == rows;
    while i < |rows|
      invariant 0 <= i <= |rows|
      invariant AllStored(refs', items') && OldOrNew(items', items) && Prepended(items, items')
      invariant var rest := CreateEach(env, meta, model, Values(items'), rows[i..]);
        CreateEach(env, meta, model, Values(items), rows) == (rest.0, changed || rest.1)
    {
      assert rows[i..][1..] == rows[i + 1..];
      var c, r, t := CreateOn(env, meta, model, refs', items', rows[i]);
      PrependedTwice(items, items', t);
      changed, refs', items' := changed || c, r, t;
      i := i + 1;
    }
  }

  method FindOn(meta: ModelMeta, model: string, refs: seq<Ref>, ghost items: seq<Tree>, where_: Json) returns (i: nat)
    requires AllStored(refs, items)
    ensures i == FindMatch(meta, model, Values(items), where_)
  {
    i := 0;
    while i < |refs|
      invariant 0 <= i <= |refs| && AllStored(refs, items)
      invariant FindMatch(meta, model, Values(items), where_) == i + FindMatch(meta, model, Values(items)[i..], where_)
    {
      MatchIsShallow(meta, model, items[i], where_);
      assert Values(items)[i..][0] == Value(items[i]);
      if IdFieldsMatch(meta, model, Shallow(refs[i]), where_) {
        return;
      }
      assert Values(items)[i..][1..] == Values(items)[i + 1..];
      i := i + 1;
    }
  }

  method UpsertOn(
      env: Env, meta: ModelMeta, model: string, refs: seq<Ref>, ghost items: seq<Tree>,
      where_: Json, create: Json, update: Json)
    returns (changed: bool, refs': seq<Ref>, ghost items': seq<Tree>)
    requires AllStored(refs, items)
    ensures changed == UpsertList(env, meta, model, Values(items), where_, create, update).Some?
    ensures changed ==> Some(Values(items')) == UpsertList(env, meta, model, Values(items), where_, create, update)
    ensures AllStored(refs', items') && OldOrNew(items', items)
    ensures Prepended(items, items') || Replaced(meta, model, items, items', where_, update)
  {
    assert allocated(ItemsFootprint(items));
    var i := FindOn(meta, model, refs, items, where_);
    if i == |refs| {
      changed, refs', items' := CreateOn(env, meta, model, refs, items, create);
    } else {
      changed, refs', items' := UpdateItemOn(meta, model, refs, items, i, where_, update);
    }
  }

  /** Replace the i-th item by its update. */
  method UpdateItemOn(
      meta: ModelMeta, model: string, refs: seq<Ref>, ghost items: seq<Tree>, i: nat, where_: Json, update: Json)
    returns (changed: bool, refs': seq<Ref>, ghost items': seq<Tree>)
    requires AllStored(refs, items) && i < |items|
    ensures var u := UpdateMutate(meta, model, Values(items)[i], where_, update);
      changed == u.Some? && Values(items') == if changed then Values(items)[i := u.value] else Values(items)
    ensures AllStored(refs', items') && OldOrNew(items', items)
    ensures items' == items || Replaced(meta, model, items, items', where_, update)
  {
    changed, refs', items' := false, refs, items;
    assert allocated(ItemsFootprint(items));
    ItemInFootprint(items, i);
    var c, r, t := UpdateMutateRef(meta, model, refs[i], items[i], where_, update);
    assert AllStored(refs, items);
    if c {
      changed, refs', items' := true, refs[i := r], items[i := t];
      assert Values(items') == Values(items)[i := Value(t)];
      ReplacedFootprint(items, i, t);
      ItemReplaced(meta, model, items, i, t, where_, update);
    }
  }

  lemma ItemReplaced(meta: ModelMeta, model: string, items: seq<Tree>, i: nat, t: Tree, where_: Json, update: Json)
    requires i < |items| && UpdateMutate(meta, model, Value(items[i]), where_, update).Some?
    requires Updated(KeysOf(UpdateAssignments(meta, model, Value(items[i]), where_, update)), items[i], t)
    ensures Replaced(meta, model, items, items[i := t], where_, update)
  {
    UpdateMarks(meta, model, Value(items[i]), where_, update);
    assert items[i := t] == items[i := items[i := t][i]];
  }

  lemma ReplacedFootprint(items: seq<Tree>, i: nat, t: Tree)
    requires i < |items|
    ensures ItemsFootprint(items[i := t]) <= ItemsFootprint(items) + Footprint(t)
  {
    forall x: object | x in ItemsFootprint(items[i := t]) ensures x in ItemsFootprint(items) + Footprint(t) {
      ItemsFootprintIs(items[i := t], x);
      ItemsFootprintIs(items, x);
    }
  }

  ghost function UnmatchedTrees(meta: ModelMeta, model: string, items: seq<Tree>, where_: Json): seq<Tree> {
    if items == [] then []
    else (if IdFieldsMatch(meta, model, Value(items[0]), where_) then [] else [items[0]])
         + UnmatchedTrees(meta, model, items[1..], where_)
  }

  lemma FilteredMore(meta: ModelMeta, model: string, items: seq<Tree>, rest: seq<Tree>, where_: Json)
    requires items != [] && Filtered(meta, model, items[1..], rest, where_)
    ensures var front := if IdFieldsMatch(meta, model, Value(items[0]), where_) then [] else [items[0]];
      Filtered(meta, model, items, front + rest, where_)
  {
    assert items == [items[0]] + items[1..];
  }

  lemma ValuesMore(front: seq<Tree>, rest: seq<Tree>)
    requires |front| <= 1
    ensures Values(front + rest) == (if front == [] then [] else [Value(front[0])]) + Values(rest)
  {
    assert front == [] ==> front + rest == rest;
  }

  lemma {:induction false} UnmatchedTreesAre(meta: ModelMeta, model: string, items: seq<Tree>, where_: Json)
    ensures var rest := UnmatchedTrees(meta, model, items, where_);
      Values(rest) == Unmatched(meta, model, Values(items), where_) && Filtered(meta, model, items, rest, where_)
  {
    if items == [] {
    } else {
      UnmatchedTreesAre(meta, model, items[1..], where_);
      var rest := UnmatchedTrees(meta, model, items[1..], where_);
      var front := if IdFieldsMatch(meta, model, Value(items[0]), where_) then [] else [items[0]];
      assert Values(items)[1..] == Values(items[1..]) && Values(items)[0] == Value(items[0]);
      FilteredMore(meta, model, items, rest, where_);
      ValuesMore(front, rest);
    }
  }

  lemma UnmatchedTreesStep(meta: ModelMeta, model: string, items: seq<Tree>, i: nat, where_: Json, kept: seq<Tree>)
    requires i < |items|
    ensures kept + UnmatchedTrees(meta, model, items[i..], where_)
         == (if IdFieldsMatch(meta, model, Value(items[i]), where_) then kept else kept + [items[i]])
            + UnmatchedTrees(meta, model, items[i + 1..], where_)
  {
    assert items[i..][0] == items[i] && items[i..][1..] == items[i + 1..];
  }

  method DeleteOn(meta: ModelMeta, model: string, refs: seq<Ref>, ghost items: seq<Tree>, where_: Json)
    returns (changed: bool, refs': seq<Ref>, ghost items': seq<Tree>)
    requires AllStored(refs, items)
    ensures changed == exists x | x in Values(items) :: IdFieldsMatch(meta, model, x, where_)
    ensures Values(items') == Unmatched(meta, model, Values(items), where_)
    ensures AllStored(refs', items') && ItemsFootprint(items') <= ItemsFootprint(items)
    ensures Filtered(meta, model, items, items', where_)
  {
    changed, refs', items' := false, [], [];
    var i := 0;
    assert items[0..] == items;
    while i < |refs|
      invariant 0 <= i <= |refs| && AllStored(refs, items)
      invariant changed == (|refs'| < i) && |refs'| <= i && Rooted(refs', items')
      invariant items' + UnmatchedTrees(meta, model, items[i..], where_) == UnmatchedTrees(meta, model, items, where_)
    {
      MatchIsShallow(meta, model, items[i], where_);
      UnmatchedTreesStep(meta, model, items, i, where_, items');
      if IdFieldsMatch(meta, model, Shallow(refs[i]), where_) {
        changed := true;
      } else {
        refs', items' := refs' + [refs[i]], items' + [items[i]];
      }
      i := i + 1;
    }
    assert items[i..] == [] && items' + [] == items';
    UnmatchedTreesAre(meta, model, items, where_);
    UnmatchedIsShorter(meta, model, Values(items), where_);
    SubListStored(refs, items, refs', items');
  }

  lemma {:induction false} UnmatchedIsShorter(meta: ModelMeta, model: string, items: seq<Json>, where_: Json)
    ensures var rest := Unmatched(meta, model, items, where_);
      |rest| <= |items| && (|rest| < |items| <==> exists x | x in items :: IdFieldsMatch(meta, model, x, where_))
  {
    if items == [] {
    } else {
      UnmatchedIsShorter(meta, model, items[1..], where_);
      assert forall x :: x in items <==> x == items[0] || x in items[1..];
    }
  }

  predicate Rooted(refs: seq<Ref>, items: seq<Tree>) {
    |refs| == |items| && forall i | 0 <= i < |items| :: refs[i] == RefOf(items[i])
  }

  lemma SubListStored(refs: seq<Ref>, items: seq<Tree>, refs': seq<Ref>, items': seq<Tree>)
    requires AllStored(refs, items) && Rooted(refs', items') && forall t | t in items' :: t in items
    ensures AllStored(refs', items') && ItemsFootprint(items') <= ItemsFootprint(items)
  {
    forall x: object | x in ItemsFootprint(items') ensures x in ItemsFootprint(items) {
      ItemsFootprintIs(items', x);
      ItemsFootprintIs(items, x);
    }
    forall i | 0 <= i < |items'| ensures Stored(items'[i]) {
      assert items'[i] in items';
      var k :| 0 <= k < |items| && items[k] == items'[i];
    }
  }

  // ----- one callback -----

  twostate predicate OldOrNewTree(new t': Tree, t: Tree) {
    forall x | x in Footprint(t') :: x in Footprint(t) || fresh(x)
  }

  method ListEventOn(env: Env, meta: ModelMeta, model: string, a: JsArray, ghost items: seq<Tree>, e: Event)
    returns (changed: bool, refs: seq<Ref>, ghost items': seq<Tree>)
    requires AllStored(a.items, items) && e.model == model
    ensures changed == ApplyEvent(env, meta, model, Arr(Values(items)), e).Some?
    ensures changed ==> Some(Arr(Values(items'))) == ApplyEvent(env, meta, model, Arr(Values(items)), e)
    ensures changed
      ==> AllStored(refs, items') && OldOrNew(items', items) && ListShares(meta, model, [e], items, items')
  {
    changed, refs, items' := false, a.items, items;
    match e.callback {
      case OnCreate =>
        changed, refs, items' := CreateOn(env, meta, model, a.items, items, e.data);
        PrependedShares(meta, model, [e], items, items');
      case OnCreateMany =>
        if Member(e.data, "data").Truthy() {
          changed, refs, items' := CreateEachOn(env, meta, model, a.items, items, Enumerate(Member(e.data, "data")));
          PrependedShares(meta, model, [e], items, items');
        }
      case OnUpsert =>
        var where_, create, update := Member(e.data, "where"), Member(e.data, "create"), Member(e.data, "update");
        if where_.Truthy() && create.Truthy() && update.Truthy() {
          changed, refs, items' := UpsertOn(env, meta, model, a.items, items, where_, create, update);
          if Prepended(items, items') {
            PrependedShares(meta, model, [e], items, items');
          } else {
            ReplacedShares(meta, model, e, items, items', update);
          }
        }
      case OnDelete =>
        if e.data.Truthy() {
          changed, refs, items' := DeleteOn(meta, model, a.items, items, e.data);
          FilteredShares(meta, model, e, items, items');
        }
      case _ =>
    }
  }

  method EventOn(env: Env, meta: ModelMeta, model: string, r: Ref, ghost t: Tree, e: Event)
    returns (changed: bool, r': Ref, ghost t': Tree)
    requires Stored(t) && RefOf(t) == r
    ensures changed == ApplyEvent(env, meta, model, Value(t), e).Some?
    ensures if changed then Some(Value(t')) == ApplyEvent(env, meta, model, Value(t), e) else t' == t
    ensures Stored(t') && RefOf(t') == r' && OldOrNewTree(t', t) && SameKind(t, t')
    ensures EventsShare(meta, model, [e], t, t')
  {
    changed, r', t' := false, r, t;
    assert allocated(Footprint(t));
    if e.model != model {
      return;
    }
    match r {
      case Plain(j) =>
        var u := ApplyEvent(env, meta, model, j, e);
        if u.Some? {
          changed, r', t' := true, Plain(u.value), Leaf(u.value);
        }
      case ArrayRef(a) =>
        var c, refs, items := ListEventOn(env, meta, model, a, t.items, e);
        if c {
          var b := NewArray(refs, items);
          changed, r', t' := true, ArrayRef(b), ArrayTree(b, items);
        }
      case ObjectRef(o) =>
        var update := RecordUpdate(e);
        if update.Some? {
          var c, u, ut := UpdateMutateRef(meta, model, r, t, Member(e.data, "where"), update.value);
          if c {
            UpdateShares(meta, model, e, update.value, t, ut);
            changed, r', t' := true, u, ut;
          }
        }
        RecordEvent(env, meta, model, Value(t), e);
    }
  }

  lemma RecordEvent(env: Env, meta: ModelMeta, model: string, x: Json, e: Event)
    requires x.Obj? && e.model == model
    ensures ApplyEvent(env, meta, model, x, e)
         == if RecordUpdate(e).None? then None
            else UpdateMutate(meta, model, x, Member(e.data, "where"), RecordUpdate(e).value)
  {
    if e.callback.OnUpsert? {
      RecordUpsert(env, meta, model, x, e);
    }
  }

  lemma RecordUpsert(env: Env, meta: ModelMeta, model: string, x: Json, e: Event)
    requires x.Obj? && e.model == model && e.callback.OnUpsert?
    ensures ApplyEvent(env, meta, model, x, e)
         == if RecordUpdate(e).None? then None
            else UpdateMutate(meta, model, x, Member(e.data, "where"), RecordUpdate(e).value)
  {
    UpsertCase(env, meta, model, x, e);
  }

  // ----- the whole result -----

  /** `[...a]` with one item replaced in place when the array was cloned before. */
  method SetItem(a: JsArray, cloned: bool, ghost items: seq<Tree>, i: nat, r: Ref, ghost t: Tree)
    returns (b: JsArray, ghost items': seq<Tree>)
    requires i < |items| && AllStored(a.items, items) && Stored(t) && RefOf(t) == r
    requires cloned ==> a !in ItemsFootprint(items) && a !in Footprint(t)
    modifies if cloned then {a} else {}
    ensures if cloned then b == a else fresh(b)
    ensures items' == items[i := t] && AllStored(b.items, items') && b !in ItemsFootprint(items')
  {
    ReplacedFootprint(items, i, t);
    assert allocated(ItemsFootprint(items)) && allocated(Footprint(t));
    b := a;
    if !cloned {
      b := new JsArray(a.items);
    }
    assert AllStored(a.items, items) && Stored(t);
    ghost var refs := b.items;
    b.items := b.items[i := r];
    items' := items[i := t];
    assert AllStored(refs, items) && Stored(t);
    ReplacedStored(refs, items, i, r, t);
  }

  lemma ReplacedStored(refs: seq<Ref>, items: seq<Tree>, i: nat, r: Ref, t: Tree)
    requires i < |items| && AllStored(refs, items) && Stored(t) && RefOf(t) == r
    ensures AllStored(refs[i := r], items[i := t])
  {
  }

  /** What one turn of the loop over a list does to an item. */
  ghost predicate ItemTurn(env: Env, meta: ModelMeta, model: string, events: seq<Event>, x: Json, c: bool, y: Json)
    requires ValidMeta(meta)
  {
    if c then !Skipped(x) && DoApply(env, meta, model, x, events) == Some(y)
    else y == x && (Skipped(x) || DoApply(env, meta, model, x, events).None?)
  }

  lemma {:induction false} TurnsAreItems(
      env: Env, meta: ModelMeta, model: string, events: seq<Event>, vs: seq<Json>, cs: seq<bool>, ws: seq<Json>,
      bound: nat)
    requires ValidMeta(meta) && ItemsWithin(vs, bound) && |vs| == |cs| == |ws|
    requires forall i | 0 <= i < |vs| :: ItemTurn(env, meta, model, events, vs[i], cs[i], ws[i])
    ensures ApplyItems(env, meta, model, vs, events, bound) == (ws, true in cs)
  {
    if vs == [] {
    } else {
      TurnsAreItems(env, meta, model, events, vs[1..], cs[1..], ws[1..], bound);
      assert ItemTurn(env, meta, model, events, vs[0], cs[0], ws[0]);
      assert cs == [cs[0]] + cs[1..] && ws == [ws[0]] + ws[1..];
    }
  }

  /** One turn of the loop over a list. */
  method ItemOn(
      env: Env, meta: ModelMeta, model: string, a: JsArray, cloned: bool, ghost items: seq<Tree>, i: nat,
      events: seq<Event>, ghost bound: nat)
    returns (c: bool, b: JsArray, ghost t: Tree)
    requires ValidMeta(meta) && i < |items| && AllStored(a.items, items) && (cloned ==> a !in ItemsFootprint(items))
    requires Skipped(Value(items[i])) || Size(Value(items[i])) < bound
    modifies if cloned then {a} else {}
    ensures ItemTurn(env, meta, model, events, Value(items[i]), c, Value(t)) && (!c ==> t == items[i] && b == a)
    ensures ItemShares(env, meta, model, events, items[i], t)
    ensures AllStored(b.items, items[i := t]) && OldOrNew(items[i := t], items)
    ensures (c || cloned ==> b !in ItemsFootprint(items[i := t])) && if cloned then b == a else c ==> fresh(b)
    decreases bound, 0
  {
    assert allocated(ItemsFootprint(items));
    c, b, t := false, a, items[i];
    assert items[i := t] == items;
    SkipIsShallow(items[i]);
    if !Skipped(Shallow(a.items[i])) {
      var r;
      ItemInFootprint(items, i);
      c, r, t := DoApplyOn(env, meta, model, a.items[i], items[i], events);
      if c {
        ReplacedFootprint(items, i, t);
        ghost var items';
        b, items' := SetItem(a, cloned, items, i, r, t);
      }
    }
  }

  /** The first turns are done: what applied is changed, all else is the very same object. */
  ghost predicate ItemsTurned(
      env: Env, meta: ModelMeta, model: string, events: seq<Event>, items: seq<Tree>, cs: seq<bool>, items': seq<Tree>)
    requires ValidMeta(meta)
  {
    && |cs| <= |items| == |items'| && items'[|cs|..] == items[|cs|..]
    && forall k | 0 <= k < |cs| ::
         ItemTurn(env, meta, model, events, Value(items[k]), cs[k], Value(items'[k]))
         && ItemShares(env, meta, model, events, items[k], items'[k])
  }

  lemma TurnedOne(
      env: Env, meta: ModelMeta, model: string, events: seq<Event>, items: seq<Tree>, cs: seq<bool>, items': seq<Tree>,
      c: bool, t: Tree)
    requires ValidMeta(meta) && ItemsTurned(env, meta, model, events, items, cs, items') && |cs| < |items|
    requires ItemTurn(env, meta, model, events, Value(items[|cs|]), c, Value(t))
    requires ItemShares(env, meta, model, events, items[|cs|], t)
    ensures ItemsTurned(env, meta, model, events, items, cs + [c], items'[|cs| := t])
  {
  }

  lemma AllTurned(
      env: Env, meta: ModelMeta, model: string, events: seq<Event>, items: seq<Tree>, cs: seq<bool>, items': seq<Tree>,
      bound: nat)
    requires ValidMeta(meta) && ItemsTurned(env, meta, model, events, items, cs, items') && |cs| == |items|
    requires ItemsWithin(Values(items), bound)
    ensures ApplyItems(env, meta, model, Values(items), events, bound) == (Values(items'), true in cs)
    ensures SharedItems(env, meta, model, events, items, items')
  {
    TurnsAreItems(env, meta, model, events, Values(items), cs, Values(items'), bound);
  }

  method ItemsOn(
      env: Env, meta: ModelMeta, model: string, a: JsArray, ghost items: seq<Tree>, events: seq<Event>,
      ghost bound: nat)
    returns (changed: bool, a': JsArray, ghost items': seq<Tree>)
    requires ValidMeta(meta) && AllStored(a.items, items) && ItemsWithin(Values(items), bound)
    ensures (Values(items'), changed) == ApplyItems(env, meta, model, Values(items), events, bound)
    ensures SharedItems(env, meta, model, events, items, items')
    ensures AllStored(a'.items, items') && OldOrNew(items', items)
    ensures if changed then fresh(a') && a' !in ItemsFootprint(items') else a' == a && items' == items
    decreases bound, 1
  {
    changed, a', items' := false, a, items;
    ghost var vs, cs := Values(items), [];
    var i, n := 0, |a.items|;
    while i < n
      invariant 0 <= i <= n == |items| == |items'|
      invariant AllStored(a'.items, items') && OldOrNew(items', items)
      invariant if changed then fresh(a') && a' !in ItemsFootprint(items') else a' == a && items' == items
      invariant |cs| == i && changed == (true in cs) && ItemsTurned(env, meta, model, events, items, cs, items')
    {
      assert items'[i] == items[i] && vs[i] in vs;
      var c, b;
      ghost var t;
      c, b, t := ItemOn(env, meta, model, a', changed, items', i, events, bound);
      TurnedOne(env, meta, model, events, items, cs, items', c, t);
      changed, a', items', cs := changed || c, b, items'[i := t], cs + [c];
      i := i + 1;
    }
    AllTurned(env, meta, model, events, items, cs, items', bound);
  }

  twostate predicate OldOrNewBelow(new more: seq<Branch>, bs: seq<Branch>) {
    forall x | x in Below(more) :: x in Below(bs) || fresh(x)
  }

  lemma ReplacedBelow(bs: seq<Branch>, i: nat, b: Branch)
    requires i < |bs|
    ensures Below(bs[i := b]) <= Below(bs) + Footprint(b.tree)
  {
    forall x: object | x in Below(bs[i := b]) ensures x in Below(bs) + Footprint(b.tree) {
      BelowIs(bs[i := b], x);
      BelowIs(bs, x);
    }
  }

  /** `{ ...o, [key]: r }` for the i-th key of the object. */
  method ReplaceField(o: JsObject, ghost bs: seq<Branch>, i: nat, r: Ref, ghost t: Tree, ghost t': Tree)
    returns (p: JsObject)
    requires i < |bs| && bs[i].tree == t && Stored(ObjectTree(o, bs)) && Stored(t') && RefOf(t') == r
    ensures fresh(p) && Stored(ObjectTree(p, bs[i := Branch(bs[i].key, t')]))
    ensures Below(bs[i := Branch(bs[i].key, t')]) <= Below(bs) + Footprint(t')
  {
    assert allocated(Footprint(t')) && allocated(Footprint(ObjectTree(o, bs)));
    ReplacedBelow(bs, i, Branch(bs[i].key, t'));
    p := new JsObject(o.slots[i := Slot(o.slots[i].key, r)]);
    assert Stored(ObjectTree(o, bs)) && Stored(t');
  }

  /** What one turn of the loop over an object does to a field. */
  ghost predicate FieldTurn(env: Env, meta: ModelMeta, model: string, events: seq<Event>, p: Prop, c: bool, q: Prop)
    requires ValidMeta(meta)
  {
    q.key == p.key &&
    if c then
      IsRelation(meta, model, p.key)
      && DoApply(env, meta, ResolveField(meta, model, p.key).value.type_, p.val, events) == Some(q.val)
    else
      q == p && (IsRelation(meta, model, p.key)
        ==> DoApply(env, meta, ResolveField(meta, model, p.key).value.type_, p.val, events).None?)
  }

  lemma {:induction false} TurnsAreFields(
      env: Env, meta: ModelMeta, model: string, events: seq<Event>, ps: seq<Prop>, cs: seq<bool>, qs: seq<Prop>,
      bound: nat)
    requires ValidMeta(meta) && FieldsWithin(meta, model, ps, bound) && |ps| == |cs| == |qs|
    requires forall i | 0 <= i < |ps| :: FieldTurn(env, meta, model, events, ps[i], cs[i], qs[i])
    ensures ApplyFields(env, meta, model, ps, events, bound) == (qs, true in cs)
  {
    if ps == [] {
    } else {
      TurnsAreFields(env, meta, model, events, ps[1..], cs[1..], qs[1..], bound);
      assert FieldTurn(env, meta, model, events, ps[0], cs[0], qs[0]);
      assert cs == [cs[0]] + cs[1..] && qs == [qs[0]] + qs[1..];
    }
  }

  /** One turn of the loop over the fields of an object. */
  method FieldOn(
      env: Env, meta: ModelMeta, model: string, o: JsObject, ghost bs: seq<Branch>, i: nat, key: string, r: Ref,
      ghost t: Tree,
      events: seq<Event>, ghost bound: nat)
    returns (c: bool, p: JsObject, ghost t': Tree)
    requires ValidMeta(meta) && i < |bs| && Stored(ObjectTree(o, bs)) && bs[i] == Branch(key, t) && RefOf(t) == r
    requires IsRelation(meta, model, key) ==> Size(Value(t)) < bound
    ensures FieldTurn(env, meta, model, events, Prop(key, Value(t)), c, Prop(key, Value(t')))
    ensures Stored(ObjectTree(p, bs[i := Branch(key, t')])) && OldOrNewBelow(bs[i := Branch(key, t')], bs)
    ensures if c then fresh(p) else t' == t && p == o
    ensures FieldShares(env, meta, model, events, Branch(key, t), Branch(key, t'))
    decreases bound, 0
  {
    assert allocated(Below(bs));
    c, p, t' := false, o, t;
    assert bs[i := Branch(key, t)] == bs;
    if IsRelation(meta, model, key) {
      var r';
      BranchWithin(o, bs, i);
      c, r', t' := DoApplyOn(env, meta, ResolveField(meta, model, key).value.type_, r, t, events);
      if c {
        p := ReplaceField(o, bs, i, r', t, t');
      } else {
        assert bs[i := Branch(key, t')] == bs;
      }
    }
  }

  /** The first turns are done, the other fields are as they were. */
  ghost predicate FieldsTurned(
      env: Env, meta: ModelMeta, model: string, events: seq<Event>, bs: seq<Branch>, cs: seq<bool>, bs': seq<Branch>)
    requires ValidMeta(meta)
  {
    && |cs| <= |bs| == |bs'| && bs'[|cs|..] == bs[|cs|..]
    && forall k | 0 <= k < |cs| ::
         FieldTurn(env, meta, model, events, Props(bs)[k], cs[k], Props(bs')[k])
         && FieldShares(env, meta, model, events, bs[k], bs'[k])
  }

  lemma FieldTurned(
      env: Env, meta: ModelMeta, model: string, events: seq<Event>, bs: seq<Branch>, cs: seq<bool>, bs': seq<Branch>,
      c: bool, t: Tree)
    requires ValidMeta(meta) && FieldsTurned(env, meta, model, events, bs, cs, bs') && |cs| < |bs|
    requires var b, b' := bs[|cs|], Branch(bs[|cs|].key, t);
      FieldTurn(env, meta, model, events, Prop(b.key, Value(b.tree)), c, Prop(b.key, Value(t)))
      && FieldShares(env, meta, model, events, b, b')
    ensures FieldsTurned(env, meta, model, events, bs, cs + [c], bs'[|cs| := Branch(bs[|cs|].key, t)])
  {
  }

  lemma AllFieldsTurned(
      env: Env, meta: ModelMeta, model: string, events: seq<Event>, bs: seq<Branch>, cs: seq<bool>, bs': seq<Branch>,
      bound: nat)
    requires ValidMeta(meta) && FieldsTurned(env, meta, model, events, bs, cs, bs') && |cs| == |bs|
    requires FieldsWithin(meta, model, Props(bs), bound)
    ensures ApplyFields(env, meta, model, Props(bs), events, bound) == (Props(bs'), true in cs)
    ensures SharedFields(env, meta, model, events, bs, bs')
  {
    TurnsAreFields(env, meta, model, events, Props(bs), cs, Props(bs'), bound);
  }

  method FieldsOn(
      env: Env, meta: ModelMeta, model: string, o: JsObject, ghost bs: seq<Branch>, events: seq<Event>,
      ghost bound: nat)
    returns (changed: bool, o': JsObject, ghost bs': seq<Branch>)
    requires ValidMeta(meta) && Stored(ObjectTree(o, bs)) && FieldsWithin(meta, model, Props(bs), bound)
    ensures (Props(bs'), changed) == ApplyFields(env, meta, model, Props(bs), events, bound)
    ensures SharedFields(env, meta, model, events, bs, bs')
    ensures Stored(ObjectTree(o', bs')) && OldOrNewBelow(bs', bs)
    ensures if changed then fresh(o') else o' == o && bs' == bs
    decreases bound, 1
  {
    changed, o', bs' := false, o, bs;
    ghost var ps, cs := Props(bs), [];
    var entries := o.slots;
    var i := 0;
    while i < |entries|
      invariant 0 <= i <= |entries| == |bs| == |bs'|
      invariant Stored(ObjectTree(o', bs')) && OldOrNewBelow(bs', bs)
      invariant if changed then fresh(o') else o' == o && bs' == bs
      invariant |cs| == i && changed == (true in cs) && FieldsTurned(env, meta, model, events, bs, cs, bs')
    {
      assert bs'[i] == bs[i] && ps[i] in ps && entries[i] == SlotOf(bs[i]);
      var c, p;
      ghost var t;
      c, p, t := FieldOn(env, meta, model, o', bs', i, entries[i].key, entries[i].ref, bs[i].tree, events, bound);
      FieldTurned(env, meta, model, events, bs, cs, bs', c, t);
      changed, o', bs', cs := changed || c, p, bs'[i := Branch(bs[i].key, t)], cs + [c];
      i := i + 1;
    }
    AllFieldsTurned(env, meta, model, events, bs, cs, bs', bound);
  }

  lemma CachedListShares(env: Env, meta: ModelMeta, model: string, events: seq<Event>, t: Tree, m: Tree, u: Tree)
    requires ValidMeta(meta) && t.ArrayTree? && m.ArrayTree? && u.ArrayTree?
    requires EventsShare(meta, model, events, t, m) && SharedItems(env, meta, model, events, m.items, u.items)
    requires DoApply(env, meta, model, Value(t), events).Some?
    ensures Shares(env, meta, model, events, t, u)
  {
    ListResultShares(env, meta, model, events, t, m, u);
  }

  lemma CachedRecordShares(env: Env, meta: ModelMeta, model: string, events: seq<Event>, t: Tree, m: Tree, u: Tree)
    requires ValidMeta(meta) && t.ObjectTree? && m.ObjectTree? && u.ObjectTree?
    requires EventsShare(meta, model, events, t, m) && SharedFields(env, meta, model, events, m.branches, u.branches)
    requires DoApply(env, meta, model, Value(t), events).Some?
    ensures Shares(env, meta, model, events, t, u)
  {
    RecordResultShares(env, meta, model, events, t, m, u);
  }

  /**
   * `doApplyMutation` on cached data, which it only reads: there is no `modifies`, and what comes back is old or new.
   */
  method DoApplyOn(env: Env, meta: ModelMeta, model: string, r: Ref, ghost t: Tree, events: seq<Event>)
    returns (changed: bool, r': Ref, ghost t': Tree)
    requires ValidMeta(meta) && Stored(t) && RefOf(t) == r
    ensures changed == DoApply(env, meta, model, Value(t), events).Some?
    ensures if changed then Some(Value(t')) == DoApply(env, meta, model, Value(t), events) else t' == t
    ensures Stored(t') && RefOf(t') == r' && OldOrNewTree(t', t) && Shares(env, meta, model, events, t, t')
    decreases Size(Value(t)), 2, 0
  {
    assert allocated(Footprint(t));
    changed, r', t' := ApplyEventsOn(env, meta, model, r, t, events);
    ghost var m := t';
    assert allocated(Footprint(t'));
    EventsKeep(env, meta, model, Value(t), events);
    KeptIsWithin(meta, model, Value(t), Value(t'));
    match r' {
      case Plain(_) =>
        var u := DoApply(env, meta, model, r.j, events);
        changed := u.Some?;
        if changed {
          r', t' := Plain(u.value), Leaf(u.value);
        }
      case ArrayRef(a) =>
        var c, b, items := ItemsOn(env, meta, model, a, t'.items, events, Size(Value(t)));
        changed, r', t' := changed || c, ArrayRef(b), ArrayTree(b, items);
        if changed { CachedListShares(env, meta, model, events, t, m, t'); }
      case ObjectRef(o) =>
        var c, p, bs := FieldsOn(env, meta, model, o, t'.branches, events, Size(Value(t)));
        changed, r', t' := changed || c, ObjectRef(p), ObjectTree(p, bs);
        if changed { CachedRecordShares(env, meta, model, events, t, m, t'); }
    }
  }

  method ApplyEventsOn(env: Env, meta: ModelMeta, model: string, r: Ref, ghost t: Tree, events: seq<Event>)
    returns (changed: bool, r': Ref, ghost t': Tree)
    requires Stored(t) && RefOf(t) == r
    ensures (Value(t'), changed) == ApplyEvents(env, meta, model, Value(t), events)
    ensures Stored(t') && RefOf(t') == r' && OldOrNewTree(t', t) && SameKind(t, t') && (!changed ==> t' == t)
    ensures EventsShare(meta, model, events, t, t')
  {
    changed, r', t' := false, r, t;
    var n := 0;
    assert events[0..] == events;
    while n < |events|
      invariant 0 <= n <= |events|
      invariant Stored(t') && RefOf(t') == r' && OldOrNewTree(t', t) && SameKind(t, t') && (!changed ==> t' == t)
      invariant EventsShare(meta, model, events, t, t')
      invariant var rest := ApplyEvents(env, meta, model, Value(t'), events[n..]);
        ApplyEvents(env, meta, model, Value(t), events) == (rest.0, changed || rest.1)
    {
      assert events[n..][1..] == events[n + 1..];
      var c, u, ut := EventOn(env, meta, model, r', t', events[n]);
      OneOfManyShares(meta, model, events[n], events, t', ut);
      EventsShareTwice(meta, model, events, t, t', ut);
      changed, r', t' := changed || c, u, ut;
      n := n + 1;
    }
  }

  /** `applyMutation`: the result is None, or a value that shares with the cached one all that did not change. */
  method ApplyMutationOn(
      env: Env, meta: ModelMeta, queryModel: string, queryOp: string, r: Ref, ghost t: Tree, events: seq<Event>)
    returns (result: Option<Ref>, ghost t': Tree)
    requires ValidMeta(meta) && Stored(t) && RefOf(t) == r
    ensures result.Some? == ApplyMutation(env, meta, queryModel, queryOp, Value(t), events).Some?
    ensures result.Some? ==> RefOf(t') == result.value && Stored(t') && OldOrNewTree(t', t)
    ensures result.Some? ==> Shares(env, meta, queryModel, events, t, t')
    ensures result.Some? ==> Some(Value(t')) == ApplyMutation(env, meta, queryModel, queryOp, Value(t), events)
  {
    result, t' := None, t;
    if Container(Stub(r)) && "find" <= queryOp {
      var c, r1, t1 := DoApplyOn(env, meta, queryModel, r, t, events);
      if c {
        result, t' := Some(r1), t1;
      }
    }
  }
}
