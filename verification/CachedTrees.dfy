/**
 * Cached data as trees of heap objects, and what it means for two trees to share. A tree says for each place which
 * object stands there, so that equal trees are the very same data.
 */
module CachedTrees {
  import opened Optional
  import opened Json
  import opened ModelMeta
  import opened NestedWriteVisitor
  import opened Mutator

  class JsArray {
    var items: seq<Ref>

    constructor (items: seq<Ref>)
      ensures this.items == items
    {
      this.items := items;
    }
  }

  class JsObject {
    var slots: seq<Slot>

    constructor (slots: seq<Slot>)
      ensures this.slots == slots
    {
      this.slots := slots;
    }
  }

  /** A value: a reference, or data that nothing ever writes (primitives and clones of payload values). */
  datatype Ref = Plain(j: Json) | ArrayRef(a: JsArray) | ObjectRef(o: JsObject)

  datatype Slot = Slot(key: string, ref: Ref)

  /** The finite tree that cached data unfolds to. */
  datatype Tree =
    | Leaf(j: Json)
    | ArrayTree(a: JsArray, items: seq<Tree>)
    | ObjectTree(o: JsObject, branches: seq<Branch>)

  datatype Branch = Branch(key: string, tree: Tree)

  function RefOf(t: Tree): Ref {
    match t
    case Leaf(j) => Plain(j)
    case ArrayTree(a, _) => ArrayRef(a)
    case ObjectTree(o, _) => ObjectRef(o)
  }

  function SlotOf(b: Branch): Slot {
    Slot(b.key, RefOf(b.tree))
  }

  predicate SameKind(t: Tree, t': Tree) {
    t.Leaf? == t'.Leaf? && t.ArrayTree? == t'.ArrayTree?
  }

  ghost function Value(t: Tree): Json {
    match t
    case Leaf(j) => j
    case ArrayTree(_, items) => Arr(seq(|items|, i requires 0 <= i < |items| => Value(items[i])))
    case ObjectTree(_, bs) => Obj(seq(|bs|, i requires 0 <= i < |bs| => Prop(bs[i].key, Value(bs[i].tree))))
  }

  ghost function Values(items: seq<Tree>): seq<Json> {
    seq(|items|, i requires 0 <= i < |items| => Value(items[i]))
  }

  ghost function Props(bs: seq<Branch>): seq<Prop> {
    seq(|bs|, i requires 0 <= i < |bs| => Prop(bs[i].key, Value(bs[i].tree)))
  }

  ghost function Footprint(t: Tree): set<object>
    decreases t, 0
  {
    match t
    case Leaf(_) => {}
    case ArrayTree(a, items) => {a} + ItemsFootprint(items)
    case ObjectTree(o, bs) => {o} + Below(bs)
  }

  ghost function ItemsFootprint(items: seq<Tree>): set<object>
    decreases items, 1
  {
    if items == [] then {} else Footprint(items[0]) + ItemsFootprint(items[1..])
  }

  ghost function Below(bs: seq<Branch>): set<object>
    decreases bs, 1
  {
    if bs == [] then {} else Footprint(bs[0].tree) + Below(bs[1..])
  }

  lemma {:induction false} ItemsFootprintIs(items: seq<Tree>, x: object)
    ensures x in ItemsFootprint(items) <==> exists k | k in items :: x in Footprint(k)
  {
    if items == [] {
    } else {
      var first, rest := items[0], items[1..];
      ItemsFootprintIs(rest, x);
      if x in Footprint(first) {
        assert first in items;
      } else if k :| k in rest && x in Footprint(k) {
        assert k in items;
      }
    }
  }

  lemma {:induction false} BelowIs(bs: seq<Branch>, x: object)
    ensures x in Below(bs) <==> exists b | b in bs :: x in Footprint(b.tree)
  {
    if bs == [] {
    } else {
      BelowIs(bs[1..], x);
      assert forall b :: b in bs <==> b == bs[0] || b in bs[1..];
    }
  }

  /** The heap holds the tree. */
  ghost predicate Stored(t: Tree)
    reads Footprint(t)
    decreases t
  {
    match t
    case Leaf(_) => true
    case ArrayTree(a, items) =>
      |a.items| == |items| && forall i | 0 <= i < |items| ::
        a.items[i] == RefOf(items[i]) && (ItemWithin(a, items, i); Stored(items[i]))
    case ObjectTree(o, bs) =>
      |o.slots| == |bs| && forall i | 0 <= i < |bs| ::
        o.slots[i] == SlotOf(bs[i]) && (BranchWithin(o, bs, i); Stored(bs[i].tree))
  }

  lemma ItemWithin(a: JsArray, items: seq<Tree>, i: nat)
    requires i < |items|
    ensures Footprint(items[i]) <= Footprint(ArrayTree(a, items))
  {
    forall x: object | x in Footprint(items[i]) ensures x in ItemsFootprint(items) {
      ItemsFootprintIs(items, x);
    }
  }

  lemma BranchWithin(o: JsObject, bs: seq<Branch>, i: nat)
    requires i < |bs|
    ensures Footprint(bs[i].tree) <= Below(bs) <= Footprint(ObjectTree(o, bs))
  {
    forall x: object | x in Footprint(bs[i].tree) ensures x in Below(bs) {
      BelowIs(bs, x);
    }
  }

  // ----- reading one level -----

  function Stub(r: Ref): Json {
    match r
    case Plain(j) => j
    case ArrayRef(_) => Arr([])
    case ObjectRef(_) => Obj([])
  }

  function Stubs(slots: seq<Slot>): seq<Prop> {
    seq(|slots|, i requires 0 <= i < |slots| => Prop(slots[i].key, Stub(slots[i].ref)))
  }

  function ObjectsOf(r: Ref): set<object> {
    if r.ObjectRef? then {r.o} else {}
  }

  /** The record `r` as far as its own slots go. */
  function Shallow(r: Ref): Json
    reads ObjectsOf(r)
  {
    match r
    case Plain(j) => j
    case ArrayRef(_) => Arr([])
    case ObjectRef(o) => Obj(Stubs(o.slots))
  }

  /** Equal, or both arrays, or both objects. */
  predicate SameStub(x: Json, y: Json) {
    x == y || (x.Arr? && y.Arr?) || (x.Obj? && y.Obj?)
  }

  lemma SameKeys(x: seq<Prop>, y: seq<Prop>, k: string)
    requires |x| == |y| && forall i | 0 <= i < |x| :: x[i].key == y[i].key
    ensures IndexOf(x, k) == IndexOf(y, k)
  {
    IndexIs(x, k, IndexOf(y, k));
  }

  lemma ShallowMember(t: Tree, k: string)
    requires Stored(t)
    ensures SameStub(Member(Shallow(RefOf(t)), k), Member(Value(t), k))
    ensures HasMember(Shallow(RefOf(t)), k) == HasMember(Value(t), k)
  {
    if t.ObjectTree? {
      SameKeys(Stubs(t.o.slots), Props(t.branches), k);
    }
  }

  lemma SkipIsShallow(t: Tree)
    requires Stored(t)
    ensures Skipped(Shallow(RefOf(t))) == Skipped(Value(t))
  {
    ShallowMember(t, OPTIMISTIC);
  }

  lemma IdIsShallow(env: Env, t: Tree, k: string)
    requires Stored(t)
    ensures IntOf(env, Member(Shallow(RefOf(t)), k)) == IntOf(env, Member(Value(t), k))
  {
    ShallowMember(t, k);
  }

  lemma MatchIsShallow(meta: ModelMeta, model: string, t: Tree, where_: Json)
    requires Stored(t)
    ensures IdFieldsMatch(meta, model, Shallow(RefOf(t)), where_) == IdFieldsMatch(meta, model, Value(t), where_)
  {
    forall f | f in IdNames(meta, model)
      ensures StrictEqual(Member(Shallow(RefOf(t)), f), Member(where_, f))
        == StrictEqual(Member(Value(t), f), Member(where_, f))
    {
      ShallowMember(t, f);
    }
  }

  // ----- assigning to a clone -----

  function PutSlot(slots: seq<Slot>, k: string, r: Ref): seq<Slot> {
    var i := IndexOf(Stubs(slots), k);
    if i < |slots| then slots[i := Slot(k, r)] else slots + [Slot(k, r)]
  }

  ghost function PutBranch(bs: seq<Branch>, k: string, t: Tree): seq<Branch> {
    var i := IndexOf(Props(bs), k);
    if i < |bs| then bs[i := Branch(k, t)] else bs + [Branch(k, t)]
  }

  lemma PutBranchValue(bs: seq<Branch>, k: string, j: Json)
    ensures Props(PutBranch(bs, k, Leaf(j))) == Put(Props(bs), k, j)
  {
    var i := IndexOf(Props(bs), k);
    if i < |bs| {
      assert Props(bs[i := Branch(k, Leaf(j))]) == Props(bs)[i := Prop(k, j)];
    } else {
      assert Props(bs + [Branch(k, Leaf(j))]) == Props(bs) + [Prop(k, j)];
    }
  }

  /** The object is not part of its own branches. */
  ghost predicate Apart(o: object, bs: seq<Branch>) {
    forall b | b in bs :: o !in Footprint(b.tree)
  }

  lemma PutBranchBelow(bs: seq<Branch>, k: string, j: Json)
    ensures forall b | b in PutBranch(bs, k, Leaf(j)) :: b in bs || b == Branch(k, Leaf(j))
    ensures Below(PutBranch(bs, k, Leaf(j))) <= Below(bs)
  {
    forall x: object | x in Below(PutBranch(bs, k, Leaf(j))) ensures x in Below(bs) {
      BelowIs(PutBranch(bs, k, Leaf(j)), x);
      BelowIs(bs, x);
    }
  }

  function PlainSlots(fields: seq<Prop>): seq<Slot> {
    seq(|fields|, i requires 0 <= i < |fields| => Slot(fields[i].key, Plain(fields[i].val)))
  }

  function PlainBranches(fields: seq<Prop>): seq<Branch> {
    seq(|fields|, i requires 0 <= i < |fields| => Branch(fields[i].key, Leaf(fields[i].val)))
  }

  lemma PlainBranchesHold(fields: seq<Prop>)
    ensures Props(PlainBranches(fields)) == fields && Below(PlainBranches(fields)) == {}
  {
    forall x: object | x in Below(PlainBranches(fields)) ensures false {
      BelowIs(PlainBranches(fields), x);
    }
  }

  /** The change that a call makes to a single record, if any. */
  function RecordUpdate(e: Event): Option<Json> {
    if e.callback.OnUpdate? then Some(Member(e.data, "data"))
    else if e.callback.OnUpsert? && Member(e.data, "where").Truthy() && Member(e.data, "create").Truthy()
            && Member(e.data, "update").Truthy() then Some(Member(e.data, "update"))
    else None
  }

  // ----- records and lists that share -----

  function KeysOf(ps: seq<Prop>): set<string> {
    set p | p in ps :: p.key
  }

  /** The branches after assigning plain values. */
  ghost function PutLeaves(bs: seq<Branch>, ps: seq<Prop>): seq<Branch>
    decreases |ps|
  {
    if ps == [] then bs else PutLeaves(PutBranch(bs, ps[0].key, Leaf(ps[0].val)), ps[1..])
  }

  /** Only the given keys are assigned plain values; everything under other keys is the very same tree. */
  ghost predicate Rewritten(keys: set<string>, bs: seq<Branch>, bs': seq<Branch>) {
    && (forall b | b in bs' :: b in bs || (b.tree.Leaf? && b.key in keys))
    && (forall b | b in bs && b.key !in keys :: b in bs')
  }

  lemma RewrittenTwice(keys: set<string>, a: seq<Branch>, b: seq<Branch>, c: seq<Branch>)
    requires Rewritten(keys, a, b) && Rewritten(keys, b, c)
    ensures Rewritten(keys, a, c)
  {
  }

  lemma PutBranchRewrites(bs: seq<Branch>, k: string, j: Json)
    ensures Rewritten({k}, bs, PutBranch(bs, k, Leaf(j)))
  {
    var i, bs' := IndexOf(Props(bs), k), PutBranch(bs, k, Leaf(j));
    forall b | b in bs && b.key != k ensures b in bs' {
      var n :| 0 <= n < |bs| && bs[n] == b;
      assert i < |bs| ==> Props(bs)[i].key == bs[i].key == k;
      assert bs'[n] == b;
    }
  }

  lemma {:induction false} PutLeavesRewrite(bs: seq<Branch>, ps: seq<Prop>)
    ensures Rewritten(KeysOf(ps), bs, PutLeaves(bs, ps))
    decreases |ps|
  {
    if ps == [] {
    } else {
      var bs' := PutBranch(bs, ps[0].key, Leaf(ps[0].val));
      PutBranchRewrites(bs, ps[0].key, ps[0].val);
      PutLeavesRewrite(bs', ps[1..]);
      assert ps[0].key in KeysOf(ps) && KeysOf(ps[1..]) <= KeysOf(ps);
      RewrittenTwice(KeysOf(ps), bs, bs', PutLeaves(bs, ps));
    }
  }

  /** A record made by a create: one new object, nothing cached below it. */
  ghost predicate Created(t: Tree) {
    t.ObjectTree? && Marked(Value(t)) && forall b | b in t.branches :: b.tree.Leaf?
  }

  /** A record made by an update: one new object over the branches of the old one. */
  ghost predicate Updated(keys: set<string>, x: Tree, y: Tree) {
    Marked(Value(y)) &&
    ((x.Leaf? && y.Leaf?) || (x.ObjectTree? && y.ObjectTree? && Rewritten(keys, x.branches, y.branches)))
  }

  ghost predicate ItemFrom(keys: set<string>, items: seq<Tree>, y: Tree) {
    y in items || Created(y) || exists x | x in items :: Updated(keys, x, y)
  }

  /** What a call assigns to a record it applies to. */
  function ChangesOf(meta: ModelMeta, model: string, e: Event): seq<Prop> {
    if e.model == model && RecordUpdate(e).Some? && RecordUpdate(e).value.Obj?
    then ChangeAssignments(meta, model, RecordUpdate(e).value.fields) else []
  }

  function AssignedKeys(meta: ModelMeta, model: string, events: seq<Event>): set<string> {
    set e, p | e in events && p in ChangesOf(meta, model, e) :: p.key
  }

  /** Some call on lists means this item. */
  ghost predicate Addressed(meta: ModelMeta, model: string, events: seq<Event>, v: Json) {
    exists e | e in events :: Addresses(meta, model, e, v)
  }

  predicate Addresses(meta: ModelMeta, model: string, e: Event, v: Json) {
    e.model == model &&
    match e.callback
    case OnUpsert => IdFieldsMatch(meta, model, v, Member(e.data, "where"))
    case OnDelete => IdFieldsMatch(meta, model, v, e.data)
    case _ => false
  }

  /** Items are cached ones or new records, and no item is missing or copied that no call means. */
  ghost predicate ListShares(meta: ModelMeta, model: string, events: seq<Event>, items: seq<Tree>, items': seq<Tree>) {
    && (forall y | y in items' :: ItemFrom(AssignedKeys(meta, model, events), items, y))
    && (forall x | x in items && !Addressed(meta, model, events, Value(x)) :: x in items')
  }

  /** What the calls alone make of a result. */
  ghost predicate EventsShare(meta: ModelMeta, model: string, events: seq<Event>, t: Tree, m: Tree) {
    || m == t
    || (t.Leaf? && m.Leaf?)
    || (t.ArrayTree? && m.ArrayTree? && ListShares(meta, model, events, t.items, m.items))
    || (t.ObjectTree? && m.ObjectTree? && Rewritten(AssignedKeys(meta, model, events), t.branches, m.branches))
  }

  lemma UpdatedTwice(keys: set<string>, items: seq<Tree>, x: Tree, y: Tree)
    requires ItemFrom(keys, items, x) && Updated(keys, x, y)
    ensures ItemFrom(keys, items, y)
  {
    if x !in items && !Created(x) {
      var w :| w in items && Updated(keys, w, x);
      if w.ObjectTree? {
        RewrittenTwice(keys, w.branches, x.branches, y.branches);
      }
      assert Updated(keys, w, y);
    }
  }

  lemma ListSharesTwice(
      meta: ModelMeta, model: string, events: seq<Event>, a: seq<Tree>, b: seq<Tree>, c: seq<Tree>)
    requires ListShares(meta, model, events, a, b) && ListShares(meta, model, events, b, c)
    ensures ListShares(meta, model, events, a, c)
  {
    var keys := AssignedKeys(meta, model, events);
    forall y | y in c ensures ItemFrom(keys, a, y) {
      assert ItemFrom(keys, b, y);
      if y in b {
        assert ItemFrom(keys, a, y);
      } else if !Created(y) {
        var x :| x in b && Updated(keys, x, y);
        UpdatedTwice(keys, a, x, y);
      }
    }
  }

  lemma EventsShareTwice(meta: ModelMeta, model: string, events: seq<Event>, a: Tree, b: Tree, c: Tree)
    requires EventsShare(meta, model, events, a, b) && EventsShare(meta, model, events, b, c)
    ensures EventsShare(meta, model, events, a, c)
  {
    if a.ArrayTree? && a != b && b != c {
      ListSharesTwice(meta, model, events, a.items, b.items, c.items);
    } else if a.ObjectTree? && a != b && b != c {
      RewrittenTwice(AssignedKeys(meta, model, events), a.branches, b.branches, c.branches);
    }
  }

  lemma UpdatedWithMore(few: set<string>, keys: set<string>, x: Tree, y: Tree)
    requires few <= keys && Updated(few, x, y)
    ensures Updated(keys, x, y)
  {
  }

  /** Sharing under one call is sharing under all of them. */
  lemma OneOfManyShares(meta: ModelMeta, model: string, e: Event, events: seq<Event>, t: Tree, m: Tree)
    requires e in events && EventsShare(meta, model, [e], t, m)
    ensures EventsShare(meta, model, events, t, m)
  {
    var few, keys := AssignedKeys(meta, model, [e]), AssignedKeys(meta, model, events);
    assert few <= keys;
    if t.ArrayTree? && m != t {
      forall y | y in m.items ensures ItemFrom(keys, t.items, y) {
        assert ItemFrom(few, t.items, y);
        if y !in t.items && !Created(y) {
          var x :| x in t.items && Updated(few, x, y);
          UpdatedWithMore(few, keys, x, y);
        }
      }
      forall x | x in t.items && !Addressed(meta, model, events, Value(x)) ensures x in m.items {
        assert !Addresses(meta, model, e, Value(x));
      }
    }
  }

  // ----- the whole result -----

  /** Nothing applies to the item, which the recursion may not even enter. */
  ghost predicate Unaffected(env: Env, meta: ModelMeta, model: string, events: seq<Event>, x: Tree)
    requires ValidMeta(meta)
  {
    Skipped(Value(x)) || DoApply(env, meta, model, Value(x), events).None?
  }

  ghost predicate FieldUnaffected(env: Env, meta: ModelMeta, model: string, events: seq<Event>, b: Branch)
    requires ValidMeta(meta)
  {
    !IsRelation(meta, model, b.key)
    || DoApply(env, meta, ResolveField(meta, model, b.key).value.type_, Value(b.tree), events).None?
  }

  /**
   * The result shares with the cached data all that did not change. Only a result that something applies to is new at
   * its root. Its list items are cached items, new marked records over cached branches, or again results; its fields
   * are cached ones, assigned ones, or again results; and whatever is unaffected is there as the very same tree.
   */
  ghost predicate Shares(env: Env, meta: ModelMeta, model: string, events: seq<Event>, t: Tree, u: Tree)
    requires ValidMeta(meta)
    decreases t
  {
    u == t ||
    (DoApply(env, meta, model, Value(t), events).Some? &&
     match t
     case Leaf(_) => u.Leaf?
     case ArrayTree(_, items) =>
       && u.ArrayTree?
       && (forall j | 0 <= j < |u.items| ::
             ItemFrom(AssignedKeys(meta, model, events), items, u.items[j])
             || exists i | 0 <= i < |items| ::
               !Skipped(Value(items[i])) && Shares(env, meta, model, events, items[i], u.items[j]))
       && (forall i | 0 <= i < |items| ::
             !Addressed(meta, model, events, Value(items[i])) && Unaffected(env, meta, model, events, items[i])
             ==> items[i] in u.items)
     case ObjectTree(_, bs) =>
       && u.ObjectTree?
       && (forall j | 0 <= j < |u.branches| ::
             || u.branches[j] in bs
             || (u.branches[j].tree.Leaf? && u.branches[j].key in AssignedKeys(meta, model, events))
             || exists i | 0 <= i < |bs| :: bs[i].key == u.branches[j].key && IsRelation(meta, model, bs[i].key)
                  && Shares(env, meta, ResolveField(meta, model, bs[i].key).value.type_, events, bs[i].tree,
                            u.branches[j].tree))
       && (forall i | 0 <= i < |bs| ::
             bs[i].key !in AssignedKeys(meta, model, events) && FieldUnaffected(env, meta, model, events, bs[i])
             ==> bs[i] in u.branches))
  }

  /** One turn of the loop over a list. */
  ghost predicate ItemShares(env: Env, meta: ModelMeta, model: string, events: seq<Event>, x: Tree, y: Tree)
    requires ValidMeta(meta)
  {
    y == x || (!Unaffected(env, meta, model, events, x) && Shares(env, meta, model, events, x, y))
  }

  ghost predicate FieldShares(env: Env, meta: ModelMeta, model: string, events: seq<Event>, b: Branch, b': Branch)
    requires ValidMeta(meta)
  {
    b' == b ||
    (b'.key == b.key && !FieldUnaffected(env, meta, model, events, b)
     && Shares(env, meta, ResolveField(meta, model, b.key).value.type_, events, b.tree, b'.tree))
  }

  ghost predicate SharedItems(
      env: Env, meta: ModelMeta, model: string, events: seq<Event>, items: seq<Tree>, items': seq<Tree>)
    requires ValidMeta(meta)
  {
    |items'| == |items| && forall i | 0 <= i < |items| :: ItemShares(env, meta, model, events, items[i], items'[i])
  }

  ghost predicate SharedFields(
      env: Env, meta: ModelMeta, model: string, events: seq<Event>, bs: seq<Branch>, bs': seq<Branch>)
    requires ValidMeta(meta)
  {
    |bs'| == |bs| && forall i | 0 <= i < |bs| :: FieldShares(env, meta, model, events, bs[i], bs'[i])
  }

  /** An item that the recursion changes is a cached one: new ones are marked, and so passed over. */
  lemma ChangedItemIsCached(env: Env, meta: ModelMeta, model: string, events: seq<Event>, items: seq<Tree>, x: Tree)
    requires ValidMeta(meta) && ItemFrom(AssignedKeys(meta, model, events), items, x)
    requires !Unaffected(env, meta, model, events, x)
    ensures x in items
  {
  }

  lemma ListResultShares(env: Env, meta: ModelMeta, model: string, events: seq<Event>, t: Tree, m: Tree, u: Tree)
    requires ValidMeta(meta) && t.ArrayTree? && m.ArrayTree? && u.ArrayTree?
    requires ListShares(meta, model, events, t.items, m.items)
      && SharedItems(env, meta, model, events, m.items, u.items)
    requires DoApply(env, meta, model, Value(t), events).Some?
    ensures Shares(env, meta, model, events, t, u)
  {
    var keys, items := AssignedKeys(meta, model, events), t.items;
    forall j | 0 <= j < |u.items|
      ensures ItemFrom(keys, items, u.items[j])
        || exists i | 0 <= i < |items| ::
          !Skipped(Value(items[i])) && Shares(env, meta, model, events, items[i], u.items[j])
    {
      var x := m.items[j];
      assert x in m.items && ItemShares(env, meta, model, events, x, u.items[j]);
      if u.items[j] != x {
        ChangedItemIsCached(env, meta, model, events, items, x);
        var i :| 0 <= i < |items| && items[i] == x;
        assert !Skipped(Value(items[i])) && Shares(env, meta, model, events, items[i], u.items[j]);
      }
    }
    forall i | 0 <= i < |items| && !Addressed(meta, model, events, Value(items[i]))
      && Unaffected(env, meta, model, events, items[i])
      ensures items[i] in u.items
    {
      assert items[i] in m.items;
      var j :| 0 <= j < |m.items| && m.items[j] == items[i];
      assert ItemShares(env, meta, model, events, m.items[j], u.items[j]);
    }
  }

  lemma RelationsAreNotAssigned(meta: ModelMeta, model: string, events: seq<Event>, k: string)
    requires ValidMeta(meta) && k in AssignedKeys(meta, model, events)
    ensures !IsRelation(meta, model, k)
  {
    var e, p :| e in events && p in ChangesOf(meta, model, e) && p.key == k;
    ChangesAreScalar(meta, model, RecordUpdate(e).value.fields);
  }

  lemma RecordResultShares(env: Env, meta: ModelMeta, model: string, events: seq<Event>, t: Tree, m: Tree, u: Tree)
    requires ValidMeta(meta) && t.ObjectTree? && m.ObjectTree? && u.ObjectTree?
    requires Rewritten(AssignedKeys(meta, model, events), t.branches, m.branches)
    requires SharedFields(env, meta, model, events, m.branches, u.branches)
    requires DoApply(env, meta, model, Value(t), events).Some?
    ensures Shares(env, meta, model, events, t, u)
  {
    var keys, bs := AssignedKeys(meta, model, events), t.branches;
    forall j | 0 <= j < |u.branches|
      ensures u.branches[j] in bs || (u.branches[j].tree.Leaf? && u.branches[j].key in keys)
        || exists i | 0 <= i < |bs| :: bs[i].key == u.branches[j].key && IsRelation(meta, model, bs[i].key)
             && Shares(env, meta, ResolveField(meta, model, bs[i].key).value.type_, events, bs[i].tree,
                       u.branches[j].tree)
    {
      var b := m.branches[j];
      assert b in m.branches && FieldShares(env, meta, model, events, b, u.branches[j]);
      if u.branches[j] != b {
        if b.key in keys { RelationsAreNotAssigned(meta, model, events, b.key); }
        var i :| 0 <= i < |bs| && bs[i] == b;
        assert IsRelation(meta, model, bs[i].key);
      }
    }
    forall i | 0 <= i < |bs| && bs[i].key !in keys && FieldUnaffected(env, meta, model, events, bs[i])
      ensures bs[i] in u.branches
    {
      assert bs[i] in m.branches;
      var j :| 0 <= j < |m.branches| && m.branches[j] == bs[i];
      assert FieldShares(env, meta, model, events, m.branches[j], u.branches[j]);
    }
  }
}
