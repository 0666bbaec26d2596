/** Compiled access policies mean what the rule says, on data with any parts missing. */
module PolicyMeaning {
  import opened Optional
  import opened ZModelSyntax
  import opened JavaScript
  import opened ExpressionTransformer

  // ----- data that follows the schema -----

  predicate Scalar(t: Ty) {
    t.BoolT? || t.NumT? || t.StrT? || t.EnumT?
  }

  /** Any value may be missing, ids included; lists have no missing elements; a record has no undeclared `id`. */
  ghost predicate HasType(s: Schema, v: Val, t: Ty)
    decreases v
  {
    v.Nullish() ||
    match t
    case BoolT => v.VBool?
    case NumT => v.VNum?
    case StrT | EnumT(_) => v.VStr?
    case ObjectT(_) => v.VObj?
    case ListT(of) => v.VArr? && forall x | x in v.elems :: !x.Nullish() && HasType(s, x, of)
    case ModelT(m) =>
      v.VObj? && m in s.models && ("id" in v.props ==> IsField(s, m, "id"))
      && (forall f | f in s.models[m].fields && f in v.props :: HasType(s, v.props[f], s.models[m].fields[f]))
    case NullT | UnknownT => false
  }

  // ----- the meaning of a rule: no contexts, no undefined, plain quantifiers -----

  /** Who asks, the entity, and the record whose fields bare names read. */
  datatype Moment = Moment(user: Val, entity: Val, subject: Val)

  function Norm(v: Val): Val {
    if v.Undef? then VNull else v
  }

  function Read(v: Val, f: string): Val {
    if v.VObj? && f in v.props then Norm(v.props[f]) else VNull
  }

  predicate SameRecord(ids: seq<string>, a: Val, b: Val) {
    if a.VNull? || b.VNull? then a == b else forall f | f in ids :: Read(a, f) == Read(b, f)
  }

  function LiteralValue(l: Literal): Val {
    match l
    case NumberLiteral(i) => VNum(i)
    case StringLiteral(t) => VStr(t)
    case BooleanLiteral(b) => VBool(b)
  }

  ghost function Meaning(s: Schema, sc: Scope, e: Expr, m: Moment): Val
    decreases e
  {
    match e
    case Lit(l) => LiteralValue(l)
    case Null => VNull
    case This => m.entity
    case Array(items) => VArr(0, seq(|items|, i requires 0 <= i < |items| => Meaning(s, sc, items[i], m)))
    case Ref(name, _) => if IsField(s, sc.cur, name) then Read(m.subject, name) else VStr(name)
    case Member(x, name) => Read(if IsFuture(x) then m.entity else Meaning(s, sc, x, m), name)
    case Not(x) => VBool(!Meaning(s, sc, x, m).Truthy())
    case Object(_) => VNull
    case Invoke(name, args) =>
      if name == "auth" || |args| != 2 then Norm(m.user)
      else VBool(Found(name, Meaning(s, sc, args[0], m), Meaning(s, sc, args[1], m)))
    case Binary(op, l, r) =>
      var a := Meaning(s, sc, l, m);
      if !IsCollectionPredicate(op) then
        OperatorValue(op, ModelOf(s, sc, l, r), a, Meaning(s, sc, r, m))
      else if a.VArr? then
        VBool(Quantify(op, seq(|a.elems|, i requires 0 <= i < |a.elems| =>
          Meaning(s, Inner(s, sc, l), r, m.(subject := a.elems[i])))))
      else VBool(op.OpNone?)
  }

  /** `ids` are the id fields when records are compared. */
  function OperatorValue(op: BinOp, ids: Option<seq<string>>, a: Val, b: Val): Val {
    if op.OpAnd? then VBool(a.Truthy() && b.Truthy())
    else if op.OpOr? then VBool(a.Truthy() || b.Truthy())
    else if op.OpIn? then VBool(b.VArr? && a in b.elems)
    else if op.OpEq? then VBool(SameValue(ids, a, b))
    else if op.OpNe? then VBool(!SameValue(ids, a, b))
    else VBool(a.VNum? && b.VNum? && NumbersRelate(op, a.n, b.n))
  }

  /** No relation holds of what is missing. */
  predicate NumbersRelate(op: BinOp, a: int, b: int) {
    match op
    case OpLt => a < b
    case OpLe => a <= b
    case OpGt => a > b
    case OpGe => a >= b
    case _ => false
  }

  predicate IsRelation(op: BinOp) {
    op.OpLt? || op.OpLe? || op.OpGt? || op.OpGe?
  }

  predicate Quantify(op: BinOp, results: seq<Val>) {
    if op.OpSome? then exists i | 0 <= i < |results| :: results[i].Truthy()
    else if op.OpEvery? then forall i | 0 <= i < |results| :: results[i].Truthy()
    else forall i | 0 <= i < |results| :: !results[i].Truthy()
  }

  /** Lists are compared item by item, models as records, everything else by content; missing equals missing. */
  predicate SameValue(ids: Option<seq<string>>, a: Val, b: Val) {
    if a.VArr? && b.VArr? then SameList(ids, a.elems, b.elems) else SameItem(ids, a, b)
  }

  predicate SameList(ids: Option<seq<string>>, a: seq<Val>, b: seq<Val>) {
    |a| == |b| && forall i | 0 <= i < |a| :: SameItem(ids, a[i], b[i])
  }

  predicate SameItem(ids: Option<seq<string>>, a: Val, b: Val) {
    if ids.Some? then SameRecord(ids.value, a, b)
    else if a.VObj? && b.VObj? then a.props == b.props
    else a == b
  }

  function ModelOf(s: Schema, sc: Scope, l: Expr, r: Expr): Option<seq<string>> {
    var t, u := TypeOf(s, sc, l), TypeOf(s, sc, r);
    if t.ModelT? && u.ModelT? then Some(Ids(s, t.model))
    else if AreLists(t, u) && t.of.ModelT? && u.of.ModelT? then Some(Ids(s, t.of.model))
    else None
  }

  predicate AreLists(t: Ty, u: Ty) {
    t.ListT? && u.ListT?
  }

  function SearchKind(name: string): Search {
    if name == "startsWith" then StartsWith else if name == "endsWith" then EndsWith else Includes
  }

  predicate Found(name: string, where_: Val, what: Val) {
    if where_.VStr? && what.VStr? then
      StringSearch(SearchKind(name), where_.s, what.s)
    else where_.VArr? && what in where_.elems
  }

  // ----- what evaluation leaves, and where that is enough -----

  predicate Connective(e: Expr) {
    e.Binary? && (e.op.OpAnd? || e.op.OpOr?)
  }

  /** `&&` and `||` do not yield their truth but the operand that decides, which may be missing. */
  ghost function Decision(s: Schema, sc: Scope, e: Expr, m: Moment): Val
    decreases e
  {
    if Connective(e) then
      var a := Decision(s, sc, e.left, m);
      if a.Truthy() == e.op.OpAnd? then Decision(s, sc, e.right, m) else a
    else Meaning(s, sc, e, m)
  }

  lemma {:induction false} DecisionHasTruth(s: Schema, sc: Scope, e: Expr, m: Moment)
    ensures Decision(s, sc, e, m).Truthy() == Meaning(s, sc, e, m).Truthy()
    ensures Connective(e) ==> Meaning(s, sc, e, m) == VBool(Decision(s, sc, e, m).Truthy())
    decreases e
  {
    if Connective(e) {
      DecisionHasTruth(s, sc, e.left, m);
      DecisionHasTruth(s, sc, e.right, m);
    }
  }

  /** A connective that is false because the operand that decides it is missing. */
  ghost predicate Hides(s: Schema, sc: Scope, e: Expr, m: Moment) {
    Connective(e) && Decision(s, sc, e, m).VNull?
  }

  /** What evaluation leaves, where missing is null or undefined as in the data; `n` makes null of it along a path. */
  ghost function Raw(s: Schema, sc: Scope, e: Expr, n: bool, m: Moment): Val
    decreases e
  {
    match e
    case Ref(name, _) => if IsField(s, sc.cur, name) then Prop(m.subject, name) else VStr(name)
    case Member(x, name) =>
      if IsFuture(x) then Prop(m.entity, name)
      else
        var v := Prop(Raw(s, sc, x, n, m), name);
        if n then Norm(v) else v
    case Invoke(name, _) => if name == "auth" then m.user else Meaning(s, sc, e, m)
    case Binary(op, l, r) =>
      if !Connective(e) then Meaning(s, sc, e, m)
      else
        var a := Raw(s, sc, l, n, m);
        if a.Truthy() == op.OpAnd? then Raw(s, sc, r, n, m) else a
    case _ => Meaning(s, sc, e, m)
  }

  /**
   * What makes `l == r` right: at most hidden on both sides, or one side true. Records are told apart by a field `id`,
   * whatever their ids are. Lists of models are all equal to the code; other lists, and dates and the like, are what
   * they are to JavaScript, objects, equal to none but themselves.
   */
  ghost predicate ComparesRight(s: Schema, sc: Scope, l: Expr, r: Expr, m: Moment) {
    var t, u := TypeOf(s, sc, l), TypeOf(s, sc, r);
    if l.This? || r.This? then ThisComparesRight(Ids(s, sc.root), Meaning(s, sc, l, m), Meaning(s, sc, r, m))
    else if AreLists(t, u) then ListsCompareRight(ModelOf(s, sc, l, r), Meaning(s, sc, l, m), Meaning(s, sc, r, m))
    else if AreModels(t, u) then RecordsCompareRight(s, t.model, Meaning(s, sc, l, m), Meaning(s, sc, r, m))
    else if AreObjects(t, u) then ObjectsCompareRight(Meaning(s, sc, l, m), Meaning(s, sc, r, m))
    else
      || Hides(s, sc, l, m) == Hides(s, sc, r, m)
      || Meaning(s, sc, l, m).Truthy()
      || Meaning(s, sc, r, m).Truthy()
  }

  predicate AreModels(t: Ty, u: Ty) {
    t.ModelT? && u.ModelT?
  }

  predicate AreObjects(t: Ty, u: Ty) {
    t.ObjectT? && u.ObjectT?
  }

  predicate ObjectsCompareRight(a: Val, b: Val) {
    a.VObj? && b.VObj? ==> (a.props == b.props <==> a.objectId == b.objectId)
  }

  /** Two records with the same ids miss the same of them in the same way, as null or as undefined. */
  predicate ThisComparesRight(ids: seq<string>, a: Val, b: Val) {
    a.VObj? && b.VObj? && SameRecord(ids, a, b) ==> forall f | f in ids :: Prop(a, f) == Prop(b, f)
  }

  /** Two records are as different as their fields `id`, and one alone has an `id` to be told from none by. */
  predicate RecordsCompareRight(s: Schema, model: string, a: Val, b: Val) {
    if a.VObj? && b.VObj? then
      ComparedById(s, model) || (Read(a, "id") == Read(b, "id") <==> SameRecord(Ids(s, model), a, b))
    else
      (a.VObj? ==> !Read(a, "id").VNull?) && (b.VObj? ==> !Read(b, "id").VNull?)
  }

  predicate ListsCompareRight(ids: Option<seq<string>>, a: Val, b: Val) {
    if ids.Some? then SameValue(ids, a, b)
    else a.VArr? && b.VArr? ==> (SameList(None, a.elems, b.elems) <==> a.arrayId == b.arrayId != 0)
  }

  ghost predicate HidesItem(s: Schema, sc: Scope, list: Expr, m: Moment) {
    list.Array? && exists i | 0 <= i < |list.items| :: Hides(s, sc, list.items[i], m)
  }

  /** Enough for a search: nothing hidden that matters, and not a missing value among missing items written out. */
  ghost predicate SearchesRight(s: Schema, sc: Scope, x: Expr, list: Expr, m: Moment) {
    && !HidesItem(s, sc, list, m)
    && (Hides(s, sc, x, m) ==> !Among(VBool(false), Meaning(s, sc, list, m)))
    && (list.Array? && Decision(s, sc, x, m).VNull? ==> !Among(VNull, Meaning(s, sc, list, m)))
  }

  predicate Among(v: Val, list: Val) {
    list.VArr? && v in list.elems
  }

  /** Both sides are there. */
  ghost predicate RelatesRight(s: Schema, sc: Scope, l: Expr, r: Expr, m: Moment) {
    Meaning(s, sc, l, m).VNum? && Meaning(s, sc, r, m).VNum?
  }

  /** Every comparison and search that evaluation comes to, at every element, is one of these. */
  ghost predicate Settled(s: Schema, sc: Scope, e: Expr, m: Moment)
    decreases e
  {
    match e
    case Member(x, _) => IsFuture(x) || Settled(s, sc, x, m)
    case Not(x) => Settled(s, sc, x, m)
    case Array(items) => forall i | 0 <= i < |items| :: Settled(s, sc, items[i], m)
    case Invoke(name, args) =>
      |args| == 2 ==>
        Settled(s, sc, args[0], m) && Settled(s, sc, args[1], m)
        && (name == "has" ==> SearchesRight(s, sc, args[1], args[0], m))
    case Binary(op, l, r) =>
      Settled(s, sc, l, m) &&
      if IsCollectionPredicate(op) then
        var a := Meaning(s, sc, l, m);
        a.VArr? ==> forall x | x in a.elems :: Settled(s, Inner(s, sc, l), r, m.(subject := x))
      else if op.OpAnd? || op.OpOr? then
        Meaning(s, sc, l, m).Truthy() == op.OpAnd? ==> Settled(s, sc, r, m)
      else
        Settled(s, sc, r, m)
        && (if op.OpIn? then SearchesRight(s, sc, l, r, m)
            else if IsRelation(op) then RelatesRight(s, sc, l, r, m)
            else ComparesRight(s, sc, l, r, m))
    case _ => true
  }

  // ----- the fragment -----

  predicate Constant(s: Schema, sc: Scope, e: Expr) {
    e.Lit? || (e.Ref? && !IsField(s, sc.cur, e.target) && e.target in s.enums)
  }

  /** The model's only id field is the one called `id`. */
  predicate ComparedById(s: Schema, model: string) {
    Ids(s, model) != [] && forall f | f in Ids(s, model) :: f == "id"
  }

  predicate WellTyped(s: Schema, sc: Scope, post: bool, e: Expr)
    decreases e, 0
  {
    match e
    case Lit(_) | Null | This => true
    case Ref(name, args) => args == [] && (IsField(s, sc.cur, name) || name in s.enums)
    case Array(_) => false
    case Member(x, name) =>
      if IsFuture(x) then post && IsField(s, sc.root, name)
      else
        var t := TypeOf(s, sc, x);
        WellTyped(s, sc, post, x) && t.ModelT? && IsField(s, t.model, name)
    case Not(x) => WellTyped(s, sc, post, x) && TypeOf(s, sc, x).BoolT?
    case Object(_) => false
    case Invoke(name, args) =>
      if name == "auth" then args == []
      else if |args| != 2 then false
      else if name == "has" then
        WellTyped(s, sc, post, args[1]) && Scalar(TypeOf(s, sc, args[1]))
        && IsListOf(s, sc, post, args[0], TypeOf(s, sc, args[1]))
      else
        name in SEARCHES && WellTyped(s, sc, post, args[0]) && TypeOf(s, sc, args[0]).StrT?
        && args[1].Lit? && args[1].literal.StringLiteral?
    case Binary(op, l, r) =>
      var t, u := TypeOf(s, sc, l), TypeOf(s, sc, r);
      if (op.OpEq? || op.OpNe?) && AreLists(t, u) then
        IsListOf(s, sc, post, l, t.of) && IsListOf(s, sc, post, r, u.of) && ComparableLists(t.of, u.of)
      else
        WellTyped(s, sc, post, l) &&
        if IsCollectionPredicate(op) then
          t.ListT? && t.of.ModelT? && TypeOf(s, Inner(s, sc, l), r).BoolT? && WellTyped(s, Inner(s, sc, l), false, r)
        else if op.OpIn? then Scalar(t) && IsListOf(s, sc, post, r, t)
        else
          WellTyped(s, sc, post, r) &&
          match op
          case OpAnd | OpOr => t.BoolT? && u.BoolT?
          case OpEq | OpNe => Comparable(s, sc, l, r, t, u)
          case OpLt | OpLe | OpGt | OpGe => t.NumT? && u.NumT?
          case _ => false
  }

  const SEARCHES := {"contains", "startsWith", "endsWith"}

  /** Enum members are strings. */
  predicate Alike(t: Ty, u: Ty) {
    t == u || ((t.StrT? || t.EnumT?) && (u.StrT? || u.EnumT?))
  }

  /** A list written out, of items with the type, or an expression that yields a list of it. */
  predicate IsListOf(s: Schema, sc: Scope, post: bool, list: Expr, t: Ty)
    decreases list, 1
  {
    if list.Array? then
      forall i | 0 <= i < |list.items| ::
        WellTyped(s, sc, post, list.items[i]) && Alike(TypeOf(s, sc, list.items[i]), t)
    else WellTyped(s, sc, post, list) && TypeOf(s, sc, list).ListT? && Alike(TypeOf(s, sc, list).of, t)
  }

  predicate Comparable(s: Schema, sc: Scope, l: Expr, r: Expr, t: Ty, u: Ty) {
    if l.This? || r.This? then
      Ids(s, sc.root) != [] && IdsAreScalar(s, sc.root) && (t == u == ModelT(sc.root) || t.NullT? || u.NullT?)
    else if AreModels(t, u) then t == u && IdIsScalar(s, t.model)
    else if AreObjects(t, u) then t == u
    else (t.NullT? && !u.UnknownT?) || (u.NullT? && !t.UnknownT?) || (Scalar(t) && Alike(t, u))
  }

  predicate IdsAreScalar(s: Schema, model: string) {
    forall f | f in Ids(s, model) :: IsField(s, model, f) && Scalar(FieldType(s, model, f))
  }

  predicate IdIsScalar(s: Schema, model: string) {
    IsField(s, model, "id") ==> Scalar(FieldType(s, model, "id"))
  }

  /** The types of the items; an empty list has items of no type. */
  predicate ComparableLists(t: Ty, u: Ty) {
    t.NullT? || u.NullT? || (Scalar(t) && Scalar(u)) || (t == u && (t.ModelT? || t.ObjectT?))
  }

  // ----- the compiled code at work -----

  /** The JavaScript variables hold the moment, as the options say where. */
  ghost predicate Represents(s: Schema, sc: Scope, o: Options, vars: Vars, m: Moment) {
    && o.context.AccessPolicy?
    && (o.thisExprContext.Some? ==> o.thisExprContext.value == Input)
    && (o.isPostGuard ==> o.futureRefContext == Some(Input))
    && Input in vars && vars[Input] == m.entity && m.entity.VObj? && HasType(s, m.entity, ModelT(sc.root))
    && User in vars && vars[User] == m.user && HasType(s, m.user, ModelT(s.auth))
    && HasType(s, m.subject, ModelT(sc.cur))
    && (if o.isPostGuard then Context in vars && vars[Context].VObj? && Prop(vars[Context], "preValue") == m.subject
        else o.fieldReferenceContext.Some? && o.fieldReferenceContext.value in vars
             && vars[o.fieldReferenceContext.value] == m.subject)
    && (forall x | x in s.enums :: Global(s.enums[x]) in vars && vars[Global(s.enums[x])].VObj?
                                   && Prop(vars[Global(s.enums[x])], x) == VStr(x))
  }

  /** An outcome with the value `w`, up to undefined being null. */
  ghost predicate Agrees(s: Schema, v: Outcome, w: Val, t: Ty) {
    v.Value? && Norm(v.v) == w && HasType(s, w, t)
  }

  ghost predicate Faithful(s: Schema, sc: Scope, o: Options, e: Expr, n: bool, h: Host, vars: Vars, m: Moment) {
    var j := Transform(s, sc, o, e, n);
    j.Ok? && Agrees(s, Eval(h, j.value, vars), Decision(s, sc, e, m), TypeOf(s, sc, e))
  }

  /** Well-typed rules are never rejected by the compiler. */
  lemma {:induction false} Compiles(s: Schema, sc: Scope, o: Options, e: Expr, n: bool)
    requires WellTyped(s, sc, o.isPostGuard, e)
    ensures Transform(s, sc, o, e, n).Ok?
    decreases e, 1
  {
    match e {
      case Member(x, _) => if !IsFuture(x) { Compiles(s, sc, o, x, n); }
      case Not(x) => Compiles(s, sc, o, x, n);
      case Invoke(name, args) =>
        if name == "has" {
          ListCompiles(s, sc, o, args[0], TypeOf(s, sc, args[1]), false);
          Compiles(s, sc, o, args[1], n);
        } else if name != "auth" {
          Compiles(s, sc, o, args[0], false);
          Compiles(s, sc, o, args[1], n);
        }
      case Binary(op, l, r) => BinaryCompiles(s, sc, o, op, l, r, n);
      case _ =>
    }
  }

  lemma {:induction false} BinaryCompiles(s: Schema, sc: Scope, o: Options, op: BinOp, l: Expr, r: Expr, n: bool)
    requires WellTyped(s, sc, o.isPostGuard, Binary(op, l, r))
    ensures Transform(s, sc, o, Binary(op, l, r), n).Ok?
    decreases Binary(op, l, r), 0
  {
    var t, u := TypeOf(s, sc, l), TypeOf(s, sc, r);
    if (op.OpEq? || op.OpNe?) && AreLists(t, u) {
      ListCompiles(s, sc, o, l, t.of, n);
      ListCompiles(s, sc, o, r, u.of, n);
    } else {
      Compiles(s, sc, o, l, n);
      if IsCollectionPredicate(op) {
        Compiles(s, Inner(s, sc, l), InnerOptions(o), r, n);
      } else if op.OpIn? {
        ListCompiles(s, sc, o, r, t, false);
      } else {
        Compiles(s, sc, o, l, false);
        Compiles(s, sc, o, r, n);
        Compiles(s, sc, o, r, false);
      }
    }
  }

  lemma {:induction false} ListCompiles(s: Schema, sc: Scope, o: Options, list: Expr, t: Ty, n: bool)
    requires IsListOf(s, sc, o.isPostGuard, list, t)
    ensures Transform(s, sc, o, list, n).Ok?
    decreases list, 2
  {
    if list.Array? {
      ItemsCompile(s, sc, o, list.items, n);
    } else {
      Compiles(s, sc, o, list, n);
    }
  }

  lemma {:induction false} ItemsCompile(s: Schema, sc: Scope, o: Options, items: seq<Expr>, n: bool)
    requires forall i | 0 <= i < |items| :: WellTyped(s, sc, o.isPostGuard, items[i])
    ensures TransformAll(s, sc, o, items, n).Ok?
    decreases items, 0
  {
    if items == [] {
    } else {
      Compiles(s, sc, o, items[0], n);
      ItemsCompile(s, sc, o, items[1..], n);
    }
  }

  lemma ReadHasType(s: Schema, v: Val, m: string, f: string)
    requires HasType(s, v, ModelT(m)) && IsField(s, m, f)
    ensures HasType(s, Read(v, f), FieldType(s, m, f))
    ensures Norm(Prop(v, f)) == Read(v, f)
  {
  }

  // ----- one step of evaluation for each construct -----

  lemma MemberStep(s: Schema, h: Host, vars: Vars, x: JExpr, w: Val, model: string, f: string, n: bool)
    requires Agrees(s, Eval(h, x, vars), w, ModelT(model)) && IsField(s, model, f)
    ensures var j := if n then JCoalesce(JOptField(x, f), JConst(VNull)) else JOptField(x, f);
      Agrees(s, Eval(h, j, vars), Read(w, f), FieldType(s, model, f))
  {
    ReadHasType(s, w, model, f);
    var v := Eval(h, x, vars).v;
    assert Eval(h, JOptField(x, f), vars) == Value(Prop(v, f));
    assert Norm(Prop(v, f)) == Read(w, f);
  }

  /** The right operand matters only if the left one lets evaluation go on. */
  lemma ConnectiveStep(s: Schema, h: Host, vars: Vars, op: BinOp, x: JExpr, y: JExpr, a: Val, b: Val)
    requires op.OpAnd? || op.OpOr?
    requires Agrees(s, Eval(h, x, vars), a, BoolT)
    requires a.Truthy() == op.OpAnd? ==> Agrees(s, Eval(h, y, vars), b, BoolT)
    ensures Agrees(s, Eval(h, JOp(op, x, y), vars), if a.Truthy() == op.OpAnd? then b else a, BoolT)
  {
  }

  lemma EqualityStep(s: Schema, h: Host, vars: Vars, op: BinOp, x: JExpr, y: JExpr, a: Val, b: Val, t: Ty, u: Ty)
    requires op.OpEq? || op.OpNe?
    requires Agrees(s, Eval(h, x, vars), a, t) && Agrees(s, Eval(h, y, vars), b, u)
    requires t.NullT? || u.NullT? || (Scalar(t) && Alike(t, u))
    ensures Eval(h, JOp(op, x, y), vars) == Value(OperatorValue(op, None, a, b))
  {
    EqualityEval(h, vars, x, y);
    var v, w := Eval(h, x, vars).v, Eval(h, y, vars).v;
    assert LooseEqual(h, v, w) == (a == b);
  }

  /** What the emitted `(a?.id ?? null) == (b?.id ?? null)` compares. */
  function IdOrNull(v: Val): Val {
    if Prop(v, "id").Nullish() then VNull else Prop(v, "id")
  }

  function CompareIds(op: BinOp, x: JExpr, y: JExpr): JExpr {
    JOp(op, JCoalesce(JOptField(x, "id"), JConst(VNull)), JCoalesce(JOptField(y, "id"), JConst(VNull)))
  }

  lemma IdOrNullStep(h: Host, vars: Vars, x: JExpr)
    requires Eval(h, x, vars).Value?
    ensures Eval(h, JCoalesce(JOptField(x, "id"), JConst(VNull)), vars) == Value(IdOrNull(Eval(h, x, vars).v))
  {
    assert Eval(h, JOptField(x, "id"), vars) == Value(Prop(Eval(h, x, vars).v, "id"));
  }

  lemma ModelEqualityStep(s: Schema, h: Host, vars: Vars, op: BinOp, x: JExpr, y: JExpr, a: Val, b: Val, model: string)
    requires op.OpEq? || op.OpNe?
    requires Agrees(s, Eval(h, x, vars), a, ModelT(model)) && Agrees(s, Eval(h, y, vars), b, ModelT(model))
    requires IdIsScalar(s, model)
    ensures Eval(h, CompareIds(op, x, y), vars) == Value(VBool((Read(a, "id") == Read(b, "id")) == op.OpEq?))
  {
    IdOrNullStep(h, vars, x);
    IdOrNullStep(h, vars, y);
    EqualityEval(h, vars, JCoalesce(JOptField(x, "id"), JConst(VNull)), JCoalesce(JOptField(y, "id"), JConst(VNull)));
    IdsLookSame(s, h, model, Eval(h, x, vars).v, Eval(h, y, vars).v);
  }

  lemma IdsLookSame(s: Schema, h: Host, model: string, v: Val, w: Val)
    requires HasType(s, Norm(v), ModelT(model)) && HasType(s, Norm(w), ModelT(model)) && IdIsScalar(s, model)
    ensures LooseEqual(h, IdOrNull(v), IdOrNull(w)) == (Read(Norm(v), "id") == Read(Norm(w), "id"))
  {
    assert IdOrNull(v) == Read(Norm(v), "id") && IdOrNull(w) == Read(Norm(w), "id");
  }

  /** What `allFieldsEqual` says of two values. */
  predicate IdsLookEqual(ids: seq<string>, a: Val, b: Val) {
    a.VObj? && b.VObj? && forall f | f in ids :: Prop(a, f) == Prop(b, f)
  }

  lemma ThisEqualityStep(s: Schema, h: Host, vars: Vars, op: BinOp, x: JExpr, y: JExpr, a: Val, b: Val, model: string)
    requires (op.OpEq? || op.OpNe?) && IdsAreScalar(s, model)
    requires Agrees(s, Eval(h, x, vars), a, ModelT(model)) && Agrees(s, Eval(h, y, vars), b, ModelT(model))
    ensures var j := JSameIds(x, y, Ids(s, model));
      Eval(h, if op.OpEq? then j else JNot(j), vars) == Value(VBool(IdsLookEqual(Ids(s, model), a, b) == op.OpEq?))
  {
    var v, w := Eval(h, x, vars).v, Eval(h, y, vars).v;
    assert Eval(h, JSameIds(x, y, Ids(s, model)), vars) == Value(VBool(SameIds(v, w, Ids(s, model))));
    IdsAreStrict(s, model, v, w);
  }

  lemma IdsAreStrict(s: Schema, model: string, v: Val, w: Val)
    requires HasType(s, Norm(v), ModelT(model)) && HasType(s, Norm(w), ModelT(model)) && IdsAreScalar(s, model)
    ensures SameIds(v, w, Ids(s, model)) == IdsLookEqual(Ids(s, model), Norm(v), Norm(w))
  {
    if v.VObj? && w.VObj? {
      forall f | f in Ids(s, model) ensures StrictEqual(Prop(v, f), Prop(w, f)) == (Prop(v, f) == Prop(w, f)) {
        ReadHasType(s, v, model, f);
        ReadHasType(s, w, model, f);
      }
    }
  }

  /** Code that yields the items `b`, missing ones as null or undefined, or nothing for a missing list. */
  ghost predicate AgreesAsList(s: Schema, y: Outcome, b: Val, t: Ty) {
    y.Value? &&
    if b.VArr? then
      y.v.VArr? && y.v.arrayId == b.arrayId && |y.v.elems| == |b.elems|
      && forall i | 0 <= i < |b.elems| :: Norm(y.v.elems[i]) == b.elems[i] && HasType(s, b.elems[i], t)
    else b.VNull? && y.v.Nullish()
  }

  /** On scalars of one type, strict equality is equality. */
  lemma ScalarsAreStrict(s: Schema, elems: seq<Val>, t: Ty, x: Val)
    requires Scalar(t) && (forall i | 0 <= i < |elems| :: HasType(s, elems[i], t)) && HasType(s, x, t)
    ensures (exists i | 0 <= i < |elems| :: StrictEqual(elems[i], x)) <==> x in elems
  {
    if x in elems {
      var i :| 0 <= i < |elems| && elems[i] == x;
      assert StrictEqual(elems[i], x);
    }
    if i :| 0 <= i < |elems| && StrictEqual(elems[i], x) {
      assert elems[i] in elems && elems[i] == x;
    }
  }

  lemma NormKeepsType(s: Schema, v: Val, t: Ty)
    requires Scalar(t) && HasType(s, Norm(v), t)
    ensures HasType(s, v, t)
  {
  }

  /** Membership as the code sees it, where null is not undefined, and as it is meant. */
  lemma AmongMissing(s: Schema, y: Outcome, b: Val, t: Ty, v: Val)
    requires AgreesAsList(s, y, b, t)
    ensures Among(v, y.v) ==> Among(Norm(v), b)
    ensures !v.Nullish() || !Among(VNull, b) ==> (Among(v, y.v) <==> Among(Norm(v), b))
  {
    if Among(v, y.v) {
      var i :| 0 <= i < |y.v.elems| && y.v.elems[i] == v;
      assert b.elems[i] == Norm(v);
    }
    if Among(Norm(v), b) && !v.Nullish() {
      var i :| 0 <= i < |b.elems| && b.elems[i] == Norm(v);
      assert y.v.elems[i] == v;
    }
  }

  lemma TextSearchStep(s: Schema, h: Host, vars: Vars, k: Search, x: JExpr, y: JExpr, a: Val, b: Val)
    requires Agrees(s, Eval(h, x, vars), a, StrT) && Eval(h, y, vars) == Value(b) && b.VStr?
    ensures Eval(h, JCoalesce(JSearch(k, x, y), JConst(VBool(false))), vars)
         == Value(VBool(a.VStr? && StringSearch(k, a.s, b.s)))
  {
    SearchEval(h, vars, k, x, y);
    OrFalse(h, vars, JSearch(k, x, y));
  }

  function SearchCode(x: JExpr, list: JExpr): JExpr {
    JCoalesce(JSearch(Includes, list, x), JConst(VBool(false)))
  }

  lemma ListSearchStep(s: Schema, h: Host, vars: Vars, x: JExpr, y: JExpr, a: Val, b: Val, t: Ty)
    requires Scalar(t) && Agrees(s, Eval(h, x, vars), a, t) && AgreesAsList(s, Eval(h, y, vars), b, t)
    ensures Eval(h, SearchCode(x, y), vars) == Value(VBool(Among(Eval(h, x, vars).v, Eval(h, y, vars).v)))
  {
    SearchEval(h, vars, Includes, y, x);
    OrFalse(h, vars, JSearch(Includes, y, x));
    var v, w := Eval(h, x, vars).v, Eval(h, y, vars).v;
    if w.VArr? {
      NormKeepsType(s, v, t);
      forall i | 0 <= i < |w.elems| ensures HasType(s, w.elems[i], t) {
        NormKeepsType(s, w.elems[i], t);
      }
      ScalarsAreStrict(s, w.elems, t, v);
    }
  }

  lemma QuantifierStep(
      s: Schema, h: Host, vars: Vars, op: BinOp, x: JExpr, a: Val, t: Ty, body: JExpr, results: seq<Val>)
    requires IsCollectionPredicate(op) && t.ListT?
    requires Agrees(s, Eval(h, x, vars), a, t)
    requires a.VArr? ==> |results| == |a.elems| && forall i | 0 <= i < |results| ::
               BodyYields(h, body, vars[Item := a.elems[i]], results[i].Truthy())
    ensures Eval(h, PredicateCode(op, x, body), vars)
         == Value(VBool(if a.VArr? then Quantify(op, results) else op.OpNone?))
  {
    var v := Eval(h, x, vars).v;
    var q := JQuantifier(op.OpEvery?, x, Item, body);
    if a.VArr? {
      assert v == a;
      var truths := seq(|results|, i requires 0 <= i < |results| => results[i].Truthy());
      LoopMeaning(h, op.OpEvery?, a.elems, Item, body, vars, truths);
      TruthsQuantify(op, results, truths);
      assert Eval(h, q, vars) == Loop(h, op.OpEvery?, a.elems, Item, body, vars);
    } else {
      assert Eval(h, q, vars) == Value(Undef);
    }
  }

  lemma TruthsQuantify(op: BinOp, results: seq<Val>, truths: seq<bool>)
    requires IsCollectionPredicate(op)
    requires |truths| == |results| && forall i | 0 <= i < |results| :: truths[i] == results[i].Truthy()
    ensures (if op.OpEvery? then false !in truths else true in truths) == (Quantify(op, results) != op.OpNone?)
  {
    if op.OpEvery? && false in truths {
      var i :| 0 <= i < |truths| && truths[i] == false;
      assert !results[i].Truthy();
    } else if !op.OpEvery? && true in truths {
      var i :| 0 <= i < |truths| && truths[i] == true;
      assert results[i].Truthy();
    } else {
      forall i | 0 <= i < |results| ensures truths[i] in truths {
      }
    }
  }

  function PredicateCode(op: BinOp, list: JExpr, body: JExpr): JExpr {
    var q := JQuantifier(op.OpEvery?, list, Item, body);
    if op.OpNone? then JNot(q) else JCoalesce(q, JConst(VBool(false)))
  }

  // ----- the theorem -----

  /** The emitted code of a settled rule never throws and computes what it means, whatever is missing. */
  lemma {:induction false} CompiledMeaning(
      s: Schema, sc: Scope, o: Options, e: Expr, n: bool, h: Host, vars: Vars, m: Moment)
    requires WellTyped(s, sc, o.isPostGuard, e) && Represents(s, sc, o, vars, m) && Settled(s, sc, e, m)
    ensures Faithful(s, sc, o, e, n, h, vars, m)
    ensures Decision(s, sc, e, m).Truthy() == Meaning(s, sc, e, m).Truthy()
    ensures !Connective(e) ==> Decision(s, sc, e, m) == Meaning(s, sc, e, m)
    decreases e, 4
  {
    DecisionHasTruth(s, sc, e, m);
    match e {
      case Lit(_) | Null | This => LeafMeaning(s, sc, o, e, n, h, vars, m);
      case Ref(name, args) => ReferenceMeaning(s, sc, o, name, n, h, vars, m);
      case Member(x, name) => MemberMeaning(s, sc, o, x, name, n, h, vars, m);
      case Not(x) => NotMeaning(s, sc, o, x, n, h, vars, m);
      case Invoke(name, args) => InvocationMeaning(s, sc, o, name, args, n, h, vars, m);
      case Binary(op, l, r) =>
        if IsCollectionPredicate(op) {
          PredicateMeaning(s, sc, o, op, l, r, n, h, vars, m);
        } else {
          OperatorMeaning(s, sc, o, op, l, r, n, h, vars, m);
        }
    }
  }

  lemma {:induction false} MemberMeaning(
      s: Schema, sc: Scope, o: Options, x: Expr, name: string, n: bool, h: Host, vars: Vars, m: Moment)
    requires WellTyped(s, sc, o.isPostGuard, Member(x, name)) && Represents(s, sc, o, vars, m)
    requires Settled(s, sc, Member(x, name), m)
    ensures Faithful(s, sc, o, Member(x, name), n, h, vars, m)
    decreases Member(x, name), 3
  {
    if IsFuture(x) {
      ReadHasType(s, m.entity, sc.root, name);
    } else {
      CompiledMeaning(s, sc, o, x, n, h, vars, m);
      MemberStep(s, h, vars, Transform(s, sc, o, x, n).value, Meaning(s, sc, x, m), TypeOf(s, sc, x).model, name, n);
    }
  }

  lemma {:induction false} NotMeaning(
      s: Schema, sc: Scope, o: Options, x: Expr, n: bool, h: Host, vars: Vars, m: Moment)
    requires WellTyped(s, sc, o.isPostGuard, Not(x)) && Represents(s, sc, o, vars, m) && Settled(s, sc, x, m)
    ensures Faithful(s, sc, o, Not(x), n, h, vars, m)
    decreases Not(x), 3
  {
    CompiledMeaning(s, sc, o, x, n, h, vars, m);
    NotCompilesTo(s, sc, o, x, n);
    assert Eval(h, JNot(Transform(s, sc, o, x, n).value), vars) == Value(VBool(!Meaning(s, sc, x, m).Truthy()));
  }

  lemma NotCompilesTo(s: Schema, sc: Scope, o: Options, x: Expr, n: bool)
    requires o.context.AccessPolicy? && Transform(s, sc, o, x, n).Ok?
    ensures Transform(s, sc, o, Not(x), n) == Ok(JNot(Transform(s, sc, o, x, n).value))
  {
  }

  lemma {:induction false} InvocationMeaning(
      s: Schema, sc: Scope, o: Options, name: string, args: seq<Expr>, n: bool, h: Host, vars: Vars, m: Moment)
    requires WellTyped(s, sc, o.isPostGuard, Invoke(name, args)) && Represents(s, sc, o, vars, m)
    requires Settled(s, sc, Invoke(name, args), m)
    ensures Faithful(s, sc, o, Invoke(name, args), n, h, vars, m)
    decreases Invoke(name, args), 3
  {
    if name == "auth" {
      AuthMeaning(s, sc, o, n, h, vars, m);
    } else if name == "has" {
      HasMeaning(s, sc, o, args, n, h, vars, m);
    } else {
      SearchMeaning(s, sc, o, name, args, n, h, vars, m);
    }
  }

  lemma AuthMeaning(s: Schema, sc: Scope, o: Options, n: bool, h: Host, vars: Vars, m: Moment)
    requires Represents(s, sc, o, vars, m)
    ensures Faithful(s, sc, o, Invoke("auth", []), n, h, vars, m)
  {
    assert Transform(s, sc, o, Invoke("auth", []), n) == Ok(JVar(User));
    assert Meaning(s, sc, Invoke("auth", []), m) == Norm(m.user);
  }

  lemma LeafMeaning(s: Schema, sc: Scope, o: Options, e: Expr, n: bool, h: Host, vars: Vars, m: Moment)
    requires e.Lit? || e.Null? || e.This?
    requires WellTyped(s, sc, o.isPostGuard, e) && Represents(s, sc, o, vars, m)
    ensures Faithful(s, sc, o, e, n, h, vars, m)
  {
  }

  lemma ReferenceMeaning(s: Schema, sc: Scope, o: Options, name: string, n: bool, h: Host, vars: Vars, m: Moment)
    requires WellTyped(s, sc, o.isPostGuard, Ref(name, [])) && Represents(s, sc, o, vars, m)
    ensures Faithful(s, sc, o, Ref(name, []), n, h, vars, m)
  {
    RawField(s, sc, o, name, n, h, vars, m);
    if IsField(s, sc.cur, name) {
      ReadHasType(s, m.subject, sc.cur, name);
    }
  }

  lemma SearchCompilesTo(s: Schema, sc: Scope, o: Options, name: string, args: seq<Expr>, n: bool)
    requires name in SEARCHES && |args| == 2 && args[1].Lit? && args[1].literal.StringLiteral?
    requires o.context.AccessPolicy?
    requires Transform(s, sc, o, args[0], false).Ok?
    ensures var x, y := Transform(s, sc, o, args[0], false).value, JConst(VStr(args[1].literal.text));
      Transform(s, sc, o, Invoke(name, args), n)
      == Ok(JCoalesce(JSearch(SearchKind(name), x, y), JConst(VBool(false))))
  {
    assert Transform(s, sc, o, args[1], n) == Ok(JConst(VStr(args[1].literal.text)));
    assert name != "auth" && name !in TESTS && name != "length" && name != "isEmpty";
  }

  lemma SearchMeans(s: Schema, sc: Scope, name: string, args: seq<Expr>, m: Moment)
    requires name in SEARCHES && |args| == 2 && args[1].Lit? && args[1].literal.StringLiteral?
    requires var a := Meaning(s, sc, args[0], m); a.VStr? || a.VNull?
    ensures var a := Meaning(s, sc, args[0], m);
      Meaning(s, sc, Invoke(name, args), m)
      == VBool(a.VStr? && StringSearch(SearchKind(name), a.s, args[1].literal.text))
    ensures TypeOf(s, sc, Invoke(name, args)) == BoolT
  {
    assert Meaning(s, sc, args[1], m) == VStr(args[1].literal.text);
    assert name != "auth" && name != "future";
  }

  lemma {:induction false} SearchMeaning(
      s: Schema, sc: Scope, o: Options, name: string, args: seq<Expr>, n: bool, h: Host, vars: Vars, m: Moment)
    requires name in SEARCHES
    requires WellTyped(s, sc, o.isPostGuard, Invoke(name, args)) && Represents(s, sc, o, vars, m)
    requires Settled(s, sc, args[0], m)
    ensures Faithful(s, sc, o, Invoke(name, args), n, h, vars, m)
    decreases Invoke(name, args), 2
  {
    CompiledMeaning(s, sc, o, args[0], false, h, vars, m);
    SearchCompilesTo(s, sc, o, name, args, n);
    var text := VStr(args[1].literal.text);
    TextSearchStep(s, h, vars, SearchKind(name), Transform(s, sc, o, args[0], false).value, JConst(text),
                   Meaning(s, sc, args[0], m), text);
    SearchMeans(s, sc, name, args, m);
  }

  lemma {:induction false} HasMeaning(
      s: Schema, sc: Scope, o: Options, args: seq<Expr>, n: bool, h: Host, vars: Vars, m: Moment)
    requires WellTyped(s, sc, o.isPostGuard, Invoke("has", args)) && Represents(s, sc, o, vars, m)
    requires Settled(s, sc, Invoke("has", args), m)
    ensures Faithful(s, sc, o, Invoke("has", args), n, h, vars, m)
    decreases Invoke("has", args), 2
  {
    MembershipMeaning(s, sc, o, Invoke("has", args), args[1], args[0], n, h, vars, m);
    HasMeans(s, sc, args, m);
  }

  lemma HasMeans(s: Schema, sc: Scope, args: seq<Expr>, m: Moment)
    requires |args| == 2 && !Meaning(s, sc, args[0], m).VStr?
    ensures Meaning(s, sc, Invoke("has", args), m)
         == VBool(Among(Meaning(s, sc, args[1], m), Meaning(s, sc, args[0], m)))
    ensures TypeOf(s, sc, Invoke("has", args)) == BoolT
  {
  }

  lemma HasCompilesTo(s: Schema, sc: Scope, o: Options, args: seq<Expr>, n: bool)
    requires |args| == 2 && o.context.AccessPolicy?
    requires Transform(s, sc, o, args[0], false).Ok? && Transform(s, sc, o, args[1], n).Ok?
    ensures Transform(s, sc, o, Invoke("has", args), n)
         == Ok(SearchCode(Transform(s, sc, o, args[1], n).value, Transform(s, sc, o, args[0], false).value))
  {
  }

  lemma InCompilesTo(s: Schema, sc: Scope, o: Options, x: Expr, list: Expr, n: bool)
    requires o.context.AccessPolicy? && Transform(s, sc, o, x, n).Ok? && Transform(s, sc, o, list, false).Ok?
    ensures Transform(s, sc, o, Binary(OpIn, x, list), n)
         == Ok(SearchCode(Transform(s, sc, o, x, n).value, Transform(s, sc, o, list, false).value))
  {
  }

  lemma {:induction false} OperatorMeaning(
      s: Schema, sc: Scope, o: Options, op: BinOp, l: Expr, r: Expr, n: bool, h: Host, vars: Vars, m: Moment)
    requires !IsCollectionPredicate(op)
    requires WellTyped(s, sc, o.isPostGuard, Binary(op, l, r)) && Represents(s, sc, o, vars, m)
    requires Settled(s, sc, Binary(op, l, r), m)
    ensures Faithful(s, sc, o, Binary(op, l, r), n, h, vars, m)
    decreases Binary(op, l, r), 3
  {
    if op.OpAnd? || op.OpOr? {
      ConnectiveMeaning(s, sc, o, op, l, r, n, h, vars, m);
    } else if op.OpIn? {
      MembershipMeaning(s, sc, o, Binary(op, l, r), l, r, n, h, vars, m);
    } else if IsRelation(op) {
      RelationMeaning(s, sc, o, op, l, r, n, h, vars, m);
    } else if l.This? || r.This? {
      ThisEqualityMeaning(s, sc, o, op, l, r, n, h, vars, m);
    } else {
      EqualityIff(s, sc, o, op, l, r, n, h, vars, m);
      EqualityMeans(s, sc, op, l, r, m);
      YieldingIsFaithful(s, sc, o, op, l, r, n, h, vars, m);
    }
  }

  lemma {:induction false} ConnectiveMeaning(
      s: Schema, sc: Scope, o: Options, op: BinOp, l: Expr, r: Expr, n: bool, h: Host, vars: Vars, m: Moment)
    requires op.OpAnd? || op.OpOr?
    requires WellTyped(s, sc, o.isPostGuard, Binary(op, l, r)) && Represents(s, sc, o, vars, m)
    requires Settled(s, sc, Binary(op, l, r), m)
    ensures Faithful(s, sc, o, Binary(op, l, r), n, h, vars, m)
    decreases Binary(op, l, r), 0
  {
    ConnectiveParts(s, sc, o.isPostGuard, op, l, r, m);
    CompiledMeaning(s, sc, o, l, n, h, vars, m);
    Compiles(s, sc, o, r, n);
    if Meaning(s, sc, l, m).Truthy() == op.OpAnd? {
      CompiledMeaning(s, sc, o, r, n, h, vars, m);
    }
    ConnectiveStep(s, h, vars, op, Transform(s, sc, o, l, n).value, Transform(s, sc, o, r, n).value,
                   Decision(s, sc, l, m), Decision(s, sc, r, m));
    ConnectiveCompilesTo(s, sc, o, op, l, r, n);
  }

  lemma ConnectiveParts(s: Schema, sc: Scope, post: bool, op: BinOp, l: Expr, r: Expr, m: Moment)
    requires (op.OpAnd? || op.OpOr?) && WellTyped(s, sc, post, Binary(op, l, r)) && Settled(s, sc, Binary(op, l, r), m)
    ensures WellTyped(s, sc, post, l) && TypeOf(s, sc, l).BoolT? && Settled(s, sc, l, m)
    ensures WellTyped(s, sc, post, r) && TypeOf(s, sc, r).BoolT?
    ensures Meaning(s, sc, l, m).Truthy() == op.OpAnd? ==> Settled(s, sc, r, m)
  {
  }

  lemma ConnectiveCompilesTo(s: Schema, sc: Scope, o: Options, op: BinOp, l: Expr, r: Expr, n: bool)
    requires (op.OpAnd? || op.OpOr?) && o.context.AccessPolicy? && TypeOf(s, sc, l).BoolT?
    requires Transform(s, sc, o, l, n).Ok? && Transform(s, sc, o, r, n).Ok?
    ensures Transform(s, sc, o, Binary(op, l, r), n)
         == Ok(JOp(op, Transform(s, sc, o, l, n).value, Transform(s, sc, o, r, n).value))
  {
  }

  // ----- equality -----

  lemma EqualityParts(s: Schema, sc: Scope, post: bool, op: BinOp, l: Expr, r: Expr)
    requires (op.OpEq? || op.OpNe?) && WellTyped(s, sc, post, Binary(op, l, r))
    ensures var t, u := TypeOf(s, sc, l), TypeOf(s, sc, r);
      if AreLists(t, u) then
        IsListOf(s, sc, post, l, t.of) && IsListOf(s, sc, post, r, u.of) && ComparableLists(t.of, u.of)
      else WellTyped(s, sc, post, l) && WellTyped(s, sc, post, r) && Comparable(s, sc, l, r, t, u)
  {
  }

  lemma EqualityMeans(s: Schema, sc: Scope, op: BinOp, l: Expr, r: Expr, m: Moment)
    requires op.OpEq? || op.OpNe?
    ensures Meaning(s, sc, Binary(op, l, r), m)
         == VBool(SameValue(ModelOf(s, sc, l, r), Meaning(s, sc, l, m), Meaning(s, sc, r, m)) == op.OpEq?)
  {
  }

  /** An operator that yields its meaning, which is true or false, is faithful. */
  lemma YieldingIsFaithful(
      s: Schema, sc: Scope, o: Options, op: BinOp, l: Expr, r: Expr, n: bool, h: Host, vars: Vars, m: Moment)
    requires !Connective(Binary(op, l, r)) && Meaning(s, sc, Binary(op, l, r), m).VBool?
    requires var j := Transform(s, sc, o, Binary(op, l, r), n);
      j.Ok? && Eval(h, j.value, vars) == Value(Meaning(s, sc, Binary(op, l, r), m))
    ensures Faithful(s, sc, o, Binary(op, l, r), n, h, vars, m)
  {
  }

  lemma ThisCompilesTo(s: Schema, sc: Scope, o: Options, op: BinOp, l: Expr, r: Expr, n: bool)
    requires (op.OpEq? || op.OpNe?) && (l.This? || r.This?) && Ids(s, sc.root) != []
    requires Transform(s, sc, o, l, false).Ok? && Transform(s, sc, o, r, false).Ok?
    ensures var j :=
      JSameIds(Transform(s, sc, o, l, false).value, Transform(s, sc, o, r, false).value, Ids(s, sc.root));
      Transform(s, sc, o, Binary(op, l, r), n) == Ok(if op.OpEq? then j else JNot(j))
  {
  }

  lemma EqualityCompilesTo(s: Schema, sc: Scope, o: Options, op: BinOp, l: Expr, r: Expr, n: bool)
    requires (op.OpEq? || op.OpNe?) && !l.This? && !r.This? && o.context.AccessPolicy?
    requires Transform(s, sc, o, l, n).Ok? && Transform(s, sc, o, r, n).Ok?
    ensures var x, y := Transform(s, sc, o, l, n).value, Transform(s, sc, o, r, n).value;
      var models := IsModelType(TypeOf(s, sc, l)) && IsModelType(TypeOf(s, sc, r));
      Transform(s, sc, o, Binary(op, l, r), n) == Ok(if models then CompareIds(op, x, y) else JOp(op, x, y))
  {
  }

  ghost predicate ComparedParts(s: Schema, sc: Scope, post: bool, l: Expr, r: Expr, m: Moment) {
    var t, u := TypeOf(s, sc, l), TypeOf(s, sc, r);
    && !AreLists(t, u) && !AreModels(t, u) && !AreObjects(t, u) && !l.This? && !r.This?
    && Comparable(s, sc, l, r, t, u)
    && WellTyped(s, sc, post, l) && WellTyped(s, sc, post, r) && Settled(s, sc, l, m) && Settled(s, sc, r, m)
  }

  /** What is left has the type, and null for undefined. */
  ghost predicate Leaves(s: Schema, sc: Scope, e: Expr, m: Moment) {
    HasType(s, Decision(s, sc, e, m), TypeOf(s, sc, e)) && !Decision(s, sc, e, m).Undef?
  }

  lemma {:induction false} OperandLeaves(
      s: Schema, sc: Scope, o: Options, e: Expr, n: bool, h: Host, vars: Vars, m: Moment)
    requires WellTyped(s, sc, o.isPostGuard, e) && Represents(s, sc, o, vars, m) && Settled(s, sc, e, m)
    ensures Transform(s, sc, o, e, n).Ok? && Leaves(s, sc, e, m)
    ensures Agrees(s, Eval(h, Transform(s, sc, o, e, n).value, vars), Decision(s, sc, e, m), TypeOf(s, sc, e))
    decreases e, 5
  {
    CompiledMeaning(s, sc, o, e, n, h, vars, m);
  }

  lemma {:induction false} OperandMeans(
      s: Schema, sc: Scope, o: Options, e: Expr, n: bool, h: Host, vars: Vars, m: Moment)
    requires WellTyped(s, sc, o.isPostGuard, e) && Represents(s, sc, o, vars, m) && Settled(s, sc, e, m)
    requires !TypeOf(s, sc, e).BoolT?
    ensures Transform(s, sc, o, e, n).Ok?
    ensures Agrees(s, Eval(h, Transform(s, sc, o, e, n).value, vars), Meaning(s, sc, e, m), TypeOf(s, sc, e))
    decreases e, 5
  {
    CompiledMeaning(s, sc, o, e, n, h, vars, m);
  }

  /** The code compares what the operands leave. */
  lemma {:induction false} EqualityOfDecisions(
      s: Schema, sc: Scope, o: Options, op: BinOp, l: Expr, r: Expr, n: bool, h: Host, vars: Vars, m: Moment)
    requires (op.OpEq? || op.OpNe?) && Represents(s, sc, o, vars, m)
    requires ComparedParts(s, sc, o.isPostGuard, l, r, m)
    ensures Leaves(s, sc, l, m) && Leaves(s, sc, r, m)
    ensures var j := Transform(s, sc, o, Binary(op, l, r), n);
      j.Ok? && Eval(h, j.value, vars)
            == Value(OperatorValue(op, None, Decision(s, sc, l, m), Decision(s, sc, r, m)))
    decreases Binary(op, l, r), 0
  {
    OperandLeaves(s, sc, o, l, n, h, vars, m);
    OperandLeaves(s, sc, o, r, n, h, vars, m);
    EqualityCompilesTo(s, sc, o, op, l, r, n);
    ComparedTypes(s, sc, l, r);
    EqualityStep(s, h, vars, op, Transform(s, sc, o, l, n).value, Transform(s, sc, o, r, n).value,
                 Decision(s, sc, l, m), Decision(s, sc, r, m), TypeOf(s, sc, l), TypeOf(s, sc, r));
  }

  lemma ComparedTypes(s: Schema, sc: Scope, l: Expr, r: Expr)
    requires var t, u := TypeOf(s, sc, l), TypeOf(s, sc, r);
      && !AreLists(t, u) && !AreModels(t, u) && !AreObjects(t, u) && !l.This? && !r.This?
      && Comparable(s, sc, l, r, t, u)
    ensures var t, u := TypeOf(s, sc, l), TypeOf(s, sc, r);
      (t.NullT? || u.NullT? || (Scalar(t) && Alike(t, u))) && !(IsModelType(t) && IsModelType(u))
  {
  }

  lemma ScalarsAreValues(s: Schema, a: Val, b: Val, t: Ty, u: Ty)
    requires HasType(s, a, t) && HasType(s, b, u) && (t.NullT? || u.NullT? || Scalar(t))
    ensures SameValue(None, a, b) == (a == b)
  {
  }

  lemma DecisionsDecide(s: Schema, sc: Scope, op: BinOp, l: Expr, r: Expr, m: Moment)
    requires (op.OpEq? || op.OpNe?) && !l.This? && !r.This?
    requires var t, u := TypeOf(s, sc, l), TypeOf(s, sc, r);
      !AreLists(t, u) && !AreModels(t, u) && !AreObjects(t, u) && Comparable(s, sc, l, r, t, u)
    requires Leaves(s, sc, l, m) && Leaves(s, sc, r, m)
    ensures
      OperatorValue(op, None, Decision(s, sc, l, m), Decision(s, sc, r, m))
        == VBool(SameValue(ModelOf(s, sc, l, r), Meaning(s, sc, l, m), Meaning(s, sc, r, m)) == op.OpEq?)
      <==> ComparesRight(s, sc, l, r, m)
  {
    DecisionHasTruth(s, sc, l, m);
    DecisionHasTruth(s, sc, r, m);
    ScalarsAreValues(s, Decision(s, sc, l, m), Decision(s, sc, r, m), TypeOf(s, sc, l), TypeOf(s, sc, r));
    ScalarsAreValues(s, Meaning(s, sc, l, m), Meaning(s, sc, r, m), TypeOf(s, sc, l), TypeOf(s, sc, r));
    DecisionsCompare(s, sc, l, r, m);
  }

  /** Comparing what operands leave is comparing what they mean, exactly if neither or both hide, or one is true. */
  lemma DecisionsCompare(s: Schema, sc: Scope, l: Expr, r: Expr, m: Moment)
    requires var t, u := TypeOf(s, sc, l), TypeOf(s, sc, r); !AreLists(t, u) && !AreModels(t, u) && !AreObjects(t, u)
    requires !l.This? && !r.This?
    requires var a, b := Decision(s, sc, l, m), Decision(s, sc, r, m);
      && !a.Undef? && !b.Undef?
      && (Connective(l) || Connective(r) ==> HasType(s, a, BoolT) && HasType(s, b, BoolT))
    ensures (Decision(s, sc, l, m) == Decision(s, sc, r, m)) == (Meaning(s, sc, l, m) == Meaning(s, sc, r, m))
       <==> ComparesRight(s, sc, l, r, m)
  {
    DecisionHasTruth(s, sc, l, m);
    DecisionHasTruth(s, sc, r, m);
  }

  /** What the code of `==` says of two lists. */
  predicate LooksSame(ids: Option<seq<string>>, a: Val, b: Val) {
    ids.Some? || (if a.VArr? && b.VArr? then a.arrayId == b.arrayId != 0 else a == b)
  }

  lemma ModelListsStep(s: Schema, h: Host, vars: Vars, op: BinOp, x: JExpr, y: JExpr, a: Val, b: Val, t: Ty, u: Ty)
    requires op.OpEq? || op.OpNe?
    requires AgreesAsList(s, Eval(h, x, vars), a, t) && AgreesAsList(s, Eval(h, y, vars), b, u)
    ensures Eval(h, CompareIds(op, x, y), vars) == Value(VBool(op.OpEq?))
  {
    IdOrNullStep(h, vars, x);
    IdOrNullStep(h, vars, y);
    EqualityEval(h, vars, JCoalesce(JOptField(x, "id"), JConst(VNull)), JCoalesce(JOptField(y, "id"), JConst(VNull)));
    assert IdOrNull(Eval(h, x, vars).v) == VNull && IdOrNull(Eval(h, y, vars).v) == VNull;
  }

  lemma ListEqualityStep(s: Schema, h: Host, vars: Vars, op: BinOp, x: JExpr, y: JExpr, a: Val, b: Val, t: Ty, u: Ty)
    requires op.OpEq? || op.OpNe?
    requires AgreesAsList(s, Eval(h, x, vars), a, t) && AgreesAsList(s, Eval(h, y, vars), b, u)
    ensures Eval(h, JOp(op, x, y), vars) == Value(VBool(LooksSame(None, a, b) == op.OpEq?))
  {
    EqualityEval(h, vars, x, y);
    assert LooseEqual(h, Eval(h, x, vars).v, Eval(h, y, vars).v) == LooksSame(None, a, b);
  }

  /**
   * Comparing lists never throws. Two lists of models are always equal to the code, so it has its meaning if and only
   * if they are; other lists are equal if they are both missing or the very same object, so it has its meaning if and
   * only if one is missing or their items are the same just when they are one object. A list written out is no other
   * object.
   */
  lemma {:induction false} ListEqualityIff(
      s: Schema, sc: Scope, o: Options, op: BinOp, l: Expr, r: Expr, n: bool, h: Host, vars: Vars, m: Moment)
    requires (op.OpEq? || op.OpNe?) && AreLists(TypeOf(s, sc, l), TypeOf(s, sc, r))
    requires WellTyped(s, sc, o.isPostGuard, Binary(op, l, r)) && Represents(s, sc, o, vars, m)
    requires Settled(s, sc, l, m) && Settled(s, sc, r, m)
    ensures var j := Transform(s, sc, o, Binary(op, l, r), n);
      var ids, a, b := ModelOf(s, sc, l, r), Meaning(s, sc, l, m), Meaning(s, sc, r, m);
      && j.Ok?
      && Eval(h, j.value, vars) == Value(VBool(LooksSame(ids, a, b) == op.OpEq?))
      && Meaning(s, sc, Binary(op, l, r), m) == VBool(SameValue(ids, a, b) == op.OpEq?)
      && (Eval(h, j.value, vars) == Value(Meaning(s, sc, Binary(op, l, r), m)) <==> ListsCompareRight(ids, a, b))
    decreases Binary(op, l, r), 0
  {
    var t, u := TypeOf(s, sc, l).of, TypeOf(s, sc, r).of;
    EqualityParts(s, sc, o.isPostGuard, op, l, r);
    EqualityMeans(s, sc, op, l, r, m);
    ListLeaves(s, sc, o, l, t, n, h, vars, m);
    ListLeaves(s, sc, o, r, u, n, h, vars, m);
    EqualityCompilesTo(s, sc, o, op, l, r, n);
    var x, y := Transform(s, sc, o, l, n).value, Transform(s, sc, o, r, n).value;
    if t.ModelT? && u.ModelT? {
      ModelListsStep(s, h, vars, op, x, y, ListDecision(s, sc, l, m), ListDecision(s, sc, r, m), t, u);
    } else {
      ListEqualityStep(s, h, vars, op, x, y, ListDecision(s, sc, l, m), ListDecision(s, sc, r, m), t, u);
    }
  }

  /**
   * The code tells records apart by a field `id`. It has its meaning if and only if: for two records, that is the only
   * id field, or comparing these two by it is comparing all their ids; for one and a missing one, it has an `id`.
   */
  lemma {:induction false} RecordEqualityIff(
      s: Schema, sc: Scope, o: Options, op: BinOp, l: Expr, r: Expr, n: bool, h: Host, vars: Vars, m: Moment)
    requires (op.OpEq? || op.OpNe?) && AreModels(TypeOf(s, sc, l), TypeOf(s, sc, r)) && !l.This? && !r.This?
    requires WellTyped(s, sc, o.isPostGuard, Binary(op, l, r)) && Represents(s, sc, o, vars, m)
    requires Settled(s, sc, l, m) && Settled(s, sc, r, m)
    ensures var j := Transform(s, sc, o, Binary(op, l, r), n);
      var a, b := Meaning(s, sc, l, m), Meaning(s, sc, r, m);
      && j.Ok?
      && Eval(h, j.value, vars) == Value(VBool((Read(a, "id") == Read(b, "id")) == op.OpEq?))
      && (Eval(h, j.value, vars) == Value(Meaning(s, sc, Binary(op, l, r), m)) <==>
          RecordsCompareRight(s, TypeOf(s, sc, l).model, a, b))
    decreases Binary(op, l, r), 0
  {
    var model := TypeOf(s, sc, l).model;
    EqualityParts(s, sc, o.isPostGuard, op, l, r);
    EqualityMeans(s, sc, op, l, r, m);
    CompiledMeaning(s, sc, o, l, n, h, vars, m);
    CompiledMeaning(s, sc, o, r, n, h, vars, m);
    EqualityCompilesTo(s, sc, o, op, l, r, n);
    var a, b := Meaning(s, sc, l, m), Meaning(s, sc, r, m);
    ModelEqualityStep(s, h, vars, op, Transform(s, sc, o, l, n).value, Transform(s, sc, o, r, n).value, a, b, model);
    RecordsDecide(s, model, a, b);
  }

  /**
   * Dates and the like are compared as objects, rightly if one is missing or they are the same just when one object.
   */
  lemma {:induction false} ObjectEqualityIff(
      s: Schema, sc: Scope, o: Options, op: BinOp, l: Expr, r: Expr, n: bool, h: Host, vars: Vars, m: Moment)
    requires (op.OpEq? || op.OpNe?) && AreObjects(TypeOf(s, sc, l), TypeOf(s, sc, r)) && !l.This? && !r.This?
    requires WellTyped(s, sc, o.isPostGuard, Binary(op, l, r)) && Represents(s, sc, o, vars, m)
    requires Settled(s, sc, l, m) && Settled(s, sc, r, m)
    ensures var j := Transform(s, sc, o, Binary(op, l, r), n);
      var a, b := Meaning(s, sc, l, m), Meaning(s, sc, r, m);
      && j.Ok?
      && Eval(h, j.value, vars)
         == Value(VBool((if a.VObj? && b.VObj? then a.objectId == b.objectId else a == b) == op.OpEq?))
      && (Eval(h, j.value, vars) == Value(Meaning(s, sc, Binary(op, l, r), m)) <==> ObjectsCompareRight(a, b))
    decreases Binary(op, l, r), 0
  {
    EqualityParts(s, sc, o.isPostGuard, op, l, r);
    EqualityMeans(s, sc, op, l, r, m);
    CompiledMeaning(s, sc, o, l, n, h, vars, m);
    CompiledMeaning(s, sc, o, r, n, h, vars, m);
    EqualityCompilesTo(s, sc, o, op, l, r, n);
    ObjectEqualityStep(s, h, vars, op, Transform(s, sc, o, l, n).value, Transform(s, sc, o, r, n).value,
                       Meaning(s, sc, l, m), Meaning(s, sc, r, m), TypeOf(s, sc, l));
  }

  lemma ObjectEqualityStep(s: Schema, h: Host, vars: Vars, op: BinOp, x: JExpr, y: JExpr, a: Val, b: Val, t: Ty)
    requires (op.OpEq? || op.OpNe?) && t.ObjectT?
    requires Agrees(s, Eval(h, x, vars), a, t) && Agrees(s, Eval(h, y, vars), b, t)
    ensures Eval(h, JOp(op, x, y), vars)
         == Value(VBool((if a.VObj? && b.VObj? then a.objectId == b.objectId else a == b) == op.OpEq?))
  {
    EqualityEval(h, vars, x, y);
  }

  lemma RecordsDecide(s: Schema, model: string, a: Val, b: Val)
    requires HasType(s, a, ModelT(model)) && HasType(s, b, ModelT(model)) && !a.Undef? && !b.Undef?
    ensures RecordsCompareRight(s, model, a, b)
       <==> (Read(a, "id") == Read(b, "id") <==> SameRecord(Ids(s, model), a, b))
  {
    if ComparedById(s, model) {
      assert Ids(s, model)[0] in Ids(s, model);
    }
  }

  /**
   * The code of `==` or `!=` has its meaning if and only if the operands hide their missing deciders both or neither,
   * or one of them is true; for records, dates and the like, and lists, if and only if they are what the code takes
   * them for.
   */
  lemma {:induction false} EqualityIff(
      s: Schema, sc: Scope, o: Options, op: BinOp, l: Expr, r: Expr, n: bool, h: Host, vars: Vars, m: Moment)
    requires op.OpEq? || op.OpNe?
    requires WellTyped(s, sc, o.isPostGuard, Binary(op, l, r)) && Represents(s, sc, o, vars, m)
    requires Settled(s, sc, l, m) && Settled(s, sc, r, m)
    ensures var j := Transform(s, sc, o, Binary(op, l, r), n);
      && j.Ok?
      && Eval(h, j.value, vars).Value?
      && (Eval(h, j.value, vars) == Value(Meaning(s, sc, Binary(op, l, r), m)) <==> ComparesRight(s, sc, l, r, m))
    decreases Binary(op, l, r), 2
  {
    if l.This? || r.This? {
      ThisEqualityIff(s, sc, o, op, l, r, n, h, vars, m);
    } else if AreLists(TypeOf(s, sc, l), TypeOf(s, sc, r)) {
      ListEqualityIff(s, sc, o, op, l, r, n, h, vars, m);
    } else if AreModels(TypeOf(s, sc, l), TypeOf(s, sc, r)) {
      RecordEqualityIff(s, sc, o, op, l, r, n, h, vars, m);
    } else if AreObjects(TypeOf(s, sc, l), TypeOf(s, sc, r)) {
      ObjectEqualityIff(s, sc, o, op, l, r, n, h, vars, m);
    } else {
      EqualityParts(s, sc, o.isPostGuard, op, l, r);
      ScalarEqualityIff(s, sc, o, op, l, r, n, h, vars, m);
    }
  }

  lemma {:induction false} ScalarEqualityIff(
      s: Schema, sc: Scope, o: Options, op: BinOp, l: Expr, r: Expr, n: bool, h: Host, vars: Vars, m: Moment)
    requires (op.OpEq? || op.OpNe?) && Represents(s, sc, o, vars, m)
    requires ComparedParts(s, sc, o.isPostGuard, l, r, m)
    ensures var j := Transform(s, sc, o, Binary(op, l, r), n);
      && j.Ok?
      && Eval(h, j.value, vars).Value?
      && (Eval(h, j.value, vars) == Value(Meaning(s, sc, Binary(op, l, r), m)) <==> ComparesRight(s, sc, l, r, m))
    decreases Binary(op, l, r), 1
  {
    EqualityOfDecisions(s, sc, o, op, l, r, n, h, vars, m);
    EqualityMeans(s, sc, op, l, r, m);
    DecisionsDecide(s, sc, op, l, r, m);
  }

  /** With a connective on the left only: right exactly if what decides it is there, or the other side is true. */
  lemma ConnectiveEqualityIff(
      s: Schema, sc: Scope, o: Options, op: BinOp, l: Expr, r: Expr, n: bool, h: Host, vars: Vars, m: Moment)
    requires (op.OpEq? || op.OpNe?) && Connective(l) && !Connective(r)
    requires WellTyped(s, sc, o.isPostGuard, Binary(op, l, r)) && Represents(s, sc, o, vars, m)
    requires Settled(s, sc, l, m) && Settled(s, sc, r, m)
    ensures Transform(s, sc, o, Binary(op, l, r), n).Ok?
    ensures var code := Transform(s, sc, o, Binary(op, l, r), n).value;
      Eval(h, code, vars) == Value(Meaning(s, sc, Binary(op, l, r), m))
      <==> !Decision(s, sc, l, m).VNull? || Meaning(s, sc, r, m).Truthy()
  {
    EqualityIff(s, sc, o, op, l, r, n, h, vars, m);
    DecisionHasTruth(s, sc, l, m);
  }

  lemma {:induction false} ThisEqualityMeaning(
      s: Schema, sc: Scope, o: Options, op: BinOp, l: Expr, r: Expr, n: bool, h: Host, vars: Vars, m: Moment)
    requires (op.OpEq? || op.OpNe?) && (l.This? || r.This?)
    requires WellTyped(s, sc, o.isPostGuard, Binary(op, l, r)) && Represents(s, sc, o, vars, m)
    requires Settled(s, sc, Binary(op, l, r), m)
    ensures Faithful(s, sc, o, Binary(op, l, r), n, h, vars, m)
    decreases Binary(op, l, r), 2
  {
    ThisEqualityIff(s, sc, o, op, l, r, n, h, vars, m);
    EqualityMeans(s, sc, op, l, r, m);
    YieldingIsFaithful(s, sc, o, op, l, r, n, h, vars, m);
  }

  /**
   * Comparing with `this` is right if and only if two records with the same ids miss none of them, or the same ones in
   * the same way: to the code an id that is null differs from one that was not loaded.
   */
  lemma {:induction false} ThisEqualityIff(
      s: Schema, sc: Scope, o: Options, op: BinOp, l: Expr, r: Expr, n: bool, h: Host, vars: Vars, m: Moment)
    requires (op.OpEq? || op.OpNe?) && (l.This? || r.This?)
    requires WellTyped(s, sc, o.isPostGuard, Binary(op, l, r)) && Represents(s, sc, o, vars, m)
    requires Settled(s, sc, l, m) && Settled(s, sc, r, m)
    ensures var j := Transform(s, sc, o, Binary(op, l, r), n);
      var ids, a, b := Ids(s, sc.root), Meaning(s, sc, l, m), Meaning(s, sc, r, m);
      && j.Ok?
      && Eval(h, j.value, vars) == Value(VBool(IdsLookEqual(ids, a, b) == op.OpEq?))
      && (Eval(h, j.value, vars) == Value(Meaning(s, sc, Binary(op, l, r), m)) <==> ThisComparesRight(ids, a, b))
    decreases Binary(op, l, r), 1
  {
    EqualityParts(s, sc, o.isPostGuard, op, l, r);
    ThisEqualityEval(s, sc, o, op, l, r, n, h, vars, m);
    EqualityMeans(s, sc, op, l, r, m);
    ThisIsCompared(s, sc, l, r, m);
  }

  lemma {:induction false} ThisEqualityEval(
      s: Schema, sc: Scope, o: Options, op: BinOp, l: Expr, r: Expr, n: bool, h: Host, vars: Vars, m: Moment)
    requires (op.OpEq? || op.OpNe?) && (l.This? || r.This?) && Represents(s, sc, o, vars, m)
    requires WellTyped(s, sc, o.isPostGuard, l) && WellTyped(s, sc, o.isPostGuard, r)
    requires Comparable(s, sc, l, r, TypeOf(s, sc, l), TypeOf(s, sc, r))
    requires Settled(s, sc, l, m) && Settled(s, sc, r, m)
    ensures var j := Transform(s, sc, o, Binary(op, l, r), n);
      && j.Ok?
      && Eval(h, j.value, vars)
         == Value(VBool(IdsLookEqual(Ids(s, sc.root), Meaning(s, sc, l, m), Meaning(s, sc, r, m)) == op.OpEq?))
    ensures ThisSide(s, sc, l, m) && ThisSide(s, sc, r, m)
    decreases Binary(op, l, r), 0
  {
    ThisSideMeaning(s, sc, o, l, h, vars, m);
    ThisSideMeaning(s, sc, o, r, h, vars, m);
    ThisCompilesTo(s, sc, o, op, l, r, n);
    ThisEqualityStep(s, h, vars, op, Transform(s, sc, o, l, false).value, Transform(s, sc, o, r, false).value,
                     Meaning(s, sc, l, m), Meaning(s, sc, r, m), sc.root);
  }

  /** A record or missing, and surely missing if it has no model. */
  ghost predicate ThisSide(s: Schema, sc: Scope, e: Expr, m: Moment) {
    var a := Meaning(s, sc, e, m);
    (TypeOf(s, sc, e).NullT? ==> a.VNull?) && (a.VObj? || a.VNull?)
  }

  lemma {:induction false} ThisSideMeaning(
      s: Schema, sc: Scope, o: Options, e: Expr, h: Host, vars: Vars, m: Moment)
    requires WellTyped(s, sc, o.isPostGuard, e) && Represents(s, sc, o, vars, m) && Settled(s, sc, e, m)
    requires TypeOf(s, sc, e) == ModelT(sc.root) || TypeOf(s, sc, e).NullT?
    ensures Transform(s, sc, o, e, false).Ok? && ThisSide(s, sc, e, m)
    ensures Agrees(s, Eval(h, Transform(s, sc, o, e, false).value, vars), Meaning(s, sc, e, m), ModelT(sc.root))
    decreases e, 6
  {
    OperandMeans(s, sc, o, e, false, h, vars, m);
  }

  /** The entity is a record, so with null for the other side it makes no difference that null has no model. */
  lemma ThisIsCompared(s: Schema, sc: Scope, l: Expr, r: Expr, m: Moment)
    requires (l.This? || r.This?) && m.entity.VObj?
    requires var t, u := TypeOf(s, sc, l), TypeOf(s, sc, r); t == u == ModelT(sc.root) || t.NullT? || u.NullT?
    requires ThisSide(s, sc, l, m) && ThisSide(s, sc, r, m)
    ensures var ids, a, b := Ids(s, sc.root), Meaning(s, sc, l, m), Meaning(s, sc, r, m);
      SameValue(ModelOf(s, sc, l, r), a, b) == IdsLookEqual(ids, a, b) <==> ThisComparesRight(ids, a, b)
  {
  }

  // ----- missing as null or as undefined -----

  /** Settled code leaves what is said to be left. */
  lemma {:induction false} RawIsLeft(
      s: Schema, sc: Scope, o: Options, e: Expr, n: bool, h: Host, vars: Vars, m: Moment)
    requires WellTyped(s, sc, o.isPostGuard, e) && Represents(s, sc, o, vars, m) && Settled(s, sc, e, m)
    ensures var j := Transform(s, sc, o, e, n); j.Ok? && Eval(h, j.value, vars) == Value(Raw(s, sc, e, n, m))
    decreases e, 6
  {
    match e {
      case Ref(name, _) => RawField(s, sc, o, name, n, h, vars, m);
      case Member(x, name) =>
        if !IsFuture(x) {
          RawIsLeft(s, sc, o, x, n, h, vars, m);
          RawMember(s, sc, o, x, name, n, h, vars, m);
        }
      case Binary(op, l, r) =>
        if Connective(e) {
          RawConnective(s, sc, o, op, l, r, n, h, vars, m);
        } else {
          OthersLeaveMeaning(s, sc, o, e, n, h, vars, m);
        }
      case _ => OthersLeaveMeaning(s, sc, o, e, n, h, vars, m);
    }
  }

  lemma RawField(s: Schema, sc: Scope, o: Options, name: string, n: bool, h: Host, vars: Vars, m: Moment)
    requires WellTyped(s, sc, o.isPostGuard, Ref(name, [])) && Represents(s, sc, o, vars, m)
    ensures var j := Transform(s, sc, o, Ref(name, []), n);
      j.Ok? && Eval(h, j.value, vars) == Value(Raw(s, sc, Ref(name, []), n, m))
  {
    if IsField(s, sc.cur, name) {
      if o.isPostGuard {
        assert Eval(h, JField(JVar(Context), "preValue"), vars) == Value(m.subject);
      }
    } else {
      assert Eval(h, JField(JVar(Global(s.enums[name])), name), vars) == Value(VStr(name));
    }
  }

  lemma RawMember(
      s: Schema, sc: Scope, o: Options, x: Expr, name: string, n: bool, h: Host, vars: Vars, m: Moment)
    requires !IsFuture(x)
    requires var j := Transform(s, sc, o, x, n); j.Ok? && Eval(h, j.value, vars) == Value(Raw(s, sc, x, n, m))
    ensures var j := Transform(s, sc, o, Member(x, name), n);
      j.Ok? && Eval(h, j.value, vars) == Value(Raw(s, sc, Member(x, name), n, m))
  {
    var j := Transform(s, sc, o, x, n).value;
    assert Eval(h, JOptField(j, name), vars) == Value(Prop(Raw(s, sc, x, n, m), name));
  }

  lemma {:induction false} RawConnective(
      s: Schema, sc: Scope, o: Options, op: BinOp, l: Expr, r: Expr, n: bool, h: Host, vars: Vars, m: Moment)
    requires op.OpAnd? || op.OpOr?
    requires WellTyped(s, sc, o.isPostGuard, Binary(op, l, r)) && Represents(s, sc, o, vars, m)
    requires Settled(s, sc, Binary(op, l, r), m)
    ensures var j := Transform(s, sc, o, Binary(op, l, r), n);
      j.Ok? && Eval(h, j.value, vars) == Value(Raw(s, sc, Binary(op, l, r), n, m))
    decreases Binary(op, l, r), 0
  {
    ConnectiveParts(s, sc, o.isPostGuard, op, l, r, m);
    RawIsLeft(s, sc, o, l, n, h, vars, m);
    RawTruth(s, sc, o, l, n, h, vars, m);
    Compiles(s, sc, o, r, n);
    if Meaning(s, sc, l, m).Truthy() == op.OpAnd? {
      RawIsLeft(s, sc, o, r, n, h, vars, m);
    }
    ConnectiveCompilesTo(s, sc, o, op, l, r, n);
    ConnectiveEval(h, vars, op, Transform(s, sc, o, l, n).value, Transform(s, sc, o, r, n).value,
                   Raw(s, sc, l, n, m), Raw(s, sc, r, n, m));
  }

  lemma ConnectiveEval(h: Host, vars: Vars, op: BinOp, x: JExpr, y: JExpr, a: Val, b: Val)
    requires (op.OpAnd? || op.OpOr?) && Eval(h, x, vars) == Value(a)
    requires a.Truthy() == op.OpAnd? ==> Eval(h, y, vars) == Value(b)
    ensures Eval(h, JOp(op, x, y), vars) == Value(if a.Truthy() == op.OpAnd? then b else a)
  {
  }

  lemma {:induction false} RawTruth(
      s: Schema, sc: Scope, o: Options, e: Expr, n: bool, h: Host, vars: Vars, m: Moment)
    requires WellTyped(s, sc, o.isPostGuard, e) && Represents(s, sc, o, vars, m) && Settled(s, sc, e, m)
    requires var j := Transform(s, sc, o, e, n); j.Ok? && Eval(h, j.value, vars) == Value(Raw(s, sc, e, n, m))
    ensures Raw(s, sc, e, n, m).Truthy() == Meaning(s, sc, e, m).Truthy()
    decreases e, 5
  {
    CompiledMeaning(s, sc, o, e, n, h, vars, m);
  }

  lemma {:induction false} OthersLeaveMeaning(
      s: Schema, sc: Scope, o: Options, e: Expr, n: bool, h: Host, vars: Vars, m: Moment)
    requires WellTyped(s, sc, o.isPostGuard, e) && Represents(s, sc, o, vars, m) && Settled(s, sc, e, m)
    requires !e.Ref? && !e.Member? && !Connective(e)
    ensures var j := Transform(s, sc, o, e, n); j.Ok? && Eval(h, j.value, vars) == Value(Raw(s, sc, e, n, m))
    decreases e, 5
  {
    CompiledMeaning(s, sc, o, e, n, h, vars, m);
  }

  // ----- relations -----

  /**
   * The code of `<` and the like has its meaning if and only if both sides are there or JavaScript denies the relation
   * of what stands there for a missing one.
   */
  lemma {:induction false} RelationIff(
      s: Schema, sc: Scope, o: Options, op: BinOp, l: Expr, r: Expr, n: bool, h: Host, vars: Vars, m: Moment)
    requires IsRelation(op)
    requires WellTyped(s, sc, o.isPostGuard, Binary(op, l, r)) && Represents(s, sc, o, vars, m)
    requires Settled(s, sc, l, m) && Settled(s, sc, r, m)
    ensures var j := Transform(s, sc, o, Binary(op, l, r), n);
      && j.Ok?
      && (Eval(h, j.value, vars) == Value(Meaning(s, sc, Binary(op, l, r), m)) <==>
          RelatesRight(s, sc, l, r, m) || !h.relate(op, Raw(s, sc, l, n, m), Raw(s, sc, r, n, m)))
    ensures Meaning(s, sc, Binary(op, l, r), m).VBool?
    decreases Binary(op, l, r), 0
  {
    RelationParts(s, sc, o.isPostGuard, op, l, r);
    OperandMeans(s, sc, o, l, n, h, vars, m);
    OperandMeans(s, sc, o, r, n, h, vars, m);
    RawIsLeft(s, sc, o, l, n, h, vars, m);
    RawIsLeft(s, sc, o, r, n, h, vars, m);
    var x, y := Transform(s, sc, o, l, n).value, Transform(s, sc, o, r, n).value;
    RelationCompilesTo(s, sc, o, op, l, r, n);
    RelationMeans(s, sc, op, l, r, m);
    RelationStep(s, h, vars, op, x, y, Meaning(s, sc, l, m), Meaning(s, sc, r, m), Raw(s, sc, l, n, m),
                 Raw(s, sc, r, n, m));
  }

  lemma RelationParts(s: Schema, sc: Scope, post: bool, op: BinOp, l: Expr, r: Expr)
    requires IsRelation(op) && WellTyped(s, sc, post, Binary(op, l, r))
    ensures WellTyped(s, sc, post, l) && TypeOf(s, sc, l).NumT? && !Connective(l)
    ensures WellTyped(s, sc, post, r) && TypeOf(s, sc, r).NumT? && !Connective(r)
  {
  }

  lemma RelationCompilesTo(s: Schema, sc: Scope, o: Options, op: BinOp, l: Expr, r: Expr, n: bool)
    requires IsRelation(op) && o.context.AccessPolicy? && TypeOf(s, sc, l).NumT?
    requires Transform(s, sc, o, l, n).Ok? && Transform(s, sc, o, r, n).Ok?
    ensures Transform(s, sc, o, Binary(op, l, r), n)
         == Ok(JOp(op, Transform(s, sc, o, l, n).value, Transform(s, sc, o, r, n).value))
  {
  }

  lemma RelationMeans(s: Schema, sc: Scope, op: BinOp, l: Expr, r: Expr, m: Moment)
    requires IsRelation(op)
    ensures var a, b := Meaning(s, sc, l, m), Meaning(s, sc, r, m);
      Meaning(s, sc, Binary(op, l, r), m) == VBool(a.VNum? && b.VNum? && NumbersRelate(op, a.n, b.n))
  {
  }

  lemma RelationStep(
      s: Schema, h: Host, vars: Vars, op: BinOp, x: JExpr, y: JExpr, a: Val, b: Val, v: Val, w: Val)
    requires IsRelation(op) && Eval(h, x, vars) == Value(v) && Eval(h, y, vars) == Value(w)
    requires Agrees(s, Value(v), a, NumT) && Agrees(s, Value(w), b, NumT)
    ensures Eval(h, JOp(op, x, y), vars)
         == Value(VBool(if a.VNum? && b.VNum? then NumbersRelate(op, a.n, b.n) else h.relate(op, v, w)))
  {
    RelationEval(h, vars, op, x, y, v, w);
  }

  lemma RelationSettles(s: Schema, sc: Scope, op: BinOp, l: Expr, r: Expr, m: Moment)
    requires IsRelation(op) && Settled(s, sc, Binary(op, l, r), m)
    ensures Settled(s, sc, l, m) && Settled(s, sc, r, m) && RelatesRight(s, sc, l, r, m)
  {
  }

  lemma {:induction false} RelationMeaning(
      s: Schema, sc: Scope, o: Options, op: BinOp, l: Expr, r: Expr, n: bool, h: Host, vars: Vars, m: Moment)
    requires IsRelation(op)
    requires WellTyped(s, sc, o.isPostGuard, Binary(op, l, r)) && Represents(s, sc, o, vars, m)
    requires Settled(s, sc, Binary(op, l, r), m)
    ensures Faithful(s, sc, o, Binary(op, l, r), n, h, vars, m)
    decreases Binary(op, l, r), 1
  {
    RelationSettles(s, sc, op, l, r, m);
    RelationIff(s, sc, o, op, l, r, n, h, vars, m);
    YieldingIsFaithful(s, sc, o, op, l, r, n, h, vars, m);
  }

  // ----- membership -----

  /** The values of a list written out: of each item, what it leaves. */
  ghost predicate ItemsAgree(s: Schema, sc: Scope, items: seq<Expr>, t: Ty, m: Moment, vs: seq<Val>) {
    |vs| == |items|
    && forall i | 0 <= i < |items| ::
         Norm(vs[i]) == Decision(s, sc, items[i], m) && HasType(s, Decision(s, sc, items[i], m), t)
  }

  lemma ItemsAgreeStep(s: Schema, sc: Scope, items: seq<Expr>, t: Ty, m: Moment, v: Val, vs: seq<Val>)
    requires items != [] && ItemsAgree(s, sc, items[1..], t, m, vs)
    requires Norm(v) == Decision(s, sc, items[0], m) && HasType(s, Decision(s, sc, items[0], m), t)
    ensures ItemsAgree(s, sc, items, t, m, [v] + vs)
  {
    forall i | 0 < i < |items|
      ensures Norm(([v] + vs)[i]) == Decision(s, sc, items[i], m) && HasType(s, Decision(s, sc, items[i], m), t)
    {
      assert items[i] == items[1..][i - 1] && ([v] + vs)[i] == vs[i - 1];
    }
  }

  lemma {:induction false} ItemsMeaning(
      s: Schema, sc: Scope, o: Options, items: seq<Expr>, t: Ty, n: bool, h: Host, vars: Vars, m: Moment)
    requires Represents(s, sc, o, vars, m)
    requires forall i | 0 <= i < |items| ::
      WellTyped(s, sc, o.isPostGuard, items[i]) && Alike(TypeOf(s, sc, items[i]), t) && Settled(s, sc, items[i], m)
    ensures TransformAll(s, sc, o, items, n).Ok?
    ensures var vs := EvalAll(h, TransformAll(s, sc, o, items, n).value, vars);
      vs.Some? && ItemsAgree(s, sc, items, t, m, vs.value)
    decreases items, 0
  {
    if items == [] {
    } else {
      CompiledMeaning(s, sc, o, items[0], n, h, vars, m);
      ItemsMeaning(s, sc, o, items[1..], t, n, h, vars, m);
      ItemsEval(s, sc, o, items, n, h, vars);
      AlikeHaveSame(s, Decision(s, sc, items[0], m), TypeOf(s, sc, items[0]), t);
      ItemsAgreeStep(s, sc, items, t, m, Eval(h, Transform(s, sc, o, items[0], n).value, vars).v,
                     EvalAll(h, TransformAll(s, sc, o, items[1..], n).value, vars).value);
    }
  }

  lemma AlikeHaveSame(s: Schema, v: Val, t: Ty, u: Ty)
    requires Alike(t, u) && HasType(s, v, t)
    ensures HasType(s, v, u)
  {
  }

  lemma ItemsEval(s: Schema, sc: Scope, o: Options, items: seq<Expr>, n: bool, h: Host, vars: Vars)
    requires items != [] && Transform(s, sc, o, items[0], n).Ok? && TransformAll(s, sc, o, items[1..], n).Ok?
    requires Eval(h, Transform(s, sc, o, items[0], n).value, vars).Value?
    requires EvalAll(h, TransformAll(s, sc, o, items[1..], n).value, vars).Some?
    ensures TransformAll(s, sc, o, items, n).Ok?
    ensures EvalAll(h, TransformAll(s, sc, o, items, n).value, vars)
         == Some([Eval(h, Transform(s, sc, o, items[0], n).value, vars).v]
                 + EvalAll(h, TransformAll(s, sc, o, items[1..], n).value, vars).value)
  {
    var j, js := Transform(s, sc, o, items[0], n).value, TransformAll(s, sc, o, items[1..], n).value;
    assert ([j] + js)[1..] == js;
  }

  lemma ArrayEval(s: Schema, sc: Scope, o: Options, items: seq<Expr>, n: bool, h: Host, vars: Vars)
    requires TransformAll(s, sc, o, items, n).Ok? && EvalAll(h, TransformAll(s, sc, o, items, n).value, vars).Some?
    ensures var j := Transform(s, sc, o, Array(items), n);
      j.Ok? && Eval(h, j.value, vars) == Value(VArr(0, EvalAll(h, TransformAll(s, sc, o, items, n).value, vars).value))
  {
  }

  /** What a list leaves: of one written out, what its items leave. */
  ghost function ListDecision(s: Schema, sc: Scope, list: Expr, m: Moment): Val {
    if list.Array? then
      VArr(0, seq(|list.items|, i requires 0 <= i < |list.items| => Decision(s, sc, list.items[i], m)))
    else Meaning(s, sc, list, m)
  }

  ghost predicate ItemsLeave(s: Schema, sc: Scope, list: Expr, m: Moment, t: Ty) {
    list.Array? ==> forall i | 0 <= i < |list.items| ::
      !Decision(s, sc, list.items[i], m).Undef? && HasType(s, Decision(s, sc, list.items[i], m), t)
  }

  lemma {:induction false} ListLeaves(
      s: Schema, sc: Scope, o: Options, list: Expr, t: Ty, n: bool, h: Host, vars: Vars, m: Moment)
    requires Represents(s, sc, o, vars, m)
    requires IsListOf(s, sc, o.isPostGuard, list, t) && Settled(s, sc, list, m)
    ensures var j := Transform(s, sc, o, list, n);
      j.Ok? && AgreesAsList(s, Eval(h, j.value, vars), ListDecision(s, sc, list, m), t)
    ensures !list.Array? ==> !Among(VNull, Meaning(s, sc, list, m))
    ensures ItemsLeave(s, sc, list, m, t)
    decreases list, 5
  {
    if list.Array? {
      ItemsMeaning(s, sc, o, list.items, t, n, h, vars, m);
      ArrayEval(s, sc, o, list.items, n, h, vars);
    } else {
      CompiledMeaning(s, sc, o, list, n, h, vars, m);
      ListIsItself(s, Eval(h, Transform(s, sc, o, list, n).value, vars), Meaning(s, sc, list, m),
                   TypeOf(s, sc, list).of, t);
    }
  }

  /** Items are what they leave, except that a hidden one is false. */
  lemma ListedAsMeant(s: Schema, sc: Scope, post: bool, list: Expr, t: Ty, m: Moment, v: Val)
    requires IsListOf(s, sc, post, list, t) && ItemsLeave(s, sc, list, m, t)
    ensures !v.VNull? ==>
      (Among(v, Meaning(s, sc, list, m)) <==>
       Among(v, ListDecision(s, sc, list, m)) || (v == VBool(false) && HidesItem(s, sc, list, m)))
    ensures !HidesItem(s, sc, list, m) ==> ListDecision(s, sc, list, m) == Meaning(s, sc, list, m)
  {
    if list.Array? {
      var d, b := ListDecision(s, sc, list, m), Meaning(s, sc, list, m);
      forall i | 0 <= i < |list.items|
        ensures b.elems[i] == if Hides(s, sc, list.items[i], m) then VBool(false) else d.elems[i]
      {
        DecisionHasTruth(s, sc, list.items[i], m);
        if !Hides(s, sc, list.items[i], m) {
          DecisionIsMeaning(s, sc, list.items[i], m, d.elems[i], t);
        }
      }
      var hidden := seq(|list.items|, i requires 0 <= i < |list.items| => Hides(s, sc, list.items[i], m));
      HiddenItems(d.elems, b.elems, hidden, v);
      assert HidesItem(s, sc, list, m) <==> exists i | 0 <= i < |list.items| :: Hides(s, sc, list.items[i], m);
    }
  }

  lemma HiddenItems(d: seq<Val>, b: seq<Val>, hidden: seq<bool>, v: Val)
    requires |d| == |b| == |hidden|
    requires forall i | 0 <= i < |d| :: (hidden[i] ==> d[i].VNull?) && b[i] == if hidden[i] then VBool(false) else d[i]
    ensures !v.VNull? ==> (v in b <==> v in d || (v == VBool(false) && exists i | 0 <= i < |d| :: hidden[i]))
    ensures (forall i | 0 <= i < |d| :: !hidden[i]) ==> d == b
  {
    if i :| 0 <= i < |b| && b[i] == v {
      assert hidden[i] || d[i] == v;
    }
    if i :| 0 <= i < |d| && d[i] == v && !v.VNull? {
      assert b[i] == v;
    }
    if i :| 0 <= i < |d| && hidden[i] {
      assert b[i] == VBool(false);
    }
  }

  lemma DecisionIsMeaning(s: Schema, sc: Scope, e: Expr, m: Moment, v: Val, t: Ty)
    requires v == Decision(s, sc, e, m) && HasType(s, v, t) && Alike(TypeOf(s, sc, e), t)
    requires !v.Undef? && !Hides(s, sc, e, m)
    ensures Meaning(s, sc, e, m) == v
  {
    DecisionHasTruth(s, sc, e, m);
  }

  lemma ListIsItself(s: Schema, y: Outcome, b: Val, t: Ty, u: Ty)
    requires Agrees(s, y, b, ListT(t)) && Alike(t, u)
    ensures AgreesAsList(s, y, b, u) && !Among(VNull, b)
  {
    if b.VArr? {
      forall i | 0 <= i < |b.elems| ensures Norm(b.elems[i]) == b.elems[i] && HasType(s, b.elems[i], u) {
        assert b.elems[i] in b.elems;
        AlikeHaveSame(s, b.elems[i], t, u);
      }
    }
  }

  /** `x in list` or `has(list, x)`. */
  predicate IsSearch(e: Expr, x: Expr, list: Expr) {
    || (e.Binary? && e.op.OpIn? && e.left == x && e.right == list)
    || (e.Invoke? && e.function_ == "has" && |e.args| == 2 && e.args[1] == x && e.args[0] == list)
  }

  lemma SearchParts(s: Schema, sc: Scope, post: bool, e: Expr, x: Expr, list: Expr)
    requires IsSearch(e, x, list) && WellTyped(s, sc, post, e)
    ensures WellTyped(s, sc, post, x) && Scalar(TypeOf(s, sc, x)) && IsListOf(s, sc, post, list, TypeOf(s, sc, x))
  {
  }

  lemma SearchFormCompilesTo(s: Schema, sc: Scope, o: Options, e: Expr, x: Expr, list: Expr, n: bool)
    requires IsSearch(e, x, list) && o.context.AccessPolicy?
    requires Transform(s, sc, o, x, n).Ok? && Transform(s, sc, o, list, false).Ok?
    ensures Transform(s, sc, o, e, n)
         == Ok(SearchCode(Transform(s, sc, o, x, n).value, Transform(s, sc, o, list, false).value))
  {
    if e.Binary? {
      InCompilesTo(s, sc, o, x, list, n);
    } else {
      HasCompilesTo(s, sc, o, e.args, n);
    }
  }

  lemma SearchFormMeans(s: Schema, sc: Scope, e: Expr, x: Expr, list: Expr, m: Moment)
    requires IsSearch(e, x, list) && !Meaning(s, sc, list, m).VStr?
    ensures Meaning(s, sc, e, m) == VBool(Among(Meaning(s, sc, x, m), Meaning(s, sc, list, m)))
  {
    if e.Invoke? {
      HasMeans(s, sc, e.args, m);
    }
  }

  /** What the code of a search for `x` in `list` computes. */
  lemma {:induction false} SearchOfDecision(
      s: Schema, sc: Scope, o: Options, e: Expr, x: Expr, list: Expr, n: bool, h: Host, vars: Vars, m: Moment)
    requires IsSearch(e, x, list) && WellTyped(s, sc, o.isPostGuard, e) && Represents(s, sc, o, vars, m)
    requires Settled(s, sc, x, m) && Settled(s, sc, list, m)
    ensures var jx, jl, t := Transform(s, sc, o, x, n), Transform(s, sc, o, list, false), TypeOf(s, sc, x);
      && jx.Ok? && jl.Ok?
      && Agrees(s, Eval(h, jx.value, vars), Decision(s, sc, x, m), t)
      && (!list.Array? ==> !Among(VNull, Meaning(s, sc, list, m)))
      && AgreesAsList(s, Eval(h, jl.value, vars), ListDecision(s, sc, list, m), t)
      && IsListOf(s, sc, o.isPostGuard, list, t) && ItemsLeave(s, sc, list, m, t)
    ensures var code := Transform(s, sc, o, e, n);
      var v := Eval(h, Transform(s, sc, o, x, n).value, vars).v;
      var items := Eval(h, Transform(s, sc, o, list, false).value, vars).v;
      code.Ok? && Eval(h, code.value, vars) == Value(VBool(Among(v, items)))
    decreases e, 0
  {
    SearchParts(s, sc, o.isPostGuard, e, x, list);
    var t := TypeOf(s, sc, x);
    CompiledMeaning(s, sc, o, x, n, h, vars, m);
    ListLeaves(s, sc, o, list, t, false, h, vars, m);
    ListSearchStep(s, h, vars, Transform(s, sc, o, x, n).value, Transform(s, sc, o, list, false).value,
                   Decision(s, sc, x, m), ListDecision(s, sc, list, m), t);
    SearchFormCompilesTo(s, sc, o, e, x, list, n);
  }

  lemma {:induction false} MembershipMeaning(
      s: Schema, sc: Scope, o: Options, e: Expr, x: Expr, list: Expr, n: bool, h: Host, vars: Vars, m: Moment)
    requires IsSearch(e, x, list) && WellTyped(s, sc, o.isPostGuard, e) && Represents(s, sc, o, vars, m)
    requires Settled(s, sc, x, m) && Settled(s, sc, list, m) && SearchesRight(s, sc, x, list, m)
    ensures var j := Transform(s, sc, o, e, n);
      j.Ok? && !Meaning(s, sc, list, m).VStr?
      && Eval(h, j.value, vars) == Value(VBool(Among(Meaning(s, sc, x, m), Meaning(s, sc, list, m))))
    decreases e, 1
  {
    SearchOfDecision(s, sc, o, e, x, list, n, h, vars, m);
    var t := TypeOf(s, sc, x);
    ListedAsMeant(s, sc, o.isPostGuard, list, t, m, Decision(s, sc, x, m));
    AmongMissing(s, Eval(h, Transform(s, sc, o, list, false).value, vars), Meaning(s, sc, list, m), t,
                 Eval(h, Transform(s, sc, o, x, n).value, vars).v);
    DecisionHasTruth(s, sc, x, m);
    if !Hides(s, sc, x, m) {
      DecisionIsMeaning(s, sc, x, m, Decision(s, sc, x, m), t);
    }
  }

  /** A written out item that is missing, and not because a connective hides that. */
  ghost predicate MissesPlainly(s: Schema, sc: Scope, list: Expr, m: Moment) {
    list.Array?
    && exists i | 0 <= i < |list.items| ::
         Decision(s, sc, list.items[i], m).VNull? && !Hides(s, sc, list.items[i], m)
  }

  /** An item, hidden or not, is false. */
  ghost predicate HasFalse(s: Schema, sc: Scope, list: Expr, m: Moment) {
    Among(VBool(false), ListDecision(s, sc, list, m)) || HidesItem(s, sc, list, m)
  }

  lemma MissesNull(s: Schema, sc: Scope, post: bool, list: Expr, t: Ty, m: Moment)
    requires IsListOf(s, sc, post, list, t) && ItemsLeave(s, sc, list, m, t)
    requires !list.Array? ==> !Among(VNull, Meaning(s, sc, list, m))
    ensures Among(VNull, Meaning(s, sc, list, m)) <==> MissesPlainly(s, sc, list, m)
  {
    if list.Array? {
      var b := Meaning(s, sc, list, m);
      forall i | 0 <= i < |list.items|
        ensures b.elems[i].VNull? <==>
                Decision(s, sc, list.items[i], m).VNull? && !Hides(s, sc, list.items[i], m)
      {
        DecisionHasTruth(s, sc, list.items[i], m);
      }
      if MissesPlainly(s, sc, list, m) {
        var i :| 0 <= i < |list.items|
          && Decision(s, sc, list.items[i], m).VNull? && !Hides(s, sc, list.items[i], m);
        assert b.elems[i].VNull?;
      }
    }
  }

  /** What operands and items leave, null or undefined where they are missing, against what they mean. */
  lemma FoundAsMeant(
      s: Schema, sc: Scope, post: bool, x: Expr, list: Expr, t: Ty, m: Moment, v: Val, items: Outcome)
    requires Norm(v) == Decision(s, sc, x, m) && HasType(s, Norm(v), t) && TypeOf(s, sc, x) == t
    requires AgreesAsList(s, items, ListDecision(s, sc, list, m), t)
    requires IsListOf(s, sc, post, list, t) && ItemsLeave(s, sc, list, m, t)
    requires !list.Array? ==> !Among(VNull, Meaning(s, sc, list, m))
    ensures Among(v, items.v) == Among(Meaning(s, sc, x, m), Meaning(s, sc, list, m)) <==>
      if !v.Nullish() then
        !(v == VBool(false) && HidesItem(s, sc, list, m) && !Among(VBool(false), ListDecision(s, sc, list, m)))
      else
        Among(v, items.v) <==> if Hides(s, sc, x, m) then HasFalse(s, sc, list, m) else MissesPlainly(s, sc, list, m)
  {
    AmongMissing(s, items, ListDecision(s, sc, list, m), t, v);
    ListedAsMeant(s, sc, post, list, t, m, if v.Nullish() then VBool(false) else v);
    MissesNull(s, sc, post, list, t, m);
    DecisionHasTruth(s, sc, x, m);
    if !Hides(s, sc, x, m) {
      DecisionIsMeaning(s, sc, x, m, Decision(s, sc, x, m), t);
    }
  }

  /** The same with the left operand as the data has it, and the outcome of the list. */
  lemma SearchFinds(
      s: Schema, sc: Scope, o: Options, e: Expr, x: Expr, list: Expr, n: bool, h: Host, vars: Vars, m: Moment)
    returns (items: Outcome)
    requires IsSearch(e, x, list) && WellTyped(s, sc, o.isPostGuard, e) && Represents(s, sc, o, vars, m)
    requires Settled(s, sc, x, m) && Settled(s, sc, list, m)
    ensures var v, t := Raw(s, sc, x, n, m), TypeOf(s, sc, x);
      && Norm(v) == Decision(s, sc, x, m) && HasType(s, Norm(v), t)
      && (!list.Array? ==> !Among(VNull, Meaning(s, sc, list, m)))
      && AgreesAsList(s, items, ListDecision(s, sc, list, m), t)
      && IsListOf(s, sc, o.isPostGuard, list, t) && ItemsLeave(s, sc, list, m, t)
    ensures var j, code := Transform(s, sc, o, list, false), Transform(s, sc, o, e, n);
      && j.Ok? && items == Eval(h, j.value, vars)
      && code.Ok? && Eval(h, code.value, vars) == Value(VBool(Among(Raw(s, sc, x, n, m), items.v)))
  {
    SearchParts(s, sc, o.isPostGuard, e, x, list);
    SearchOfDecision(s, sc, o, e, x, list, n, h, vars, m);
    RawIsLeft(s, sc, o, x, n, h, vars, m);
    items := Eval(h, Transform(s, sc, o, list, false).value, vars);
  }

  /** A written out item leaves the very value. */
  ghost predicate LeavesItem(s: Schema, sc: Scope, list: Expr, m: Moment, v: Val) {
    list.Array? && exists i | 0 <= i < |list.items| :: Raw(s, sc, list.items[i], false, m) == v
  }

  ghost function RawItems(s: Schema, sc: Scope, items: seq<Expr>, m: Moment): (vs: seq<Val>)
    ensures |vs| == |items| && forall i | 0 <= i < |items| :: vs[i] == Raw(s, sc, items[i], false, m)
  {
    seq(|items|, i requires 0 <= i < |items| => Raw(s, sc, items[i], false, m))
  }

  lemma RawItemsSplit(s: Schema, sc: Scope, items: seq<Expr>, m: Moment)
    requires items != []
    ensures RawItems(s, sc, items, m) == [Raw(s, sc, items[0], false, m)] + RawItems(s, sc, items[1..], m)
  {
  }

  lemma {:induction false} ItemsLeaveRaw(
      s: Schema, sc: Scope, o: Options, items: seq<Expr>, h: Host, vars: Vars, m: Moment)
    requires Represents(s, sc, o, vars, m)
    requires forall i | 0 <= i < |items| :: WellTyped(s, sc, o.isPostGuard, items[i]) && Settled(s, sc, items[i], m)
    ensures var js := TransformAll(s, sc, o, items, false);
      js.Ok? && EvalAll(h, js.value, vars) == Some(RawItems(s, sc, items, m))
  {
    if items == [] {
    } else {
      RawIsLeft(s, sc, o, items[0], false, h, vars, m);
      ItemsLeaveRaw(s, sc, o, items[1..], h, vars, m);
      ItemsEval(s, sc, o, items, false, h, vars);
      RawItemsSplit(s, sc, items, m);
    }
  }

  /** Only a list written out has a missing item. */
  lemma MissingIsFound(
      s: Schema, sc: Scope, o: Options, list: Expr, t: Ty, h: Host, vars: Vars, m: Moment, v: Val)
    requires Represents(s, sc, o, vars, m) && IsListOf(s, sc, o.isPostGuard, list, t) && Settled(s, sc, list, m)
    requires v.Nullish() && (!list.Array? ==> !Among(VNull, Meaning(s, sc, list, m)))
    requires var j := Transform(s, sc, o, list, false);
      j.Ok? && AgreesAsList(s, Eval(h, j.value, vars), ListDecision(s, sc, list, m), t)
    ensures Among(v, Eval(h, Transform(s, sc, o, list, false).value, vars).v) <==> LeavesItem(s, sc, list, m, v)
  {
    if list.Array? {
      ItemsLeaveRaw(s, sc, o, list.items, h, vars, m);
      ArrayEval(s, sc, o, list.items, false, h, vars);
      ItemsHold(RawItems(s, sc, list.items, m), v);
    } else {
      AmongMissing(s, Eval(h, Transform(s, sc, o, list, false).value, vars), Meaning(s, sc, list, m), t, v);
    }
  }

  lemma ItemsHold(vs: seq<Val>, v: Val)
    ensures v in vs <==> exists i | 0 <= i < |vs| :: vs[i] == v
  {
  }

  /**
   * When the code of a search has its meaning. If `x` is there: unless it is false, some item hides its false, and none
   * shows one. If `x` is missing, that is null or undefined: an item is missing in the same way just when the list has
   * what `x` means, which is a plainly missing item, or for a connective that hides its decider a false one.
   */
  lemma SearchIff(
      s: Schema, sc: Scope, o: Options, e: Expr, x: Expr, list: Expr, n: bool, h: Host, vars: Vars, m: Moment)
    requires IsSearch(e, x, list) && WellTyped(s, sc, o.isPostGuard, e) && Represents(s, sc, o, vars, m)
    requires Settled(s, sc, x, m) && Settled(s, sc, list, m)
    ensures var code, v := Transform(s, sc, o, e, n), Raw(s, sc, x, n, m);
      && code.Ok?
      && (Eval(h, code.value, vars) == Value(Meaning(s, sc, e, m)) <==>
          if !v.Nullish() then
            !(v == VBool(false) && HidesItem(s, sc, list, m) && !Among(VBool(false), ListDecision(s, sc, list, m)))
          else
            LeavesItem(s, sc, list, m, v) <==>
            if Hides(s, sc, x, m) then HasFalse(s, sc, list, m) else MissesPlainly(s, sc, list, m))
  {
    var v := Raw(s, sc, x, n, m);
    var items := SearchFinds(s, sc, o, e, x, list, n, h, vars, m);
    SearchFormMeans(s, sc, e, x, list, m);
    FoundAsMeant(s, sc, o.isPostGuard, x, list, TypeOf(s, sc, x), m, v, items);
    if v.Nullish() {
      MissingIsFound(s, sc, o, list, TypeOf(s, sc, x), h, vars, m, v);
    }
  }

  /**
   * Where no listed item hides anything, in two cases: nothing is missing from the list, or `x` hides nothing either.
   */
  lemma OpenSearchIff(
      s: Schema, sc: Scope, o: Options, e: Expr, x: Expr, list: Expr, n: bool, h: Host, vars: Vars, m: Moment)
    requires IsSearch(e, x, list) && WellTyped(s, sc, o.isPostGuard, e) && Represents(s, sc, o, vars, m)
    requires Settled(s, sc, x, m) && Settled(s, sc, list, m) && !HidesItem(s, sc, list, m)
    ensures var code, v := Transform(s, sc, o, e, n), Raw(s, sc, x, n, m);
      && code.Ok?
      && var right := Eval(h, code.value, vars) == Value(Meaning(s, sc, e, m));
      && (!Among(VNull, Meaning(s, sc, list, m)) ==>
            (right <==> !(Hides(s, sc, x, m) && Among(VBool(false), Meaning(s, sc, list, m)))))
      && (!Hides(s, sc, x, m) ==>
            (right <==> !v.Nullish() || !Among(VNull, Meaning(s, sc, list, m)) || LeavesItem(s, sc, list, m, v)))
  {
    var v := Raw(s, sc, x, n, m);
    var items := SearchFinds(s, sc, o, e, x, list, n, h, vars, m);
    SearchIff(s, sc, o, e, x, list, n, h, vars, m);
    var t := TypeOf(s, sc, x);
    MissesNull(s, sc, o.isPostGuard, list, t, m);
    ListedAsMeant(s, sc, o.isPostGuard, list, t, m, Decision(s, sc, x, m));
    AmongMissing(s, items, Meaning(s, sc, list, m), t, v);
    if v.Nullish() {
      MissingIsFound(s, sc, o, list, t, h, vars, m, v);
    }
  }

  // ----- collection predicates -----

  lemma {:induction false} PredicateMeaning(
      s: Schema, sc: Scope, o: Options, op: BinOp, l: Expr, r: Expr, n: bool, h: Host, vars: Vars, m: Moment)
    requires IsCollectionPredicate(op)
    requires WellTyped(s, sc, o.isPostGuard, Binary(op, l, r)) && Represents(s, sc, o, vars, m)
    requires Settled(s, sc, Binary(op, l, r), m)
    ensures Faithful(s, sc, o, Binary(op, l, r), n, h, vars, m)
    decreases Binary(op, l, r), 3
  {
    CompiledMeaning(s, sc, o, l, n, h, vars, m);
    var a := Meaning(s, sc, l, m);
    Compiles(s, Inner(s, sc, l), InnerOptions(o), r, n);
    var body := Transform(s, Inner(s, sc, l), InnerOptions(o), r, n).value;
    var results := if a.VArr? then ElementResults(s, Inner(s, sc, l), r, a.elems, m) else [];
    if a.VArr? {
      ElementsMeaning(s, sc, o, l, r, a.elems, n, h, vars, m);
    }
    QuantifierStep(s, h, vars, op, Transform(s, sc, o, l, n).value, a, TypeOf(s, sc, l), body, results);
    PredicateCompilesTo(s, sc, o, op, l, r, n);
    PredicateMeans(s, sc, op, l, r, m);
  }

  ghost function ElementResults(s: Schema, inner: Scope, r: Expr, elems: seq<Val>, m: Moment): seq<Val> {
    seq(|elems|, i requires 0 <= i < |elems| => Meaning(s, inner, r, m.(subject := elems[i])))
  }

  lemma PredicateCompilesTo(s: Schema, sc: Scope, o: Options, op: BinOp, l: Expr, r: Expr, n: bool)
    requires IsCollectionPredicate(op) && o.context.AccessPolicy? && Transform(s, sc, o, l, n).Ok?
    requires Transform(s, Inner(s, sc, l), InnerOptions(o), r, n).Ok?
    ensures Transform(s, sc, o, Binary(op, l, r), n)
         == Ok(PredicateCode(op, Transform(s, sc, o, l, n).value,
                             Transform(s, Inner(s, sc, l), InnerOptions(o), r, n).value))
  {
  }

  lemma PredicateMeans(s: Schema, sc: Scope, op: BinOp, l: Expr, r: Expr, m: Moment)
    requires IsCollectionPredicate(op)
    ensures var a := Meaning(s, sc, l, m);
      Meaning(s, sc, Binary(op, l, r), m)
      == VBool(if a.VArr? then Quantify(op, ElementResults(s, Inner(s, sc, l), r, a.elems, m)) else op.OpNone?)
  {
    var a := Meaning(s, sc, l, m);
    if a.VArr? {
      assert ElementResults(s, Inner(s, sc, l), r, a.elems, m)
          == seq(|a.elems|, i requires 0 <= i < |a.elems| => Meaning(s, Inner(s, sc, l), r, m.(subject := a.elems[i])));
    }
  }

  /** At each element the body's code has the truth of what it means there. */
  lemma {:induction false} ElementsMeaning(
      s: Schema, sc: Scope, o: Options, l: Expr, r: Expr, elems: seq<Val>, n: bool, h: Host, vars: Vars, m: Moment)
    requires WellTyped(s, Inner(s, sc, l), false, r) && Represents(s, sc, o, vars, m)
    requires forall x | x in elems ::
      HasType(s, x, ModelT(Inner(s, sc, l).cur)) && Settled(s, Inner(s, sc, l), r, m.(subject := x))
    requires Transform(s, Inner(s, sc, l), InnerOptions(o), r, n).Ok?
    ensures var body := Transform(s, Inner(s, sc, l), InnerOptions(o), r, n).value;
      var results := ElementResults(s, Inner(s, sc, l), r, elems, m);
      forall i | 0 <= i < |elems| :: BodyYields(h, body, vars[Item := elems[i]], results[i].Truthy())
    decreases r, 5
  {
    var inner, io := Inner(s, sc, l), InnerOptions(o);
    forall i | 0 <= i < |elems|
      ensures BodyYields(h, Transform(s, inner, io, r, n).value, vars[Item := elems[i]],
                         ElementResults(s, inner, r, elems, m)[i].Truthy())
    {
      assert elems[i] in elems;
      ElementRepresents(s, sc, o, vars, m, inner, elems[i]);
      CompiledMeaning(s, inner, io, r, n, h, vars[Item := elems[i]], m.(subject := elems[i]));
    }
  }

  lemma ElementRepresents(s: Schema, sc: Scope, o: Options, vars: Vars, m: Moment, inner: Scope, x: Val)
    requires Represents(s, sc, o, vars, m) && HasType(s, x, ModelT(inner.cur)) && inner.root == sc.root
    ensures Represents(s, inner, InnerOptions(o), vars[Item := x], m.(subject := x))
  {
  }

  // ----- rules that are settled on all data -----

  /**
   * No operand of a comparison or search is a connective, none of an equality is a list or a date or the like, numbers
   * are not related, and lists written out hold constants only. Records are compared only if `records` says so, with
   * `this` or by their only id field `id`.
   */
  predicate Plain(s: Schema, sc: Scope, e: Expr, records: bool)
    decreases e
  {
    match e
    case Member(x, _) => IsFuture(x) || Plain(s, sc, x, records)
    case Not(x) => Plain(s, sc, x, records)
    case Array(items) => forall i | 0 <= i < |items| :: Constant(s, sc, items[i])
    case Invoke(_, args) =>
      |args| == 2 ==> Plain(s, sc, args[0], records) && Plain(s, sc, args[1], records) && !Connective(args[1])
    case Binary(op, l, r) =>
      Plain(s, sc, l, records) &&
      if IsCollectionPredicate(op) then Plain(s, Inner(s, sc, l), r, records)
      else
        Plain(s, sc, r, records) &&
        (op.OpAnd? || op.OpOr?
         || (!Connective(l) && !Connective(r)
             && (op.OpIn? || (!IsRelation(op) && ComparesPlainly(s, sc, l, r, records)))))
    case _ => true
  }

  predicate ComparesPlainly(s: Schema, sc: Scope, l: Expr, r: Expr, records: bool) {
    var t, u := TypeOf(s, sc, l), TypeOf(s, sc, r);
    if AreModels(t, u) then records && (l.This? || r.This? || ComparedById(s, t.model))
    else if l.This? || r.This? then l.Null? || r.Null?
    else !AreLists(t, u) && !AreObjects(t, u)
  }

  // ----- the ids of compared records -----

  predicate RecordHasIds(ids: seq<string>, v: Val) {
    v.VObj? ==> forall f | f in ids :: !Read(v, f).VNull?
  }

  /** The records that evaluation comes to compare have their ids; all others may be without. */
  ghost predicate ComparedHaveIds(s: Schema, sc: Scope, e: Expr, m: Moment)
    decreases e
  {
    match e
    case Member(x, _) => IsFuture(x) || ComparedHaveIds(s, sc, x, m)
    case Not(x) => ComparedHaveIds(s, sc, x, m)
    case Invoke(_, args) =>
      |args| == 2 ==> ComparedHaveIds(s, sc, args[0], m) && ComparedHaveIds(s, sc, args[1], m)
    case Binary(op, l, r) =>
      ComparedHaveIds(s, sc, l, m) &&
      if IsCollectionPredicate(op) then
        var a := Meaning(s, sc, l, m);
        a.VArr? ==> forall x | x in a.elems :: ComparedHaveIds(s, Inner(s, sc, l), r, m.(subject := x))
      else if op.OpAnd? || op.OpOr? then
        Meaning(s, sc, l, m).Truthy() == op.OpAnd? ==> ComparedHaveIds(s, sc, r, m)
      else
        ComparedHaveIds(s, sc, r, m) && SidesHaveIds(s, sc, l, r, m)
    case _ => true
  }

  ghost predicate SidesHaveIds(s: Schema, sc: Scope, l: Expr, r: Expr, m: Moment) {
    var t, u := TypeOf(s, sc, l), TypeOf(s, sc, r);
    AreModels(t, u) ==>
      RecordHasIds(Ids(s, t.model), Meaning(s, sc, l, m)) && RecordHasIds(Ids(s, u.model), Meaning(s, sc, r, m))
  }

  lemma RecordsWithIdsCompareRight(s: Schema, sc: Scope, l: Expr, r: Expr, m: Moment)
    requires SidesHaveIds(s, sc, l, r, m)
    requires AreModels(TypeOf(s, sc, l), TypeOf(s, sc, r)) && TypeOf(s, sc, l) == TypeOf(s, sc, r)
    requires if l.This? || r.This? then TypeOf(s, sc, l) == ModelT(sc.root) else ComparedById(s, TypeOf(s, sc, l).model)
    ensures ComparesRight(s, sc, l, r, m)
  {
    var ids := Ids(s, TypeOf(s, sc, l).model);
    if !l.This? && !r.This? {
      assert ids[0] in ids;
    }
  }

  // ----- plain rules -----

  /** Plain rules that compare no records are settled on all data. */
  lemma PlainIsSettled(s: Schema, sc: Scope, e: Expr, m: Moment)
    requires Plain(s, sc, e, false)
    ensures Settled(s, sc, e, m)
  {
    PlainSettles(s, sc, false, e, m, false);
  }

  /** Plain rules that compare records are settled on all data in which the compared ones have their ids. */
  lemma PlainIsSettledWithIds(s: Schema, sc: Scope, post: bool, e: Expr, m: Moment)
    requires Plain(s, sc, e, true) && WellTyped(s, sc, post, e) && ComparedHaveIds(s, sc, e, m)
    ensures Settled(s, sc, e, m)
  {
    PlainSettles(s, sc, post, e, m, true);
  }

  lemma {:induction false} PlainSettles(s: Schema, sc: Scope, post: bool, e: Expr, m: Moment, records: bool)
    requires Plain(s, sc, e, records)
    requires records ==> ComparedHaveIds(s, sc, e, m) && (e.Array? || WellTyped(s, sc, post, e))
    ensures Settled(s, sc, e, m)
    decreases e, 1
  {
    match e {
      case Member(x, _) => if !IsFuture(x) { PlainSettles(s, sc, post, x, m, records); }
      case Not(x) => PlainSettles(s, sc, post, x, m, records);
      case Invoke(name, args) =>
        if |args| == 2 {
          PlainSettles(s, sc, post, args[0], m, records);
          PlainSettles(s, sc, post, args[1], m, records);
          PlainSearchesRight(s, sc, args[1], args[0], m, records);
        }
      case Binary(op, l, r) =>
        PlainSettles(s, sc, post, l, m, records);
        if IsCollectionPredicate(op) {
          PlainElementsSettle(s, sc, l, r, m, records);
        } else if !(op.OpAnd? || op.OpOr?) {
          PlainSettles(s, sc, post, r, m, records);
          PlainOperandsSettle(s, sc, post, op, l, r, m, records);
        } else if Meaning(s, sc, l, m).Truthy() == op.OpAnd? {
          PlainSettles(s, sc, post, r, m, records);
        }
      case _ =>
    }
  }

  lemma {:induction false} PlainElementsSettle(s: Schema, sc: Scope, l: Expr, r: Expr, m: Moment, records: bool)
    requires var a, inner := Meaning(s, sc, l, m), Inner(s, sc, l);
      Plain(s, inner, r, records)
      && (records && a.VArr? ==>
            WellTyped(s, inner, false, r) && forall x | x in a.elems :: ComparedHaveIds(s, inner, r, m.(subject := x)))
    ensures var a := Meaning(s, sc, l, m);
      a.VArr? ==> forall x | x in a.elems :: Settled(s, Inner(s, sc, l), r, m.(subject := x))
    decreases r, 2
  {
    var a := Meaning(s, sc, l, m);
    if a.VArr? {
      forall x | x in a.elems ensures Settled(s, Inner(s, sc, l), r, m.(subject := x)) {
        PlainSettles(s, Inner(s, sc, l), false, r, m.(subject := x), records);
      }
    }
  }

  lemma {:induction false} PlainOperandsSettle(
      s: Schema, sc: Scope, post: bool, op: BinOp, l: Expr, r: Expr, m: Moment, records: bool)
    requires !IsCollectionPredicate(op) && !op.OpAnd? && !op.OpOr? && Plain(s, sc, Binary(op, l, r), records)
    requires records ==> SidesHaveIds(s, sc, l, r, m) && WellTyped(s, sc, post, Binary(op, l, r))
    requires Settled(s, sc, l, m) && Settled(s, sc, r, m)
    ensures Settled(s, sc, Binary(op, l, r), m)
  {
    if op.OpIn? {
      PlainSearchesRight(s, sc, l, r, m, records);
    } else if (op.OpEq? || op.OpNe?) && AreModels(TypeOf(s, sc, l), TypeOf(s, sc, r)) {
      EqualityParts(s, sc, post, op, l, r);
      RecordsWithIdsCompareRight(s, sc, l, r, m);
    }
  }

  lemma PlainSearchesRight(s: Schema, sc: Scope, x: Expr, list: Expr, m: Moment, records: bool)
    requires Plain(s, sc, list, records) && !Connective(x)
    ensures SearchesRight(s, sc, x, list, m)
  {
    if list.Array? {
      forall i | 0 <= i < |list.items|
        ensures !Meaning(s, sc, list.items[i], m).VNull? && !Hides(s, sc, list.items[i], m)
      {
        assert Constant(s, sc, list.items[i]);
      }
    }
  }

  /** An entity checker's `if (rule)` takes the branch exactly when the rule holds, before or after an update. */
  lemma PolicyDecides(s: Schema, model: string, post: bool, rule: Expr, h: Host, vars: Vars, m: Moment)
    requires var sc := Scope(model, model);
      WellTyped(s, sc, post, rule) && Represents(s, sc, PolicyOptions(post), vars, m) && Settled(s, sc, rule, m)
    ensures var sc := Scope(model, model);
      var code := Transform(s, sc, PolicyOptions(post), rule, false);
      && code.Ok?
      && Eval(h, code.value, vars).Value?
      && Eval(h, code.value, vars).v.Truthy() == Meaning(s, sc, rule, m).Truthy()
  {
    CompiledMeaning(s, Scope(model, model), PolicyOptions(post), rule, false, h, vars, m);
  }

  // ----- lists of fields -----

  function Refs(fs: seq<string>): (refs: seq<Expr>)
    ensures |refs| == |fs| && forall i | 0 <= i < |fs| :: refs[i] == Ref(fs[i], [])
  {
    seq(|fs|, i requires 0 <= i < |fs| => Ref(fs[i], []))
  }

  /** `f in [g1, g2, ...]` in a rule of a record, not after an update. */
  function FieldInFields(f: string, fs: seq<string>): Expr {
    Binary(OpIn, Ref(f, []), Array(Refs(fs)))
  }

  function Props(record: Val, fs: seq<string>): (vs: seq<Val>)
    ensures |vs| == |fs| && forall i | 0 <= i < |fs| :: vs[i] == Prop(record, fs[i])
  {
    seq(|fs|, i requires 0 <= i < |fs| => Prop(record, fs[i]))
  }

  lemma FieldsEval(s: Schema, model: string, fs: seq<string>, h: Host, vars: Vars, record: Val)
    requires forall f | f in fs :: IsField(s, model, f)
    requires Input in vars && vars[Input] == record
    ensures var js := TransformAll(s, Scope(model, model), PolicyOptions(false), Refs(fs), false);
      && js.Ok?
      && EvalAll(h, js.value, vars) == Some(Props(record, fs))
  {
    if fs == [] {
      assert Refs(fs) == [] && Props(record, fs) == [];
    } else {
      assert fs[0] in fs && Refs(fs)[1..] == Refs(fs[1..]);
      FieldsEval(s, model, fs[1..], h, vars, record);
      var sc, o := Scope(model, model), PolicyOptions(false);
      assert Transform(s, sc, o, Refs(fs)[0], false) == Ok(JOptField(JVar(Input), fs[0]));
      ItemsEval(s, sc, o, Refs(fs), false, h, vars);
      assert [Prop(record, fs[0])] + Props(record, fs[1..]) == Props(record, fs);
    }
  }

  /**
   * A field searched for among fields is compiled to its meaning if and only if it is there, or they all are, or one of
   * them is missing the way it is: both null, or both left out.
   */
  lemma FieldInFieldsIff(s: Schema, model: string, f: string, fs: seq<string>, h: Host, vars: Vars, m: Moment)
    requires var sc := Scope(model, model);
      WellTyped(s, sc, false, FieldInFields(f, fs)) && Represents(s, sc, PolicyOptions(false), vars, m)
    requires forall g | g in [f] + fs :: IsField(s, model, g)
    ensures var code := Transform(s, Scope(model, model), PolicyOptions(false), FieldInFields(f, fs), false);
      && code.Ok?
      && (Eval(h, code.value, vars) == Value(Meaning(s, Scope(model, model), FieldInFields(f, fs), m)) <==>
            || !Prop(m.entity, f).Nullish()
            || (forall g | g in fs :: !Prop(m.entity, g).Nullish())
            || exists g | g in fs :: Prop(m.entity, g) == Prop(m.entity, f))
  {
    var sc, o, list := Scope(model, model), PolicyOptions(false), Array(Refs(fs));
    assert f in [f] + fs;
    forall g | g in fs ensures IsField(s, model, g) {
      assert g in [f] + fs;
    }
    FieldsAreSettled(s, sc, f, fs, m);
    OpenSearchIff(s, sc, o, FieldInFields(f, fs), Ref(f, []), list, false, h, vars, m);
    FieldsLeave(s, sc, fs, m, Prop(m.entity, f));
    NullAmongFields(s, sc, fs, m);
  }

  lemma FieldsAreSettled(s: Schema, sc: Scope, f: string, fs: seq<string>, m: Moment)
    ensures Settled(s, sc, Ref(f, []), m) && Settled(s, sc, Array(Refs(fs)), m)
    ensures !Hides(s, sc, Ref(f, []), m) && !HidesItem(s, sc, Array(Refs(fs)), m)
  {
  }

  lemma FieldsLeave(s: Schema, sc: Scope, fs: seq<string>, m: Moment, v: Val)
    requires forall g | g in fs :: IsField(s, sc.cur, g)
    ensures LeavesItem(s, sc, Array(Refs(fs)), m, v) <==> exists g | g in fs :: Prop(m.subject, g) == v
  {
    forall i | 0 <= i < |fs| ensures Raw(s, sc, Refs(fs)[i], false, m) == Prop(m.subject, fs[i]) {
      assert fs[i] in fs;
    }
    if g :| g in fs && Prop(m.subject, g) == v {
      var i :| 0 <= i < |fs| && fs[i] == g;
      assert Raw(s, sc, Refs(fs)[i], false, m) == v;
    }
  }

  lemma NullAmongFields(s: Schema, sc: Scope, fs: seq<string>, m: Moment)
    requires (forall g | g in fs :: IsField(s, sc.cur, g)) && m.subject.VObj?
    ensures !Among(VNull, Meaning(s, sc, Array(Refs(fs)), m)) <==> forall g | g in fs :: !Prop(m.subject, g).Nullish()
  {
    var elems := Meaning(s, sc, Array(Refs(fs)), m).elems;
    forall i | 0 <= i < |fs| ensures elems[i] == Norm(Prop(m.subject, fs[i])) {
      assert fs[i] in fs && Refs(fs)[i] == Ref(fs[i], []);
      assert elems[i] == Meaning(s, sc, Refs(fs)[i], m);
      assert Meaning(s, sc, Ref(fs[i], []), m) == Read(m.subject, fs[i]);
    }
    if g :| g in fs && Prop(m.subject, g).Nullish() {
      var i :| 0 <= i < |fs| && fs[i] == g;
      assert elems[i] == VNull;
    }
  }

  /**
   * An input: with `f` null and `g` left out, `f in [g]` means that a missing value is listed, but its code denies it.
   */
  lemma FieldInFieldsDiffers(s: Schema, h: Host, model: string, f: string, g: string, user: Val, id: nat)
    requires IsField(s, model, f) && IsField(s, model, g) && f != g
    ensures var sc, record := Scope(model, model), VObj(id, map[f := VNull]);
      var code := Transform(s, sc, PolicyOptions(false), FieldInFields(f, [g]), false);
      && code.Ok?
      && Eval(h, code.value, map[Input := record]) == Value(VBool(false))
      && Meaning(s, sc, FieldInFields(f, [g]), Moment(user, record, record)) == VBool(true)
  {
    var sc, o, record := Scope(model, model), PolicyOptions(false), VObj(id, map[f := VNull]);
    var vars := map[Input := record];
    FieldsEval(s, model, [g], h, vars, record);
    ArrayEval(s, sc, o, Refs([g]), false, h, vars);
    InCompilesTo(s, sc, o, Ref(f, []), Array(Refs([g])), false);
    var x, y := JOptField(JVar(Input), f), Transform(s, sc, o, Array(Refs([g])), false).value;
    assert Transform(s, sc, o, Ref(f, []), false) == Ok(x);
    assert Eval(h, x, vars) == Value(VNull);
    assert Props(record, [g]) == [Undef];
    SearchEval(h, vars, Includes, y, x);
    OrFalse(h, vars, JSearch(Includes, y, x));
    var m := Moment(user, record, record);
    assert Meaning(s, sc, Ref(f, []), m) == VNull && Meaning(s, sc, Refs([g])[0], m) == VNull;
    assert Meaning(s, sc, Array(Refs([g])), m).elems[0] == VNull;
  }

  // ----- comparing lists -----

  /**
   * A list written out equals nothing: its comparison has its meaning if and only if the other list is not the same.
   */
  lemma WrittenListIff(
      s: Schema, sc: Scope, o: Options, op: BinOp, l: Expr, r: Expr, n: bool, h: Host, vars: Vars, m: Moment)
    requires (op.OpEq? || op.OpNe?) && AreLists(TypeOf(s, sc, l), TypeOf(s, sc, r)) && (l.Array? || r.Array?)
    requires ModelOf(s, sc, l, r).None?
    requires WellTyped(s, sc, o.isPostGuard, Binary(op, l, r)) && Represents(s, sc, o, vars, m)
    requires Settled(s, sc, l, m) && Settled(s, sc, r, m)
    ensures var j := Transform(s, sc, o, Binary(op, l, r), n);
      && j.Ok?
      && Eval(h, j.value, vars) == Value(VBool(op.OpNe?))
      && (Eval(h, j.value, vars) == Value(Meaning(s, sc, Binary(op, l, r), m)) <==>
          !SameValue(None, Meaning(s, sc, l, m), Meaning(s, sc, r, m)))
  {
    ListEqualityIff(s, sc, o, op, l, r, n, h, vars, m);
  }

  /** An input: two dates with the same content are equal, but as two objects they are not to the code. */
  lemma DateFieldsDiffer(
      s: Schema, h: Host, model: string, f: string, g: string, date: map<string, Val>, user: Val, id: nat)
    requires IsField(s, model, f) && IsField(s, model, g) && f != g
    requires AreObjects(FieldType(s, model, f), FieldType(s, model, g))
    ensures var sc, record := Scope(model, model), VObj(id, map[f := VObj(1, date), g := VObj(2, date)]);
      var rule := Binary(OpEq, Ref(f, []), Ref(g, []));
      var code := Transform(s, sc, PolicyOptions(false), rule, false);
      && code.Ok?
      && Eval(h, code.value, map[Input := record]) == Value(VBool(false))
      && Meaning(s, sc, rule, Moment(user, record, record)) == VBool(true)
  {
    var sc, o := Scope(model, model), PolicyOptions(false);
    var record := VObj(id, map[f := VObj(1, date), g := VObj(2, date)]);
    var vars, m := map[Input := record], Moment(user, record, record);
    var x, y := JOptField(JVar(Input), f), JOptField(JVar(Input), g);
    assert Transform(s, sc, o, Ref(f, []), false) == Ok(x) && Transform(s, sc, o, Ref(g, []), false) == Ok(y);
    EqualityCompilesTo(s, sc, o, OpEq, Ref(f, []), Ref(g, []), false);
    assert Eval(h, x, vars) == Value(VObj(1, date)) && Eval(h, y, vars) == Value(VObj(2, date));
    EqualityEval(h, vars, x, y);
    assert Meaning(s, sc, Ref(f, []), m) == VObj(1, date) && Meaning(s, sc, Ref(g, []), m) == VObj(2, date);
    EqualityMeans(s, sc, OpEq, Ref(f, []), Ref(g, []), m);
  }

  /** An input: two fields with the same items are equal, but as two arrays they are not to the code. */
  lemma ListFieldsDiffer(s: Schema, h: Host, model: string, f: string, g: string, items: seq<Val>, user: Val, id: nat)
    requires IsField(s, model, f) && IsField(s, model, g) && f != g
    requires AreLists(FieldType(s, model, f), FieldType(s, model, g))
    requires Scalar(FieldType(s, model, f).of) && Scalar(FieldType(s, model, g).of)
    ensures var sc, record := Scope(model, model), VObj(id, map[f := VArr(1, items), g := VArr(2, items)]);
      var rule := Binary(OpEq, Ref(f, []), Ref(g, []));
      var code := Transform(s, sc, PolicyOptions(false), rule, false);
      && code.Ok?
      && Eval(h, code.value, map[Input := record]) == Value(VBool(false))
      && Meaning(s, sc, rule, Moment(user, record, record)) == VBool(true)
  {
    var sc, o := Scope(model, model), PolicyOptions(false);
    var record := VObj(id, map[f := VArr(1, items), g := VArr(2, items)]);
    var vars, m := map[Input := record], Moment(user, record, record);
    var x, y := JOptField(JVar(Input), f), JOptField(JVar(Input), g);
    assert Transform(s, sc, o, Ref(f, []), false) == Ok(x) && Transform(s, sc, o, Ref(g, []), false) == Ok(y);
    EqualityCompilesTo(s, sc, o, OpEq, Ref(f, []), Ref(g, []), false);
    assert Eval(h, x, vars) == Value(VArr(1, items)) && Eval(h, y, vars) == Value(VArr(2, items));
    EqualityEval(h, vars, x, y);
    assert Meaning(s, sc, Ref(f, []), m) == VArr(1, items) && Meaning(s, sc, Ref(g, []), m) == VArr(2, items);
    EqualityMeans(s, sc, OpEq, Ref(f, []), Ref(g, []), m);
  }

  lemma ThisIsUserCompilesTo(s: Schema, model: string)
    requires Ids(s, model) != []
    ensures Transform(s, Scope(model, model), PolicyOptions(false), Binary(OpEq, This, Invoke("auth", [])), false)
         == Ok(JSameIds(JVar(Input), JVar(User), Ids(s, model)))
  {
    var sc, o, r := Scope(model, model), PolicyOptions(false), Invoke("auth", []);
    assert Transform(s, sc, o, This, false) == Ok(JVar(Input)) && Transform(s, sc, o, r, false) == Ok(JVar(User));
    ThisCompilesTo(s, sc, o, OpEq, This, r, false);
  }

  lemma ThisIsUserEval(h: Host, vars: Vars, ids: seq<string>)
    requires Input in vars && User in vars
    ensures Eval(h, JSameIds(JVar(Input), JVar(User), ids), vars)
         == Value(VBool(SameIds(vars[Input], vars[User], ids)))
  {
  }

  lemma NullIdsDiffer(ids: seq<string>, a: Val, b: Val)
    requires ids != [] && a.VObj? && b.VObj?
    requires forall f | f in ids :: Prop(a, f) == Undef && Prop(b, f) == VNull
    ensures !SameIds(a, b, ids) && SameValue(Some(ids), a, b)
  {
    assert ids[0] in ids;
  }

  lemma ThisIsUserMeans(s: Schema, model: string, m: Moment)
    requires s.auth == model
    ensures Meaning(s, Scope(model, model), Binary(OpEq, This, Invoke("auth", [])), m)
         == VBool(SameValue(Some(Ids(s, model)), m.entity, Norm(m.user)))
  {
    var sc, r := Scope(model, model), Invoke("auth", []);
    assert Meaning(s, sc, This, m) == m.entity && Meaning(s, sc, r, m) == Norm(m.user);
    EqualityMeans(s, sc, OpEq, This, r, m);
  }

  /** An input: an entity without its ids and a user whose ids are null have the same ids, but not to the code. */
  lemma ThisEqualityDiffers(s: Schema, h: Host, model: string, id: nat)
    requires Ids(s, model) != [] && s.auth == model
    ensures var sc, record := Scope(model, model), VObj(id, map[]);
      var user := VObj(id, map f | f in Ids(s, model) :: VNull);
      var rule := Binary(OpEq, This, Invoke("auth", []));
      var code := Transform(s, sc, PolicyOptions(false), rule, false);
      && code.Ok?
      && Eval(h, code.value, map[Input := record, User := user]) == Value(VBool(false))
      && Meaning(s, sc, rule, Moment(user, record, record)) == VBool(true)
  {
    var ids, record := Ids(s, model), VObj(id, map[]);
    var user := VObj(id, map f | f in ids :: VNull);
    ThisIsUserCompilesTo(s, model);
    ThisIsUserEval(h, map[Input := record, User := user], ids);
    ThisIsUserMeans(s, model, Moment(user, record, record));
    NullIdsDiffer(ids, record, user);
  }

  /** An input: a number that is null is not less than one, but to the code it is if the host takes null for zero. */
  lemma MissingNumberDiffers(s: Schema, h: Host, model: string, f: string, g: string, user: Val, id: nat)
    requires IsField(s, model, f) && IsField(s, model, g) && f != g && FieldType(s, model, f).NumT?
    requires h.relate(OpLt, VNull, VNum(1))
    ensures var sc, record := Scope(model, model), VObj(id, map[f := VNull, g := VNum(1)]);
      var rule := Binary(OpLt, Ref(f, []), Ref(g, []));
      var code := Transform(s, sc, PolicyOptions(false), rule, false);
      && code.Ok?
      && Eval(h, code.value, map[Input := record]) == Value(VBool(true))
      && Meaning(s, sc, rule, Moment(user, record, record)) == VBool(false)
  {
    var sc, o, record := Scope(model, model), PolicyOptions(false), VObj(id, map[f := VNull, g := VNum(1)]);
    var vars, m := map[Input := record], Moment(user, record, record);
    var x, y := JOptField(JVar(Input), f), JOptField(JVar(Input), g);
    assert Transform(s, sc, o, Ref(f, []), false) == Ok(x) && Transform(s, sc, o, Ref(g, []), false) == Ok(y);
    RelationCompilesTo(s, sc, o, OpLt, Ref(f, []), Ref(g, []), false);
    assert Eval(h, x, vars) == Value(VNull) && Eval(h, y, vars) == Value(VNum(1));
    RelationEval(h, vars, OpLt, x, y, VNull, VNum(1));
    assert Meaning(s, sc, Ref(f, []), m) == VNull;
    RelationMeans(s, sc, OpLt, Ref(f, []), Ref(g, []), m);
  }

  lemma MemberOfFieldCompilesTo(s: Schema, model: string, p: string, g: string)
    requires IsField(s, model, p)
    ensures Transform(s, Scope(model, model), PolicyOptions(false), Member(Ref(p, []), g), false)
         == Ok(JOptField(JOptField(JVar(Input), p), g))
  {
    assert Transform(s, Scope(model, model), PolicyOptions(false), Ref(p, []), false) == Ok(JOptField(JVar(Input), p));
  }

  lemma MemberOfFieldMeans(s: Schema, model: string, p: string, g: string, m: Moment)
    requires IsField(s, model, p)
    ensures Meaning(s, Scope(model, model), Member(Ref(p, []), g), m) == Read(Read(m.subject, p), g)
  {
    assert Meaning(s, Scope(model, model), Ref(p, []), m) == Read(m.subject, p);
  }

  lemma FieldsOfRecordEval(h: Host, vars: Vars, record: Val, p: string, g: string, f: string)
    requires Input in vars && vars[Input] == record
    ensures Eval(h, JOptField(JOptField(JVar(Input), p), g), vars) == Value(Prop(Prop(record, p), g))
    ensures Eval(h, JOptField(JVar(Input), f), vars) == Value(Prop(record, f))
  {
    assert Eval(h, JOptField(JVar(Input), p), vars) == Value(Prop(record, p));
  }

  lemma ArraysLookEqual(h: Host, vars: Vars, x: JExpr, y: JExpr)
    requires Eval(h, x, vars).Value? && Eval(h, x, vars).v.VArr? && Eval(h, y, vars).Value? && Eval(h, y, vars).v.VArr?
    ensures Eval(h, CompareIds(OpEq, x, y), vars) == Value(VBool(true))
  {
    IdOrNullStep(h, vars, x);
    IdOrNullStep(h, vars, y);
    EqualityEval(h, vars, JCoalesce(JOptField(x, "id"), JConst(VNull)), JCoalesce(JOptField(y, "id"), JConst(VNull)));
  }

  /** An input: `p.g == f` on lists of models is true to the code although one is empty and the other is not. */
  lemma ModelListsLookEqual(
      s: Schema, h: Host, model: string, p: string, g: string, f: string, other: Val, user: Val, id: nat)
    requires IsField(s, model, p) && IsField(s, model, f) && f != p && FieldType(s, model, p).ModelT?
    requires IsField(s, FieldType(s, model, p).model, g)
    requires AreLists(FieldType(s, FieldType(s, model, p).model, g), FieldType(s, model, f))
    requires FieldType(s, FieldType(s, model, p).model, g).of.ModelT? && FieldType(s, model, f).of.ModelT?
    ensures var sc := Scope(model, model);
      var record := VObj(id, map[p := VObj(id, map[g := VArr(1, [])]), f := VArr(2, [other])]);
      var rule := Binary(OpEq, Member(Ref(p, []), g), Ref(f, []));
      var code := Transform(s, sc, PolicyOptions(false), rule, false);
      && code.Ok?
      && Eval(h, code.value, map[Input := record]) == Value(VBool(true))
      && Meaning(s, sc, rule, Moment(user, record, record)) == VBool(false)
  {
    var sc, o := Scope(model, model), PolicyOptions(false);
    var inner := VObj(id, map[g := VArr(1, [])]);
    var record := VObj(id, map[p := inner, f := VArr(2, [other])]);
    var vars, m := map[Input := record], Moment(user, record, record);
    var l, x, y := Member(Ref(p, []), g), JOptField(JOptField(JVar(Input), p), g), JOptField(JVar(Input), f);
    MemberOfFieldCompilesTo(s, model, p, g);
    assert Transform(s, sc, o, Ref(f, []), false) == Ok(y);
    EqualityCompilesTo(s, sc, o, OpEq, l, Ref(f, []), false);
    FieldsOfRecordEval(h, vars, record, p, g, f);
    ArraysLookEqual(h, vars, x, y);
    MemberOfFieldMeans(s, model, p, g, m);
    assert Meaning(s, sc, Ref(f, []), m) == VArr(2, [other]);
    EqualityMeans(s, sc, OpEq, l, Ref(f, []), m);
  }

  // ----- when comparing models is right -----

  /** A record that has its ids. */
  ghost predicate IsRecord(s: Schema, model: string, v: Val) {
    v.VObj? && HasType(s, v, ModelT(model)) && forall f | f in Ids(s, model) :: !Read(v, f).VNull?
  }

  ghost predicate IdComparisonIsRight(s: Schema, h: Host, model: string) {
    forall v, w | IsRecord(s, model, v) && IsRecord(s, model, w) ::
      LooseEqual(h, IdOrNull(v), IdOrNull(w)) == SameRecord(Ids(s, model), v, w)
  }

  function Sample(t: Ty, other: bool): Val {
    if t.BoolT? then VBool(other)
    else if t.NumT? then VNum(if other then 1 else 0)
    else VStr(if other then "x" else "y")
  }

  lemma SampleRecord(s: Schema, model: string, g: string, other: bool) returns (v: Val)
    requires model in s.models
    requires forall f | f in Ids(s, model) :: IsField(s, model, f) && Scalar(FieldType(s, model, f))
    ensures v == VObj(1, map f | f in Ids(s, model) :: Sample(FieldType(s, model, f), other && f == g))
    ensures IsRecord(s, model, v)
  {
    v := VObj(1, map f | f in Ids(s, model) :: Sample(FieldType(s, model, f), other && f == g));
    forall f | f in s.models[model].fields && f in v.props
      ensures HasType(s, v.props[f], s.models[model].fields[f])
    {
      assert FieldType(s, model, f) == s.models[model].fields[f];
    }
  }

  /** The emitted comparison of two records, by a field named `id`, is right if and only if that is the model's id. */
  lemma ModelEqualityIff(s: Schema, h: Host, model: string)
    requires model in s.models && Ids(s, model) != []
    requires forall f | f in Ids(s, model) :: IsField(s, model, f) && Scalar(FieldType(s, model, f))
    ensures IdComparisonIsRight(s, h, model) <==> ComparedById(s, model)
  {
    if ComparedById(s, model) {
      forall v, w | IsRecord(s, model, v) && IsRecord(s, model, w)
        ensures LooseEqual(h, IdOrNull(v), IdOrNull(w)) == SameRecord(Ids(s, model), v, w)
      {
        assert Ids(s, model)[0] in Ids(s, model);
        IdsLookSame(s, h, model, v, w);
        RecordsDecide(s, model, v, w);
      }
    } else {
      var g :| g in Ids(s, model) && g != "id";
      var v := SampleRecord(s, model, g, false);
      var w := SampleRecord(s, model, g, true);
      assert IdOrNull(v) == IdOrNull(w);
      assert Read(v, g) != Read(w, g);
    }
  }

  /** An input: with `a` missing, `(a && a) == false` is true, but its code compares a missing value. */
  lemma ConnectiveAsOperandDiffers(s: Schema, h: Host, a: string, model: string, user: Val, id: nat)
    requires IsField(s, model, a) && FieldType(s, model, a).BoolT?
    ensures var sc, record := Scope(model, model), VObj(id, map[]);
      var rule := Binary(OpEq, Binary(OpAnd, Ref(a, []), Ref(a, [])), Lit(BooleanLiteral(false)));
      var code := Transform(s, sc, PolicyOptions(false), rule, false);
      && code.Ok?
      && Eval(h, code.value, map[Input := record]) == Value(VBool(false))
      && Meaning(s, sc, rule, Moment(user, record, record)) == VBool(true)
  {
    var sc, record, vars := Scope(model, model), VObj(id, map[]), map[Input := VObj(id, map[])];
    var o, x, both := PolicyOptions(false), JOptField(JVar(Input), a), Binary(OpAnd, Ref(a, []), Ref(a, []));
    assert Transform(s, sc, o, Ref(a, []), false) == Ok(x);
    assert Transform(s, sc, o, both, false) == Ok(JOp(OpAnd, x, x));
    var no := Lit(BooleanLiteral(false));
    assert Transform(s, sc, o, no, false) == Ok(JConst(VBool(false)));
    assert TypeOf(s, sc, both).BoolT? && TypeOf(s, sc, no).BoolT?;
    assert Transform(s, sc, o, Binary(OpEq, both, no), false) == Operator(s, sc, o, OpEq, both, no, false);
    assert Operator(s, sc, o, OpEq, both, no, false)
        == Ok(JOp(OpEq, JOp(OpAnd, x, x), JConst(VBool(false))));
    assert Eval(h, x, vars) == Value(Undef);
    assert Eval(h, JOp(OpAnd, x, x), vars) == Value(Undef);
    assert Meaning(s, sc, Ref(a, []), Moment(user, record, record)) == VNull;
  }
}
