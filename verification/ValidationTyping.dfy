/**
 * Compiled validation rules that are well typed never throw on records that follow the schema. There is a step for each
 * construct, and an induction that puts them together.
 */
module ValidationTyping {
  import opened Optional
  import opened ZModelSyntax
  import opened JavaScript
  import opened ExpressionTransformer

  /** A value of a type, any part of which may be missing, ids included. */
  ghost predicate Fits(s: Schema, v: Val, t: Ty)
    decreases v
  {
    v.Nullish() ||
    match t
    case BoolT => v.VBool?
    case NumT => v.VNum?
    case StrT | EnumT(_) => v.VStr?
    case ObjectT(_) => v.VObj?
    case ListT(of) => v.VArr? && forall x | x in v.elems :: Fits(s, x, of)
    case ModelT(m) => v.VObj? && forall f | IsField(s, m, f) && f in v.props :: Fits(s, v.props[f], FieldType(s, m, f))
    case NullT => false
    case UnknownT => true
  }

  /** The global objects that hold the members of each enum. */
  ghost predicate BindsEnums(s: Schema, vars: Vars) {
    forall x | x in s.enums ::
      Global(s.enums[x]) in vars && vars[Global(s.enums[x])].VObj? && Prop(vars[Global(s.enums[x])], x) == VStr(x)
  }

  const SEARCHES := {"contains", "startsWith", "endsWith"}

  /** Names are fields and enum members, and functions and predicates get strings and lists as they are declared to. */
  predicate TypedRule(s: Schema, sc: Scope, e: Expr)
    decreases e
  {
    match e
    case Lit(_) | Null => true
    case Ref(name, _) => IsField(s, sc.cur, name) || name in s.enums
    case Array(items) =>
      forall i | 0 <= i < |items| ::
        TypedRule(s, sc, items[i]) && TypeOf(s, sc, items[i]) == TypeOf(s, sc, items[0])
    case Member(x, name) =>
      var t := TypeOf(s, sc, x);
      !IsFuture(x) && TypedRule(s, sc, x) && t.ModelT? && IsField(s, t.model, name)
    case Not(x) => TypedRule(s, sc, x)
    case Invoke(name, args) =>
      && |args| >= 1
      && TypedRule(s, sc, args[0])
      && (name in TESTS || name == "length" || name == "isEmpty" ||
          (|args| >= 2 && TypedRule(s, sc, args[1])
           && TypedSearch(name, TypeOf(s, sc, args[0]), TypeOf(s, sc, args[1]))))
    case Binary(op, l, r) =>
      var t, u := TypeOf(s, sc, l), TypeOf(s, sc, r);
      TypedRule(s, sc, l) &&
      if IsCollectionPredicate(op) then t.ListT? && t.of.ModelT? && TypedRule(s, Inner(s, sc, l), r)
      else
        TypedRule(s, sc, r) && (op.OpIn? ==> u.ListT?) && (op.OpAnd? || op.OpOr? ==> t.BoolT? && u.BoolT?)
    case _ => false
  }

  predicate TypedSearch(name: string, t: Ty, u: Ty) {
    || (name in SEARCHES && t.StrT? && u.StrT?)
    || (name == "has" && t.ListT?)
    || (name in {"hasEvery", "hasSome"} && t.ListT? && u.ListT?)
  }

  /**
   * The variables of a validation rule, at the top or inside a predicate: a record of the current model, and the enums.
   */
  ghost predicate Holding(s: Schema, sc: Scope, o: Options, vars: Vars) {
    && o.context.ValidationRule? && !o.isPostGuard
    && o.fieldReferenceContext.Some? && o.fieldReferenceContext.value in vars
    && o.fieldReferenceContext.value != Element
    && Fits(s, vars[o.fieldReferenceContext.value], ModelT(sc.cur))
    && BindsEnums(s, vars)
  }

  /** Code that does not throw but yields a value of the type. */
  ghost predicate Yields(s: Schema, h: Host, j: JExpr, vars: Vars, t: Ty) {
    Eval(h, j, vars).Value? && Fits(s, Eval(h, j, vars).v, t)
  }

  /** The same while a list function's callback runs, on the element `v`. */
  ghost predicate YieldsAt(s: Schema, h: Host, j: JExpr, vars: Vars, v: Val, t: Ty) {
    Yields(s, h, j, vars[Element := v], t)
  }

  // ----- one step for each construct -----

  lemma MemberYields(s: Schema, h: Host, x: JExpr, vars: Vars, model: string, f: string, n: bool)
    requires Yields(s, h, x, vars, ModelT(model)) && IsField(s, model, f)
    ensures Yields(s, h, if n then JCoalesce(JOptField(x, f), JConst(VNull)) else JOptField(x, f), vars,
                   FieldType(s, model, f))
  {
    assert Eval(h, JOptField(x, f), vars) == Value(Prop(Eval(h, x, vars).v, f));
  }

  lemma NotYields(s: Schema, h: Host, x: JExpr, vars: Vars)
    requires Eval(h, x, vars).Value?
    ensures Yields(s, h, JNot(x), vars, BoolT)
  {
  }

  lemma DefinedYields(s: Schema, h: Host, p: JExpr, yes: JExpr, vars: Vars)
    requires Eval(h, p, vars).Value? && Yields(s, h, yes, vars, BoolT)
    ensures Yields(s, h, JDefined(p, yes, TRUE), vars, BoolT)
  {
  }

  lemma OrTrueYields(s: Schema, h: Host, x: JExpr, vars: Vars)
    requires Yields(s, h, x, vars, BoolT)
    ensures Yields(s, h, JCoalesce(x, TRUE), vars, BoolT)
  {
  }

  lemma IdYields(s: Schema, h: Host, x: JExpr, vars: Vars)
    requires Eval(h, x, vars).Value?
    ensures Eval(h, JCoalesce(JOptField(x, "id"), JConst(VNull)), vars).Value?
  {
    assert Eval(h, JOptField(x, "id"), vars).Value?;
  }

  lemma OperationYields(s: Schema, h: Host, op: BinOp, x: JExpr, y: JExpr, vars: Vars)
    requires Eval(h, x, vars).Value? && Eval(h, y, vars).Value?
    requires op.OpAnd? || op.OpOr? ==> Yields(s, h, x, vars, BoolT) && Yields(s, h, y, vars, BoolT)
    ensures Yields(s, h, JOp(op, x, y), vars, BoolT)
  {
  }

  lemma NullComparisonYields(s: Schema, h: Host, op: BinOp, x: JExpr, vars: Vars)
    requires Eval(h, x, vars).Value?
    ensures Yields(s, h, NullComparison(op, x), vars, BoolT)
  {
    var a, b := JIs(x, op.OpEq?, VNull), JIs(x, op.OpEq?, UNDEFINED);
    assert Yields(s, h, a, vars, BoolT) && Yields(s, h, b, vars, BoolT);
    OperationYields(s, h, if op.OpEq? then OpOr else OpAnd, a, b, vars);
  }

  /** The two sides of an operator as they are compared: models through their `id`. */
  function Side(models: bool, x: JExpr): JExpr {
    if models then JCoalesce(JOptField(x, "id"), JConst(VNull)) else x
  }

  predicate IsNullTest(s: Schema, sc: Scope, op: BinOp, field: Expr, other: Expr) {
    (op.OpEq? || op.OpNe?) && IsFieldReference(s, sc, field) && other.Null?
  }

  predicate BothModels(s: Schema, sc: Scope, l: Expr, r: Expr) {
    IsModelType(TypeOf(s, sc, l)) && IsModelType(TypeOf(s, sc, r))
  }

  lemma OperatorCompilesTo(s: Schema, sc: Scope, o: Options, op: BinOp, l: Expr, r: Expr, n: bool)
    requires o.context.ValidationRule? && Transform(s, sc, o, l, n).Ok? && Transform(s, sc, o, r, n).Ok?
    ensures var x, y := Transform(s, sc, o, l, n).value, Transform(s, sc, o, r, n).value;
      var m := BothModels(s, sc, l, r);
      Operator(s, sc, o, op, l, r, n)
      == Ok(if IsNullTest(s, sc, op, l, r) then NullComparison(op, x)
            else if IsNullTest(s, sc, op, r, l) then NullComparison(op, y)
            else GuardedOperator(IsFieldReference(s, sc, l), IsFieldReference(s, sc, r), op, Side(m, x), Side(m, y)))
  {
  }

  /** `p !== undefined ? code : true`, where that is asked for. */
  function Guard(guarded: bool, p: JExpr, code: JExpr): JExpr {
    if guarded then JDefined(p, code, TRUE) else code
  }

  /** An operator that is true if an operand that is a field is left out. */
  function GuardedOperator(gx: bool, gy: bool, op: BinOp, x: JExpr, y: JExpr): JExpr {
    Guard(gy, y, Guard(gx, x, JOp(op, x, y)))
  }

  lemma GuardedOperatorYields(s: Schema, h: Host, gx: bool, gy: bool, op: BinOp, x: JExpr, y: JExpr, vars: Vars)
    requires Eval(h, x, vars).Value? && Eval(h, y, vars).Value?
    requires op.OpAnd? || op.OpOr? ==> Yields(s, h, x, vars, BoolT) && Yields(s, h, y, vars, BoolT)
    ensures Yields(s, h, GuardedOperator(gx, gy, op, x, y), vars, BoolT)
  {
    OperationYields(s, h, op, x, y, vars);
    DefinedYields(s, h, x, JOp(op, x, y), vars);
    DefinedYields(s, h, y, Guard(gx, x, JOp(op, x, y)), vars);
  }

  lemma SidesYield(s: Schema, h: Host, m: bool, gx: bool, gy: bool, op: BinOp, x: JExpr, y: JExpr, vars: Vars)
    requires Eval(h, x, vars).Value? && Eval(h, y, vars).Value?
    requires op.OpAnd? || op.OpOr? ==> !m && Yields(s, h, x, vars, BoolT) && Yields(s, h, y, vars, BoolT)
    ensures Yields(s, h, GuardedOperator(gx, gy, op, Side(m, x), Side(m, y)), vars, BoolT)
  {
    IdYields(s, h, x, vars);
    IdYields(s, h, y, vars);
    GuardedOperatorYields(s, h, gx, gy, op, Side(m, x), Side(m, y), vars);
  }

  lemma OperatorYields(s: Schema, sc: Scope, o: Options, op: BinOp, l: Expr, r: Expr, n: bool, h: Host, vars: Vars)
    requires o.context.ValidationRule? && Transform(s, sc, o, l, n).Ok? && Transform(s, sc, o, r, n).Ok?
    requires Yields(s, h, Transform(s, sc, o, l, n).value, vars, TypeOf(s, sc, l))
    requires Yields(s, h, Transform(s, sc, o, r, n).value, vars, TypeOf(s, sc, r))
    requires op.OpAnd? || op.OpOr? ==> TypeOf(s, sc, l).BoolT? && TypeOf(s, sc, r).BoolT?
    ensures Operator(s, sc, o, op, l, r, n).Ok? && Yields(s, h, Operator(s, sc, o, op, l, r, n).value, vars, BoolT)
  {
    var x, y := Transform(s, sc, o, l, n).value, Transform(s, sc, o, r, n).value;
    OperatorCompilesTo(s, sc, o, op, l, r, n);
    if IsNullTest(s, sc, op, l, r) {
      NullComparisonYields(s, h, op, x, vars);
    } else if IsNullTest(s, sc, op, r, l) {
      NullComparisonYields(s, h, op, y, vars);
    } else {
      SidesYield(s, h, BothModels(s, sc, l, r), IsFieldReference(s, sc, l), IsFieldReference(s, sc, r), op, x, y, vars);
    }
  }

  /** `includes` and its like on a value that a search is declared for. */
  lemma SearchYields(s: Schema, h: Host, k: Search, x: JExpr, y: JExpr, vars: Vars, t: Ty)
    requires Yields(s, h, x, vars, t) && (t.StrT? || (t.ListT? && k.Includes?)) && Eval(h, y, vars).Value?
    ensures Yields(s, h, JSearch(k, x, y), vars, BoolT)
  {
    var v, w := Eval(h, x, vars).v, Eval(h, y, vars).v;
    assert !v.Nullish() ==> Eval(h, JSearch(k, x, y), vars) == SearchIn(h, k, v, w);
  }

  lemma LowerYields(s: Schema, h: Host, x: JExpr, vars: Vars)
    requires Yields(s, h, x, vars, StrT)
    ensures Yields(s, h, JLower(x), vars, StrT)
  {
  }

  lemma LengthYields(s: Schema, h: Host, x: JExpr, min: Option<int>, max: Option<int>, vars: Vars)
    requires Eval(h, x, vars).Value?
    ensures Yields(s, h, LengthTest(x, min, max), vars, BoolT)
  {
    var len := JOptField(x, "length");
    assert Eval(h, len, vars).Value?;
    match min {
      case None => OperationYields(s, h, OpGt, len, JConst(VNum(0)), vars);
      case Some(lo) =>
        OperationYields(s, h, OpGe, len, JConst(VNum(lo)), vars);
        match max {
          case None =>
          case Some(hi) =>
            OperationYields(s, h, OpLe, len, JConst(VNum(hi)), vars);
            OperationYields(s, h, OpAnd, JOp(OpGe, len, JConst(VNum(lo))), JOp(OpLe, len, JConst(VNum(hi))), vars);
        }
    }
  }

  lemma EmptyYields(s: Schema, h: Host, x: JExpr, vars: Vars)
    requires Eval(h, x, vars).Value?
    ensures Yields(s, h, JOp(OpOr, JNot(x), JIs(JOptField(x, "length"), true, VNum(0))), vars, BoolT)
  {
    NotYields(s, h, x, vars);
    assert Eval(h, JOptField(x, "length"), vars).Value?;
    assert Yields(s, h, JIs(JOptField(x, "length"), true, VNum(0)), vars, BoolT);
    OperationYields(s, h, OpOr, JNot(x), JIs(JOptField(x, "length"), true, VNum(0)), vars);
  }

  lemma {:induction false} LoopYields(h: Host, every: bool, elems: seq<Val>, x: Name, body: JExpr, vars: Vars)
    requires forall i | 0 <= i < |elems| :: Eval(h, body, vars[x := elems[i]]).Value?
    ensures var r := Loop(h, every, elems, x, body, vars); r.Value? && r.v.VBool?
  {
    if elems == [] {
    } else {
      assert Eval(h, body, vars[x := elems[0]]).Value?;
      forall i | 0 <= i < |elems[1..]| ensures Eval(h, body, vars[x := elems[1..][i]]).Value? {
        assert elems[1..][i] == elems[i + 1];
      }
      LoopYields(h, every, elems[1..], x, body, vars);
    }
  }

  lemma QuantifierYields(s: Schema, h: Host, every: bool, list: JExpr, x: Name, body: JExpr, vars: Vars, of: Ty)
    requires Yields(s, h, list, vars, ListT(of))
    requires forall v | Fits(s, v, of) :: Eval(h, body, vars[x := v]).Value?
    ensures Yields(s, h, JQuantifier(every, list, x, body), vars, BoolT)
  {
    var v := Eval(h, list, vars).v;
    QuantifierEval(h, every, list, x, body, vars);
    if v.VArr? {
      forall i | 0 <= i < |v.elems| ensures Eval(h, body, vars[x := v.elems[i]]).Value? {
        assert v.elems[i] in v.elems;
        assert Fits(s, v.elems[i], of);
      }
      LoopYields(h, every, v.elems, x, body, vars);
    }
  }

  // ----- the theorem -----

  /** Well-typed rules are compiled to code that never throws, on any typed record, whatever it leaves out. */
  lemma {:induction false} TypedRuleYields(s: Schema, sc: Scope, o: Options, e: Expr, n: bool, h: Host, vars: Vars)
    requires TypedRule(s, sc, e) && Holding(s, sc, o, vars)
    ensures var j := Transform(s, sc, o, e, n);
      j.Ok? && Yields(s, h, j.value, vars, TypeOf(s, sc, e))
    decreases e, 1
  {
    match e {
      case Lit(_) | Null =>
      case Ref(name, _) => ReferenceYields(s, sc, o, e, n, h, vars);
      case Array(items) => ArrayYields(s, sc, o, items, n, h, vars);
      case Member(x, name) =>
        TypedRuleYields(s, sc, o, x, n, h, vars);
        MemberYields(s, h, Transform(s, sc, o, x, n).value, vars, TypeOf(s, sc, x).model, name, n);
      case Not(x) =>
        TypedRuleYields(s, sc, o, x, n, h, vars);
        var j := Transform(s, sc, o, x, n).value;
        NotYields(s, h, j, vars);
        DefinedYields(s, h, j, JNot(j), vars);
      case Invoke(name, args) => FunctionYields(s, sc, o, name, args, n, h, vars);
      case Binary(op, l, r) =>
        TypedRuleYields(s, sc, o, l, n, h, vars);
        if IsCollectionPredicate(op) {
          PredicateYields(s, sc, o, op, l, r, n, h, vars);
        } else if op.OpIn? {
          TypedRuleYields(s, sc, o, r, false, h, vars);
          MembershipYields(s, sc, o, l, r, n, h, vars);
        } else {
          TypedRuleYields(s, sc, o, r, n, h, vars);
          OperatorYields(s, sc, o, op, l, r, n, h, vars);
          assert Transform(s, sc, o, e, n) == Operator(s, sc, o, op, l, r, n);
        }
    }
  }

  lemma ReferenceYields(s: Schema, sc: Scope, o: Options, e: Expr, n: bool, h: Host, vars: Vars)
    requires e.Ref? && TypedRule(s, sc, e) && Holding(s, sc, o, vars)
    ensures var j := Transform(s, sc, o, e, n);
      j.Ok? && Yields(s, h, j.value, vars, TypeOf(s, sc, e))
  {
    if IsField(s, sc.cur, e.target) {
      MemberYields(s, h, JVar(o.fieldReferenceContext.value), vars, sc.cur, e.target, false);
    } else {
      assert Eval(h, JField(JVar(Global(s.enums[e.target])), e.target), vars) == Value(VStr(e.target));
    }
  }

  lemma {:induction false} ArrayYields(
      s: Schema, sc: Scope, o: Options, items: seq<Expr>, n: bool, h: Host, vars: Vars)
    requires TypedRule(s, sc, Array(items)) && Holding(s, sc, o, vars)
    ensures var j := Transform(s, sc, o, Array(items), n);
      j.Ok? && Yields(s, h, j.value, vars, TypeOf(s, sc, Array(items)))
    decreases items, 1
  {
    var t := if items == [] then NullT else TypeOf(s, sc, items[0]);
    ItemsYield(s, sc, o, items, t, n, h, vars);
  }

  lemma {:induction false} ItemsYield(
      s: Schema, sc: Scope, o: Options, items: seq<Expr>, t: Ty, n: bool, h: Host, vars: Vars)
    requires Holding(s, sc, o, vars)
    requires forall i | 0 <= i < |items| :: TypedRule(s, sc, items[i]) && TypeOf(s, sc, items[i]) == t
    ensures var js := TransformAll(s, sc, o, items, n);
      && js.Ok?
      && EvalAll(h, js.value, vars).Some?
      && forall x | x in EvalAll(h, js.value, vars).value :: Fits(s, x, t)
    decreases items, 0
  {
    if items == [] {
    } else {
      TypedRuleYields(s, sc, o, items[0], n, h, vars);
      ItemsYield(s, sc, o, items[1..], t, n, h, vars);
      var j, js := Transform(s, sc, o, items[0], n).value, TransformAll(s, sc, o, items[1..], n).value;
      assert ([j] + js)[1..] == js;
    }
  }

  /** What `ensureBooleanTernary` guards: anything but literals and lists written out. */
  predicate IsGuarded(e: Expr) {
    !e.Lit? && !e.Array?
  }

  lemma MembershipCompilesTo(s: Schema, sc: Scope, o: Options, l: Expr, r: Expr, n: bool)
    requires o.context.ValidationRule? && Transform(s, sc, o, l, n).Ok? && Transform(s, sc, o, r, false).Ok?
    ensures var x, y := Transform(s, sc, o, l, n).value, Transform(s, sc, o, r, false).value;
      Transform(s, sc, o, Binary(OpIn, l, r), n)
      == Ok(Guard(IsGuarded(l), x, Guard(IsGuarded(r), y, JSearch(Includes, y, x))))
  {
  }

  lemma MembershipYields(s: Schema, sc: Scope, o: Options, l: Expr, r: Expr, n: bool, h: Host, vars: Vars)
    requires o.context.ValidationRule? && Transform(s, sc, o, l, n).Ok? && Transform(s, sc, o, r, false).Ok?
    requires Eval(h, Transform(s, sc, o, l, n).value, vars).Value? && TypeOf(s, sc, r).ListT?
    requires Yields(s, h, Transform(s, sc, o, r, false).value, vars, TypeOf(s, sc, r))
    ensures var j := Transform(s, sc, o, Binary(OpIn, l, r), n);
      j.Ok? && Yields(s, h, j.value, vars, BoolT)
  {
    var x, y := Transform(s, sc, o, l, n).value, Transform(s, sc, o, r, false).value;
    SearchYields(s, h, Includes, y, x, vars, TypeOf(s, sc, r));
    DefinedYields(s, h, y, JSearch(Includes, y, x), vars);
    DefinedYields(s, h, x, Guard(IsGuarded(r), y, JSearch(Includes, y, x)), vars);
    MembershipCompilesTo(s, sc, o, l, r, n);
  }

  lemma {:induction false} PredicateYields(
      s: Schema, sc: Scope, o: Options, op: BinOp, l: Expr, r: Expr, n: bool, h: Host, vars: Vars)
    requires IsCollectionPredicate(op) && TypedRule(s, sc, Binary(op, l, r)) && Holding(s, sc, o, vars)
    requires Transform(s, sc, o, l, n).Ok?
    requires Yields(s, h, Transform(s, sc, o, l, n).value, vars, TypeOf(s, sc, l))
    ensures var j := Transform(s, sc, o, Binary(op, l, r), n);
      j.Ok? && Yields(s, h, j.value, vars, BoolT)
    decreases Binary(op, l, r), 0
  {
    var inner, io, of := Inner(s, sc, l), InnerOptions(o), TypeOf(s, sc, l).of;
    TypedRuleYields(s, inner, io, r, n, h, vars[Item := VNull]);
    var list, body := Transform(s, sc, o, l, n).value, Transform(s, inner, io, r, n).value;
    forall v | Fits(s, v, of) ensures Eval(h, body, vars[Item := v]).Value? {
      TypedRuleYields(s, inner, io, r, n, h, vars[Item := v]);
    }
    QuantifierYields(s, h, op.OpEvery?, list, Item, body, vars, of);
    PredicateCodeYields(s, h, op, JQuantifier(op.OpEvery?, list, Item, body), vars);
    PredicateCompilesTo(s, sc, o, op, l, r, n);
  }

  function PredicateCode(op: BinOp, q: JExpr): JExpr {
    if op.OpNone? then JNot(q) else JCoalesce(q, TRUE)
  }

  lemma PredicateCodeYields(s: Schema, h: Host, op: BinOp, q: JExpr, vars: Vars)
    requires Yields(s, h, q, vars, BoolT)
    ensures Yields(s, h, PredicateCode(op, q), vars, BoolT)
  {
    OrTrueYields(s, h, q, vars);
    NotYields(s, h, q, vars);
  }

  lemma PredicateCompilesTo(s: Schema, sc: Scope, o: Options, op: BinOp, l: Expr, r: Expr, n: bool)
    requires IsCollectionPredicate(op) && o.context.ValidationRule? && Transform(s, sc, o, l, n).Ok?
    requires Transform(s, Inner(s, sc, l), InnerOptions(o), r, n).Ok?
    ensures var list, body := Transform(s, sc, o, l, n).value,
                              Transform(s, Inner(s, sc, l), InnerOptions(o), r, n).value;
      Transform(s, sc, o, Binary(op, l, r), n) == Ok(PredicateCode(op, JQuantifier(op.OpEvery?, list, Item, body)))
  {
  }

  lemma {:induction false} FunctionYields(
      s: Schema, sc: Scope, o: Options, name: string, args: seq<Expr>, n: bool, h: Host, vars: Vars)
    requires TypedRule(s, sc, Invoke(name, args)) && Holding(s, sc, o, vars)
    ensures var j := Transform(s, sc, o, Invoke(name, args), n);
      j.Ok? && Yields(s, h, j.value, vars, TypeOf(s, sc, Invoke(name, args)))
    decreases Invoke(name, args), 0
  {
    TypedRuleYields(s, sc, o, args[0], false, h, vars);
    var x := Transform(s, sc, o, args[0], false).value;
    if name in TESTS || name == "length" || name == "isEmpty" {
      FieldFunctionYields(s, sc, o, name, args, n, h, vars);
    } else {
      TypedRuleYields(s, sc, o, args[1], n, h, vars);
      if name in {"hasEvery", "hasSome"} {
        forall v ensures YieldsAt(s, h, x, vars, v, TypeOf(s, sc, args[0])) {
          TypedRuleYields(s, sc, o, args[0], false, h, vars[Element := v]);
        }
        HasAllYields(s, sc, o, name, args, n, h, vars);
      } else {
        SearchFunctionYields(s, sc, o, name, args, n, h, vars);
      }
    }
  }

  /** The functions of one field: the host's tests, its length, and whether it is empty. */
  function FieldFunction(name: string, args: seq<Expr>, x: JExpr): JExpr {
    if name in TESTS then JTest(name, TestParam(args), x)
    else if name == "length" then LengthTest(x, NumberAt(args, 1), NumberAt(args, 2))
    else JOp(OpOr, JNot(x), JIs(JOptField(x, "length"), true, VNum(0)))
  }

  lemma FieldFunctionCompilesTo(s: Schema, sc: Scope, o: Options, name: string, args: seq<Expr>, n: bool)
    requires o.context.ValidationRule? && |args| >= 1 && (name in TESTS || name == "length" || name == "isEmpty")
    requires Transform(s, sc, o, args[0], false).Ok?
    ensures var x := Transform(s, sc, o, args[0], false).value;
      Transform(s, sc, o, Invoke(name, args), n)
      == Ok(Guard(IsGuarded(args[0]) && name != "isEmpty", x, FieldFunction(name, args, x)))
    ensures TypeOf(s, sc, Invoke(name, args)) == BoolT
  {
  }

  lemma FieldFunctionYields(
      s: Schema, sc: Scope, o: Options, name: string, args: seq<Expr>, n: bool, h: Host, vars: Vars)
    requires o.context.ValidationRule? && |args| >= 1 && (name in TESTS || name == "length" || name == "isEmpty")
    requires Transform(s, sc, o, args[0], false).Ok? && Eval(h, Transform(s, sc, o, args[0], false).value, vars).Value?
    ensures var j := Transform(s, sc, o, Invoke(name, args), n);
      j.Ok? && Yields(s, h, j.value, vars, BoolT) && TypeOf(s, sc, Invoke(name, args)) == BoolT
  {
    var x := Transform(s, sc, o, args[0], false).value;
    LengthYields(s, h, x, NumberAt(args, 1), NumberAt(args, 2), vars);
    EmptyYields(s, h, x, vars);
    assert Yields(s, h, JTest(name, TestParam(args), x), vars, BoolT);
    DefinedYields(s, h, x, FieldFunction(name, args, x), vars);
    FieldFunctionCompilesTo(s, sc, o, name, args, n);
  }

  lemma SearchFunctionYields(
      s: Schema, sc: Scope, o: Options, name: string, args: seq<Expr>, n: bool, h: Host, vars: Vars)
    requires o.context.ValidationRule? && |args| >= 2 && (name in SEARCHES || name == "has")
    requires TypedSearch(name, TypeOf(s, sc, args[0]), TypeOf(s, sc, args[1]))
    requires Transform(s, sc, o, args[0], false).Ok? && Transform(s, sc, o, args[1], n).Ok?
    requires Yields(s, h, Transform(s, sc, o, args[0], false).value, vars, TypeOf(s, sc, args[0]))
    requires Yields(s, h, Transform(s, sc, o, args[1], n).value, vars, TypeOf(s, sc, args[1]))
    ensures var j := Transform(s, sc, o, Invoke(name, args), n);
      j.Ok? && Yields(s, h, j.value, vars, BoolT) && TypeOf(s, sc, Invoke(name, args)) == BoolT
  {
    var x, y := Transform(s, sc, o, args[0], false).value, Transform(s, sc, o, args[1], n).value;
    var ci := |args| > 2 && args[2] == Lit(BooleanLiteral(true));
    SearchCompilesTo(s, sc, o, name, args, n);
    SearchCallYields(s, h, name, x, y, ci, vars, TypeOf(s, sc, args[0]));
    OrTrueYields(s, h, SearchCall(name, x, y, ci), vars);
  }

  lemma SearchCompilesTo(s: Schema, sc: Scope, o: Options, name: string, args: seq<Expr>, n: bool)
    requires o.context.ValidationRule? && |args| >= 2 && (name in SEARCHES || name == "has")
    requires Transform(s, sc, o, args[0], false).Ok? && Transform(s, sc, o, args[1], n).Ok?
    ensures var x, y := Transform(s, sc, o, args[0], false).value, Transform(s, sc, o, args[1], n).value;
      Transform(s, sc, o, Invoke(name, args), n)
      == Ok(JCoalesce(SearchCall(name, x, y, |args| > 2 && args[2] == Lit(BooleanLiteral(true))), TRUE))
    ensures TypeOf(s, sc, Invoke(name, args)) == BoolT
  {
  }

  lemma HasAllCompilesTo(s: Schema, sc: Scope, o: Options, name: string, args: seq<Expr>, n: bool)
    requires o.context.ValidationRule? && |args| >= 2 && name in {"hasEvery", "hasSome"}
    requires Transform(s, sc, o, args[0], false).Ok? && Transform(s, sc, o, args[1], n).Ok?
    ensures var x, y := Transform(s, sc, o, args[0], false).value, Transform(s, sc, o, args[1], n).value;
      Transform(s, sc, o, Invoke(name, args), n)
      == Ok(Guard(IsGuarded(args[0]), x, HasAllCode(name == "hasEvery", x, y)))
    ensures TypeOf(s, sc, Invoke(name, args)) == BoolT
  {
  }

  function HasAllCode(every: bool, x: JExpr, y: JExpr): JExpr {
    JQuantifier(every, y, Element, JSearch(Includes, x, JVar(Element)))
  }

  lemma HasAllYields(
      s: Schema, sc: Scope, o: Options, name: string, args: seq<Expr>, n: bool, h: Host, vars: Vars)
    requires o.context.ValidationRule? && |args| >= 2 && name in {"hasEvery", "hasSome"}
    requires TypeOf(s, sc, args[0]).ListT? && TypeOf(s, sc, args[1]).ListT?
    requires Transform(s, sc, o, args[0], false).Ok? && Transform(s, sc, o, args[1], n).Ok?
    requires var x := Transform(s, sc, o, args[0], false).value;
      Eval(h, x, vars).Value? && forall v :: YieldsAt(s, h, x, vars, v, TypeOf(s, sc, args[0]))
    requires Yields(s, h, Transform(s, sc, o, args[1], n).value, vars, TypeOf(s, sc, args[1]))
    ensures var j := Transform(s, sc, o, Invoke(name, args), n);
      j.Ok? && Yields(s, h, j.value, vars, BoolT) && TypeOf(s, sc, Invoke(name, args)) == BoolT
  {
    var x, y := Transform(s, sc, o, args[0], false).value, Transform(s, sc, o, args[1], n).value;
    var code := HasAllCode(name == "hasEvery", x, y);
    HasAllCodeYields(s, h, name == "hasEvery", x, y, vars, TypeOf(s, sc, args[0]), TypeOf(s, sc, args[1]).of);
    DefinedYields(s, h, x, code, vars);
    HasAllCompilesTo(s, sc, o, name, args, n);
  }

  lemma HasAllCodeYields(s: Schema, h: Host, every: bool, x: JExpr, y: JExpr, vars: Vars, t: Ty, of: Ty)
    requires t.ListT? && Yields(s, h, y, vars, ListT(of))
    requires forall v :: YieldsAt(s, h, x, vars, v, t)
    ensures Yields(s, h, HasAllCode(every, x, y), vars, BoolT)
  {
    var body := JSearch(Includes, x, JVar(Element));
    forall v | Fits(s, v, of) ensures Eval(h, body, vars[Element := v]).Value? {
      assert YieldsAt(s, h, x, vars, v, t);
      SearchYields(s, h, Includes, x, JVar(Element), vars[Element := v], t);
    }
    QuantifierYields(s, h, every, y, Element, body, vars, of);
  }

  lemma SearchCallYields(s: Schema, h: Host, name: string, x: JExpr, y: JExpr, ci: bool, vars: Vars, t: Ty)
    requires Yields(s, h, x, vars, t) && Eval(h, y, vars).Value?
    requires (name in SEARCHES && t.StrT? && Yields(s, h, y, vars, StrT)) || (name == "has" && t.ListT?)
    ensures Yields(s, h, SearchCall(name, x, y, ci), vars, BoolT)
  {
    if name == "contains" && ci {
      LowerYields(s, h, x, vars);
      LowerYields(s, h, y, vars);
      SearchYields(s, h, Includes, JLower(x), JLower(y), vars, StrT);
    } else {
      SearchYields(s, h, SearchCall(name, x, y, ci).method_, x, y, vars, t);
    }
  }
}
