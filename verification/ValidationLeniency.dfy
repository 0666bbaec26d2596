/** Compiled validation rules do not reject a record for what it leaves out. */
module ValidationLeniency {
  import opened Optional
  import opened ZModelSyntax
  import opened JavaScript
  import opened ExpressionTransformer
  import opened ValidationTyping

  /** `.refine((value) => code)`: a rule that throws rejects. */
  predicate Accepts(h: Host, code: JExpr, vars: Vars, record: Val) {
    var r := Eval(h, code, vars[RuleValue := record]);
    r.Value? && r.v.Truthy()
  }

  /** `part` is `whole` with any of its fields made undefined. */
  ghost predicate LeavesOut(whole: Val, part: Val) {
    whole.VObj? && part.VObj? && forall f :: Prop(part, f) == Prop(whole, f) || Prop(part, f).Undef?
  }

  /** Code that never looks at the record. */
  predicate Fixed(j: Result<JExpr>) {
    j.Ok? && RuleValue !in Free(j.value)
  }

  predicate FixedExpr(s: Schema, sc: Scope, e: Expr, n: bool) {
    Fixed(Transform(s, sc, RULE_OPTIONS, e, n))
  }

  predicate FieldOrFixed(s: Schema, sc: Scope, e: Expr, n: bool) {
    IsFieldReference(s, sc, e) || FixedExpr(s, sc, e, n)
  }

  /** A field of the record, or a member of one, or of that: `f`, `f.g`, `f.g.h`. */
  predicate Path(s: Schema, sc: Scope, e: Expr)
    decreases e
  {
    IsFieldReference(s, sc, e) || (e.Member? && !IsFuture(e.operand) && Path(s, sc, e.operand))
  }

  /**
   * Rules built from comparisons, membership, tests and predicates of what the record holds, by `&&` and `||`. Not
   * lenient are `!` on anything but a field or a member, `!= null`, comparisons with members of fields, which are not
   * guarded, comparisons of comparisons and the like, as in `(f == c) == false`, and members that are searched for or
   * stand as conditions.
   */
  predicate Lenient(s: Schema, sc: Scope, e: Expr)
    decreases e
  {
    FixedExpr(s, sc, e, true) ||
    match e
    case Not(x) => Path(s, sc, x)
    case Binary(op, l, r) =>
      if IsCollectionPredicate(op) then
        (Path(s, sc, l) || FixedExpr(s, sc, l, true)) && FixedBody(s, Inner(s, sc, l), r)
      else if op.OpIn? then FieldOrFixed(s, sc, l, true) && (Path(s, sc, r) || FixedExpr(s, sc, r, false))
      else if op.OpAnd? || op.OpOr? then
        !BothModels(s, sc, l, r)
        && (IsFieldReference(s, sc, l) || Lenient(s, sc, l)) && (IsFieldReference(s, sc, r) || Lenient(s, sc, r))
      else
        FieldOrFixed(s, sc, l, true) && FieldOrFixed(s, sc, r, true) && !BothModels(s, sc, l, r)
        && !l.This? && !r.This? && !(op.OpNe? && (IsNullTest(s, sc, op, l, r) || IsNullTest(s, sc, op, r, l)))
    case Invoke(name, args) => LenientCall(s, sc, name, args)
    case _ => false
  }

  predicate LenientCall(s: Schema, sc: Scope, name: string, args: seq<Expr>) {
    && |args| >= 1 && Path(s, sc, args[0])
    && (name in TESTS || name == "length" || name == "isEmpty" ||
        (name in SEARCHES + {"has", "hasEvery", "hasSome"} && |args| >= 2 && FixedExpr(s, sc, args[1], true)))
  }

  predicate FixedBody(s: Schema, inner: Scope, e: Expr) {
    Fixed(Transform(s, inner, InnerOptions(RULE_OPTIONS), e, true))
  }

  // ----- how code behaves on the two records -----

  /** The value a lenient piece of code yields: the same, unless the record leaves it out. */
  ghost predicate SameOrUndef(h: Host, j: JExpr, v: Vars, w: Vars) {
    var a, b := Eval(h, j, v), Eval(h, j, w);
    a.Value? ==> b.Value? && (b.v.Undef? || b == a)
  }

  /** The same where missing parts are turned into null. */
  ghost predicate SameOrMissing(h: Host, j: JExpr, v: Vars, w: Vars) {
    var a, b := Eval(h, j, v), Eval(h, j, w);
    a.Value? ==> b.Value? && (b.v.Nullish() || b == a)
  }

  /** Leaving fields out neither makes the code throw nor turns its truth into falsehood. */
  ghost predicate Steady(h: Host, j: JExpr, v: Vars, w: Vars) {
    var a, b := Eval(h, j, v), Eval(h, j, w);
    a.Value? ==> b.Value? && (a.v.Truthy() ==> b.v.Truthy())
  }

  ghost predicate TwoRecords(vars: Vars, whole: Val, part: Val, v: Vars, w: Vars) {
    LeavesOut(whole, part) && v == vars[RuleValue := whole] && w == vars[RuleValue := part]
  }

  lemma FixedIsSame(h: Host, j: JExpr, vars: Vars, whole: Val, part: Val, v: Vars, w: Vars)
    requires TwoRecords(vars, whole, part, v, w) && RuleValue !in Free(j)
    ensures Eval(h, j, v) == Eval(h, j, w)
  {
    EvalFrame(h, j, v, w);
  }

  lemma FieldIsSameOrUndef(h: Host, f: string, vars: Vars, whole: Val, part: Val, v: Vars, w: Vars)
    requires TwoRecords(vars, whole, part, v, w)
    ensures Eval(h, JOptField(JVar(RuleValue), f), v) == Value(Prop(whole, f))
    ensures Eval(h, JOptField(JVar(RuleValue), f), w) == Value(Prop(part, f))
    ensures SameOrUndef(h, JOptField(JVar(RuleValue), f), v, w)
  {
  }

  /** `p !== undefined ? yes : true`: enough that `yes` is steady whenever `p` is still the same. */
  lemma DefinedIsSteady(h: Host, p: JExpr, yes: JExpr, v: Vars, w: Vars)
    requires SameOrUndef(h, p, v, w)
    requires Eval(h, p, v) == Eval(h, p, w) ==> Steady(h, yes, v, w)
    ensures Steady(h, JDefined(p, yes, TRUE), v, w)
  {
  }

  /** An operand whose guard says whether the record decides it. */
  ghost predicate Operand(h: Host, guarded: bool, x: JExpr, v: Vars, w: Vars) {
    if guarded then SameOrUndef(h, x, v, w) else Eval(h, x, v) == Eval(h, x, w)
  }

  lemma GuardIsSteady(h: Host, g: bool, x: JExpr, code: JExpr, v: Vars, w: Vars)
    requires g ==> SameOrUndef(h, x, v, w)
    requires (g ==> Eval(h, x, v) == Eval(h, x, w)) ==> Steady(h, code, v, w)
    ensures Steady(h, Guard(g, x, code), v, w)
  {
    if g {
      DefinedIsSteady(h, x, code, v, w);
    }
  }

  /** Code guarded by whichever of its operands the record decides. */
  lemma GuardedIsSteady(h: Host, gx: bool, x: JExpr, gy: bool, y: JExpr, code: JExpr, v: Vars, w: Vars)
    requires gx ==> SameOrUndef(h, x, v, w)
    requires gy ==> SameOrUndef(h, y, v, w)
    requires (gx ==> Eval(h, x, v) == Eval(h, x, w)) && (gy ==> Eval(h, y, v) == Eval(h, y, w))
      ==> Steady(h, code, v, w)
    ensures Steady(h, Guard(gx, x, Guard(gy, y, code)), v, w)
  {
    if gx ==> Eval(h, x, v) == Eval(h, x, w) {
      GuardIsSteady(h, gy, y, code, v, w);
    }
    GuardIsSteady(h, gx, x, Guard(gy, y, code), v, w);
  }

  /** Code that is the same while its operands are. */
  lemma SameCodeIsSteady(
      h: Host, gx: bool, x: JExpr, gy: bool, y: JExpr, code: JExpr, guarded: JExpr, v: Vars, w: Vars)
    requires guarded == Guard(gx, x, Guard(gy, y, code))
    requires Operand(h, gx, x, v, w) && Operand(h, gy, y, v, w)
    requires Eval(h, x, v) == Eval(h, x, w) && Eval(h, y, v) == Eval(h, y, w) ==> Eval(h, code, v) == Eval(h, code, w)
    ensures Steady(h, guarded, v, w)
  {
    GuardedIsSteady(h, gx, x, gy, y, code, v, w);
  }

  lemma MemberIsSameOrMissing(h: Host, x: JExpr, f: string, v: Vars, w: Vars)
    requires SameOrMissing(h, x, v, w)
    ensures SameOrUndef(h, JOptField(x, f), v, w) && SameOrMissing(h, JCoalesce(JOptField(x, f), JConst(VNull)), v, w)
  {
    if Eval(h, x, v).Value? {
      assert Eval(h, JOptField(x, f), v) == Value(Prop(Eval(h, x, v).v, f));
      assert Eval(h, JOptField(x, f), w) == Value(Prop(Eval(h, x, w).v, f));
    }
  }

  /** What a path leads to stays the same or is missing: undefined, unless missing members are turned into null. */
  lemma {:induction false} PathIsSameOrMissing(
      h: Host, s: Schema, sc: Scope, e: Expr, n: bool, vars: Vars, whole: Val, part: Val, v: Vars, w: Vars)
    requires TwoRecords(vars, whole, part, v, w) && Path(s, sc, e)
    ensures var j := Transform(s, sc, RULE_OPTIONS, e, n);
      && j.Ok?
      && Free(j.value) == {RuleValue}
      && SameOrMissing(h, j.value, v, w)
      && (!n || IsFieldReference(s, sc, e) ==> SameOrUndef(h, j.value, v, w))
    decreases e
  {
    if IsFieldReference(s, sc, e) {
      FieldIsSameOrUndef(h, e.target, vars, whole, part, v, w);
    } else {
      PathIsSameOrMissing(h, s, sc, e.operand, n, vars, whole, part, v, w);
      MemberIsSameOrMissing(h, Transform(s, sc, RULE_OPTIONS, e.operand, n).value, e.member, v, w);
    }
  }

  lemma OperandIsSameOrUndef(
      h: Host, s: Schema, sc: Scope, e: Expr, n: bool, vars: Vars, whole: Val, part: Val, v: Vars, w: Vars)
    requires TwoRecords(vars, whole, part, v, w) && FieldOrFixed(s, sc, e, n)
    ensures var j := Transform(s, sc, RULE_OPTIONS, e, n);
      && j.Ok?
      && SameOrUndef(h, j.value, v, w)
      && (!IsFieldReference(s, sc, e) ==> Eval(h, j.value, v) == Eval(h, j.value, w))
  {
    if IsFieldReference(s, sc, e) {
      FieldIsSameOrUndef(h, e.target, vars, whole, part, v, w);
    } else {
      FixedIsSame(h, Transform(s, sc, RULE_OPTIONS, e, n).value, vars, whole, part, v, w);
    }
  }

  // ----- the kinds of lenient rule -----

  lemma NullComparisonIsSteady(h: Host, x: JExpr, v: Vars, w: Vars)
    requires SameOrUndef(h, x, v, w)
    ensures Steady(h, NullComparison(OpEq, x), v, w)
  {
    var a, b := Eval(h, x, v), Eval(h, x, w);
    if a.Value? {
      assert Eval(h, NullComparison(OpEq, x), v) == Value(VBool(a.v.Nullish()));
      assert Eval(h, NullComparison(OpEq, x), w) == Value(VBool(b.v.Nullish()));
    }
  }

  lemma GuardedOperatorIsSteady(h: Host, gx: bool, gy: bool, op: BinOp, x: JExpr, y: JExpr, v: Vars, w: Vars)
    requires Operand(h, gx, x, v, w) && Operand(h, gy, y, v, w)
    ensures Steady(h, GuardedOperator(gx, gy, op, x, y), v, w)
  {
    OperatorIsSame(h, op, x, y, v, w);
    SameCodeIsSteady(h, gy, y, gx, x, JOp(op, x, y), GuardedOperator(gx, gy, op, x, y), v, w);
  }

  lemma ComparisonIsSteady(
      h: Host, s: Schema, sc: Scope, op: BinOp, l: Expr, r: Expr,
      vars: Vars, whole: Val, part: Val, v: Vars, w: Vars)
    requires TwoRecords(vars, whole, part, v, w)
    requires !IsCollectionPredicate(op) && !op.OpIn? && !op.OpAnd? && !op.OpOr? && !l.This? && !r.This?
    requires FieldOrFixed(s, sc, l, true) && FieldOrFixed(s, sc, r, true) && !BothModels(s, sc, l, r)
    requires !(op.OpNe? && (IsNullTest(s, sc, op, l, r) || IsNullTest(s, sc, op, r, l)))
    ensures var j := Operator(s, sc, RULE_OPTIONS, op, l, r, true); j.Ok? && Steady(h, j.value, v, w)
  {
    OperandIsSameOrUndef(h, s, sc, l, true, vars, whole, part, v, w);
    OperandIsSameOrUndef(h, s, sc, r, true, vars, whole, part, v, w);
    OperatorCompilesTo(s, sc, RULE_OPTIONS, op, l, r, true);
    var x, y := Transform(s, sc, RULE_OPTIONS, l, true).value, Transform(s, sc, RULE_OPTIONS, r, true).value;
    if IsNullTest(s, sc, op, l, r) {
      NullComparisonIsSteady(h, x, v, w);
    } else if IsNullTest(s, sc, op, r, l) {
      NullComparisonIsSteady(h, y, v, w);
    } else {
      GuardedOperatorIsSteady(h, IsFieldReference(s, sc, l), IsFieldReference(s, sc, r), op, x, y, v, w);
    }
  }

  lemma GuardedSearchIsSteady(h: Host, gx: bool, gy: bool, x: JExpr, y: JExpr, v: Vars, w: Vars)
    requires Operand(h, gx, x, v, w) && Operand(h, gy, y, v, w)
    ensures Steady(h, Guard(gx, x, Guard(gy, y, JSearch(Includes, y, x))), v, w)
  {
    SearchIsSame(h, Includes, y, x, v, w);
    var code := JSearch(Includes, y, x);
    SameCodeIsSteady(h, gx, x, gy, y, code, Guard(gx, x, Guard(gy, y, code)), v, w);
  }

  lemma MembershipIsSteady(
      h: Host, s: Schema, sc: Scope, l: Expr, r: Expr, vars: Vars, whole: Val, part: Val, v: Vars, w: Vars)
    requires TwoRecords(vars, whole, part, v, w)
    requires FieldOrFixed(s, sc, l, true) && (Path(s, sc, r) || FixedExpr(s, sc, r, false))
    ensures var j := Transform(s, sc, RULE_OPTIONS, Binary(OpIn, l, r), true); j.Ok? && Steady(h, j.value, v, w)
  {
    OperandIsSameOrUndef(h, s, sc, l, true, vars, whole, part, v, w);
    if Path(s, sc, r) {
      PathIsSameOrMissing(h, s, sc, r, false, vars, whole, part, v, w);
    } else {
      FixedIsSame(h, Transform(s, sc, RULE_OPTIONS, r, false).value, vars, whole, part, v, w);
    }
    var x, y := Transform(s, sc, RULE_OPTIONS, l, true).value, Transform(s, sc, RULE_OPTIONS, r, false).value;
    GuardedSearchIsSteady(h, IsGuarded(l), IsGuarded(r), x, y, v, w);
    MembershipCompilesTo(s, sc, RULE_OPTIONS, l, r, true);
  }

  lemma PredicateIsSteady(
      h: Host, s: Schema, sc: Scope, op: BinOp, l: Expr, r: Expr,
      vars: Vars, whole: Val, part: Val, v: Vars, w: Vars)
    requires TwoRecords(vars, whole, part, v, w) && IsCollectionPredicate(op)
    requires (Path(s, sc, l) || FixedExpr(s, sc, l, true)) && FixedBody(s, Inner(s, sc, l), r)
    ensures var j := Transform(s, sc, RULE_OPTIONS, Binary(op, l, r), true); j.Ok? && Steady(h, j.value, v, w)
  {
    if Path(s, sc, l) {
      PathIsSameOrMissing(h, s, sc, l, true, vars, whole, part, v, w);
    } else {
      FixedIsSame(h, Transform(s, sc, RULE_OPTIONS, l, true).value, vars, whole, part, v, w);
    }
    var list := Transform(s, sc, RULE_OPTIONS, l, true).value;
    var body := Transform(s, Inner(s, sc, l), InnerOptions(RULE_OPTIONS), r, true).value;
    var a := Eval(h, list, v);
    if a.Value? && Eval(h, list, w) == a && a.v.VArr? {
      LoopFrame(h, op.OpEvery?, a.v.elems, Item, body, v, w);
    }
    QuantifierIsSteady(h, op, list, body, v, w);
    PredicateCompilesTo(s, sc, RULE_OPTIONS, op, l, r, true);
  }

  lemma QuantifierIsSteady(h: Host, op: BinOp, list: JExpr, body: JExpr, v: Vars, w: Vars)
    requires SameOrMissing(h, list, v, w)
    requires var a := Eval(h, list, v);
      a.Value? && a.v.VArr? && Eval(h, list, w) == a ==>
        Loop(h, op.OpEvery?, a.v.elems, Item, body, v) == Loop(h, op.OpEvery?, a.v.elems, Item, body, w)
    ensures Steady(h, PredicateCode(op, JQuantifier(op.OpEvery?, list, Item, body)), v, w)
  {
    var q := JQuantifier(op.OpEvery?, list, Item, body);
    if Eval(h, list, v) == Eval(h, list, w) {
      QuantifierIsSame(h, op.OpEvery?, list, Item, body, v, w);
    } else if Eval(h, list, v).Value? {
      assert Eval(h, q, w) == Value(Undef);
      assert Eval(h, PredicateCode(op, q), w) == Value(VBool(true));
    }
  }

  /** A function of a field or a member: guarded by it, or already true of undefined. */
  lemma FunctionIsSteady(
      h: Host, s: Schema, sc: Scope, name: string, args: seq<Expr>,
      vars: Vars, whole: Val, part: Val, v: Vars, w: Vars)
    requires TwoRecords(vars, whole, part, v, w) && LenientCall(s, sc, name, args)
    ensures var j := Transform(s, sc, RULE_OPTIONS, Invoke(name, args), true); j.Ok? && Steady(h, j.value, v, w)
  {
    PathIsSameOrMissing(h, s, sc, args[0], false, vars, whole, part, v, w);
    var x := Transform(s, sc, RULE_OPTIONS, args[0], false).value;
    if name in TESTS || name == "length" || name == "isEmpty" {
      FieldFunctionCompilesTo(s, sc, RULE_OPTIONS, name, args, true);
      FieldFunctionIsSteady(h, name, args, x, v, w);
    } else {
      var arg := Transform(s, sc, RULE_OPTIONS, args[1], true).value;
      FixedIsSame(h, arg, vars, whole, part, v, w);
      if name in {"hasEvery", "hasSome"} {
        HasAllCompilesTo(s, sc, RULE_OPTIONS, name, args, true);
        HasAllIsSteady(h, name == "hasEvery", x, arg, v, w);
      } else {
        SearchCompilesTo(s, sc, RULE_OPTIONS, name, args, true);
        SearchCallIsSteady(h, name, x, arg, |args| > 2 && args[2] == Lit(BooleanLiteral(true)), v, w);
      }
    }
  }

  lemma FieldFunctionIsSteady(h: Host, name: string, args: seq<Expr>, x: JExpr, v: Vars, w: Vars)
    requires SameOrUndef(h, x, v, w) && (name in TESTS || name == "length" || name == "isEmpty")
    ensures Steady(h, Guard(name != "isEmpty", x, FieldFunction(name, args, x)), v, w)
  {
    if name in TESTS {
      DefinedIsSteady(h, x, JTest(name, TestParam(args), x), v, w);
    } else if name == "length" {
      LengthIsSteady(h, x, NumberAt(args, 1), NumberAt(args, 2), v, w);
    } else {
      EmptyIsSteady(h, x, v, w);
    }
  }

  lemma LengthIsSteady(h: Host, x: JExpr, min: Option<int>, max: Option<int>, v: Vars, w: Vars)
    requires SameOrUndef(h, x, v, w)
    ensures Steady(h, JDefined(x, LengthTest(x, min, max), TRUE), v, w)
  {
    var len := JOptField(x, "length");
    if Eval(h, x, v) == Eval(h, x, w) {
      assert Eval(h, len, v) == Eval(h, len, w);
      if min.Some? {
        OperatorIsSame(h, OpGe, len, JConst(VNum(min.value)), v, w);
        if max.Some? {
          OperatorIsSame(h, OpLe, len, JConst(VNum(max.value)), v, w);
          OperatorIsSame(h, OpAnd, JOp(OpGe, len, JConst(VNum(min.value))),
                         JOp(OpLe, len, JConst(VNum(max.value))), v, w);
        }
      } else {
        OperatorIsSame(h, OpGt, len, JConst(VNum(0)), v, w);
      }
    }
    DefinedIsSteady(h, x, LengthTest(x, min, max), v, w);
  }

  lemma EmptyIsSteady(h: Host, x: JExpr, v: Vars, w: Vars)
    requires SameOrUndef(h, x, v, w)
    ensures Steady(h, JOp(OpOr, JNot(x), JIs(JOptField(x, "length"), true, VNum(0))), v, w)
  {
    if Eval(h, x, v) == Eval(h, x, w) {
      assert Eval(h, JOptField(x, "length"), v) == Eval(h, JOptField(x, "length"), w);
      OperatorIsSame(h, OpOr, JNot(x), JIs(JOptField(x, "length"), true, VNum(0)), v, w);
    } else if Eval(h, x, v).Value? {
      assert Eval(h, JNot(x), w) == Value(VBool(true));
    }
  }

  lemma LowerIsSameOrUndef(h: Host, x: JExpr, v: Vars, w: Vars)
    requires SameOrUndef(h, x, v, w)
    ensures SameOrUndef(h, JLower(x), v, w)
    ensures Eval(h, x, v) == Eval(h, x, w) ==> Eval(h, JLower(x), v) == Eval(h, JLower(x), w)
  {
  }

  lemma SearchIsSteady(h: Host, code: JExpr, k: Search, x: JExpr, y: JExpr, v: Vars, w: Vars)
    requires code == JSearch(k, x, y)
    requires SameOrUndef(h, x, v, w) && Eval(h, y, v) == Eval(h, y, w)
    ensures Steady(h, JCoalesce(code, TRUE), v, w)
  {
    if Eval(h, x, v) == Eval(h, x, w) {
      SearchIsSame(h, k, x, y, v, w);
    } else if Eval(h, x, v).Value? {
      assert Eval(h, code, w) == Value(Undef);
      assert Eval(h, JCoalesce(code, TRUE), w) == Value(VBool(true));
    }
  }

  lemma SearchCallIsSteady(h: Host, name: string, x: JExpr, arg: JExpr, ci: bool, v: Vars, w: Vars)
    requires SameOrUndef(h, x, v, w) && Eval(h, arg, v) == Eval(h, arg, w)
    ensures Steady(h, JCoalesce(SearchCall(name, x, arg, ci), TRUE), v, w)
  {
    var code := SearchCall(name, x, arg, ci);
    if name == "contains" && ci {
      LowerIsSameOrUndef(h, x, v, w);
      assert Eval(h, JLower(arg), v) == Eval(h, JLower(arg), w);
      SearchIsSteady(h, code, Includes, JLower(x), JLower(arg), v, w);
    } else {
      SearchIsSteady(h, code, code.method_, x, arg, v, w);
    }
  }

  lemma HasAllIsSteady(h: Host, every: bool, x: JExpr, arg: JExpr, v: Vars, w: Vars)
    requires Free(x) == {RuleValue}
    requires SameOrUndef(h, x, v, w) && Eval(h, arg, v) == Eval(h, arg, w)
    ensures Steady(h, JDefined(x, HasAllCode(every, x, arg), TRUE), v, w)
  {
    var body := JSearch(Includes, x, JVar(Element));
    var a := Eval(h, arg, v);
    if Eval(h, x, v) == Eval(h, x, w) && a.Value? && a.v.VArr? {
      forall i | 0 <= i < |a.v.elems|
        ensures BodyIsSame(h, Element, body, a.v.elems[i], v, w)
      {
        var v', w' := v[Element := a.v.elems[i]], w[Element := a.v.elems[i]];
        EvalFrame(h, x, v, v');
        EvalFrame(h, x, w, w');
        SearchIsSame(h, Includes, x, JVar(Element), v', w');
      }
      LoopIsSame(h, every, a.v.elems, Element, body, v, w);
    }
    if Eval(h, x, v) == Eval(h, x, w) {
      QuantifierIsSame(h, every, arg, Element, body, v, w);
    }
    DefinedIsSteady(h, x, HasAllCode(every, x, arg), v, w);
  }

  // ----- the theorem -----

  /** No connective of the rule hides an operand that throws on this record. */
  predicate Calm(h: Host, s: Schema, sc: Scope, e: Expr, v: Vars)
    decreases e
  {
    var j := Transform(s, sc, RULE_OPTIONS, e, true);
    j.Ok? && Eval(h, j.value, v).Value?
    && (e.Binary? && (e.op.OpAnd? || e.op.OpOr?) ==> Calm(h, s, sc, e.left, v) && Calm(h, s, sc, e.right, v))
  }

  lemma ConnectiveIsSteady(h: Host, op: BinOp, gx: bool, x: JExpr, gy: bool, y: JExpr, v: Vars, w: Vars)
    requires op.OpAnd? || op.OpOr?
    requires Eval(h, x, v).Value? && Eval(h, y, v).Value?
    requires if gx then SameOrUndef(h, x, v, w) else Steady(h, x, v, w)
    requires if gy then SameOrUndef(h, y, v, w) else Steady(h, y, v, w)
    ensures Steady(h, Guard(gy, y, Guard(gx, x, JOp(op, x, y))), v, w)
  {
    if (gx ==> Eval(h, x, v) == Eval(h, x, w)) && (gy ==> Eval(h, y, v) == Eval(h, y, w)) {
      assert Steady(h, JOp(op, x, y), v, w);
    }
    GuardedIsSteady(h, gy, y, gx, x, JOp(op, x, y), v, w);
  }

  lemma NegationIsSteady(h: Host, guarded: bool, x: JExpr, v: Vars, w: Vars)
    requires SameOrMissing(h, x, v, w) && (guarded ==> SameOrUndef(h, x, v, w))
    ensures Steady(h, Guard(guarded, x, JNot(x)), v, w)
  {
    if Eval(h, x, v).Value? {
      assert Eval(h, JNot(x), w) == Value(VBool(!Eval(h, x, w).v.Truthy()));
    }
    if guarded {
      DefinedIsSteady(h, x, JNot(x), v, w);
    }
  }

  lemma {:induction false} LenientIsSteady(
      h: Host, s: Schema, sc: Scope, e: Expr, vars: Vars, whole: Val, part: Val, v: Vars, w: Vars)
    requires TwoRecords(vars, whole, part, v, w) && Lenient(s, sc, e) && Calm(h, s, sc, e, v)
    ensures Steady(h, Transform(s, sc, RULE_OPTIONS, e, true).value, v, w)
    decreases e, 0
  {
    if FixedExpr(s, sc, e, true) {
      FixedIsSame(h, Transform(s, sc, RULE_OPTIONS, e, true).value, vars, whole, part, v, w);
    } else {
      match e {
        case Not(x) =>
          PathIsSameOrMissing(h, s, sc, x, true, vars, whole, part, v, w);
          NegationIsSteady(h, IsFieldReference(s, sc, x), Transform(s, sc, RULE_OPTIONS, x, true).value, v, w);
        case Invoke(name, args) => FunctionIsSteady(h, s, sc, name, args, vars, whole, part, v, w);
        case Binary(op, l, r) =>
          if IsCollectionPredicate(op) {
            PredicateIsSteady(h, s, sc, op, l, r, vars, whole, part, v, w);
          } else if op.OpIn? {
            MembershipIsSteady(h, s, sc, l, r, vars, whole, part, v, w);
          } else if op.OpAnd? || op.OpOr? {
            PartIsSteady(h, s, sc, l, vars, whole, part, v, w);
            PartIsSteady(h, s, sc, r, vars, whole, part, v, w);
            ConnectiveIsSteady(h, op,
              IsFieldReference(s, sc, l), Transform(s, sc, RULE_OPTIONS, l, true).value,
              IsFieldReference(s, sc, r), Transform(s, sc, RULE_OPTIONS, r, true).value, v, w);
          } else {
            ComparisonIsSteady(h, s, sc, op, l, r, vars, whole, part, v, w);
          }
      }
    }
  }

  lemma {:induction false} PartIsSteady(
      h: Host, s: Schema, sc: Scope, e: Expr, vars: Vars, whole: Val, part: Val, v: Vars, w: Vars)
    requires TwoRecords(vars, whole, part, v, w) && Calm(h, s, sc, e, v)
    requires IsFieldReference(s, sc, e) || Lenient(s, sc, e)
    ensures var j := Transform(s, sc, RULE_OPTIONS, e, true).value;
      if IsFieldReference(s, sc, e) then SameOrUndef(h, j, v, w) else Steady(h, j, v, w)
    decreases e, 1
  {
    if IsFieldReference(s, sc, e) {
      FieldIsSameOrUndef(h, e.target, vars, whole, part, v, w);
    } else {
      LenientIsSteady(h, s, sc, e, vars, whole, part, v, w);
    }
  }

  /** A lenient rule, or a bare field, that accepts a record it is calm on accepts it with any fields left out. */
  lemma CalmInputIsAccepted(h: Host, s: Schema, model: string, rule: Expr, vars: Vars, whole: Val, part: Val)
    requires var sc := Scope(model, model);
      (Lenient(s, sc, rule) || IsFieldReference(s, sc, rule)) && Calm(h, s, sc, rule, vars[RuleValue := whole])
    requires LeavesOut(whole, part)
    ensures var code := CompileRule(s, model, rule);
      code.Ok? && (Accepts(h, code.value, vars, whole) ==> Accepts(h, code.value, vars, part))
  {
    var sc, v, w := Scope(model, model), vars[RuleValue := whole], vars[RuleValue := part];
    PartIsSteady(h, s, sc, rule, vars, whole, part, v, w);
  }

  /** Well-typed rules are calm on every typed record. */
  lemma {:induction false} TypedRuleIsCalm(h: Host, s: Schema, sc: Scope, e: Expr, v: Vars)
    requires TypedRule(s, sc, e) && Holding(s, sc, RULE_OPTIONS, v)
    ensures Calm(h, s, sc, e, v)
    decreases e
  {
    TypedRuleYields(s, sc, RULE_OPTIONS, e, true, h, v);
    if e.Binary? && (e.op.OpAnd? || e.op.OpOr?) {
      TypedRuleIsCalm(h, s, sc, e.left, v);
      TypedRuleIsCalm(h, s, sc, e.right, v);
    }
  }

  /** A well-typed lenient rule, or a bare field, that accepts a typed record accepts it with any fields left out. */
  lemma PartialInputIsAccepted(h: Host, s: Schema, model: string, rule: Expr, vars: Vars, whole: Val, part: Val)
    requires var sc := Scope(model, model);
      TypedRule(s, sc, rule) && (Lenient(s, sc, rule) || IsFieldReference(s, sc, rule))
    requires Fits(s, whole, ModelT(model)) && BindsEnums(s, vars) && LeavesOut(whole, part)
    ensures var code := CompileRule(s, model, rule);
      code.Ok? && (Accepts(h, code.value, vars, whole) ==> Accepts(h, code.value, vars, part))
  {
    TypedRuleIsCalm(h, s, Scope(model, model), rule, vars[RuleValue := whole]);
    CalmInputIsAccepted(h, s, model, rule, vars, whole, part);
  }

  // ----- outside the fragment -----

  /** `f != null` accepts exactly the records that have `f`: leaving it out is an error. */
  lemma NotNullNeedsTheField(h: Host, s: Schema, model: string, f: string, vars: Vars, record: Val)
    requires IsField(s, model, f)
    ensures var code := CompileRule(s, model, Binary(OpNe, Ref(f, []), Null));
      code.Ok? && (Accepts(h, code.value, vars, record) <==> !Prop(record, f).Nullish())
  {
    var x := JOptField(JVar(RuleValue), f);
    var sc := Scope(model, model);
    assert Transform(s, sc, RULE_OPTIONS, Ref(f, []), true) == Ok(x);
    assert Transform(s, sc, RULE_OPTIONS, Null, true) == Ok(JConst(VNull));
    assert Transform(s, sc, RULE_OPTIONS, Binary(OpNe, Ref(f, []), Null), true)
        == Operator(s, sc, RULE_OPTIONS, OpNe, Ref(f, []), Null, true)
        == Ok(NullComparison(OpNe, x));
    assert CompileRule(s, model, Binary(OpNe, Ref(f, []), Null)) == Ok(NullComparison(OpNe, x));
    var v := vars[RuleValue := record];
    assert Eval(h, x, v) == Value(Prop(record, f));
    assert Eval(h, JIs(x, false, VNull), v) == Value(VBool(Prop(record, f) != VNull));
    assert Eval(h, JIs(x, false, Undef), v) == Value(VBool(Prop(record, f) != Undef));
  }

  function FieldEquals(f: string, c: int): Expr {
    Binary(OpEq, Ref(f, []), Lit(NumberLiteral(c)))
  }

  function FieldEqualsCode(f: string, c: int): JExpr {
    var x := JOptField(JVar(RuleValue), f);
    JDefined(x, JOp(OpEq, x, JConst(VNum(c))), TRUE)
  }

  lemma FieldEqualsCompiles(s: Schema, model: string, f: string, c: int)
    requires IsField(s, model, f)
    ensures Transform(s, Scope(model, model), RULE_OPTIONS, FieldEquals(f, c), true) == Ok(FieldEqualsCode(f, c))
  {
    var sc, l, r := Scope(model, model), Ref(f, []), Lit(NumberLiteral(c));
    assert Transform(s, sc, RULE_OPTIONS, l, true) == Ok(JOptField(JVar(RuleValue), f));
    assert Transform(s, sc, RULE_OPTIONS, r, true) == Ok(JConst(VNum(c)));
    assert Transform(s, sc, RULE_OPTIONS, FieldEquals(f, c), true) == Operator(s, sc, RULE_OPTIONS, OpEq, l, r, true);
  }

  predicate LeftOutOrEqual(h: Host, v: Val, c: int) {
    v.Undef? || LooseEqual(h, v, VNum(c))
  }

  lemma FieldEqualsEval(h: Host, f: string, c: int, vars: Vars, record: Val)
    ensures Eval(h, FieldEqualsCode(f, c), vars[RuleValue := record])
         == Value(VBool(LeftOutOrEqual(h, Prop(record, f), c)))
  {
    var v, x := vars[RuleValue := record], JOptField(JVar(RuleValue), f);
    assert Eval(h, x, v) == Value(Prop(record, f));
    EqualityEval(h, v, x, JConst(VNum(c)));
  }

  /** `!(f == c)` rejects a record for leaving `f` out, though it accepts every other value than `c`. */
  lemma NegatedComparisonNeedsTheField(h: Host, s: Schema, model: string, f: string, c: int, vars: Vars, record: Val)
    requires IsField(s, model, f)
    ensures var code := CompileRule(s, model, Not(FieldEquals(f, c)));
      code.Ok? &&
      (Accepts(h, code.value, vars, record) <==>
       !Prop(record, f).Undef? && !LooseEqual(h, Prop(record, f), VNum(c)))
  {
    FieldEqualsCompiles(s, model, f, c);
    assert CompileRule(s, model, Not(FieldEquals(f, c))) == Ok(JNot(FieldEqualsCode(f, c)));
    FieldEqualsEval(h, f, c, vars, record);
  }

  /**
   * A compared comparison is not guarded: `(f == c) == false` accepts exactly the records that have `f` with another
   * value, so it accepts `{ f: c + 1 }` but rejects `{}`; with `true` for `false` it is as lenient as `f == c`.
   */
  lemma ComparedComparisonNeedsTheField(
      h: Host, s: Schema, model: string, f: string, c: int, b: bool, vars: Vars, record: Val, i: nat)
    requires IsField(s, model, f)
    ensures var code := CompileRule(s, model, Binary(OpEq, FieldEquals(f, c), Lit(BooleanLiteral(b))));
      && code.Ok?
      && (Accepts(h, code.value, vars, record) <==> LeftOutOrEqual(h, Prop(record, f), c) == b)
      && (!b ==> Accepts(h, code.value, vars, VObj(i, map[f := VNum(c + 1)])))
      && (!b ==> !Accepts(h, code.value, vars, VObj(i, map[])))
  {
    ComparedComparisonCompiles(s, model, f, c, b);
    ComparedComparisonEval(h, f, c, b, vars, record);
    ComparedComparisonEval(h, f, c, b, vars, VObj(i, map[f := VNum(c + 1)]));
    ComparedComparisonEval(h, f, c, b, vars, VObj(i, map[]));
  }

  lemma ComparedComparisonCompiles(s: Schema, model: string, f: string, c: int, b: bool)
    requires IsField(s, model, f)
    ensures CompileRule(s, model, Binary(OpEq, FieldEquals(f, c), Lit(BooleanLiteral(b))))
         == Ok(JOp(OpEq, FieldEqualsCode(f, c), JConst(VBool(b))))
  {
    var sc, l, r := Scope(model, model), FieldEquals(f, c), Lit(BooleanLiteral(b));
    FieldEqualsCompiles(s, model, f, c);
    assert Transform(s, sc, RULE_OPTIONS, r, true) == Ok(JConst(VBool(b)));
    OperatorCompilesTo(s, sc, RULE_OPTIONS, OpEq, l, r, true);
    assert Transform(s, sc, RULE_OPTIONS, Binary(OpEq, l, r), true) == Operator(s, sc, RULE_OPTIONS, OpEq, l, r, true);
  }

  lemma ComparedComparisonEval(h: Host, f: string, c: int, b: bool, vars: Vars, record: Val)
    ensures Accepts(h, JOp(OpEq, FieldEqualsCode(f, c), JConst(VBool(b))), vars, record)
       <==> LeftOutOrEqual(h, Prop(record, f), c) == b
  {
    FieldEqualsEval(h, f, c, vars, record);
    EqualityEval(h, vars[RuleValue := record], FieldEqualsCode(f, c), JConst(VBool(b)));
  }

  /**
   * `p.f == c` is not guarded: it accepts exactly the records whose `p.f` is there and equals `c`, so a record that
   * leaves `p` out is rejected though `{ p: { f: c } }` is accepted.
   */
  lemma MemberComparisonNeedsTheMember(
      h: Host, s: Schema, model: string, p: string, f: string, c: int, vars: Vars, record: Val, i: nat)
    requires IsField(s, model, p) && FieldType(s, model, p).ModelT?
    ensures var code := CompileRule(s, model, Binary(OpEq, Member(Ref(p, []), f), Lit(NumberLiteral(c))));
      var value := Prop(Prop(record, p), f);
      && code.Ok?
      && (Accepts(h, code.value, vars, record) <==> !value.Nullish() && LooseEqual(h, value, VNum(c)))
      && Accepts(h, code.value, vars, VObj(i, map[p := VObj(i, map[f := VNum(c)])]))
      && !Accepts(h, code.value, vars, VObj(i, map[]))
  {
    MemberComparisonCode(s, model, p, f, c);
    MemberComparisonEval(h, p, f, c, vars, record);
    MemberComparisonEval(h, p, f, c, vars, VObj(i, map[p := VObj(i, map[f := VNum(c)])]));
    MemberComparisonEval(h, p, f, c, vars, VObj(i, map[]));
  }

  function MemberCode(p: string, f: string): JExpr {
    JCoalesce(JOptField(JOptField(JVar(RuleValue), p), f), JConst(VNull))
  }

  lemma MemberComparisonCode(s: Schema, model: string, p: string, f: string, c: int)
    requires IsField(s, model, p)
    ensures CompileRule(s, model, Binary(OpEq, Member(Ref(p, []), f), Lit(NumberLiteral(c))))
         == Ok(JOp(OpEq, MemberCode(p, f), JConst(VNum(c))))
  {
    var sc, l, r := Scope(model, model), Member(Ref(p, []), f), Lit(NumberLiteral(c));
    assert Transform(s, sc, RULE_OPTIONS, Ref(p, []), true) == Ok(JOptField(JVar(RuleValue), p));
    assert Transform(s, sc, RULE_OPTIONS, l, true) == Ok(MemberCode(p, f));
    assert Transform(s, sc, RULE_OPTIONS, r, true) == Ok(JConst(VNum(c)));
    OperatorCompilesTo(s, sc, RULE_OPTIONS, OpEq, l, r, true);
    assert Transform(s, sc, RULE_OPTIONS, Binary(OpEq, l, r), true) == Operator(s, sc, RULE_OPTIONS, OpEq, l, r, true);
  }

  lemma MemberComparisonEval(h: Host, p: string, f: string, c: int, vars: Vars, record: Val)
    ensures var value := Prop(Prop(record, p), f);
      Accepts(h, JOp(OpEq, MemberCode(p, f), JConst(VNum(c))), vars, record)
      <==> !value.Nullish() && LooseEqual(h, value, VNum(c))
  {
    var v, value := vars[RuleValue := record], Prop(Prop(record, p), f);
    assert Eval(h, JOptField(JVar(RuleValue), p), v) == Value(Prop(record, p));
    assert Eval(h, JOptField(JOptField(JVar(RuleValue), p), f), v) == Value(value);
    assert Eval(h, MemberCode(p, f), v) == Value(if value.Nullish() then VNull else value);
    EqualityEval(h, v, MemberCode(p, f), JConst(VNum(c)));
  }
}
