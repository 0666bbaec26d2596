/** Compiling resolved ZModel expressions to JavaScript, for access policies and for validation rules. */
module ExpressionTransformer {
  import opened Optional
  import opened ZModelSyntax
  import opened JavaScript

  /**
   * Declared types; every value may also be missing. ObjectT is a scalar type whose values JavaScript holds as objects,
   * such as DateTime; UnknownT is an expression the linker gives no such type.
   */
  datatype Ty =
    | BoolT | NumT | StrT | EnumT(enum: string) | ObjectT(kind: string)
    | ModelT(model: string) | ListT(of: Ty) | NullT | UnknownT

  datatype ModelDecl = ModelDecl(fields: map<string, Ty>, ids: seq<string>)

  /** `enums` maps each enum member to its enum; `auth` is the model of `auth()`. */
  datatype Schema = Schema(models: map<string, ModelDecl>, enums: map<string, string>, auth: string)

  /** `this` is a `root`; bare names are fields of `cur`, the element type inside a collection predicate. */
  datatype Scope = Scope(root: string, cur: string)

  datatype RuleContext = AccessPolicy | ValidationRule

  datatype Options = Options(
    isPostGuard: bool,
    fieldReferenceContext: Option<Name>,
    thisExprContext: Option<Name>,
    futureRefContext: Option<Name>,
    context: RuleContext)

  datatype Error =
    | UnresolvedReference | UnresolvedMember | UnsupportedExpression | UnsupportedFunction
    | FutureOutsidePostUpdate | NoIdField

  datatype Result<+T> = Ok(value: T) | Err(error: Error) {
    predicate IsFailure() {
      Err?
    }

    function PropagateFailure<U>(): Result<U>
      requires Err?
    {
      Err(error)
    }

    function Extract(): T
      requires Ok?
    {
      value
    }
  }

  // ----- what the linker resolved -----

  function FieldType(s: Schema, model: string, field: string): Ty {
    if model in s.models && field in s.models[model].fields then s.models[model].fields[field] else UnknownT
  }

  predicate IsField(s: Schema, model: string, field: string) {
    model in s.models && field in s.models[model].fields
  }

  predicate IsFieldReference(s: Schema, sc: Scope, e: Expr) {
    e.Ref? && IsField(s, sc.cur, e.target)
  }

  predicate IsFuture(e: Expr) {
    e.Invoke? && e.function_ == "future"
  }

  function TypeOf(s: Schema, sc: Scope, e: Expr): Ty {
    match e
    case This => ModelT(sc.root)
    case Null => NullT
    case Lit(NumberLiteral(_)) => NumT
    case Lit(StringLiteral(_)) => StrT
    case Lit(BooleanLiteral(_)) => BoolT
    case Array(items) => if items == [] then ListT(NullT) else ListT(TypeOf(s, sc, items[0]))
    case Object(_) => UnknownT
    case Ref(name, _) =>
      if IsField(s, sc.cur, name) then FieldType(s, sc.cur, name)
      else if name in s.enums then EnumT(s.enums[name])
      else UnknownT
    case Invoke(name, _) =>
      if name == "auth" then ModelT(s.auth) else if name == "future" then ModelT(sc.root) else BoolT
    case Member(x, name) =>
      var t := TypeOf(s, sc, x);
      if t.ModelT? then FieldType(s, t.model, name) else UnknownT
    case Not(_) | Binary(_, _, _) => BoolT
  }

  /** `isModelType`: the resolved declaration is a model, whether one or a list. */
  predicate IsModelType(t: Ty) {
    t.ModelT? || (t.ListT? && t.of.ModelT?)
  }

  function ElementModel(t: Ty): string {
    if t.ListT? && t.of.ModelT? then t.of.model else ""
  }

  function Ids(s: Schema, model: string): seq<string> {
    if model in s.models then s.models[model].ids else []
  }

  // ----- templates -----

  const UNDEFINED: Val := Undef
  const TRUE := JConst(VBool(true))

  function Default(c: RuleContext): JExpr {
    JConst(VBool(c.ValidationRule?))
  }

  function EnsureBoolean(c: RuleContext, x: JExpr): JExpr {
    JCoalesce(x, Default(c))
  }

  function EnsureBooleanTernary(c: RuleContext, predicate_: Expr, compiled: JExpr, value: JExpr): JExpr {
    if predicate_.Lit? || predicate_.Array? then value else JDefined(compiled, value, Default(c))
  }

  function Or(o: Option<Name>, other: Name): Name {
    match o
    case Some(x) => x
    case None => other
  }

  // ----- transform -----

  /** `n` is normalizeUndefined. */
  function Transform(s: Schema, sc: Scope, o: Options, e: Expr, n: bool): Result<JExpr>
    decreases e, 2
  {
    match e
    case Lit(NumberLiteral(i)) => Ok(JConst(VNum(i)))
    case Lit(StringLiteral(t)) => Ok(JConst(VStr(t)))
    case Lit(BooleanLiteral(b)) => Ok(JConst(VBool(b)))
    case Array(items) =>
      var js :- TransformAll(s, sc, o, items, n);
      Ok(JArray(js))
    case Null => Ok(JConst(VNull))
    case This => Ok(JVar(Or(o.thisExprContext, Input)))
    case Ref(name, _) => Reference(s, sc, o, name)
    case Invoke(name, args) => Invocation(s, sc, o, name, args, n)
    case Member(x, name) =>
      if IsFuture(x) then
        if !o.isPostGuard then Err(FutureOutsidePostUpdate)
        else Ok(if o.futureRefContext.Some? then JField(JVar(o.futureRefContext.value), name) else JVar(Global(name)))
      else
        var operand :- Transform(s, sc, o, x, n);
        Ok(if n then JCoalesce(JOptField(operand, name), JConst(VNull)) else JOptField(operand, name))
    case Not(x) =>
      var operand :- Transform(s, sc, o, x, n);
      Ok(if o.context.ValidationRule? && IsFieldReference(s, sc, x)
         then EnsureBooleanTernary(o.context, x, operand, JNot(operand))
         else JNot(operand))
    case Binary(op, l, r) =>
      if IsCollectionPredicate(op) then CollectionPredicate(s, sc, o, op, l, r, n)
      else if op.OpIn? then Membership(s, sc, o, l, r, n)
      else if (op.OpEq? || op.OpNe?) && (l.This? || r.This?) then ThisEquality(s, sc, o, op, l, r)
      else Operator(s, sc, o, op, l, r, n)
    case Object(_) => Err(UnsupportedExpression)
  }

  function TransformAll(s: Schema, sc: Scope, o: Options, es: seq<Expr>, n: bool): Result<seq<JExpr>>
    decreases es, 0
  {
    if es == [] then Ok([])
    else
      var j :- Transform(s, sc, o, es[0], n);
      var js :- TransformAll(s, sc, o, es[1..], n);
      Ok([j] + js)
  }

  function Reference(s: Schema, sc: Scope, o: Options, name: string): Result<JExpr> {
    if IsField(s, sc.cur, name) then
      Ok(if o.isPostGuard then JOptField(JField(JVar(Context), "preValue"), name)
         else if o.fieldReferenceContext.Some? then JOptField(JVar(o.fieldReferenceContext.value), name)
         else JVar(Global(name)))
    else if name in s.enums then Ok(JField(JVar(Global(s.enums[name])), name))
    else Err(UnresolvedReference)
  }

  /** `==`, `!=`, `&&`, `||` and the comparisons, with the validation context's leniency. */
  function Operator(s: Schema, sc: Scope, o: Options, op: BinOp, l: Expr, r: Expr, n: bool): Result<JExpr>
    decreases Binary(op, l, r), 1
  {
    var left0 :- Transform(s, sc, o, l, n);
    var right0 :- Transform(s, sc, o, r, n);
    var models := IsModelType(TypeOf(s, sc, l)) && IsModelType(TypeOf(s, sc, r));
    var left := if models then JCoalesce(JOptField(left0, "id"), JConst(VNull)) else left0;
    var right := if models then JCoalesce(JOptField(right0, "id"), JConst(VNull)) else right0;
    if o.context.AccessPolicy? then Ok(JOp(op, left, right))
    else if (op.OpEq? || op.OpNe?) && IsFieldReference(s, sc, l) && r.Null? then Ok(NullComparison(op, left0))
    else if (op.OpEq? || op.OpNe?) && IsFieldReference(s, sc, r) && l.Null? then Ok(NullComparison(op, right0))
    else
      var first := if IsFieldReference(s, sc, l)
                   then EnsureBooleanTernary(o.context, l, left, JOp(op, left, right)) else JOp(op, left, right);
      Ok(if IsFieldReference(s, sc, r) then EnsureBooleanTernary(o.context, r, right, first) else first)
  }

  function NullComparison(op: BinOp, field: JExpr): JExpr {
    if op.OpEq? then JOp(OpOr, JIs(field, true, VNull), JIs(field, true, UNDEFINED))
    else JOp(OpAnd, JIs(field, false, VNull), JIs(field, false, UNDEFINED))
  }

  function ThisEquality(s: Schema, sc: Scope, o: Options, op: BinOp, l: Expr, r: Expr): Result<JExpr>
    decreases Binary(op, l, r), 1
  {
    var ids := Ids(s, sc.root);
    if ids == [] then Err(NoIdField)
    else
      var left :- Transform(s, sc, o, l, false);
      var right :- Transform(s, sc, o, r, false);
      Ok(if op.OpEq? then JSameIds(left, right, ids) else JNot(JSameIds(left, right, ids)))
  }

  function Membership(s: Schema, sc: Scope, o: Options, l: Expr, r: Expr, n: bool): Result<JExpr>
    decreases Binary(OpIn, l, r), 1
  {
    var left :- Transform(s, sc, o, l, n);
    var right :- Transform(s, sc, o, r, false);
    var search := JSearch(Includes, right, left);
    Ok(if o.context.ValidationRule?
       then EnsureBooleanTernary(o.context, l, left, EnsureBooleanTernary(o.context, r, right, search))
       else EnsureBoolean(o.context, search))
  }

  /** Inside the brackets names read the element, `_item`, and post-update reading is off. */
  function CollectionPredicate(s: Schema, sc: Scope, o: Options, op: BinOp, l: Expr, r: Expr, n: bool): Result<JExpr>
    decreases Binary(op, l, r), 1
  {
    var list :- Transform(s, sc, o, l, n);
    var body :- Transform(s, Inner(s, sc, l), InnerOptions(o), r, n);
    Ok(match op
       case OpSome => EnsureBoolean(o.context, JQuantifier(false, list, Item, body))
       case OpEvery => EnsureBoolean(o.context, JQuantifier(true, list, Item, body))
       case _ => JNot(JQuantifier(false, list, Item, body)))
  }

  function Inner(s: Schema, sc: Scope, collection: Expr): Scope {
    sc.(cur := ElementModel(TypeOf(s, sc, collection)))
  }

  function InnerOptions(o: Options): Options {
    o.(isPostGuard := false, fieldReferenceContext := Some(Item))
  }

  /** Functions whose body is a host test of the field. */
  const TESTS := {"regex", "email", "datetime", "url"}

  function Invocation(s: Schema, sc: Scope, o: Options, name: string, args: seq<Expr>, n: bool): Result<JExpr>
    decreases args, 1
  {
    if name == "auth" then Ok(JVar(User))
    else if name in TESTS && |args| >= 1 then
      var field :- Transform(s, sc, o, args[0], false);
      Ok(EnsureBooleanTernary(o.context, args[0], field, JTest(name, TestParam(args), field)))
    else if name == "length" && |args| >= 1 then
      var field :- Transform(s, sc, o, args[0], false);
      Ok(EnsureBooleanTernary(o.context, args[0], field, LengthTest(field, NumberAt(args, 1), NumberAt(args, 2))))
    else if name == "isEmpty" && |args| >= 1 then
      var field :- Transform(s, sc, o, args[0], false);
      Ok(JOp(OpOr, JNot(field), JIs(JOptField(field, "length"), true, VNum(0))))
    else if name in {"contains", "startsWith", "endsWith", "has"} && |args| >= 2 then
      var field :- Transform(s, sc, o, args[0], false);
      var arg :- Transform(s, sc, o, args[1], n);
      Ok(EnsureBoolean(o.context, SearchCall(name, field, arg, |args| > 2 && args[2] == Lit(BooleanLiteral(true)))))
    else if name in {"hasEvery", "hasSome"} && |args| >= 2 then
      var field :- Transform(s, sc, o, args[0], false);
      var arg :- Transform(s, sc, o, args[1], n);
      Ok(EnsureBooleanTernary(o.context, args[0], field,
        JQuantifier(name == "hasEvery", arg, Element, JSearch(Includes, field, JVar(Element)))))
    else
      Err(UnsupportedFunction)
  }

  function TestParam(args: seq<Expr>): string {
    if |args| > 1 && args[1].Lit? && args[1].literal.StringLiteral? then args[1].literal.text else ""
  }

  function NumberAt(args: seq<Expr>, i: nat): Option<int> {
    if i < |args| && args[i].Lit? && args[i].literal.NumberLiteral? then Some(args[i].literal.number) else None
  }

  function LengthTest(field: JExpr, min: Option<int>, max: Option<int>): JExpr {
    var len := JOptField(field, "length");
    match min
    case None => JOp(OpGt, len, JConst(VNum(0)))
    case Some(lo) =>
      match max
      case None => JOp(OpGe, len, JConst(VNum(lo)))
      case Some(hi) => JOp(OpAnd, JOp(OpGe, len, JConst(VNum(lo))), JOp(OpLe, len, JConst(VNum(hi))))
  }

  function SearchCall(name: string, field: JExpr, arg: JExpr, caseInsensitive: bool): JExpr {
    if name == "contains" && caseInsensitive then JSearch(Includes, JLower(field), JLower(arg))
    else
      var k := if name == "startsWith" then StartsWith else if name == "endsWith" then EndsWith else Includes;
      JSearch(k, field, arg)
  }

  // ----- the two uses -----

  /** The options of an entity checker; in a post-update one, bare fields read the value before the update. */
  function PolicyOptions(post: bool): Options {
    Options(post, Some(Input), Some(Input), Some(Input), AccessPolicy)
  }

  const RULE_OPTIONS := Options(false, Some(RuleValue), None, None, ValidationRule)

  /** A `@@validate` rule; a bare field used as the whole rule gets its own default. */
  function CompileRule(s: Schema, model: string, rule: Expr): Result<JExpr> {
    var j :- Transform(s, Scope(model, model), RULE_OPTIONS, rule, true);
    Ok(if IsFieldReference(s, Scope(model, model), rule) then JCoalesce(j, TRUE) else j)
  }
}
