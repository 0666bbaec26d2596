/**
 * The small part of JavaScript that compiled ZModel expressions are written in, and its evaluation. The lemmas are what
 * proofs about compiled code use of it: the free variables, and one step at a time.
 */
module JavaScript {
  import opened Optional
  import opened ZModelSyntax

  /** Arrays and objects carry the identity that `==` compares; 0 is an array just made, equal to no other. */
  datatype Val =
    | Undef | VNull | VBool(b: bool) | VNum(n: int) | VStr(s: string)
    | VArr(arrayId: nat, elems: seq<Val>)
    | VObj(objectId: nat, props: map<string, Val>)
  {
    predicate Nullish() {
      Undef? || VNull?
    }

    predicate Truthy() {
      match this
      case Undef | VNull => false
      case VBool(b) => b
      case VNum(n) => n != 0
      case VStr(s) => s != ""
      case VArr(_, _) | VObj(_, _) => true
    }
  }

  /** What the model does not define: text conversion, string tests, and coercing comparisons. */
  datatype Host = Host(
    text: Val -> string,
    lower: string -> string,
    test: (string, string, Val) -> bool,
    relate: (BinOp, Val, Val) -> bool,
    coerceEqual: (Val, Val) -> bool)

  /** Variables of the emitted code: its parameters, the bound variables of its lambdas, and globals such as enums. */
  datatype Name = Input | User | Context | Item | RuleValue | Element | Global(name: string)

  datatype JExpr =
    | JConst(v: Val)
    | JVar(variable: Name)
    | JField(obj: JExpr, field: string)                      // o.f
    | JOptField(obj: JExpr, field: string)                   // o?.f
    | JCoalesce(a: JExpr, b: JExpr)                          // a ?? b
    | JNot(a: JExpr)                                         // !a
    | JOp(op: BinOp, a: JExpr, b: JExpr)                     // a == b, a && b, a < b, ...
    | JIs(a: JExpr, same: bool, v: Val)                      // a === null, a !== undefined, ...
    | JDefined(p: JExpr, yes: JExpr, no: JExpr)              // p !== undefined ? yes : no
    | JArray(items: seq<JExpr>)
    | JSearch(method_: Search, recv: JExpr, arg: JExpr)      // r?.includes(x), r?.startsWith(x), ...
    | JLower(recv: JExpr)                                    // r?.toLowerCase()
    | JQuantifier(every: bool, arr: JExpr, bound: Name, body: JExpr) // a?.some((x) => p), a?.every((x) => p)
    | JSameIds(a: JExpr, b: JExpr, ids: seq<string>)         // allFieldsEqual(a, b, [..])
    | JTest(kind: string, param: string, arg: JExpr)         // new RegExp(p).test(x), z.string().email()...

  datatype Search = Includes | StartsWith | EndsWith

  datatype Outcome = Throws | Value(v: Val)

  type Vars = map<Name, Val>

  function Prop(v: Val, field: string): Val {
    match v
    case VObj(_, props) => if field in props then props[field] else Undef
    case VStr(s) => if field == "length" then VNum(|s|) else Undef
    case VArr(_, elems) => if field == "length" then VNum(|elems|) else Undef
    case _ => Undef
  }

  predicate LooseEqual(h: Host, a: Val, b: Val) {
    if a.Nullish() || b.Nullish() then a.Nullish() && b.Nullish()
    else if a.VArr? && b.VArr? then a.arrayId == b.arrayId != 0
    else if a.VObj? && b.VObj? then a.objectId == b.objectId
    else if (a.VBool? && b.VBool?) || (a.VNum? && b.VNum?) || (a.VStr? && b.VStr?) then a == b
    else h.coerceEqual(a, b)
  }

  /** Strict equality, which `includes` and `allFieldsEqual` use too. */
  predicate StrictEqual(a: Val, b: Val) {
    if a.VArr? && b.VArr? then a.arrayId == b.arrayId != 0
    else if a.VObj? && b.VObj? then a.objectId == b.objectId
    else a == b
  }

  predicate Relates(h: Host, op: BinOp, a: Val, b: Val) {
    if a.VNum? && b.VNum? then
      match op
      case OpLt => a.n < b.n
      case OpLe => a.n <= b.n
      case OpGt => a.n > b.n
      case OpGe => a.n >= b.n
      case _ => h.relate(op, a, b)
    else h.relate(op, a, b)
  }

  predicate StringSearch(m: Search, s: string, x: string) {
    match m
    case Includes => exists i | 0 <= i <= |s| :: x <= s[i..]
    case StartsWith => x <= s
    case EndsWith => |x| <= |s| && s[|s| - |x|..] == x
  }

  predicate SameIds(a: Val, b: Val, ids: seq<string>) {
    (a.VObj? || a.VArr?) && (b.VObj? || b.VArr?)
    && forall f | f in ids :: StrictEqual(Prop(a, f), Prop(b, f))
  }

  function SearchIn(h: Host, m: Search, recv: Val, x: Val): Outcome {
    match recv
    case VStr(s) => Value(VBool(StringSearch(m, s, if x.VStr? then x.s else h.text(x))))
    case VArr(_, elems) =>
      if m.Includes? then Value(VBool(exists i | 0 <= i < |elems| :: StrictEqual(elems[i], x))) else Throws
    case _ => if recv.Nullish() then Value(Undef) else Throws
  }

  function Eval(h: Host, e: JExpr, vars: Vars): Outcome
    decreases e, 0
  {
    match e
    case JConst(v) => Value(v)
    case JVar(name) => if name in vars then Value(vars[name]) else Throws
    case JField(o, f) =>
      (match Eval(h, o, vars)
       case Throws => Throws
       case Value(v) => if v.Nullish() then Throws else Value(Prop(v, f)))
    case JOptField(o, f) =>
      (match Eval(h, o, vars)
       case Throws => Throws
       case Value(v) => Value(Prop(v, f)))
    case JCoalesce(a, b) =>
      (match Eval(h, a, vars)
       case Throws => Throws
       case Value(v) => if v.Nullish() then Eval(h, b, vars) else Value(v))
    case JNot(a) =>
      (match Eval(h, a, vars)
       case Throws => Throws
       case Value(v) => Value(VBool(!v.Truthy())))
    case JOp(op, a, b) =>
      (match Eval(h, a, vars)
       case Throws => Throws
       case Value(v) =>
         if op.OpAnd? && !v.Truthy() then Value(v)
         else if op.OpOr? && v.Truthy() then Value(v)
         else
           match Eval(h, b, vars)
           case Throws => Throws
           case Value(w) =>
             if op.OpAnd? || op.OpOr? then Value(w)
             else if op.OpEq? then Value(VBool(LooseEqual(h, v, w)))
             else if op.OpNe? then Value(VBool(!LooseEqual(h, v, w)))
             else Value(VBool(Relates(h, op, v, w))))
    case JIs(a, same, c) =>
      (match Eval(h, a, vars)
       case Throws => Throws
       case Value(v) => Value(VBool(StrictEqual(v, c) == same)))
    case JDefined(p, yes, no) =>
      (match Eval(h, p, vars)
       case Throws => Throws
       case Value(v) => if v.Undef? then Eval(h, no, vars) else Eval(h, yes, vars))
    case JArray(items) =>
      (match EvalAll(h, items, vars)
       case None => Throws
       case Some(vs) => Value(VArr(0, vs)))
    case JSearch(m, r, x) =>
      (match Eval(h, r, vars)
       case Throws => Throws
       case Value(v) =>
         if v.Nullish() then Value(Undef)
         else
           match Eval(h, x, vars)
           case Throws => Throws
           case Value(w) => SearchIn(h, m, v, w))
    case JLower(r) =>
      (match Eval(h, r, vars)
       case Throws => Throws
       case Value(v) => if v.Nullish() then Value(Undef) else if v.VStr? then Value(VStr(h.lower(v.s))) else Throws)
    case JQuantifier(every, a, x, body) =>
      (match Eval(h, a, vars)
       case Throws => Throws
       case Value(v) =>
         if v.Nullish() then Value(Undef)
         else if v.VArr? then Loop(h, every, v.elems, x, body, vars)
         else Throws)
    case JSameIds(a, b, ids) =>
      (match Eval(h, a, vars)
       case Throws => Throws
       case Value(v) =>
         match Eval(h, b, vars)
         case Throws => Throws
         case Value(w) => Value(VBool(SameIds(v, w, ids))))
    case JTest(kind, param, a) =>
      (match Eval(h, a, vars)
       case Throws => Throws
       case Value(v) => Value(VBool(h.test(kind, param, v))))
  }

  function EvalAll(h: Host, es: seq<JExpr>, vars: Vars): Option<seq<Val>>
    decreases es, 0
  {
    if es == [] then Some([])
    else
      match Eval(h, es[0], vars)
      case Throws => None
      case Value(v) =>
        match EvalAll(h, es[1..], vars)
        case None => None
        case Some(vs) => Some([v] + vs)
  }

  /** `some` stops at the first truthy result and `every` at the first falsy one. */
  function Loop(h: Host, every: bool, elems: seq<Val>, x: Name, body: JExpr, vars: Vars): Outcome
    decreases body, 1 + |elems|
  {
    if elems == [] then Value(VBool(every))
    else
      match Eval(h, body, vars[x := elems[0]])
      case Throws => Throws
      case Value(v) =>
        if v.Truthy() != every then Value(VBool(!every)) else Loop(h, every, elems[1..], x, body, vars)
  }

  // ----- steps of evaluation -----

  lemma EqualityEval(h: Host, vars: Vars, x: JExpr, y: JExpr)
    requires Eval(h, x, vars).Value? && Eval(h, y, vars).Value?
    ensures Eval(h, JOp(OpEq, x, y), vars) == Value(VBool(LooseEqual(h, Eval(h, x, vars).v, Eval(h, y, vars).v)))
    ensures Eval(h, JOp(OpNe, x, y), vars) == Value(VBool(!LooseEqual(h, Eval(h, x, vars).v, Eval(h, y, vars).v)))
  {
  }

  lemma RelationEval(h: Host, vars: Vars, op: BinOp, x: JExpr, y: JExpr, v: Val, w: Val)
    requires op.OpLt? || op.OpLe? || op.OpGt? || op.OpGe?
    requires Eval(h, x, vars) == Value(v) && Eval(h, y, vars) == Value(w)
    ensures Eval(h, JOp(op, x, y), vars) == Value(VBool(Relates(h, op, v, w)))
  {
  }

  lemma SearchEval(h: Host, vars: Vars, k: Search, x: JExpr, y: JExpr)
    requires Eval(h, x, vars).Value? && Eval(h, y, vars).Value?
    ensures var v, w := Eval(h, x, vars).v, Eval(h, y, vars).v;
      Eval(h, JSearch(k, x, y), vars) == if v.Nullish() then Value(Undef) else SearchIn(h, k, v, w)
  {
    assert Eval(h, x, vars) == Value(Eval(h, x, vars).v) && Eval(h, y, vars) == Value(Eval(h, y, vars).v);
  }

  lemma QuantifierEval(h: Host, every: bool, list: JExpr, x: Name, body: JExpr, vars: Vars)
    requires Eval(h, list, vars).Value?
    ensures var v := Eval(h, list, vars).v;
      Eval(h, JQuantifier(every, list, x, body), vars)
      == if v.Nullish() then Value(Undef) else if v.VArr? then Loop(h, every, v.elems, x, body, vars) else Throws
  {
  }

  lemma OrFalse(h: Host, vars: Vars, x: JExpr)
    requires Eval(h, x, vars).Value?
    ensures var v := Eval(h, x, vars).v;
      Eval(h, JCoalesce(x, JConst(VBool(false))), vars) == Value(if v.Nullish() then VBool(false) else v)
  {
  }

  // ----- variables that matter -----

  function Free(e: JExpr): set<Name>
    decreases e, 1
  {
    match e
    case JConst(_) => {}
    case JVar(name) => {name}
    case JField(o, _) => Free(o)
    case JOptField(o, _) => Free(o)
    case JCoalesce(a, b) => Free(a) + Free(b)
    case JNot(a) => Free(a)
    case JOp(_, a, b) => Free(a) + Free(b)
    case JIs(a, _, _) => Free(a)
    case JDefined(p, yes, no) => Free(p) + Free(yes) + Free(no)
    case JArray(items) => FreeAll(items)
    case JSearch(_, r, x) => Free(r) + Free(x)
    case JLower(r) => Free(r)
    case JQuantifier(_, a, x, body) => Free(a) + (Free(body) - {x})
    case JSameIds(a, b, _) => Free(a) + Free(b)
    case JTest(_, _, a) => Free(a)
  }

  function FreeAll(es: seq<JExpr>): set<Name>
    decreases es, 0
  {
    if es == [] then {} else Free(es[0]) + FreeAll(es[1..])
  }

  predicate AgreeOn(names: set<Name>, v: Vars, w: Vars) {
    forall x | x in names :: (x in v <==> x in w) && (x in v ==> v[x] == w[x])
  }

  lemma OperatorIsSame(h: Host, op: BinOp, x: JExpr, y: JExpr, v: Vars, w: Vars)
    ensures Eval(h, x, v) == Eval(h, x, w) && Eval(h, y, v) == Eval(h, y, w) ==>
      Eval(h, JOp(op, x, y), v) == Eval(h, JOp(op, x, y), w)
  {
  }

  lemma SearchIsSame(h: Host, k: Search, x: JExpr, y: JExpr, v: Vars, w: Vars)
    ensures Eval(h, x, v) == Eval(h, x, w) && Eval(h, y, v) == Eval(h, y, w) ==>
      Eval(h, JSearch(k, x, y), v) == Eval(h, JSearch(k, x, y), w)
  {
  }

  lemma DefinedIsSame(h: Host, p: JExpr, yes: JExpr, no: JExpr, v: Vars, w: Vars)
    requires Eval(h, p, v) == Eval(h, p, w) && Eval(h, yes, v) == Eval(h, yes, w) && Eval(h, no, v) == Eval(h, no, w)
    ensures Eval(h, JDefined(p, yes, no), v) == Eval(h, JDefined(p, yes, no), w)
  {
  }

  lemma QuantifierIsSame(h: Host, every: bool, a: JExpr, x: Name, body: JExpr, v: Vars, w: Vars)
    requires Eval(h, a, v) == Eval(h, a, w)
    requires var arr := Eval(h, a, v);
      arr.Value? && arr.v.VArr? ==>
        Loop(h, every, arr.v.elems, x, body, v) == Loop(h, every, arr.v.elems, x, body, w)
    ensures Eval(h, JQuantifier(every, a, x, body), v) == Eval(h, JQuantifier(every, a, x, body), w)
  {
  }

  /** Evaluation depends on the free variables only. */
  lemma {:induction false} EvalFrame(h: Host, e: JExpr, v: Vars, w: Vars)
    requires AgreeOn(Free(e), v, w)
    ensures Eval(h, e, v) == Eval(h, e, w)
    decreases e, 0
  {
    match e {
      case JConst(_) | JVar(_) =>
      case JField(o, _) => EvalFrame(h, o, v, w);
      case JOptField(o, _) => EvalFrame(h, o, v, w);
      case JCoalesce(a, b) => EvalFrame(h, a, v, w); EvalFrame(h, b, v, w);
      case JNot(a) => EvalFrame(h, a, v, w);
      case JOp(op, a, b) => EvalFrame(h, a, v, w); EvalFrame(h, b, v, w); OperatorIsSame(h, op, a, b, v, w);
      case JIs(a, _, _) => EvalFrame(h, a, v, w);
      case JDefined(p, yes, no) =>
        EvalFrame(h, p, v, w);
        EvalFrame(h, yes, v, w);
        EvalFrame(h, no, v, w);
        DefinedIsSame(h, p, yes, no, v, w);
      case JArray(items) => EvalAllFrame(h, items, v, w);
      case JSearch(k, r, x) => EvalFrame(h, r, v, w); EvalFrame(h, x, v, w); SearchIsSame(h, k, r, x, v, w);
      case JLower(r) => EvalFrame(h, r, v, w);
      case JQuantifier(every, a, x, body) =>
        EvalFrame(h, a, v, w);
        var arr := Eval(h, a, v);
        if arr.Value? && arr.v.VArr? {
          LoopFrame(h, every, arr.v.elems, x, body, v, w);
        }
        QuantifierIsSame(h, every, a, x, body, v, w);
      case JSameIds(a, b, _) => EvalFrame(h, a, v, w); EvalFrame(h, b, v, w);
      case JTest(_, _, a) => EvalFrame(h, a, v, w);
    }
  }

  lemma {:induction false} EvalAllFrame(h: Host, es: seq<JExpr>, v: Vars, w: Vars)
    requires AgreeOn(FreeAll(es), v, w)
    ensures EvalAll(h, es, v) == EvalAll(h, es, w)
    decreases es, 0
  {
    if es == [] {
    } else {
      EvalFrame(h, es[0], v, w);
      EvalAllFrame(h, es[1..], v, w);
    }
  }

  lemma {:induction false} LoopFrame(h: Host, every: bool, elems: seq<Val>, x: Name, body: JExpr, v: Vars, w: Vars)
    requires AgreeOn(Free(body) - {x}, v, w)
    ensures Loop(h, every, elems, x, body, v) == Loop(h, every, elems, x, body, w)
    decreases body, 1 + |elems|
  {
    if elems == [] {
    } else {
      EvalFrame(h, body, v[x := elems[0]], w[x := elems[0]]);
      LoopFrame(h, every, elems[1..], x, body, v, w);
    }
  }

  predicate BodyIsSame(h: Host, x: Name, body: JExpr, elem: Val, v: Vars, w: Vars) {
    Eval(h, body, v[x := elem]) == Eval(h, body, w[x := elem])
  }

  lemma {:induction false} LoopIsSame(h: Host, every: bool, elems: seq<Val>, x: Name, body: JExpr, v: Vars, w: Vars)
    requires forall i | 0 <= i < |elems| :: BodyIsSame(h, x, body, elems[i], v, w)
    ensures Loop(h, every, elems, x, body, v) == Loop(h, every, elems, x, body, w)
  {
    if elems == [] {
    } else {
      assert BodyIsSame(h, x, body, elems[0], v, w);
      forall i | 0 <= i < |elems[1..]| ensures BodyIsSame(h, x, body, elems[1..][i], v, w) {
        assert elems[1..][i] == elems[i + 1];
      }
      LoopIsSame(h, every, elems[1..], x, body, v, w);
    }
  }

  /** What `some` and `every` compute when the body never throws; `truths` are the body's results. */
  lemma {:induction false} LoopMeaning(
      h: Host, every: bool, elems: seq<Val>, x: Name, body: JExpr, vars: Vars, truths: seq<bool>)
    requires |truths| == |elems|
    requires forall i | 0 <= i < |elems| :: BodyYields(h, body, vars[x := elems[i]], truths[i])
    ensures Loop(h, every, elems, x, body, vars)
         == Value(VBool(if every then false !in truths else true in truths))
  {
    if elems == [] {
    } else {
      assert BodyYields(h, body, vars[x := elems[0]], truths[0]);
      forall i | 0 <= i < |elems[1..]| ensures BodyYields(h, body, vars[x := elems[1..][i]], truths[1..][i]) {
        assert elems[1..][i] == elems[i + 1] && truths[1..][i] == truths[i + 1];
      }
      LoopMeaning(h, every, elems[1..], x, body, vars, truths[1..]);
      assert truths == [truths[0]] + truths[1..];
    }
  }

  predicate BodyYields(h: Host, body: JExpr, vars: Vars, truth: bool) {
    var r := Eval(h, body, vars);
    r.Value? && r.v.Truthy() == truth
  }
}
