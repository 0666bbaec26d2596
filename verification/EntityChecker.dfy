/** The whole function generated for a model or a field: deny rules first, then allow rules, then a default. */
module EntityChecker {
  import opened ZModelSyntax
  import opened JavaScript
  import opened ExpressionTransformer
  import opened PolicyMeaning

  datatype Statement =
    | IfReturn(test: JExpr, answer: bool)
    | Return(answer: bool)

  /** Runs statements up to the first `return`; falling off the end yields undefined. */
  function Run(h: Host, body: seq<Statement>, vars: Vars): Outcome {
    if body == [] then Value(Undef)
    else
      match body[0]
      case Return(answer) => Value(VBool(answer))
      case IfReturn(test, answer) =>
        match Eval(h, test, vars)
        case Throws => Throws
        case Value(v) => if v.Truthy() then Value(VBool(answer)) else Run(h, body[1..], vars)
  }

  /** One `if (rule) { return answer; }` for each rule. */
  function CompileRules(s: Schema, model: string, post: bool, rules: seq<Expr>, answer: bool): Result<seq<Statement>> {
    if rules == [] then Ok([])
    else
      var code :- Transform(s, Scope(model, model), PolicyOptions(post), rules[0], false);
      var rest :- CompileRules(s, model, post, rules[1..], answer);
      Ok([IfReturn(code, answer)] + rest)
  }

  /** After an update everything not denied is allowed; before, so is a field that has no allow rule. */
  function DefaultAnswer(post: bool, forField: bool, allows: seq<Expr>): bool {
    post || (forField && allows == [])
  }

  function Checker(
      s: Schema, model: string, post: bool, forField: bool, allows: seq<Expr>, denies: seq<Expr>)
    : Result<seq<Statement>>
  {
    var denying :- CompileRules(s, model, post, denies, false);
    var allowing :- CompileRules(s, model, post, allows, true);
    Ok(denying + allowing + [Return(DefaultAnswer(post, forField, allows))])
  }

  // ----- what it decides -----

  ghost predicate Holds(s: Schema, model: string, rule: Expr, m: Moment) {
    Meaning(s, Scope(model, model), rule, m).Truthy()
  }

  ghost predicate AnyHolds(s: Schema, model: string, rules: seq<Expr>, m: Moment) {
    exists i | 0 <= i < |rules| :: Holds(s, model, rules[i], m)
  }

  ghost predicate GoodRules(s: Schema, model: string, post: bool, rules: seq<Expr>, m: Moment) {
    forall i | 0 <= i < |rules| ::
      WellTyped(s, Scope(model, model), post, rules[i]) && Settled(s, Scope(model, model), rules[i], m)
  }

  lemma RunStep(h: Host, test: JExpr, answer: bool, rest: seq<Statement>, next: seq<Statement>, vars: Vars)
    requires Eval(h, test, vars).Value?
    ensures Run(h, ([IfReturn(test, answer)] + rest) + next, vars)
         == if Eval(h, test, vars).v.Truthy() then Value(VBool(answer)) else Run(h, rest + next, vars)
  {
    assert (([IfReturn(test, answer)] + rest) + next)[1..] == rest + next;
  }

  lemma NoRulesPass(s: Schema, model: string, post: bool, answer: bool, next: seq<Statement>)
    ensures CompileRules(s, model, post, [], answer) == Ok([])
    ensures [] + next == next
  {
  }

  /** A run of guards answers if one of their rules holds, and otherwise goes on to what follows. */
  lemma {:induction false} RulesDecide(
      s: Schema, model: string, post: bool, rules: seq<Expr>, answer: bool, next: seq<Statement>,
      h: Host, vars: Vars, m: Moment)
    requires Represents(s, Scope(model, model), PolicyOptions(post), vars, m)
    requires GoodRules(s, model, post, rules, m)
    ensures var code := CompileRules(s, model, post, rules, answer);
      && code.Ok?
      && Run(h, code.value + next, vars)
         == if AnyHolds(s, model, rules, m) then Value(VBool(answer)) else Run(h, next, vars)
  {
    if rules == [] {
      NoRulesPass(s, model, post, answer, next);
    } else {
      FirstDecides(s, model, post, rules[0], h, vars, m);
      RulesDecide(s, model, post, rules[1..], answer, next, h, vars, m);
      RunStep(h, Transform(s, Scope(model, model), PolicyOptions(post), rules[0], false).value, answer,
              CompileRules(s, model, post, rules[1..], answer).value, next, vars);
      AnyHoldsStep(s, model, rules, m);
    }
  }

  lemma FirstDecides(s: Schema, model: string, post: bool, rule: Expr, h: Host, vars: Vars, m: Moment)
    requires Represents(s, Scope(model, model), PolicyOptions(post), vars, m)
    requires WellTyped(s, Scope(model, model), post, rule) && Settled(s, Scope(model, model), rule, m)
    ensures var code := Transform(s, Scope(model, model), PolicyOptions(post), rule, false);
      && code.Ok?
      && Eval(h, code.value, vars).Value?
      && Eval(h, code.value, vars).v.Truthy() == Holds(s, model, rule, m)
  {
    PolicyDecides(s, model, post, rule, h, vars, m);
  }

  lemma AnyHoldsStep(s: Schema, model: string, rules: seq<Expr>, m: Moment)
    requires rules != []
    ensures AnyHolds(s, model, rules, m) <==> Holds(s, model, rules[0], m) || AnyHolds(s, model, rules[1..], m)
  {
    if i :| 0 < i < |rules| && Holds(s, model, rules[i], m) {
      assert Holds(s, model, rules[1..][i - 1], m);
    }
    if i :| 0 <= i < |rules| - 1 && Holds(s, model, rules[1..][i], m) {
      assert Holds(s, model, rules[i + 1], m);
    }
  }

  /**
   * The checker never throws and answers true exactly if no deny rule holds and some allow rule does or none is needed.
   * After an update, allow rules thus decide nothing.
   */
  lemma CheckerDecides(
      s: Schema, model: string, post: bool, forField: bool, allows: seq<Expr>, denies: seq<Expr>,
      h: Host, vars: Vars, m: Moment)
    requires Represents(s, Scope(model, model), PolicyOptions(post), vars, m)
    requires GoodRules(s, model, post, allows, m) && GoodRules(s, model, post, denies, m)
    ensures var code := Checker(s, model, post, forField, allows, denies);
      && code.Ok?
      && Run(h, code.value, vars)
         == Value(VBool(!AnyHolds(s, model, denies, m)
                        && (AnyHolds(s, model, allows, m) || post || (forField && allows == []))))
  {
    var end := [Return(DefaultAnswer(post, forField, allows))];
    RulesDecide(s, model, post, allows, true, end, h, vars, m);
    var allowing := CompileRules(s, model, post, allows, true).value;
    RulesDecide(s, model, post, denies, false, allowing + end, h, vars, m);
    var denying := CompileRules(s, model, post, denies, false).value;
    assert denying + (allowing + end) == denying + allowing + end;
  }
}
