/**
 * The grammar rules from Expression down to PrimaryExpr, as a predictive parser that keeps the longest match. Every
 * rule returns the rest of the tokens, and none consumes more than there are.
 */
module ZModelParser {
  import opened ZModelSyntax

  datatype Parsed<+T> = Fail | Ok(value: T, rest: seq<Token>) {
    predicate IsFailure() {
      Fail?
    }

    function PropagateFailure<U>(): Parsed<U>
      requires Fail?
    {
      Fail
    }

    function Extract(): (T, seq<Token>)
      requires Ok?
    {
      (value, rest)
    }
  }

  predicate Starts(ts: seq<Token>, t: Token) {
    |ts| > 0 && ts[0] == t
  }

  /** `name :`, the two tokens that announce a named argument. */
  predicate StartsNamed(ts: seq<Token>) {
    |ts| > 1 && ts[0].TName? && ts[1] == Colon
  }

  function ParseExpr(ts: seq<Token>): (r: Parsed<Expr>)
    ensures r.Ok? ==> |r.rest| < |ts|
    decreases |ts|, 15
  {
    ParseLayer(LOGICAL, ts)
  }

  /** One layer: an operand of the next layer, then any number of this layer's operators. */
  function ParseLayer(layer: nat, ts: seq<Token>): (r: Parsed<Expr>)
    requires 1 <= layer <= MEMBER_LAYER
    ensures r.Ok? ==> |r.rest| < |ts|
    decreases |ts|, 14 - layer
  {
    if layer == MEMBER_LAYER then
      var (x, rest) :- ParsePrimary(ts);
      MemberLoop(x, rest)
    else
      var (x, rest) :- ParseLayer(layer + 1, ts);
      LayerLoop(layer, x, rest)
  }

  function LayerLoop(layer: nat, acc: Expr, ts: seq<Token>): (r: Parsed<Expr>)
    requires 1 <= layer <= COLLECTION
    ensures r.Ok? ==> |r.rest| <= |ts|
    decreases |ts|, 0
  {
    if |ts| > 0 && ts[0].TOp? && InLayer(layer, ts[0].op) then
      if layer == COLLECTION then
        if !Starts(ts[1..], LBracket) then Fail
        else
          var (right, rest) :- ParseExpr(ts[2..]);
          if !Starts(rest, RBracket) then Fail
          else LayerLoop(layer, Binary(ts[0].op, acc, right), rest[1..])
      else
        var (right, rest) :- ParseLayer(layer + 1, ts[1..]);
        LayerLoop(layer, Binary(ts[0].op, acc, right), rest)
    else
      Ok(acc, ts)
  }

  function MemberLoop(acc: Expr, ts: seq<Token>): (r: Parsed<Expr>)
    ensures r.Ok? ==> |r.rest| <= |ts|
    decreases |ts|, 0
  {
    if Starts(ts, Dot) then
      if |ts| > 1 && ts[1].TName? then MemberLoop(Member(acc, ts[1].name), ts[2..]) else Fail
    else
      Ok(acc, ts)
  }

  function ParsePrimary(ts: seq<Token>): (r: Parsed<Expr>)
    ensures r.Ok? ==> |r.rest| < |ts|
    decreases |ts|, 2
  {
    if ts == [] then Fail
    else
      match ts[0]
      case TThis => Ok(This, ts[1..])
      case TNull => Ok(Null, ts[1..])
      case TNumber(n) => Ok(Lit(NumberLiteral(n)), ts[1..])
      case TString(s) => Ok(Lit(StringLiteral(s)), ts[1..])
      case TBoolean(b) => Ok(Lit(BooleanLiteral(b)), ts[1..])
      case LParen =>
        var (x, rest) :- ParseExpr(ts[1..]);
        if Starts(rest, RParen) then Ok(x, rest[1..]) else Fail
      case LBracket =>
        if Starts(ts[1..], RBracket) then Ok(Array([]), ts[2..])
        else
          var (items, rest) :- ParseItems(ts[1..]);
          if Starts(rest, RBracket) then Ok(Array(items), rest[1..]) else Fail
      case LBrace =>
        if Starts(ts[1..], RBrace) then Ok(Object([]), ts[2..])
        else
          var (fields, rest) :- ParseFields(ts[1..]);
          if Starts(rest, RBrace) then Ok(Object(fields), rest[1..]) else Fail
      case TOp(OpEvery) =>
        var (x, rest) :- ParseLayer(MEMBER_LAYER, ts[1..]);
        Ok(Not(x), rest)
      case TName(name) =>
        if !Starts(ts[1..], LParen) then Ok(Ref(name, []), ts[1..])
        else if StartsNamed(ts[2..]) then
          var (args, rest) :- ParseRefArgs(ts[2..]);
          if Starts(rest, RParen) then Ok(Ref(name, args), rest[1..]) else Fail
        else if Starts(ts[2..], RParen) then Ok(Invoke(name, []), ts[3..])
        else
          var (args, rest) :- ParseItems(ts[2..]);
          if Starts(rest, RParen) then Ok(Invoke(name, args), rest[1..]) else Fail
      case _ => Fail
  }

  /** Expression (',' Expression)* */
  function ParseItems(ts: seq<Token>): (r: Parsed<seq<Expr>>)
    ensures r.Ok? ==> |r.rest| < |ts| && r.value != []
    decreases |ts|, 20
  {
    var (x, rest) :- ParseExpr(ts);
    if Starts(rest, Comma) then
      var (xs, rest') :- ParseItems(rest[1..]);
      Ok([x] + xs, rest')
    else
      Ok([x], rest)
  }

  /** ReferenceArg (',' ReferenceArg)* */
  function ParseRefArgs(ts: seq<Token>): (r: Parsed<seq<Named>>)
    ensures r.Ok? ==> |r.rest| < |ts| && r.value != []
    decreases |ts|, 20
  {
    if !StartsNamed(ts) then Fail
    else
      var (x, rest) :- ParseExpr(ts[2..]);
      if Starts(rest, Comma) then
        var (xs, rest') :- ParseRefArgs(rest[1..]);
        Ok([Named(ts[0].name, x)] + xs, rest')
      else
        Ok([Named(ts[0].name, x)], rest)
  }

  /** The fields of an object: names or quoted names, and a trailing comma is allowed. */
  function ParseFields(ts: seq<Token>): (r: Parsed<seq<Named>>)
    ensures r.Ok? ==> |r.rest| < |ts| && r.value != []
    decreases |ts|, 20
  {
    if !(|ts| > 1 && (ts[0].TName? || ts[0].TString?) && ts[1] == Colon) then Fail
    else
      var (x, rest) :- ParseExpr(ts[2..]);
      var field := Named(if ts[0].TName? then ts[0].name else ts[0].text, x);
      if Starts(rest, Comma) then
        if Starts(rest[1..], RBrace) then Ok([field], rest[1..])
        else
          var (xs, rest') :- ParseFields(rest[1..]);
          Ok([field] + xs, rest')
      else
        Ok([field], rest)
  }
}
