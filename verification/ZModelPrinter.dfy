/** The expression part of the ZModel code generator, printing to tokens. */
module ZModelPrinter {
  import opened ZModelSyntax

  predicate NeedsLeftParens(op: BinOp, left: Expr) {
    left.Binary? && Priority(left.op) < Priority(op)
  }

  predicate NeedsRightParens(op: BinOp, right: Expr) {
    !IsCollectionPredicate(op) && right.Binary? && Priority(right.op) <= Priority(op)
  }

  function PrintLiteral(l: Literal): Token {
    match l
    case NumberLiteral(n) => TNumber(n)
    case StringLiteral(s) => TString(s)
    case BooleanLiteral(b) => TBoolean(b)
  }

  function Print(e: Expr): seq<Token>
    decreases e, 1
  {
    match e
    case This => [TThis]
    case Null => [TNull]
    case Lit(l) => [PrintLiteral(l)]
    case Array(items) => [LBracket] + PrintItems(items) + [RBracket]
    case Object(fields) => [LBrace] + PrintNamed(fields) + [RBrace]
    case Ref(name, args) =>
      [TName(name)] + if args == [] then [] else [LParen] + PrintNamed(args) + [RParen]
    case Invoke(name, args) => [TName(name), LParen] + PrintItems(args) + [RParen]
    case Member(x, name) => Print(x) + [Dot, TName(name)]
    case Not(x) => [BANG] + Print(x)
    case Binary(op, l, r) => PrintLeft(op, l) + [TOp(op)] + PrintRight(op, r)
  }

  function PrintLeft(op: BinOp, l: Expr): seq<Token>
    decreases l, 2
  {
    if NeedsLeftParens(op, l) then [LParen] + Print(l) + [RParen] else Print(l)
  }

  function PrintRight(op: BinOp, r: Expr): seq<Token>
    decreases r, 2
  {
    if IsCollectionPredicate(op) then [LBracket] + Print(r) + [RBracket]
    else if NeedsRightParens(op, r) then [LParen] + Print(r) + [RParen]
    else Print(r)
  }

  function PrintItems(items: seq<Expr>): seq<Token>
    decreases items, 0
  {
    if items == [] then []
    else if |items| == 1 then Print(items[0])
    else Print(items[0]) + [Comma] + PrintItems(items[1..])
  }

  function PrintNamed(fields: seq<Named>): seq<Token>
    decreases fields, 0
  {
    if fields == [] then []
    else
      var first := [TName(fields[0].name), Colon] + Print(fields[0].value);
      if |fields| == 1 then first else first + [Comma] + PrintNamed(fields[1..])
  }
}
