/**
 * Expressions of the ZModel language and the tokens they are written with. The operators come with the printer's
 * priority table and with the grammar layer that parses them.
 */
module ZModelSyntax {

  /** Binary operators; the last three are the collection predicates `?[..]`, `![..]` and `^[..]`. */
  datatype BinOp =
    | OpOr | OpAnd | OpEq | OpNe | OpGt | OpLt | OpGe | OpLe | OpIn
    | OpSome | OpEvery | OpNone

  datatype Literal = NumberLiteral(number: int) | StringLiteral(text: string) | BooleanLiteral(truth: bool)

  /** A `name: value` pair: a field of an object, or a named argument of a reference. */
  datatype Named = Named(name: string, value: Expr)

  datatype Expr =
    | This
    | Null
    | Lit(literal: Literal)
    | Array(items: seq<Expr>)
    | Object(fields: seq<Named>)
    | Ref(target: string, refArgs: seq<Named>)
    | Invoke(function_: string, args: seq<Expr>)
    | Member(operand: Expr, member: string)
    | Not(negated: Expr)
    | Binary(op: BinOp, left: Expr, right: Expr)

  datatype Token =
    | TName(name: string) | TNumber(number: int) | TString(text: string) | TBoolean(truth: bool)
    | TThis | TNull
    | TOp(op: BinOp)
    | LParen | RParen | LBracket | RBracket | LBrace | RBrace
    | Comma | Colon | Dot

  /** The exclamation mark is one token, both the unary `!` and the `![..]` predicate. */
  const BANG := TOp(OpEvery)

  predicate IsCollectionPredicate(op: BinOp) {
    op.OpSome? || op.OpEvery? || op.OpNone?
  }

  /** The table `BinaryExprOperatorPriority`. */
  function Priority(op: BinOp): (p: nat)
    ensures 1 <= p <= 5
  {
    match op
    case OpOr | OpAnd => 1
    case OpEq | OpNe => 2
    case OpGt | OpLt | OpGe | OpLe => 3
    case OpIn => 4
    case OpSome | OpEvery | OpNone => 5
  }

  // The left-associative layers of the grammar, loosest first; above them come member access and primaries.
  const LOGICAL: nat := 1
  const EQUALITY: nat := 2
  const COMPARISON: nat := 3
  const IN_LAYER: nat := 4
  const COLLECTION: nat := 5
  const MEMBER_LAYER: nat := 6

  /** Which operators each grammar rule lists. */
  predicate InLayer(layer: nat, op: BinOp) {
    if layer == LOGICAL then op in {OpAnd, OpOr}
    else if layer == EQUALITY then op in {OpEq, OpNe}
    else if layer == COMPARISON then op in {OpGt, OpLt, OpGe, OpLe}
    else if layer == IN_LAYER then op == OpIn
    else layer == COLLECTION && op in {OpSome, OpEvery, OpNone}
  }

  /** The priority table and the grammar agree operator by operator. */
  lemma PriorityIsLayer(op: BinOp, layer: nat)
    ensures InLayer(layer, op) <==> Priority(op) == layer
  {
    match op {
      case OpOr | OpAnd | OpEq | OpNe =>
      case OpGt | OpLt | OpGe | OpLe =>
      case OpIn | OpSome | OpEvery | OpNone =>
    }
  }
}
