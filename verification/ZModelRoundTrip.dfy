/** Printing and parsing ZModel expressions: what survives, exactly when, and with how few parentheses. */
module ZModelRoundTrip {
  import opened ZModelSyntax
  import opened ZModelPrinter
  import opened ZModelParser

  /** The layer of the grammar whose rule builds this node. */
  function Level(e: Expr): (k: nat)
    ensures 1 <= k <= 7
  {
    match e
    case Binary(op, _, _) => Priority(op)
    case Not(_) | Member(_, _) => MEMBER_LAYER
    case _ => 7
  }

  // A caller can check these before printing: no operator under `!`, and no operator or `!` under `.`.

  predicate Faithful(e: Expr)
    decreases e, 1
  {
    match e
    case This | Null | Lit(_) => true
    case Array(items) => FaithfulItems(items)
    case Object(fields) => FaithfulNamed(fields)
    case Ref(_, args) => FaithfulNamed(args)
    case Invoke(_, args) => FaithfulItems(args)
    case Member(x, _) => !x.Binary? && !x.Not? && Faithful(x)
    case Not(x) => !x.Binary? && Faithful(x)
    case Binary(_, l, r) => Faithful(l) && Faithful(r)
  }

  predicate FaithfulItems(items: seq<Expr>)
    decreases items, 0
  {
    items != [] ==> Faithful(items[0]) && FaithfulItems(items[1..])
  }

  predicate FaithfulNamed(fields: seq<Named>)
    decreases fields, 0
  {
    fields != [] ==> Faithful(fields[0].value) && FaithfulNamed(fields[1..])
  }

  // ----- printing in front of a suffix -----

  function Emit(e: Expr, s: seq<Token>): seq<Token>
    decreases e, 1
  {
    match e
    case This => [TThis] + s
    case Null => [TNull] + s
    case Lit(l) => [PrintLiteral(l)] + s
    case Array(items) => [LBracket] + EmitItems(items, [RBracket] + s)
    case Object(fields) => [LBrace] + EmitNamed(fields, [RBrace] + s)
    case Ref(name, args) =>
      [TName(name)] + if args == [] then s else [LParen] + EmitNamed(args, [RParen] + s)
    case Invoke(name, args) => [TName(name)] + ([LParen] + EmitItems(args, [RParen] + s))
    case Member(x, name) => Emit(x, [Dot] + ([TName(name)] + s))
    case Not(x) => [BANG] + Emit(x, s)
    case Binary(op, l, r) => EmitLeft(op, l, [TOp(op)] + EmitRight(op, r, s))
  }

  function EmitLeft(op: BinOp, l: Expr, s: seq<Token>): seq<Token>
    decreases l, 2
  {
    if NeedsLeftParens(op, l) then [LParen] + Emit(l, [RParen] + s) else Emit(l, s)
  }

  function EmitRight(op: BinOp, r: Expr, s: seq<Token>): seq<Token>
    decreases r, 2
  {
    if IsCollectionPredicate(op) then [LBracket] + Emit(r, [RBracket] + s)
    else if NeedsRightParens(op, r) then [LParen] + Emit(r, [RParen] + s)
    else Emit(r, s)
  }

  function EmitItems(items: seq<Expr>, s: seq<Token>): seq<Token>
    decreases items, 0
  {
    if items == [] then s
    else if |items| == 1 then Emit(items[0], s)
    else Emit(items[0], [Comma] + EmitItems(items[1..], s))
  }

  function EmitNamed(fields: seq<Named>, s: seq<Token>): seq<Token>
    decreases fields, 0
  {
    if fields == [] then s
    else
      [TName(fields[0].name)] + ([Colon] +
        Emit(fields[0].value, if |fields| == 1 then s else [Comma] + EmitNamed(fields[1..], s)))
  }

  /** Closing a printed list in front of a suffix. */
  lemma CloseList(open: seq<Token>, mid: seq<Token>, close: Token, s: seq<Token>)
    ensures open + (mid + ([close] + s)) == (open + mid + [close]) + s
  {
  }

  lemma {:induction false} EmitIsPrint(e: Expr, s: seq<Token>)
    ensures Emit(e, s) == Print(e) + s
    decreases e, 2
  {
    match e {
      case This | Null | Lit(_) =>
      case Array(items) =>
        EmitItemsIsPrint(items, [RBracket] + s);
        CloseList([LBracket], PrintItems(items), RBracket, s);
      case Object(fields) =>
        EmitNamedIsPrint(fields, [RBrace] + s);
        CloseList([LBrace], PrintNamed(fields), RBrace, s);
      case Ref(name, args) => EmitRefIsPrint(name, args, s);
      case Invoke(name, args) =>
        EmitItemsIsPrint(args, [RParen] + s);
        CloseList([TName(name), LParen], PrintItems(args), RParen, s);
        assert [TName(name)] + ([LParen] + EmitItems(args, [RParen] + s))
            == [TName(name), LParen] + EmitItems(args, [RParen] + s);
      case Member(x, name) =>
        EmitIsPrint(x, [Dot] + ([TName(name)] + s));
        assert Print(x) + ([Dot] + ([TName(name)] + s)) == Print(x) + [Dot, TName(name)] + s;
      case Not(x) =>
        EmitIsPrint(x, s);
        assert [BANG] + (Print(x) + s) == [BANG] + Print(x) + s;
      case Binary(op, l, r) =>
        EmitRightIsPrint(op, r, s);
        EmitLeftIsPrint(op, l, [TOp(op)] + EmitRight(op, r, s));
        Regroup(PrintLeft(op, l), [TOp(op)], PrintRight(op, r), s);
    }
  }

  lemma Regroup(a: seq<Token>, b: seq<Token>, c: seq<Token>, d: seq<Token>)
    ensures a + (b + (c + d)) == (a + b + c) + d
  {
  }

  lemma {:induction false} EmitLeftIsPrint(op: BinOp, l: Expr, s: seq<Token>)
    ensures EmitLeft(op, l, s) == PrintLeft(op, l) + s
    decreases l, 3
  {
    EmitIsPrint(l, if NeedsLeftParens(op, l) then [RParen] + s else s);
    CloseList([LParen], Print(l), RParen, s);
  }

  lemma {:induction false} EmitRightIsPrint(op: BinOp, r: Expr, s: seq<Token>)
    ensures EmitRight(op, r, s) == PrintRight(op, r) + s
    decreases r, 3
  {
    EmitIsPrint(r, if IsCollectionPredicate(op) then [RBracket] + s
                   else if NeedsRightParens(op, r) then [RParen] + s
                   else s);
    CloseList([LBracket], Print(r), RBracket, s);
    CloseList([LParen], Print(r), RParen, s);
  }

  lemma {:induction false} EmitRefIsPrint(name: string, args: seq<Named>, s: seq<Token>)
    ensures Emit(Ref(name, args), s) == Print(Ref(name, args)) + s
    decreases Ref(name, args), 1
  {
    EmitNamedIsPrint(args, [RParen] + s);
    CloseList([LParen], PrintNamed(args), RParen, s);
    if args != [] {
      var list := [LParen] + PrintNamed(args) + [RParen];
      assert [TName(name)] + (list + s) == [TName(name)] + list + s;
    }
  }

  lemma {:induction false} EmitItemsIsPrint(items: seq<Expr>, s: seq<Token>)
    ensures EmitItems(items, s) == PrintItems(items) + s
    decreases items, 0
  {
    if |items| == 1 {
      EmitIsPrint(items[0], s);
    } else if |items| > 1 {
      EmitItemsIsPrint(items[1..], s);
      EmitIsPrint(items[0], [Comma] + EmitItems(items[1..], s));
    }
  }

  /** Printing one `name: value` and what follows, in either grouping. */
  lemma PairAssociates(name: Token, x: seq<Token>, rest: seq<Token>, s: seq<Token>)
    ensures [name] + ([Colon] + (x + s)) == ([name, Colon] + x) + s
    ensures [name] + ([Colon] + (x + ([Comma] + (rest + s)))) == (([name, Colon] + x) + [Comma] + rest) + s
  {
  }

  lemma {:induction false} EmitNamedIsPrint(fields: seq<Named>, s: seq<Token>)
    ensures EmitNamed(fields, s) == PrintNamed(fields) + s
    decreases fields, 0
  {
    if fields == [] {
    } else {
      var name, x := TName(fields[0].name), Print(fields[0].value);
      if |fields| == 1 {
        EmitIsPrint(fields[0].value, s);
        PairAssociates(name, x, [], s);
      } else {
        var rest := PrintNamed(fields[1..]);
        EmitNamedIsPrint(fields[1..], s);
        EmitIsPrint(fields[0].value, [Comma] + (rest + s));
        PairAssociates(name, x, rest, s);
      }
    }
  }

  // ----- printed expressions parse back -----

  /** No token that a rule of this layer, or of a tighter one, would go on with. */
  predicate Stops(layer: nat, s: seq<Token>) {
    |s| > 0 ==>
      s[0] != LParen && (layer <= MEMBER_LAYER ==> s[0] != Dot) && !(s[0].TOp? && Priority(s[0].op) >= layer)
  }

  lemma {:induction false} NotNamed(e: Expr, s: seq<Token>)
    requires !Starts(s, Colon)
    ensures |Emit(e, s)| > 0 && !StartsNamed(Emit(e, s))
    ensures Emit(e, s)[0] !in {RBracket, RParen, RBrace}
  {
    match e {
      case Member(x, name) => NotNamed(x, [Dot] + ([TName(name)] + s));
      case Binary(op, l, r) =>
        if !NeedsLeftParens(op, l) {
          NotNamed(l, [TOp(op)] + EmitRight(op, r, s));
        }
      case _ =>
    }
  }

  lemma {:induction false} ExprParses(e: Expr, s: seq<Token>)
    requires Faithful(e) && Stops(LOGICAL, s)
    ensures ParseExpr(Emit(e, s)) == Ok(e, s)
    decreases e, 9
  {
    LayerParses(LOGICAL, e, s);
  }

  lemma {:induction false} ParenParses(layer: nat, e: Expr, s: seq<Token>)
    requires Faithful(e) && 1 <= layer <= COLLECTION && Stops(layer + 1, s)
    ensures ParseLayer(layer, [LParen] + Emit(e, [RParen] + s)) == LayerLoop(layer, e, s)
    decreases e, 10, 7 - layer
  {
    var ts := [LParen] + Emit(e, [RParen] + s);
    if layer < COLLECTION {
      ParenParses(layer + 1, e, s);
      assert LayerLoop(layer + 1, e, s) == Ok(e, s) by {
        if |s| > 0 && s[0].TOp? { PriorityIsLayer(s[0].op, layer + 1); }
      }
    } else {
      ExprParses(e, [RParen] + s);
      assert ts[1..] == Emit(e, [RParen] + s);
      assert ([RParen] + s)[1..] == s;
      assert ParsePrimary(ts) == Ok(e, s);
      assert ParseLayer(MEMBER_LAYER, ts) == Ok(e, s);
    }
  }

  /** A printed expression followed by `s` is read as an operand of its layer, and the layer's loop goes on at `s`. */
  lemma {:induction false} LayerParses(layer: nat, e: Expr, s: seq<Token>)
    requires Faithful(e) && 1 <= layer <= COLLECTION && Level(e) >= layer && Stops(layer + 1, s)
    ensures ParseLayer(layer, Emit(e, s)) == LayerLoop(layer, e, s)
    ensures Stops(layer, s) ==> ParseLayer(layer, Emit(e, s)) == Ok(e, s)
    decreases e, 8, 7 - layer
  {
    if Level(e) > layer {
      if layer == COLLECTION {
        MemberParses(e, s);
      } else {
        LayerParses(layer + 1, e, s);
      }
    } else {
      BinaryParses(layer, e, s);
    }
    if Stops(layer, s) && |s| > 0 && s[0].TOp? {
      PriorityIsLayer(s[0].op, layer);
    }
  }

  lemma {:induction false} LeftParses(layer: nat, op: BinOp, l: Expr, s: seq<Token>)
    requires Faithful(l) && 1 <= layer <= COLLECTION && Priority(op) == layer && Stops(layer + 1, s)
    ensures ParseLayer(layer, EmitLeft(op, l, s)) == LayerLoop(layer, l, s)
    decreases l, 11
  {
    if NeedsLeftParens(op, l) {
      ParenParses(layer, l, s);
    } else {
      LayerParses(layer, l, s);
    }
  }

  lemma {:induction false} BinaryParses(layer: nat, e: Expr, s: seq<Token>)
    requires Faithful(e) && 1 <= layer <= COLLECTION && Level(e) == layer && Stops(layer + 1, s)
    ensures ParseLayer(layer, Emit(e, s)) == LayerLoop(layer, e, s)
    decreases e, 7
  {
    var Binary(op, l, r) := e;
    PriorityIsLayer(op, layer);
    var operand := EmitRight(op, r, s);
    var right := [TOp(op)] + operand;
    assert right[1..] == operand;
    LeftParses(layer, op, l, right);
    assert ParseLayer(layer, Emit(e, s)) == LayerLoop(layer, l, right);
    if IsCollectionPredicate(op) {
      ExprParses(r, [RBracket] + s);
      assert right[2..] == Emit(r, [RBracket] + s);
      assert ([RBracket] + s)[1..] == s;
    } else if NeedsRightParens(op, r) {
      ParenParses(layer + 1, r, s);
      if |s| > 0 && s[0].TOp? { PriorityIsLayer(s[0].op, layer + 1); }
    } else {
      LayerParses(layer + 1, r, s);
    }
  }

  lemma {:induction false} MemberParses(e: Expr, s: seq<Token>)
    requires Faithful(e) && Level(e) >= MEMBER_LAYER && !Starts(s, LParen) && (e.Not? ==> !Starts(s, Dot))
    ensures ParseLayer(MEMBER_LAYER, Emit(e, s)) == MemberLoop(e, s)
    decreases e, 6
  {
    match e {
      case Member(x, name) =>
        var tail := [TName(name)] + s;
        var dotted := [Dot] + tail;
        MemberParses(x, dotted);
        assert dotted[1] == TName(name) && dotted[2..] == s;
      case Not(x) =>
        var ts := Emit(e, s);
        MemberParses(x, s);
        assert ts[1..] == Emit(x, s);
      case This | Null | Lit(_) | Array(_) | Object(_) | Ref(_, _) | Invoke(_, _) => PrimaryParses(e, s);
    }
  }

  lemma {:induction false} PrimaryParses(e: Expr, s: seq<Token>)
    requires Faithful(e) && Level(e) == 7 && !Starts(s, LParen)
    ensures ParsePrimary(Emit(e, s)) == Ok(e, s)
    decreases e, 5
  {
    var ts := Emit(e, s);
    match e {
      case This | Null | Lit(_) => assert ts[1..] == s;
      case Array(items) => ArrayParses(items, s);
      case Object(fields) => ObjectParses(fields, s);
      case Ref(name, args) => RefParses(name, args, s);
      case Invoke(name, args) => InvokeParses(name, args, s);
    }
  }

  lemma {:induction false} ArrayParses(items: seq<Expr>, s: seq<Token>)
    requires FaithfulItems(items)
    ensures ParsePrimary(Emit(Array(items), s)) == Ok(Array(items), s)
    decreases Array(items), 4
  {
    var ts, close := Emit(Array(items), s), [RBracket] + s;
    assert ts[1..] == EmitItems(items, close) && close[1..] == s;
    if items == [] {
      assert ts[2..] == s;
    } else {
      ItemsParse(items, close);
    }
  }

  lemma {:induction false} ObjectParses(fields: seq<Named>, s: seq<Token>)
    requires FaithfulNamed(fields)
    ensures ParsePrimary(Emit(Object(fields), s)) == Ok(Object(fields), s)
    decreases Object(fields), 4
  {
    var ts, close := Emit(Object(fields), s), [RBrace] + s;
    assert ts[1..] == EmitNamed(fields, close) && close[1..] == s;
    if fields == [] {
      assert ts[2..] == s;
    } else {
      NamedParse(fields, close);
    }
  }

  lemma {:induction false} RefParses(name: string, args: seq<Named>, s: seq<Token>)
    requires FaithfulNamed(args) && !Starts(s, LParen)
    ensures ParsePrimary(Emit(Ref(name, args), s)) == Ok(Ref(name, args), s)
    decreases Ref(name, args), 4
  {
    var ts, close := Emit(Ref(name, args), s), [RParen] + s;
    if args == [] {
      assert ts[1..] == s;
    } else {
      var inner := EmitNamed(args, close);
      assert ts[1..] == [LParen] + inner;
      assert ts[2..] == inner && close[1..] == s;
      NamedParse(args, close);
    }
  }

  lemma {:induction false} InvokeParses(name: string, args: seq<Expr>, s: seq<Token>)
    requires FaithfulItems(args)
    ensures ParsePrimary(Emit(Invoke(name, args), s)) == Ok(Invoke(name, args), s)
    decreases Invoke(name, args), 4
  {
    var ts, close := Emit(Invoke(name, args), s), [RParen] + s;
    var inner := EmitItems(args, close);
    assert ts[1..] == [LParen] + inner;
    assert ts[2..] == inner && close[1..] == s;
    if args == [] {
      assert ts[3..] == s;
    } else {
      ItemsParse(args, close);
    }
  }

  lemma {:induction false} ItemsParse(items: seq<Expr>, s: seq<Token>)
    requires items != [] && FaithfulItems(items)
    requires |s| > 0 && s[0] in {RBracket, RParen}
    ensures ParseItems(EmitItems(items, s)) == Ok(items, s)
    ensures !StartsNamed(EmitItems(items, s))
    ensures |EmitItems(items, s)| > 0 && EmitItems(items, s)[0] !in {RBracket, RParen}
    decreases items, 4
  {
    if |items| == 1 {
      NotNamed(items[0], s);
      ExprParses(items[0], s);
      assert items == [items[0]];
    } else {
      var tail := EmitItems(items[1..], s);
      var comma := [Comma] + tail;
      assert comma[1..] == tail;
      NotNamed(items[0], comma);
      ExprParses(items[0], comma);
      ItemsParse(items[1..], s);
      assert items == [items[0]] + items[1..];
    }
  }

  /** One `name: value` in front of the closing token, as the last argument or field. */
  lemma LastPairParses(name: string, ts: seq<Token>, x: Expr, rest: seq<Token>)
    requires ParseExpr(ts) == Ok(x, rest) && |rest| > 0 && rest[0] in {RBrace, RParen}
    ensures var all := [TName(name)] + ([Colon] + ts);
      StartsNamed(all) && ParseRefArgs(all) == Ok([Named(name, x)], rest)
        && ParseFields(all) == Ok([Named(name, x)], rest)
  {
    assert ([TName(name)] + ([Colon] + ts))[2..] == ts;
  }

  /** One `name: value` in front of others. */
  lemma FirstPairParses(name: string, ts: seq<Token>, x: Expr, tail: seq<Token>)
    requires ParseExpr(ts) == Ok(x, [Comma] + tail) && StartsNamed(tail)
    ensures var all, args, fields := [TName(name)] + ([Colon] + ts), ParseRefArgs(tail), ParseFields(tail);
      && StartsNamed(all)
      && (args.Ok? ==> ParseRefArgs(all) == Ok([Named(name, x)] + args.value, args.rest))
      && (fields.Ok? ==> ParseFields(all) == Ok([Named(name, x)] + fields.value, fields.rest))
  {
    assert ([TName(name)] + ([Colon] + ts))[2..] == ts;
    assert ([Comma] + tail)[1..] == tail;
  }

  lemma {:induction false} NamedParse(fields: seq<Named>, s: seq<Token>)
    requires fields != [] && FaithfulNamed(fields)
    requires |s| > 0 && s[0] in {RBrace, RParen}
    ensures StartsNamed(EmitNamed(fields, s))
    ensures s[0] == RParen ==> ParseRefArgs(EmitNamed(fields, s)) == Ok(fields, s)
    ensures s[0] == RBrace ==> ParseFields(EmitNamed(fields, s)) == Ok(fields, s)
    decreases fields, 4
  {
    var name, x := fields[0].name, fields[0].value;
    if |fields| == 1 {
      ExprParses(x, s);
      LastPairParses(name, Emit(x, s), x, s);
      assert fields == [Named(name, x)];
    } else {
      var tail := EmitNamed(fields[1..], s);
      ExprParses(x, [Comma] + tail);
      NamedParse(fields[1..], s);
      FirstPairParses(name, Emit(x, [Comma] + tail), x, tail);
      assert fields == [Named(name, x)] + fields[1..];
    }
  }

  /** Print then parse is the identity, in front of every suffix that cannot continue the expression. */
  lemma PrintThenParse(e: Expr, suffix: seq<Token>)
    requires Faithful(e) && Stops(LOGICAL, suffix)
    ensures ParseExpr(Print(e) + suffix) == Ok(e, suffix)
  {
    EmitIsPrint(e, suffix);
    ExprParses(e, suffix);
  }

  // ----- counting opening parentheses -----

  function Opens(ts: seq<Token>): nat {
    if ts == [] then 0 else (if ts[0] == LParen then 1 else 0) + Opens(ts[1..])
  }

  lemma {:induction false} OpensConcat(a: seq<Token>, b: seq<Token>)
    ensures Opens(a + b) == Opens(a) + Opens(b)
  {
    if a == [] {
      assert a + b == b;
    } else {
      assert (a + b)[1..] == a[1..] + b;
      OpensConcat(a[1..], b);
    }
  }

  function Count(b: bool): nat {
    if b then 1 else 0
  }

  /** How many opening parentheses any text of this expression must have. */
  function Needed(e: Expr): nat
    decreases e, 1
  {
    match e
    case This | Null | Lit(_) => 0
    case Array(items) => NeededItems(items)
    case Object(fields) => NeededNamed(fields)
    case Ref(_, args) => Count(args != []) + NeededNamed(args)
    case Invoke(_, args) => 1 + NeededItems(args)
    case Member(x, _) => Count(x.Binary? || x.Not?) + Needed(x)
    case Not(x) => Count(x.Binary?) + Needed(x)
    case Binary(op, l, r) =>
      Count(Level(l) < Priority(op)) + Needed(l)
      + Count(!IsCollectionPredicate(op) && Level(r) <= Priority(op)) + Needed(r)
  }

  function NeededItems(items: seq<Expr>): nat
    decreases items, 0
  {
    if items == [] then 0 else Needed(items[0]) + NeededItems(items[1..])
  }

  function NeededNamed(fields: seq<Named>): nat
    decreases fields, 0
  {
    if fields == [] then 0 else Needed(fields[0].value) + NeededNamed(fields[1..])
  }

  /** The printer never writes more than needed, and writes fewer exactly when the expression is not faithful. */
  lemma {:induction false} PrintedOpens(e: Expr)
    ensures Opens(Print(e)) <= Needed(e)
    ensures Opens(Print(e)) == Needed(e) <==> Faithful(e)
    decreases e, 1
  {
    match e {
      case This | Null | Lit(_) =>
      case Array(items) =>
        PrintedItemsOpens(items);
        WrappedOpens(LBracket, PrintItems(items), RBracket);
      case Object(fields) =>
        PrintedNamedOpens(fields);
        WrappedOpens(LBrace, PrintNamed(fields), RBrace);
      case Ref(name, args) =>
        PrintedNamedOpens(args);
        WrappedOpens(LParen, PrintNamed(args), RParen);
        OpensConcat([TName(name)], [LParen] + PrintNamed(args) + [RParen]);
      case Invoke(name, args) =>
        PrintedItemsOpens(args);
        WrappedOpens(LParen, PrintItems(args), RParen);
        OpensConcat([TName(name)], [LParen] + PrintItems(args) + [RParen]);
        assert Print(e) == [TName(name)] + ([LParen] + PrintItems(args) + [RParen]);
      case Member(x, name) =>
        PrintedOpens(x);
        OpensConcat([Dot], [TName(name)]);
        assert [Dot] + [TName(name)] == [Dot, TName(name)];
        OpensConcat(Print(x), [Dot, TName(name)]);
      case Not(x) =>
        PrintedOpens(x);
        OpensConcat([BANG], Print(x));
      case Binary(op, l, r) =>
        PrintedOpens(l);
        PrintedOpens(r);
        PrintedBinaryOpens(op, l, r);
    }
  }

  lemma PrintedBinaryOpens(op: BinOp, l: Expr, r: Expr)
    ensures Opens(Print(Binary(op, l, r))) - Opens(Print(l)) - Opens(Print(r))
         == Needed(Binary(op, l, r)) - Needed(l) - Needed(r)
  {
    PrintedLeftOpens(op, l);
    PrintedRightOpens(op, r);
    ConcatOpens(PrintLeft(op, l), [TOp(op)], PrintRight(op, r));
  }

  lemma ConcatOpens(a: seq<Token>, b: seq<Token>, c: seq<Token>)
    ensures Opens(a + b + c) == Opens(a) + Opens(b) + Opens(c)
  {
    OpensConcat(a, b);
    OpensConcat(a + b, c);
  }

  lemma PrintedLeftOpens(op: BinOp, l: Expr)
    ensures Opens(PrintLeft(op, l)) == Count(Level(l) < Priority(op)) + Opens(Print(l))
  {
    WrappedOpens(LParen, Print(l), RParen);
  }

  lemma PrintedRightOpens(op: BinOp, r: Expr)
    ensures Opens(PrintRight(op, r))
         == Count(!IsCollectionPredicate(op) && Level(r) <= Priority(op)) + Opens(Print(r))
  {
    WrappedOpens(LParen, Print(r), RParen);
    WrappedOpens(LBracket, Print(r), RBracket);
  }

  lemma WrappedOpens(open: Token, ts: seq<Token>, close: Token)
    requires close != LParen
    ensures Opens([open] + ts + [close]) == Count(open == LParen) + Opens(ts)
  {
    OpensConcat([open], ts);
    OpensConcat([open] + ts, [close]);
  }

  lemma {:induction false} PrintedItemsOpens(items: seq<Expr>)
    ensures Opens(PrintItems(items)) <= NeededItems(items)
    ensures Opens(PrintItems(items)) == NeededItems(items) <==> FaithfulItems(items)
    decreases items, 0
  {
    if items == [] {
    } else {
      PrintedOpens(items[0]);
      PrintedItemsOpens(items[1..]);
      OpensConcat(Print(items[0]), [Comma]);
      OpensConcat(Print(items[0]) + [Comma], PrintItems(items[1..]));
    }
  }

  lemma {:induction false} PrintedNamedOpens(fields: seq<Named>)
    ensures Opens(PrintNamed(fields)) <= NeededNamed(fields)
    ensures Opens(PrintNamed(fields)) == NeededNamed(fields) <==> FaithfulNamed(fields)
    decreases fields, 0
  {
    if fields == [] {
    } else {
      var x := fields[0].value;
      PrintedOpens(x);
      PrintedNamedOpens(fields[1..]);
      var key := [TName(fields[0].name), Colon];
      assert key == [TName(fields[0].name)] + [Colon];
      OpensConcat([TName(fields[0].name)], [Colon]);
      OpensConcat(key, Print(x));
      OpensConcat(key + Print(x), [Comma]);
      OpensConcat(key + Print(x) + [Comma], PrintNamed(fields[1..]));
    }
  }

  // ----- every successful parse consumed the parentheses its result needs -----

  lemma {:induction false} LayerConsumes(layer: nat, ts: seq<Token>)
    requires 1 <= layer <= MEMBER_LAYER
    ensures var p := ParseLayer(layer, ts);
      p.Ok? ==> Opens(ts) >= Opens(p.rest) + Needed(p.value) + Count(Level(p.value) < layer)
    ensures layer == MEMBER_LAYER && ParseLayer(layer, ts).Ok? ==> !Starts(ParseLayer(layer, ts).rest, Dot)
    decreases |ts|, 14 - layer
  {
    if layer == MEMBER_LAYER {
      PrimaryConsumes(ts);
      var p := ParsePrimary(ts);
      if p.Ok? { MemberLoopConsumes(p.value, p.rest); }
    } else {
      LayerConsumes(layer + 1, ts);
      var p := ParseLayer(layer + 1, ts);
      if p.Ok? { LayerLoopConsumes(layer, p.value, p.rest); }
    }
  }

  lemma {:induction false} LayerLoopConsumes(layer: nat, acc: Expr, ts: seq<Token>)
    requires 1 <= layer <= COLLECTION
    ensures var p := LayerLoop(layer, acc, ts);
      p.Ok? ==>
        Opens(ts) + Needed(acc) + Count(Level(acc) < layer)
        >= Opens(p.rest) + Needed(p.value) + Count(Level(p.value) < layer)
    decreases |ts|, 1
  {
    if |ts| > 0 && ts[0].TOp? && InLayer(layer, ts[0].op) && LayerLoop(layer, acc, ts).Ok? {
      if layer == COLLECTION {
        PredicateLoopConsumes(acc, ts);
      } else {
        OperatorLoopConsumes(layer, acc, ts);
      }
    }
  }

  lemma {:induction false} PredicateLoopConsumes(acc: Expr, ts: seq<Token>)
    requires |ts| > 0 && ts[0].TOp? && InLayer(COLLECTION, ts[0].op) && LayerLoop(COLLECTION, acc, ts).Ok?
    ensures var p := LayerLoop(COLLECTION, acc, ts);
      Opens(ts) + Needed(acc) + Count(Level(acc) < COLLECTION)
      >= Opens(p.rest) + Needed(p.value) + Count(Level(p.value) < COLLECTION)
    decreases |ts|, 0
  {
    var p := ParseExpr(ts[2..]);
    LayerConsumes(LOGICAL, ts[2..]);
    LayerLoopConsumes(COLLECTION, Binary(ts[0].op, acc, p.value), p.rest[1..]);
    assert ts[1..][1..] == ts[2..];
    PredicateNeeds(ts[0].op, acc, p.value);
  }

  lemma {:induction false} OperatorLoopConsumes(layer: nat, acc: Expr, ts: seq<Token>)
    requires 1 <= layer < COLLECTION && |ts| > 0 && ts[0].TOp? && InLayer(layer, ts[0].op)
      && LayerLoop(layer, acc, ts).Ok?
    ensures var p := LayerLoop(layer, acc, ts);
      Opens(ts) + Needed(acc) + Count(Level(acc) < layer)
      >= Opens(p.rest) + Needed(p.value) + Count(Level(p.value) < layer)
    decreases |ts|, 0
  {
    var p := ParseLayer(layer + 1, ts[1..]);
    LayerConsumes(layer + 1, ts[1..]);
    LayerLoopConsumes(layer, Binary(ts[0].op, acc, p.value), p.rest);
    OperatorNeeds(layer, ts[0].op, acc, p.value);
  }

  lemma PredicateNeeds(op: BinOp, l: Expr, r: Expr)
    requires InLayer(COLLECTION, op)
    ensures Level(Binary(op, l, r)) == COLLECTION
    ensures Needed(Binary(op, l, r)) == Count(Level(l) < COLLECTION) + Needed(l) + Needed(r)
  {
    PriorityIsLayer(op, COLLECTION);
    assert IsCollectionPredicate(op);
  }

  lemma OperatorNeeds(layer: nat, op: BinOp, l: Expr, r: Expr)
    requires 1 <= layer < COLLECTION && InLayer(layer, op)
    ensures Level(Binary(op, l, r)) == layer
    ensures Needed(Binary(op, l, r))
         == Count(Level(l) < layer) + Needed(l) + Count(Level(r) < layer + 1) + Needed(r)
  {
    PriorityIsLayer(op, layer);
  }

  lemma {:induction false} MemberLoopConsumes(acc: Expr, ts: seq<Token>)
    ensures var p := MemberLoop(acc, ts);
      p.Ok? ==>
        && !Starts(p.rest, Dot)
        && Opens(ts) + Needed(acc) + Count(acc.Binary? || (acc.Not? && Starts(ts, Dot)))
           >= Opens(p.rest) + Needed(p.value) + Count(Level(p.value) < MEMBER_LAYER)
    decreases |ts|, 0
  {
    if Starts(ts, Dot) && MemberLoop(acc, ts).Ok? {
      assert ts[1..][1..] == ts[2..];
      MemberLoopConsumes(Member(acc, ts[1].name), ts[2..]);
    }
  }

  lemma {:induction false} PrimaryConsumes(ts: seq<Token>)
    ensures var p := ParsePrimary(ts);
      p.Ok? ==> Opens(ts) >= Opens(p.rest) + Needed(p.value)
                             + Count(p.value.Binary? || (p.value.Not? && Starts(p.rest, Dot)))
    decreases |ts|, 2
  {
    if ParsePrimary(ts).Ok? {
      match ts[0] {
        case LParen => LayerConsumes(LOGICAL, ts[1..]);
        case LBracket => BracketConsumes(ts);
        case LBrace => BraceConsumes(ts);
        case TOp(OpEvery) =>
          LayerConsumes(MEMBER_LAYER, ts[1..]);
        case TName(name) => NameConsumes(ts);
        case _ =>
      }
    }
  }

  lemma {:induction false} BracketConsumes(ts: seq<Token>)
    requires ParsePrimary(ts).Ok? && ts[0] == LBracket
    ensures Opens(ts) >= Opens(ParsePrimary(ts).rest) + Needed(ParsePrimary(ts).value)
    ensures ParsePrimary(ts).value.Array?
    decreases |ts|, 1
  {
    assert ts[1..][1..] == ts[2..];
    if !Starts(ts[1..], RBracket) {
      ItemsConsume(ts[1..]);
    }
  }

  lemma {:induction false} BraceConsumes(ts: seq<Token>)
    requires ParsePrimary(ts).Ok? && ts[0] == LBrace
    ensures Opens(ts) >= Opens(ParsePrimary(ts).rest) + Needed(ParsePrimary(ts).value)
    ensures ParsePrimary(ts).value.Object?
    decreases |ts|, 1
  {
    if Starts(ts[1..], RBrace) {
      assert ts[1..][1..] == ts[2..];
    } else {
      FieldsConsume(ts[1..]);
    }
  }

  lemma {:induction false} NameConsumes(ts: seq<Token>)
    requires ParsePrimary(ts).Ok? && ts[0].TName?
    ensures Opens(ts) >= Opens(ParsePrimary(ts).rest) + Needed(ParsePrimary(ts).value)
    ensures ParsePrimary(ts).value.Ref? || ParsePrimary(ts).value.Invoke?
    decreases |ts|, 1
  {
    if Starts(ts[1..], LParen) {
      assert ts[1..][1..] == ts[2..];
      if StartsNamed(ts[2..]) {
        RefArgsConsume(ts[2..]);
      } else if Starts(ts[2..], RParen) {
        assert ts[2..][1..] == ts[3..];
        assert Opens(ts[1..]) == 1 + Opens(ts[2..]);
      } else {
        ItemsConsume(ts[2..]);
      }
    }
  }

  lemma {:induction false} ItemsConsume(ts: seq<Token>)
    ensures var p := ParseItems(ts); p.Ok? ==> Opens(ts) >= Opens(p.rest) + NeededItems(p.value)
    decreases |ts|, 20
  {
    var p := ParseExpr(ts);
    LayerConsumes(LOGICAL, ts);
    if p.Ok? && Starts(p.rest, Comma) {
      ItemsConsume(p.rest[1..]);
    }
  }

  lemma {:induction false} RefArgsConsume(ts: seq<Token>)
    ensures var p := ParseRefArgs(ts); p.Ok? ==> Opens(ts) >= Opens(p.rest) + NeededNamed(p.value)
    decreases |ts|, 20
  {
    if StartsNamed(ts) {
      assert ts[1..][1..] == ts[2..];
      var p := ParseExpr(ts[2..]);
      LayerConsumes(LOGICAL, ts[2..]);
      if p.Ok? && Starts(p.rest, Comma) {
        RefArgsConsume(p.rest[1..]);
      }
    }
  }

  lemma {:induction false} FieldsConsume(ts: seq<Token>)
    ensures var p := ParseFields(ts); p.Ok? ==> Opens(ts) >= Opens(p.rest) + NeededNamed(p.value)
    decreases |ts|, 20
  {
    if ParseFields(ts).Ok? {
      assert ts[1..][1..] == ts[2..];
      var p := ParseExpr(ts[2..]);
      LayerConsumes(LOGICAL, ts[2..]);
      if Starts(p.rest, Comma) && !Starts(p.rest[1..], RBrace) {
        FieldsConsume(p.rest[1..]);
      }
    }
  }

  /** Every text of an expression has at least the parentheses it needs, whoever wrote it. */
  lemma ParsedTextHasNeeded(ts: seq<Token>, e: Expr)
    requires ParseExpr(ts) == Ok(e, [])
    ensures Opens(ts) >= Needed(e)
  {
    LayerConsumes(LOGICAL, ts);
  }

  /** The exact condition: an expression survives print then parse if and only if it is faithful. */
  lemma RoundTripIffFaithful(e: Expr)
    ensures ParseExpr(Print(e)) == Ok(e, []) <==> Faithful(e)
  {
    if Faithful(e) {
      PrintThenParse(e, []);
      assert Print(e) + [] == Print(e);
    } else if ParseExpr(Print(e)) == Ok(e, []) {
      ParsedTextHasNeeded(Print(e), e);
      PrintedOpens(e);
    }
  }

  /** Parentheses are minimal: no other text that parses to the same expression has fewer. */
  lemma PrintIsMinimal(e: Expr, ts: seq<Token>)
    requires Faithful(e) && ParseExpr(ts) == Ok(e, [])
    ensures Opens(Print(e)) <= Opens(ts)
  {
    ParsedTextHasNeeded(ts, e);
    PrintedOpens(e);
  }

  /** Two faithful expressions with the same text are the same expression. */
  lemma PrintIsInjective(a: Expr, b: Expr)
    requires Faithful(a) && Faithful(b) && Print(a) == Print(b)
    ensures a == b
  {
    RoundTripIffFaithful(a);
    RoundTripIffFaithful(b);
  }

  /** What goes wrong outside: `!(a == b)` prints as `! a == b`, which reads as `(!a) == b`. */
  lemma NegatedComparisonChanges(a: string, b: string)
    ensures var e := Not(Binary(OpEq, Ref(a, []), Ref(b, [])));
      ParseExpr(Print(e)) == Ok(Binary(OpEq, Not(Ref(a, [])), Ref(b, [])), [])
  {
    var e := Not(Binary(OpEq, Ref(a, []), Ref(b, [])));
    var f := Binary(OpEq, Not(Ref(a, [])), Ref(b, []));
    var x, y := Print(Ref(a, [])), Print(Ref(b, []));
    assert PrintLeft(OpEq, Ref(a, [])) == x && PrintLeft(OpEq, Not(Ref(a, []))) == [BANG] + x;
    assert PrintRight(OpEq, Ref(b, [])) == y;
    assert Print(e) == [BANG] + (x + [TOp(OpEq)] + y) == ([BANG] + x) + [TOp(OpEq)] + y == Print(f);
    assert Faithful(Ref(a, [])) && Faithful(Ref(b, [])) && Faithful(Not(Ref(a, [])));
    RoundTripIffFaithful(f);
  }
}
