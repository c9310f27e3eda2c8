/**
 * The expression parser: precedence climbing over the binary operators,
 * unary `-`/`+`, postfix indexing, and the primary forms (literals, names,
 * calls, array and map literals).
 */
module ExprParser {
  import opened Wrappers
  import opened Text
  import opened Tokens
  import opened Cursor
  import Ast

  const ExprDepthMessage := "Expression nesting too deep (recursion limit exceeded)"
  const PostfixDepthMessage := "Expression too deeply nested"
  const BangMessage := "Unary '!' operator is not allowed in doolang"
  const ParenMessage := "Parentheses are not allowed in expressions in mtlang"

  /** `get_precedence`: binding strength of a binary operator, 0 for any other token. */
  function GetPrecedence(op: TokenType): (r: nat)
    ensures r <= 7
  {
    match op
    case OrOr => 1
    case AndAnd => 2
    case EqEq => 3
    case NotEq => 3
    case Lt => 4
    case Gt => 4
    case LtEq => 4
    case GtEq => 4
    case Plus => 5
    case Minus => 5
    case Star => 6
    case Slash => 6
    case Percent => 6
    case RangeExc => 7
    case RangeInc => 7
    case _ => 0
  }

  /** The precedence of the next token, 0 at the end of input. */
  function NextPrec(ts: seq<Token>, p: Parser): nat
  {
    if p.current < |ts| then GetPrecedence(ts[p.current].kind) else 0
  }

  /** The operator loop at `minPrec` stops before the next token. */
  predicate Stops(ts: seq<Token>, p: Parser, minPrec: nat)
  {
    NextPrec(ts, p) < minPrec || NextPrec(ts, p) == 0
  }

  /** The precedence of a node's top operator; anything but a binary node binds tighter than all. */
  function TopPrec(n: Ast.AstNode): nat
  {
    if n.BinaryExpr? then GetPrecedence(n.op) else 8
  }

  /**
   * The operator tree respects the table: a binary node's left operand binds
   * at least as tightly as it does and its right operand strictly more
   * tightly (so equal precedences group to the left), and a unary operand
   * binds at least at level 7.
   */
  predicate Grouped(n: Ast.AstNode)
  {
    match n
    case BinaryExpr(l, op, r) =>
      Grouped(l) && Grouped(r) && TopPrec(l) >= GetPrecedence(op) && TopPrec(r) > GetPrecedence(op)
    case UnaryExpr(_, e) => Grouped(e) && TopPrec(e) >= 7
    case _ => true
  }

  /** `n` is `base` under zero or more ElementAccess layers, innermost applied first. */
  predicate AccessChainOf(n: Ast.AstNode, base: Ast.AstNode)
  {
    n == base || (n.ElementAccess? && AccessChainOf(n.collection, base))
  }

  /** `parse_expression`: one nesting level deeper, then the operator loop at precedence 0. */
  function ParseExpression(ts: seq<Token>, p: Parser): (r: Parsed<Ast.AstNode>)
    requires Valid(ts, p)
    ensures Follows(ts, p, r.p)
    ensures r.res.Ok? ==> r.p.current > p.current && Grouped(r.res.value) && NextPrec(ts, r.p) == 0
    ensures p.depth + 1 > p.maxDepth ==>
      r == Parsed(Err(UnexpectedTokenAt(ExprDepthMessage, PeekLine(ts, p), PeekCol(ts, p))), p)
    decreases Rem(ts, p), 5
  {
    var d := p.(depth := p.depth + 1);
    if d.depth > d.maxDepth then
      Parsed(Err(UnexpectedTokenAt(ExprDepthMessage, PeekLine(ts, p), PeekCol(ts, p))), p)
    else
      var r := ParseExprPrec(ts, d, 0);
      Parsed(r.res, r.p.(depth := r.p.depth - 1))
  }

  /** `parse_expression_prec`: an operand, its postfix indexing, then operators of precedence at least `minPrec`. */
  function ParseExprPrec(ts: seq<Token>, p: Parser, minPrec: nat): (r: Parsed<Ast.AstNode>)
    requires Valid(ts, p) && minPrec <= 8
    ensures Follows(ts, p, r.p)
    ensures r.res.Ok? ==> r.p.current > p.current
    ensures r.res.Ok? ==> Grouped(r.res.value) && TopPrec(r.res.value) >= minPrec && Stops(ts, r.p, minPrec)
    ensures p.current == |ts| ==> r == Parsed(Err(EndOfInput), p)
    ensures PeekIs(ts, p, Bang) ==>
      r == Parsed(Err(UnexpectedTokenAt(BangMessage, ts[p.current].line, ts[p.current].col)),
                  p.(current := p.current + 1))
    decreases Rem(ts, p), 4
  {
    match Peek(ts, p)
    case None => Parsed(Err(EndOfInput), p)
    case Some(tok) =>
      if tok.kind == Bang then
        Parsed(Err(UnexpectedTokenAt(BangMessage, tok.line, tok.col)), Advance(ts, p).1)
      else
        ParseOperatorChain(ts, p, minPrec)
  }

  /** An operand with its postfix indexing, then the operator loop. */
  function ParseOperatorChain(ts: seq<Token>, p: Parser, minPrec: nat): (r: Parsed<Ast.AstNode>)
    requires Valid(ts, p) && p.current < |ts| && minPrec <= 8
    ensures Follows(ts, p, r.p)
    ensures r.res.Ok? ==> r.p.current > p.current
    ensures r.res.Ok? ==> Grouped(r.res.value) && TopPrec(r.res.value) >= minPrec && Stops(ts, r.p, minPrec)
    decreases Rem(ts, p), 3
  {
    var operand := ParseOperand(ts, p);
    if operand.res.Err? then operand
    else
      var post := ParsePostfix(ts, operand.res.value, operand.p);
      if post.res.Err? then post
      else
        var e := post.res.value;
        assert Grouped(e) && TopPrec(e) == 8 by {
          if e != operand.res.value {
            assert e.ElementAccess?;
          }
        }
        assert NextPrec(ts, post.p) <= 7;
        BinaryLoop(ts, e, post.p, minPrec)
  }

  /** The operand before any postfix or binary operator: a unary expression or a primary. */
  function ParseOperand(ts: seq<Token>, p: Parser): (r: Parsed<Ast.AstNode>)
    requires Valid(ts, p) && p.current < |ts|
    ensures Follows(ts, p, r.p)
    ensures r.res.Ok? ==> r.p.current > p.current && Grouped(r.res.value) && !r.res.value.BinaryExpr?
    decreases Rem(ts, p), 2
  {
    if PeekIs(ts, p, Minus) || PeekIs(ts, p, Plus) then ParseUnary(ts, p) else ParsePrimary(ts, p)
  }

  /** Unary `-`/`+`: the operator applied to an operand parsed at minimum precedence 7. */
  function ParseUnary(ts: seq<Token>, p: Parser): (r: Parsed<Ast.AstNode>)
    requires Valid(ts, p) && (PeekIs(ts, p, Minus) || PeekIs(ts, p, Plus))
    ensures Follows(ts, p, r.p)
    ensures r.res.Ok? ==> r.p.current > p.current
    ensures r.res.Ok? ==>
      r.res.value.UnaryExpr? && r.res.value.op == ts[p.current].kind && Grouped(r.res.value)
    decreases Rem(ts, p), 1
  {
    var (tok, q) := Advance(ts, p);
    var e := ParseExprPrec(ts, q, 7);
    if e.res.Err? then e
    else Parsed(Ok(Ast.UnaryExpr(tok.value.kind, e.res.value)), e.p)
  }

  /**
   * The operator loop: while the next token is an operator of precedence
   * `prec >= minPrec`, consume it, parse the right operand at `prec + 1`,
   * and make the tree so far its left operand.
   */
  function BinaryLoop(ts: seq<Token>, left: Ast.AstNode, p: Parser, minPrec: nat): (r: Parsed<Ast.AstNode>)
    requires Valid(ts, p)
    requires Grouped(left) && TopPrec(left) >= minPrec && (Stops(ts, p, minPrec) || NextPrec(ts, p) <= TopPrec(left))
    ensures Follows(ts, p, r.p)
    ensures r.res.Ok? ==> Grouped(r.res.value) && TopPrec(r.res.value) >= minPrec && Stops(ts, r.p, minPrec)
    ensures Stops(ts, p, minPrec) ==> r == Parsed(Ok(left), p)
    decreases Rem(ts, p), 1
  {
    match Peek(ts, p)
    case None => Parsed(Ok(left), p)
    case Some(tok) =>
      var prec := GetPrecedence(tok.kind);
      if prec < minPrec || prec == 0 then Parsed(Ok(left), p)
      else
        var q := Advance(ts, p).1;
        var right := ParseExprPrec(ts, q, prec + 1);
        if right.res.Err? then right
        else BinaryLoop(ts, Ast.BinaryExpr(left, tok.kind, right.res.value), right.p, minPrec)
  }

  /** `parse_postfix`: each `[index]` wraps the expression so far in an ElementAccess. */
  function ParsePostfix(ts: seq<Token>, expr: Ast.AstNode, p: Parser): (r: Parsed<Ast.AstNode>)
    requires Valid(ts, p)
    ensures Follows(ts, p, r.p)
    ensures r.res.Ok? ==> AccessChainOf(r.res.value, expr) && !PeekIs(ts, r.p, OpenBracket)
    ensures !PeekIs(ts, p, OpenBracket) ==> r == Parsed(Ok(expr), p)
    ensures PeekIs(ts, p, OpenBracket) && p.depth >= p.maxDepth ==>
      r == Parsed(Err(UnexpectedToken(PostfixDepthMessage)), p)
    decreases Rem(ts, p), 1
  {
    if !PeekIs(ts, p, OpenBracket) then Parsed(Ok(expr), p)
    else if p.depth >= p.maxDepth then Parsed(Err(UnexpectedToken(PostfixDepthMessage)), p)
    else
      var q := Advance(ts, p).1;
      var index := ParseExpression(ts, q);
      if index.res.Err? then index
      else
        var close := Expect(ts, index.p, CloseBracket);
        if close.res.Err? then Parsed(Err(close.res.error), close.p)
        else
          var access := Ast.ElementAccess(expr, index.res.value);
          var rest := ParsePostfix(ts, access, close.p);
          assert rest.res.Ok? ==> AccessChainOf(rest.res.value, access);
          AccessChainExtends(rest, access, expr);
          rest
  }

  /** A chain over `ElementAccess(base, _)` is a chain over `base`. */
  lemma AccessChainExtends(rest: Parsed<Ast.AstNode>, access: Ast.AstNode, base: Ast.AstNode)
    requires access.ElementAccess? && access.collection == base
    requires rest.res.Ok? ==> AccessChainOf(rest.res.value, access)
    ensures rest.res.Ok? ==> AccessChainOf(rest.res.value, base)
  {
    if rest.res.Ok? {
      AccessChainTransitive(rest.res.value, access, base);
    }
  }

  lemma {:induction false} AccessChainTransitive(n: Ast.AstNode, m: Ast.AstNode, base: Ast.AstNode)
    requires AccessChainOf(n, m) && m.ElementAccess? && m.collection == base
    ensures AccessChainOf(n, base)
    decreases n
  {
    if n != m {
      AccessChainTransitive(n.collection, m, base);
    }
  }

  /** The message for a Number token that is not an `i32`. */
  function IntLiteralMessage(e: IntErrorKind): string
  {
    "Invalid integer literal: " + IntErrorMessage(e)
  }

  /** `parse_primary`: literals, names, calls, array and map literals; `(` and other tokens are errors. */
  function ParsePrimary(ts: seq<Token>, p: Parser): (r: Parsed<Ast.AstNode>)
    requires Valid(ts, p)
    ensures Follows(ts, p, r.p)
    ensures r.res.Ok? ==> r.p.current > p.current && !r.res.value.BinaryExpr? && !r.res.value.UnaryExpr?
    ensures p.current == |ts| ==> r == Parsed(Err(EndOfInput), p)
    ensures PeekIs(ts, p, OpenParen) ==>
      r == Parsed(Err(UnexpectedTokenAt(ParenMessage, ts[p.current].line, ts[p.current].col)), p)
    ensures PeekIs(ts, p, Number) ==> r == ParseNumber(ts, p)
    ensures PeekIs(ts, p, Identifier) ==> r == ParseNameOrCall(ts, p)
    decreases Rem(ts, p), 1
  {
    match Peek(ts, p)
    case None => Parsed(Err(EndOfInput), p)
    case Some(tok) =>
      var k := tok.kind;
      if k == Number then ParseNumber(ts, p)
      else if k == Float then Parsed(Ok(Ast.FloatLiteral(tok.value)), Advance(ts, p).1)
      else if k == Identifier then ParseNameOrCall(ts, p)
      else if k == String then Parsed(Ok(Ast.StringLiteral(tok.value)), Advance(ts, p).1)
      else if k == Boolean then Parsed(Ok(Ast.BoolLiteral(tok.value == "true")), Advance(ts, p).1)
      else if k == OpenBracket then ParseArrayLiteral(ts, p)
      else if k == OpenBrace then ParseMapLiteral(ts, p)
      else if k == OpenParen then Parsed(Err(UnexpectedTokenAt(ParenMessage, tok.line, tok.col)), p)
      else Parsed(Err(UnexpectedTokenAt("Expected primary expression, got " + KindName(k), tok.line, tok.col)), p)
  }

  /** A Number token: its `i32` value, or the parse error at the token's position. */
  function ParseNumber(ts: seq<Token>, p: Parser): (r: Parsed<Ast.AstNode>)
    requires Valid(ts, p) && PeekIs(ts, p, Number)
    ensures r.p == p.(current := p.current + 1)
    ensures var t := ts[p.current];
      match ParseI32(t.value)
      case Ok(n) => r.res == Ok(Ast.NumberLiteral(n))
      case Err(e) => r.res == Err(UnexpectedTokenAt(IntLiteralMessage(e), t.line, t.col))
  {
    var (tok, q) := Advance(ts, p);
    var t := tok.value;
    match ParseI32(t.value)
    case Ok(n) => Parsed(Ok(Ast.NumberLiteral(n)), q)
    case Err(e) => Parsed(Err(UnexpectedTokenAt(IntLiteralMessage(e), t.line, t.col)), q)
  }

  /** An identifier, or a call when `(` follows it directly; the callee is always an Identifier node. */
  function ParseNameOrCall(ts: seq<Token>, p: Parser): (r: Parsed<Ast.AstNode>)
    requires Valid(ts, p) && PeekIs(ts, p, Identifier)
    ensures Follows(ts, p, r.p)
    ensures r.res.Ok? ==> r.p.current > p.current
    ensures var name := ts[p.current].value;
      var q := p.(current := p.current + 1);
      if PeekIs(ts, q, OpenParen) then
        r.res.Ok? ==> r.res.value.FunctionCall? && r.res.value.func == Ast.AstNode.Identifier(name)
      else r == Parsed(Ok(Ast.AstNode.Identifier(name)), q)
    decreases Rem(ts, p), 0
  {
    var name := ts[p.current].value;
    var q := p.(current := p.current + 1);
    if PeekIs(ts, q, OpenParen) then
      var args := ParseExprItems(ts, p.(current := p.current + 2), CloseParen);
      if args.res.Err? then Parsed(Err(args.res.error), args.p)
      else
        var close := Expect(ts, args.p, CloseParen);
        if close.res.Err? then Parsed(Err(close.res.error), close.p)
        else Parsed(Ok(Ast.FunctionCall(Ast.AstNode.Identifier(name), args.res.value)), close.p)
    else Parsed(Ok(Ast.AstNode.Identifier(name)), q)
  }

  /** `parse_array_literal`: `[`, comma-separated expressions, `]`. */
  function ParseArrayLiteral(ts: seq<Token>, p: Parser): (r: Parsed<Ast.AstNode>)
    requires Valid(ts, p)
    ensures Follows(ts, p, r.p)
    ensures r.res.Ok? ==> r.p.current > p.current && r.res.value.ArrayLiteral?
    decreases Rem(ts, p), 0
  {
    var open := Expect(ts, p, OpenBracket);
    if open.res.Err? then Parsed(Err(open.res.error), open.p)
    else
      var items := ParseExprItems(ts, open.p, CloseBracket);
      if items.res.Err? then Parsed(Err(items.res.error), items.p)
      else
        var close := Expect(ts, items.p, CloseBracket);
        if close.res.Err? then Parsed(Err(close.res.error), close.p)
        else Parsed(Ok(Ast.ArrayLiteral(items.res.value)), close.p)
  }

  /** `parse_map_literal`: `{`, comma-separated `key: value` entries, `}`. */
  function ParseMapLiteral(ts: seq<Token>, p: Parser): (r: Parsed<Ast.AstNode>)
    requires Valid(ts, p)
    ensures Follows(ts, p, r.p)
    ensures r.res.Ok? ==> r.p.current > p.current && r.res.value.MapLiteral?
    decreases Rem(ts, p), 0
  {
    var open := Expect(ts, p, OpenBrace);
    if open.res.Err? then Parsed(Err(open.res.error), open.p)
    else
      var entries := ParseEntryItems(ts, open.p);
      if entries.res.Err? then Parsed(Err(entries.res.error), entries.p)
      else
        var close := Expect(ts, entries.p, CloseBrace);
        if close.res.Err? then Parsed(Err(close.res.error), close.p)
        else Parsed(Ok(Ast.MapLiteral(entries.res.value)), close.p)
  }

  /**
   * Comma-separated expressions up to (not including) `terminator`: empty
   * when the terminator comes first, otherwise items separated by commas,
   * stopping after the first item not followed by one.
   */
  function ParseExprItems(ts: seq<Token>, p: Parser, terminator: TokenType): (r: Parsed<seq<Ast.AstNode>>)
    requires Valid(ts, p)
    ensures Follows(ts, p, r.p)
    ensures PeekIs(ts, p, terminator) ==> r == Parsed(Ok([]), p)
    ensures r.res.Ok? && !PeekIs(ts, p, terminator) ==>
      |r.res.value| > 0 && ParseExpression(ts, p).res == Ok(r.res.value[0])
    ensures r.res.Ok? && terminator != Comma ==> !PeekIs(ts, r.p, Comma)
    decreases Rem(ts, p), 6
  {
    if PeekIs(ts, p, terminator) then Parsed(Ok([]), p)
    else
      var item := ParseExpression(ts, p);
      if item.res.Err? then Parsed(Err(item.res.error), item.p)
      else
        var (comma, q) := ConsumeIf(ts, item.p, Comma);
        if !comma then Parsed(Ok([item.res.value]), item.p)
        else
          var rest := ParseExprItems(ts, q, terminator);
          if rest.res.Err? then Parsed(Err(rest.res.error), rest.p)
          else Parsed(Ok([item.res.value] + rest.res.value), rest.p)
  }

  /** Comma-separated `key: value` entries up to (not including) `}`. */
  function ParseEntryItems(ts: seq<Token>, p: Parser): (r: Parsed<seq<Ast.Entry>>)
    requires Valid(ts, p)
    ensures Follows(ts, p, r.p)
    ensures PeekIs(ts, p, CloseBrace) ==> r == Parsed(Ok([]), p)
    ensures r.res.Ok? && !PeekIs(ts, p, CloseBrace) ==>
      |r.res.value| > 0 && ParseExpression(ts, p).res == Ok(r.res.value[0].key)
    ensures r.res.Ok? ==> !PeekIs(ts, r.p, Comma)
    decreases Rem(ts, p), 6
  {
    if PeekIs(ts, p, CloseBrace) then Parsed(Ok([]), p)
    else
      var key := ParseExpression(ts, p);
      if key.res.Err? then Parsed(Err(key.res.error), key.p)
      else
        var colon := Expect(ts, key.p, Colon);
        if colon.res.Err? then Parsed(Err(colon.res.error), colon.p)
        else
          var value := ParseExpression(ts, colon.p);
          if value.res.Err? then Parsed(Err(value.res.error), value.p)
          else
            var entry := Ast.Entry(key.res.value, value.res.value);
            var (comma, q) := ConsumeIf(ts, value.p, Comma);
            if !comma then Parsed(Ok([entry]), value.p)
            else
              var rest := ParseEntryItems(ts, q);
              if rest.res.Err? then Parsed(Err(rest.res.error), rest.p)
              else Parsed(Ok([entry] + rest.res.value), rest.p)
  }
}
