/**
 * Statements and declarations: `let`, `fn`, `struct`, `enum`, `if`/`else`
 * chains, blocks, `return`, the statement dispatch and the whole program.
 */
module StmtParser {
  import opened Wrappers
  import opened Text
  import opened Tokens
  import opened Cursor
  import opened TypeParser
  import opened ExprParser
  import Ast

  const LetMessage := "Expected 'let'"
  const MissingNameMessage := "Missing variable name in let declaration"
  const ParamTypeMessage := "Function parameter type annotation is required"

  // ---------------------------------------------------------------------------
  // let
  // ---------------------------------------------------------------------------

  /** One name in a `let` pattern: an identifier; other pattern forms are not part of this model. */
  function ParsePattern(ts: seq<Token>, p: Parser): (r: Parsed<Ast.Pattern>)
    requires Valid(ts, p)
    ensures Follows(ts, p, r.p)
    ensures r.res.Ok? <==> PeekIs(ts, p, Identifier)
    ensures r.res.Ok? ==> r == Parsed(Ok(Ast.Pattern.Identifier(ts[p.current].value)), p.(current := p.current + 1))
  {
    match Peek(ts, p)
    case None => Parsed(Err(EndOfInput), p)
    case Some(tok) =>
      if tok.kind == Identifier then Parsed(Ok(Ast.Pattern.Identifier(tok.value)), Advance(ts, p).1)
      else Parsed(Err(OutsideModel(tok.kind)), p)
  }

  /** Comma-separated patterns up to (not including) `terminator`. */
  function ParsePatternItems(ts: seq<Token>, p: Parser, terminator: TokenType): (r: Parsed<seq<Ast.Pattern>>)
    requires Valid(ts, p)
    ensures Follows(ts, p, r.p)
    ensures PeekIs(ts, p, terminator) ==> r == Parsed(Ok([]), p)
    ensures r.res.Ok? && r.res.value == [] ==> PeekIs(ts, p, terminator)
    decreases Rem(ts, p)
  {
    if PeekIs(ts, p, terminator) then Parsed(Ok([]), p)
    else
      var item := ParsePattern(ts, p);
      if item.res.Err? then Parsed(Err(item.res.error), item.p)
      else
        var (comma, q) := ConsumeIf(ts, item.p, Comma);
        if !comma then Parsed(Ok([item.res.value]), item.p)
        else
          var rest := ParsePatternItems(ts, q, terminator);
          if rest.res.Err? then Parsed(Err(rest.res.error), rest.p)
          else Parsed(Ok([item.res.value] + rest.res.value), rest.p)
  }

  /**
   * `parse_let_pattern`: the names before `=`. None is an error, one name is
   * that pattern, several make a Tuple in source order.
   */
  function ParseLetPattern(ts: seq<Token>, p: Parser): (r: Parsed<Ast.Pattern>)
    requires Valid(ts, p)
    ensures Follows(ts, p, r.p)
    ensures var items := ParsePatternItems(ts, p, Eq);
      match items.res
      case Err(e) => r == Parsed(Err(e), items.p)
      case Ok(ps) =>
        r.p == items.p &&
        (if |ps| == 0 then
           r.res == Err(if PeekIs(ts, items.p, Eq) then UnexpectedTokenAt(MissingNameMessage, PeekLine(ts, items.p), PeekCol(ts, items.p))
                        else UnexpectedToken(MissingNameMessage))
         else if |ps| == 1 then r.res == Ok(ps[0])
         else r.res == Ok(Ast.Pattern.Tuple(ps)))
  {
    var items := ParsePatternItems(ts, p, Eq);
    match items.res
    case Err(e) => Parsed(Err(e), items.p)
    case Ok(ps) =>
      if |ps| == 0 then
        match Peek(ts, items.p)
        case Some(tok) => Parsed(Err(UnexpectedTokenAt(MissingNameMessage, tok.line, tok.col)), items.p)
        case None => Parsed(Err(UnexpectedToken(MissingNameMessage)), items.p)
      else if |ps| == 1 then Parsed(Ok(ps[0]), items.p)
      else Parsed(Ok(Ast.Pattern.Tuple(ps)), items.p)
  }

  /** The optional `: Type` after a let pattern. */
  method ParseOptionalAnnotation(ts: seq<Token>, p: Parser) returns (r: Parsed<Option<Ast.TypeNode>>)
    requires Valid(ts, p)
    ensures Follows(ts, p, r.p)
    ensures !PeekIs(ts, p, Colon) ==> r == Parsed(Ok(None), p)
    ensures PeekIs(ts, p, Colon) ==>
      var t := ParseTypeAnnotation(ts, p.(current := p.current + 1));
      r.p == t.p && (r.res.Ok? <==> t.res.Ok?) && (t.res.Ok? ==> r.res.value == Some(t.res.value))
  {
    if !PeekIs(ts, p, Colon) {
      return Parsed(Ok(None), p);
    }
    var t := ParseTypeAnnotation(ts, p.(current := p.current + 1));
    if t.res.Err? {
      return Parsed(Err(t.res.error), t.p);
    }
    return Parsed(Ok(Some(t.res.value)), t.p);
  }

  /** Where a `let` pattern starts: after `let` and an optional `mut`. */
  function PatternStart(ts: seq<Token>, p: Parser): Parser
  {
    var q := p.(current := p.current + 1);
    if PeekIs(ts, q, Mut) then q.(current := q.current + 1) else q
  }

  /**
   * `parse_let_decl`: `let`, optional `mut`, pattern, optional annotation,
   * `=`, expression, `;`. The reference-counting flag starts unset.
   */
  method ParseLetDecl(ts: seq<Token>, p: Parser) returns (r: Parsed<Ast.AstNode>)
    requires Valid(ts, p)
    ensures Follows(ts, p, r.p)
    ensures r.res.Ok? ==> r.p.current > p.current && JustAfter(ts, r.p, Semi)
    ensures r.res.Ok? ==> r.res.value.LetDecl? && r.res.value.isRefCounted.None? && PeekIs(ts, p, Let)
    ensures r.res.Ok? ==> (r.res.value.mutable <==> PeekIs(ts, p.(current := p.current + 1), Mut))
    ensures r.res.Ok? ==> ParseLetPattern(ts, PatternStart(ts, p)).res == Ok(r.res.value.pattern)
    ensures p.current == |ts| ==> r == Parsed(Err(EndOfInput), p)
    ensures p.current < |ts| && ts[p.current].kind != Let ==>
      r == Parsed(Err(UnexpectedTokenAt(LetMessage, ts[p.current].line, ts[p.current].col)),
                  p.(current := p.current + 1))
  {
    if p.current == |ts| {
      return Parsed(Err(EndOfInput), p);
    }
    var t := ts[p.current];
    if t.kind != Let {
      return Parsed(Err(UnexpectedTokenAt(LetMessage, t.line, t.col)), p.(current := p.current + 1));
    }
    var mutable := PeekIs(ts, p.(current := p.current + 1), Mut);
    var pattern := ParseLetPattern(ts, PatternStart(ts, p));
    if pattern.res.Err? {
      return Parsed(Err(pattern.res.error), pattern.p);
    }
    var rest := ParseLetRest(ts, pattern.p);
    if rest.res.Err? {
      return Parsed(Err(rest.res.error), rest.p);
    }
    var (annotation, value) := rest.res.value;
    return Parsed(Ok(Ast.LetDecl(mutable, annotation, pattern.res.value, value, None)), rest.p);
  }

  /** What follows a `let` pattern: the optional annotation, `=`, the value and `;`. */
  method ParseLetRest(ts: seq<Token>, p: Parser) returns (r: Parsed<(Option<Ast.TypeNode>, Ast.AstNode)>)
    requires Valid(ts, p)
    ensures Follows(ts, p, r.p)
    ensures r.res.Ok? ==> r.p.current > p.current && JustAfter(ts, r.p, Semi)
    ensures r.res.Ok? ==> (r.res.value.0.Some? <==> PeekIs(ts, p, Colon))
  {
    var ann := ParseOptionalAnnotation(ts, p);
    if ann.res.Err? {
      return Parsed(Err(ann.res.error), ann.p);
    }
    var eq := Expect(ts, ann.p, Eq);
    if eq.res.Err? {
      return Parsed(Err(eq.res.error), eq.p);
    }
    var value := ParseExpression(ts, eq.p);
    if value.res.Err? {
      return Parsed(Err(value.res.error), value.p);
    }
    var semi := Expect(ts, value.p, Semi);
    if semi.res.Err? {
      return Parsed(Err(semi.res.error), semi.p);
    }
    return Parsed(Ok((ann.res.value, value.res.value)), semi.p);
  }

  // ---------------------------------------------------------------------------
  // fn, struct, enum
  // ---------------------------------------------------------------------------

  /** Uppercase-initial names are public; the empty name counts as lowercase. */
  function Visibility(name: string): (v: string)
    ensures v == "Public" || v == "Private"
    ensures v == "Public" <==> |name| > 0 && IsUppercase(name[0])
  {
    if IsUppercase(if |name| > 0 then name[0] else 'a') then "Public" else "Private"
  }

  /** One parameter: a name, a mandatory `:`, then its type. */
  method ParseParam(ts: seq<Token>, p: Parser) returns (r: Parsed<(string, Option<Ast.TypeNode>)>)
    requires Valid(ts, p)
    ensures Follows(ts, p, r.p)
    ensures r.res.Ok? ==> r.p.current > p.current + 1 && PeekIs(ts, p, Identifier)
    ensures r.res.Ok? ==> r.res.value.0 == ts[p.current].value
    ensures r.res.Ok? ==>
      r.res.value.1.Some? && ParseTypeAnnotation(ts, p.(current := p.current + 2)).res == Ok(r.res.value.1.value)
    ensures PeekIs(ts, p, Identifier) && p.current + 1 < |ts| && ts[p.current + 1].kind != Colon ==>
      r == Parsed(Err(UnexpectedTokenAt(ParamTypeMessage, ts[p.current + 1].line, ts[p.current + 1].col)),
                  p.(current := p.current + 1))
  {
    var name := ExpectIdent(ts, p);
    if name.res.Err? {
      return Parsed(Err(name.res.error), name.p);
    }
    var q := p.(current := p.current + 1);
    if q.current == |ts| {
      return Parsed(Err(EndOfInput), q);
    }
    var tok := ts[q.current];
    if tok.kind != Colon {
      return Parsed(Err(UnexpectedTokenAt(ParamTypeMessage, tok.line, tok.col)), q);
    }
    var ty := ParseTypeAnnotation(ts, p.(current := p.current + 2));
    if ty.res.Err? {
      return Parsed(Err(ty.res.error), ty.p);
    }
    return Parsed(Ok((name.res.value, Some(ty.res.value))), ty.p);
  }

  /** Comma-separated parameters up to (not including) `)`. */
  method ParseParamItems(ts: seq<Token>, p: Parser) returns (r: Parsed<seq<(string, Option<Ast.TypeNode>)>>)
    requires Valid(ts, p)
    ensures Follows(ts, p, r.p)
    ensures PeekIs(ts, p, CloseParen) ==> r == Parsed(Ok([]), p)
    ensures r.res.Ok? ==> Ast.AllAnnotated(r.res.value)
  {
    var items: seq<(string, Option<Ast.TypeNode>)> := [];
    var cur := p;
    while !PeekIs(ts, cur, CloseParen)
      invariant Follows(ts, p, cur) && (cur == p ==> items == [])
      invariant PeekIs(ts, p, CloseParen) ==> cur == p
      invariant Ast.AllAnnotated(items)
      decreases Rem(ts, cur)
    {
      var item := ParseParam(ts, cur);
      if item.res.Err? {
        return Parsed(Err(item.res.error), item.p);
      }
      AnnotatedAppend(items, item.res.value);
      items := items + [item.res.value];
      var (comma, q) := ConsumeIf(ts, item.p, Comma);
      if !comma {
        return Parsed(Ok(items), item.p);
      }
      cur := q;
    }
    return Parsed(Ok(items), cur);
  }

  lemma AnnotatedAppend(params: seq<(string, Option<Ast.TypeNode>)>, param: (string, Option<Ast.TypeNode>))
    requires Ast.AllAnnotated(params) && param.1.Some?
    ensures Ast.AllAnnotated(params + [param])
  {
  }

  /** The optional `-> ReturnType` of a function. */
  method ParseOptionalReturnType(ts: seq<Token>, p: Parser) returns (r: Parsed<Option<Ast.TypeNode>>)
    requires Valid(ts, p)
    ensures Follows(ts, p, r.p)
    ensures !PeekIs(ts, p, Arrow) ==> r == Parsed(Ok(None), p)
    ensures PeekIs(ts, p, Arrow) ==>
      var t := ParseReturnType(ts, p.(current := p.current + 1));
      r.p == t.p && (r.res.Ok? <==> t.res.Ok?) && (t.res.Ok? ==> r.res.value == Some(t.res.value))
  {
    if !PeekIs(ts, p, Arrow) {
      return Parsed(Ok(None), p);
    }
    var t := ParseReturnType(ts, p.(current := p.current + 1));
    if t.res.Err? {
      return Parsed(Err(t.res.error), t.p);
    }
    return Parsed(Ok(Some(t.res.value)), t.p);
  }

  /** One struct field: name, `:`, type. */
  method ParseField(ts: seq<Token>, p: Parser) returns (r: Parsed<(string, Ast.TypeNode)>)
    requires Valid(ts, p)
    ensures Follows(ts, p, r.p)
    ensures r.res.Ok? ==> r.p.current > p.current + 1 && PeekIs(ts, p, Identifier)
    ensures r.res.Ok? ==> r.res.value.0 == ts[p.current].value
    ensures r.res.Ok? ==> ParseTypeAnnotation(ts, p.(current := p.current + 2)).res == Ok(r.res.value.1)
  {
    var name := ExpectIdent(ts, p);
    if name.res.Err? {
      return Parsed(Err(name.res.error), name.p);
    }
    var colon := Expect(ts, p.(current := p.current + 1), Colon);
    if colon.res.Err? {
      return Parsed(Err(colon.res.error), colon.p);
    }
    var ty := ParseTypeAnnotation(ts, p.(current := p.current + 2));
    if ty.res.Err? {
      return Parsed(Err(ty.res.error), ty.p);
    }
    return Parsed(Ok((name.res.value, ty.res.value)), ty.p);
  }

  /** Comma-separated fields up to (not including) `}`. */
  method ParseFieldItems(ts: seq<Token>, p: Parser) returns (r: Parsed<seq<(string, Ast.TypeNode)>>)
    requires Valid(ts, p)
    ensures Follows(ts, p, r.p)
    ensures PeekIs(ts, p, CloseBrace) ==> r == Parsed(Ok([]), p)
    ensures r.res.Ok? ==> !PeekIs(ts, r.p, Comma)
    ensures r.res.Ok? && !PeekIs(ts, p, CloseBrace) ==> |r.res.value| > 0 && NameAt(ts, p.current, r.res.value[0].0)
    decreases Rem(ts, p)
  {
    if PeekIs(ts, p, CloseBrace) {
      return Parsed(Ok([]), p);
    }
    var item := ParseField(ts, p);
    if item.res.Err? {
      return Parsed(Err(item.res.error), item.p);
    }
    var (comma, q) := ConsumeIf(ts, item.p, Comma);
    if !comma {
      return Parsed(Ok([item.res.value]), item.p);
    }
    var rest := ParseFieldItems(ts, q);
    if rest.res.Err? {
      return Parsed(Err(rest.res.error), rest.p);
    }
    return Parsed(Ok([item.res.value] + rest.res.value), rest.p);
  }

  /** `parse_struct_decl`: `struct Name { field: Type, … }`. */
  method ParseStructDecl(ts: seq<Token>, p: Parser) returns (r: Parsed<Ast.AstNode>)
    requires Valid(ts, p)
    ensures Follows(ts, p, r.p)
    ensures r.res.Ok? ==> r.p.current > p.current && r.res.value.StructDecl? && JustAfter(ts, r.p, CloseBrace)
    ensures r.res.Ok? ==> PeekIs(ts, p, Struct) && p.current + 1 < |ts| && r.res.value.name == ts[p.current + 1].value
  {
    var kw := Expect(ts, p, Struct);
    if kw.res.Err? {
      return Parsed(Err(kw.res.error), kw.p);
    }
    var name := ExpectIdent(ts, p.(current := p.current + 1));
    if name.res.Err? {
      return Parsed(Err(name.res.error), name.p);
    }
    var fields := ParseFieldList(ts, name.p);
    if fields.res.Err? {
      return Parsed(Err(fields.res.error), fields.p);
    }
    return Parsed(Ok(Ast.StructDecl(name.res.value, fields.res.value)), fields.p);
  }

  /** A struct body: `{`, the fields, `}`. */
  method ParseFieldList(ts: seq<Token>, p: Parser) returns (r: Parsed<seq<(string, Ast.TypeNode)>>)
    requires Valid(ts, p)
    ensures Follows(ts, p, r.p)
    ensures r.res.Ok? ==> r.p.current > p.current + 1 && PeekIs(ts, p, OpenBrace) && JustAfter(ts, r.p, CloseBrace)
  {
    var open := Expect(ts, p, OpenBrace);
    if open.res.Err? {
      return Parsed(Err(open.res.error), open.p);
    }
    var fields := ParseFieldItems(ts, open.p);
    if fields.res.Err? {
      return Parsed(Err(fields.res.error), fields.p);
    }
    var close := Expect(ts, fields.p, CloseBrace);
    if close.res.Err? {
      return Parsed(Err(close.res.error), close.p);
    }
    return Parsed(Ok(fields.res.value), close.p);
  }

  /** One enum variant: a name and at most one payload type in parentheses. */
  method ParseVariant(ts: seq<Token>, p: Parser) returns (r: Parsed<(string, Option<Ast.TypeNode>)>)
    requires Valid(ts, p)
    ensures Follows(ts, p, r.p)
    ensures r.res.Ok? ==> r.p.current > p.current && PeekIs(ts, p, Identifier) && r.res.value.0 == ts[p.current].value
    ensures r.res.Ok? ==> (r.res.value.1.Some? <==> PeekIs(ts, p.(current := p.current + 1), OpenParen))
    ensures r.res.Ok? && r.res.value.1.Some? ==>
      JustAfter(ts, r.p, CloseParen) &&
      ParseTypeAnnotation(ts, p.(current := p.current + 2)).res == Ok(r.res.value.1.value)
  {
    var name := ExpectIdent(ts, p);
    if name.res.Err? {
      return Parsed(Err(name.res.error), name.p);
    }
    if !PeekIs(ts, p.(current := p.current + 1), OpenParen) {
      return Parsed(Ok((name.res.value, None)), p.(current := p.current + 1));
    }
    var ty := ParseTypeAnnotation(ts, p.(current := p.current + 2));
    if ty.res.Err? {
      return Parsed(Err(ty.res.error), ty.p);
    }
    var close := Expect(ts, ty.p, CloseParen);
    if close.res.Err? {
      return Parsed(Err(close.res.error), close.p);
    }
    return Parsed(Ok((name.res.value, Some(ty.res.value))), close.p);
  }

  /** Comma-separated variants up to (not including) `}`. */
  method ParseVariantItems(ts: seq<Token>, p: Parser) returns (r: Parsed<seq<(string, Option<Ast.TypeNode>)>>)
    requires Valid(ts, p)
    ensures Follows(ts, p, r.p)
    ensures PeekIs(ts, p, CloseBrace) ==> r == Parsed(Ok([]), p)
    ensures r.res.Ok? ==> !PeekIs(ts, r.p, Comma)
    ensures r.res.Ok? && !PeekIs(ts, p, CloseBrace) ==> |r.res.value| > 0 && NameAt(ts, p.current, r.res.value[0].0)
    decreases Rem(ts, p)
  {
    if PeekIs(ts, p, CloseBrace) {
      return Parsed(Ok([]), p);
    }
    var item := ParseVariant(ts, p);
    if item.res.Err? {
      return Parsed(Err(item.res.error), item.p);
    }
    var (comma, q) := ConsumeIf(ts, item.p, Comma);
    if !comma {
      return Parsed(Ok([item.res.value]), item.p);
    }
    var rest := ParseVariantItems(ts, q);
    if rest.res.Err? {
      return Parsed(Err(rest.res.error), rest.p);
    }
    return Parsed(Ok([item.res.value] + rest.res.value), rest.p);
  }

  /** `parse_enum_decl`: `enum Name { A, B(Type), … }`. */
  method ParseEnumDecl(ts: seq<Token>, p: Parser) returns (r: Parsed<Ast.AstNode>)
    requires Valid(ts, p)
    ensures Follows(ts, p, r.p)
    ensures r.res.Ok? ==> r.p.current > p.current && r.res.value.EnumDecl? && JustAfter(ts, r.p, CloseBrace)
    ensures r.res.Ok? ==> PeekIs(ts, p, Enum) && p.current + 1 < |ts| && r.res.value.name == ts[p.current + 1].value
  {
    var kw := Expect(ts, p, Enum);
    if kw.res.Err? {
      return Parsed(Err(kw.res.error), kw.p);
    }
    var name := ExpectIdent(ts, p.(current := p.current + 1));
    if name.res.Err? {
      return Parsed(Err(name.res.error), name.p);
    }
    var variants := ParseVariantList(ts, name.p);
    if variants.res.Err? {
      return Parsed(Err(variants.res.error), variants.p);
    }
    return Parsed(Ok(Ast.EnumDecl(name.res.value, variants.res.value)), variants.p);
  }

  /** An enum body: `{`, the variants, `}`. */
  method ParseVariantList(ts: seq<Token>, p: Parser) returns (r: Parsed<seq<(string, Option<Ast.TypeNode>)>>)
    requires Valid(ts, p)
    ensures Follows(ts, p, r.p)
    ensures r.res.Ok? ==> r.p.current > p.current + 1 && PeekIs(ts, p, OpenBrace) && JustAfter(ts, r.p, CloseBrace)
  {
    var open := Expect(ts, p, OpenBrace);
    if open.res.Err? {
      return Parsed(Err(open.res.error), open.p);
    }
    var variants := ParseVariantItems(ts, open.p);
    if variants.res.Err? {
      return Parsed(Err(variants.res.error), variants.p);
    }
    var close := Expect(ts, variants.p, CloseBrace);
    if close.res.Err? {
      return Parsed(Err(close.res.error), close.p);
    }
    return Parsed(Ok(variants.res.value), close.p);
  }

  // ---------------------------------------------------------------------------
  // Statements, blocks and the program
  // ---------------------------------------------------------------------------

  /** The kinds `parse_statement` hands to a parser that is not part of this model. */
  predicate OutsideKind(k: TokenType)
  {
    k == Print || k == Break || k == Continue || k == For || k == Identifier || k == Underscore || k == OpenParen
  }

  /** The kinds `parse_statement` has a rule for. */
  predicate StatementKind(k: TokenType)
  {
    k == Let || k == Var || k == Struct || k == Enum || k == If || k == Return || k == Function || OutsideKind(k)
  }

  /** An `if` node whose else branch is absent, a Block, or again such an `if`. */
  predicate ConditionalShape(n: Ast.AstNode)
  {
    n.ConditionalStmt? &&
    match n.elseBranch
    case None => true
    case Some(e) => e.Block? || ConditionalShape(e)
  }

  /**
   * The keyword a statement node starts with: each node kind the statement
   * parsers build has exactly one.
   */
  predicate Introduces(k: TokenType, n: Ast.AstNode)
  {
    match n
    case LetDecl(_, _, _, _, _) => k == Let
    case StructDecl(_, _) => k == Struct
    case EnumDecl(_, _) => k == Enum
    case ConditionalStmt(_, _, _) => k == If
    case Return(_) => k == Return
    case FunctionDecl(_, _, _, _, _) => k == Function
    case _ => false
  }

  /** Token positions that only move forward, starting at `start`. */
  predicate Chain(cuts: seq<nat>, start: nat)
  {
    |cuts| > 0 && cuts[0] == start && forall i | 0 <= i < |cuts| - 1 :: cuts[i] < cuts[i + 1]
  }

  /** The last of the positions, where the statements read so far end. */
  function LastCut(cuts: seq<nat>): nat
  {
    if |cuts| == 0 then 0 else cuts[|cuts| - 1]
  }

  /**
   * `items` are statements read one after another: item `i` starts at token
   * `cuts[i]` with the keyword that introduces it and ends where item `i + 1`
   * starts.
   */
  predicate Statements(ts: seq<Token>, cuts: seq<nat>, items: seq<Ast.AstNode>)
  {
    |cuts| == |items| + 1 &&
    forall i | 0 <= i < |items| :: cuts[i] < cuts[i + 1] && cuts[i] < |ts| && Introduces(ts[cuts[i]].kind, items[i])
  }

  /** The error `parse_statement` reports itself for a first token of kind `k`, before any sub-parser runs. */
  predicate DispatchError(k: TokenType, e: ParseError)
  {
    (!StatementKind(k) ==> e == UnexpectedToken("Unexpected token: " + KindName(k)))
    && (OutsideKind(k) ==> e == OutsideModel(k))
  }

  lemma StatementsAppend(ts: seq<Token>, cuts: seq<nat>, items: seq<Ast.AstNode>, next: nat, item: Ast.AstNode)
    requires Statements(ts, cuts, items) && LastCut(cuts) < next && LastCut(cuts) < |ts|
    requires Introduces(ts[LastCut(cuts)].kind, item)
    ensures Statements(ts, cuts + [next], items + [item])
  {
    var c, n := cuts + [next], items + [item];
    forall i | 0 <= i < |n|
      ensures c[i] < c[i + 1] && c[i] < |ts| && Introduces(ts[c[i]].kind, n[i])
    {
      if i < |items| {
        assert c[i] == cuts[i] && c[i + 1] == cuts[i + 1] && n[i] == items[i];
      }
    }
  }

  lemma ChainAppend(cuts: seq<nat>, start: nat, next: nat)
    requires Chain(cuts, start) && LastCut(cuts) < next
    ensures Chain(cuts + [next], start)
  {
    var c := cuts + [next];
    forall i | 0 <= i < |c| - 1
      ensures c[i] < c[i + 1]
    {
      if i < |cuts| - 1 {
        assert c[i] == cuts[i] && c[i + 1] == cuts[i + 1];
      }
    }
  }

  /**
   * `parse_statement`: dispatch on the kind of the first token. The node a
   * successful parse yields is determined by that kind.
   */
  method ParseStatement(ts: seq<Token>, p: Parser) returns (r: Parsed<Ast.AstNode>)
    requires Valid(ts, p)
    ensures Follows(ts, p, r.p)
    ensures r.res.Ok? ==> r.p.current > p.current
    ensures p.current == |ts| ==> r == Parsed(Err(EndOfInput), p)
    ensures p.current < |ts| && !StatementKind(ts[p.current].kind) ==>
      r == Parsed(Err(UnexpectedToken("Unexpected token: " + KindName(ts[p.current].kind))), p)
    ensures p.current < |ts| && OutsideKind(ts[p.current].kind) ==>
      r == Parsed(Err(OutsideModel(ts[p.current].kind)), p)
    ensures PeekIs(ts, p, Var) ==> r.res.Err?
    ensures r.res.Ok? ==> p.current < |ts| && Introduces(ts[p.current].kind, r.res.value)
    ensures r.res.Err? && p.current < |ts| ==> DispatchError(ts[p.current].kind, r.res.error)
    decreases Rem(ts, p), 2
  {
    if p.current == |ts| {
      return Parsed(Err(EndOfInput), p);
    }
    var k := ts[p.current].kind;
    if k == Let || k == Var {
      r := ParseLetDecl(ts, p);
    } else if k == Struct {
      r := ParseStructDecl(ts, p);
    } else if k == Enum {
      r := ParseEnumDecl(ts, p);
    } else if k == If {
      r := ParseConditional(ts, p);
    } else if k == Return {
      r := ParseReturn(ts, p);
    } else if k == Function {
      r := ParseFunctionDecl(ts, p);
    } else if OutsideKind(k) {
      r := Parsed(Err(OutsideModel(k)), p);
    } else {
      r := Parsed(Err(UnexpectedToken("Unexpected token: " + KindName(k))), p);
    }
  }

  /**
   * The loop of `parse_block`: statements for as long as a token remains and
   * it is not `}`. `cuts` are the positions the statements start at,
   * followed by the position the loop stopped at.
   */
  method ParseBlockItems(ts: seq<Token>, p: Parser) returns (r: Parsed<seq<Ast.AstNode>>, ghost cuts: seq<nat>)
    requires Valid(ts, p)
    ensures Follows(ts, p, r.p)
    ensures Chain(cuts, p.current)
    ensures r.res.Ok? ==> Statements(ts, cuts, r.res.value) && LastCut(cuts) == r.p.current
    ensures r.res.Ok? ==> r.p.current == |ts| || PeekIs(ts, r.p, CloseBrace)
    ensures PeekIs(ts, p, CloseBrace) || p.current == |ts| ==> r == Parsed(Ok([]), p)
    ensures r.res.Err? ==> LastCut(cuts) < |ts| && DispatchError(ts[LastCut(cuts)].kind, r.res.error)
    decreases Rem(ts, p), 3
  {
    cuts := [p.current];
    if p.current == |ts| || PeekIs(ts, p, CloseBrace) {
      return Parsed(Ok([]), p), cuts;
    }
    var stmts: seq<Ast.AstNode> := [];
    var cur := p;
    while cur.current < |ts| && !PeekIs(ts, cur, CloseBrace)
      invariant Follows(ts, p, cur)
      invariant Chain(cuts, p.current) && LastCut(cuts) == cur.current
      invariant Statements(ts, cuts, stmts)
      decreases |ts| - cur.current
    {
      assert Rem(ts, cur) <= Rem(ts, p);
      var s := ParseStatement(ts, cur);
      if s.res.Err? {
        return Parsed(Err(s.res.error), s.p), cuts;
      }
      StatementsAppend(ts, cuts, stmts, s.p.current, s.res.value);
      ChainAppend(cuts, p.current, s.p.current);
      stmts := stmts + [s.res.value];
      cuts := cuts + [s.p.current];
      cur := s.p;
    }
    return Parsed(Ok(stmts), cur), cuts;
  }

  /**
   * `parse_block`: statements until `}`, which is consumed; a missing `}` is
   * an error. `cuts` are the positions the statements start at, followed by
   * the position of the `}` or of the end of the tokens.
   */
  method ParseBlock(ts: seq<Token>, p: Parser) returns (r: Parsed<seq<Ast.AstNode>>, ghost cuts: seq<nat>)
    requires Valid(ts, p)
    ensures Follows(ts, p, r.p)
    ensures r.res.Ok? ==> r.p.current > p.current && JustAfter(ts, r.p, CloseBrace)
    ensures PeekIs(ts, p, CloseBrace) ==> r == Parsed(Ok([]), p.(current := p.current + 1))
    ensures p.current == |ts| ==> r == Parsed(Err(EndOfInput), p)
    ensures Chain(cuts, p.current) && LastCut(cuts) <= |ts|
    ensures r.res.Ok? ==> Statements(ts, cuts, r.res.value) && r.p.current == LastCut(cuts) + 1
    ensures r.res.Err? ==>
      (LastCut(cuts) == |ts| && r.res.error == EndOfInput) ||
      (LastCut(cuts) < |ts| && DispatchError(ts[LastCut(cuts)].kind, r.res.error))
    decreases Rem(ts, p), 4
  {
    var items;
    items, cuts := ParseBlockItems(ts, p);
    if items.res.Err? {
      return Parsed(Err(items.res.error), items.p), cuts;
    }
    var close := Expect(ts, items.p, CloseBrace);
    if close.res.Err? {
      return Parsed(Err(close.res.error), close.p), cuts;
    }
    return Parsed(Ok(items.res.value), close.p), cuts;
  }

  /** `parse_braced_block`: `{` followed by a block. */
  method ParseBracedBlock(ts: seq<Token>, p: Parser) returns (r: Parsed<seq<Ast.AstNode>>)
    requires Valid(ts, p)
    ensures Follows(ts, p, r.p)
    ensures r.res.Ok? ==> p.current + 2 <= r.p.current && PeekIs(ts, p, OpenBrace) && JustAfter(ts, r.p, CloseBrace)
    decreases Rem(ts, p), 5
  {
    var open := Expect(ts, p, OpenBrace);
    if open.res.Err? {
      return Parsed(Err(open.res.error), open.p);
    }
    ghost var cuts;
    r, cuts := ParseBlock(ts, open.p);
  }

  /**
   * `parse_conditional_decl`: `if cond { … }` with an optional `else`, which
   * is either another `if` (parsed recursively) or a block wrapped in a
   * Block node. An `else` at the very end of input leaves no else branch.
   */
  method ParseConditional(ts: seq<Token>, p: Parser) returns (r: Parsed<Ast.AstNode>)
    requires Valid(ts, p)
    ensures Follows(ts, p, r.p)
    ensures r.res.Ok? ==> r.p.current > p.current && PeekIs(ts, p, If) && ConditionalShape(r.res.value)
    ensures r.res.Ok? ==> ParseExpression(ts, p.(current := p.current + 1)).res == Ok(r.res.value.condition)
    decreases Rem(ts, p), 1
  {
    var kw := Expect(ts, p, If);
    if kw.res.Err? {
      return Parsed(Err(kw.res.error), kw.p);
    }
    var cond := ParseExpression(ts, p.(current := p.current + 1));
    if cond.res.Err? {
      return Parsed(Err(cond.res.error), cond.p);
    }
    var thenBlock := ParseBracedBlock(ts, cond.p);
    if thenBlock.res.Err? {
      return Parsed(Err(thenBlock.res.error), thenBlock.p);
    }
    var elseBranch := ParseElse(ts, thenBlock.p);
    if elseBranch.res.Err? {
      return Parsed(Err(elseBranch.res.error), elseBranch.p);
    }
    return Parsed(Ok(Ast.ConditionalStmt(cond.res.value, thenBlock.res.value, elseBranch.res.value)), elseBranch.p);
  }

  /** What follows a then-block: nothing, `else if …`, or `else { … }`. */
  method ParseElse(ts: seq<Token>, p: Parser) returns (r: Parsed<Option<Ast.AstNode>>)
    requires Valid(ts, p)
    ensures Follows(ts, p, r.p)
    ensures !PeekIs(ts, p, Else) ==> r == Parsed(Ok(None), p)
    ensures PeekIs(ts, p, Else) && p.current + 1 == |ts| ==> r == Parsed(Ok(None), p.(current := p.current + 1))
    ensures PeekIs(ts, p, Else) && PeekIs(ts, p.(current := p.current + 1), If) ==>
      r.res.Ok? ==> r.res.value.Some? && ConditionalShape(r.res.value.value)
    ensures PeekIs(ts, p, Else) && p.current + 1 < |ts| && !PeekIs(ts, p.(current := p.current + 1), If) ==>
      r.res.Ok? ==> r.res.value.Some? && r.res.value.value.Block?
    decreases Rem(ts, p), 0
  {
    if !PeekIs(ts, p, Else) {
      return Parsed(Ok(None), p);
    }
    var q := p.(current := p.current + 1);
    if q.current == |ts| {
      return Parsed(Ok(None), q);
    }
    if PeekIs(ts, q, If) {
      var elseIf := ParseConditional(ts, q);
      if elseIf.res.Err? {
        return Parsed(Err(elseIf.res.error), elseIf.p);
      }
      return Parsed(Ok(Some(elseIf.res.value)), elseIf.p);
    }
    var block := ParseBracedBlock(ts, q);
    if block.res.Err? {
      return Parsed(Err(block.res.error), block.p);
    }
    return Parsed(Ok(Some(Ast.Block(block.res.value))), block.p);
  }

  /**
   * `parse_return`: `return`, then expressions for as long as each is
   * followed by a comma, then `;`.
   */
  method ParseReturn(ts: seq<Token>, p: Parser) returns (r: Parsed<Ast.AstNode>)
    requires Valid(ts, p)
    ensures Follows(ts, p, r.p)
    ensures r.res.Ok? ==> r.p.current > p.current && r.res.value.Return? && |r.res.value.values| >= 1
    ensures r.res.Ok? ==> PeekIs(ts, p, Return) && JustAfter(ts, r.p, Semi)
    ensures r.res.Ok? ==> ParseExpression(ts, p.(current := p.current + 1)).res == Ok(r.res.value.values[0])
    ensures p.current < |ts| && ts[p.current].kind != Return ==>
      r == Parsed(Err(UnexpectedToken(ExpectMessage(Return, ts[p.current].kind))), p.(current := p.current + 1))
    decreases Rem(ts, p), 1
  {
    var kw := Expect(ts, p, Return);
    if kw.res.Err? {
      return Parsed(Err(kw.res.error), kw.p);
    }
    var values := ParseReturnValues(ts, p.(current := p.current + 1));
    if values.res.Err? {
      return Parsed(Err(values.res.error), values.p);
    }
    var semi := Expect(ts, values.p, Semi);
    if semi.res.Err? {
      return Parsed(Err(semi.res.error), semi.p);
    }
    return Parsed(Ok(Ast.Return(values.res.value)), semi.p);
  }

  /** The values of a `return`: one expression, then one more after each comma. */
  method ParseReturnValues(ts: seq<Token>, p: Parser) returns (r: Parsed<seq<Ast.AstNode>>)
    requires Valid(ts, p)
    ensures Follows(ts, p, r.p)
    ensures r.res.Ok? ==> |r.res.value| >= 1 && ParseExpression(ts, p).res == Ok(r.res.value[0])
    ensures r.res.Ok? ==> !PeekIs(ts, r.p, Comma)
  {
    var first := ParseExpression(ts, p);
    if first.res.Err? {
      return Parsed(Err(first.res.error), first.p);
    }
    var values := [first.res.value];
    var cur := first.p;
    while PeekIs(ts, cur, Comma)
      invariant Follows(ts, p, cur)
      invariant |values| >= 1 && values[0] == first.res.value
      decreases Rem(ts, cur)
    {
      var e := ParseExpression(ts, cur.(current := cur.current + 1));
      if e.res.Err? {
        return Parsed(Err(e.res.error), e.p);
      }
      values := values + [e.res.value];
      cur := e.p;
    }
    return Parsed(Ok(values), cur);
  }

  /**
   * `parse_functional_decl`: `fn name(p: T, …) -> R { … }`, with visibility
   * taken from the case of the name's first character.
   */
  method ParseFunctionDecl(ts: seq<Token>, p: Parser) returns (r: Parsed<Ast.AstNode>)
    requires Valid(ts, p)
    ensures Follows(ts, p, r.p)
    ensures r.res.Ok? ==> r.p.current > p.current && r.res.value.FunctionDecl? && JustAfter(ts, r.p, CloseBrace)
    ensures r.res.Ok? ==> r.res.value.visibility == Visibility(r.res.value.name)
    ensures r.res.Ok? ==> Ast.AllAnnotated(r.res.value.params)
    ensures r.res.Ok? ==> PeekIs(ts, p, Function) && p.current + 1 < |ts| && r.res.value.name == ts[p.current + 1].value
    decreases Rem(ts, p), 1
  {
    var kw := Expect(ts, p, Function);
    if kw.res.Err? {
      return Parsed(Err(kw.res.error), kw.p);
    }
    var name := ExpectIdent(ts, p.(current := p.current + 1));
    if name.res.Err? {
      return Parsed(Err(name.res.error), name.p);
    }
    var params := ParseParamList(ts, name.p);
    if params.res.Err? {
      return Parsed(Err(params.res.error), params.p);
    }
    var ret := ParseOptionalReturnType(ts, params.p);
    if ret.res.Err? {
      return Parsed(Err(ret.res.error), ret.p);
    }
    var body := ParseBracedBlock(ts, ret.p);
    if body.res.Err? {
      return Parsed(Err(body.res.error), body.p);
    }
    var n := name.res.value;
    return Parsed(Ok(Ast.FunctionDecl(n, Visibility(n), params.res.value, ret.res.value, body.res.value)), body.p);
  }

  /** A parameter list: `(`, the parameters, `)`. */
  method ParseParamList(ts: seq<Token>, p: Parser) returns (r: Parsed<seq<(string, Option<Ast.TypeNode>)>>)
    requires Valid(ts, p)
    ensures Follows(ts, p, r.p)
    ensures r.res.Ok? ==> r.p.current > p.current + 1 && PeekIs(ts, p, OpenParen) && JustAfter(ts, r.p, CloseParen)
    ensures r.res.Ok? ==> Ast.AllAnnotated(r.res.value)
  {
    var open := Expect(ts, p, OpenParen);
    if open.res.Err? {
      return Parsed(Err(open.res.error), open.p);
    }
    var params := ParseParamItems(ts, open.p);
    if params.res.Err? {
      return Parsed(Err(params.res.error), params.p);
    }
    var close := Expect(ts, params.p, CloseParen);
    if close.res.Err? {
      return Parsed(Err(close.res.error), close.p);
    }
    return Parsed(Ok(params.res.value), close.p);
  }

  /**
   * `parse_program` on a fresh parser over `tokens`: statements until the
   * tokens run out; the first error stops it. `cuts` are the positions the
   * statements start at, followed by the position the loop stopped at.
   */
  method ParseProgram(tokens: seq<Token>, maxDepth: nat) returns (r: Result<Ast.AstNode, ParseError>, ghost cuts: seq<nat>)
    ensures r.Ok? ==> r.value.Program? && |r.value.items| <= |tokens|
    ensures |tokens| == 0 ==> r == Ok(Ast.Program([]))
    ensures Chain(cuts, 0)
    ensures r.Ok? ==> LastCut(cuts) == |tokens| && Statements(tokens, cuts, r.value.items)
    ensures r.Err? ==> LastCut(cuts) < |tokens| && DispatchError(tokens[LastCut(cuts)].kind, r.error)
  {
    var stmts: seq<Ast.AstNode> := [];
    var cur := NewParser(maxDepth);
    cuts := [0];
    while cur.current < |tokens|
      invariant Valid(tokens, cur) && cur.depth == 0 && cur.maxDepth == maxDepth
      invariant |stmts| <= cur.current
      invariant Chain(cuts, 0) && LastCut(cuts) == cur.current
      invariant Statements(tokens, cuts, stmts)
      decreases |tokens| - cur.current
    {
      var s := ParseStatement(tokens, cur);
      if s.res.Err? {
        return Err(s.res.error), cuts;
      }
      StatementsAppend(tokens, cuts, stmts, s.p.current, s.res.value);
      ChainAppend(cuts, 0, s.p.current);
      stmts := stmts + [s.res.value];
      cuts := cuts + [s.p.current];
      cur := s.p;
    }
    return Ok(Ast.Program(stmts)), cuts;
  }
}
