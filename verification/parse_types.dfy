/**
 * Type annotations and function return types: `[T]`, `{K: V}`, the
 * primitive names, user type names, and `(T1, T2, …)` after `->`.
 */
module TypeParser {
  import opened Wrappers
  import opened Tokens
  import opened Cursor
  import Ast

  const TypeDepthMessage := "Type annotation nesting too deep (recursion limit exceeded)"
  const NoTypeMessage := "Expected type annotation"

  /** The type an identifier names: the four primitives, or a reference to a user type. */
  function NamedType(name: string): (t: Ast.TypeNode)
    ensures t.TypeRef? <==> name !in {"Int", "Str", "Bool", "Void"}
    ensures t.TypeRef? ==> t.name == name
  {
    if name == "Int" then Ast.Int
    else if name == "Str" then Ast.String
    else if name == "Bool" then Ast.Bool
    else if name == "Void" then Ast.Void
    else Ast.TypeRef(name)
  }

  /** The next token can start a type. */
  predicate StartsType(ts: seq<Token>, p: Parser)
  {
    PeekIs(ts, p, OpenBracket) || PeekIs(ts, p, OpenBrace) || PeekIs(ts, p, Identifier)
  }

  /** The error for going one level past the nesting limit, at the next token. */
  function TooDeep(ts: seq<Token>, p: Parser): ParseError
  {
    UnexpectedTokenAt(TypeDepthMessage, PeekLine(ts, p), PeekCol(ts, p))
  }

  /**
   * `parse_type_annotation`, with the depth counter restored on every path
   * (see `ParseTypeAnnotationAsWritten` for the code as it stands).
   */
  function ParseTypeAnnotation(ts: seq<Token>, p: Parser): (r: Parsed<Ast.TypeNode>)
    requires Valid(ts, p)
    ensures Follows(ts, p, r.p)
    ensures r.res.Ok? ==> r.p.current > p.current
    decreases Rem(ts, p), 3
  {
    var d := p.(depth := p.depth + 1);
    if d.depth > d.maxDepth then Parsed(Err(TooDeep(ts, p)), p)
    else
      var r := TypeBody(ts, d);
      Parsed(r.res, r.p.(depth := r.p.depth - 1))
  }

  /** The three productions, parsed one level deeper than the caller. */
  function TypeBody(ts: seq<Token>, d: Parser): (r: Parsed<Ast.TypeNode>)
    requires Valid(ts, d)
    ensures Follows(ts, d, r.p)
    ensures r.res.Ok? ==> r.p.current > d.current
    decreases Rem(ts, d), 2
  {
    if PeekIs(ts, d, OpenBracket) then ArrayType(ts, d)
    else if PeekIs(ts, d, OpenBrace) then MapType(ts, d)
    else if PeekIs(ts, d, Identifier) then
      Parsed(Ok(NamedType(ts[d.current].value)), d.(current := d.current + 1))
    else
      Parsed(Err(UnexpectedToken(NoTypeMessage)), d)
  }

  /** `[T]`: the element type, then the closing bracket. */
  function ArrayType(ts: seq<Token>, d: Parser): (r: Parsed<Ast.TypeNode>)
    requires Valid(ts, d) && PeekIs(ts, d, OpenBracket)
    ensures Follows(ts, d, r.p)
    ensures r.res.Ok? ==> r.p.current > d.current && r.res.value.Array?
    decreases Rem(ts, d), 1
  {
    var inner := ParseTypeAnnotation(ts, d.(current := d.current + 1));
    if inner.res.Err? then Parsed(Err(inner.res.error), inner.p)
    else
      var close := Expect(ts, inner.p, CloseBracket);
      if close.res.Err? then Parsed(Err(close.res.error), close.p)
      else Parsed(Ok(Ast.Array(inner.res.value)), close.p)
  }

  /** `{K: V}`: the key type and a colon, then the rest in `MapValue`. */
  function MapType(ts: seq<Token>, d: Parser): (r: Parsed<Ast.TypeNode>)
    requires Valid(ts, d) && PeekIs(ts, d, OpenBrace)
    ensures Follows(ts, d, r.p)
    ensures r.res.Ok? ==> r.p.current > d.current && r.res.value.Map?
    decreases Rem(ts, d), 1
  {
    var key := ParseTypeAnnotation(ts, d.(current := d.current + 1));
    if key.res.Err? then Parsed(Err(key.res.error), key.p)
    else
      var colon := Expect(ts, key.p, Colon);
      if colon.res.Err? then Parsed(Err(colon.res.error), colon.p)
      else MapValue(ts, d, key.res.value, colon.p)
  }

  /** After `{K:` at `c`: the value type, then the closing brace. */
  function MapValue(ts: seq<Token>, d: Parser, key: Ast.TypeNode, c: Parser): (r: Parsed<Ast.TypeNode>)
    requires Follows(ts, d, c) && d.current < c.current
    ensures Follows(ts, c, r.p)
    ensures r.res.Ok? ==> r.p.current > c.current && r.res.value.Map? && r.res.value.key == key
    decreases Rem(ts, d), 0
  {
    var value := ParseTypeAnnotation(ts, c);
    if value.res.Err? then Parsed(Err(value.res.error), value.p)
    else
      var close := Expect(ts, value.p, CloseBrace);
      if close.res.Err? then Parsed(Err(close.res.error), close.p)
      else Parsed(Ok(Ast.Map(key, value.res.value)), close.p)
  }

  /**
   * `b` is a state the annotation parser as written may leave behind when
   * started in `a`: the cursor moved forward without passing the end, and
   * the depth counter no lower than it was.
   */
  predicate Raised(ts: seq<Token>, a: Parser, b: Parser)
  {
    b.maxDepth == a.maxDepth && a.current <= b.current <= |ts| && b.depth >= a.depth
  }

  /**
   * `parse_type_annotation` exactly as written: an error propagated by `?`
   * from a nested annotation or from the closing `expect` returns before the
   * final decrement, so the counter stays raised.
   */
  function ParseTypeAnnotationAsWritten(ts: seq<Token>, p: Parser): (r: Parsed<Ast.TypeNode>)
    requires Valid(ts, p)
    ensures Raised(ts, p, r.p)
    ensures r.res.Ok? ==> r.p.depth == p.depth
    decreases Rem(ts, p), 2
  {
    var d := p.(depth := p.depth + 1);
    if d.depth > d.maxDepth then Parsed(Err(TooDeep(ts, p)), p)
    else TypeBodyAsWritten(ts, d)
  }

  /** The three productions as written, each responsible for its own decrement. */
  function TypeBodyAsWritten(ts: seq<Token>, d: Parser): (r: Parsed<Ast.TypeNode>)
    requires Valid(ts, d) && d.depth > 0
    ensures r.res.Ok? ==> Raised(ts, d.(depth := d.depth - 1), r.p) && r.p.depth + 1 == d.depth
    ensures r.res.Err? ==> Raised(ts, d.(depth := d.depth - 1), r.p)
    decreases Rem(ts, d), 1
  {
    if PeekIs(ts, d, OpenBracket) then ArrayTypeAsWritten(ts, d)
    else if PeekIs(ts, d, OpenBrace) then MapTypeAsWritten(ts, d)
    else if PeekIs(ts, d, Identifier) then
      Parsed(Ok(NamedType(ts[d.current].value)), d.(current := d.current + 1, depth := d.depth - 1))
    else
      Parsed(Err(UnexpectedToken(NoTypeMessage)), d.(depth := d.depth - 1))
  }

  /** `[T]` as written: the decrement happens only after the closing bracket. */
  function ArrayTypeAsWritten(ts: seq<Token>, d: Parser): (r: Parsed<Ast.TypeNode>)
    requires Valid(ts, d) && PeekIs(ts, d, OpenBracket) && d.depth > 0
    ensures r.res.Ok? ==> Raised(ts, d.(depth := d.depth - 1), r.p) && r.p.depth + 1 == d.depth
    ensures r.res.Err? ==> Raised(ts, d, r.p)
    decreases Rem(ts, d), 0
  {
    var inner := ParseTypeAnnotationAsWritten(ts, d.(current := d.current + 1));
    if inner.res.Err? then Parsed(Err(inner.res.error), inner.p)
    else
      var close := Expect(ts, inner.p, CloseBracket);
      if close.res.Err? then Parsed(Err(close.res.error), close.p)
      else Parsed(Ok(Ast.Array(inner.res.value)), close.p.(depth := close.p.depth - 1))
  }

  /** `{K: V}` as written. */
  function MapTypeAsWritten(ts: seq<Token>, d: Parser): (r: Parsed<Ast.TypeNode>)
    requires Valid(ts, d) && PeekIs(ts, d, OpenBrace) && d.depth > 0
    ensures r.res.Ok? ==> Raised(ts, d.(depth := d.depth - 1), r.p) && r.p.depth + 1 == d.depth
    ensures r.res.Err? ==> Raised(ts, d, r.p)
    decreases Rem(ts, d), 0
  {
    var key := ParseTypeAnnotationAsWritten(ts, d.(current := d.current + 1));
    if key.res.Err? then Parsed(Err(key.res.error), key.p)
    else
      var colon := Expect(ts, key.p, Colon);
      if colon.res.Err? then Parsed(Err(colon.res.error), colon.p)
      else
        var value := ParseTypeAnnotationAsWritten(ts, colon.p);
        if value.res.Err? then Parsed(Err(value.res.error), value.p)
        else
          var close := Expect(ts, value.p, CloseBrace);
          if close.res.Err? then Parsed(Err(close.res.error), close.p)
          else Parsed(Ok(Ast.Map(key.res.value, value.res.value)), close.p.(depth := close.p.depth - 1))
  }

  /**
   * The comma-separated list of types up to (not including) `terminator`:
   * empty when the terminator comes first, otherwise items separated by
   * commas, stopping after the first item not followed by one.
   */
  function ParseTypeItems(ts: seq<Token>, p: Parser, terminator: TokenType): (r: Parsed<seq<Ast.TypeNode>>)
    requires Valid(ts, p)
    ensures Follows(ts, p, r.p)
    ensures PeekIs(ts, p, terminator) ==> r == Parsed(Ok([]), p)
    ensures r.res.Ok? && !PeekIs(ts, p, terminator) ==>
      |r.res.value| > 0 && ParseTypeAnnotation(ts, p).res == Ok(r.res.value[0])
    ensures r.res.Ok? && terminator != Comma ==> !PeekIs(ts, r.p, Comma)
    decreases Rem(ts, p)
  {
    if PeekIs(ts, p, terminator) then Parsed(Ok([]), p)
    else
      var item := ParseTypeAnnotation(ts, p);
      if item.res.Err? then Parsed(Err(item.res.error), item.p)
      else
        var (comma, q) := ConsumeIf(ts, item.p, Comma);
        if !comma then Parsed(Ok([item.res.value]), item.p)
        else
          var rest := ParseTypeItems(ts, q, terminator);
          if rest.res.Err? then Parsed(Err(rest.res.error), rest.p)
          else Parsed(Ok([item.res.value] + rest.res.value), rest.p)
  }

  /** `parse_return_type`: a parenthesised list is a Tuple, anything else a single annotation. */
  function ParseReturnType(ts: seq<Token>, p: Parser): (r: Parsed<Ast.TypeNode>)
    requires Valid(ts, p)
    ensures Follows(ts, p, r.p)
    ensures p.current == |ts| ==> r == Parsed(Err(EndOfInput), p)
    ensures !PeekIs(ts, p, OpenParen) ==> r == ParseTypeAnnotation(ts, p) || p.current == |ts|
    ensures PeekIs(ts, p, OpenParen) && r.res.Ok? ==> r.res.value.Tuple?
  {
    match Peek(ts, p)
    case None => Parsed(Err(EndOfInput), p)
    case Some(tok) =>
      if tok.kind == OpenParen then
        var q := Advance(ts, p).1;
        var items := ParseTypeItems(ts, q, CloseParen);
        if items.res.Err? then Parsed(Err(items.res.error), items.p)
        else
          var close := Expect(ts, items.p, CloseParen);
          if close.res.Err? then Parsed(Err(close.res.error), close.p)
          else Parsed(Ok(Ast.TypeNode.Tuple(items.res.value)), close.p)
      else ParseTypeAnnotation(ts, p)
  }
}
