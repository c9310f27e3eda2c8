/**
 * Properties of the type-annotation grammar, and the depth counter that the
 * annotation parser as written leaves raised after a nested error.
 *
 * The helper lemmas take their hypotheses as one named predicate each: the
 * predicate says in one place what the parse has read so far.
 */
module ParserProps {
  import opened Wrappers
  import opened Tokens
  import opened Cursor
  import opened TypeParser
  import Ast

  /** The token at offset `i` from the cursor has the given kind. */
  predicate KindAt(ts: seq<Token>, p: Parser, i: nat, kind: TokenType)
  {
    p.current + i < |ts| && ts[p.current + i].kind == kind
  }

  /** There is room for `levels` more levels of nesting at `p`. */
  predicate Room(ts: seq<Token>, p: Parser, levels: nat)
  {
    Valid(ts, p) && p.depth + levels <= p.maxDepth
  }

  /** One level past the nesting limit, the annotation parser stops with an error and reads nothing. */
  lemma TypeAnnotationTooDeep(ts: seq<Token>, p: Parser)
    requires Valid(ts, p) && p.depth + 1 > p.maxDepth
    ensures ParseTypeAnnotation(ts, p) == Parsed(Err(TooDeep(ts, p)), p)
    ensures ParseTypeAnnotationAsWritten(ts, p) == Parsed(Err(TooDeep(ts, p)), p)
  {
  }

  /** A token that cannot start a type is an error, and nothing is read. */
  lemma TypeAnnotationNeedsStart(ts: seq<Token>, p: Parser)
    requires Room(ts, p, 1) && !StartsType(ts, p)
    ensures ParseTypeAnnotation(ts, p) == Parsed(Err(UnexpectedToken(NoTypeMessage)), p)
  {
    var d := p.(depth := p.depth + 1);
    assert TypeBody(ts, d) == Parsed(Err(UnexpectedToken(NoTypeMessage)), d);
  }

  /** Room for a level, and a name at the cursor. */
  predicate NameWithRoom(ts: seq<Token>, p: Parser)
  {
    Room(ts, p, 1) && PeekIs(ts, p, Identifier)
  }

  /** A name is the type it names, read in one token. */
  lemma NamedTypeAnnotation(ts: seq<Token>, p: Parser, next: Parser)
    requires NameWithRoom(ts, p) && next == p.(current := p.current + 1)
    ensures ParseTypeAnnotation(ts, p) == Parsed(Ok(NamedType(ts[p.current].value)), next)
  {
    var d := p.(depth := p.depth + 1);
    assert TypeBody(ts, d) == Parsed(Ok(NamedType(ts[d.current].value)), d.(current := d.current + 1));
  }

  /** The same, as written. */
  lemma NamedTypeAnnotationAsWritten(ts: seq<Token>, p: Parser, next: Parser)
    requires NameWithRoom(ts, p) && next == p.(current := p.current + 1)
    ensures ParseTypeAnnotationAsWritten(ts, p) == Parsed(Ok(NamedType(ts[p.current].value)), next)
  {
    var d := p.(depth := p.depth + 1);
    assert TypeBodyAsWritten(ts, d) == Parsed(Ok(NamedType(ts[d.current].value)), next);
  }

  /** The body one level down at `p` came out as `b`. */
  predicate BodyIs(ts: seq<Token>, p: Parser, b: Parsed<Ast.TypeNode>)
  {
    Room(ts, p, 1) && TypeBody(ts, p.(depth := p.depth + 1)) == b
  }

  /** A body parsed one level down is returned with the counter lowered again. */
  lemma BodyLifts(ts: seq<Token>, p: Parser, b: Parsed<Ast.TypeNode>)
    requires BodyIs(ts, p, b)
    ensures ParseTypeAnnotation(ts, p) == Parsed(b.res, b.p.(depth := b.p.depth - 1))
  {
  }

  /** An array opens at `d` and its element type reads as `k`, leaving the cursor at `e1`. */
  predicate ElementRead(ts: seq<Token>, d: Parser, k: Ast.TypeNode, e1: Parser)
  {
    Valid(ts, d) && PeekIs(ts, d, OpenBracket)
    && ParseTypeAnnotation(ts, d.(current := d.current + 1)) == Parsed(Ok(k), e1)
  }

  /** An array whose element type reads as `k`: it closes exactly when the next token is `]`. */
  lemma ArrayOfParts(ts: seq<Token>, d: Parser, k: Ast.TypeNode, e1: Parser)
    requires ElementRead(ts, d, k, e1)
    ensures PeekIs(ts, e1, CloseBracket) ==> ArrayType(ts, d) == Parsed(Ok(Ast.Array(k)), e1.(current := e1.current + 1))
    ensures !PeekIs(ts, e1, CloseBracket) ==> ArrayType(ts, d).res.Err?
  {
  }

  /** The same reading of the element, by the parser as written. */
  predicate ElementReadAsWritten(ts: seq<Token>, d: Parser, k: Ast.TypeNode, e1: Parser)
  {
    Valid(ts, d) && PeekIs(ts, d, OpenBracket) && d.depth > 0
    && ParseTypeAnnotationAsWritten(ts, d.(current := d.current + 1)) == Parsed(Ok(k), e1)
  }

  /** As written, an unclosed array returns with the counter of the level inside it. */
  lemma ArrayOfPartsAsWritten(ts: seq<Token>, d: Parser, k: Ast.TypeNode, e1: Parser)
    requires ElementReadAsWritten(ts, d, k, e1) && e1.current < |ts| && ts[e1.current].kind != CloseBracket
    ensures ArrayTypeAsWritten(ts, d).res.Err? && ArrayTypeAsWritten(ts, d).p.depth == e1.depth
  {
  }

  /** A map opens at `d` and its key reads as `k`, leaving the cursor at `e1`. */
  predicate KeyRead(ts: seq<Token>, d: Parser, k: Ast.TypeNode, e1: Parser)
  {
    Valid(ts, d) && PeekIs(ts, d, OpenBrace)
    && ParseTypeAnnotation(ts, d.(current := d.current + 1)) == Parsed(Ok(k), e1)
  }

  /** After the key, the map goes on to its value exactly when a colon follows. */
  lemma MapKeyPart(ts: seq<Token>, d: Parser, k: Ast.TypeNode, e1: Parser)
    requires KeyRead(ts, d, k, e1)
    ensures PeekIs(ts, e1, Colon) ==> Valid(ts, e1) && MapType(ts, d) == MapValue(ts, d, k, Expect(ts, e1, Colon).p)
    ensures !PeekIs(ts, e1, Colon) ==> MapType(ts, d).res.Err?
  {
  }

  /** The value of a map, after the colon at `c`, reads as `v` and leaves the cursor at `e2`. */
  predicate ValueRead(ts: seq<Token>, d: Parser, c: Parser, v: Ast.TypeNode, e2: Parser)
  {
    Follows(ts, d, c) && d.current < c.current && ParseTypeAnnotation(ts, c) == Parsed(Ok(v), e2)
  }

  /** After the value, the map is complete exactly when `}` follows. */
  lemma MapValuePart(ts: seq<Token>, d: Parser, k: Ast.TypeNode, c: Parser, v: Ast.TypeNode, e2: Parser)
    requires ValueRead(ts, d, c, v, e2)
    ensures PeekIs(ts, e2, CloseBrace) ==> MapValue(ts, d, k, c) == Parsed(Ok(Ast.Map(k, v)), e2.(current := e2.current + 1))
    ensures !PeekIs(ts, e2, CloseBrace) ==> MapValue(ts, d, k, c).res.Err?
  {
  }

  /** `Str` names the String type; the other primitive names map to themselves. */
  lemma PrimitiveNames()
    ensures NamedType("Int") == Ast.Int && NamedType("Str") == Ast.String
    ensures NamedType("Bool") == Ast.Bool && NamedType("Void") == Ast.Void
    ensures NamedType("String") == Ast.TypeRef("String")
  {
  }

  /** The tokens `[ Int ;`: an array type that is never closed. */
  function UnclosedArray(): seq<Token>
  {
    [Token(OpenBracket, "[", 1, 1), Token(Identifier, "Int", 1, 2), Token(Semi, ";", 1, 5)]
  }

  /**
   * As written, the error from the closing `expect` returns before the
   * decrement, so a parse started at depth 0 ends at depth 1.
   */
  lemma UnclosedArrayLeaksDepthAsWritten()
    ensures ParseTypeAnnotationAsWritten(UnclosedArray(), NewParser(2)).res.Err?
    ensures ParseTypeAnnotationAsWritten(UnclosedArray(), NewParser(2)).p.depth == 1
  {
  }

  /** The same tokens, parsed with the counter restored on every path. */
  lemma UnclosedArrayKeepsDepth()
    ensures ParseTypeAnnotation(UnclosedArray(), NewParser(2)).res.Err?
    ensures ParseTypeAnnotation(UnclosedArray(), NewParser(2)).p.depth == 0
  {
  }
}
