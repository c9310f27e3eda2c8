/**
 * The parser's state and its token cursor: `peek`, `peek_is`, `advance`,
 * `consume_if` and `expect`. Every parsing function takes a state and
 * returns its result together with the state it leaves behind.
 */
module Cursor {
  import opened Wrappers
  import opened Tokens

  /**
   * The cursor over a token sequence: the index of the next token, and the
   * nesting depth with its limit. The tokens never change during a parse, so
   * every function takes them as a separate argument `ts`.
   */
  datatype Parser = Parser(current: nat, depth: nat, maxDepth: nat)

  /** The cursor never passes the end: `advance` is the only thing that moves it. */
  predicate Valid(ts: seq<Token>, p: Parser)
  {
    p.current <= |ts|
  }

  /** The fresh parser: at the first token, depth 0. */
  function NewParser(maxDepth: nat): (p: Parser)
    ensures p.current == 0 && p.depth == 0 && p.maxDepth == maxDepth
  {
    Parser(0, 0, maxDepth)
  }

  datatype ParseError =
    | UnexpectedToken(msg: string)
    | EndOfInput
    | UnexpectedTokenAt(msg: string, line: nat, col: nat)
      /** A statement form whose parser is not part of this model. */
    | OutsideModel(kind: TokenType)

  /** A parsing step: what it produced, and the state after it. */
  datatype Parsed<+T> = Parsed(res: Result<T, ParseError>, p: Parser)

  /** Tokens left to read. */
  function Rem(ts: seq<Token>, p: Parser): nat
  {
    if p.current <= |ts| then |ts| - p.current else 0
  }

  /**
   * `b` is a state a parsing function may leave behind when started in `a`:
   * same tokens and limit, the depth counter back where it was, and the
   * cursor moved forward without passing the end.
   */
  predicate Follows(ts: seq<Token>, a: Parser, b: Parser)
  {
    b.maxDepth == a.maxDepth && b.depth == a.depth
    && a.current <= b.current <= |ts|
  }

  lemma FollowsTransitive(ts: seq<Token>, a: Parser, b: Parser, c: Parser)
    requires Follows(ts, a, b) && Follows(ts, b, c)
    ensures Follows(ts, a, c) && Rem(ts, c) <= Rem(ts, a)
  {
  }

  function Peek(ts: seq<Token>, p: Parser): (r: Option<Token>)
    ensures r.Some? <==> p.current < |ts|
    ensures r.Some? ==> r.value == ts[p.current]
  {
    if p.current < |ts| then Some(ts[p.current]) else None
  }

  /** `peek_is`: the next token exists and has the given kind. */
  predicate PeekIs(ts: seq<Token>, p: Parser, kind: TokenType)
  {
    p.current < |ts| && ts[p.current].kind == kind
  }

  /** The position reported for an error at the next token: its line and column, or 0 at the end. */
  function PeekLine(ts: seq<Token>, p: Parser): nat
  {
    match Peek(ts, p)
    case Some(t) => t.line
    case None => 0
  }

  function PeekCol(ts: seq<Token>, p: Parser): nat
  {
    match Peek(ts, p)
    case Some(t) => t.col
    case None => 0
  }

  /** `advance`: yields the next token and steps past it, if there is one. */
  function Advance(ts: seq<Token>, p: Parser): (r: (Option<Token>, Parser))
    requires Valid(ts, p)
    ensures Valid(ts, r.1) && r.0 == Peek(ts, p)
    ensures r.1 == p.(current := if r.0.Some? then p.current + 1 else p.current)
  {
    var tok := Peek(ts, p);
    if tok.Some? then (tok, p.(current := p.current + 1)) else (tok, p)
  }

  /** `consume_if`: steps past the next token exactly when it has the given kind. */
  function ConsumeIf(ts: seq<Token>, p: Parser, kind: TokenType): (r: (bool, Parser))
    requires Valid(ts, p)
    ensures Valid(ts, r.1) && r.0 == PeekIs(ts, p, kind)
    ensures r.1 == p.(current := if r.0 then p.current + 1 else p.current)
  {
    if PeekIs(ts, p, kind) then (true, Advance(ts, p).1) else (false, p)
  }

  /** The token just before the cursor has the given kind. */
  predicate JustAfter(ts: seq<Token>, p: Parser, kind: TokenType)
  {
    0 < p.current <= |ts| && ts[p.current - 1].kind == kind
  }

  /** The message `expect` reports for a token of the wrong kind. */
  function ExpectMessage(wanted: TokenType, got: TokenType): string
  {
    "Expected " + KindName(wanted) + ", got " + KindName(got)
  }

  /**
   * `expect`: consumes the next token whatever it is, and succeeds only when
   * its kind is the one wanted.
   */
  function Expect(ts: seq<Token>, p: Parser, kind: TokenType): (r: Parsed<Token>)
    requires Valid(ts, p)
    ensures Valid(ts, r.p) && Follows(ts, p, r.p)
    ensures p.current < |ts| ==> r.p == p.(current := p.current + 1)
    ensures p.current == |ts| ==> r.p == p && r.res == Err(EndOfInput)
    ensures r.res.Ok? <==> PeekIs(ts, p, kind)
    ensures r.res.Ok? ==> r.res.value == ts[p.current] && JustAfter(ts, r.p, kind)
    ensures r.res.Err? && p.current < |ts| ==>
      r.res.error == UnexpectedToken(ExpectMessage(kind, ts[p.current].kind))
  {
    var (tok, q) := Advance(ts, p);
    match tok
    case Some(t) =>
      if t.kind == kind then Parsed(Ok(t), q)
      else Parsed(Err(UnexpectedToken(ExpectMessage(kind, t.kind))), q)
    case None => Parsed(Err(EndOfInput), q)
  }

  /** `expect_ident`: the text of an Identifier token. */
  function ExpectIdent(ts: seq<Token>, p: Parser): (r: Parsed<string>)
    requires Valid(ts, p)
    ensures Valid(ts, r.p) && Follows(ts, p, r.p)
    ensures r.p == Expect(ts, p, Identifier).p
    ensures r.res.Ok? <==> PeekIs(ts, p, Identifier)
    ensures r.res.Ok? ==> r.res.value == ts[p.current].value
  {
    var e := Expect(ts, p, Identifier);
    match e.res
    case Ok(t) => Parsed(Ok(t.value), e.p)
    case Err(err) => Parsed(Err(err), e.p)
  }

  /** `consume_if` and a successful `expect` agree on the state they leave. */
  lemma ConsumeIfAgreesWithExpect(ts: seq<Token>, p: Parser, kind: TokenType)
    requires Valid(ts, p)
    ensures ConsumeIf(ts, p, kind).0 <==> Expect(ts, p, kind).res.Ok?
    ensures ConsumeIf(ts, p, kind).0 ==> ConsumeIf(ts, p, kind).1 == Expect(ts, p, kind).p
    ensures !ConsumeIf(ts, p, kind).0 ==> ConsumeIf(ts, p, kind).1 == p
  {
  }

  /** Advancing repeatedly stops at the end: the cursor never exceeds the token count. */
  lemma {:induction false} AdvanceStopsAtEnd(ts: seq<Token>, p: Parser, n: nat)
    requires Valid(ts, p)
    ensures Valid(ts, AdvanceTimes(ts, p, n))
    ensures AdvanceTimes(ts, p, n).current == if p.current + n <= |ts| then p.current + n else |ts|
    decreases n
  {
    if n > 0 {
      AdvanceStopsAtEnd(ts, Advance(ts, p).1, n - 1);
    }
  }

  function AdvanceTimes(ts: seq<Token>, p: Parser, n: nat): Parser
    requires Valid(ts, p)
    decreases n
  {
    if n == 0 then p
    else
      var q := Advance(ts, p).1;
      AdvanceTimes(ts, q, n - 1)
  }

  /** The token at `c` is the identifier `name`. */
  predicate NameAt(ts: seq<Token>, c: nat, name: string)
  {
    c < |ts| && ts[c].kind == Identifier && ts[c].value == name
  }
}
