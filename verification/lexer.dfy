/**
 * The lexer: one left-to-right pass over the characters of a source file that
 * skips whitespace and comments and emits tokens stamped with the 1-based line
 * and column where their text starts.
 *
 * The pass is modelled as repeated `Step`s over the unread suffix `rest`.  A
 * `Mode` selects between the position bookkeeping as written and the corrected
 * one; `Lex`, which the rest of the compiler uses, is the corrected lexer.
 */
module Lexer {
  import opened Wrappers
  import opened Text
  import opened Tokens

  datatype Mode = AsWritten | Corrected

  // ---------------------------------------------------------------------------
  // Positions
  // ---------------------------------------------------------------------------

  /** Where reading `t` from (line, col) ends: a newline starts the next line at column 1. */
  function Advance(line: nat, col: nat, t: string): (nat, nat)
    decreases |t|
  {
    if |t| == 0 then (line, col)
    else if t[0] == '\n' then Advance(line + 1, 1, t[1..])
    else Advance(line, col + 1, t[1..])
  }

  /** The (line, column) of offset `i` of `input`. */
  function PosOf(input: string, i: nat): (nat, nat)
    requires i <= |input|
  {
    Advance(1, 1, input[..i])
  }

  function CountNewlines(t: string): nat
    decreases |t|
  {
    if |t| == 0 then 0 else (if t[0] == '\n' then 1 else 0) + CountNewlines(t[1..])
  }

  /** Reading `t` moves down one line per newline it contains. */
  lemma {:induction false} AdvanceLines(line: nat, col: nat, t: string)
    ensures Advance(line, col, t).0 == line + CountNewlines(t)
    ensures '\n' !in t ==> Advance(line, col, t) == (line, col + |t|)
    decreases |t|
  {
    if |t| > 0 {
      AdvanceLines(if t[0] == '\n' then line + 1 else line, if t[0] == '\n' then 1 else col + 1, t[1..]);
      assert '\n' !in t ==> '\n' !in t[1..];
    }
  }

  lemma {:induction false} AdvanceAppend(line: nat, col: nat, a: string, b: string)
    ensures Advance(line, col, a + b) == Advance(Advance(line, col, a).0, Advance(line, col, a).1, b)
    decreases |a|
  {
    if |a| > 0 {
      assert (a + b)[1..] == a[1..] + b;
      AdvanceAppend(if a[0] == '\n' then line + 1 else line, if a[0] == '\n' then 1 else col + 1, a[1..], b);
    } else {
      assert a + b == b;
    }
  }

  // ---------------------------------------------------------------------------
  // Keyword and operator tables
  // ---------------------------------------------------------------------------

  function Keyword(word: string): Option<TokenType>
  {
    if word == "let" then Option.Some(Let)
    else if word == "mut" then Option.Some(Mut)
    else if word == "fn" then Option.Some(Function)
    else if word == "import" then Option.Some(Import)
    else if word == "struct" then Option.Some(Struct)
    else if word == "enum" then Option.Some(Enum)
    else if word == "if" then Option.Some(If)
    else if word == "else" then Option.Some(Else)
    else if word == "for" then Option.Some(For)
    else if word == "in" then Option.Some(In)
    else if word == "return" then Option.Some(Return)
    else if word == "break" then Option.Some(Break)
    else if word == "continue" then Option.Some(Continue)
    else if word == "print" then Option.Some(Print)
    else if word == "true" || word == "false" then Option.Some(Boolean)
    else None
  }

  /**
   * The operator table, looked up by the operator's text. The text is split
   * by length and then by character, which is the same finite map.
   */
  function Operator(op: string): Option<TokenType>
  {
    if |op| == 1 then SingleOperator(op[0])
    else if |op| == 2 then DoubleOperator(op[0], op[1])
    else if |op| == 3 then TripleOperator(op[0], op[1], op[2])
    else None
  }

  function SingleOperator(c: char): Option<TokenType>
  {
    match c
    case '=' => Option.Some(Eq)
    case '+' => Option.Some(Plus)
    case '-' => Option.Some(Minus)
    case '*' => Option.Some(Star)
    case '/' => Option.Some(Slash)
    case '%' => Option.Some(Percent)
    case '!' => Option.Some(Bang)
    case '<' => Option.Some(Lt)
    case '>' => Option.Some(Gt)
    case '&' => Option.Some(And)
    case '|' => Option.Some(Or)
    case '(' => Option.Some(OpenParen)
    case ')' => Option.Some(CloseParen)
    case '{' => Option.Some(OpenBrace)
    case '}' => Option.Some(CloseBrace)
    case '[' => Option.Some(OpenBracket)
    case ']' => Option.Some(CloseBracket)
    case ',' => Option.Some(Comma)
    case ';' => Option.Some(Semi)
    case '.' => Option.Some(Dot)
    case ':' => Option.Some(Colon)
    case '#' => Option.Some(Pound)
    case '~' => Option.Some(Tilde)
    case '?' => Option.Some(Question)
    case '$' => Option.Some(Dollar)
    case '_' => Option.Some(Underscore)
    case _ => None
  }

  function DoubleOperator(a: char, b: char): Option<TokenType>
  {
    if b == '=' then
      match a
      case '=' => Option.Some(EqEq)
      case '!' => Option.Some(NotEq)
      case '>' => Option.Some(GtEq)
      case '<' => Option.Some(LtEq)
      case '+' => Option.Some(PlusEq)
      case '-' => Option.Some(MinusEq)
      case '*' => Option.Some(StarEq)
      case '/' => Option.Some(SlashEq)
      case '%' => Option.Some(PercentEq)
      case _ => None
    else if a == '&' && b == '&' then Option.Some(AndAnd)
    else if a == '|' && b == '|' then Option.Some(OrOr)
    else if a == '-' && b == '>' then Option.Some(Arrow)
    else if a == '=' && b == '>' then Option.Some(FatArrow)
    else if a == '.' && b == '.' then Option.Some(RangeExc)
    else None
  }

  function TripleOperator(a: char, b: char, c: char): Option<TokenType>
  {
    if a == '=' && b == '=' && c == '=' then Option.Some(EqEqEq)
    else if a == '!' && b == '=' && c == '=' then Option.Some(NotEqEq)
    else if a == '.' && b == '.' && c == '=' then Option.Some(RangeInc)
    else None
  }

  // ---------------------------------------------------------------------------
  // Scanning helpers: each returns an offset into `rest`
  // ---------------------------------------------------------------------------

  /** The first offset at or after `k` holding a newline, or the end. */
  function LineEnd(rest: string, k: nat): (e: nat)
    requires k <= |rest|
    decreases |rest| - k
    ensures k <= e <= |rest| && (e < |rest| ==> rest[e] == '\n')
    ensures forall j | k <= j < e :: rest[j] != '\n'
  {
    if k == |rest| || rest[k] == '\n' then k else LineEnd(rest, k + 1)
  }

  /** The first offset at or after `k` that is not a decimal digit, or the end. */
  function DigitsEnd(rest: string, k: nat): (e: nat)
    requires k <= |rest|
    decreases |rest| - k
    ensures k <= e <= |rest| && (e < |rest| ==> !IsDigit(rest[e]))
    ensures forall j | k <= j < e :: IsDigit(rest[j])
  {
    if k == |rest| || !IsDigit(rest[k]) then k else DigitsEnd(rest, k + 1)
  }

  predicate IsWordChar(c: char)
  {
    IsAlphanumeric(c) || c == '_'
  }

  /** The first offset at or after `k` that cannot continue a word, or the end. */
  function WordEnd(rest: string, k: nat): (e: nat)
    requires k <= |rest|
    decreases |rest| - k
    ensures k <= e <= |rest| && (e < |rest| ==> !IsWordChar(rest[e]))
    ensures forall j | k <= j < e :: IsWordChar(rest[j])
  {
    if k == |rest| || !IsWordChar(rest[k]) then k else WordEnd(rest, k + 1)
  }

  /**
   * How much of `rest` (which starts with a slash and a star) a block comment
   * takes: through the first star-slash after the opener.  Unterminated, the
   * code as written stops one character short of the end, and that last
   * character is then lexed as a token; corrected, the comment runs to the end.
   */
  function BlockCommentLength(rest: string, mode: Mode): (n: nat)
    requires StartsWith(rest, "/*")
    ensures 2 <= n <= |rest|
    ensures FindFrom(rest, "*/", 2).Some? ==> n == FindFrom(rest, "*/", 2).value + 2
    ensures FindFrom(rest, "*/", 2).None? && mode == Corrected ==> n == |rest|
  {
    match FindFrom(rest, "*/", 2)
    case Some(q) => q + 2
    case None =>
      if mode == Corrected || |rest| <= 2 then |rest| else |rest| - 1
  }

  /**
   * The extent of a numeric literal at the start of `rest`: the digits, a
   * fraction when a dot is followed by a digit, and an exponent when `e`/`E`
   * (with an optional sign) is followed by digits.  `colAdvance` is how far the
   * code as written moves the column: after a rejected exponent it does not
   * move back.
   */
  datatype NumberScan = NumberScan(len: nat, colAdvance: nat, isFloat: bool)

  function ScanNumber(rest: string): (r: NumberScan)
    requires |rest| > 0 && IsDigit(rest[0])
    ensures 1 <= r.len <= r.colAdvance <= |rest|
    ensures AllDigits(rest[..r.len]) <==> !r.isFloat
  {
    var d := DigitsEnd(rest, 0);
    var f := if d + 1 < |rest| && rest[d] == '.' && IsDigit(rest[d + 1]) then DigitsEnd(rest, d + 1) else d;
    assert f > d ==> rest[d] == '.' && !IsDigit(rest[..f][d]);
    if f < |rest| && (rest[f] == 'e' || rest[f] == 'E') then
      var s := if f + 1 < |rest| && (rest[f + 1] == '+' || rest[f + 1] == '-') then f + 2 else f + 1;
      var e := DigitsEnd(rest, s);
      if e == s then
        NumberScan(f, s, f > d)
      else
        assert !IsDigit(rest[..e][f]);
        NumberScan(e, e, true)
    else
      NumberScan(f, f, f > d)
  }

  // ---------------------------------------------------------------------------
  // One step of the lexer
  // ---------------------------------------------------------------------------

  /** What one pass of the main loop does: how much it reads, the token it emits, and the new position. */
  datatype Move = Move(len: nat, tok: Option<Token>, line: nat, col: nat)

  predicate IsStringToken(t: Token)
  {
    t.kind == String
  }

  /** The kind the lexer gives a word: any underscore makes it Unknown. */
  function WordKind(word: string): TokenType
  {
    if '_' in word then Unknown else Keyword(word).UnwrapOr(Identifier)
  }

  /** The longest operator (three, two, then one character) that `rest` starts with. */
  function OperatorLength(rest: string): (n: nat)
    requires |rest| > 0
    ensures n <= 3 && n <= |rest|
    ensures n > 0 ==> Operator(rest[..n]).Some?
    ensures forall k | n < k <= 3 && k <= |rest| :: Operator(rest[..k]).None?
  {
    if 3 <= |rest| && Operator(rest[..3]).Some? then 3
    else if 2 <= |rest| && Operator(rest[..2]).Some? then 2
    else if Operator(rest[..1]).Some? then 1
    else 0
  }

  /**
   * What every step guarantees: it reads at least one character; a token it
   * emits is stamped with the position the step started at and carries the
   * text it read (a string literal: the text between its quotes); corrected,
   * the new position is the old one advanced over the text read.
   */
  predicate Faithful(rest: string, line: nat, col: nat, mode: Mode, st: Move)
  {
    1 <= st.len <= |rest|
    && (st.tok.Some? ==> st.tok.value.line == line && st.tok.value.col == col)
    && (st.tok.Some? && !IsStringToken(st.tok.value) ==> st.tok.value.value == rest[..st.len])
    && (st.tok.Some? && IsStringToken(st.tok.value) ==>
          2 <= st.len && rest[0] == '"' && rest[st.len - 1] == '"'
          && st.tok.value.value == rest[1..st.len - 1] && '"' !in st.tok.value.value)
    && (mode == Corrected ==> (st.line, st.col) == Advance(line, col, rest[..st.len]))
  }

  /** One pass of the main loop, its branches tried in the order the source tries them. */
  function Step(rest: string, line: nat, col: nat, mode: Mode): (st: Move)
    requires |rest| > 0
    ensures Faithful(rest, line, col, mode, st)
  {
    var c := rest[0];
    if IsWhitespace(c) then
      assert rest[..1] == [c];
      Move(1, None, if c == '\n' then line + 1 else line, if c == '\n' then 1 else col + 1)
    else if c == '/' && 1 < |rest| && rest[1] == '/' then
      LineCommentStep(rest, line, col, mode)
    else if c == '/' && 1 < |rest| && rest[1] == '*' then
      var n := BlockCommentLength(rest, mode);
      var pos := Advance(line, col, rest[..n]);
      Move(n, None, pos.0, pos.1)
    else if c == '.' && 2 < |rest| && rest[1] == '.' && rest[2] == '=' then
      assert rest[..3] == "..=";
      AdvanceLines(line, col, rest[..3]);
      Move(3, Option.Some(Token(RangeInc, "..=", line, col)), line, col + 3)
    else if c == '.' && 1 < |rest| && rest[1] == '.' then
      assert rest[..2] == "..";
      AdvanceLines(line, col, rest[..2]);
      Move(2, Option.Some(Token(RangeExc, "..", line, col)), line, col + 2)
    else if c == '"' then
      StringStep(rest, line, col, mode)
    else if IsDigit(c) then
      NumberStep(rest, line, col, mode)
    else if IsAlphabetic(c) || c == '_' then
      WordStep(rest, line, col, mode)
    else
      OperatorStep(rest, line, col, mode)
  }

  function LineCommentStep(rest: string, line: nat, col: nat, mode: Mode): (st: Move)
    requires 1 < |rest| && rest[0] == '/' && rest[1] == '/'
    ensures Faithful(rest, line, col, mode, st) && st.tok.None?
  {
    var n := LineEnd(rest, 2);
    assert '\n' !in rest[..n];
    AdvanceLines(line, col, rest[..n]);
    Move(n, None, line, col + n)
  }

  function NumberStep(rest: string, line: nat, col: nat, mode: Mode): (st: Move)
    requires |rest| > 0 && IsDigit(rest[0])
    ensures Faithful(rest, line, col, mode, st) && st.tok.Some?
    ensures st.tok.value.kind == (if ScanNumber(rest).isFloat then Float else Number)
  {
    var r := ScanNumber(rest);
    assert '\n' !in rest[..r.len] by {
      forall j | 0 <= j < r.len ensures rest[j] != '\n' {
        assert j < r.colAdvance;
      }
    }
    AdvanceLines(line, col, rest[..r.len]);
    Move(r.len, Option.Some(Token(if r.isFloat then Float else Number, rest[..r.len], line, col)),
         line, col + (if mode == Corrected then r.len else r.colAdvance))
  }

  function WordStep(rest: string, line: nat, col: nat, mode: Mode): (st: Move)
    requires |rest| > 0 && (IsAlphabetic(rest[0]) || rest[0] == '_')
    ensures Faithful(rest, line, col, mode, st) && st.tok.Some?
    ensures st.tok.value.kind == WordKind(st.tok.value.value)
  {
    var n := WordEnd(rest, 1);
    assert '\n' !in rest[..n];
    AdvanceLines(line, col, rest[..n]);
    WordKindNotString(rest[..n]);
    Move(n, Option.Some(Token(WordKind(rest[..n]), rest[..n], line, col)), line, col + n)
  }

  function OperatorStep(rest: string, line: nat, col: nat, mode: Mode): (st: Move)
    requires |rest| > 0 && !IsWhitespace(rest[0])
    ensures Faithful(rest, line, col, mode, st) && st.tok.Some?
  {
    var n := OperatorLength(rest);
    if n > 0 then
      OperatorShape(rest[..n]);
      AdvanceLines(line, col, rest[..n]);
      Move(n, Option.Some(Token(Operator(rest[..n]).value, rest[..n], line, col)), line, col + n)
    else
      assert rest[..1] == [rest[0]];
      Move(1, Option.Some(Token(Unknown, rest[..1], line, col)), line, col + 1)
  }

  lemma WordKindNotString(word: string)
    ensures WordKind(word) != String
  {
  }

  lemma OperatorShape(op: string)
    requires Operator(op).Some?
    ensures Operator(op).value != String && '\n' !in op
  {
  }

  /**
   * A string literal: the text up to the next double quote, without the
   * quotes.  Unterminated, it swallows the rest of the input and emits nothing.
   * As written, newlines inside the literal only move the column.
   */
  function StringStep(rest: string, line: nat, col: nat, mode: Mode): (st: Move)
    requires |rest| > 0 && rest[0] == '"'
    ensures 1 <= st.len <= |rest|
    ensures st.tok.Some? ==> st.tok.value.line == line && st.tok.value.col == col && IsStringToken(st.tok.value)
    ensures st.tok.Some? ==> (2 <= st.len && rest[st.len - 1] == '"'
                              && st.tok.value.value == rest[1..st.len - 1] && '"' !in st.tok.value.value)
    ensures st.tok.None? <==> '"' !in rest[1..]
    ensures st.tok.None? ==> st.len == |rest|
    ensures mode == Corrected ==> (st.line, st.col) == Advance(line, col, rest[..st.len])
  {
    var n := match FindFrom(rest, "\"", 1) case Some(q) => q + 1 case None => |rest|;
    var pos := if mode == Corrected then Advance(line, col, rest[..n]) else (line, col + n);
    match FindFrom(rest, "\"", 1)
    case Some(q) =>
      assert rest[q..q + 1] == "\"";
      assert forall j | 1 <= j < q :: rest[j] != '"' by {
        forall j | 1 <= j < q ensures rest[j] != '"' {
          assert !OccursAt(rest, "\"", j);
          assert rest[j..j + 1] == [rest[j]];
        }
      }
      Move(n, Option.Some(Token(String, rest[1..q], line, col)), pos.0, pos.1)
    case None =>
      assert '"' !in rest[1..] by {
        forall j | 1 <= j < |rest| ensures rest[j] != '"' {
          assert !OccursAt(rest, "\"", j);
          assert rest[j..j + 1] == [rest[j]];
        }
      }
      Move(n, None, pos.0, pos.1)
  }

  // ---------------------------------------------------------------------------
  // The whole pass
  // ---------------------------------------------------------------------------

  /** A token together with the offset of its first character in the scanned text. */
  datatype Located = Located(tok: Token, start: nat)

  function Shift(ls: seq<Located>, n: nat): (r: seq<Located>)
    ensures |r| == |ls|
    ensures forall i | 0 <= i < |ls| :: r[i] == Located(ls[i].tok, ls[i].start + n)
  {
    seq(|ls|, i requires 0 <= i < |ls| => Located(ls[i].tok, ls[i].start + n))
  }

  function Scan(rest: string, line: nat, col: nat, mode: Mode): (r: seq<Located>)
    decreases |rest|
    ensures forall i | 0 <= i < |r| :: r[i].start < |rest|
  {
    if |rest| == 0 then []
    else
      var st := Step(rest, line, col, mode);
      var tail := Shift(Scan(rest[st.len..], st.line, st.col, mode), st.len);
      if st.tok.Some? then [Located(st.tok.value, 0)] + tail else tail
  }

  function TokensOf(ls: seq<Located>): (r: seq<Token>)
    ensures |r| == |ls| && forall i | 0 <= i < |ls| :: r[i] == ls[i].tok
  {
    seq(|ls|, i requires 0 <= i < |ls| => ls[i].tok)
  }

  /** `lex`, with its position bookkeeping corrected. */
  function Lex(input: string): seq<Token>
  {
    TokensOf(Scan(input, 1, 1, Corrected))
  }

  /** `lex` exactly as written. */
  function LexAsWritten(input: string): seq<Token>
  {
    TokensOf(Scan(input, 1, 1, AsWritten))
  }
}
