/** What the lexer promises about the tokens it produces. */
module LexerProps {
  import opened Wrappers
  import opened Text
  import opened Tokens
  import opened Lexer

  // ---------------------------------------------------------------------------
  // Every token is the text at its own position
  // ---------------------------------------------------------------------------

  /** A token stamped where its text starts, carrying that text unless it is a string literal. */
  predicate StampedAt(input: string, t: Token, at: nat)
  {
    at < |input|
    && at <= |input| && (t.line, t.col) == PosOf(input, at)
    && (!IsStringToken(t) ==> OccursAt(input, t.value, at))
  }

  lemma ScanUnfold(rest: string, line: nat, col: nat, mode: Mode)
    requires |rest| > 0
    ensures var st := Step(rest, line, col, mode);
            Scan(rest, line, col, mode)
            == (if st.tok.Some? then [Located(st.tok.value, 0)] else [])
               + Shift(Scan(rest[st.len..], st.line, st.col, mode), st.len)
  {
  }

  /** One step from a known position: where it ends, and that its token is stamped where it starts. */
  lemma StepStamped(input: string, k: nat, line: nat, col: nat)
    requires k < |input| && (line, col) == PosOf(input, k)
    ensures var st := Step(input[k..], line, col, Corrected);
            k + st.len <= |input| && (st.line, st.col) == PosOf(input, k + st.len)
            && (st.tok.Some? ==> StampedAt(input, st.tok.value, k + 0))
  {
    var rest := input[k..];
    var st := Step(rest, line, col, Corrected);
    var k' := k + st.len;
    assert Faithful(rest, line, col, Corrected, st);
    assert input[..k'] == input[..k] + rest[..st.len];
    AdvanceAppend(1, 1, input[..k], rest[..st.len]);
    if st.tok.Some? && !IsStringToken(st.tok.value) {
      assert input[k..k + |st.tok.value.value|] == rest[..st.len];
    }
  }

  /** `ScanUnfold` for a scan that starts part-way into `input`. */
  lemma ScanAt(input: string, k: nat, line: nat, col: nat)
    requires k < |input|
    ensures var st := Step(input[k..], line, col, Corrected);
            k + st.len <= |input|
            && Scan(input[k..], line, col, Corrected)
               == (if st.tok.Some? then [Located(st.tok.value, 0)] else [])
                  + Shift(Scan(input[k + st.len..], st.line, st.col, Corrected), st.len)
  {
    var rest := input[k..];
    var st := Step(rest, line, col, Corrected);
    assert rest[st.len..] == input[k + st.len..];
    ScanUnfold(rest, line, col, Corrected);
  }

  lemma {:induction false} ScanFromPosition(input: string, k: nat, line: nat, col: nat)
    requires k <= |input| && (line, col) == PosOf(input, k)
    ensures AllStamped(input, k, Scan(input[k..], line, col, Corrected))
    decreases |input| - k
  {
    var rest := input[k..];
    if |rest| > 0 {
      var st := Step(rest, line, col, Corrected);
      var next := k + st.len;
      StepStamped(input, k, line, col);
      ScanFromPosition(input, next, st.line, st.col);
      StampedConcat(input, k, st.len, next, st.tok, Scan(input[next..], st.line, st.col, Corrected));
      ScanAt(input, k, line, col);
    }
  }

  /** Every entry of `r` is stamped at `k` plus its own offset (stated one entry at a time). */
  predicate AllStamped(input: string, k: nat, r: seq<Located>)
    decreases |r|
  {
    |r| == 0 || (StampedAt(input, r[0].tok, k + r[0].start) && AllStamped(input, k, r[1..]))
  }

  lemma {:induction false} StampedShift(input: string, k: nat, n: nat, tail: seq<Located>)
    requires AllStamped(input, k + n, tail)
    ensures AllStamped(input, k, Shift(tail, n))
    decreases |tail|
  {
    if |tail| > 0 {
      StampedShift(input, k, n, tail[1..]);
      assert Shift(tail, n)[1..] == Shift(tail[1..], n);
    }
  }

  /** A stamped first token followed by a stamped, shifted tail. */
  lemma StampedConcat(input: string, k: nat, n: nat, next: nat, tok: Option<Token>, tail: seq<Located>)
    requires next == k + n
    requires tok.Some? ==> StampedAt(input, tok.value, k + 0)
    requires AllStamped(input, next, tail)
    ensures AllStamped(input, k, (if tok.Some? then [Located(tok.value, 0)] else []) + Shift(tail, n))
  {
    StampedShift(input, k, n, tail);
    if tok.Some? {
      var r := [Located(tok.value, 0)] + Shift(tail, n);
      assert r[1..] == Shift(tail, n);
    } else {
      assert [] + Shift(tail, n) == Shift(tail, n);
    }
  }

  lemma {:induction false} StampedEach(input: string, k: nat, r: seq<Located>)
    requires AllStamped(input, k, r)
    ensures forall i | 0 <= i < |r| :: StampedAt(input, r[i].tok, k + r[i].start)
    decreases |r|
  {
    if |r| > 0 {
      StampedEach(input, k, r[1..]);
      forall i | 1 <= i < |r| ensures StampedAt(input, r[i].tok, k + r[i].start) {
        assert r[i] == r[1..][i - 1];
      }
    }
  }

  /**
   * Each token records the line and column of its first character (lines count
   * newlines, columns restart at 1 after each), and every token but a string
   * literal carries exactly the text found there.
   */
  lemma TokensCarryTheirPosition(input: string)
    ensures var r := Scan(input, 1, 1, Corrected);
            forall i | 0 <= i < |r| :: StampedAt(input, r[i].tok, r[i].start)
  {
    assert input[0..] == input;
    assert input[..0] == [];
    ScanFromPosition(input, 0, 1, 1);
    StampedEach(input, 0, Scan(input, 1, 1, Corrected));
  }

  // ---------------------------------------------------------------------------
  // Whitespace and comments produce no tokens
  // ---------------------------------------------------------------------------

  /** The kinds and texts of a token sequence, positions left aside. */
  function Words(ts: seq<Token>): (r: seq<(TokenType, string)>)
    ensures |r| == |ts| && forall i | 0 <= i < |ts| :: r[i] == (ts[i].kind, ts[i].value)
  {
    seq(|ts|, i requires 0 <= i < |ts| => (ts[i].kind, ts[i].value))
  }

  function ScanWords(rest: string, line: nat, col: nat, mode: Mode): seq<(TokenType, string)>
  {
    Words(TokensOf(Scan(rest, line, col, mode)))
  }

  lemma StepIgnoresPosition(rest: string, l1: nat, c1: nat, l2: nat, c2: nat, mode: Mode)
    requires |rest| > 0
    ensures var a := Step(rest, l1, c1, mode); var b := Step(rest, l2, c2, mode);
            a.len == b.len && a.tok.Some? == b.tok.Some?
            && (a.tok.Some? ==> a.tok.value.kind == b.tok.value.kind && a.tok.value.value == b.tok.value.value)
  {
  }

  /** Which tokens come out does not depend on the position the scan starts from. */
  lemma {:induction false} ScanWordsIgnorePosition(rest: string, l1: nat, c1: nat, l2: nat, c2: nat, mode: Mode)
    ensures ScanWords(rest, l1, c1, mode) == ScanWords(rest, l2, c2, mode)
    decreases |rest|
  {
    if |rest| > 0 {
      var a := Step(rest, l1, c1, mode);
      var b := Step(rest, l2, c2, mode);
      StepIgnoresPosition(rest, l1, c1, l2, c2, mode);
      ScanWordsIgnorePosition(rest[a.len..], a.line, a.col, b.line, b.col, mode);
      ScanAfterStep(rest, l1, c1, mode);
      ScanAfterStep(rest, l2, c2, mode);
    }
  }

  lemma TokensOfShift(ls: seq<Located>, n: nat)
    ensures TokensOf(Shift(ls, n)) == TokensOf(ls)
  {
  }

  lemma TokensOfCons(l: Located, ls: seq<Located>)
    ensures TokensOf([l] + ls) == [l.tok] + TokensOf(ls)
  {
  }

  lemma WordsAppend(a: seq<Token>, b: seq<Token>)
    ensures Words(a + b) == Words(a) + Words(b)
  {
  }

  /** The words of a scan: the step's token, if any, then the words of the remainder. */
  lemma ScanAfterStep(rest: string, line: nat, col: nat, mode: Mode)
    requires |rest| > 0
    ensures var st := Step(rest, line, col, mode);
            ScanWords(rest, line, col, mode)
            == (if st.tok.Some? then [(st.tok.value.kind, st.tok.value.value)] else [])
               + ScanWords(rest[st.len..], st.line, st.col, mode)
  {
    var st := Step(rest, line, col, mode);
    var toks := TokensOf(Scan(rest[st.len..], st.line, st.col, mode));
    TokensAfterStep(rest, line, col, mode);
    if st.tok.Some? {
      WordsAppend([st.tok.value], toks);
      assert Words([st.tok.value]) == [(st.tok.value.kind, st.tok.value.value)];
    } else {
      assert [] + toks == toks;
    }
  }

  /** The tokens of a scan: the step's token, if any, then the tokens of the remainder. */
  lemma TokensAfterStep(rest: string, line: nat, col: nat, mode: Mode)
    requires |rest| > 0
    ensures var st := Step(rest, line, col, mode);
            TokensOf(Scan(rest, line, col, mode))
            == (if st.tok.Some? then [st.tok.value] else []) + TokensOf(Scan(rest[st.len..], st.line, st.col, mode))
  {
    var st := Step(rest, line, col, mode);
    var tail := Scan(rest[st.len..], st.line, st.col, mode);
    TokensOfShift(tail, st.len);
    if st.tok.Some? {
      TokensOfCons(Located(st.tok.value, 0), Shift(tail, st.len));
    }
  }

  /** A skipped prefix leaves the words of what follows it unchanged. */
  lemma SkippedPrefix(rest: string, line: nat, col: nat, mode: Mode, n: nat)
    requires |rest| > 0
    requires Step(rest, line, col, mode).tok.None? && Step(rest, line, col, mode).len == n
    ensures ScanWords(rest, line, col, mode) == ScanWords(rest[n..], 1, 1, mode)
  {
    var st := Step(rest, line, col, mode);
    ScanAfterStep(rest, line, col, mode);
    ScanWordsIgnorePosition(rest[n..], st.line, st.col, 1, 1, mode);
  }

  function LexWords(input: string): seq<(TokenType, string)>
  {
    ScanWords(input, 1, 1, Corrected)
  }

  /** A whitespace character contributes no token. */
  lemma WhitespaceIsSkipped(c: char, t: string)
    requires IsWhitespace(c)
    ensures LexWords([c] + t) == LexWords(t)
  {
    assert ([c] + t)[1..] == t;
    SkippedPrefix([c] + t, 1, 1, Corrected, 1);
  }

  /** A line comment runs to the end of its line and contributes no token. */
  lemma LineCommentIsSkipped(body: string, t: string)
    requires '\n' !in body
    requires |t| == 0 || t[0] == '\n'
    ensures LexWords("//" + body + t) == LexWords(t)
  {
    var rest := "//" + body + t;
    var e := 2 + |body|;
    assert forall j | 2 <= j < e :: rest[j] == body[j - 2];
    LineEndAt(rest, 2, e);
    assert rest[e..] == t;
    SkippedPrefix(rest, 1, 1, Corrected, e);
  }

  lemma {:induction false} LineEndAt(rest: string, k: nat, e: nat)
    requires k <= e <= |rest|
    requires forall j | k <= j < e :: rest[j] != '\n'
    requires e == |rest| || rest[e] == '\n'
    ensures LineEnd(rest, k) == e
    decreases e - k
  {
    if k < e {
      LineEndAt(rest, k + 1, e);
    }
  }

  /** A closed block comment contributes no token. */
  lemma BlockCommentIsSkipped(body: string, t: string)
    requires !Contains(body, "*/")
    ensures LexWords("/*" + body + "*/" + t) == LexWords(t)
  {
    var rest := "/*" + body + "*/" + t;
    var q := 2 + |body|;
    ClosedCommentEnd(body, t);
    assert rest[q + 2..] == t;
    SkippedPrefix(rest, 1, 1, Corrected, q + 2);
  }

  /** The first star-slash after the opener is the one that closes `body`. */
  lemma ClosedCommentEnd(body: string, t: string)
    requires !Contains(body, "*/")
    ensures StartsWith("/*" + body + "*/" + t, "/*")
    ensures FindFrom("/*" + body + "*/" + t, "*/", 2) == Option.Some(2 + |body|)
  {
    var rest := "/*" + body + "*/" + t;
    var q := 2 + |body|;
    assert rest[..2] == "/*";
    assert rest[q..q + 2] == "*/";
    NoCloserInside(body, t);
    FirstOccurrence(rest, "*/", 2, q);
  }

  lemma NoCloserInside(body: string, t: string)
    requires !Contains(body, "*/")
    ensures forall j | 2 <= j < 2 + |body| :: !OccursAt("/*" + body + "*/" + t, "*/", j)
  {
    var rest := "/*" + body + "*/" + t;
    forall j | 2 <= j < 2 + |body| ensures !OccursAt(rest, "*/", j) {
      CloserAt(rest, j);
      assert rest[j] == body[j - 2];
      if j + 1 < 2 + |body| {
        CloserAt(body, j - 2);
        assert rest[j + 1] == body[j - 1];
      } else {
        assert rest[j + 1] == '*';
      }
    }
  }

  /** The comment closer, character by character. */
  lemma CloserAt(s: string, j: nat)
    ensures OccursAt(s, "*/", j) <==> j + 1 < |s| && s[j] == '*' && s[j + 1] == '/'
  {
    if j + 1 < |s| {
      assert s[j..j + 2] == [s[j], s[j + 1]];
    }
  }

  /** An unterminated block comment swallows the rest of the input. */
  lemma UnterminatedBlockCommentIsSkipped(body: string)
    requires !Contains(body, "*/") && (|body| == 0 || body[|body| - 1] != '*')
    ensures Lex("/*" + body) == []
  {
    var rest := "/*" + body;
    assert FindFrom(rest, "*/", 2).None? by {
      forall j | 2 <= j ensures !OccursAt(rest, "*/", j) {
        if j + 2 <= |rest| {
          assert rest[j..j + 2] == body[j - 2..j];
          assert !OccursAt(body, "*/", j - 2);
        }
      }
      NoOccurrence(rest, "*/", 2);
    }
    ScanSingleStep(rest, 1, 1, Corrected);
  }

  lemma {:induction false} NoOccurrence(s: string, sub: string, k: nat)
    requires forall j | k <= j :: !OccursAt(s, sub, j)
    ensures FindFrom(s, sub, k).None?
    decreases |s| - k
  {
    if k + |sub| <= |s| {
      NoOccurrence(s, sub, k + 1);
    }
  }

  /** A step that reads all of `rest` leaves only its own token. */
  lemma ScanSingleStep(rest: string, line: nat, col: nat, mode: Mode)
    requires |rest| > 0 && Step(rest, line, col, mode).len == |rest|
    ensures var st := Step(rest, line, col, mode);
            Scan(rest, line, col, mode) == (if st.tok.Some? then [Located(st.tok.value, 0)] else [])
  {
    var st := Step(rest, line, col, mode);
    assert rest[st.len..] == [];
    ScanUnfold(rest, line, col, mode);
  }

  lemma {:induction false} FirstOccurrence(s: string, sub: string, k: nat, q: nat)
    requires k <= q && OccursAt(s, sub, q)
    requires forall j | k <= j < q :: !OccursAt(s, sub, j)
    ensures FindFrom(s, sub, k) == Option.Some(q)
    decreases q - k
  {
    if k < q {
      FirstOccurrence(s, sub, k + 1, q);
    }
  }

  // ---------------------------------------------------------------------------
  // Literals
  // ---------------------------------------------------------------------------

  lemma DigitsEndOfDigits(rest: string, k: nat, e: nat)
    requires k <= e <= |rest|
    requires forall j | k <= j < e :: IsDigit(rest[j])
    requires e == |rest| || !IsDigit(rest[e])
    ensures DigitsEnd(rest, k) == e
    decreases e - k
  {
    if k < e {
      DigitsEndOfDigits(rest, k + 1, e);
    }
  }

  /** Digits directly followed by a range operator are an integer; the dots stay for the range. */
  lemma NumberBeforeRange(d: string, t: string, line: nat, col: nat, next: nat, mode: Mode)
    requires |d| > 0 && AllDigits(d) && |t| > 0 && t[0] == '.'
    requires next == col + |d|
    ensures Step(d + "." + t, line, col, mode) == Move(|d|, Option.Some(Token(Number, d, line, col)), line, next)
  {
    var rest := d + "." + t;
    DigitsEndOfDigits(rest, 0, |d|);
    assert ScanNumber(rest) == NumberScan(|d|, |d|, false);
    assert rest[..|d|] == d;
    NumberStepMove(rest, line, col, mode, |d|, |d|, false);
  }

  /** `0..5` and `0..=5` lex as number, range operator, number. */
  lemma RangeBetweenNumbers(a: string, b: string, inclusive: bool)
    requires |a| > 0 && AllDigits(a) && |b| > 0 && AllDigits(b)
    ensures LexWords(a + (if inclusive then "..=" else "..") + b)
            == [(Number, a), (if inclusive then RangeInc else RangeExc, if inclusive then "..=" else ".."), (Number, b)]
  {
    var op := if inclusive then "..=" else "..";
    var rest := a + op + b;
    var t := op[1..] + b;
    var next := 1 + |a|;
    assert rest == a + "." + t;
    NumberBeforeRange(a, t, 1, 1, next, Corrected);
    assert rest[|a|..] == op + b;
    StepThenWords(rest, 1, 1, Corrected, |a|, 1, next, Token(Number, a, 1, 1));
    RangeThenNumber(b, inclusive, 1, next);
  }

  /** A range operator followed by digits: the operator, then one integer. */
  lemma RangeThenNumber(b: string, inclusive: bool, line: nat, col: nat)
    requires |b| > 0 && AllDigits(b)
    ensures ScanWords((if inclusive then "..=" else "..") + b, line, col, Corrected)
            == [(if inclusive then RangeInc else RangeExc, if inclusive then "..=" else ".."), (Number, b)]
  {
    var op := if inclusive then "..=" else "..";
    var r2 := op + b;
    if inclusive {
      assert r2[..3] == "..=";
    } else {
      assert r2[..2] == "..";
      assert 3 <= |r2| ==> r2[2] == b[0] && r2[..3][2] != '=';
    }
    ScanAfterStep(r2, line, col, Corrected);
    var st2 := Step(r2, line, col, Corrected);
    assert st2.len == |op| && r2[|op|..] == b;
    OneNumber(b, st2.line, st2.col);
  }

  lemma NumberStepIs(rest: string, line: nat, col: nat, mode: Mode)
    requires |rest| > 0 && IsDigit(rest[0])
    ensures Step(rest, line, col, mode) == NumberStep(rest, line, col, mode)
  {
  }

  /** A scan that starts with a digit: the numeric literal `ScanNumber` measures, then the rest. */
  lemma NumberWords(rest: string, line: nat, col: nat, mode: Mode)
    requires |rest| > 0 && IsDigit(rest[0])
    ensures var r := ScanNumber(rest);
            ScanWords(rest, line, col, mode)
            == [(if r.isFloat then Float else Number, rest[..r.len])] + ScanWords(rest[r.len..], 1, 1, mode)
  {
    NumberStepIs(rest, line, col, mode);
    ScanAfterStep(rest, line, col, mode);
    var st := Step(rest, line, col, mode);
    ScanWordsIgnorePosition(rest[st.len..], st.line, st.col, 1, 1, mode);
  }

  /** A step that emits a token: that token, then the tokens of the remainder. */
  lemma StepThenTokens(rest: string, line: nat, col: nat, mode: Mode, len: nat, line2: nat, col2: nat, tok: Token)
    requires |rest| > 0 && len <= |rest|
    requires Step(rest, line, col, mode) == Move(len, Option.Some(tok), line2, col2)
    ensures TokensOf(Scan(rest, line, col, mode)) == [tok] + TokensOf(Scan(rest[len..], line2, col2, mode))
  {
    TokensAfterStep(rest, line, col, mode);
  }

  /** The words-level form of `StepThenTokens`. */
  lemma StepThenWords(rest: string, line: nat, col: nat, mode: Mode, len: nat, line2: nat, col2: nat, tok: Token)
    requires |rest| > 0 && len <= |rest|
    requires Step(rest, line, col, mode) == Move(len, Option.Some(tok), line2, col2)
    ensures ScanWords(rest, line, col, mode) == [(tok.kind, tok.value)] + ScanWords(rest[len..], line2, col2, mode)
  {
    ScanAfterStep(rest, line, col, mode);
  }

  /** The step over a numeric literal, with the column each mode moves to. */
  lemma NumberStepMove(rest: string, line: nat, col: nat, mode: Mode, len: nat, adv: nat, isFloat: bool)
    requires |rest| > 0 && IsDigit(rest[0]) && ScanNumber(rest) == NumberScan(len, adv, isFloat)
    ensures len <= |rest|
    ensures Step(rest, line, col, mode)
            == Move(len, Option.Some(Token(if isFloat then Float else Number, rest[..len], line, col)),
                    line, col + (if mode == Corrected then len else adv))
  {
    NumberStepIs(rest, line, col, mode);
  }

  lemma NoWords(line: nat, col: nat, mode: Mode)
    ensures ScanWords([], line, col, mode) == []
  {
  }

  /** A single letter on its own is an identifier. */
  lemma LetterWords(c: char, line: nat, col: nat, mode: Mode)
    requires IsAlphabetic(c)
    ensures ScanWords([c], line, col, mode) == [(Identifier, [c])]
  {
    assert WordEnd([c], 1) == 1;
    assert [c][..1] == [c] && [c][1..] == [];
    assert Keyword([c]).None?;
    ScanAfterStep([c], line, col, mode);
  }

  /** A run of digits on its own is one integer token. */
  lemma OneNumber(d: string, line: nat, col: nat)
    requires |d| > 0 && AllDigits(d)
    ensures ScanWords(d, line, col, Corrected) == [(Number, d)]
  {
    DigitsEndOfDigits(d, 0, |d|);
    assert ScanNumber(d) == NumberScan(|d|, |d|, false);
    NumberWords(d, line, col, Corrected);
    assert d[..|d|] == d && d[|d|..] == [];
    NoWords(1, 1, Corrected);
  }

  lemma FractionScan(a: string, b: string)
    requires |a| > 0 && AllDigits(a) && |b| > 0 && AllDigits(b)
    ensures var rest := a + "." + b;
            |rest| > 0 && IsDigit(rest[0])
            && ScanNumber(rest) == NumberScan(|rest|, |rest|, true)
  {
    var rest := a + "." + b;
    DigitsEndOfDigits(rest, 0, |a|);
    DigitsEndOfDigits(rest, |a| + 1, |rest|);
  }

  /** A dot followed by a digit makes a float. */
  lemma FractionMakesFloat(a: string, b: string)
    requires |a| > 0 && AllDigits(a) && |b| > 0 && AllDigits(b)
    ensures LexWords(a + "." + b) == [(Float, a + "." + b)]
  {
    var rest := a + "." + b;
    FractionScan(a, b);
    NumberWords(rest, 1, 1, Corrected);
    assert rest[..|rest|] == rest && rest[|rest|..] == [];
    NoWords(1, 1, Corrected);
  }

  lemma ExponentScan(a: string, b: string)
    requires |a| > 0 && AllDigits(a) && |b| > 0 && AllDigits(b)
    ensures var rest := a + "e" + b;
            |rest| > 0 && IsDigit(rest[0])
            && ScanNumber(rest) == NumberScan(|rest|, |rest|, true)
  {
    var rest := a + "e" + b;
    DigitsEndOfDigits(rest, 0, |a|);
    DigitsEndOfDigits(rest, |a| + 1, |rest|);
  }

  /** An exponent marker with digits makes a float. */
  lemma ExponentMakesFloat(a: string, b: string)
    requires |a| > 0 && AllDigits(a) && |b| > 0 && AllDigits(b)
    ensures LexWords(a + "e" + b) == [(Float, a + "e" + b)]
  {
    var rest := a + "e" + b;
    ExponentScan(a, b);
    NumberWords(rest, 1, 1, Corrected);
    assert rest[..|rest|] == rest && rest[|rest|..] == [];
    NoWords(1, 1, Corrected);
  }

  lemma BareExponentScan(a: string)
    requires |a| > 0 && AllDigits(a)
    ensures var rest := a + "e";
            |rest| > 0 && IsDigit(rest[0])
            && ScanNumber(rest) == NumberScan(|a|, |a| + 1, false)
  {
    var rest := a + "e";
    DigitsEndOfDigits(rest, 0, |a|);
    DigitsEndOfDigits(rest, |a| + 1, |rest|);
  }

  /** An exponent marker without digits is not part of the number: it starts a word. */
  lemma BareExponentIsAWord(a: string)
    requires |a| > 0 && AllDigits(a)
    ensures LexWords(a + "e") == [(Number, a), (Identifier, "e")]
  {
    var rest := a + "e";
    BareExponentScan(a);
    NumberWords(rest, 1, 1, Corrected);
    assert rest[..|a|] == a && rest[|a|..] == "e";
    LetterWords('e', 1, 1, Corrected);
  }

  /** A closed string literal is one String token holding the text between the quotes. */
  lemma StringLiteral(body: string)
    requires '"' !in body
    ensures Lex("\"" + body + "\"") == [Token(String, body, 1, 1)]
  {
    var rest := "\"" + body + "\"";
    assert FindFrom(rest, "\"", 1) == Option.Some(|rest| - 1) by {
      assert rest[|rest| - 1..] == "\"";
      forall j | 1 <= j < |rest| - 1 ensures !OccursAt(rest, "\"", j) {
        assert rest[j] == body[j - 1];
        assert rest[j..j + 1] == [rest[j]];
      }
      FirstOccurrence(rest, "\"", 1, |rest| - 1);
    }
    assert rest[1..|rest| - 1] == body;
    ScanSingleStep(rest, 1, 1, Corrected);
    assert Scan(rest, 1, 1, Corrected) == [Located(Token(String, body, 1, 1), 0)];
  }

  /** A string literal without its closing quote produces nothing. */
  lemma UnterminatedString(body: string)
    requires '"' !in body
    ensures Lex("\"" + body) == []
  {
    var rest := "\"" + body;
    assert rest[1..] == body;
    ScanSingleStep(rest, 1, 1, Corrected);
  }

  /** A word is Unknown exactly when it contains an underscore. */
  lemma UnderscoreWordsAreUnknown(word: string)
    ensures WordKind(word) == Unknown <==> '_' in word
  {
  }

  /** A character that starts no operator is one Unknown token, as `@` is. */
  lemma StrayCharacter(c: char)
    requires c == '@'
    ensures Lex([c]) == [Token(Unknown, [c], 1, 1)]
  {
    assert [c][..1] == [c];
    assert OperatorLength([c]) == 0;
    ScanSingleStep([c], 1, 1, Corrected);
    assert Scan([c], 1, 1, Corrected) == [Located(Token(Unknown, [c], 1, 1), 0)];
  }
}
