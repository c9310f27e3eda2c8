/**
 * Three places where the lexer as written stamps tokens with the wrong
 * position or emits a token it should not, each next to what the corrected
 * lexer does with the same input.
 */
module LexerFindings {
  import opened Wrappers
  import opened Text
  import opened Tokens
  import opened Lexer
  import opened LexerProps

  /** Digits, then `e` followed by a non-digit: the number stops before the `e`, but the column has moved past it. */
  lemma RejectedExponentScan(a: string)
    requires |a| > 0 && AllDigits(a)
    ensures var s := a + "e x";
            |s| > 0 && IsDigit(s[0]) && ScanNumber(s) == NumberScan(|a|, |a| + 1, false)
  {
    var s := a + "e x";
    DigitsEndOfDigits(s, 0, |a|);
    DigitsEndOfDigits(s, |a| + 1, |a| + 1);
  }

  /** A one-letter identifier followed by a non-word character. */
  lemma LetterStep(s: string, line: nat, col: nat, mode: Mode)
    requires |s| > 0 && (s[0] == 'e' || s[0] == 'x' || s[0] == 'b')
    requires |s| == 1 || !IsWordChar(s[1])
    ensures Step(s, line, col, mode) == Move(1, Option.Some(Token(Identifier, [s[0]], line, col)), line, col + 1)
  {
    assert WordEnd(s, 1) == 1;
    assert s[..1] == [s[0]];
    assert Keyword([s[0]]).None?;
  }

  /** A one-letter identifier on its own. */
  lemma LetterAt(c: char, line: nat, col: nat, mode: Mode)
    requires c == 'e' || c == 'x' || c == 'b'
    ensures TokensOf(Scan([c], line, col, mode)) == [Token(Identifier, [c], line, col)]
  {
    LetterStep([c], line, col, mode);
    TokensAfterStep([c], line, col, mode);
    assert [c][1..] == [];
  }

  lemma SpaceXAt(line: nat, col: nat, mode: Mode)
    ensures TokensOf(Scan(" x", line, col, mode)) == [Token(Identifier, "x", line, col + 1)]
  {
    assert " x"[1..] == "x";
    assert Step(" x", line, col, mode) == Move(1, None, line, col + 1);
    TokensAfterStep(" x", line, col, mode);
    LetterAt('x', line, col + 1, mode);
  }

  lemma WordThenWord(mode: Mode, col: nat)
    ensures TokensOf(Scan("e x", 1, col, mode))
            == [Token(Identifier, "e", 1, col), Token(Identifier, "x", 1, col + 2)]
  {
    var s := "e x";
    LetterStep(s, 1, col, mode);
    assert s[1..] == " x";
    TokensAfterStep(s, 1, col, mode);
    SpaceXAt(1, col + 1, mode);
  }

  /** The number token, then the scan of `e x` from the column each mode moves to. */
  lemma RejectedExponentTokens(a: string, mode: Mode)
    requires |a| > 0 && AllDigits(a)
    ensures TokensOf(Scan(a + "e x", 1, 1, mode))
            == [Token(Number, a, 1, 1)] + TokensOf(Scan("e x", 1, if mode == Corrected then |a| + 1 else |a| + 2, mode))
  {
    var s := a + "e x";
    RejectedExponentScan(a);
    NumberStepMove(s, 1, 1, mode, |a|, |a| + 1, false);
    assert s[..|a|] == a && s[|a|..] == "e x";
    StepThenTokens(s, 1, 1, mode, |a|, 1, if mode == Corrected then |a| + 1 else |a| + 2, Token(Number, a, 1, 1));
  }

  /** After `1e` with no exponent digits, the column is not moved back over the `e`. */
  lemma RejectedExponentKeepsColumnAsWritten(a: string)
    requires |a| > 0 && AllDigits(a)
    ensures LexAsWritten(a + "e x")
            == [Token(Number, a, 1, 1), Token(Identifier, "e", 1, |a| + 2), Token(Identifier, "x", 1, |a| + 4)]
  {
    RejectedExponentTokens(a, AsWritten);
    WordThenWord(AsWritten, |a| + 2);
  }

  lemma RejectedExponentColumn(a: string)
    requires |a| > 0 && AllDigits(a)
    ensures Lex(a + "e x")
            == [Token(Number, a, 1, 1), Token(Identifier, "e", 1, |a| + 1), Token(Identifier, "x", 1, |a| + 3)]
  {
    RejectedExponentTokens(a, Corrected);
    WordThenWord(Corrected, |a| + 1);
  }

  /** As written, the unterminated comment opener followed by `ab` is taken to end one character early. */
  lemma UnterminatedCommentStepAsWritten()
    ensures Step("/*ab", 1, 1, AsWritten) == Move(3, None, 1, 4)
  {
    var s := "/*ab";
    assert s[2..4] == "ab";
    assert FindFrom(s, "*/", 3).None?;
    assert FindFrom(s, "*/", 2).None?;
    assert BlockCommentLength(s, AsWritten) == 3;
    assert s[..3] == "/*a";
    assert Advance(1, 1, "/*a") == (1, 4);
  }

  /** An unterminated block comment leaves its last character to be lexed as a token. */
  lemma UnterminatedCommentLeaksAsWritten()
    ensures LexAsWritten("/*ab") == [Token(Identifier, "b", 1, 4)]
  {
    var s := "/*ab";
    UnterminatedCommentStepAsWritten();
    TokensAfterStep(s, 1, 1, AsWritten);
    assert s[3..] == "b";
    LetterAt('b', 1, 4, AsWritten);
  }

  lemma UnterminatedCommentIsSilent()
    ensures Lex("/*ab") == []
  {
    UnterminatedBlockCommentIsSkipped("ab");
  }

  lemma ClosingQuoteAt4(s: string)
    requires s == "\"a\nb\" x"
    ensures FindFrom(s, "\"", 1) == Option.Some(4)
  {
    assert s[4] == '"' && s[4..5] == [s[4]];
    forall j | 1 <= j < 4 ensures !OccursAt(s, "\"", j) {
      assert s[j..j + 1] == [s[j]];
    }
    FirstOccurrence(s, "\"", 1, 4);
  }

  /** The string literal at the start of `"a\nb" x`, with the position each mode moves to. */
  lemma StringWithNewlineStep(mode: Mode)
    ensures Step("\"a\nb\" x", 1, 1, mode)
            == Move(5, Option.Some(Token(String, "a\nb", 1, 1)), if mode == Corrected then 2 else 1,
                    if mode == Corrected then 3 else 6)
  {
    var s := "\"a\nb\" x";
    ClosingQuoteAt4(s);
    assert s[1..4] == "a\nb";
    assert s[..5] == "\"a\nb\"";
    assert Advance(1, 1, "\"a\nb\"") == (2, 3);
  }

  /** A newline inside a string literal does not start a new line. */
  lemma NewlineInStringIgnoredAsWritten()
    ensures LexAsWritten("\"a\nb\" x") == [Token(String, "a\nb", 1, 1), Token(Identifier, "x", 1, 7)]
  {
    var s := "\"a\nb\" x";
    StringWithNewlineStep(AsWritten);
    TokensAfterStep(s, 1, 1, AsWritten);
    assert s[5..] == " x";
    SpaceXAt(1, 6, AsWritten);
  }

  lemma NewlineInStringCounted()
    ensures Lex("\"a\nb\" x") == [Token(String, "a\nb", 1, 1), Token(Identifier, "x", 2, 4)]
  {
    var s := "\"a\nb\" x";
    StringWithNewlineStep(Corrected);
    TokensAfterStep(s, 1, 1, Corrected);
    assert s[5..] == " x";
    SpaceXAt(2, 3, Corrected);
  }
}
