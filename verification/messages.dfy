/**
 * The recolouring of whole diagnostic messages: the "expected ..., found
 * ..." and "Expected ..., got ..." forms, unexpected tokens, and messages
 * that carry an `error[...]:` code.
 */
module Messages {
  import opened Wrappers
  import opened Text
  import opened Revisions
  import opened Diagnostics

  const ExpectedWord: string := "expected "
  const FoundWord: string := ", found "
  const ExpectedLead: string := "Expected "
  const GotWord: string := ", got "
  const UnexpectedLead: string := "Unexpected token:"

  /** How many bytes of the sliced string a slice panic shows. */
  const MaxDisplayLength: nat := 256

  /**
   * The message Rust panics with when a string slice ends before it starts:
   * both indices are byte offsets, and the string is cut to its longest
   * prefix of at most 256 bytes, followed by `[...]` when something was cut.
   */
  function SlicePanic(begin: nat, end: nat, msg: string): string
  {
    var k := FitPrefix(msg, MaxDisplayLength);
    "begin <= end (" + NatToString(begin) + " <= " + NatToString(end) + ") when slicing `" + msg[..k] + "`"
    + (if k < |msg| then "[...]" else "")
  }

  /**
   * Where the found part is looked for once `expected ` was found at `e`:
   * anywhere in the message as written, only after the expected word when
   * corrected.
   */
  function FoundAfter(rev: Revision, msg: string, e: nat): Option<nat>
  {
    if rev == AsWritten then Find(msg, FoundWord) else FindFrom(msg, FoundWord, e + |ExpectedWord|)
  }

  /** The expected/found split applies: both words are there. */
  predicate ExpectedFoundForm(rev: Revision, msg: string)
  {
    Find(msg, ExpectedWord).Some? && FoundAfter(rev, msg, Find(msg, ExpectedWord).value).Some?
  }

  /** The Expected/got split applies: the message opens with `Expected ` and has exactly one `, got `. */
  predicate ExpectedGotForm(msg: string)
  {
    StartsWith(msg, ExpectedLead) && Contains(msg, GotWord) && SplitsInTwo(msg, GotWord)
  }

  /** `colorize_message`, failing with the slice panic the expected/found split can hit. */
  function ColorizeMessage(rev: Revision, msg: string): (r: Result<string, string>)
    ensures r.Err? ==> ExpectedFoundForm(rev, msg)
    ensures !ExpectedFoundForm(rev, msg) && !ExpectedGotForm(msg) && !StartsWith(msg, UnexpectedLead)
            ==> r == Ok(msg)
  {
    if ExpectedFoundForm(rev, msg) then
      var cut := Find(msg, ExpectedWord).value + |ExpectedWord|;
      var f := FoundAfter(rev, msg, Find(msg, ExpectedWord).value).value;
      if f < cut then Err(SlicePanic(Utf8Len(msg[..cut]), Utf8Len(msg[..f]), msg)) else Ok(ExpectedFound(msg, cut, f))
    else if ExpectedGotForm(msg) then Ok(ExpectedGot(msg, Find(msg, GotWord).value))
    else if StartsWith(msg, UnexpectedLead) then Ok(UnexpectedToken(msg))
    else Ok(msg)
  }

  /** The text up to the expected part, the part in bold green, `, found `, the found part in bold red. */
  function ExpectedFound(msg: string, cut: nat, f: nat): string
    requires cut <= f && OccursAt(msg, FoundWord, f)
  {
    msg[..cut] + Paint(BoldGreen, Trim(msg[cut..f])) + FoundWord + Paint(BoldRed, Trim(msg[f + |FoundWord|..]))
  }

  /** `Expected `, the expected part in bold green, `, got `, the got part in bold red. */
  function ExpectedGot(msg: string, g: nat): string
    requires OccursAt(msg, GotWord, g)
  {
    ExpectedLead + Paint(BoldGreen, Trim(StripPrefixes(msg[..g], ExpectedLead))) + GotWord
    + Paint(BoldRed, Trim(msg[g + |GotWord|..]))
  }

  /** `Unexpected token: ` and the token in bold cyan. */
  function UnexpectedToken(msg: string): string
  {
    "Unexpected token: " + Paint(BoldCyan, Trim(StripPrefixes(msg, UnexpectedLead)))
  }

  /** `colorize_semantic_message`: a leading error code in bold red, the rest recoloured. */
  function ColorizeSemanticMessage(rev: Revision, msg: string): (r: Result<string, string>)
    ensures ExtractErrorCode(msg).None? ==> r == ColorizeMessage(rev, msg)
    ensures ExtractErrorCode(msg).Some? ==> (r.Err? <==> ColorizeMessage(rev, ExtractErrorCode(msg).value.1).Err?)
  {
    match ExtractErrorCode(msg)
    case None => ColorizeMessage(rev, msg)
    case Some((code, rest)) =>
      match ColorizeMessage(rev, rest)
      case Err(e) => Err(e)
      case Ok(c) => Ok(Paint(BoldRed, code) + ": " + c)
  }

  // ---------------------------------------------------------------------------
  // When the expected/found split panics
  // ---------------------------------------------------------------------------

  /** No `, found ` starts inside an `expected `: the word has no comma. */
  lemma FoundNotInsideExpected(msg: string, e: nat, f: nat)
    requires OccursAt(msg, ExpectedWord, e) && OccursAt(msg, FoundWord, f)
    ensures f < e || e + |ExpectedWord| <= f
  {
    NoCommaIn(msg, e);
    assert msg[f] == msg[f..f + |FoundWord|][0];
  }

  lemma NoCommaIn(msg: string, e: nat)
    requires OccursAt(msg, ExpectedWord, e)
    ensures forall k | e <= k < e + |ExpectedWord| :: msg[k] != ','
  {
    forall k | e <= k < e + |ExpectedWord|
      ensures msg[k] != ','
    {
      assert msg[k] == msg[e..e + |ExpectedWord|][k - e];
    }
  }

  /**
   * As written, recolouring a message panics exactly when its first
   * `, found ` comes before its first `expected `.
   */
  lemma {:induction false} PanicsWhenFoundFirst(msg: string)
    ensures ColorizeMessage(AsWritten, msg).Err?
            <==> (Find(msg, ExpectedWord).Some? && Find(msg, FoundWord).Some?
                  && Find(msg, FoundWord).value < Find(msg, ExpectedWord).value)
  {
    if Find(msg, ExpectedWord).Some? && Find(msg, FoundWord).Some? {
      FoundNotInsideExpected(msg, Find(msg, ExpectedWord).value, Find(msg, FoundWord).value);
    }
  }

  /** `, found expected `: its found word comes first, and the message as written panics. */
  lemma FoundBeforeExpectedPanics()
    ensures ColorizeMessage(AsWritten, ", found expected ").Err?
    ensures ColorizeMessage(Fixed, ", found expected ") == Ok(", found expected ")
  {
    var msg := ", found expected ";
    assert OccursAt(msg, FoundWord, 0);
    assert OccursAt(msg, ExpectedWord, 8);
    assert Find(msg, FoundWord) == Some(0);
    forall j: nat | j < 8
      ensures !OccursAt(msg, ExpectedWord, j)
    {
      assert msg[j + 1] != ExpectedWord[1] || msg[j] != ExpectedWord[0];
    }
    assert Find(msg, ExpectedWord) == Some(8);
    assert FindFrom(msg, FoundWord, 17).None?;
    assert !StartsWith(msg, ExpectedLead) by {
      assert msg[0] != ExpectedLead[0];
    }
    assert !StartsWith(msg, UnexpectedLead) by {
      assert msg[0] != UnexpectedLead[0];
    }
  }

  /**
   * The panic reports byte offsets: the slice would start at the byte after
   * the first `expected ` and end at the byte where the first `, found `
   * starts, which is earlier. In an ASCII message these are the character
   * positions.
   */
  lemma PanicReportsByteOffsets(msg: string)
    requires ColorizeMessage(AsWritten, msg).Err?
    ensures Find(msg, ExpectedWord).Some? && Find(msg, FoundWord).Some?
    ensures var e, f := Find(msg, ExpectedWord).value, Find(msg, FoundWord).value;
            && Utf8Len(msg[..f]) < Utf8Len(msg[..e]) + |ExpectedWord|
            && ColorizeMessage(AsWritten, msg) == Err(SlicePanic(Utf8Len(msg[..e]) + |ExpectedWord|, Utf8Len(msg[..f]), msg))
  {
    PanicsWhenFoundFirst(msg);
    PanicSlice(msg);
    WordBytes(msg, Find(msg, ExpectedWord).value, Find(msg, FoundWord).value);
  }

  /** In an ASCII message the offsets the panic reports are the character positions of the two words. */
  lemma PanicAsciiPositions(msg: string)
    requires ColorizeMessage(AsWritten, msg).Err? && IsAscii(msg)
    ensures Find(msg, ExpectedWord).Some? && Find(msg, FoundWord).Some?
    ensures ColorizeMessage(AsWritten, msg)
            == Err(SlicePanic(Find(msg, ExpectedWord).value + |ExpectedWord|, Find(msg, FoundWord).value, msg))
  {
    PanicReportsByteOffsets(msg);
    AsciiPrefix(msg, Find(msg, ExpectedWord).value);
    AsciiPrefix(msg, Find(msg, FoundWord).value);
  }

  /** As written, the panic names the slice from after the first `expected ` to the first `, found `. */
  lemma PanicSlice(msg: string)
    requires ColorizeMessage(AsWritten, msg).Err?
    ensures Find(msg, ExpectedWord).Some? && Find(msg, FoundWord).Some?
    ensures var e, f := Find(msg, ExpectedWord).value, Find(msg, FoundWord).value;
            e + |ExpectedWord| <= |msg| && f <= |msg| &&
            ColorizeMessage(AsWritten, msg) == Err(SlicePanic(Utf8Len(msg[..e + |ExpectedWord|]), Utf8Len(msg[..f]), msg))
  {
  }

  /** Where `expected ` starts at `e` and an earlier position `f`: the bytes up to the end of the word, and the order. */
  lemma WordBytes(msg: string, e: nat, f: nat)
    requires OccursAt(msg, ExpectedWord, e) && f <= e
    ensures Utf8Len(msg[..e + |ExpectedWord|]) == Utf8Len(msg[..e]) + |ExpectedWord|
    ensures Utf8Len(msg[..f]) <= Utf8Len(msg[..e])
  {
    assert msg[..e + |ExpectedWord|] == msg[..e] + ExpectedWord;
    Utf8LenAppend(msg[..e], ExpectedWord);
    AsciiBytes(ExpectedWord);
    assert msg[..e] == msg[..f] + msg[f..e];
    Utf8LenAppend(msg[..f], msg[f..e]);
  }

  /** A slice panic shows the whole message, without `[...]`, exactly when it fits in 256 bytes. */
  lemma PanicShowsShortMessage(begin: nat, end: nat, msg: string)
    ensures Utf8Len(msg) <= MaxDisplayLength <==>
            SlicePanic(begin, end, msg)
            == "begin <= end (" + NatToString(begin) + " <= " + NatToString(end) + ") when slicing `" + msg + "`"
  {
    var k := FitPrefix(msg, MaxDisplayLength);
    FitPrefixWhole(msg, MaxDisplayLength);
    var lead := "begin <= end (" + NatToString(begin) + " <= " + NatToString(end) + ") when slicing `";
    if k < |msg| {
      var whole := lead + msg + "`";
      var shown := SlicePanic(begin, end, msg);
      assert shown == lead + msg[..k] + "`" + "[...]";
      assert shown[|shown| - 1] == ']';
      assert whole[|whole| - 1] == '`';
    } else {
      assert msg[..k] == msg;
    }
  }

  /** From `k` on, the first occurrence is the first one overall when none comes earlier. */
  lemma FindFromAfterNone(s: string, sub: string, k: nat)
    requires forall j: nat | j < k :: !OccursAt(s, sub, j)
    ensures FindFrom(s, sub, k) == Find(s, sub)
  {
  }

  /**
   * Corrected, recolouring never panics, and wherever the code as written
   * did not panic both give the same text.
   */
  lemma {:induction false} FixedAgrees(msg: string)
    ensures ColorizeMessage(Fixed, msg).Ok?
    ensures ColorizeMessage(AsWritten, msg).Ok? ==> ColorizeMessage(Fixed, msg) == ColorizeMessage(AsWritten, msg)
  {
    if Find(msg, ExpectedWord).Some? && ColorizeMessage(AsWritten, msg).Ok? {
      var e := Find(msg, ExpectedWord).value;
      if Find(msg, FoundWord).Some? {
        assert ExpectedFoundForm(AsWritten, msg);
      }
      FoundAfterAgrees(msg, e);
    }
  }

  /** When the first `, found ` does not precede the expected word, both searches find the same one. */
  lemma FoundAfterAgrees(msg: string, e: nat)
    requires Find(msg, ExpectedWord) == Some(e)
    requires Find(msg, FoundWord).Some? ==> e + |ExpectedWord| <= Find(msg, FoundWord).value
    ensures FoundAfter(Fixed, msg, e) == FoundAfter(AsWritten, msg, e)
  {
    var cut := e + |ExpectedWord|;
    if Find(msg, FoundWord).Some? {
      FindFromAfterNone(msg, FoundWord, cut);
    } else {
      assert FindFrom(msg, FoundWord, cut).None?;
    }
  }

  // ---------------------------------------------------------------------------
  // What the recoloured message shows
  // ---------------------------------------------------------------------------

  lemma NoEscSlice(s: string, a: nat, b: nat)
    requires NoEsc(s) && a <= b <= |s|
    ensures NoEsc(s[a..b])
  {
    forall k | 0 <= k < b - a
      ensures s[a..b][k] != Esc
    {
      assert s[a..b][k] == s[a + k] && s[a + k] in s;
    }
  }

  /** Trimming takes a slice, so it adds no escape characters. */
  lemma NoEscTrim(s: string)
    requires NoEsc(s)
    ensures NoEsc(Trim(s))
  {
    var t := TrimStart(s);
    TrimStartSuffix(s);
    NoEscSlice(s, |s| - |t|, |s|);
    TrimEndPrefix(t);
    NoEscSlice(t, 0, |Trim(s)|);
  }

  lemma NoEscStrip(s: string, p: string)
    requires NoEsc(s)
    ensures NoEsc(StripPrefixes(s, p))
  {
    StripPrefixesSuffix(s, p);
    NoEscSlice(s, |s| - |StripPrefixes(s, p)|, |s|);
  }

  /** A literal, a painted part, a literal and a painted part show as the two literals and the two parts. */
  lemma PlainTwoParts(a: string, c1: Colour, x: string, b: string, c2: Colour, y: string)
    requires NoEsc(a) && NoEsc(x) && NoEsc(b) && NoEsc(y)
    ensures Plain(a + Paint(c1, x) + b + Paint(c2, y)) == a + x + b + y
  {
    var t2 := Paint(c2, y);
    PlainLast(c2, y);
    var t1 := b + t2;
    PlainNoEsc(b, t2);
    var t0 := Paint(c1, x) + t1;
    PlainPaint(c1, x, t1);
    PlainNoEsc(a, t0);
    Assoc4(a, Paint(c1, x), b, t2);
  }

  lemma PlainLast(c: Colour, s: string)
    requires NoEsc(s)
    ensures Plain(Paint(c, s)) == s
  {
    PlainPaint(c, s, "");
    assert Paint(c, s) + "" == Paint(c, s);
    assert s + Plain("") == s;
  }

  lemma Assoc4(a: string, b: string, c: string, d: string)
    ensures a + b + c + d == a + (b + (c + d))
  {
  }

  /** The expected/found text shows with its painted parts as plain text. */
  lemma PlainExpectedFound(msg: string, cut: nat, f: nat)
    requires NoEsc(msg) && cut <= f && OccursAt(msg, FoundWord, f)
    ensures Plain(ExpectedFound(msg, cut, f))
            == msg[..cut] + Trim(msg[cut..f]) + FoundWord + Trim(msg[f + |FoundWord|..])
  {
    var x := msg[cut..f];
    var y := msg[f + |FoundWord|..];
    NoEscSlice(msg, 0, cut);
    NoEscSlice(msg, cut, f);
    NoEscSlice(msg, f + |FoundWord|, |msg|);
    NoEscTrim(x);
    NoEscTrim(y);
    assert ExpectedFound(msg, cut, f) == msg[..cut] + Paint(BoldGreen, Trim(x)) + FoundWord + Paint(BoldRed, Trim(y));
    PlainTwoParts(msg[..cut], BoldGreen, Trim(x), FoundWord, BoldRed, Trim(y));
  }

  lemma SplitAround(msg: string, cut: nat, f: nat)
    requires cut <= f && OccursAt(msg, FoundWord, f)
    ensures msg == msg[..cut] + msg[cut..f] + FoundWord + msg[f + |FoundWord|..]
  {
    assert msg[f..f + |FoundWord|] == FoundWord;
  }

  /**
   * An expected/found message shows as itself with the whitespace around
   * the expected and the found part removed; when they have none it shows
   * exactly as the message.
   */
  lemma {:induction false} ExpectedFoundShown(rev: Revision, msg: string)
    requires NoEsc(msg) && ExpectedFoundForm(rev, msg) && ColorizeMessage(rev, msg).Ok?
    ensures var cut := Find(msg, ExpectedWord).value + |ExpectedWord|;
            var f := FoundAfter(rev, msg, Find(msg, ExpectedWord).value).value;
            && cut <= f && f + |FoundWord| <= |msg|
            && Plain(ColorizeMessage(rev, msg).value)
               == msg[..cut] + Trim(msg[cut..f]) + FoundWord + Trim(msg[f + |FoundWord|..])
            && (Trim(msg[cut..f]) == msg[cut..f] && Trim(msg[f + |FoundWord|..]) == msg[f + |FoundWord|..]
                ==> Plain(ColorizeMessage(rev, msg).value) == msg)
  {
    var cut := Find(msg, ExpectedWord).value + |ExpectedWord|;
    var f := FoundAfter(rev, msg, Find(msg, ExpectedWord).value).value;
    assert ColorizeMessage(rev, msg).value == ExpectedFound(msg, cut, f);
    PlainExpectedFound(msg, cut, f);
    SplitAround(msg, cut, f);
  }

  /**
   * An Expected/got message shows as `Expected `, the expected part without
   * its leading `Expected ` repetitions and surrounding whitespace, `, got `
   * and the trimmed got part.
   */
  lemma {:induction false} ExpectedGotShown(rev: Revision, msg: string)
    requires NoEsc(msg) && !ExpectedFoundForm(rev, msg) && ExpectedGotForm(msg)
    ensures var g := Find(msg, GotWord).value;
            && g + |GotWord| <= |msg|
            && ColorizeMessage(rev, msg).Ok?
            && Plain(ColorizeMessage(rev, msg).value)
               == ExpectedLead + Trim(StripPrefixes(msg[..g], ExpectedLead)) + GotWord + Trim(msg[g + |GotWord|..])
  {
    var g := Find(msg, GotWord).value;
    assert OccursAt(msg, GotWord, g);
    var x := StripPrefixes(msg[..g], ExpectedLead);
    var y := msg[g + |GotWord|..];
    NoEscSlice(msg, 0, g);
    NoEscStrip(msg[..g], ExpectedLead);
    NoEscSlice(msg, g + |GotWord|, |msg|);
    NoEscTrim(x);
    NoEscTrim(y);
    PlainTwoParts(ExpectedLead, BoldGreen, Trim(x), GotWord, BoldRed, Trim(y));
  }

  lemma UnexpectedShownNoEsc()
    ensures NoEsc("Unexpected token: ")
  {
  }

  lemma PlainUnexpectedToken(msg: string)
    requires NoEsc(msg)
    ensures Plain(UnexpectedToken(msg)) == "Unexpected token: " + Trim(StripPrefixes(msg, UnexpectedLead))
  {
    var t := Trim(StripPrefixes(msg, UnexpectedLead));
    UnexpectedShownNoEsc();
    NoEscStrip(msg, UnexpectedLead);
    NoEscTrim(StripPrefixes(msg, UnexpectedLead));
    PlainNoEsc("Unexpected token: ", Paint(BoldCyan, t));
    PlainLast(BoldCyan, t);
  }

  /** An unexpected-token message shows the token trimmed, after `Unexpected token: `. */
  lemma UnexpectedTokenShown(rev: Revision, msg: string)
    requires NoEsc(msg) && !ExpectedFoundForm(rev, msg) && !ExpectedGotForm(msg) && StartsWith(msg, UnexpectedLead)
    ensures ColorizeMessage(rev, msg).Ok?
    ensures Plain(ColorizeMessage(rev, msg).value)
            == "Unexpected token: " + Trim(StripPrefixes(msg, UnexpectedLead))
  {
    PlainUnexpectedToken(msg);
  }

  lemma PlainCoded(code: string, c: string)
    requires NoEsc(code)
    ensures Plain(Paint(BoldRed, code) + ": " + c) == code + ": " + Plain(c)
  {
    assert Paint(BoldRed, code) + ": " + c == Paint(BoldRed, code) + (": " + c);
    PlainPaint(BoldRed, code, ": " + c);
    PlainNoEsc(": ", c);
  }

  lemma DoubleColon(code: string, p: string)
    requires |code| >= 2 && OccursAt(code, "]:", |code| - 2)
    ensures OccursAt(code + ": " + p, "]::", |code| - 2)
  {
    var shown := code + ": " + p;
    assert shown[|code| - 2..|code| + 1] == code[|code| - 2..] + ":";
  }

  /**
   * A message with an error code shows the code, a colon and a space, then
   * the recoloured rest; since the code already ends in `]:`, the text
   * shown has `]::` where the code ends.
   */
  lemma {:induction false} SemanticCodeShown(rev: Revision, msg: string)
    requires NoEsc(msg) && ExtractErrorCode(msg).Some?
    requires ColorizeMessage(rev, ExtractErrorCode(msg).value.1).Ok?
    ensures var code := ExtractErrorCode(msg).value.0;
            var rest := ExtractErrorCode(msg).value.1;
            && ColorizeSemanticMessage(rev, msg).Ok?
            && Plain(ColorizeSemanticMessage(rev, msg).value)
               == code + ": " + Plain(ColorizeMessage(rev, rest).value)
            && OccursAt(Plain(ColorizeSemanticMessage(rev, msg).value), "]::", |code| - 2)
  {
    var code := ExtractErrorCode(msg).value.0;
    var c := ColorizeMessage(rev, ExtractErrorCode(msg).value.1).value;
    SemanticValue(rev, msg);
    CodeNoEsc(msg);
    ErrorCodeBrackets(msg);
    CodedShown(code, c);
  }

  lemma SemanticValue(rev: Revision, msg: string)
    requires ExtractErrorCode(msg).Some?
    requires ColorizeMessage(rev, ExtractErrorCode(msg).value.1).Ok?
    ensures ColorizeSemanticMessage(rev, msg)
            == Ok(Paint(BoldRed, ExtractErrorCode(msg).value.0) + ": "
                  + ColorizeMessage(rev, ExtractErrorCode(msg).value.1).value)
  {
  }

  lemma CodeNoEsc(msg: string)
    requires NoEsc(msg) && ExtractErrorCode(msg).Some?
    ensures NoEsc(ExtractErrorCode(msg).value.0)
  {
    var start, stop := CodeSpan(msg);
    NoEscSlice(msg, start, stop);
  }

  lemma CodedShown(code: string, c: string)
    requires NoEsc(code) && Bracketed(code)
    ensures Plain(Paint(BoldRed, code) + ": " + c) == code + ": " + Plain(c)
    ensures OccursAt(Plain(Paint(BoldRed, code) + ": " + c), "]::", |code| - 2)
  {
    PlainCoded(code, c);
    DoubleColon(code, Plain(c));
  }
}
