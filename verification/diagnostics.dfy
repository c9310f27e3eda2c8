/**
 * The string helpers behind the compiler's diagnostics: ANSI colouring,
 * the recolouring of "expected ..., found ..." style messages and of
 * quoted names, and the splitting of an `error[...]:` code off a message.
 * Printing to the terminal is not modelled.
 */
module Diagnostics {
  import opened Wrappers
  import opened Text
  import opened Revisions

  // ---------------------------------------------------------------------------
  // Colours
  // ---------------------------------------------------------------------------

  const Esc: char := '\U{1B}'
  const Reset: string := [Esc] + "[0m"

  datatype Colour = Red | BoldRed | BoldGreen | Yellow | BoldYellow | Cyan | BoldCyan | Dim | Gray

  /** The SGR parameters of each colour. */
  function Code(c: Colour): (r: string)
    ensures |r| > 0 && 'm' !in r && Esc !in r
  {
    match c
    case Red => "31"
    case BoldRed => "1;31"
    case BoldGreen => "1;32"
    case Yellow => "33"
    case BoldYellow => "1;33"
    case Cyan => "36"
    case BoldCyan => "1;36"
    case Dim => "2"
    case Gray => "90"
  }

  function Start(c: Colour): string
  {
    [Esc] + "[" + Code(c) + "m"
  }

  /** `s` between the colour's escape sequence and the reset sequence. */
  function Paint(c: Colour, s: string): (r: string)
    ensures |r| == |Start(c)| + |s| + |Reset|
    ensures r[..|Start(c)|] == Start(c) && r[|Start(c)|..|r| - |Reset|] == s && r[|r| - |Reset|..] == Reset
  {
    Start(c) + s + Reset
  }

  predicate NoEsc(s: string)
  {
    Esc !in s
  }

  /** The rest of an escape sequence's text after its final `m`. */
  function SkipEscape(t: string): (r: string)
    ensures |r| <= |t|
    decreases |t|
  {
    if |t| == 0 then "" else if t[0] == 'm' then t[1..] else SkipEscape(t[1..])
  }

  /** What a terminal shows of `s`: every escape sequence removed. */
  function Plain(s: string): (r: string)
    decreases |s|
  {
    if |s| == 0 then ""
    else if s[0] == Esc then Plain(SkipEscape(s[1..]))
    else [s[0]] + Plain(s[1..])
  }

  lemma {:induction false} PlainNoEsc(a: string, b: string)
    requires NoEsc(a)
    ensures Plain(a + b) == a + Plain(b)
    decreases |a|
  {
    if |a| > 0 {
      assert a[0] in a;
      assert (a + b)[0] == a[0] && (a + b)[1..] == a[1..] + b;
      assert NoEsc(a[1..]) by {
        forall k | 0 <= k < |a[1..]|
          ensures a[1..][k] != Esc
        {
          assert a[1..][k] == a[k + 1] && a[k + 1] in a;
        }
      }
      PlainNoEsc(a[1..], b);
      assert Plain(a + b) == [a[0]] + Plain(a[1..] + b);
      assert a == [a[0]] + a[1..];
    } else {
      assert a + b == b;
    }
  }

  lemma {:induction false} SkipCode(code: string, rest: string)
    requires 'm' !in code
    ensures SkipEscape(code + "m" + rest) == rest
    decreases |code|
  {
    if |code| > 0 {
      assert (code + "m" + rest)[1..] == code[1..] + "m" + rest;
      assert code[0] != 'm';
      SkipCode(code[1..], rest);
    } else {
      assert (code + "m" + rest)[1..] == rest;
    }
  }

  lemma SkipStart(c: Colour, rest: string)
    ensures Plain(Start(c) + rest) == Plain(rest)
  {
    var t := "[" + Code(c) + "m" + rest;
    assert Start(c) + rest == [Esc] + t;
    assert ([Esc] + t)[1..] == t;
    assert t == ("[" + Code(c)) + "m" + rest;
    SkipCode("[" + Code(c), rest);
  }

  /** A terminal shows a painted text as the text itself: colouring is invisible. */
  lemma PlainPaint(c: Colour, s: string, rest: string)
    requires NoEsc(s)
    ensures Plain(Paint(c, s) + rest) == s + Plain(rest)
  {
    assert Paint(c, s) + rest == Start(c) + (s + (Reset + rest));
    SkipStart(c, s + (Reset + rest));
    PlainNoEsc(s, Reset + rest);
    PlainReset(rest);
  }

  lemma PlainReset(rest: string)
    ensures Plain(Reset + rest) == Plain(rest)
  {
    var t := "[0" + "m" + rest;
    assert Reset + rest == [Esc] + t;
    assert ([Esc] + t)[1..] == t;
    SkipCode("[0", rest);
  }

  // ---------------------------------------------------------------------------
  // Quoted names
  // ---------------------------------------------------------------------------

  const Quote: char := '\''

  /**
   * `colorize_quoted_names`, character by character: outside quotes a
   * character is copied; an opening quote is copied and starts collecting;
   * a closing quote emits the collected name in bold cyan and the quote.
   * A quote still open at the end gets its text raw and one more quote.
   */
  function ScanQuotes(rest: string, inQuote: bool, buf: string, out: string): (r: string)
    decreases |rest|
  {
    if |rest| == 0 then (if inQuote then out + buf + [Quote] else out)
    else if rest[0] == Quote then
      if inQuote then ScanQuotes(rest[1..], false, "", out + Paint(BoldCyan, buf) + [Quote])
      else ScanQuotes(rest[1..], true, buf, out + [Quote])
    else if inQuote then ScanQuotes(rest[1..], true, buf + [rest[0]], out)
    else ScanQuotes(rest[1..], false, buf, out + [rest[0]])
  }

  function ColorizeQuotedNames(input: string): string
  {
    ScanQuotes(input, false, "", "")
  }

  /** The index of the first quote in `t`. */
  function QuoteAt(t: string): (r: Option<nat>)
    ensures r.None? ==> forall k | 0 <= k < |t| :: t[k] != Quote
    ensures r.Some? ==> r.value < |t| && t[r.value] == Quote && forall k | 0 <= k < r.value :: t[k] != Quote
    decreases |t|
  {
    if |t| == 0 then None
    else if t[0] == Quote then Some(0)
    else
      var rest := QuoteAt(t[1..]);
      if rest.None? then None else Some(rest.value + 1)
  }

  /**
   * The same highlighting stated segment by segment: the text up to the
   * first quote is kept, then a quote; if another quote closes the name,
   * the name in bold cyan and the quote follow and the rest is handled
   * alike; otherwise the rest of the text is kept and a quote added.
   */
  function Highlighted(s: string): (r: string)
    decreases |s|
  {
    match QuoteAt(s)
    case None => s
    case Some(i) => s[..i] + [Quote] + InQuote("", s[i + 1..])
  }

  /** What follows an open quote whose name so far is `buf`, with `t` still to read. */
  function InQuote(buf: string, t: string): string
    decreases |t|
  {
    match QuoteAt(t)
    case None => buf + t + [Quote]
    case Some(j) => Paint(BoldCyan, buf + t[..j]) + [Quote] + Highlighted(t[j + 1..])
  }

  lemma {:induction false} HighlightedCons(t: string)
    requires |t| > 0 && t[0] != Quote
    ensures Highlighted(t) == [t[0]] + Highlighted(t[1..])
  {
    var rest := QuoteAt(t[1..]);
    if rest.Some? {
      var i := rest.value;
      assert QuoteAt(t) == Some(i + 1);
      HighlightedAt(t, i + 1);
      HighlightedAt(t[1..], i);
      assert t[i + 2..] == t[1..][i + 1..];
      assert t[..i + 1] == [t[0]] + t[1..][..i];
      ConsGroup(t[0], t[1..][..i], InQuote("", t[i + 2..]));
    } else {
      assert QuoteAt(t).None?;
      assert t == [t[0]] + t[1..];
    }
  }

  lemma HighlightedAt(s: string, i: nat)
    requires QuoteAt(s) == Some(i)
    ensures i < |s| && Highlighted(s) == s[..i] + [Quote] + InQuote("", s[i + 1..])
  {
  }

  lemma InQuoteAt(buf: string, t: string, j: nat)
    requires QuoteAt(t) == Some(j)
    ensures j < |t| && InQuote(buf, t) == Paint(BoldCyan, buf + t[..j]) + [Quote] + Highlighted(t[j + 1..])
  {
  }

  lemma ConsGroup(c: char, a: string, x: string)
    ensures [c] + a + [Quote] + x == [c] + (a + [Quote] + x)
  {
  }

  lemma {:induction false} InQuoteCons(buf: string, t: string)
    requires |t| > 0 && t[0] != Quote
    ensures InQuote(buf, t) == InQuote(buf + [t[0]], t[1..])
  {
    var rest := QuoteAt(t[1..]);
    if rest.Some? {
      var j := rest.value;
      assert QuoteAt(t) == Some(j + 1);
      assert t[j + 2..] == t[1..][j + 1..];
      assert buf + t[..j + 1] == buf + [t[0]] + t[1..][..j];
    } else {
      assert buf + t == buf + [t[0]] + t[1..];
    }
  }

  lemma {:induction false} ScanOutside(t: string, out: string)
    ensures ScanQuotes(t, false, "", out) == out + Highlighted(t)
    decreases |t|, 1
  {
    if |t| == 0 {
      assert out + Highlighted(t) == out;
    } else if t[0] == Quote {
      ScanInside(t[1..], "", out + [Quote]);
      assert QuoteAt(t) == Some(0) && t[..0] + [Quote] == [Quote];
      assert Highlighted(t) == [Quote] + InQuote("", t[1..]);
    } else {
      ScanOutside(t[1..], out + [t[0]]);
      HighlightedCons(t);
    }
  }

  lemma {:induction false} ScanInside(t: string, buf: string, out: string)
    ensures ScanQuotes(t, true, buf, out) == out + InQuote(buf, t)
    decreases |t|, 0
  {
    if |t| == 0 {
      assert buf + t == buf;
    } else if t[0] == Quote {
      ScanOutside(t[1..], out + Paint(BoldCyan, buf) + [Quote]);
      assert QuoteAt(t) == Some(0) && buf + t[..0] == buf;
    } else {
      ScanInside(t[1..], buf + [t[0]], out);
      InQuoteCons(buf, t);
    }
  }

  /** The character-by-character scan and the segment-by-segment statement agree on every input. */
  lemma QuotedNamesHighlighted(input: string)
    ensures ColorizeQuotedNames(input) == Highlighted(input)
  {
    ScanOutside(input, "");
  }

  /** The number of quotes in `s`. */
  function Quotes(s: string): nat
  {
    multiset(s)[Quote]
  }

  /** An odd number of quotes leaves the last one open. */
  predicate OddQuotes(s: string)
  {
    Quotes(s) % 2 == 1
  }

  /** Counting the quotes from the first one on. */
  lemma QuotesFromFirst(s: string, i: nat)
    requires i < |s| && s[i] == Quote && Quote !in s[..i]
    ensures Quotes(s) == 1 + Quotes(s[i + 1..])
    ensures OddQuotes(s) <==> !OddQuotes(s[i + 1..])
  {
    assert s == s[..i] + [Quote] + s[i + 1..];
    assert multiset(s) == multiset(s[..i]) + multiset([Quote]) + multiset(s[i + 1..]);
    assert Quote !in multiset(s[..i]);
  }

  lemma NoQuotes(s: string)
    requires Quote !in s
    ensures Quotes(s) == 0 && !OddQuotes(s)
  {
    assert Quote !in multiset(s);
  }

  /** A quote that nothing closes: the rest is kept and a quote added. */
  lemma HighlightedOpen(s: string, i: nat)
    requires QuoteAt(s) == Some(i) && QuoteAt(s[i + 1..]).None?
    ensures Highlighted(s) == s + [Quote]
  {
    assert s == s[..i] + [Quote] + s[i + 1..];
    assert "" + s[i + 1..] == s[i + 1..];
  }

  /** A closed name, then whatever follows its closing quote. */
  lemma HighlightedClosed(s: string, i: nat, j: nat)
    requires QuoteAt(s) == Some(i) && QuoteAt(s[i + 1..]) == Some(j)
    ensures Highlighted(s) == s[..i] + [Quote] + Paint(BoldCyan, s[i + 1..][..j]) + [Quote] + Highlighted(s[i + 1..][j + 1..])
  {
    var t := s[i + 1..];
    HighlightedAt(s, i);
    InQuoteAt("", t, j);
    assert "" + t[..j] == t[..j];
    QuoteGroup(s[..i], Paint(BoldCyan, t[..j]), Highlighted(t[j + 1..]));
  }

  lemma QuoteGroup(a: string, p: string, h: string)
    ensures a + [Quote] + (p + [Quote] + h) == a + [Quote] + p + [Quote] + h
  {
  }

  /** How a closed name shows, whatever follows it. */
  lemma PlainSegment(pre: string, name: string, h: string)
    requires NoEsc(pre) && NoEsc(name)
    ensures Plain(pre + [Quote] + Paint(BoldCyan, name) + [Quote] + h) == pre + [Quote] + name + [Quote] + Plain(h)
  {
    var pq := pre + [Quote];
    assert NoEsc(pq);
    assert pre + [Quote] + Paint(BoldCyan, name) + [Quote] + h == pq + (Paint(BoldCyan, name) + ([Quote] + h));
    PlainNoEsc(pq, Paint(BoldCyan, name) + ([Quote] + h));
    PlainPaint(BoldCyan, name, [Quote] + h);
    PlainNoEsc([Quote], h);
  }

  lemma {:induction false} PlainHighlighted(s: string)
    requires NoEsc(s)
    ensures Plain(Highlighted(s)) == s + (if OddQuotes(s) then [Quote] else [])
    decreases |s|
  {
    match QuoteAt(s)
    case None =>
      PlainNoEsc(s, "");
      assert s + "" == s && Plain("") == "";
      NoQuotes(s);
    case Some(i) =>
      var after := s[i + 1..];
      QuotesFromFirst(s, i);
      match QuoteAt(after)
      case None =>
        HighlightedOpen(s, i);
        NoQuotes(after);
        assert NoEsc(s + [Quote]);
        PlainNoEsc(s + [Quote], "");
        assert s + [Quote] + "" == s + [Quote];
      case Some(j) =>
        var pre := s[..i];
        var name := after[..j];
        var rest := after[j + 1..];
        HighlightedClosed(s, i, j);
        QuotesFromFirst(after, j);
        assert NoEsc(pre) && NoEsc(name) && NoEsc(rest);
        PlainSegment(pre, name, Highlighted(rest));
        PlainHighlighted(rest);
        SplitAt(s, i);
        SplitAt(after, j);
        var extra := if OddQuotes(rest) then [Quote] else [];
        assert OddQuotes(s) == OddQuotes(rest);
        calc {
          Plain(Highlighted(s));
          pre + [Quote] + name + [Quote] + (rest + extra);
          { Regroup(pre, name, rest, extra); }
          (pre + [Quote] + (name + [Quote] + rest)) + extra;
        }
  }

  lemma SplitAt(s: string, i: nat)
    requires i < |s|
    ensures s == s[..i] + [s[i]] + s[i + 1..]
  {
  }

  lemma Regroup(a: string, b: string, c: string, d: string)
    ensures a + [Quote] + b + [Quote] + (c + d) == (a + [Quote] + (b + [Quote] + c)) + d
  {
  }

  /**
   * Highlighting quoted names changes only colours: the text shown is
   * the input, plus one closing quote when a quote is left open.
   */
  lemma QuotedNamesShowInput(input: string)
    requires NoEsc(input)
    ensures Plain(ColorizeQuotedNames(input)) == input + (if OddQuotes(input) then [Quote] else [])
  {
    QuotedNamesHighlighted(input);
    PlainHighlighted(input);
  }

  // ---------------------------------------------------------------------------
  // Error codes
  // ---------------------------------------------------------------------------

  /**
   * `extract_error_code`: from the first `error[` through the first `]:`
   * after it is the code; the rest is what follows, without its leading
   * whitespace.
   */
  function ExtractErrorCode(msg: string): Option<(string, string)>
  {
    match Find(msg, "error[")
    case None => None
    case Some(start) => CodeFrom(msg, start)
  }

  /** The code and the rest once `error[` is found at `start`. */
  function CodeFrom(msg: string, start: nat): Option<(string, string)>
    requires start <= |msg|
  {
    match Find(msg[start..], "]:")
    case None => None
    case Some(end) =>
      var stop := start + end + 2;
      Some((msg[start..stop], TrimStart(msg[stop..])))
  }

  lemma OccursInSuffix(msg: string, sub: string, start: nat, k: nat)
    requires start <= |msg|
    ensures OccursAt(msg[start..], sub, k) <==> OccursAt(msg, sub, start + k)
  {
    if start + k + |sub| <= |msg| {
      assert msg[start..][k..k + |sub|] == msg[start + k..start + k + |sub|];
    }
  }

  /** A message has an error code exactly when some `error[` is followed, at or after it, by a `]:`. */
  lemma ErrorCodePresent(msg: string)
    ensures ExtractErrorCode(msg).Some?
            <==> exists i: nat, j: nat | i <= j :: OccursAt(msg, "error[", i) && OccursAt(msg, "]:", j)
  {
    match Find(msg, "error[")
    case None =>
    case Some(start) =>
      match Find(msg[start..], "]:")
      case None =>
        forall i: nat, j: nat | i <= j && OccursAt(msg, "error[", i)
          ensures !OccursAt(msg, "]:", j)
        {
          assert start <= i;
          OccursInSuffix(msg, "]:", start, j - start);
        }
      case Some(end) =>
        OccursInSuffix(msg, "]:", start, end);
        assert start <= start + end && OccursAt(msg, "error[", start) && OccursAt(msg, "]:", start + end);
  }

  /** No `]:` starts inside `error[`. */
  lemma CloseAfterOpen(msg: string, start: nat, k: nat)
    requires OccursAt(msg, "error[", start) && k < 6
    ensures !OccursAt(msg[start..], "]:", k)
  {
    assert msg[start + k] == "error["[k];
    if k + 2 <= |msg[start..]| {
      assert msg[start..][k..k + 2][0] == msg[start + k];
    }
  }

  /** The code runs from the first `error[` through the first `]:` after it. */
  lemma ErrorCodeAt(msg: string) returns (start: nat, end: nat)
    requires ExtractErrorCode(msg).Some?
    ensures OccursAt(msg, "error[", start) && forall k: nat | k < start :: !OccursAt(msg, "error[", k)
    ensures start <= |msg| && OccursAt(msg[start..], "]:", end)
    ensures forall k: nat | k < end :: !OccursAt(msg[start..], "]:", k)
    ensures start + end + 2 <= |msg|
    ensures ExtractErrorCode(msg).value
            == (msg[start..start + end + 2], TrimStart(msg[start + end + 2..]))
  {
    start := Find(msg, "error[").value;
    assert ExtractErrorCode(msg) == CodeFrom(msg, start);
    end := CodeEnd(msg, start);
  }

  lemma CodeEnd(msg: string, start: nat) returns (end: nat)
    requires start <= |msg| && CodeFrom(msg, start).Some?
    ensures OccursAt(msg[start..], "]:", end)
    ensures forall k: nat | k < end :: !OccursAt(msg[start..], "]:", k)
    ensures start + end + 2 <= |msg|
    ensures CodeFrom(msg, start).value
            == (msg[start..start + end + 2], TrimStart(msg[start + end + 2..]))
  {
    end := Find(msg[start..], "]:").value;
  }

  /** A code as `extract_error_code` cuts it: `error[`, then anything, then the first `]:`. */
  predicate Bracketed(code: string)
  {
    && |code| >= 8 && StartsWith(code, "error[") && OccursAt(code, "]:", |code| - 2)
    && forall k | 0 <= k < |code| - 2 :: !OccursAt(code, "]:", k)
  }

  lemma BracketsOf(msg: string, start: nat, end: nat)
    requires OccursAt(msg, "error[", start) && start <= |msg| && OccursAt(msg[start..], "]:", end)
    requires forall k: nat | k < end :: !OccursAt(msg[start..], "]:", k)
    requires start + end + 2 <= |msg|
    ensures Bracketed(msg[start..start + end + 2])
  {
    var tail := msg[start..];
    var code := msg[start..start + end + 2];
    assert code == tail[..end + 2];
    if end < 6 {
      CloseAfterOpen(msg, start, end);
    }
    assert code[..6] == tail[..6] == msg[start..start + 6];
    assert code[|code| - 2..] == tail[end..end + 2];
    forall k | 0 <= k < |code| - 2
      ensures !OccursAt(code, "]:", k)
    {
      assert code[k..k + 2] == tail[k..k + 2];
      assert !OccursAt(tail, "]:", k);
    }
  }

  /** The code starts with `error[` and ends with the first `]:` after it. */
  lemma ErrorCodeBrackets(msg: string)
    requires ExtractErrorCode(msg).Some?
    ensures Bracketed(ExtractErrorCode(msg).value.0)
  {
    var start, end := ErrorCodeAt(msg);
    BracketsOf(msg, start, end);
  }

  /** `cut` is the code found at `i`, the first `error[` of `msg`, and the trimmed text after it. */
  predicate CutAt(msg: string, cut: (string, string), i: nat)
  {
    && i + |cut.0| <= |msg| && OccursAt(msg, cut.0, i)
    && (forall k: nat | k < i :: !OccursAt(msg, "error[", k))
    && cut.1 == TrimStart(msg[i + |cut.0|..])
  }

  lemma CutOf(msg: string, start: nat, stop: nat, cut: (string, string))
    requires start <= stop <= |msg| && cut == (msg[start..stop], TrimStart(msg[stop..]))
    requires forall k: nat | k < start :: !OccursAt(msg, "error[", k)
    ensures start + |cut.0| <= |msg| && OccursAt(msg, cut.0, start)
    ensures cut.1 == TrimStart(msg[start + |cut.0|..])
  {
    assert msg[start..start + |msg[start..stop]|] == msg[start..stop];
  }

  /**
   * The code is taken from the first `error[` of the message, and the rest
   * is what follows the code with its leading whitespace removed.
   */
  lemma ErrorCodeRest(msg: string)
    requires ExtractErrorCode(msg).Some?
    ensures exists i: nat :: CutAt(msg, ExtractErrorCode(msg).value, i)
  {
    var start, stop := CodeSpan(msg);
    CutOf(msg, start, stop, ExtractErrorCode(msg).value);
    assert CutAt(msg, ExtractErrorCode(msg).value, start);
  }

  /** Where the code lies in the message. */
  lemma CodeSpan(msg: string) returns (start: nat, stop: nat)
    requires ExtractErrorCode(msg).Some?
    ensures start <= stop <= |msg| && forall k: nat | k < start :: !OccursAt(msg, "error[", k)
    ensures ExtractErrorCode(msg).value == (msg[start..stop], TrimStart(msg[stop..]))
  {
    var end;
    start, end := ErrorCodeAt(msg);
    stop := start + end + 2;
  }
}
