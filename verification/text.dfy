/**
 * The pieces of Rust's standard library the compiler leans on: character
 * classes, substring search, trimming, `split` into two parts, decimal
 * formatting and `str::parse::<i32>`.
 */
module Text {
  import opened Wrappers

  // ---------------------------------------------------------------------------
  // Character classes
  // ---------------------------------------------------------------------------

  /** `char::is_whitespace`: the characters with the Unicode White_Space property. */
  predicate IsWhitespace(c: char)
  {
    ('\t' <= c <= '\r') || c == ' ' || c == '\U{85}' || c == '\U{A0}' || c == '\U{1680}'
    || ('\U{2000}' <= c <= '\U{200A}') || c == '\U{2028}' || c == '\U{2029}'
    || c == '\U{202F}' || c == '\U{205F}' || c == '\U{3000}'
  }

  /** `char::is_digit(10)`. */
  predicate IsDigit(c: char)
  {
    '0' <= c <= '9'
  }

  /** `char::is_alphabetic`, restricted to ASCII letters. */
  predicate IsAlphabetic(c: char)
  {
    ('a' <= c <= 'z') || ('A' <= c <= 'Z')
  }

  /** `char::is_alphanumeric`, restricted to ASCII. */
  predicate IsAlphanumeric(c: char)
  {
    IsAlphabetic(c) || IsDigit(c)
  }

  /** `char::is_uppercase`, restricted to ASCII. */
  predicate IsUppercase(c: char)
  {
    'A' <= c <= 'Z'
  }

  // ---------------------------------------------------------------------------
  // Substrings
  // ---------------------------------------------------------------------------

  predicate OccursAt(s: string, sub: string, i: nat)
  {
    i + |sub| <= |s| && s[i..i + |sub|] == sub
  }

  predicate StartsWith(s: string, prefix: string)
  {
    OccursAt(s, prefix, 0)
  }

  /** The first occurrence of `sub` in `s` at or after `k`. */
  function FindFrom(s: string, sub: string, k: nat): (r: Option<nat>)
    decreases |s| - k
    ensures r.Some? ==> k <= r.value && OccursAt(s, sub, r.value)
    ensures r.Some? ==> forall j | k <= j < r.value :: !OccursAt(s, sub, j)
    ensures r.None? ==> forall j | k <= j :: !OccursAt(s, sub, j)
  {
    if k + |sub| > |s| then None
    else if s[k..k + |sub|] == sub then Some(k)
    else FindFrom(s, sub, k + 1)
  }

  /** `str::find`: the index of the first occurrence of `sub`. */
  function Find(s: string, sub: string): (r: Option<nat>)
    ensures r.Some? <==> exists j :: OccursAt(s, sub, j)
    ensures r.Some? ==> OccursAt(s, sub, r.value) && forall j: nat | j < r.value :: !OccursAt(s, sub, j)
  {
    FindFrom(s, sub, 0)
  }

  predicate Contains(s: string, sub: string)
  {
    Find(s, sub).Some?
  }

  /** `s.split(sep)` yields exactly two parts: `sep` occurs once (scanning left to right). */
  predicate SplitsInTwo(s: string, sep: string)
  {
    match Find(s, sep)
    case Some(i) => !Contains(s[i + |sep|..], sep)
    case None => false
  }

  // ---------------------------------------------------------------------------
  // Trimming
  // ---------------------------------------------------------------------------

  /** `str::trim_start`: drop the leading whitespace. */
  function TrimStart(s: string): (r: string)
    decreases |s|
    ensures |r| <= |s|
    ensures forall i | 0 <= i < |s| - |r| :: IsWhitespace(s[i])
    ensures |r| > 0 ==> !IsWhitespace(r[0])
  {
    if |s| > 0 && IsWhitespace(s[0]) then TrimStart(s[1..]) else s
  }

  /** `str::trim_end`: drop the trailing whitespace. */
  function TrimEnd(s: string): (r: string)
    decreases |s|
    ensures |r| <= |s|
    ensures forall i | |r| <= i < |s| :: IsWhitespace(s[i])
    ensures |r| > 0 ==> !IsWhitespace(r[|r| - 1])
  {
    if |s| > 0 && IsWhitespace(s[|s| - 1]) then TrimEnd(s[..|s| - 1]) else s
  }

  /** `str::trim`. */
  function Trim(s: string): string
  {
    TrimEnd(TrimStart(s))
  }

  /** `str::trim_start_matches(p)`: remove every leading repetition of `p`. */
  function StripPrefixes(s: string, p: string): (r: string)
    decreases |s|
    ensures |r| <= |s|
    ensures |p| > 0 ==> !StartsWith(r, p)
  {
    if |p| > 0 && StartsWith(s, p) then StripPrefixes(s[|p|..], p) else s
  }

  /** Trimming the start leaves a suffix. */
  lemma {:induction false} TrimStartSuffix(s: string)
    ensures TrimStart(s) == s[|s| - |TrimStart(s)|..]
    decreases |s|
  {
    if |s| > 0 && IsWhitespace(s[0]) {
      TrimStartSuffix(s[1..]);
      assert s[1..][|s[1..]| - |TrimStart(s[1..])|..] == s[|s| - |TrimStart(s)|..];
    }
  }

  /** Trimming the end leaves a prefix. */
  lemma {:induction false} TrimEndPrefix(s: string)
    ensures TrimEnd(s) == s[..|TrimEnd(s)|]
    decreases |s|
  {
    if |s| > 0 && IsWhitespace(s[|s| - 1]) {
      TrimEndPrefix(s[..|s| - 1]);
      assert s[..|s| - 1][..|TrimEnd(s)|] == s[..|TrimEnd(s)|];
    }
  }

  /** Stripping a prefix leaves a suffix. */
  lemma {:induction false} StripPrefixesSuffix(s: string, p: string)
    ensures StripPrefixes(s, p) == s[|s| - |StripPrefixes(s, p)|..]
    decreases |s|
  {
    if |p| > 0 && StartsWith(s, p) {
      StripPrefixesSuffix(s[|p|..], p);
      assert s[|p|..][|s[|p|..]| - |StripPrefixes(s, p)|..] == s[|s| - |StripPrefixes(s, p)|..];
    }
  }

  // ---------------------------------------------------------------------------
  // Decimal integers
  // ---------------------------------------------------------------------------

  const I32_MIN: int := -0x8000_0000
  const I32_MAX: int := 0x7fff_ffff

  function DigitChar(d: nat): (c: char)
    requires d < 10
    ensures IsDigit(c)
  {
    (('0' as int) + d) as char
  }

  function DigitValue(c: char): (d: nat)
    requires IsDigit(c)
    ensures d < 10 && DigitChar(d) == c
  {
    (c as int) - ('0' as int)
  }

  predicate AllDigits(s: string)
  {
    forall i | 0 <= i < |s| :: IsDigit(s[i])
  }

  /** Decimal digits of `n`, most significant first, without leading zeros. */
  function NatToString(n: nat): (r: string)
    decreases n
    ensures |r| > 0 && AllDigits(r)
    ensures |r| > 1 ==> r[0] != '0'
  {
    if n < 10 then [DigitChar(n)] else NatToString(n / 10) + [DigitChar(n % 10)]
  }

  /** Rust's `Display` for a signed integer. */
  function IntToString(i: int): string
  {
    if i < 0 then "-" + NatToString(-i) else NatToString(i)
  }

  /** The error kinds `str::parse::<i32>` reports. */
  datatype IntErrorKind = Empty | InvalidDigit | PosOverflow | NegOverflow

  /** Rust's `Display` for `ParseIntError`. */
  function IntErrorMessage(e: IntErrorKind): string
  {
    match e
    case Empty => "cannot parse integer from empty string"
    case InvalidDigit => "invalid digit found in string"
    case PosOverflow => "number too large to fit in target type"
    case NegOverflow => "number too small to fit in target type"
  }

  /**
   * The digit-by-digit accumulation of `from_str_radix`: digits are consumed
   * from the left, the first non-digit or the first step past `limit` stops it.
   */
  function Magnitude(digits: string, limit: nat, overflow: IntErrorKind): (r: Result<nat, IntErrorKind>)
    decreases |digits|
    ensures r.Ok? ==> r.value <= limit && AllDigits(digits)
    ensures r.Err? ==> r.error == InvalidDigit || r.error == overflow
  {
    if |digits| == 0 then Ok(0)
    else
      var v :- Magnitude(digits[..|digits| - 1], limit, overflow);
      var c := digits[|digits| - 1];
      if !IsDigit(c) then Err(InvalidDigit)
      else if v * 10 + DigitValue(c) > limit then Err(overflow)
      else
        assert forall i | 0 <= i < |digits| - 1 :: digits[i] == digits[..|digits| - 1][i];
        Ok(v * 10 + DigitValue(c))
  }

  /** `str::parse::<i32>`: an optional sign followed by decimal digits. */
  function ParseI32(s: string): (r: Result<int, IntErrorKind>)
    ensures r.Ok? ==> I32_MIN <= r.value <= I32_MAX
    ensures r.Err? && r.error == Empty <==> |s| == 0
  {
    if |s| == 0 then Err(Empty)
    else if s == "+" || s == "-" then Err(InvalidDigit)
    else if s[0] == '-' then
      var m :- Magnitude(s[1..], -I32_MIN, NegOverflow);
      Ok(0 - m)
    else if s[0] == '+' then
      var m :- Magnitude(s[1..], I32_MAX, PosOverflow);
      Ok(m)
    else
      var m :- Magnitude(s, I32_MAX, PosOverflow);
      Ok(m)
  }

  lemma {:induction false} MagnitudeOfNatToString(n: nat, limit: nat, overflow: IntErrorKind)
    requires n <= limit
    ensures Magnitude(NatToString(n), limit, overflow) == Ok(n)
    decreases n
  {
    var s := NatToString(n);
    if n < 10 {
      assert s[..0] == [];
    } else {
      MagnitudeOfNatToString(n / 10, limit, overflow);
      assert s[..|s| - 1] == NatToString(n / 10);
    }
  }

  /** Printing an `i32` and parsing it back gives the same value. */
  lemma {:induction false} ParseI32RoundTrip(i: int)
    requires I32_MIN <= i <= I32_MAX
    ensures ParseI32(IntToString(i)) == Ok(i)
  {
    var s := IntToString(i);
    if i < 0 {
      MagnitudeOfNatToString(-i, -I32_MIN, NegOverflow);
      assert s[1..] == NatToString(-i);
      assert s != "-" by { assert |NatToString(-i)| > 0; }
    } else {
      MagnitudeOfNatToString(i, I32_MAX, PosOverflow);
      assert IsDigit(s[0]);
    }
  }

  /** Distinct numbers print differently, so counters make distinct names. */
  lemma NatToStringInjective(a: nat, b: nat)
    ensures NatToString(a) == NatToString(b) ==> a == b
  {
    var limit := if a < b then b else a;
    MagnitudeOfNatToString(a, limit, PosOverflow);
    MagnitudeOfNatToString(b, limit, PosOverflow);
  }

  // ---------------------------------------------------------------------------
  // UTF-8 byte lengths
  // ---------------------------------------------------------------------------

  /** The number of bytes UTF-8 encodes `c` in. */
  function Utf8Width(c: char): (n: nat)
    ensures 1 <= n <= 4
    ensures n == 1 <==> c as int < 0x80
  {
    if c as int < 0x80 then 1 else if c as int < 0x800 then 2 else if c as int < 0x1_0000 then 3 else 4
  }

  /** `str::len`: the length of `s` in UTF-8 bytes. */
  function Utf8Len(s: string): (n: nat)
    ensures |s| <= n <= 4 * |s|
  {
    if |s| == 0 then 0 else Utf8Width(s[0]) + Utf8Len(s[1..])
  }

  predicate IsAscii(s: string)
  {
    forall i | 0 <= i < |s| :: s[i] as int < 0x80
  }

  /** Byte lengths add up over concatenation. */
  lemma {:induction false} Utf8LenAppend(a: string, b: string)
    ensures Utf8Len(a + b) == Utf8Len(a) + Utf8Len(b)
    decreases |a|
  {
    if |a| == 0 {
      assert a + b == b;
    } else {
      assert (a + b)[0] == a[0] && (a + b)[1..] == a[1..] + b;
      Utf8LenAppend(a[1..], b);
    }
  }

  /** In an ASCII string every character is one byte, so byte and character positions coincide. */
  lemma {:induction false} AsciiBytes(s: string)
    ensures IsAscii(s) <==> Utf8Len(s) == |s|
    decreases |s|
  {
    if |s| > 0 {
      AsciiBytes(s[1..]);
      assert IsAscii(s) <==> s[0] as int < 0x80 && IsAscii(s[1..]) by {
        if s[0] as int < 0x80 && IsAscii(s[1..]) {
          forall i | 0 <= i < |s| ensures s[i] as int < 0x80 {
            if i > 0 { assert s[i] == s[1..][i - 1]; }
          }
        }
      }
    }
  }

  /** In an ASCII string a prefix of `k` characters is `k` bytes. */
  lemma AsciiPrefix(s: string, k: nat)
    requires IsAscii(s) && k <= |s|
    ensures Utf8Len(s[..k]) == k
  {
    assert IsAscii(s[..k]) by {
      forall i | 0 <= i < k ensures s[..k][i] as int < 0x80 { assert s[..k][i] == s[i]; }
    }
    AsciiBytes(s[..k]);
  }

  /**
   * `floor_char_boundary(max)`, counted in characters: the longest prefix of
   * `s` that fits in `max` bytes.
   */
  function FitPrefix(s: string, max: nat): (k: nat)
    ensures k <= |s| && Utf8Len(s[..k]) <= max
    ensures k < |s| ==> max < Utf8Len(s[..k + 1])
    decreases |s|
  {
    if |s| == 0 || max < Utf8Width(s[0]) then
      assert s[..0] == [];
      assert |s| > 0 ==> s[..1][1..] == [];
      0
    else
      var k := 1 + FitPrefix(s[1..], max - Utf8Width(s[0]));
      assert s[..k][1..] == s[1..][..k - 1];
      assert k < |s| ==> s[..k + 1][1..] == s[1..][..k];
      k
  }

  /** The fitting prefix is the whole string exactly when the whole string fits. */
  lemma FitPrefixWhole(s: string, max: nat)
    ensures FitPrefix(s, max) == |s| <==> Utf8Len(s) <= max
  {
    var k := FitPrefix(s, max);
    if k < |s| {
      assert s == s[..k + 1] + s[k + 1..];
      Utf8LenAppend(s[..k + 1], s[k + 1..]);
    } else {
      assert s[..k] == s;
    }
  }

  /** `slice.join(sep)`. */
  function Join(parts: seq<string>, sep: string): (r: string)
    decreases |parts|
    ensures |parts| == 1 ==> r == parts[0]
  {
    if |parts| == 0 then ""
    else if |parts| == 1 then parts[0]
    else parts[0] + sep + Join(parts[1..], sep)
  }
}
