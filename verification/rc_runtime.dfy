/**
 * What the emitted reference-count routines do at run time. A counted
 * value carries a header whose first word is a signed 32-bit count.
 * `__incref` adds one to it; `__decref` skips a null header and any count
 * outside 1 ..< 1000000 (taken for a global constant), and otherwise
 * subtracts one and frees the value when the count reaches zero. The
 * emitters call these routines only for a known variable holding a
 * pointer.
 */
module RcRuntime {
  import opened Wrappers
  import opened Text

  type I32 = x: int | I32_MIN <= x <= I32_MAX

  /** The largest count `__decref` still takes for a live heap value, plus one. */
  const CountLimit: int := 1000000

  /** Two's-complement wrap-around of a 32-bit addition. */
  function Wrap32(x: int): (r: I32)
    ensures (r - x) % 0x1_0000_0000 == 0
  {
    (x - I32_MIN) % 0x1_0000_0000 + I32_MIN
  }

  datatype Header = Header(count: I32)

  /** `__incref`: the count plus one, wrapping at the top of the 32-bit range (the addition is not `nsw`). */
  function Incref(h: Header): (r: Header)
    ensures h.count < I32_MAX ==> r.count == h.count + 1
    ensures h.count == I32_MAX ==> r.count == I32_MIN
  {
    Header(Wrap32(h.count + 1))
  }

  /** The counts `__decref` acts on: positive and below the limit. */
  predicate Live(count: int)
  {
    0 < count < CountLimit
  }

  /** The header after `__decref` (`None` for a null header) and whether the value was freed. */
  datatype DecrefOutcome = DecrefOutcome(header: Option<Header>, freed: bool)

  /** `__decref` on the header `p` points to, or on a null pointer. */
  function Decref(p: Option<Header>): (r: DecrefOutcome)
    ensures p.None? ==> r == DecrefOutcome(None, false)
    ensures p.Some? && !Live(p.value.count) ==> r == DecrefOutcome(p, false)
    ensures p.Some? && Live(p.value.count) ==> r.header == Some(Header(p.value.count - 1))
  {
    match p
    case None => DecrefOutcome(None, false)
    case Some(h) =>
      if Live(h.count) then DecrefOutcome(Some(Header(h.count - 1)), h.count - 1 == 0)
      else DecrefOutcome(p, false)
  }

  /** A value is freed exactly when its header held the last reference. */
  lemma DecrefFreesLastReference(p: Option<Header>)
    ensures Decref(p).freed <==> p == Some(Header(1))
  {
  }

  /** `__decref` never drives a non-negative count below zero. */
  lemma DecrefKeepsNonNegative(h: Header)
    requires h.count >= 0
    ensures Decref(Some(h)).header.Some? && Decref(Some(h)).header.value.count >= 0
  {
  }

  /** A retain followed by a release restores the count, and frees only a value that had no other reference. */
  lemma IncrefThenDecref(h: Header)
    requires 0 <= h.count < CountLimit - 1
    ensures Decref(Some(Incref(h))) == DecrefOutcome(Some(h), h.count == 0)
  {
  }

  /** `k` releases of the same header in a row: the header after them, and how many of them freed the value. */
  function DecrefTimes(h: Header, k: nat): (r: (Header, nat))
    decreases k
  {
    if k == 0 then (h, 0)
    else
      var once := Decref(Some(h));
      var rest := DecrefTimes(once.header.value, k - 1);
      (rest.0, rest.1 + (if once.freed then 1 else 0))
  }

  /**
   * Releasing a live value `k` times counts it down to zero at the
   * latest, and frees it once, at the release that reaches zero, however
   * many releases follow: the guard turns every later one into a no-op.
   */
  lemma {:induction false} ReleasesFreeOnce(h: Header, k: nat)
    requires 0 <= h.count < CountLimit
    ensures DecrefTimes(h, k).0.count == if k >= h.count then 0 else h.count - k
    ensures DecrefTimes(h, k).1 == if h.count > 0 && k >= h.count then 1 else 0
    decreases k
  {
    if k > 0 {
      var once := Decref(Some(h));
      ReleasesFreeOnce(once.header.value, k - 1);
    }
  }

  /** A header outside the live range (a global constant's) is never changed or freed, however often it is released. */
  lemma {:induction false} ConstantsNeverReleased(h: Header, k: nat)
    requires !Live(h.count)
    ensures DecrefTimes(h, k) == (h, 0)
    decreases k
  {
    if k > 0 {
      ConstantsNeverReleased(Decref(Some(h)).header.value, k - 1);
    }
  }

  // ---------------------------------------------------------------------------
  // Emitting the calls
  // ---------------------------------------------------------------------------

  /** What loading a variable yields: a data pointer (an address) or a value of another kind. */
  datatype Loaded = PointerValue(address: int) | OtherValue

  /** A call to one of the routines, on the header address. */
  datatype RcCall = RcCall(callee: string, header: int)

  /** The offset from a counted value's data back to its header. */
  const HeaderOffset: int := 8

  const UnwrapNone := "called `Option::unwrap()` on a `None` value"

  /**
   * `emit_incref` / `emit_decref`: nothing for a variable not in the
   * symbol table or not holding a pointer; otherwise a call of `callee`
   * on the header eight bytes before the data, which panics when the
   * routines were never created (`declared` is false).
   */
  function Emit(callee: string, declared: bool, symbols: map<string, Loaded>, v: string): (r: Result<Option<RcCall>, string>)
    ensures r == Ok(None) <==> v !in symbols || !symbols[v].PointerValue?
    ensures r.Err? <==> v in symbols && symbols[v].PointerValue? && !declared
    ensures r.Ok? && r.value.Some? ==>
              v in symbols && symbols[v].PointerValue?
              && r.value.value == RcCall(callee, symbols[v].address - HeaderOffset)
  {
    if v !in symbols then Ok(None)
    else
      match symbols[v]
      case OtherValue => Ok(None)
      case PointerValue(data) =>
        if !declared then Err(UnwrapNone) else Ok(Some(RcCall(callee, data - HeaderOffset)))
  }

  function EmitIncref(declared: bool, symbols: map<string, Loaded>, v: string): Result<Option<RcCall>, string>
  {
    Emit("__incref", declared, symbols, v)
  }

  function EmitDecref(declared: bool, symbols: map<string, Loaded>, v: string): Result<Option<RcCall>, string>
  {
    Emit("__decref", declared, symbols, v)
  }

  /** Retaining and releasing the same variable are guarded alike and address the same header. */
  lemma EmitPaired(declared: bool, symbols: map<string, Loaded>, v: string)
    ensures EmitIncref(declared, symbols, v).Ok? <==> EmitDecref(declared, symbols, v).Ok?
    ensures EmitIncref(declared, symbols, v).Ok? ==>
              && (EmitIncref(declared, symbols, v).value.Some? <==> EmitDecref(declared, symbols, v).value.Some?)
              && (EmitIncref(declared, symbols, v).value.Some? ==>
                    EmitIncref(declared, symbols, v).value.value.header == EmitDecref(declared, symbols, v).value.value.header)
  {
  }
}
