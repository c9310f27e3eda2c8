/**
 * The MIR builder's state: the program being built, the counters that
 * make fresh temporaries and block labels, the stack of enclosing loops,
 * and the stack of scopes with the reference-counted variables to release
 * when each ends. Also `finalize`, the clean-up pass run on the result.
 */
module MirBuilder {
  import opened Wrappers
  import opened Text
  import opened Mir

  /** Where `break` and `continue` jump inside one loop. */
  datatype LoopContext = LoopContext(breakTarget: string, continueTarget: string)

  datatype Builder = Builder(program: Program, tmpCounter: nat, blockCounter: nat,
                             loopStack: seq<LoopContext>, rcTracked: seq<seq<string>>)

  /** A fresh state: empty program, temporaries from `%1`, labels from `Block0`, one (global) scope. */
  function New(): (b: Builder)
    ensures b.program.functions == [] && b.program.globals == []
    ensures NextTmp(b).name == "%1" && NextBlock(b).name == "Block0"
    ensures CurrentLoop(b).None? && |b.rcTracked| == 1 && forall v :: !IsRcTracked(b, v)
  {
    var b := Builder(Program([], []), 1, 0, [], [[]]);
    assert NatToString(1) == "1" && NatToString(0) == "0";
    b
  }

  // ---------------------------------------------------------------------------
  // Fresh names
  // ---------------------------------------------------------------------------

  function TmpName(k: nat): string
  {
    "%" + NatToString(k)
  }

  function BlockName(k: nat): string
  {
    "Block" + NatToString(k)
  }

  /** A temporary name: what the `let` lowering takes for a freshly created value. */
  predicate IsTemp(s: string)
  {
    StartsWith(s, "%")
  }

  /** A name together with the state after issuing it. */
  datatype Fresh = Fresh(name: string, b: Builder)

  /** `next_tmp`: the temporary numbered by the counter, which then moves on by one. */
  function NextTmp(b: Builder): (r: Fresh)
    ensures IsTemp(r.name)
    ensures r.b == b.(tmpCounter := b.tmpCounter + 1)
  {
    Fresh(TmpName(b.tmpCounter), b.(tmpCounter := b.tmpCounter + 1))
  }

  /** `next_block`: the label numbered by the block counter, which then moves on by one. */
  function NextBlock(b: Builder): (r: Fresh)
    ensures !IsTemp(r.name)
    ensures r.b == b.(blockCounter := b.blockCounter + 1)
  {
    var name := BlockName(b.blockCounter);
    assert name[0] == 'B';
    Fresh(name, b.(blockCounter := b.blockCounter + 1))
  }

  /** Numbered names are equal exactly when their numbers are, and a temporary is never a label. */
  lemma NamesDistinct(j: nat, k: nat)
    ensures TmpName(j) == TmpName(k) <==> j == k
    ensures BlockName(j) == BlockName(k) <==> j == k
    ensures TmpName(j) != BlockName(k)
  {
    NatToStringInjective(j, k);
    if TmpName(j) == TmpName(k) {
      assert NatToString(j) == TmpName(j)[1..];
    }
    if BlockName(j) == BlockName(k) {
      assert NatToString(j) == BlockName(j)[5..];
    }
    assert TmpName(j)[0] != BlockName(k)[0];
  }

  /** The names `n` successive `next_tmp` calls return, and the state after them. */
  function IssueTmps(b: Builder, n: nat): (r: (seq<string>, Builder))
    decreases n
  {
    if n == 0 then ([], b)
    else
      var f := NextTmp(b);
      var rest := IssueTmps(f.b, n - 1);
      ([f.name] + rest.0, rest.1)
  }

  /**
   * `n` successive `next_tmp` calls return `n` pairwise distinct names, none
   * of which any earlier call returned, and advance the counter by `n`.
   */
  lemma {:induction false} IssuedTmpsFresh(b: Builder, n: nat)
    ensures |IssueTmps(b, n).0| == n
    ensures IssueTmps(b, n).1 == b.(tmpCounter := b.tmpCounter + n)
    ensures forall i | 0 <= i < n :: IssueTmps(b, n).0[i] == TmpName(b.tmpCounter + i)
    ensures forall i, j | 0 <= i < j < n :: IssueTmps(b, n).0[i] != IssueTmps(b, n).0[j]
    ensures forall i, k: nat | 0 <= i < n && k < b.tmpCounter :: IssueTmps(b, n).0[i] != TmpName(k)
    decreases n
  {
    if n > 0 {
      var f := NextTmp(b);
      IssuedTmpsFresh(f.b, n - 1);
      var names := IssueTmps(b, n).0;
      assert names == [f.name] + IssueTmps(f.b, n - 1).0;
      forall i | 0 <= i < n ensures names[i] == TmpName(b.tmpCounter + i) {
        if i > 0 {
          assert names[i] == IssueTmps(f.b, n - 1).0[i - 1];
        }
      }
      forall i, j | 0 <= i < j < n ensures names[i] != names[j] {
        NamesDistinct(b.tmpCounter + i, b.tmpCounter + j);
      }
      forall i, k: nat | 0 <= i < n && k < b.tmpCounter ensures names[i] != TmpName(k) {
        NamesDistinct(b.tmpCounter + i, k);
      }
    }
  }

  // ---------------------------------------------------------------------------
  // Loops
  // ---------------------------------------------------------------------------

  function EnterLoop(b: Builder, breakTarget: string, continueTarget: string): (r: Builder)
    ensures |r.loopStack| == |b.loopStack| + 1 && r.loopStack[..|b.loopStack|] == b.loopStack
  {
    b.(loopStack := b.loopStack + [LoopContext(breakTarget, continueTarget)])
  }

  /** `exit_loop`: pops the innermost loop; popping an empty stack does nothing. */
  function ExitLoop(b: Builder): (r: Builder)
    ensures |b.loopStack| > 0 ==> |r.loopStack| == |b.loopStack| - 1
    ensures |r.loopStack| <= |b.loopStack| && r.loopStack == b.loopStack[..|r.loopStack|]
  {
    if |b.loopStack| == 0 then b else b.(loopStack := b.loopStack[..|b.loopStack| - 1])
  }

  function CurrentLoop(b: Builder): (r: Option<LoopContext>)
    ensures r.Some? <==> |b.loopStack| > 0
  {
    if |b.loopStack| == 0 then None else Some(b.loopStack[|b.loopStack| - 1])
  }

  /** Entering then exiting a loop restores the state, and inside it the new loop is the innermost. */
  lemma LoopPushPop(b: Builder, breakTarget: string, continueTarget: string)
    ensures CurrentLoop(EnterLoop(b, breakTarget, continueTarget)) == Some(LoopContext(breakTarget, continueTarget))
    ensures ExitLoop(EnterLoop(b, breakTarget, continueTarget)) == b
  {
    assert (b.loopStack + [LoopContext(breakTarget, continueTarget)])[..|b.loopStack|] == b.loopStack;
  }

  // ---------------------------------------------------------------------------
  // Reference-counting scopes
  // ---------------------------------------------------------------------------

  function EnterScope(b: Builder): (r: Builder)
    ensures |r.rcTracked| == |b.rcTracked| + 1
  {
    b.(rcTracked := b.rcTracked + [[]])
  }

  /** One `DecRef` per variable, last tracked first. */
  function DecRefs(vars: seq<string>): (r: seq<Instr>)
    ensures |r| == |vars|
    ensures forall k | 0 <= k < |r| :: r[k] == DecRef(vars[|vars| - 1 - k])
    decreases |vars|
  {
    if |vars| == 0 then [] else [DecRef(vars[|vars| - 1])] + DecRefs(vars[..|vars| - 1])
  }

  /**
   * `exit_scope`: pops the innermost scope and appends the releases of its
   * variables to the block; with no scope left it does nothing.
   */
  function ExitScope(b: Builder, blk: Block): (r: (Builder, Block))
    ensures r.1.name == blk.name && r.1.terminator == blk.terminator
    ensures r.0 == b.(rcTracked := r.0.rcTracked)
    ensures |b.rcTracked| > 0 ==> r.0.rcTracked == b.rcTracked[..|b.rcTracked| - 1]
    ensures |b.rcTracked| > 0 ==> r.1.instrs == blk.instrs + DecRefs(b.rcTracked[|b.rcTracked| - 1])
    ensures |b.rcTracked| == 0 ==> r == (b, blk)
  {
    if |b.rcTracked| == 0 then (b, blk)
    else
      var vars := b.rcTracked[|b.rcTracked| - 1];
      (b.(rcTracked := b.rcTracked[..|b.rcTracked| - 1]), blk.(instrs := blk.instrs + DecRefs(vars)))
  }

  /** `track_rc_var`: the name joins the innermost scope; with no scope it is dropped. */
  function TrackRcVar(b: Builder, v: string): (r: Builder)
    ensures r == b.(rcTracked := r.rcTracked)
    ensures |r.rcTracked| == |b.rcTracked|
    ensures forall i | 0 <= i < |b.rcTracked| - 1 :: r.rcTracked[i] == b.rcTracked[i]
    ensures |b.rcTracked| > 0 ==> r.rcTracked[|b.rcTracked| - 1] == b.rcTracked[|b.rcTracked| - 1] + [v]
  {
    if |b.rcTracked| == 0 then b
    else
      var n := |b.rcTracked| - 1;
      b.(rcTracked := b.rcTracked[n := b.rcTracked[n] + [v]])
  }

  predicate IsRcTracked(b: Builder, v: string)
  {
    exists i | 0 <= i < |b.rcTracked| :: v in b.rcTracked[i]
  }

  /** After tracking `v`, a name is tracked iff it was before, or it is `v` and some scope is open. */
  lemma TrackedAfterTrack(b: Builder, v: string, w: string)
    ensures IsRcTracked(TrackRcVar(b, v), w) <==> IsRcTracked(b, w) || (w == v && |b.rcTracked| > 0)
  {
    var r := TrackRcVar(b, v);
    if |b.rcTracked| > 0 {
      var n := |b.rcTracked| - 1;
      if IsRcTracked(r, w) {
        var i :| 0 <= i < |r.rcTracked| && w in r.rcTracked[i];
        if i == n && w != v {
          assert w in b.rcTracked[n];
        }
      }
      if IsRcTracked(b, w) {
        var i :| 0 <= i < |b.rcTracked| && w in b.rcTracked[i];
        assert w in r.rcTracked[i];
      }
      if w == v {
        assert w in r.rcTracked[n];
      }
    }
  }

  /** Opening a scope and closing it straight away releases nothing and restores the scopes. */
  lemma EmptyScopeReleasesNothing(b: Builder, blk: Block)
    ensures ExitScope(EnterScope(b), blk) == (b, blk)
  {
    assert (b.rcTracked + [[]])[..|b.rcTracked|] == b.rcTracked;
    assert blk.instrs + [] == blk.instrs;
  }

  // ---------------------------------------------------------------------------
  // The function whose blocks are being built
  // ---------------------------------------------------------------------------

  function Last(fs: seq<Function>): Function
    requires |fs| > 0
  {
    fs[|fs| - 1]
  }

  /** `g` is `f` with possibly more blocks after the ones `f` has. */
  predicate Extends(f: Function, g: Function)
  {
    g == f.(blocks := g.blocks) && f.blocks <= g.blocks
  }

  /**
   * What lowering a statement leaves alone: the loop and scope stacks, the
   * globals, and the functions, except for blocks appended to the last
   * one; the counters only move forward.
   */
  predicate Keeps(b: Builder, b2: Builder)
  {
    var fs, fs2 := b.program.functions, b2.program.functions;
    b.tmpCounter <= b2.tmpCounter && b.blockCounter <= b2.blockCounter
    && b2.loopStack == b.loopStack && b2.rcTracked == b.rcTracked
    && b2.program.globals == b.program.globals
    && |fs2| == |fs|
    && (|fs| > 0 ==> fs2[..|fs| - 1] == fs[..|fs| - 1] && Extends(Last(fs), Last(fs2)))
  }

  lemma KeepsTransitive(a: Builder, b: Builder, c: Builder)
    requires Keeps(a, b) && Keeps(b, c)
    ensures Keeps(a, c)
  {
  }

  /** Whatever happens inside a loop that keeps the state, leaving the loop gets back to where it started. */
  lemma LoopBracket(b: Builder, breakTarget: string, continueTarget: string, after: Builder)
    requires Keeps(EnterLoop(b, breakTarget, continueTarget), after)
    ensures Keeps(b, ExitLoop(after))
  {
    assert (b.loopStack + [LoopContext(breakTarget, continueTarget)])[..|b.loopStack|] == b.loopStack;
  }

  /** Appends blocks to the last function of the program; with no function they are dropped. */
  function PushBlocks(b: Builder, bs: seq<Block>): (r: Builder)
    ensures Keeps(b, r) && r.tmpCounter == b.tmpCounter && r.blockCounter == b.blockCounter
    ensures |b.program.functions| > 0 ==> Last(r.program.functions).blocks == Last(b.program.functions).blocks + bs
    ensures |b.program.functions| == 0 ==> r == b
  {
    var fs := b.program.functions;
    if |fs| == 0 then b
    else
      var last := fs[|fs| - 1];
      b.(program := b.program.(functions := fs[|fs| - 1 := last.(blocks := last.blocks + bs)]))
  }

  // ---------------------------------------------------------------------------
  // finalize
  // ---------------------------------------------------------------------------

  /** A block worth keeping: it has an instruction or a terminator. */
  predicate Live(blk: Block)
  {
    |blk.instrs| > 0 || blk.terminator.Some?
  }

  function LiveBlocks(bs: seq<Block>): (r: seq<Block>)
    ensures forall blk :: blk in r <==> blk in bs && Live(blk)
    decreases |bs|
  {
    if |bs| == 0 then []
    else if Live(bs[0]) then [bs[0]] + LiveBlocks(bs[1..])
    else LiveBlocks(bs[1..])
  }

  function DropEmptyBlocks(fs: seq<Function>): (r: seq<Function>)
    ensures |r| == |fs|
    ensures forall i | 0 <= i < |fs| :: r[i] == fs[i].(blocks := LiveBlocks(fs[i].blocks))
    decreases |fs|
  {
    if |fs| == 0 then [] else [fs[0].(blocks := LiveBlocks(fs[0].blocks))] + DropEmptyBlocks(fs[1..])
  }

  /** The globals that define a name `finalize` deduplicates. */
  predicate Named(i: Instr)
  {
    i.Assign? || i.ConstString? || i.StructInit? || i.EnumInit?
  }

  /**
   * The first retain pass of `finalize`: a named global is kept only when
   * no earlier kept one (nor a name in `seen`) has its name.
   */
  function Dedupe(gs: seq<Instr>, seen: set<string>): (r: seq<Instr>)
    ensures forall i | 0 <= i < |r| :: r[i] in gs
    ensures forall i | 0 <= i < |r| && Named(r[i]) :: r[i].name !in seen
    decreases |gs|
  {
    if |gs| == 0 then []
    else if Named(gs[0]) then
      if gs[0].name in seen then Dedupe(gs[1..], seen)
      else [gs[0]] + Dedupe(gs[1..], seen + {gs[0].name})
    else [gs[0]] + Dedupe(gs[1..], seen)
  }

  /** The second retain pass: the same, restricted to `Assign`. */
  function DedupeAssigns(gs: seq<Instr>, seen: set<string>): (r: seq<Instr>)
    decreases |gs|
  {
    if |gs| == 0 then []
    else if gs[0].Assign? then
      if gs[0].name in seen then DedupeAssigns(gs[1..], seen)
      else [gs[0]] + DedupeAssigns(gs[1..], seen + {gs[0].name})
    else [gs[0]] + DedupeAssigns(gs[1..], seen)
  }

  /** `finalize`: drop empty blocks, then deduplicate the named globals twice. */
  function Finalize(p: Program): (r: Program)
    ensures |r.functions| == |p.functions|
  {
    Program(DropEmptyBlocks(p.functions), DedupeAssigns(Dedupe(p.globals, {}), {}))
  }
}
