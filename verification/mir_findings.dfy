/**
 * Two places where lowering to MIR as written loses code: the statements
 * of an `else { ... }` block, and the blocks of a top-level loop or `if`,
 * each next to what the corrected lowering does with the same input.
 */
module MirFindings {
  import opened Wrappers
  import opened Text
  import opened Ast
  import opened Revisions
  import opened Mir
  import opened MirBuilder
  import opened MirLower
  import opened MirLowerProps
  import opened MirDecls

  // ---------------------------------------------------------------------------
  // The statements of an `else` block
  // ---------------------------------------------------------------------------

  /** The `else` branch of `if c { ts } else { print() }`. */
  function PrintElse(): AstNode
  {
    AstNode.Block([AstNode.Print([])])
  }

  /** The else-block of a lowered conditional: second of the three blocks it adds. */
  function ElseBlock(b: Builder): (r: Option<Block>)
    ensures r.Some? ==> |b.program.functions| > 0
  {
    if |b.program.functions| == 0 then None
    else
      var bs := Last(b.program.functions).blocks;
      if |bs| < 2 then None else Some(bs[|bs| - 2])
  }

  /** The then-branch of a conditional, lowered as `Conditional` does before it turns to the else-branch. */
  function ThenDone(rev: Revision, b: Builder, blk: Block, s: AstNode): Result<Step, string>
    requires s.ConditionalStmt?
  {
    var c := Expr(b, blk.instrs, s.condition);
    var thenL := NextBlock(c.b);
    var endL := NextBlock(NextBlock(thenL.b).b);
    Stmts(rev, endL.b, Ended(thenL.name, Jump(endL.name)), s.thenBlock, false)
  }

  /** The else-block of a lowered conditional is its else-branch lowered into a block that jumps to the end block. */
  lemma {:induction false} ConditionalElse(rev: Revision, b: Builder, blk: Block, s: AstNode)
    requires s.ConditionalStmt? && s.elseBranch.Some? && |b.program.functions| > 0
    ensures var r := Conditional(rev, b, blk, s);
            var n := b.blockCounter;
            r.Ok? ==>
              && ThenDone(rev, b, blk, s).Ok?
              && var e := Stmt(rev, ThenDone(rev, b, blk, s).value.b, Ended(BlockName(n + 1), Jump(BlockName(n + 2))), s.elseBranch.value);
              && e.Ok?
              && ElseBlock(r.value.b) == Some(e.value.blk)
  {
    var r := Conditional(rev, b, blk, s);
    if r.Ok? {
      var c := Expr(b, blk.instrs, s.condition);
      var thenL := NextBlock(c.b);
      var elseL := NextBlock(thenL.b);
      var endL := NextBlock(elseL.b);
      var t := Stmts(rev, endL.b, Ended(thenL.name, Jump(endL.name)), s.thenBlock, false);
      assert t == ThenDone(rev, b, blk, s);
      assert t.Ok?;
      var e := Stmt(rev, t.value.b, Ended(elseL.name, Jump(endL.name)), s.elseBranch.value);
      assert e.Ok?;
      assert r.value.b == PushBlocks(e.value.b, [t.value.blk, e.value.blk, EmptyBlock(endL.name)]);
    }
  }

  /** How each revision lowers the `else { print() }` branch into a block `start`. */
  lemma PrintElseLowering(rev: Revision, b: Builder, start: Block)
    ensures Stmt(rev, b, start, PrintElse())
            == if rev == Fixed then Ok(Step(b, start.(instrs := start.instrs + [Instr.Print([])]))) else Ok(Step(b, start))
  {
    if rev == Fixed {
      var inner := Stmts(Fixed, b, start, [AstNode.Print([])], false);
      assert Stmt(Fixed, b, start, AstNode.Print([])) == Ok(Step(b, start.(instrs := start.instrs + [Instr.Print([])])));
      assert [AstNode.Print([])][1..] == [];
      assert inner == Ok(Step(b, start.(instrs := start.instrs + [Instr.Print([])])));
    }
  }

  /**
   * As written, a block statement lowers to nothing, so the `print` of
   * an `else { print() }` branch is lost: the else-block only jumps to
   * the end block.
   */
  lemma ElseBlockDroppedAsWritten(b: Builder, blk: Block, c: AstNode, ts: seq<AstNode>)
    requires |b.program.functions| > 0
    ensures var s := ConditionalStmt(c, ts, Some(PrintElse()));
            var r := Conditional(AsWritten, b, blk, s);
            var n := b.blockCounter;
            r.Ok? ==> ElseBlock(r.value.b) == Some(Ended(BlockName(n + 1), Jump(BlockName(n + 2))))
  {
    var s := ConditionalStmt(c, ts, Some(PrintElse()));
    ConditionalElse(AsWritten, b, blk, s);
    if ThenDone(AsWritten, b, blk, s).Ok? {
      PrintElseLowering(AsWritten, ThenDone(AsWritten, b, blk, s).value.b, Ended(BlockName(b.blockCounter + 1), Jump(BlockName(b.blockCounter + 2))));
    }
  }

  /** Corrected, the block's statements are lowered into the else-block, before its jump to the end block. */
  lemma ElseBlockLoweredFixed(b: Builder, blk: Block, c: AstNode, ts: seq<AstNode>)
    requires |b.program.functions| > 0
    ensures var s := ConditionalStmt(c, ts, Some(PrintElse()));
            var r := Conditional(Fixed, b, blk, s);
            var n := b.blockCounter;
            r.Ok? ==> ElseBlock(r.value.b) == Some(Mir.Block(BlockName(n + 1), [Instr.Print([])], Some(Jump(BlockName(n + 2)))))
  {
    var s := ConditionalStmt(c, ts, Some(PrintElse()));
    ConditionalElse(Fixed, b, blk, s);
    if ThenDone(Fixed, b, blk, s).Ok? {
      var start := Ended(BlockName(b.blockCounter + 1), Jump(BlockName(b.blockCounter + 2)));
      PrintElseLowering(Fixed, ThenDone(Fixed, b, blk, s).value.b, start);
      assert start.instrs + [Instr.Print([])] == [Instr.Print([])];
    }
  }

  // ---------------------------------------------------------------------------
  // Top-level loops and conditionals
  // ---------------------------------------------------------------------------

  /** The labels of a function's blocks. */
  function LabelsOf(bs: seq<Block>): (r: set<string>)
    ensures forall i | 0 <= i < |bs| :: bs[i].name in r
    ensures forall l | l in r :: exists i | 0 <= i < |bs| :: bs[i].name == l
  {
    set i | 0 <= i < |bs| :: bs[i].name
  }

  /** The block a conditional starts in keeps its label and ends in a conditional jump to the then-block and the else- or end block. */
  lemma {:induction false} ConditionalHead(rev: Revision, b: Builder, blk: Block, s: AstNode)
    requires s.ConditionalStmt?
    ensures var r := Conditional(rev, b, blk, s);
            var n := b.blockCounter;
            r.Ok? ==>
              && r.value.blk.name == blk.name
              && r.value.blk.terminator.Some? && r.value.blk.terminator.value.CondJump?
              && r.value.blk.terminator.value.thenBlock == BlockName(n)
              && r.value.blk.terminator.value.elseBlock == (if s.elseBranch.Some? then BlockName(n + 1) else BlockName(n + 2))
  {
    var r := Conditional(rev, b, blk, s);
    if r.Ok? {
      var c := Expr(b, blk.instrs, s.condition);
      var thenL := NextBlock(c.b);
      var elseL := NextBlock(thenL.b);
      var endL := NextBlock(elseL.b);
      var t := Stmts(rev, endL.b, Ended(thenL.name, Jump(endL.name)), s.thenBlock, false);
      assert t.Ok?;
      if s.elseBranch.Some? {
        var e := Stmt(rev, t.value.b, Ended(elseL.name, Jump(endL.name)), s.elseBranch.value);
        assert e.Ok?;
      }
    }
  }

  /** As written, the wrapper holds exactly the block the statement was lowered into. */
  lemma WrappedAsWrittenBlocks(b: Builder, n: AstNode)
    requires n.ConditionalStmt?
    ensures var r := Wrapped(AsWritten, b, n, "if");
            var done := Stmt(AsWritten, NextBlock(b).b, EmptyBlock(NextBlock(b).name), n);
            r.Ok? ==> done.Ok? && Last(r.value.program.functions).blocks == [done.value.blk]
  {
  }

  /** Fixed, the wrapper holds the statement's block followed by the blocks lowering added to it. */
  lemma WrappedFixedBlocks(b: Builder, n: AstNode)
    requires n.ConditionalStmt?
    ensures var r := Wrapped(Fixed, b, n, "if");
            var started := b.(program := b.program.(functions := b.program.functions + [Function(WrapperName(b, "if"), [], [], None, [])]));
            var done := Stmt(Fixed, NextBlock(started).b, EmptyBlock(NextBlock(started).name), n);
            r.Ok? ==> done.Ok? && |done.value.b.program.functions| > 0
                      && Last(r.value.program.functions).blocks == [done.value.blk] + Last(done.value.b.program.functions).blocks
  {
  }

  /**
   * As written, the wrapper of a top-level `if` receives only the block
   * the statement started in, and it branches to a then-block that is
   * not among the wrapper's blocks: the branch blocks went to the
   * function declared before it, or nowhere.
   */
  lemma {:induction false} WrappedIfAsWritten(b: Builder, n: AstNode)
    requires n.ConditionalStmt?
    ensures var r := Wrapped(AsWritten, b, n, "if");
            r.Ok? ==>
              var bs := Last(r.value.program.functions).blocks;
              && |bs| == 1
              && bs[0].terminator.Some? && bs[0].terminator.value.CondJump?
              && bs[0].terminator.value.thenBlock !in LabelsOf(bs)
  {
    var r := Wrapped(AsWritten, b, n, "if");
    WrappedAsWrittenBlocks(b, n);
    if r.Ok? {
      var entry := NextBlock(b);
      ConditionalHead(AsWritten, entry.b, EmptyBlock(entry.name), n);
      assert Stmt(AsWritten, entry.b, EmptyBlock(entry.name), n) == Conditional(AsWritten, entry.b, EmptyBlock(entry.name), n);
      NamesDistinct(b.blockCounter, b.blockCounter + 1);
    }
  }

  /**
   * Corrected, the wrapper function is added before the statement is
   * lowered: its first block is the one the statement started in, and
   * both targets of its conditional jump are blocks of the wrapper.
   */
  lemma {:induction false} WrappedIfFixed(b: Builder, n: AstNode)
    requires n.ConditionalStmt?
    ensures var r := Wrapped(Fixed, b, n, "if");
            r.Ok? ==>
              var bs := Last(r.value.program.functions).blocks;
              && |bs| > 0
              && bs[0].terminator.Some? && bs[0].terminator.value.CondJump?
              && bs[0].terminator.value.thenBlock in LabelsOf(bs)
              && bs[0].terminator.value.elseBlock in LabelsOf(bs)
  {
    var r := Wrapped(Fixed, b, n, "if");
    WrappedFixedBlocks(b, n);
    if r.Ok? {
      var started := b.(program := b.program.(functions := b.program.functions + [Function(WrapperName(b, "if"), [], [], None, [])]));
      var entry := NextBlock(started);
      ConditionalLabels(Fixed, entry.b, EmptyBlock(entry.name), n);
      assert Stmt(Fixed, entry.b, EmptyBlock(entry.name), n) == Conditional(Fixed, entry.b, EmptyBlock(entry.name), n);
      var done := Stmt(Fixed, entry.b, EmptyBlock(entry.name), n).value;
      var f := Last(done.b.program.functions);
      var bs := [done.blk] + f.blocks;
      var k := |f.blocks|;
      assert bs[k - (if n.elseBranch.Some? then 3 else 2) + 1] == f.blocks[k - (if n.elseBranch.Some? then 3 else 2)];
      assert bs[k - 1 + 1] == f.blocks[k - 1];
      if n.elseBranch.Some? {
        assert bs[k - 2 + 1] == f.blocks[k - 2];
      }
    }
  }
}
