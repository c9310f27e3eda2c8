/**
 * Properties of expression and statement lowering: every temporary an
 * expression defines is freshly issued and defined once, literals and
 * operators lower as promised, and `break`/`continue` and `if` produce the
 * jumps they should.
 */
module MirLowerProps {
  import opened Wrappers
  import opened Text
  import Tokens
  import opened Ast
  import opened Revisions
  import opened Mir
  import opened MirBuilder
  import opened MirLower

  // ---------------------------------------------------------------------------
  // Single assignment of temporaries
  // ---------------------------------------------------------------------------

  /** The instructions expression lowering appends: each computes one value into one name. */
  predicate Computes(i: Instr)
  {
    i.ConstInt? || i.ConstBool? || i.ConstString? || i.Array? || i.Map? || i.RangeCreate?
    || i.BinaryOp? || (i.Call? && |i.dests| == 1)
  }

  /** The name a computing instruction defines. */
  function Def(i: Instr): string
    requires Computes(i)
  {
    if i.Call? then i.dests[0] else if i.BinaryOp? then i.dest else i.name
  }

  /** `s` is one of the temporaries numbered from `lo` up to, not including, `hi`. */
  predicate Issued(s: string, lo: nat, hi: nat)
  {
    exists k: nat | lo <= k < hi :: s == TmpName(k)
  }

  /**
   * `code` only computes values, each into a temporary issued in
   * `[lo, hi)`, and no temporary is defined twice.
   */
  predicate Ssa(code: seq<Instr>, lo: nat, hi: nat)
  {
    (forall j | 0 <= j < |code| :: Computes(code[j]) && Issued(Def(code[j]), lo, hi))
    && (forall j1, j2 | 0 <= j1 < j2 < |code| :: Def(code[j1]) != Def(code[j2]))
  }

  lemma SsaSingle(i: Instr, k: nat)
    requires Computes(i) && Def(i) == TmpName(k)
    ensures Ssa([i], k, k + 1)
  {
  }

  lemma {:induction false} SsaJoin(c1: seq<Instr>, c2: seq<Instr>, lo: nat, mid: nat, hi: nat)
    requires lo <= mid <= hi && Ssa(c1, lo, mid) && Ssa(c2, mid, hi)
    ensures Ssa(c1 + c2, lo, hi)
  {
    var c := c1 + c2;
    forall j | 0 <= j < |c|
      ensures Computes(c[j]) && Issued(Def(c[j]), lo, hi)
    {
      if j < |c1| {
        assert c[j] == c1[j];
        var k: nat :| lo <= k < mid && Def(c1[j]) == TmpName(k);
        assert lo <= k < hi && Def(c[j]) == TmpName(k);
      } else {
        assert c[j] == c2[j - |c1|];
        var k: nat :| mid <= k < hi && Def(c2[j - |c1|]) == TmpName(k);
        assert lo <= k < hi && Def(c[j]) == TmpName(k);
      }
    }
    forall j1, j2 | 0 <= j1 < j2 < |c|
      ensures Def(c[j1]) != Def(c[j2])
    {
      if j2 < |c1| {
        assert c[j1] == c1[j1] && c[j2] == c1[j2];
      } else if j1 >= |c1| {
        assert c[j1] == c2[j1 - |c1|] && c[j2] == c2[j2 - |c1|];
      } else {
        assert c[j1] == c1[j1] && c[j2] == c2[j2 - |c1|];
        var k1: nat :| lo <= k1 < mid && Def(c1[j1]) == TmpName(k1);
        var k2: nat :| mid <= k2 < hi && Def(c2[j2 - |c1|]) == TmpName(k2);
        NamesDistinct(k1, k2);
      }
    }
  }

  /** The same, with the second part numbered before the first. */
  lemma {:induction false} SsaJoinBack(c1: seq<Instr>, c2: seq<Instr>, lo: nat, mid: nat, hi: nat)
    requires lo <= mid <= hi && Ssa(c1, mid, hi) && Ssa(c2, lo, mid)
    ensures Ssa(c1 + c2, lo, hi)
  {
    var c := c1 + c2;
    forall j | 0 <= j < |c|
      ensures Computes(c[j]) && Issued(Def(c[j]), lo, hi)
    {
      if j < |c1| {
        assert c[j] == c1[j];
        var k: nat :| mid <= k < hi && Def(c1[j]) == TmpName(k);
        assert lo <= k < hi && Def(c[j]) == TmpName(k);
      } else {
        assert c[j] == c2[j - |c1|];
        var k: nat :| lo <= k < mid && Def(c2[j - |c1|]) == TmpName(k);
        assert lo <= k < hi && Def(c[j]) == TmpName(k);
      }
    }
    forall j1, j2 | 0 <= j1 < j2 < |c|
      ensures Def(c[j1]) != Def(c[j2])
    {
      if j2 < |c1| {
        assert c[j1] == c1[j1] && c[j2] == c1[j2];
      } else if j1 >= |c1| {
        assert c[j1] == c2[j1 - |c1|] && c[j2] == c2[j2 - |c1|];
      } else {
        assert c[j1] == c1[j1] && c[j2] == c2[j2 - |c1|];
        var k1: nat :| mid <= k1 < hi && Def(c1[j1]) == TmpName(k1);
        var k2: nat :| lo <= k2 < mid && Def(c2[j2 - |c1|]) == TmpName(k2);
        NamesDistinct(k1, k2);
      }
    }
  }

  lemma SliceSplit(a: seq<Instr>, b: seq<Instr>, c: seq<Instr>)
    requires a <= b <= c
    ensures c[|a|..] == b[|a|..] + c[|b|..]
  {
  }

  /** Two successive stretches of appended code, numbered one after the other. */
  lemma SsaChain(code: seq<Instr>, c1: seq<Instr>, c2: seq<Instr>, lo: nat, mid: nat, hi: nat)
    requires code <= c1 <= c2 && lo <= mid <= hi
    requires Ssa(c1[|code|..], lo, mid) && Ssa(c2[|c1|..], mid, hi)
    ensures Ssa(c2[|code|..], lo, hi)
  {
    SliceSplit(code, c1, c2);
    SsaJoin(c1[|code|..], c2[|c1|..], lo, mid, hi);
  }

  /** Appended code followed by one instruction into the next temporary. */
  lemma SsaThen(code: seq<Instr>, c: seq<Instr>, x: Instr, lo: nat, k: nat)
    requires code <= c && lo <= k
    requires Ssa(c[|code|..], lo, k) && Computes(x) && Def(x) == TmpName(k)
    ensures Ssa((c + [x])[|code|..], lo, k + 1)
  {
    SsaSingle(x, k);
    SsaJoin(c[|code|..], [x], lo, k, k + 1);
    assert (c + [x])[|code|..] == c[|code|..] + [x];
  }

  /** The expressions lowering handles; anything else yields an undefined temporary. */
  predicate Handled(e: AstNode)
  {
    e.NumberLiteral? || e.BoolLiteral? || e.StringLiteral? || e.BinaryExpr? || e.FunctionCall?
    || e.ArrayLiteral? || e.MapLiteral?
  }

  /** What `ExprSsa` states about one lowering. */
  predicate FreshDefs(b: Builder, code: seq<Instr>, e: AstNode)
  {
    var r := Expr(b, code, e);
    Ssa(r.code[|code|..], b.tmpCounter, r.b.tmpCounter)
    && (Handled(e) ==> |r.code| > |code| && Computes(r.code[|r.code| - 1]) && Def(r.code[|r.code| - 1]) == r.name)
  }

  /**
   * The instructions lowering an expression appends compute values into
   * temporaries issued during that lowering, each defined exactly once;
   * the value of a handled expression is the one its last instruction
   * defines.
   */
  lemma {:induction false} ExprSsa(b: Builder, code: seq<Instr>, e: AstNode)
    ensures Ssa(Expr(b, code, e).code[|code|..], b.tmpCounter, Expr(b, code, e).b.tmpCounter)
    ensures Handled(e) ==> |Expr(b, code, e).code| > |code|
                           && Computes(Expr(b, code, e).code[|Expr(b, code, e).code| - 1])
                           && Def(Expr(b, code, e).code[|Expr(b, code, e).code| - 1]) == Expr(b, code, e).name
    decreases Size(e), 1
  {
    var r := Expr(b, code, e);
    if e.NumberLiteral? || e.BoolLiteral? || e.StringLiteral? {
      SsaSingle(r.code[|code|], b.tmpCounter);
      assert r.code[|code|..] == [r.code[|code|]];
    } else if e.BinaryExpr? {
      BinarySsa(b, code, e);
    } else if e.FunctionCall? {
      CallSsa(b, code, e);
    } else if e.ArrayLiteral? || e.MapLiteral? {
      CollectionSsa(b, code, e);
    } else {
      assert r.code[|code|..] == [];
    }
  }

  /** A binary expression: both operands, then one instruction into the next temporary. */
  lemma BinaryShape(b: Builder, code: seq<Instr>, e: AstNode)
    requires e.BinaryExpr?
    ensures var l := Expr(b, code, e.left);
            var rt := Expr(l.b, l.code, e.right);
            var r := Expr(b, code, e);
            |r.code| == |rt.code| + 1 && r.code[..|rt.code|] == rt.code
            && Computes(r.code[|rt.code|]) && Def(r.code[|rt.code|]) == r.name
            && r.name == TmpName(rt.b.tmpCounter) && r.b.tmpCounter == rt.b.tmpCounter + 1
  {
  }

  lemma {:induction false} BinarySsa(b: Builder, code: seq<Instr>, e: AstNode)
    requires e.BinaryExpr?
    ensures FreshDefs(b, code, e)
    decreases Size(e), 0
  {
    var r := Expr(b, code, e);
    var l := Expr(b, code, e.left);
    var rt := Expr(l.b, l.code, e.right);
    BinaryShape(b, code, e);
    ExprSsa(b, code, e.left);
    ExprSsa(l.b, l.code, e.right);
    SsaChain(code, l.code, rt.code, b.tmpCounter, l.b.tmpCounter, rt.b.tmpCounter);
    var x := r.code[|rt.code|];
    assert r.code == rt.code + [x];
    SsaThen(code, rt.code, x, b.tmpCounter, rt.b.tmpCounter);
  }

  lemma {:induction false} CallSsa(b: Builder, code: seq<Instr>, e: AstNode)
    requires e.FunctionCall?
    ensures FreshDefs(b, code, e)
    decreases Size(e), 0
  {
    var r := Expr(b, code, e);
    var a := Exprs(b, code, e.args);
    ExprsSsa(b, code, e.args);
    var d := NextTmp(a.b);
    var f := Callee(b, code, e);
    if e.func.Identifier? {
      assert f.code[|a.code|..] == [];
    } else {
      ExprSsa(d.b, a.code, e.func);
    }
    CallParts(b, code, e);
    var x := r.code[|r.code| - 1];
    SsaSingle(x, a.b.tmpCounter);
    SsaJoinBack(f.code[|a.code|..], [x], a.b.tmpCounter, d.b.tmpCounter, f.b.tmpCounter);
    SsaJoin(a.code[|code|..], f.code[|a.code|..] + [x], b.tmpCounter, a.b.tmpCounter, f.b.tmpCounter);
    JoinTail(code, a.code, f.code, x);
  }

  /** The callee of a lowered call: its name, or its expression lowered after the arguments. */
  function Callee(b: Builder, code: seq<Instr>, e: AstNode): Value
    requires e.FunctionCall?
  {
    var a := Exprs(b, code, e.args);
    var d := NextTmp(a.b);
    if e.func.Identifier? then Value(e.func.name, d.b, a.code) else Expr(d.b, a.code, e.func)
  }

  /** A lowered call is the callee's code and then the call, which defines the call's temporary. */
  lemma CallParts(b: Builder, code: seq<Instr>, e: AstNode)
    requires e.FunctionCall?
    ensures var r := Expr(b, code, e);
            var f := Callee(b, code, e);
            && |r.code| > 0 && r.code == f.code + [r.code[|r.code| - 1]]
            && r.b.tmpCounter == f.b.tmpCounter
            && Computes(r.code[|r.code| - 1]) && Def(r.code[|r.code| - 1]) == r.name
  {
  }

  lemma JoinTail(code: seq<Instr>, a: seq<Instr>, f: seq<Instr>, x: Instr)
    requires code <= a <= f
    ensures (f + [x])[|code|..] == a[|code|..] + (f[|a|..] + [x])
  {
    SliceSplit(code, a, f);
  }

  lemma {:induction false} CollectionSsa(b: Builder, code: seq<Instr>, e: AstNode)
    requires e.ArrayLiteral? || e.MapLiteral?
    ensures FreshDefs(b, code, e)
    decreases Size(e), 0
  {
    var r := Expr(b, code, e);
    var x := r.code[|r.code| - 1];
    var before := if e.ArrayLiteral? then Exprs(b, code, e.elements).code else Entries(b, code, e, 0).code;
    var at := if e.ArrayLiteral? then Exprs(b, code, e.elements).b.tmpCounter else Entries(b, code, e, 0).b.tmpCounter;
    if e.ArrayLiteral? {
      ExprsSsa(b, code, e.elements);
    } else {
      EntriesSsa(b, code, e, 0);
    }
    assert r.code == before + [x];
    SsaSingle(x, at);
    SsaJoin(before[|code|..], [x], b.tmpCounter, at, r.b.tmpCounter);
    assert r.code[|code|..] == before[|code|..] + [x];
  }

  lemma {:induction false} ExprsSsa(b: Builder, code: seq<Instr>, es: seq<AstNode>)
    ensures Ssa(Exprs(b, code, es).code[|code|..], b.tmpCounter, Exprs(b, code, es).b.tmpCounter)
    decreases SizeList(es), 2
  {
    if |es| == 0 {
      assert Exprs(b, code, es).code[|code|..] == [];
    } else {
      var first := Expr(b, code, es[0]);
      var rest := Exprs(first.b, first.code, es[1..]);
      ExprSsa(b, code, es[0]);
      ExprsSsa(first.b, first.code, es[1..]);
      SliceSplit(code, first.code, rest.code);
      SsaJoin(first.code[|code|..], rest.code[|first.code|..], b.tmpCounter, first.b.tmpCounter, rest.b.tmpCounter);
    }
  }

  lemma {:induction false} EntriesSsa(b: Builder, code: seq<Instr>, n: AstNode, i: nat)
    requires n.MapLiteral?
    ensures Ssa(Entries(b, code, n, i).code[|code|..], b.tmpCounter, Entries(b, code, n, i).b.tmpCounter)
    decreases SizeEntries(n, i), 2
  {
    if i >= |n.entries| {
      assert Entries(b, code, n, i).code[|code|..] == [];
    } else {
      assert n.entries[i] in n.entries;
      var k := Expr(b, code, n.entries[i].key);
      var v := Expr(k.b, k.code, n.entries[i].value);
      var rest := Entries(v.b, v.code, n, i + 1);
      ExprSsa(b, code, n.entries[i].key);
      ExprSsa(k.b, k.code, n.entries[i].value);
      EntriesSsa(v.b, v.code, n, i + 1);
      SliceSplit(code, k.code, v.code);
      SliceSplit(code, v.code, rest.code);
      SsaJoin(k.code[|code|..], v.code[|k.code|..], b.tmpCounter, k.b.tmpCounter, v.b.tmpCounter);
      SsaJoin(v.code[|code|..], rest.code[|v.code|..], b.tmpCounter, v.b.tmpCounter, rest.b.tmpCounter);
    }
  }

  // ---------------------------------------------------------------------------
  // Expressions, case by case
  // ---------------------------------------------------------------------------

  /**
   * A number, boolean or string literal appends exactly one constant of its
   * value into a temporary no earlier call issued, and yields it.
   */
  lemma LiteralLowering(b: Builder, code: seq<Instr>, e: AstNode)
    requires e.NumberLiteral? || e.BoolLiteral? || e.StringLiteral?
    ensures var r := Expr(b, code, e);
            && r.name == TmpName(b.tmpCounter) && r.b.tmpCounter == b.tmpCounter + 1
            && r.code == code + [if e.NumberLiteral? then ConstInt(r.name, e.n)
                                 else if e.BoolLiteral? then ConstBool(r.name, e.b)
                                 else ConstString(r.name, e.s)]
            && forall k: nat | k < b.tmpCounter :: r.name != TmpName(k)
  {
    forall k: nat | k < b.tmpCounter
      ensures TmpName(b.tmpCounter) != TmpName(k)
    {
      NamesDistinct(b.tmpCounter, k);
    }
  }

  /** An expression lowering has no case for yields a fresh temporary and appends nothing. */
  lemma UnhandledLowering(b: Builder, code: seq<Instr>, e: AstNode)
    requires !Handled(e) && !e.Identifier?
    ensures Expr(b, code, e) == Value(TmpName(b.tmpCounter), b.(tmpCounter := b.tmpCounter + 1), code)
  {
  }

  /**
   * A binary expression lowers its left operand, then its right, then
   * computes into the next temporary: a range (inclusive exactly for `..=`)
   * or the operator's MIR name.
   */
  lemma BinaryLowering(b: Builder, code: seq<Instr>, e: AstNode)
    requires e.BinaryExpr?
    ensures var l := Expr(b, code, e.left);
            var rt := Expr(l.b, l.code, e.right);
            var r := Expr(b, code, e);
            && r.name == TmpName(rt.b.tmpCounter) && r.b.tmpCounter == rt.b.tmpCounter + 1
            && r.code == rt.code + [if IsRange(e.op) then RangeCreate(r.name, l.name, rt.name, e.op == Tokens.RangeInc)
                                    else BinaryOp(OpName(e.op), r.name, l.name, rt.name)]
  {
  }

  /** Each of the eleven operators has its own MIR name, and every other token maps to `unknown`. */
  lemma OpNamesDistinct(op1: Tokens.TokenType, op2: Tokens.TokenType)
    ensures OpName(op1) == "unknown" <==> op1 !in {Tokens.Plus, Tokens.Minus, Tokens.Star, Tokens.Slash, Tokens.Gt,
                                                  Tokens.Lt, Tokens.GtEq, Tokens.LtEq, Tokens.EqEq, Tokens.NotEq,
                                                  Tokens.Percent}
    ensures OpName(op1) == OpName(op2) && OpName(op1) != "unknown" ==> op1 == op2
  {
  }

  // ---------------------------------------------------------------------------
  // Statements
  // ---------------------------------------------------------------------------

  /**
   * `break` and `continue` end the block with a jump to the innermost
   * loop's exit or continue label and change nothing else; outside a loop
   * they fail with their messages.
   */
  lemma LoopExits(rev: Revision, b: Builder, blk: Block, s: AstNode)
    requires s.Break? || s.Continue?
    ensures Stmt(rev, b, blk, s).Err? <==> b.loopStack == []
    ensures b.loopStack == [] ==> Stmt(rev, b, blk, s).error == (if s.Break? then BreakOutside else ContinueOutside)
    ensures b.loopStack != [] ==>
      var ctx := b.loopStack[|b.loopStack| - 1];
      Stmt(rev, b, blk, s).value
        == Step(b, blk.(terminator := Some(Jump(if s.Break? then ctx.breakTarget else ctx.continueTarget))))
  {
  }

  /**
   * `if` allocates three labels in order (then, else, end); the block ends
   * in a conditional jump to the then-label and, on false, to the
   * else-label when there is an `else` and to the end label otherwise.
   * The blocks added last are the then-block, the else-block if any, and
   * an empty end block.
   */
  lemma {:induction false} ConditionalLabels(rev: Revision, b: Builder, blk: Block, s: AstNode)
    requires s.ConditionalStmt? && |b.program.functions| > 0
    ensures var r := Conditional(rev, b, blk, s);
            var n := b.blockCounter;
            r.Ok? ==>
              && r.value.blk.terminator.Some? && r.value.blk.terminator.value.CondJump?
              && r.value.blk.terminator.value.thenBlock == BlockName(n)
              && r.value.blk.terminator.value.elseBlock == (if s.elseBranch.Some? then BlockName(n + 1) else BlockName(n + 2))
              && var bs := Last(r.value.b.program.functions).blocks;
              var added := if s.elseBranch.Some? then 3 else 2;
              && |bs| >= added
              && bs[|bs| - added].name == BlockName(n)
              && (s.elseBranch.Some? ==> bs[|bs| - 2].name == BlockName(n + 1))
              && bs[|bs| - 1] == EmptyBlock(BlockName(n + 2))
  {
    var r := Conditional(rev, b, blk, s);
    if r.Ok? {
      var c := Expr(b, blk.instrs, s.condition);
      var thenL := NextBlock(c.b);
      var elseL := NextBlock(thenL.b);
      var endL := NextBlock(elseL.b);
      var t := Stmts(rev, endL.b, Ended(thenL.name, Jump(endL.name)), s.thenBlock, false);
      assert t.Ok?;
      if s.elseBranch.Some? {
        var e := Stmt(rev, t.value.b, Ended(elseL.name, Jump(endL.name)), s.elseBranch.value);
        assert e.Ok?;
      }
    }
  }

  /**
   * A range loop: the variable is assigned the start before the loop, the
   * header compares it with the end by `le` when the range is inclusive
   * and `lt` otherwise and branches to the body or the end, the
   * increment block adds one to the variable and jumps back to the
   * header, and the end block is empty.
   */
  lemma RangeLoopShape(rev: Revision, b: Builder, blk: Block, s: AstNode, counter: string, labels: Labels)
    requires s.ForLoopStmt? && s.iterable.Some? && s.iterable.value.BinaryExpr?
    ensures var r := RangeLoop(rev, b, blk, s, counter, labels);
            var start := Expr(b, blk.instrs, s.iterable.value.left);
            r.Ok? ==>
              var out := r.value;
              && |out.blocks| == 4
              && Assign(counter, start.name, true) in out.blk.instrs
              && out.blk.terminator == Some(Jump(labels.header))
              && var h := out.blocks[0];
              && h.name == labels.header && |h.instrs| == 1 && h.instrs[0].BinaryOp?
              && h.instrs[0].op == (if s.iterable.value.op == Tokens.RangeInc then "le" else "lt")
              && h.instrs[0].lhs == counter
              && h.terminator == Some(CondJump(h.instrs[0].dest, labels.body, labels.end))
              && out.blocks[1].name == labels.body && out.blocks[1].terminator.Some?
              && var st := out.blocks[2];
              && st.name == labels.step && |st.instrs| == 3
              && st.instrs[0].ConstInt? && st.instrs[0].n == 1
              && st.instrs[1] == BinaryOp("add", st.instrs[1].dest, counter, st.instrs[0].name)
              && st.instrs[2] == Assign(counter, st.instrs[1].dest, true)
              && st.terminator == Some(Jump(labels.header))
              && out.blocks[3] == EmptyBlock(labels.end)
  {
    var r := RangeLoop(rev, b, blk, s, counter, labels);
    if r.Ok? {
      var range := s.iterable.value;
      var start := Expr(b, blk.instrs, range.left);
      var end := Expr(start.b, start.code + [Assign(counter, start.name, true)], range.right);
      assert Assign(counter, start.name, true) in end.code by {
        assert (start.code + [Assign(counter, start.name, true)])[|start.code|] == Assign(counter, start.name, true);
      }
    }
  }

  /**
   * A loop over a collection: the index `{var}__index` is set to 0 before
   * the loop, the header compares it with the collection's length by
   * `lt`, and the body first binds the variable to the element at the
   * index.
   */
  lemma CollectionLoopShape(rev: Revision, b: Builder, blk: Block, s: AstNode, elem: string, labels: Labels)
    requires s.ForLoopStmt? && s.iterable.Some?
    ensures var r := CollectionLoop(rev, b, blk, s, elem, labels);
            var it := Expr(b, blk.instrs, s.iterable.value);
            var index := elem + "__index";
            r.Ok? ==>
              var out := r.value;
              && |out.blocks| == 4
              && |out.blk.instrs| >= 2
              && out.blk.instrs[|out.blk.instrs| - 2].ConstInt? && out.blk.instrs[|out.blk.instrs| - 2].n == 0
              && out.blk.instrs[|out.blk.instrs| - 1] == Assign(index, out.blk.instrs[|out.blk.instrs| - 2].name, true)
              && var h := out.blocks[0];
              && h.name == labels.header && |h.instrs| == 2
              && h.instrs[0].ArrayLen? && h.instrs[0].collection == it.name
              && h.instrs[1] == BinaryOp("lt", h.instrs[1].dest, index, h.instrs[0].name)
              && h.terminator == Some(CondJump(h.instrs[1].dest, labels.body, labels.end))
              && var body := out.blocks[1];
              && body.name == labels.body && |body.instrs| >= 2
              && body.instrs[0].ArrayGet? && body.instrs[0].collection == it.name && body.instrs[0].index == index
              && body.instrs[1] == Assign(elem, body.instrs[0].name, false)
              && out.blocks[2].name == labels.step && out.blocks[3] == EmptyBlock(labels.end)
  {
    var r := CollectionLoop(rev, b, blk, s, elem, labels);
    if r.Ok? {
      CollectionLoopHead(rev, b, blk, s, elem, labels, r.value);
      CollectionLoopHeader(rev, b, blk, s, elem, labels, r.value);
      CollectionLoopTail(rev, b, blk, s, elem, labels, r.value);
      CollectionLoopBody(rev, b, blk, s, elem, labels, r.value);
    }
  }

  lemma CollectionLoopHead(rev: Revision, b: Builder, blk: Block, s: AstNode, elem: string, labels: Labels, out: LoopOut)
    requires s.ForLoopStmt? && s.iterable.Some? && CollectionLoop(rev, b, blk, s, elem, labels) == Ok(out)
    ensures |out.blk.instrs| >= 2
    ensures out.blk.instrs[|out.blk.instrs| - 2].ConstInt? && out.blk.instrs[|out.blk.instrs| - 2].n == 0
    ensures out.blk.instrs[|out.blk.instrs| - 1] == Assign(elem + "__index", out.blk.instrs[|out.blk.instrs| - 2].name, true)
  {
  }

  lemma CollectionLoopHeader(rev: Revision, b: Builder, blk: Block, s: AstNode, elem: string, labels: Labels, out: LoopOut)
    requires s.ForLoopStmt? && s.iterable.Some? && CollectionLoop(rev, b, blk, s, elem, labels) == Ok(out)
    ensures var it := Expr(b, blk.instrs, s.iterable.value);
            var h := out.blocks[0];
            && |out.blocks| == 4
            && h.name == labels.header && |h.instrs| == 2
            && h.instrs[0].ArrayLen? && h.instrs[0].collection == it.name
            && h.instrs[1] == BinaryOp("lt", h.instrs[1].dest, elem + "__index", h.instrs[0].name)
            && h.terminator == Some(CondJump(h.instrs[1].dest, labels.body, labels.end))
  {
  }

  lemma CollectionLoopTail(rev: Revision, b: Builder, blk: Block, s: AstNode, elem: string, labels: Labels, out: LoopOut)
    requires s.ForLoopStmt? && s.iterable.Some? && CollectionLoop(rev, b, blk, s, elem, labels) == Ok(out)
    ensures |out.blocks| == 4 && out.blocks[2].name == labels.step && out.blocks[3] == EmptyBlock(labels.end)
  {
  }

  lemma CollectionLoopBody(rev: Revision, b: Builder, blk: Block, s: AstNode, elem: string, labels: Labels, out: LoopOut)
    requires s.ForLoopStmt? && s.iterable.Some? && CollectionLoop(rev, b, blk, s, elem, labels) == Ok(out)
    ensures var it := Expr(b, blk.instrs, s.iterable.value);
            var body := out.blocks[1];
            && |out.blocks| == 4
            && body.name == labels.body && |body.instrs| >= 2
            && body.instrs[0].ArrayGet? && body.instrs[0].collection == it.name && body.instrs[0].index == elem + "__index"
            && body.instrs[1] == Assign(elem, body.instrs[0].name, false)
  {
    var it := Expr(b, blk.instrs, s.iterable.value);
    var zero := NextTmp(it.b);
    var len := NextTmp(zero.b);
    var cmp := NextTmp(len.b);
    var item := NextTmp(cmp.b);
    var first := Mir.Block(labels.body, [ArrayGet(item.name, it.name, elem + "__index"), Assign(elem, item.name, false)], None);
    var body := Stmts(rev, item.b, first, s.body, true);
    assert body.Ok?;
    assert Within(first, body.value.blk);
    assert body.value.blk.instrs[..2] == first.instrs;
    assert out.blocks[1].instrs == body.value.blk.instrs;
  }

  /** The state a counted loop lowers its body in: labels taken, loop entered, bounds evaluated. */
  function CountedBodyState(b: Builder, blk: Block, s: AstNode): Builder
    requires s.ForLoopStmt? && s.iterable.Some? && s.iterable.value.BinaryExpr?
  {
    RangeBodyState(ForInner(b, s.pattern), blk, s, LoopVar(b, s.pattern).name)
  }

  /**
   * A counted loop over any body: the body is lowered with the loop's end
   * block as the `break` target and its increment block as the `continue`
   * target, and the loop's body block is the lowered body, given a jump to
   * the increment block only when the body left it open. The four labels
   * are the next four block numbers: header, body, increment and end.
   */
  lemma {:induction false} CountedLoopBody(rev: Revision, b: Builder, blk: Block, s: AstNode, body: Step)
    requires s.ForLoopStmt? && s.iterable.Some? && s.iterable.value.BinaryExpr? && IsRange(s.iterable.value.op)
    requires |b.program.functions| > 0
    requires Stmts(rev, CountedBodyState(b, blk, s), EmptyBlock(BlockName(b.blockCounter + 1)), s.body, true) == Ok(body)
    ensures CurrentLoop(CountedBodyState(b, blk, s)) == Some(LoopContext(BlockName(b.blockCounter + 3), BlockName(b.blockCounter + 2)))
    ensures ForLoop(rev, b, blk, s).Ok?
    ensures var bs := Last(ForLoop(rev, b, blk, s).value.b.program.functions).blocks;
            && |bs| >= 4
            && bs[|bs| - 3] == OrElse(body.blk, Jump(BlockName(b.blockCounter + 2)))
  {
    var labels := ForLabels(b, s.pattern);
    var inner := ForInner(b, s.pattern);
    ForSetup(b, s.pattern);
    RangeLoopBody(rev, inner, blk, s, LoopVar(b, s.pattern).name, labels, body);
    var out := RangeLoop(rev, inner, blk, s, LoopVar(b, s.pattern).name, labels).value;
    ForRange(rev, b, blk, s, out);
    PushedLast(out.b, out.blocks);
  }

  /**
   * In a counted loop whose body is a lone `break` or `continue`, the body
   * block jumps to the loop's end block or to its increment block.
   */
  lemma {:induction false} CountedLoopExits(rev: Revision, b: Builder, blk: Block, s: AstNode)
    requires s.ForLoopStmt? && s.iterable.Some? && s.iterable.value.BinaryExpr? && IsRange(s.iterable.value.op)
    requires s.body == [AstNode.Break] || s.body == [AstNode.Continue]
    requires |b.program.functions| > 0
    ensures ForLoop(rev, b, blk, s).Ok?
    ensures var bs := Last(ForLoop(rev, b, blk, s).value.b.program.functions).blocks;
            var c := b.blockCounter;
            && |bs| >= 4
            && bs[|bs| - 3] == Ended(BlockName(c + 1), Jump(if s.body[0].Break? then BlockName(c + 3) else BlockName(c + 2)))
  {
    var inner := CountedBodyState(b, blk, s);
    var name := BlockName(b.blockCounter + 1);
    ForSetup(b, s.pattern);
    assert CurrentLoop(inner) == CurrentLoop(ForInner(b, s.pattern));
    JumpOnlyBody(rev, inner, name, s.body);
    var body := Stmts(rev, inner, EmptyBlock(name), s.body, true).value;
    CountedLoopBody(rev, b, blk, s, body);
    assert OrElse(body.blk, Jump(BlockName(b.blockCounter + 2))) == body.blk;
  }

  /** The four labels a `for` allocates, in order: header, body, increment, end. */
  function ForLabels(b: Builder, p: Pattern): Labels
  {
    var v := LoopVar(b, p);
    var h := NextBlock(v.b);
    var bd := NextBlock(h.b);
    var st := NextBlock(bd.b);
    var e := NextBlock(st.b);
    Labels(h.name, bd.name, st.name, e.name)
  }

  /** The state a `for` lowers its iterable in: four labels taken and the loop entered. */
  function ForInner(b: Builder, p: Pattern): Builder
  {
    var labels := ForLabels(b, p);
    EnterLoop(LoopVar(b, p).b.(blockCounter := b.blockCounter + 4), labels.end, labels.step)
  }

  /** The labels are the next four block numbers, and inside the loop `break` goes to the end and `continue` to the increment. */
  lemma ForSetup(b: Builder, p: Pattern)
    ensures ForLabels(b, p) == Labels(BlockName(b.blockCounter), BlockName(b.blockCounter + 1),
                                      BlockName(b.blockCounter + 2), BlockName(b.blockCounter + 3))
    ensures CurrentLoop(ForInner(b, p)) == Some(LoopContext(ForLabels(b, p).end, ForLabels(b, p).step))
    ensures Keeps(b, ForInner(b, p).(loopStack := b.loopStack))
  {
    var v := LoopVar(b, p).b;
    LoopPushPop(v.(blockCounter := b.blockCounter + 4), ForLabels(b, p).end, ForLabels(b, p).step);
  }

  /** A `for` over a range whose lowering gives `out`: the loop's blocks are added after the current ones. */
  lemma ForRange(rev: Revision, b: Builder, blk: Block, s: AstNode, out: LoopOut)
    requires s.ForLoopStmt? && s.iterable.Some? && s.iterable.value.BinaryExpr? && IsRange(s.iterable.value.op)
    requires RangeLoop(rev, ForInner(b, s.pattern), blk, s, LoopVar(b, s.pattern).name, ForLabels(b, s.pattern)) == Ok(out)
    ensures ForLoop(rev, b, blk, s) == Ok(Step(ExitLoop(PushBlocks(out.b, out.blocks)), out.blk))
  {
  }

  /** Adding blocks to the last function of a state that has one. */
  lemma PushedLast(b: Builder, bs: seq<Block>)
    requires |b.program.functions| > 0
    ensures Last(ExitLoop(PushBlocks(b, bs)).program.functions).blocks == Last(b.program.functions).blocks + bs
  {
  }

  /** A range loop whose body is a lone `break` or `continue`: four blocks, the body jumping to the loop's target. */
  lemma RangeJumpBody(rev: Revision, b: Builder, blk: Block, s: AstNode, counter: string, labels: Labels)
    requires s.ForLoopStmt? && s.iterable.Some? && s.iterable.value.BinaryExpr?
    requires s.body == [AstNode.Break] || s.body == [AstNode.Continue]
    requires CurrentLoop(b) == Some(LoopContext(labels.end, labels.step))
    ensures RangeLoop(rev, b, blk, s, counter, labels).Ok?
    ensures var out := RangeLoop(rev, b, blk, s, counter, labels).value;
            |out.blocks| == 4 && out.blocks[1] == Ended(labels.body, Jump(if s.body[0].Break? then labels.end else labels.step))
  {
    var inner := RangeBodyState(b, blk, s, counter);
    assert CurrentLoop(inner) == CurrentLoop(b);
    JumpOnlyBody(rev, inner, labels.body, s.body);
    var body := Stmts(rev, inner, EmptyBlock(labels.body), s.body, true).value;
    RangeLoopBody(rev, b, blk, s, counter, labels, body);
    assert OrElse(body.blk, Jump(labels.step)) == body.blk;
  }

  /** The state a range loop lowers its body in: both bounds evaluated and the comparison's temporary taken. */
  function RangeBodyState(b: Builder, blk: Block, s: AstNode, counter: string): (r: Builder)
    requires s.ForLoopStmt? && s.iterable.Some? && s.iterable.value.BinaryExpr?
    ensures r.loopStack == b.loopStack
  {
    var range := s.iterable.value;
    var start := Expr(b, blk.instrs, range.left);
    var end := Expr(start.b, start.code + [Assign(counter, start.name, true)], range.right);
    NextTmp(end.b).b
  }

  /** A range loop whose body lowers to `body`: four blocks, the second being the body's block. */
  lemma RangeLoopBody(rev: Revision, b: Builder, blk: Block, s: AstNode, counter: string, labels: Labels, body: Step)
    requires s.ForLoopStmt? && s.iterable.Some? && s.iterable.value.BinaryExpr?
    requires Stmts(rev, RangeBodyState(b, blk, s, counter), EmptyBlock(labels.body), s.body, true) == Ok(body)
    ensures RangeLoop(rev, b, blk, s, counter, labels).Ok?
    ensures var out := RangeLoop(rev, b, blk, s, counter, labels).value;
            |out.blocks| == 4 && out.blocks[1] == OrElse(body.blk, Jump(labels.step))
  {
  }

  /** A body that is a lone `break` or `continue` ends its block with a jump to the innermost loop's target. */
  lemma JumpOnlyBody(rev: Revision, b: Builder, name: string, body: seq<AstNode>)
    requires body == [AstNode.Break] || body == [AstNode.Continue]
    requires |b.loopStack| > 0
    ensures Stmts(rev, b, EmptyBlock(name), body, true).Ok?
    ensures Stmts(rev, b, EmptyBlock(name), body, true).value.blk
            == Ended(name, Jump(if body[0].Break? then CurrentLoop(b).value.breakTarget else CurrentLoop(b).value.continueTarget))
  {
    assert Stmt(rev, b, EmptyBlock(name), body[0]).Ok?;
    assert body[1..] == [];
  }
}
