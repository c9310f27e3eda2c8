/**
 * Lowering of the syntax tree to MIR inside a function: expressions to
 * temporaries, statements to instructions and blocks, loops to their
 * labelled blocks. Declarations and the top level are in `MirDecls`.
 */
module MirLower {
  import opened Wrappers
  import opened Text
  import Tokens
  import opened Ast
  import opened Revisions
  import opened Mir
  import opened MirBuilder

  // ---------------------------------------------------------------------------
  // Expressions
  // ---------------------------------------------------------------------------

  /** A lowered expression: the name holding its value, the state after it, and the block's instructions. */
  datatype Value = Value(name: string, b: Builder, code: seq<Instr>)

  /** Several lowered expressions, in order. */
  datatype Values = Values(names: seq<string>, b: Builder, code: seq<Instr>)

  /** Lowered map entries: a (key, value) name pair per entry. */
  datatype Pairs = Pairs(pairs: seq<(string, string)>, b: Builder, code: seq<Instr>)

  /** Only the temporary counter moved, and only forward. */
  predicate Grows(b: Builder, b2: Builder)
  {
    b2 == b.(tmpCounter := b2.tmpCounter) && b.tmpCounter <= b2.tmpCounter
  }

  /** The MIR operator name of a binary operator token. */
  function OpName(op: Tokens.TokenType): string
  {
    match op
    case Plus => "add"
    case Minus => "sub"
    case Star => "mul"
    case Slash => "div"
    case Gt => "gt"
    case Lt => "lt"
    case GtEq => "ge"
    case LtEq => "le"
    case EqEq => "eq"
    case NotEq => "ne"
    case Percent => "rem"
    case _ => "unknown"
  }

  predicate IsRange(op: Tokens.TokenType)
  {
    op == Tokens.RangeExc || op == Tokens.RangeInc
  }

  /**
   * `build_expression`: appends the instructions computing `e` and returns
   * the name holding its value. A variable is its own name; everything else
   * ends in a fresh temporary.
   */
  function Expr(b: Builder, code: seq<Instr>, e: AstNode): (r: Value)
    ensures Grows(b, r.b) && code <= r.code
    ensures e.Identifier? ==> r == Value(e.name, b, code)
    ensures !e.Identifier? ==> IsTemp(r.name) && b.tmpCounter < r.b.tmpCounter
    decreases Size(e), 0
  {
    match e
    case NumberLiteral(n) =>
      var t := NextTmp(b);
      Value(t.name, t.b, code + [ConstInt(t.name, n)])
    case BoolLiteral(v) =>
      var t := NextTmp(b);
      Value(t.name, t.b, code + [ConstBool(t.name, v)])
    case StringLiteral(s) =>
      var t := NextTmp(b);
      Value(t.name, t.b, code + [ConstString(t.name, s)])
    case Identifier(name) => Value(name, b, code)
    case BinaryExpr(left, op, right) =>
      var l := Expr(b, code, left);
      var rt := Expr(l.b, l.code, right);
      var d := NextTmp(rt.b);
      if IsRange(op) then Value(d.name, d.b, rt.code + [RangeCreate(d.name, l.name, rt.name, op == Tokens.RangeInc)])
      else Value(d.name, d.b, rt.code + [BinaryOp(OpName(op), d.name, l.name, rt.name)])
    case FunctionCall(func, args) =>
      var a := Exprs(b, code, args);
      var d := NextTmp(a.b);
      var f := if func.Identifier? then Value(func.name, d.b, a.code) else Expr(d.b, a.code, func);
      Value(d.name, f.b, f.code + [Call([d.name], f.name, a.names)])
    case ArrayLiteral(es) =>
      var a := Exprs(b, code, es);
      var t := NextTmp(a.b);
      Value(t.name, t.b, a.code + [Instr.Array(t.name, a.names)])
    case MapLiteral(_) =>
      var a := Entries(b, code, e, 0);
      var t := NextTmp(a.b);
      Value(t.name, t.b, a.code + [Instr.Map(t.name, a.pairs)])
    case _ =>
      var t := NextTmp(b);
      Value(t.name, t.b, code)
  }

  /** The expressions of `es` lowered left to right. */
  function Exprs(b: Builder, code: seq<Instr>, es: seq<AstNode>): (r: Values)
    ensures Grows(b, r.b) && code <= r.code && |r.names| == |es|
    decreases SizeList(es), 1
  {
    if |es| == 0 then Values([], b, code)
    else
      var first := Expr(b, code, es[0]);
      var rest := Exprs(first.b, first.code, es[1..]);
      Values([first.name] + rest.names, rest.b, rest.code)
  }

  /** The entries of map literal `n` from index `i` on, each key before its value. */
  function Entries(b: Builder, code: seq<Instr>, n: AstNode, i: nat): (r: Pairs)
    requires n.MapLiteral?
    ensures Grows(b, r.b) && code <= r.code
    decreases SizeEntries(n, i), 1
  {
    if i >= |n.entries| then Pairs([], b, code)
    else
      var k := Expr(b, code, n.entries[i].key);
      var v := Expr(k.b, k.code, n.entries[i].value);
      var rest := Entries(v.b, v.code, n, i + 1);
      Pairs([(k.name, v.name)] + rest.pairs, rest.b, rest.code)
  }

  // ---------------------------------------------------------------------------
  // Bindings and declarations used as values
  // ---------------------------------------------------------------------------

  /**
   * The identifiers of a tuple pattern from position `i` on: each gets an
   * extract of element `i` into a fresh temporary and an assignment from
   * it, followed by an `IncRef` when `retain` holds. Other leaves are skipped.
   */
  function Destructure(b: Builder, code: seq<Instr>, items: seq<Pattern>, i: nat, source: string,
                       mutable: bool, retain: bool): (r: (Builder, seq<Instr>))
    ensures Grows(b, r.0) && code <= r.1
    decreases |items| - i
  {
    if i >= |items| then (b, code)
    else if items[i].Identifier? then
      var t := NextTmp(b);
      var x := items[i].name;
      var extra := [TupleExtract(t.name, source, i), Assign(x, t.name, mutable)] + (if retain then [IncRef(x)] else []);
      Destructure(t.b, code + extra, items, i + 1, source, mutable, retain)
    else Destructure(b, code, items, i + 1, source, mutable, retain)
  }

  /** Binding `value` to a pattern inside a block: one assignment, or a destructuring; nothing for other patterns. */
  function Bind(b: Builder, code: seq<Instr>, p: Pattern, value: string, mutable: bool): (r: (Builder, seq<Instr>))
    ensures Grows(b, r.0) && code <= r.1
  {
    match p
    case Identifier(x) => (b, code + [Assign(x, value, mutable)])
    case Tuple(items) => Destructure(b, code, items, 0, value, mutable, false)
    case _ => (b, code)
  }

  /** An instruction together with the state after it. */
  datatype Emitted = Emitted(b: Builder, code: seq<Instr>)

  /** The placeholder instance of a struct declaration: a temporary, one per field, then `StructInit`. */
  function StructPlaceholder(b: Builder, name: string, fields: seq<(string, TypeNode)>): (r: Emitted)
    ensures Grows(b, r.b) && r.b.tmpCounter == b.tmpCounter + 1 + |fields|
    ensures |r.code| == 1 && r.code[0].StructInit? && r.code[0].name == TmpName(b.tmpCounter)
  {
    var t := NextTmp(b);
    var vals := FieldTmps(t.b, fields);
    Emitted(vals.1, [StructInit(t.name, name, vals.0)])
  }

  function FieldTmps(b: Builder, fields: seq<(string, TypeNode)>): (r: (seq<(string, string)>, Builder))
    ensures Grows(b, r.1) && r.1.tmpCounter == b.tmpCounter + |fields| && |r.0| == |fields|
    decreases |fields|
  {
    if |fields| == 0 then ([], b)
    else
      var t := NextTmp(b);
      var rest := FieldTmps(t.b, fields[1..]);
      ([(fields[0].0, t.name)] + rest.0, rest.1)
  }

  /** One `EnumInit` per variant, each on a fresh temporary, with a second one for a payload. */
  function EnumPlaceholders(b: Builder, name: string, variants: seq<(string, Option<TypeNode>)>): (r: Emitted)
    ensures Grows(b, r.b) && |r.code| == |variants|
    decreases |variants|
  {
    if |variants| == 0 then Emitted(b, [])
    else
      var t := NextTmp(b);
      var v := if variants[0].1.Some? then var p := NextTmp(t.b); (Some(p.name), p.b) else (None, t.b);
      var rest := EnumPlaceholders(v.1, name, variants[1..]);
      Emitted(rest.b, [EnumInit(t.name, name, variants[0].0, v.0)] + rest.code)
  }

  // ---------------------------------------------------------------------------
  // Statements
  // ---------------------------------------------------------------------------

  const BreakOutside := "Break statement outside of loop"
  const ContinueOutside := "Continue statement outside of loop"

  /** A lowered statement: the state after it and the block it was lowered into. */
  datatype Step = Step(b: Builder, blk: Block)

  function EmptyBlock(name: string): Block
  {
    Mir.Block(name, [], None)
  }

  function Ended(name: string, t: Instr): Block
  {
    Mir.Block(name, [], Some(t))
  }

  /** `blk` with terminator `t` if it has none yet. */
  function OrElse(blk: Block, t: Instr): (r: Block)
    ensures r.terminator.Some? && r.name == blk.name && r.instrs == blk.instrs
  {
    if blk.terminator.None? then blk.(terminator := Some(t)) else blk
  }

  /** `blk2` is `blk` with instructions appended and perhaps a terminator set. */
  predicate Within(blk: Block, blk2: Block)
  {
    blk2.name == blk.name && blk.instrs <= blk2.instrs
  }

  /** The labels of one counted loop. */
  datatype Labels = Labels(header: string, body: string, step: string, end: string)

  /** A lowered loop before its blocks are added: the state, the block it started from, its own blocks. */
  datatype LoopOut = LoopOut(b: Builder, blk: Block, blocks: seq<Block>)

  /**
   * `build_statement`: lowers `s` into `blk`; blocks it creates go to the
   * last function of the program. `break` or `continue` outside a loop panics.
   */
  function Stmt(rev: Revision, b: Builder, blk: Block, s: AstNode): (r: Result<Step, string>)
    ensures r.Ok? ==> Keeps(b, r.value.b) && Within(blk, r.value.blk)
    decreases Size(s), 3
  {
    match s
    case Assignment(p, v) =>
      var x := Expr(b, blk.instrs, v);
      var bound := Bind(x.b, x.code, p, x.name, true);
      Ok(Step(bound.0, blk.(instrs := bound.1)))
    case LetDecl(mutable, _, p, v, _) =>
      var x := Expr(b, blk.instrs, v);
      var bound := Bind(x.b, x.code, p, x.name, mutable);
      Ok(Step(bound.0, blk.(instrs := bound.1)))
    case ConditionalStmt(_, _, _) => Conditional(rev, b, blk, s)
    case Return(vs) =>
      var x := Exprs(b, blk.instrs, vs);
      Ok(Step(x.b, blk.(instrs := x.code, terminator := Some(Instr.Return(x.names)))))
    case BinaryExpr(_, _, _) =>
      var x := Expr(b, blk.instrs, s);
      Ok(Step(x.b, blk.(instrs := x.code)))
    case FunctionCall(_, _) =>
      var x := Expr(b, blk.instrs, s);
      Ok(Step(x.b, blk.(instrs := x.code)))
    case Print(es) =>
      var x := Exprs(b, blk.instrs, es);
      Ok(Step(x.b, blk.(instrs := x.code + [Instr.Print(x.names)])))
    case Break =>
      if |b.loopStack| == 0 then Err(BreakOutside)
      else Ok(Step(b, blk.(terminator := Some(Jump(CurrentLoop(b).value.breakTarget)))))
    case Continue =>
      if |b.loopStack| == 0 then Err(ContinueOutside)
      else Ok(Step(b, blk.(terminator := Some(Jump(CurrentLoop(b).value.continueTarget)))))
    case ForLoopStmt(_, _, _) => ForLoop(rev, b, blk, s)
    case StructDecl(name, fields) =>
      var x := StructPlaceholder(b, name, fields);
      Ok(Step(x.b, blk.(instrs := blk.instrs + x.code)))
    case EnumDecl(name, variants) =>
      var x := EnumPlaceholders(b, name, variants);
      Ok(Step(x.b, blk.(instrs := blk.instrs + x.code)))
    case Block(stmts) =>
      if rev == Fixed then Stmts(rev, b, blk, stmts, false) else Ok(Step(b, blk))
    case _ => Ok(Step(b, blk))
  }

  /**
   * The statements of `ss` in order into one block; with `stop`, the rest is
   * skipped once the block has a terminator.
   */
  function Stmts(rev: Revision, b: Builder, blk: Block, ss: seq<AstNode>, stop: bool): (r: Result<Step, string>)
    ensures r.Ok? ==> Keeps(b, r.value.b) && Within(blk, r.value.blk)
    decreases SizeList(ss), 4
  {
    if |ss| == 0 || (stop && blk.terminator.Some?) then Ok(Step(b, blk))
    else
      var first :- Stmt(rev, b, blk, ss[0]);
      Stmts(rev, first.b, first.blk, ss[1..], stop)
  }

  /**
   * `if`: the block ends in a conditional jump to the then-block and to the
   * else-block, or straight to the end block when there is no `else`. The
   * branch blocks jump to the end block unless their statements end them.
   */
  function Conditional(rev: Revision, b: Builder, blk: Block, s: AstNode): (r: Result<Step, string>)
    requires s.ConditionalStmt?
    ensures r.Ok? ==> Keeps(b, r.value.b) && Within(blk, r.value.blk)
    decreases Size(s), 2
  {
    var c := Expr(b, blk.instrs, s.condition);
    var thenL := NextBlock(c.b);
    var elseL := NextBlock(thenL.b);
    var endL := NextBlock(elseL.b);
    var falseTarget := if s.elseBranch.Some? then elseL.name else endL.name;
    var head := blk.(instrs := c.code, terminator := Some(CondJump(c.name, thenL.name, falseTarget)));
    var t :- Stmts(rev, endL.b, Ended(thenL.name, Jump(endL.name)), s.thenBlock, false);
    if s.elseBranch.Some? then
      var e :- Stmt(rev, t.b, Ended(elseL.name, Jump(endL.name)), s.elseBranch.value);
      Ok(Step(PushBlocks(e.b, [t.blk, e.blk, EmptyBlock(endL.name)]), head))
    else
      Ok(Step(PushBlocks(t.b, [t.blk, EmptyBlock(endL.name)]), head))
  }

  /** The loop variable: the identifier, `_` for a wildcard, a fresh temporary otherwise. */
  function LoopVar(b: Builder, p: Pattern): (r: Fresh)
    ensures Grows(b, r.b)
  {
    match p
    case Identifier(x) => Fresh(x, b)
    case Wildcard => Fresh("_", b)
    case _ => NextTmp(b)
  }

  /**
   * `for`: a loop without an iterable repeats its body; otherwise the
   * variable and four labels are allocated, `break` is bound to the end
   * block and `continue` to the increment block, and a range or a
   * collection is iterated. Any other iterable yields no blocks.
   */
  function ForLoop(rev: Revision, b: Builder, blk: Block, s: AstNode): (r: Result<Step, string>)
    requires s.ForLoopStmt?
    ensures r.Ok? ==> Keeps(b, r.value.b) && Within(blk, r.value.blk)
    decreases Size(s), 2
  {
    if s.iterable.None? then EndlessLoop(rev, b, blk, s)
    else
      var v := LoopVar(b, s.pattern);
      var h := NextBlock(v.b);
      var bd := NextBlock(h.b);
      var st := NextBlock(bd.b);
      var e := NextBlock(st.b);
      var out :- LoopOver(rev, EnterLoop(e.b, e.name, st.name), blk, s, v.name, Labels(h.name, bd.name, st.name, e.name));
      var after := PushBlocks(out.b, out.blocks);
      KeepsTransitive(EnterLoop(e.b, e.name, st.name), out.b, after);
      LoopBracket(e.b, e.name, st.name, after);
      Ok(Step(ExitLoop(after), out.blk))
  }

  /** The iterable decides the shape: a range, a variable or map literal, or nothing at all. */
  function LoopOver(rev: Revision, b: Builder, blk: Block, s: AstNode, v: string, labels: Labels): (r: Result<LoopOut, string>)
    requires s.ForLoopStmt? && s.iterable.Some?
    ensures r.Ok? ==> Keeps(b, r.value.b) && Within(blk, r.value.blk)
    decreases Size(s), 1
  {
    var it := s.iterable.value;
    if it.BinaryExpr? && IsRange(it.op) then RangeLoop(rev, b, blk, s, v, labels)
    else if it.Identifier? || it.MapLiteral? then CollectionLoop(rev, b, blk, s, v, labels)
    else Ok(LoopOut(b, blk, []))
  }

  /**
   * `for` without an iterable: header, body and end labels; `break` goes to
   * the end and `continue` to the header; the body falls back to the header.
   */
  function EndlessLoop(rev: Revision, b: Builder, blk: Block, s: AstNode): (r: Result<Step, string>)
    requires s.ForLoopStmt?
    ensures r.Ok? ==> Keeps(b, r.value.b) && Within(blk, r.value.blk)
    decreases Size(s), 1
  {
    var h := NextBlock(b);
    var bd := NextBlock(h.b);
    var e := NextBlock(bd.b);
    var inner := EnterLoop(e.b, e.name, h.name);
    var body :- Stmts(rev, inner, EmptyBlock(bd.name), s.body, false);
    var blocks := [Ended(h.name, Jump(bd.name)), OrElse(body.blk, Jump(h.name)), EmptyBlock(e.name)];
    Ok(Step(ExitLoop(PushBlocks(body.b, blocks)), blk.(terminator := Some(Jump(h.name)))))
  }

  /** The increment block: `var := var + 1`, then back to the header. */
  function StepBlock(b: Builder, labels: Labels, counter: string): (r: (Builder, Block))
    ensures Grows(b, r.0) && r.0.tmpCounter == b.tmpCounter + 2
  {
    var one := NextTmp(b);
    var next := NextTmp(one.b);
    (next.b, Mir.Block(labels.step, [ConstInt(one.name, 1), BinaryOp("add", next.name, counter, one.name),
                                     Assign(counter, next.name, true)], Some(Jump(labels.header))))
  }

  /**
   * A range loop: the variable starts at the range's start, the header
   * compares it with the end (`le` when inclusive, `lt` otherwise) and
   * branches to the body or the end block.
   */
  function RangeLoop(rev: Revision, b: Builder, blk: Block, s: AstNode, counter: string, labels: Labels): (r: Result<LoopOut, string>)
    requires s.ForLoopStmt? && s.iterable.Some? && s.iterable.value.BinaryExpr?
    ensures r.Ok? ==> Keeps(b, r.value.b) && Within(blk, r.value.blk)
    decreases Size(s), 0
  {
    var range := s.iterable.value;
    var start := Expr(b, blk.instrs, range.left);
    var end := Expr(start.b, start.code + [Assign(counter, start.name, true)], range.right);
    var head := blk.(instrs := end.code, terminator := Some(Jump(labels.header)));
    var cmp := NextTmp(end.b);
    var cmpOp := if range.op == Tokens.RangeInc then "le" else "lt";
    var header := Mir.Block(labels.header, [BinaryOp(cmpOp, cmp.name, counter, end.name)],
                            Some(CondJump(cmp.name, labels.body, labels.end)));
    var body :- Stmts(rev, cmp.b, EmptyBlock(labels.body), s.body, true);
    var step := StepBlock(body.b, labels, counter);
    Ok(LoopOut(step.0, head, [header, OrElse(body.blk, Jump(labels.step)), step.1, EmptyBlock(labels.end)]))
  }

  /**
   * A loop over a variable or a map literal: the index `{var}__index`
   * starts at 0, the header compares it with the length, and the body
   * first binds the variable to the element at the index.
   */
  function CollectionLoop(rev: Revision, b: Builder, blk: Block, s: AstNode, elem: string, labels: Labels): (r: Result<LoopOut, string>)
    requires s.ForLoopStmt? && s.iterable.Some?
    ensures r.Ok? ==> Keeps(b, r.value.b) && Within(blk, r.value.blk)
    decreases Size(s), 0
  {
    var it := Expr(b, blk.instrs, s.iterable.value);
    var index := elem + "__index";
    var zero := NextTmp(it.b);
    var head := blk.(instrs := it.code + [ConstInt(zero.name, 0), Assign(index, zero.name, true)],
                     terminator := Some(Jump(labels.header)));
    var len := NextTmp(zero.b);
    var cmp := NextTmp(len.b);
    var header := Mir.Block(labels.header, [ArrayLen(len.name, it.name), BinaryOp("lt", cmp.name, index, len.name)],
                            Some(CondJump(cmp.name, labels.body, labels.end)));
    var item := NextTmp(cmp.b);
    var first := Mir.Block(labels.body, [ArrayGet(item.name, it.name, index), Assign(elem, item.name, false)], None);
    var body :- Stmts(rev, item.b, first, s.body, true);
    var step := StepBlock(body.b, labels, index);
    Ok(LoopOut(step.0, head, [header, OrElse(body.blk, Jump(labels.step)), step.1, EmptyBlock(labels.end)]))
  }
}
