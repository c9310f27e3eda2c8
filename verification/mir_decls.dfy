/**
 * Lowering of declarations and of the top level: `let` outside functions
 * with its reference-count bookkeeping, function declarations with their
 * entry block and scope clean-up, the placeholders for struct and enum
 * declarations, and the walk over the items of a program.
 */
module MirDecls {
  import opened Wrappers
  import opened Text
  import opened Ast
  import opened Revisions
  import opened Mir
  import opened MirBuilder
  import opened MirLower

  // ---------------------------------------------------------------------------
  // let at the top level
  // ---------------------------------------------------------------------------

  /** `needs_rc`: the annotation names a string, array or map type. */
  predicate NeedsRc(annotation: Option<TypeNode>)
  {
    annotation.Some? && RefCounted(annotation.value)
  }

  /**
   * A value counts as a copy of an existing variable unless it is a
   * temporary, parses as an `i32`, or is `true` or `false`.
   */
  predicate IsCopy(v: string)
  {
    !IsTemp(v) && ParseI32(v).Err? && v != "true" && v != "false"
  }

  /** The variable a top-level `let` hands to the innermost scope, if any. */
  function Tracked(n: AstNode): Option<string>
  {
    if n.LetDecl? && n.pattern.Identifier? && NeedsRc(n.typeAnnotation) then Some(n.pattern.name) else None
  }

  /**
   * `build_let_decl`: the value's instructions, then the binding. A single
   * name is assigned, retained with `IncRef` only when its type needs
   * counting and the value is a copy, and tracked whenever its type needs
   * counting. A tuple pattern extracts each identifier, retained when the
   * declaration is flagged as reference-counted.
   */
  function LetDecl(b: Builder, n: AstNode): (r: Emitted)
    requires n.LetDecl?
    ensures r.b == b.(tmpCounter := r.b.tmpCounter, rcTracked := r.b.rcTracked)
    ensures r.b.rcTracked == (if Tracked(n).Some? then TrackRcVar(b, Tracked(n).value).rcTracked else b.rcTracked)
  {
    var v := Expr(b, [], n.value);
    match n.pattern
    case Identifier(x) =>
      var retain := if NeedsRc(n.typeAnnotation) && IsCopy(v.name) then [IncRef(x)] else [];
      Emitted(if NeedsRc(n.typeAnnotation) then TrackRcVar(v.b, x) else v.b,
              v.code + [Assign(x, v.name, n.mutable)] + retain)
    case Tuple(items) =>
      var d := Destructure(v.b, v.code, items, 0, v.name, n.mutable, n.isRefCounted == Some(true));
      Emitted(d.0, d.1)
    case _ => Emitted(v.b, v.code)
  }

  // ---------------------------------------------------------------------------
  // Function declarations
  // ---------------------------------------------------------------------------

  /** The `{:?}` rendering of a type, as recorded in MIR function headers. */
  function DebugType(t: TypeNode): string
    decreases t
  {
    match t
    case Int => "Int"
    case Float => "Float"
    case String => "String"
    case Bool => "Bool"
    case Void => "Void"
    case Array(e) => "Array(" + DebugType(e) + ")"
    case Map(k, v) => "Map(" + DebugType(k) + ", " + DebugType(v) + ")"
    case Tuple(ts) => "Tuple([" + Join(seq(|ts|, i requires 0 <= i < |ts| => DebugType(ts[i])), ", ") + "])"
    case Range(lo, hi, inc) => "Range(" + DebugType(lo) + ", " + DebugType(hi) + ", " + ShowBool(inc) + ")"
    case Struct(name, _) => "Struct(\"" + name + "\")"
    case Enum(name, _) => "Enum(\"" + name + "\")"
    case TypeRef(name) => "TypeRef(\"" + name + "\")"
  }

  function DebugOption(t: Option<TypeNode>): (r: Option<string>)
    ensures r.Some? <==> t.Some?
  {
    if t.Some? then Some(DebugType(t.value)) else None
  }

  /** The MIR header of a declared function: names, rendered types, no blocks yet. */
  function Header(n: AstNode): (f: Function)
    requires n.FunctionDecl?
    ensures f.name == n.name && |f.params| == |n.params| && f.blocks == []
    ensures forall i | 0 <= i < |n.params| :: f.params[i] == n.params[i].0
    ensures f.returnType.None? <==> n.returnType.None?
  {
    Function(n.name, seq(|n.params|, i requires 0 <= i < |n.params| => n.params[i].0),
             seq(|n.params|, i requires 0 <= i < |n.params| => DebugOption(n.params[i].1)),
             DebugOption(n.returnType), [])
  }

  /**
   * The body's statements in order. When a statement ends the current
   * block, the block is added to the function and a fresh one continues.
   * The block left open at the end has no terminator.
   */
  function Body(rev: Revision, b: Builder, blk: Block, ss: seq<AstNode>): (r: Result<Step, string>)
    requires blk.terminator.None?
    ensures r.Ok? ==> Keeps(b, r.value.b) && r.value.blk.terminator.None?
    decreases |ss|
  {
    if |ss| == 0 then Ok(Step(b, blk))
    else
      var done :- Stmt(rev, b, blk, ss[0]);
      if done.blk.terminator.Some? then
        var pushed := PushBlocks(done.b, [done.blk]);
        var next := NextBlock(pushed);
        KeepsTransitive(b, done.b, pushed);
        Body(rev, next.b, EmptyBlock(next.name), ss[1..])
      else Body(rev, done.b, done.blk, ss[1..])
  }

  /** A block that assigns and does not compute: where the entry block jumps when other blocks exist. */
  predicate Stores(blk: Block)
  {
    (exists i | 0 <= i < |blk.instrs| :: blk.instrs[i].Assign?)
    && !(exists i | 0 <= i < |blk.instrs| :: blk.instrs[i].BinaryOp?)
  }

  /** The label of the first storing block. */
  function FindInit(bs: seq<Block>): (r: Option<string>)
    ensures r.None? <==> forall i | 0 <= i < |bs| :: !Stores(bs[i])
    ensures r.Some? ==> exists i | 0 <= i < |bs| :: Stores(bs[i]) && bs[i].name == r.value
                                                 && forall j | 0 <= j < i :: !Stores(bs[j])
    decreases |bs|
  {
    if |bs| == 0 then None
    else if Stores(bs[0]) then Some(bs[0].name)
    else
      var r := FindInit(bs[1..]);
      assert forall j | 1 <= j < |bs| :: bs[1..][j - 1] == bs[j];
      r
  }

  /**
   * The open block goes in front of the blocks already added. If there are
   * any, it jumps to the first storing one, or else to the one after it.
   */
  function PlaceEntry(blocks: seq<Block>, entry: Block): (r: seq<Block>)
    ensures |r| == |blocks| + 1 && r[1..] == blocks
    ensures r[0].name == entry.name && r[0].instrs == entry.instrs
    ensures |blocks| == 0 ==> r[0] == entry
    ensures |blocks| > 0 ==> r[0].terminator == Some(Jump(FindInit(blocks).UnwrapOr(blocks[0].name)))
  {
    if |blocks| == 0 then [entry]
    else [entry.(terminator := Some(Jump(FindInit(blocks).UnwrapOr(blocks[0].name))))] + blocks
  }

  /** The labels of the blocks, other than the entry's, that have no terminator. */
  function OpenLabels(bs: seq<Block>, entry: string): (r: seq<string>)
    ensures forall l :: l in r <==> exists i | 0 <= i < |bs| :: bs[i].terminator.None? && bs[i].name != entry && bs[i].name == l
    decreases |bs|
  {
    if |bs| == 0 then []
    else
      var rest := OpenLabels(bs[1..], entry);
      assert forall i | 1 <= i < |bs| :: bs[1..][i - 1] == bs[i];
      if bs[0].terminator.None? && bs[0].name != entry then [bs[0].name] + rest else rest
  }

  /** `blk` with the releases appended and, in a void function, an empty `return`. */
  function Released(blk: Block, decrefs: seq<Instr>, void: bool): Block
  {
    blk.(instrs := blk.instrs + decrefs, terminator := if void then Some(Instr.Return([])) else blk.terminator)
  }

  /** Releases in the first block labelled `label`. */
  function ReleaseFirst(bs: seq<Block>, target: string, decrefs: seq<Instr>, void: bool): (r: seq<Block>)
    ensures |r| == |bs|
    decreases |bs|
  {
    if |bs| == 0 then []
    else if bs[0].name == target then [Released(bs[0], decrefs, void)] + bs[1..]
    else [bs[0]] + ReleaseFirst(bs[1..], target, decrefs, void)
  }

  function ReleaseAll(bs: seq<Block>, labels: seq<string>, decrefs: seq<Instr>, void: bool): (r: seq<Block>)
    ensures |r| == |bs|
    decreases |labels|
  {
    if |labels| == 0 then bs else ReleaseAll(ReleaseFirst(bs, labels[0], decrefs, void), labels[1..], decrefs, void)
  }

  /**
   * Where the scope's releases go: with blocks added by statements, to every
   * block other than the entry's that has no terminator (and a void function
   * returns there); otherwise to the first block, which also returns when
   * the function is void and nothing ended it.
   */
  function Cleanup(bs: seq<Block>, decrefs: seq<Instr>, entry: string, added: bool, void: bool): (r: seq<Block>)
    ensures |r| == |bs|
  {
    if added then ReleaseAll(bs, OpenLabels(bs, entry), decrefs, void)
    else if |bs| == 0 then bs
    else
      var first := bs[0];
      var term := if void && first.terminator.None? then Some(Instr.Return([])) else first.terminator;
      [first.(instrs := first.instrs + decrefs, terminator := term)] + bs[1..]
  }

  function WithLast(p: Program, f: Function): Program
    requires |p.functions| > 0
  {
    p.(functions := p.functions[|p.functions| - 1 := f])
  }

  /**
   * `build_function_decl`: the header is added to the program first, so
   * the blocks statements create land in it; the body runs in a fresh
   * scope; then the open block is placed first and the scope's releases
   * are placed.
   */
  function FunctionDecl(rev: Revision, b: Builder, n: AstNode): (r: Result<Builder, string>)
    requires n.FunctionDecl?
    ensures r.Ok? ==> r.value.loopStack == b.loopStack && r.value.rcTracked == b.rcTracked
    ensures r.Ok? ==> r.value.program.globals == b.program.globals
    ensures r.Ok? ==> |r.value.program.functions| == |b.program.functions| + 1
                      && r.value.program.functions[..|b.program.functions|] == b.program.functions
    ensures r.Ok? ==> Last(r.value.program.functions) == Header(n).(blocks := Last(r.value.program.functions).blocks)
    ensures r.Ok? ==> |Last(r.value.program.functions).blocks| > 0
  {
    var started := b.(program := b.program.(functions := b.program.functions + [Header(n)]));
    var entry := NextBlock(started);
    var scoped := EnterScope(entry.b);
    var done :- Body(rev, scoped, EmptyBlock(entry.name), n.body);
    var f := Last(done.b.program.functions);
    assert Extends(Header(n), f) by {
      assert scoped.program.functions[|b.program.functions|] == Header(n);
    }
    var placed := PlaceEntry(f.blocks, done.blk);
    var closed := ExitScope(done.b, EmptyBlock("temp_cleanup"));
    assert closed.0.rcTracked == b.rcTracked by {
      assert done.b.rcTracked == b.rcTracked + [[]];
      assert (b.rcTracked + [[]])[..|b.rcTracked|] == b.rcTracked;
    }
    var blocks := Cleanup(placed, closed.1.instrs, entry.name, |f.blocks| > 0, n.returnType.None?);
    assert done.b.program.functions[..|b.program.functions|] == b.program.functions by {
      assert scoped.program.functions[..|b.program.functions|] == b.program.functions;
    }
    Ok(closed.0.(program := WithLast(closed.0.program, f.(blocks := blocks))))
  }

  // ---------------------------------------------------------------------------
  // The top level
  // ---------------------------------------------------------------------------

  function AddGlobals(b: Builder, code: seq<Instr>): (r: Builder)
    ensures r == b.(program := r.program) && r.program.functions == b.program.functions
    ensures r.program.globals == b.program.globals + code
  {
    b.(program := b.program.(globals := b.program.globals + code))
  }

  /** The name of the function wrapping a top-level loop or `if`, from both counters. */
  function WrapperName(b: Builder, kind: string): string
  {
    "__" + kind + "_" + NatToString(b.blockCounter) + "_" + NatToString(b.tmpCounter)
  }

  /**
   * A top-level `for` or `if` is lowered into a function of its own, which
   * the globals then call. As written the function is added only after the
   * statement is lowered, so the blocks the statement creates go to the
   * function added before it (or nowhere); fixed, it is added first and
   * the statement's block is placed in front of them.
   */
  function Wrapped(rev: Revision, b: Builder, n: AstNode, kind: string): (r: Result<Builder, string>)
    requires n.ForLoopStmt? || n.ConditionalStmt?
    ensures r.Ok? ==> r.value.loopStack == b.loopStack && r.value.rcTracked == b.rcTracked
    ensures r.Ok? ==> |r.value.program.functions| == |b.program.functions| + 1
  {
    var name := WrapperName(b, kind);
    if rev == AsWritten then
      var entry := NextBlock(b);
      var done :- Stmt(rev, entry.b, EmptyBlock(entry.name), n);
      var added := done.b.(program := done.b.program.(functions := done.b.program.functions + [Function(name, [], [], None, [done.blk])]));
      var call := NextTmp(added);
      Ok(AddGlobals(call.b, [Call([call.name], name, [])]))
    else
      var started := b.(program := b.program.(functions := b.program.functions + [Function(name, [], [], None, [])]));
      var entry := NextBlock(started);
      var done :- Stmt(rev, entry.b, EmptyBlock(entry.name), n);
      var f := Last(done.b.program.functions);
      var placed := WithLast(done.b.program, f.(blocks := [done.blk] + f.blocks));
      var call := NextTmp(done.b.(program := placed));
      Ok(AddGlobals(call.b, [Call([call.name], name, [])]))
  }

  /** The scopes after `n` is lowered at the top level: only a counted `let` adds to them. */
  function AfterItem(scopes: seq<seq<string>>, n: AstNode): seq<seq<string>>
  {
    if Tracked(n).Some? && |scopes| > 0 then scopes[|scopes| - 1 := scopes[|scopes| - 1] + [Tracked(n).value]]
    else scopes
  }

  /**
   * One top-level item. Functions are declared, `let`s and placeholders
   * become globals, expressions and collections are evaluated into
   * numbered globals, loops and `if`s are wrapped; anything else is skipped.
   */
  function TopLevel(rev: Revision, b: Builder, n: AstNode): (r: Result<Builder, string>)
    ensures r.Ok? ==> r.value.loopStack == b.loopStack && r.value.rcTracked == AfterItem(b.rcTracked, n)
  {
    match n
    case FunctionDecl(_, _, _, _, _) => FunctionDecl(rev, b, n)
    case LetDecl(_, _, _, _, _) =>
      var x := LetDecl(b, n);
      Ok(AddGlobals(x.b, x.code))
    case StructDecl(name, fields) =>
      var x := StructPlaceholder(b, name, fields);
      Ok(AddGlobals(x.b, x.code))
    case EnumDecl(name, variants) =>
      var x := EnumPlaceholders(b, name, variants);
      Ok(AddGlobals(x.b, x.code))
    case StringLiteral(v) =>
      var t := NextTmp(b);
      Ok(AddGlobals(t.b, [ConstString(t.name, v), Assign("global_str_" + NatToString(t.b.tmpCounter - 1), t.name, false)]))
    case Assignment(p, v) =>
      var x := Expr(b, [], v);
      Ok(AddGlobals(x.b, x.code + (if p.Identifier? then [Assign(p.name, x.name, true)] else [])))
    case Print(es) =>
      var x := Exprs(b, [], es);
      Ok(AddGlobals(x.b, x.code + [Instr.Print(x.names)]))
    case ForLoopStmt(_, _, _) => Wrapped(rev, b, n, "loop")
    case ConditionalStmt(_, _, _) => Wrapped(rev, b, n, "if")
    case BinaryExpr(_, _, _) =>
      var x := Expr(b, [], n);
      Ok(AddGlobals(x.b, x.code + [Assign("__global_expr_" + NatToString(x.b.tmpCounter - 1), x.name, false)]))
    case FunctionCall(_, _) =>
      var x := Expr(b, [], n);
      Ok(AddGlobals(x.b, x.code + [Assign("__global_expr_" + NatToString(x.b.tmpCounter - 1), x.name, false)]))
    case ArrayLiteral(_) =>
      var x := Expr(b, [], n);
      Ok(AddGlobals(x.b, x.code + [Assign("__global_collection_" + NatToString(x.b.tmpCounter - 1), x.name, false)]))
    case MapLiteral(_) =>
      var x := Expr(b, [], n);
      Ok(AddGlobals(x.b, x.code + [Assign("__global_collection_" + NatToString(x.b.tmpCounter - 1), x.name, false)]))
    case _ => Ok(b)
  }

  function AfterItems(scopes: seq<seq<string>>, nodes: seq<AstNode>): seq<seq<string>>
    decreases |nodes|
  {
    if |nodes| == 0 then scopes else AfterItems(AfterItem(scopes, nodes[0]), nodes[1..])
  }

  /** The items in order, stopping at the first panic. */
  function Items(rev: Revision, b: Builder, nodes: seq<AstNode>): (r: Result<Builder, string>)
    ensures r.Ok? ==> r.value.loopStack == b.loopStack && r.value.rcTracked == AfterItems(b.rcTracked, nodes)
    decreases |nodes|
  {
    if |nodes| == 0 then Ok(b)
    else
      var first :- TopLevel(rev, b, nodes[0]);
      Items(rev, first, nodes[1..])
  }

  /** `build_program`: the items, then the releases of the innermost scope's variables, last tracked first. */
  function BuildProgram(rev: Revision, b: Builder, nodes: seq<AstNode>): (r: Result<Builder, string>)
  {
    var done :- Items(rev, b, nodes);
    var tail := if |done.rcTracked| == 0 then [] else DecRefs(done.rcTracked[|done.rcTracked| - 1]);
    Ok(AddGlobals(done, tail))
  }
}
