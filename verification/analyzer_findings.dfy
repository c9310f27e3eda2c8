/**
 * Two places where the analyzer as written departs from what it evidently
 * intends, each shown on an input and contrasted with the fixed reading.
 *
 * A `let` with several targets: the declared type is the first value the
 * right-hand side provides, so `let (a, b) = pair()` is always a count
 * mismatch of one value against two targets.
 *
 * A function declared inside a function: the single saved-table slot is
 * emptied by the inner declaration, so the outer one never restores its
 * caller's table and the caller's variables disappear.
 */
module AnalyzerFindings {
  import opened Wrappers
  import opened Text
  import opened Ast
  import opened Semantic
  import opened Typing
  import opened Revisions
  import opened Analyzer
  import opened AnalyzerProps

  // ---------------------------------------------------------------------------
  // let with several targets
  // ---------------------------------------------------------------------------

  /** `let (a, b) = value`, unannotated, where the right-hand side provides the two types `ts`. */
  predicate PairLet(env: Env, n: AstNode, a: string, b: string, ts: seq<TypeNode>)
  {
    n.LetDecl? && n.typeAnnotation.None?
    && n.pattern == Pattern.Tuple([Pattern.Identifier(a), Pattern.Identifier(b)])
    && InferRhsTypes(env, n.value, 1) == Ok(ts) && |ts| == 2
    && IsValidIdentifier(a) && IsValidIdentifier(b)
  }

  /** As written, such a `let` is a mismatch of one value against two targets. */
  lemma PairLetAsWritten(env: Env, n: AstNode, a: string, b: string, ts: seq<TypeNode>)
    requires PairLet(env, n, a, b, ts) && !ts[0].Tuple?
    ensures AnalyzeLet(AsWritten, env, n) == Err(TupleAssignmentMismatch(1, 2))
  {
    var targets := [Pattern.Identifier(a), Pattern.Identifier(b)];
    FlattenLeaves(targets);
    assert CollectTargets(n.pattern) == Ok(targets);
  }

  /** Two fresh names that do not start with `_`. */
  predicate FreshPair(env: Env, a: string, b: string)
  {
    a != b && !StartsWith(a, "_") && !StartsWith(b, "_") && !Redeclares(env, a) && !Redeclares(env, b)
  }

  /** Fixed, it binds each name to its own value's type and declares the tuple of both. */
  lemma PairLetFixed(env: Env, n: AstNode, a: string, b: string, ts: seq<TypeNode>)
    requires PairLet(env, n, a, b, ts) && FreshPair(env, a, b)
    ensures AnalyzeLet(Fixed, env, n)
            == Ok(Checked(env.(symbols := env.symbols[a := SymbolInfo(ts[0], n.mutable, RefCounted(ts[0]), false)]
                                                     [b := SymbolInfo(ts[1], n.mutable, RefCounted(ts[1]), false)]),
                          Annotate(n, TypeNode.Tuple(ts))))
  {
    var targets := [Pattern.Identifier(a), Pattern.Identifier(b)];
    FlattenLeaves(targets);
    assert CollectTargets(n.pattern) == Ok(targets);
    assert LetType(Fixed, ts) == TypeNode.Tuple(ts);
    assert StartsWith(a, "_") || a != "_";
    assert StartsWith(b, "_") || b != "_";
    var afterA := env.(symbols := env.symbols[a := SymbolInfo(ts[0], n.mutable, RefCounted(ts[0]), false)]);
    var afterB := afterA.(symbols := afterA.symbols[b := SymbolInfo(ts[1], n.mutable, RefCounted(ts[1]), false)]);
    assert !Redeclares(afterA, b);
    assert BindLet(afterA, n.mutable, targets[1..], ts[1..]) == Ok(afterB) by {
      assert targets[1..][0] == Pattern.Identifier(b) && targets[1..][1..] == [];
    }
    assert BindLet(env, n.mutable, targets, ts) == Ok(afterB);
  }

  /** A one-character name other than `_` does not start with `_`. */
  lemma NoUnderscore(s: string)
    requires |s| > 0 && s[0] != '_'
    ensures !StartsWith(s, "_")
  {
    assert s[0..1][0] == s[0];
  }

  /** `let (x, y) = (1, 2)` on an empty state. */
  function PairOfNumbers(): AstNode
  {
    LetDecl(false, None, Pattern.Tuple([Pattern.Identifier("x"), Pattern.Identifier("y")]),
            TupleLiteral([NumberLiteral(1), NumberLiteral(2)]), None)
  }

  /** The right-hand side provides two Ints. */
  lemma PairOfNumbersTypes(env: Env)
    ensures InferRhsTypes(env, PairOfNumbers().value, 1) == Ok([Int, Int])
  {
    var es := [NumberLiteral(1), NumberLiteral(2)];
    var r := InferAll(env, es);
    assert InferType(env, es[0]) == Ok(Int) && InferType(env, es[1]) == Ok(Int);
    assert r.Ok? && r.value[0] == Int && r.value[1] == Int && |r.value| == 2;
    assert r.value == [Int, Int];
    assert PairOfNumbers().value == TupleLiteral(es);
  }

  /** `x` and `y` are names that may be bound. */
  lemma XYValid()
    ensures IsValidIdentifier("x") && IsValidIdentifier("y")
    ensures !StartsWith("x", "_") && !StartsWith("y", "_")
  {
    NoUnderscore("x");
    NoUnderscore("y");
  }

  /**
   * In any state where `x` and `y` may be declared (an empty one, say), as
   * written it is rejected; fixed, `x` and `y` are both Int.
   */
  lemma PairOfNumbersExample(env: Env)
    requires !Redeclares(env, "x") && !Redeclares(env, "y")
    ensures AnalyzeLet(AsWritten, env, PairOfNumbers()) == Err(TupleAssignmentMismatch(1, 2))
    ensures AnalyzeLet(Fixed, env, PairOfNumbers()).Ok?
    ensures "x" in AnalyzeLet(Fixed, env, PairOfNumbers()).value.env.symbols
    ensures "y" in AnalyzeLet(Fixed, env, PairOfNumbers()).value.env.symbols
    ensures AnalyzeLet(Fixed, env, PairOfNumbers()).value.env.symbols["x"].ty == Int
    ensures AnalyzeLet(Fixed, env, PairOfNumbers()).value.env.symbols["y"].ty == Int
  {
    PairOfNumbersTypes(env);
    XYValid();
    PairLetAsWritten(env, PairOfNumbers(), "x", "y", [Int, Int]);
    PairLetFixed(env, PairOfNumbers(), "x", "y", [Int, Int]);
  }

  // ---------------------------------------------------------------------------
  // Nested function declarations
  // ---------------------------------------------------------------------------

  /** `fn f() { fn h() {} }`. */
  function Nested(f: string, h: string): AstNode
  {
    Private(f, [Private(h, [])])
  }

  /** The state `h`'s empty body is analyzed in, inside `f`, declared in `env`. */
  function InnerBody(env: Env, f: string, h: string): Env
  {
    var registered := env.(functions := env.functions[f := Signature([], Void)]);
    var inF := BodyEnv(registered, map[]);
    BodyEnv(inF.(functions := inF.functions[h := Signature([], Void)]), map[])
  }

  /** `fn h() {}`: registered, analyzed with an empty body, and restored. */
  lemma EmptyFunction(rev: Revision, env: Env, h: string)
    requires h !in env.functions
    ensures var inH := BodyEnv(env.(functions := env.functions[h := Signature([], Void)]), map[]);
            AnalyzeFunction(rev, env, Private(h, [])) == Ok(Checked(Restore(rev, env, inH), FunctionDecl(h, "Private", [], Some(Void), [])))
  {
    assert VoidBody(h, []) == Ok([]);
    assert ParamScope([], map[]) == Ok(map[]);
  }

  /** A lone `return` is accepted and changes nothing. */
  lemma LoneReturn(rev: Revision, env: Env)
    ensures AnalyzeProgram(rev, env, [Return([])]) == Ok(CheckedList(env, [Return([])]))
  {
    assert InferAll(env, []) == Ok([]);
    assert AnalyzeNode(rev, env, Return([])) == Ok(Checked(env, Return([])));
    assert [Return([])][1..] == [];
    assert [Return([])] + [] == [Return([])];
  }

  /** The walk through `fn f() { fn h() {} }`: both bodies are accepted, and the result depends only on the restore step. */
  lemma NestedWalk(rev: Revision, env: Env, f: string, h: string)
    requires f != h && f !in env.functions && h !in env.functions
    ensures var inF := BodyEnv(env.(functions := env.functions[f := Signature([], Void)]), map[]);
            var afterH := Restore(rev, inF, InnerBody(env, f, h));
            AnalyzeFunction(rev, env, Nested(f, h)).Ok?
            && AnalyzeFunction(rev, env, Nested(f, h)).value.env == Restore(rev, env, afterH)
  {
    var registered := env.(functions := env.functions[f := Signature([], Void)]);
    var inF := BodyEnv(registered, map[]);
    var hDecl := Private(h, []);
    var body := [hDecl] + [Return([])];
    assert VoidBody(f, [hDecl]) == Ok(body);
    assert ParamScope([], map[]) == Ok(map[]);
    EmptyFunction(rev, inF, h);
    var afterH := Restore(rev, inF, InnerBody(env, f, h));
    var hNode := FunctionDecl(h, "Private", [], Some(Void), []);
    assert AnalyzeNode(rev, inF, body[0]) == Ok(Checked(afterH, hNode));
    LoneReturn(rev, afterH);
    assert body[1..] == [Return([])];
    assert AnalyzeProgram(rev, inF, body).Ok?;
    assert AnalyzeProgram(rev, inF, body).value.env == afterH;
  }

  /** As written, after `fn f() { fn h() {} }` the caller's table is `f`'s empty one, and nothing is saved. */
  lemma NestedAsWritten(env: Env, f: string, h: string)
    requires f != h && f !in env.functions && h !in env.functions
    ensures AnalyzeFunction(AsWritten, env, Nested(f, h)).Ok?
    ensures AnalyzeFunction(AsWritten, env, Nested(f, h)).value.env.symbols == map[]
    ensures AnalyzeFunction(AsWritten, env, Nested(f, h)).value.env.outer.None?
  {
    NestedWalk(AsWritten, env, f, h);
  }

  /** `let g = 1`, then `fn f() { fn h() {} }`, then `print g`. */
  function GlobalAfterNested(): seq<AstNode>
  {
    [LetDecl(false, None, Pattern.Identifier("g"), NumberLiteral(1), None),
     Nested("f", "h"),
     Print([AstNode.Identifier("g")])]
  }

  /** The state after `let g = 1` on an empty state. */
  function WithGlobal(): Env
  {
    NewEnv().(symbols := map["g" := SymbolInfo(Int, false, false, false)])
  }

  /** The global declaration is accepted. */
  lemma GlobalDeclared(rev: Revision)
    ensures AnalyzeNode(rev, NewEnv(), GlobalAfterNested()[0]).Ok?
    ensures AnalyzeNode(rev, NewEnv(), GlobalAfterNested()[0]).value.env == WithGlobal()
  {
    var n := GlobalAfterNested()[0];
    NoUnderscore("g");
    assert IsValidIdentifier("g");
    PlainLetBinds(rev, NewEnv(), n, "g", Int);
  }

  /** Printing the name `g` in `env`: accepted when it is an Int variable, otherwise the lookup's error. */
  lemma PrintG(rev: Revision, env: Env)
    ensures "g" in env.symbols && env.symbols["g"].ty == Int ==> AnalyzeNode(rev, env, Print([AstNode.Identifier("g")])).Ok?
    ensures "g" !in env.symbols && env.outer.None? ==> AnalyzeNode(rev, env, Print([AstNode.Identifier("g")])) == Err(UndeclaredVariable("g"))
  {
    var g := AstNode.Identifier("g");
    assert [g][1..] == [];
    if "g" in env.symbols && env.symbols["g"].ty == Int {
      assert AnalyzeNode(rev, env, g) == Ok(Checked(env, g));
      assert AnalyzePrint(rev, env, []) == Ok(CheckedList(env, []));
    }
  }

  /** After the global and an accepted nested declaration, the program's verdict is that of `print g`. */
  lemma AfterNested(rev: Revision)
    ensures var rf := AnalyzeFunction(rev, WithGlobal(), Nested("f", "h"));
            rf.Ok? ==>
              var rp := AnalyzeProgram(rev, rf.value.env, [Print([AstNode.Identifier("g")])]);
              (rp.Err? ==> AnalyzeProgram(rev, NewEnv(), GlobalAfterNested()) == Err(rp.error))
              && (rp.Ok? ==> AnalyzeProgram(rev, NewEnv(), GlobalAfterNested()).Ok?)
  {
    var a, b, c := GlobalAfterNested()[0], Nested("f", "h"), Print([AstNode.Identifier("g")]);
    GlobalDeclared(rev);
    FunctionNode(rev, WithGlobal(), b);
    if AnalyzeFunction(rev, WithGlobal(), b).Ok? {
      ThreeStatements(rev, NewEnv(), a, b, c);
      assert GlobalAfterNested() == [a, b, c];
    }
  }

  /** A function declaration is analyzed by the function rule. */
  lemma FunctionNode(rev: Revision, env: Env, n: AstNode)
    requires n.FunctionDecl?
    ensures AnalyzeNode(rev, env, n) == AnalyzeFunction(rev, env, n)
  {
  }

  /** Once the first two statements of three are accepted, the program's verdict is that of the third. */
  lemma ThreeStatements(rev: Revision, env: Env, a: AstNode, b: AstNode, c: AstNode)
    requires AnalyzeNode(rev, env, a).Ok?
    requires AnalyzeNode(rev, AnalyzeNode(rev, env, a).value.env, b).Ok?
    ensures var e1 := AnalyzeNode(rev, env, a).value.env;
            var rp := AnalyzeProgram(rev, AnalyzeNode(rev, e1, b).value.env, [c]);
            && (rp.Err? ==> AnalyzeProgram(rev, env, [a, b, c]) == Err(rp.error))
            && (rp.Ok? ==> AnalyzeProgram(rev, env, [a, b, c]).Ok?)
  {
    var e1 := AnalyzeNode(rev, env, a).value.env;
    ProgramAfterFirst(rev, env, [a, b, c]);
    assert [a, b, c][1..] == [b, c];
    ProgramAfterFirst(rev, e1, [b, c]);
    assert [b, c][1..] == [c];
  }

  /** Once the first statement is accepted, a program's verdict is that of the rest. */
  lemma ProgramAfterFirst(rev: Revision, env: Env, nodes: seq<AstNode>)
    requires |nodes| > 0 && AnalyzeNode(rev, env, nodes[0]).Ok?
    ensures var rest := AnalyzeProgram(rev, AnalyzeNode(rev, env, nodes[0]).value.env, nodes[1..]);
            && (rest.Err? ==> AnalyzeProgram(rev, env, nodes) == Err(rest.error))
            && (rest.Ok? ==> AnalyzeProgram(rev, env, nodes).Ok?)
  {
  }

  /** A program ending in `print g` after a state `c`. */
  lemma PrintGAlone(rev: Revision, env: Env)
    ensures "g" in env.symbols && env.symbols["g"].ty == Int ==> AnalyzeProgram(rev, env, [Print([AstNode.Identifier("g")])]).Ok?
    ensures "g" !in env.symbols && env.outer.None? ==> AnalyzeProgram(rev, env, [Print([AstNode.Identifier("g")])]) == Err(UndeclaredVariable("g"))
  {
    PrintG(rev, env);
    assert [Print([AstNode.Identifier("g")])][1..] == [];
  }

  /** As written, printing the global after the nested declaration reports it undeclared. */
  lemma GlobalAfterNestedAsWritten()
    ensures AnalyzeProgram(AsWritten, NewEnv(), GlobalAfterNested()) == Err(UndeclaredVariable("g"))
  {
    AfterNested(AsWritten);
    NestedAsWritten(WithGlobal(), "f", "h");
    PrintGAlone(AsWritten, AnalyzeFunction(AsWritten, WithGlobal(), Nested("f", "h")).value.env);
  }

  /** Fixed, a function declaration leaves the caller's table as it was, so the same program is accepted. */
  lemma GlobalAfterNestedFixed()
    ensures AnalyzeProgram(Fixed, NewEnv(), GlobalAfterNested()).Ok?
  {
    AfterNested(Fixed);
    NestedWalk(Fixed, WithGlobal(), "f", "h");
    PrintGAlone(Fixed, AnalyzeFunction(Fixed, WithGlobal(), Nested("f", "h")).value.env);
  }
}
