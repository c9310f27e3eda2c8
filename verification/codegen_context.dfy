/**
 * The loop-context stack of the code generator: each loop the generator
 * enters pushes the labels `break` and `continue` branch to, and collects
 * the variables to release when the loop is left. The other fields of the
 * code generator hold LLVM state and are not modelled.
 */
module CodegenContext {
  import opened Wrappers

  /** What a loop iterates over, as recorded for its clean-up. */
  datatype LoopType =
    | Range
    | ArrayLoop(itemVar: string, arrayVar: string)
    | MapLoop(keyVar: string, valueVar: string, mapVar: string)
    | Infinite

  datatype LoopContext = LoopContext(exitBlock: string, continueBlock: string, loopVars: seq<string>,
                                     loopType: Option<LoopType>)

  /** The part of the code generator the loop operations touch. */
  datatype CodeGen = CodeGen(loopStack: seq<LoopContext>)

  /** A generator outside every loop: leaving a loop or adding a loop variable changes nothing. */
  function New(): (g: CodeGen)
    ensures Innermost(g).None? && ExitLoop(g) == (g, None)
    ensures forall v :: AddLoopVar(g, v) == g
  {
    CodeGen([])
  }

  /** The context of the innermost loop, if any. */
  function Innermost(g: CodeGen): (r: Option<LoopContext>)
    ensures r.None? <==> |g.loopStack| == 0
  {
    if |g.loopStack| == 0 then None else Some(g.loopStack[|g.loopStack| - 1])
  }

  /** `enter_loop_with_type`: a new innermost context with the given labels and type and no variables yet. */
  function EnterLoopWithType(g: CodeGen, exitBlock: string, continueBlock: string, loopType: Option<LoopType>): (r: CodeGen)
    ensures |r.loopStack| == |g.loopStack| + 1 && r.loopStack[..|g.loopStack|] == g.loopStack
    ensures Innermost(r) == Some(LoopContext(exitBlock, continueBlock, [], loopType))
  {
    CodeGen(g.loopStack + [LoopContext(exitBlock, continueBlock, [], loopType)])
  }

  /** `enter_loop`: a loop whose type is not recorded. */
  function EnterLoop(g: CodeGen, exitBlock: string, continueBlock: string): (r: CodeGen)
    ensures Innermost(r).Some? && Innermost(r).value.loopType.None? && Innermost(r).value.loopVars == []
  {
    EnterLoopWithType(g, exitBlock, continueBlock, None)
  }

  /** `exit_loop`: the stack without its innermost context, and that context; `None` on an empty stack. */
  function ExitLoop(g: CodeGen): (r: (CodeGen, Option<LoopContext>))
    ensures r.1 == Innermost(g)
    ensures r.1.None? ==> r.0 == g
    ensures r.1.Some? ==> r.0.loopStack + [r.1.value] == g.loopStack
  {
    if |g.loopStack| == 0 then (g, None)
    else (CodeGen(g.loopStack[..|g.loopStack| - 1]), Some(g.loopStack[|g.loopStack| - 1]))
  }

  /** `add_loop_var`: `v` joins the innermost context's variables; with no loop open nothing happens. */
  function AddLoopVar(g: CodeGen, v: string): (r: CodeGen)
    ensures |r.loopStack| == |g.loopStack|
    ensures |g.loopStack| == 0 ==> r == g
    ensures |g.loopStack| > 0 ==>
              && r.loopStack[..|g.loopStack| - 1] == g.loopStack[..|g.loopStack| - 1]
              && Innermost(r).value == Innermost(g).value.(loopVars := Innermost(g).value.loopVars + [v])
  {
    if |g.loopStack| == 0 then g
    else
      var n := |g.loopStack| - 1;
      CodeGen(g.loopStack[n := g.loopStack[n].(loopVars := g.loopStack[n].loopVars + [v])])
  }

  function AddLoopVars(g: CodeGen, vs: seq<string>): CodeGen
    decreases |vs|
  {
    if |vs| == 0 then g else AddLoopVars(AddLoopVar(g, vs[0]), vs[1..])
  }

  /** Leaving a loop just entered gives back the stack it was entered from. */
  lemma EnterExit(g: CodeGen, exitBlock: string, continueBlock: string, loopType: Option<LoopType>)
    ensures ExitLoop(EnterLoopWithType(g, exitBlock, continueBlock, loopType))
            == (g, Some(LoopContext(exitBlock, continueBlock, [], loopType)))
  {
  }

  /** Variables added to an open loop only change its innermost context, whose variables they extend in order. */
  lemma {:induction false} AddLoopVarsInnermost(g: CodeGen, vs: seq<string>)
    requires |g.loopStack| > 0
    ensures var r := AddLoopVars(g, vs);
            && |r.loopStack| == |g.loopStack|
            && r.loopStack[..|g.loopStack| - 1] == g.loopStack[..|g.loopStack| - 1]
            && Innermost(r).value == Innermost(g).value.(loopVars := Innermost(g).value.loopVars + vs)
    decreases |vs|
  {
    if |vs| > 0 {
      var g' := AddLoopVar(g, vs[0]);
      AddLoopVarsInnermost(g', vs[1..]);
      assert Innermost(g).value.loopVars + vs == Innermost(g).value.loopVars + [vs[0]] + vs[1..];
    }
  }

  /**
   * The variables added between entering and leaving a loop are exactly
   * what leaving it hands back for clean-up, and the stack is as it was
   * before the loop was entered.
   */
  lemma LoopVarsCollected(g: CodeGen, exitBlock: string, continueBlock: string, loopType: Option<LoopType>, vs: seq<string>)
    ensures ExitLoop(AddLoopVars(EnterLoopWithType(g, exitBlock, continueBlock, loopType), vs))
            == (g, Some(LoopContext(exitBlock, continueBlock, vs, loopType)))
  {
    var entered := EnterLoopWithType(g, exitBlock, continueBlock, loopType);
    AddLoopVarsInnermost(entered, vs);
    var r := AddLoopVars(entered, vs);
    assert entered.loopStack[..|g.loopStack|] == g.loopStack;
    assert r.loopStack[..|g.loopStack|] == g.loopStack;
    assert [] + vs == vs;
    assert ExitLoop(r).0 == CodeGen(g.loopStack) == g;
  }

  /** With no loop open, adding variables changes nothing. */
  lemma {:induction false} AddLoopVarsOutside(g: CodeGen, vs: seq<string>)
    requires |g.loopStack| == 0
    ensures AddLoopVars(g, vs) == g
    decreases |vs|
  {
    if |vs| > 0 {
      AddLoopVarsOutside(AddLoopVar(g, vs[0]), vs[1..]);
    }
  }
}
