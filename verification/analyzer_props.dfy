/**
 * Properties of the analyzer's walk: which names may be bound, how
 * patterns flatten, when calls, parameter lists, declarations and returns
 * are accepted, how assignment binds, and how a statement list composes.
 */
module AnalyzerProps {
  import opened Wrappers
  import opened Text
  import opened Ast
  import opened Semantic
  import opened Typing
  import opened TypingProps
  import opened Revisions
  import opened Analyzer
  import Lexer

  // ---------------------------------------------------------------------------
  // Names and patterns
  // ---------------------------------------------------------------------------

  /** Every word the lexer reserves, except `mut`, is also refused as a name. */
  lemma KeywordsAreNotNames(w: string)
    requires Lexer.Keyword(w).Some? && w != "mut"
    ensures !IsValidIdentifier(w)
  {
  }

  /** A list of leaves flattens to itself. */
  lemma {:induction false} FlattenLeaves(items: seq<Pattern>)
    requires forall i | 0 <= i < |items| :: !items[i].Tuple?
    ensures FlattenAll(items) == items
    decreases |items|
  {
    if |items| > 0 {
      assert forall i | 0 <= i < |items| - 1 :: items[1..][i] == items[i + 1];
      FlattenLeaves(items[1..]);
      assert items == [items[0]] + items[1..];
    }
  }

  /** Flattening is idempotent. */
  lemma FlattenIdempotent(p: Pattern)
    ensures FlattenAll(FlattenPattern(p)) == FlattenPattern(p)
  {
    FlattenLeaves(FlattenPattern(p));
  }

  /** `(x, (y, _))` has the leaves `x`, `y`, `_`, in that order. */
  lemma FlattenNested()
    ensures FlattenPattern(Pattern.Tuple([Pattern.Identifier("x"), Pattern.Tuple([Pattern.Identifier("y"), Wildcard])]))
            == [Pattern.Identifier("x"), Pattern.Identifier("y"), Wildcard]
  {
    var inner := [Pattern.Identifier("y"), Wildcard];
    assert FlattenAll(inner) == inner by { FlattenLeaves(inner); }
  }

  // ---------------------------------------------------------------------------
  // Calls
  // ---------------------------------------------------------------------------

  /** A call is accepted exactly when it names a declared function and every argument has its parameter's type. */
  lemma CallAccepted(env: Env, callee: AstNode, args: seq<AstNode>)
    ensures CheckFunctionCall(env, callee, args).Ok?
            <==> callee.Identifier? && callee.name in env.functions
                 && |args| == |env.functions[callee.name].params|
                 && AllTyped(env, args, env.functions[callee.name].params)
  {
    if callee.Identifier? && callee.name in env.functions && |args| == |env.functions[callee.name].params| {
      NoDiscrepancy(env, args, env.functions[callee.name].params);
    }
  }

  /** A call of the right arity that is rejected is rejected at its first bad argument. */
  lemma CallRejectedAtFirstBadArgument(env: Env, name: string, args: seq<AstNode>)
    requires name in env.functions && |args| == |env.functions[name].params|
    requires CheckFunctionCall(env, AstNode.Identifier(name), args).Err?
    ensures exists i: nat, d :: DiscrepancyAt(env, args, env.functions[name].params, i, d)
                            && CheckFunctionCall(env, AstNode.Identifier(name), args) == Err(ArgumentError(name, d))
  {
    NoDiscrepancy(env, args, env.functions[name].params);
    FirstDiscrepancyIsFirst(env, args, env.functions[name].params);
  }

  // ---------------------------------------------------------------------------
  // Assignment
  // ---------------------------------------------------------------------------

  /** No target paired with a type is the name `n`. */
  lemma {:induction false} NotBound(targets: seq<Pattern>, types: seq<TypeNode>, n: string)
    requires forall j | 0 <= j < |targets| && j < |types| :: targets[j] != Pattern.Identifier(n)
    ensures !Binds(targets, types, n)
    decreases |targets|
  {
    if |targets| > 0 && |types| > 0 {
      assert forall j | 0 <= j < |targets| - 1 && j < |types| - 1 :: targets[1..][j] == targets[j + 1];
      NotBound(targets[1..], types[1..], n);
    }
  }

  /** A name takes the type paired with its last occurrence among the targets. */
  lemma {:induction false} LastTargetWins(env: Env, targets: seq<Pattern>, types: seq<TypeNode>, n: string, i: nat)
    requires i < |targets| && i < |types| && targets[i] == Pattern.Identifier(n) && n != "_"
    requires forall j | i < j < |targets| && j < |types| :: targets[j] != Pattern.Identifier(n)
    ensures n in BindTargets(env, targets, types).symbols
    ensures BindTargets(env, targets, types).symbols[n] == Assigned(types[i])
    decreases |targets|
  {
    var next :=
      if targets[0].Identifier? && targets[0].name != "_"
      then env.(symbols := env.symbols[targets[0].name := Assigned(types[0])])
      else env;
    assert BindTargets(env, targets, types) == BindTargets(next, targets[1..], types[1..]);
    assert forall j | 0 <= j < |targets| - 1 && j < |types| - 1 :: targets[1..][j] == targets[j + 1] && types[1..][j] == types[j + 1];
    if i == 0 {
      NotBound(targets[1..], types[1..], n);
    } else {
      LastTargetWins(next, targets[1..], types[1..], n, i - 1);
    }
  }

  /** Two names swapped through a tuple: each takes the other's type, whatever it was declared as. */
  lemma SwapRetypes(env: Env, a: string, b: string)
    requires a in env.symbols && b in env.symbols && a != b
    requires IsValidIdentifier(a) && IsValidIdentifier(b) && a != "_" && b != "_"
    ensures var r := AnalyzeAssignment(env, Pattern.Tuple([Pattern.Identifier(a), Pattern.Identifier(b)]),
                                        TupleLiteral([AstNode.Identifier(b), AstNode.Identifier(a)]));
            r.Ok? && r.value.symbols[a] == Assigned(env.symbols[b].ty) && r.value.symbols[b] == Assigned(env.symbols[a].ty)
  {
    var targets := [Pattern.Identifier(a), Pattern.Identifier(b)];
    var values := [AstNode.Identifier(b), AstNode.Identifier(a)];
    var types := [env.symbols[b].ty, env.symbols[a].ty];
    FlattenLeaves(targets);
    assert FlattenPattern(Pattern.Tuple(targets)) == targets;
    assert InferType(env, values[0]) == Ok(types[0]) && InferType(env, values[1]) == Ok(types[1]);
    assert InferAll(env, values).Ok?;
    assert InferAll(env, values).value == types;
    LastTargetWins(env, targets, types, a, 0);
    LastTargetWins(env, targets, types, b, 1);
  }

  // ---------------------------------------------------------------------------
  // let
  // ---------------------------------------------------------------------------

  /** A one-name `let` of a single-valued expression of type `t`, not a tuple type, without annotation. */
  predicate PlainLet(env: Env, n: AstNode, name: string, t: TypeNode)
  {
    n.LetDecl? && n.typeAnnotation.None? && n.pattern == Pattern.Identifier(name)
    && !n.value.FunctionCall? && !n.value.TupleLiteral?
    && InferType(env, n.value) == Ok(t) && !t.Tuple? && IsValidIdentifier(name)
  }

  /**
   * Such a `let` binds the name to its type with the declared mutability,
   * and writes the type and reference-count flag into the declaration,
   * unless the name starts with `_` or redeclares a variable.
   */
  lemma PlainLetBinds(rev: Revision, env: Env, n: AstNode, name: string, t: TypeNode)
    requires PlainLet(env, n, name, t)
    ensures StartsWith(name, "_") ==> AnalyzeLet(rev, env, n) == Err(InvalidAssignmentTarget(Text(UnderscoreMessage(name))))
    ensures !StartsWith(name, "_") && Redeclares(env, name) ==> AnalyzeLet(rev, env, n) == Err(VariableRedeclaration(name))
    ensures !StartsWith(name, "_") && !Redeclares(env, name)
            ==> AnalyzeLet(rev, env, n)
                == Ok(Checked(env.(symbols := env.symbols[name := SymbolInfo(t, n.mutable, RefCounted(t), false)]), Annotate(n, t)))
  {
    assert FlattenPattern(n.pattern) == [n.pattern];
    assert InferRhsTypes(env, n.value, 1) == Ok([t]);
    assert StartsWith(name, "_") ==> name != "_" || name == "_";
  }

  /** An annotation that differs from the inferred type is reported with both types and the value. */
  lemma LetAnnotationMismatch(rev: Revision, env: Env, n: AstNode, t: TypeNode)
    requires n.LetDecl? && n.typeAnnotation.Some? && n.typeAnnotation.value != t
    requires !n.value.FunctionCall? && !n.value.TupleLiteral? && InferType(env, n.value) == Ok(t)
    ensures AnalyzeLet(rev, env, n) == Err(VarTypeMismatch(TypeMismatch(n.typeAnnotation.value, t, Some(n.value))))
  {
    assert InferRhsTypes(env, n.value, 1) == Ok([t]);
  }

  // ---------------------------------------------------------------------------
  // Structs, enums and parameter lists
  // ---------------------------------------------------------------------------

  /** No name occurs twice. */
  predicate Distinct(names: seq<string>)
  {
    forall i, j | 0 <= i < j < |names| :: names[i] != names[j]
  }

  /** The scan finds no repeat exactly when the names are distinct and none was seen before. */
  lemma {:induction false} FirstRepeatNone(names: seq<string>, seen: set<string>)
    ensures FirstRepeat(names, seen).None? <==> Distinct(names) && forall i | 0 <= i < |names| :: names[i] !in seen
    decreases |names|
  {
    if |names| > 0 {
      var tail := names[1..];
      FirstRepeatNone(tail, seen + {names[0]});
      assert forall i | 0 <= i < |tail| :: tail[i] == names[i + 1];
      if Distinct(names) && forall i | 0 <= i < |names| :: names[i] !in seen {
        assert Distinct(tail);
      }
      if FirstRepeat(names, seen).None? {
        forall i, j | 0 <= i < j < |names| ensures names[i] != names[j] {
          if i > 0 {
            assert names[i] == tail[i - 1] && names[j] == tail[j - 1];
          } else {
            assert names[j] == tail[j - 1];
          }
        }
      }
    }
  }

  /** A repeat found is a name that occurs twice. */
  lemma {:induction false} FirstRepeatOccursTwice(names: seq<string>, seen: set<string>)
    requires FirstRepeat(names, seen).Some?
    ensures var x := FirstRepeat(names, seen).value;
            exists j | 0 <= j < |names| :: names[j] == x && (x in seen || exists i | 0 <= i < j :: names[i] == x)
    decreases |names|
  {
    var x := FirstRepeat(names, seen).value;
    if names[0] in seen {
      assert names[0] == x;
    } else {
      var tail := names[1..];
      FirstRepeatOccursTwice(tail, seen + {names[0]});
      var j :| 0 <= j < |tail| && tail[j] == x && (x in seen + {names[0]} || exists i | 0 <= i < j :: tail[i] == x);
      assert names[j + 1] == x;
      if x !in seen {
        if x == names[0] {
          assert names[0] == x;
        } else {
          var i :| 0 <= i < j && tail[i] == x;
          assert names[i + 1] == x;
        }
      }
    }
  }

  /** With distinct names, the map of entries gives each name its own value. */
  lemma {:induction false} ToMapValues<V>(entries: seq<(string, V)>)
    requires Distinct(Names(entries))
    ensures forall i | 0 <= i < |entries| :: ToMap(entries)[entries[i].0] == entries[i].1
    decreases |entries|
  {
    if |entries| > 0 {
      var init := entries[..|entries| - 1];
      assert forall i | 0 <= i < |init| :: init[i] == entries[i];
      assert Distinct(Names(init)) by {
        forall i, j | 0 <= i < j < |init| ensures Names(init)[i] != Names(init)[j] {
          assert Names(init)[i] == Names(entries)[i] && Names(init)[j] == Names(entries)[j];
        }
      }
      ToMapValues(init);
      forall i | 0 <= i < |entries| ensures ToMap(entries)[entries[i].0] == entries[i].1 {
        if i < |entries| - 1 {
          assert Names(entries)[i] != Names(entries)[|entries| - 1];
        }
      }
    }
  }

  /** A struct is accepted exactly when its name is new and its fields are distinct; each field keeps its type. */
  lemma StructAccepted(env: Env, name: string, fields: seq<(string, TypeNode)>)
    ensures AnalyzeStruct(env, name, fields).Ok? <==> name !in env.symbols && Distinct(Names(fields))
    ensures AnalyzeStruct(env, name, fields).Ok? ==> forall i | 0 <= i < |fields| :: ToMap(fields)[fields[i].0] == fields[i].1
    ensures name !in env.symbols && !Distinct(Names(fields))
            ==> AnalyzeStruct(env, name, fields) == Err(DuplicateField(name, FirstRepeat(Names(fields), {}).value))
  {
    FirstRepeatNone(Names(fields), {});
    if Distinct(Names(fields)) {
      ToMapValues(fields);
    }
  }

  /** An enum is accepted exactly when its name is new and its variants are distinct; each variant keeps its payload. */
  lemma EnumAccepted(env: Env, name: string, variants: seq<(string, Option<TypeNode>)>)
    ensures AnalyzeEnum(env, name, variants).Ok? <==> name !in env.symbols && Distinct(Names(variants))
    ensures AnalyzeEnum(env, name, variants).Ok? ==> forall i | 0 <= i < |variants| :: ToMap(variants)[variants[i].0] == variants[i].1
    ensures name !in env.symbols && !Distinct(Names(variants))
            ==> AnalyzeEnum(env, name, variants) == Err(DuplicateEnumVariant(name, FirstRepeat(Names(variants), {}).value))
  {
    FirstRepeatNone(Names(variants), {});
    if Distinct(Names(variants)) {
      ToMapValues(variants);
    }
  }

  /** A parameter list is accepted exactly when every parameter has a type and no name repeats or is already in scope. */
  lemma ParamScopeAccepted(params: Params, scope: map<string, SymbolInfo>)
    ensures ParamScope(params, scope).Ok?
            <==> AllAnnotated(params) && Distinct(Names(params)) && forall i | 0 <= i < |params| :: params[i].0 !in scope
    ensures ParamScope(params, scope).Ok?
            ==> forall i | 0 <= i < |params| :: params[i].0 in ParamScope(params, scope).value
                                                && ParamScope(params, scope).value[params[i].0] == ParamInfo(params[i].1.value)
  {
    if ParamScope(params, scope).Ok? {
      ParamScopeSound(params, scope);
    } else if AllAnnotated(params) && Distinct(Names(params)) && forall i | 0 <= i < |params| :: params[i].0 !in scope {
      ParamScopeComplete(params, scope);
    }
  }

  /** An accepted parameter list is annotated, repeats no name, avoids `scope`, and maps each name to its type. */
  lemma {:induction false} ParamScopeSound(params: Params, scope: map<string, SymbolInfo>)
    requires ParamScope(params, scope).Ok?
    ensures AllAnnotated(params) && Distinct(Names(params)) && forall i | 0 <= i < |params| :: params[i].0 !in scope
    ensures forall i | 0 <= i < |params| :: params[i].0 in ParamScope(params, scope).value
                                            && ParamScope(params, scope).value[params[i].0] == ParamInfo(params[i].1.value)
    decreases |params|
  {
    if |params| > 0 {
      var (pname, ty) := params[0];
      var tail := params[1..];
      assert ty.Some? && pname !in scope;
      var next := scope[pname := ParamInfo(ty.value)];
      assert ParamScope(params, scope) == ParamScope(tail, next);
      ParamScopeSound(tail, next);
      assert forall i | 0 <= i < |tail| :: tail[i] == params[i + 1];
      forall i | 0 <= i < |params| ensures params[i].1.Some? && params[i].0 !in scope {
        if i > 0 {
          assert tail[i - 1] == params[i];
        }
      }
      forall i, j | 0 <= i < j < |params| ensures Names(params)[i] != Names(params)[j] {
        assert Names(params)[i] == params[i].0 && Names(params)[j] == params[j].0;
        if i > 0 {
          assert Names(tail)[i - 1] == tail[i - 1].0 && Names(tail)[j - 1] == tail[j - 1].0;
        } else {
          assert tail[j - 1].0 !in next;
        }
      }
      assert pname in next;
    }
  }

  /** An annotated list with distinct names that avoid `scope` is accepted. */
  lemma {:induction false} ParamScopeComplete(params: Params, scope: map<string, SymbolInfo>)
    requires AllAnnotated(params) && Distinct(Names(params)) && forall i | 0 <= i < |params| :: params[i].0 !in scope
    ensures ParamScope(params, scope).Ok?
    decreases |params|
  {
    if |params| > 0 {
      var (pname, ty) := params[0];
      var tail := params[1..];
      assert params[0].1.Some? && params[0].0 !in scope;
      var next := scope[pname := ParamInfo(ty.value)];
      assert forall i | 0 <= i < |tail| :: tail[i] == params[i + 1];
      assert AllAnnotated(tail);
      forall i, j | 0 <= i < j < |tail| ensures Names(tail)[i] != Names(tail)[j] {
        assert Names(params)[i + 1] != Names(params)[j + 1];
      }
      forall i | 0 <= i < |tail| ensures tail[i].0 !in next {
        assert Names(params)[0] != Names(params)[i + 1];
      }
      ParamScopeComplete(tail, next);
    }
  }

  // ---------------------------------------------------------------------------
  // Returns
  // ---------------------------------------------------------------------------

  /** A list always returns exactly when one of its statements always returns. */
  lemma {:induction false} HasReturnSome(nodes: seq<AstNode>)
    ensures HasReturn(nodes) <==> exists i | 0 <= i < |nodes| :: NodeReturns(nodes[i])
    decreases |nodes|
  {
    if |nodes| > 0 {
      HasReturnSome(nodes[1..]);
      assert forall i | 0 <= i < |nodes| - 1 :: nodes[1..][i] == nodes[i + 1];
      if exists i | 0 <= i < |nodes| :: NodeReturns(nodes[i]) {
        var i :| 0 <= i < |nodes| && NodeReturns(nodes[i]);
        if i > 0 {
          assert NodeReturns(nodes[1..][i - 1]);
        }
      }
    }
  }

  /** The body of a function without a return type, once accepted and non-empty, always returns. */
  lemma VoidBodyReturns(fname: string, body: seq<AstNode>)
    requires VoidBody(fname, body).Ok? && |body| > 0
    ensures HasReturn(VoidBody(fname, body).value)
  {
    var b := VoidBody(fname, body).value;
    assert NodeReturns(b[|b| - 1]);
    HasReturnSome(b);
  }

  /** An `if` always returns only when both its branches do; without an `else` it never does. */
  lemma IfReturns(c: AstNode, thenBlock: seq<AstNode>, e: AstNode)
    ensures !NodeReturns(ConditionalStmt(c, thenBlock, None))
    ensures NodeReturns(ConditionalStmt(c, thenBlock, Some(e))) <==> HasReturn(thenBlock) && HasReturn([e])
  {
    assert HasReturn([e]) <==> NodeReturns(e) || HasReturn([e][1..]);
    assert [e][1..] == [];
  }

  /**
   * A `return` is accepted exactly when it provides one value per element of
   * a tuple return type, each of its element's type, or one value of any
   * other return type.
   */
  lemma ReturnAccepted(env: Env, values: seq<AstNode>, expected: TypeNode, fname: string)
    ensures ReturnMismatch(env, values, expected, fname).None?
            <==> if expected.Tuple?
                 then |values| == |expected.elems| && AllTyped(env, values, expected.elems)
                 else |values| == 1 && InferType(env, values[0]) == Ok(expected)
  {
    if expected.Tuple? && |values| == |expected.elems| {
      NoDiscrepancy(env, values, expected.elems);
    }
  }

  // ---------------------------------------------------------------------------
  // Functions
  // ---------------------------------------------------------------------------

  /** A second declaration of a name is rejected before anything else is looked at. */
  lemma FunctionRedeclared(rev: Revision, env: Env, n: AstNode)
    requires n.FunctionDecl? && n.name in env.functions
    ensures AnalyzeFunction(rev, env, n) == Err(FunctionRedeclaration(n.name))
  {
  }

  /** A new function whose parameters all have types: registration succeeds. */
  predicate Registrable(env: Env, n: AstNode)
  {
    n.FunctionDecl? && n.name !in env.functions && AllAnnotated(n.params)
  }

  /** Registration reads parameter types unconditionally, so an untyped parameter stops the analysis there. */
  lemma UntypedParameterPanics(rev: Revision, env: Env, n: AstNode)
    requires n.FunctionDecl? && n.name !in env.functions && !AllAnnotated(n.params)
    ensures AnalyzeFunction(rev, env, n) == Err(Panic(UnwrapMessage))
  {
  }

  /** A public function must start with an upper-case letter. */
  lemma PublicNeedsUppercase(rev: Revision, env: Env, n: AstNode)
    requires Registrable(env, n) && n.visibility == "Public" && |n.name| > 0
    requires !IsUppercase(n.name[0])
    ensures AnalyzeFunction(rev, env, n) == Err(InvalidPublicName(n.name))
  {
  }

  /** The parameters, the visibility rule and registration all pass. */
  predicate HeaderAccepted(env: Env, n: AstNode)
  {
    Registrable(env, n) && PublicNameOk(n.visibility, n.name) && ParamScope(n.params, map[]).Ok?
  }

  /** Without a return type, a top-level `return` with values is rejected. */
  lemma VoidFunctionReturnsValue(rev: Revision, env: Env, n: AstNode)
    requires HeaderAccepted(env, n) && n.returnType.None? && ReturnsValue(n.body)
    ensures AnalyzeFunction(rev, env, n) == Err(InvalidReturnInVoidFunction(n.name))
  {
  }

  /** With a return type other than Void, a body that does not always return is rejected before it is analyzed. */
  lemma MissingReturn(rev: Revision, env: Env, n: AstNode)
    requires HeaderAccepted(env, n) && n.returnType.Some? && n.returnType.value != Void && !HasReturn(n.body)
    ensures AnalyzeFunction(rev, env, n) == Err(MissingFunctionReturn(n.name))
  {
  }

  /** An accepted function declaration is written back with its return type, Void when none was given. */
  lemma FunctionWrittenBack(rev: Revision, env: Env, n: AstNode)
    requires n.FunctionDecl? && AnalyzeFunction(rev, env, n).Ok?
    ensures AnalyzeFunction(rev, env, n).value.node.FunctionDecl?
    ensures AnalyzeFunction(rev, env, n).value.node.returnType == Some(n.returnType.UnwrapOr(Void))
    ensures n.returnType.None? ==> !ReturnsValue(n.body)
    ensures n.returnType.Some? && n.returnType.value != Void ==> HasReturn(n.body)
  {
  }

  // ---------------------------------------------------------------------------
  // Conditions and print
  // ---------------------------------------------------------------------------

  /** An `if` whose condition types as anything but Bool is rejected with that type. */
  lemma ConditionMustBeBool(rev: Revision, env: Env, n: AstNode, t: TypeNode)
    requires n.ConditionalStmt? && InferType(env, n.condition) == Ok(t) && t != Bool
    ensures AnalyzeNode(rev, env, n) == Err(InvalidConditionType(Mismatch(Bool, t)))
  {
  }

  /** The then-block's declarations are visible in the else-branch and after the `if`: blocks open no scope. */
  lemma ThenLeaksIntoElse(rev: Revision, env: Env, n: AstNode)
    requires n.ConditionalStmt? && n.elseBranch.Some? && InferType(env, n.condition) == Ok(Bool)
    requires AnalyzeProgram(rev, env, n.thenBlock).Ok?
    ensures AnalyzeNode(rev, env, n)
            == match AnalyzeNode(rev, AnalyzeProgram(rev, env, n.thenBlock).value.env, n.elseBranch.value)
               case Err(e) => Err(e)
               case Ok(c) => Ok(Checked(c.env, n.(thenBlock := AnalyzeProgram(rev, env, n.thenBlock).value.nodes, elseBranch := Some(c.node))))
  {
  }

  /** `print` rejects a first argument whose type is not printable, with that type. */
  lemma PrintRejects(rev: Revision, env: Env, e: AstNode, rest: seq<AstNode>, t: TypeNode)
    requires InferType(env, e) == Ok(t) && !Printable(t)
    ensures AnalyzeNode(rev, env, Print([e] + rest)) == Err(InvalidPrintType(t))
  {
    assert ([e] + rest)[0] == e;
  }

  /** The function `name` without parameters, private, with the body `body`. */
  function Private(name: string, body: seq<AstNode>): AstNode
  {
    FunctionDecl(name, "Private", [], None, body)
  }

  /** The state the body of `Private(f, ...)` declared in `env` is analyzed in. */
  function PrivateBodyEnv(env: Env, f: string): Env
  {
    BodyEnv(env.(functions := env.functions[f := Signature([], Void)]), map[])
  }

  /** A new private function without parameters or return type fails exactly as its body (with the closing return) fails. */
  lemma PrivateVoidFunction(rev: Revision, env: Env, f: string, body: seq<AstNode>)
    requires f !in env.functions && !ReturnsValue(body) && VoidBody(f, body).Ok?
    ensures AnalyzeProgram(rev, PrivateBodyEnv(env, f), VoidBody(f, body).value).Err?
            ==> AnalyzeFunction(rev, env, Private(f, body))
                == Err(AnalyzeProgram(rev, PrivateBodyEnv(env, f), VoidBody(f, body).value).error)
    ensures AnalyzeProgram(rev, PrivateBodyEnv(env, f), VoidBody(f, body).value).Ok?
            ==> AnalyzeFunction(rev, env, Private(f, body)).Ok?
  {
    assert Register(env, f, [], None).value == env.(functions := env.functions[f := Signature([], Void)]);
    assert ParamScope([], map[]) == Ok(map[]);
  }

  /** A body sees only its parameters: printing a variable of the caller is reported as out of scope. */
  lemma BodyCannotSeeCallerVariables(rev: Revision, env: Env, f: string, g: string)
    requires f !in env.functions && g in env.symbols
    ensures AnalyzeFunction(rev, env, Private(f, [Print([AstNode.Identifier(g)])])) == Err(OutOfScopeVariable(g))
  {
    var given := [Print([AstNode.Identifier(g)])];
    var body := given + [Return([])];
    assert VoidBody(f, given) == Ok(body);
    var inner := PrivateBodyEnv(env, f);
    assert InferType(inner, AstNode.Identifier(g)) == Err(OutOfScopeVariable(g));
    assert AnalyzePrint(rev, inner, [AstNode.Identifier(g)]) == Err(OutOfScopeVariable(g));
    assert AnalyzeNode(rev, inner, body[0]) == Err(OutOfScopeVariable(g));
    assert AnalyzeProgram(rev, inner, body) == Err(OutOfScopeVariable(g));
    PrivateVoidFunction(rev, env, f, given);
  }

  /** The signature is registered before the body is analyzed, so a function may call itself. */
  lemma SelfCallAccepted(rev: Revision, env: Env, f: string)
    requires f !in env.functions
    ensures AnalyzeFunction(rev, env, Private(f, [FunctionCall(AstNode.Identifier(f), [])])).Ok?
  {
    var call := FunctionCall(AstNode.Identifier(f), []);
    assert VoidBody(f, [call]) == Ok([call] + [Return([])]);
    assert [call] + [Return([])] == [call, Return([])];
    SelfCallBody(rev, env, f);
    PrivateVoidFunction(rev, env, f, [call]);
  }

  /** Inside its own body a function is registered, so the body `f(); return;` is accepted. */
  lemma SelfCallBody(rev: Revision, env: Env, f: string)
    ensures AnalyzeProgram(rev, PrivateBodyEnv(env, f), [FunctionCall(AstNode.Identifier(f), []), Return([])]).Ok?
  {
    var call := FunctionCall(AstNode.Identifier(f), []);
    var body := [call, Return([])];
    var inner := PrivateBodyEnv(env, f);
    assert AnalyzeNode(rev, inner, call) == Ok(Checked(inner, call));
    assert body[1..] == [Return([])] && body[1..][1..] == [];
    assert InferAll(inner, []) == Ok([]);
    assert AnalyzeNode(rev, inner, Return([])) == Ok(Checked(inner, Return([])));
    assert AnalyzeProgram(rev, inner, []) == Ok(CheckedList(inner, []));
    assert [Return([])] + [] == [Return([])];
    assert AnalyzeProgram(rev, inner, body[1..]) == Ok(CheckedList(inner, [Return([])]));
  }

  // ---------------------------------------------------------------------------
  // Statement lists
  // ---------------------------------------------------------------------------

  /** A list analyzed after the result `ra` of the statements before it. */
  function Then(rev: Revision, ra: Result<CheckedList, SemanticError>, b: seq<AstNode>): Result<CheckedList, SemanticError>
  {
    match ra
    case Err(e) => Err(e)
    case Ok(da) =>
      match AnalyzeProgram(rev, da.env, b)
      case Err(e) => Err(e)
      case Ok(db) => Ok(CheckedList(db.env, da.nodes + db.nodes))
  }

  /** Analyzing `a + b` is analyzing `a`, then `b` in the state `a` left; the first error stops both. */
  lemma {:induction false} ProgramAppend(rev: Revision, env: Env, a: seq<AstNode>, b: seq<AstNode>)
    ensures AnalyzeProgram(rev, env, a + b) == Then(rev, AnalyzeProgram(rev, env, a), b)
    decreases |a|
  {
    if |a| == 0 {
      assert a + b == b;
      match AnalyzeProgram(rev, env, b)
      case Err(e) =>
      case Ok(db) => assert [] + db.nodes == db.nodes;
    } else {
      assert (a + b)[0] == a[0];
      assert (a + b)[1..] == a[1..] + b;
      match AnalyzeNode(rev, env, a[0])
      case Err(e) =>
      case Ok(first) =>
        ProgramAppend(rev, first.env, a[1..], b);
        match AnalyzeProgram(rev, first.env, a[1..])
        case Err(e) =>
        case Ok(da) =>
          match AnalyzeProgram(rev, da.env, b)
          case Err(e) =>
          case Ok(db) => assert [first.node] + (da.nodes + db.nodes) == ([first.node] + da.nodes) + db.nodes;
    }
  }
}
