/**
 * The semantic analyzer's walk over a program: `let`, assignment, `if`,
 * `print`, `return`, function declarations, and expressions used as
 * statements, each checked in source order under the state the previous
 * statement left. The walk also writes back what it learns: the inferred
 * type and reference-count flag of each `let`, and the return type and
 * implicit `return` of a function declared without one.
 */
module Analyzer {
  import opened Wrappers
  import opened Text
  import opened Ast
  import opened Semantic
  import opened Typing
  import opened Revisions

  const Keywords: seq<string> :=
    ["let", "var", "fn", "import", "struct", "enum", "map", "if", "else", "for", "in",
     "return", "break", "continue", "Some", "print", "true", "false"]

  const UnwrapMessage := "called `Option::unwrap()` on a `None` value"

  /** A name that may be bound: not empty, not reserved, not starting with a decimal digit. */
  predicate IsValidIdentifier(name: string)
  {
    |name| > 0 && name !in Keywords && !IsDigit(name[0])
  }

  // ---------------------------------------------------------------------------
  // Patterns and assignment targets
  // ---------------------------------------------------------------------------

  /** The leaves of a pattern, left to right, with the tuple nesting removed. */
  function FlattenPattern(p: Pattern): (r: seq<Pattern>)
    ensures forall i | 0 <= i < |r| :: !r[i].Tuple?
    ensures !p.Tuple? ==> r == [p]
    decreases p
  {
    match p
    case Tuple(items) => FlattenAll(items)
    case _ => [p]
  }

  /** The leaves of each pattern in turn. */
  function FlattenAll(items: seq<Pattern>): (r: seq<Pattern>)
    ensures forall i | 0 <= i < |r| :: !r[i].Tuple?
    decreases items
  {
    if |items| == 0 then [] else FlattenPattern(items[0]) + FlattenAll(items[1..])
  }

  /** A leaf that may be assigned to: a valid name or `_`. */
  predicate ValidTarget(q: Pattern)
  {
    (q.Identifier? && IsValidIdentifier(q.name)) || q.Wildcard?
  }

  /** The first leaf that may not be assigned to. */
  function FirstInvalid(targets: seq<Pattern>): (r: Option<Pattern>)
    ensures r.None? <==> forall i | 0 <= i < |targets| :: ValidTarget(targets[i])
    ensures r.Some? ==> r.value in targets && !ValidTarget(r.value)
  {
    if |targets| == 0 then None
    else if !ValidTarget(targets[0]) then Some(targets[0])
    else FirstInvalid(targets[1..])
  }

  /** `collect_and_validate_targets`: the leaves of the pattern, each checked in order. */
  function CollectTargets(p: Pattern): (r: Result<seq<Pattern>, SemanticError>)
    ensures r.Ok? <==> forall i | 0 <= i < |FlattenPattern(p)| :: ValidTarget(FlattenPattern(p)[i])
    ensures r.Ok? ==> r.value == FlattenPattern(p)
    ensures r.Err? ==> r.error.InvalidAssignmentTarget?
  {
    var targets := FlattenPattern(p);
    var bad := FirstInvalid(targets);
    if bad.None? then Ok(targets)
    else if bad.value.Identifier? then Err(InvalidAssignmentTarget(Text(bad.value.name)))
    else Err(InvalidAssignmentTarget(DebugPattern(bad.value)))
  }

  // ---------------------------------------------------------------------------
  // Calls and right-hand sides
  // ---------------------------------------------------------------------------

  /** A return type as a list of values: the elements of a tuple, otherwise the type alone. */
  function Spread(t: TypeNode): (r: seq<TypeNode>)
    ensures t.Tuple? ==> r == t.elems
    ensures !t.Tuple? ==> r == [t]
  {
    if t.Tuple? then t.elems else [t]
  }

  /** The error `check_function_call` reports for a bad argument. */
  function ArgumentError(name: string, d: Discrepancy): SemanticError
  {
    match d
    case Failed(e) => e
    case Differs(expected, found) => FunctionArgumentTypeMismatch(name, expected, found)
  }

  /**
   * `check_function_call`: the callee must be a declared name, the argument
   * count must match, and each argument, in order, must have its
   * parameter's type; the result is the return type spread into values.
   */
  function CheckFunctionCall(env: Env, callee: AstNode, args: seq<AstNode>): (r: Result<seq<TypeNode>, SemanticError>)
    ensures !callee.Identifier? ==> r == Err(InvalidFunctionCall(DebugNode(callee)))
    ensures callee.Identifier? && callee.name !in env.functions ==> r == Err(UndeclaredFunction(callee.name))
    ensures callee.Identifier? && callee.name in env.functions && |args| != |env.functions[callee.name].params|
            ==> r == Err(FunctionArgumentMismatch(callee.name, |env.functions[callee.name].params|, |args|))
    ensures r.Ok? ==> callee.Identifier? && callee.name in env.functions && r.value == Spread(env.functions[callee.name].ret)
  {
    if !callee.Identifier? then Err(InvalidFunctionCall(DebugNode(callee)))
    else if callee.name !in env.functions then Err(UndeclaredFunction(callee.name))
    else
      var sig := env.functions[callee.name];
      if |args| != |sig.params| then Err(FunctionArgumentMismatch(callee.name, |sig.params|, |args|))
      else
        var d := FirstDiscrepancy(env, args, sig.params);
        if d.Some? then Err(ArgumentError(callee.name, d.value)) else Ok(Spread(sig.ret))
  }

  /**
   * `infer_rhs_types`: the types a right-hand side provides. A call or a
   * tuple literal may provide several; anything else provides one, and is
   * rejected when more than one target waits for it.
   */
  function InferRhsTypes(env: Env, value: AstNode, lhsCount: nat): (r: Result<seq<TypeNode>, SemanticError>)
    ensures !value.FunctionCall? && !value.TupleLiteral? && lhsCount > 1 ==> r == Err(InvalidFunctionCall(DebugNode(value)))
    ensures !value.FunctionCall? && !value.TupleLiteral? && lhsCount <= 1 && r.Ok?
            ==> |r.value| == 1 && InferType(env, value) == Ok(r.value[0])
    ensures value.TupleLiteral? && r.Ok? ==> |r.value| == |value.elements|
  {
    match value
    case FunctionCall(callee, args) => CheckFunctionCall(env, callee, args)
    case TupleLiteral(es) => InferAll(env, es)
    case _ =>
      if lhsCount > 1 then Err(InvalidFunctionCall(DebugNode(value)))
      else
        var t :- InferType(env, value);
        Ok([t])
  }

  /** Some target among the first `min(|targets|, |types|)` is the name `n`, and `n` is not `_`. */
  predicate Binds(targets: seq<Pattern>, types: seq<TypeNode>, n: string)
    decreases |targets|
  {
    |targets| > 0 && |types| > 0
    && ((targets[0] == Pattern.Identifier(n) && n != "_") || Binds(targets[1..], types[1..], n))
  }

  /** What an assignment records about a name: its new type, mutable. */
  function Assigned(t: TypeNode): SymbolInfo
  {
    SymbolInfo(t, true, RefCounted(t), false)
  }

  /**
   * `bind_targets`: each name paired with a type is (re)bound to it; `_`
   * and wildcards are skipped; extra targets or types are ignored.
   */
  function BindTargets(env: Env, targets: seq<Pattern>, types: seq<TypeNode>): (r: Env)
    ensures SameFrame(env, r)
    ensures forall n :: n in r.symbols <==> n in env.symbols || Binds(targets, types, n)
    ensures forall n | n in env.symbols && !Binds(targets, types, n) :: r.symbols[n] == env.symbols[n]
    decreases |targets|
  {
    if |targets| == 0 || |types| == 0 then env
    else
      var next :=
        if targets[0].Identifier? && targets[0].name != "_"
        then env.(symbols := env.symbols[targets[0].name := Assigned(types[0])])
        else env;
      BindTargets(next, targets[1..], types[1..])
  }

  /** `analyze_assignment`: targets, then the right-hand side, then the counts must agree. */
  function AnalyzeAssignment(env: Env, pattern: Pattern, value: AstNode): (r: Result<Env, SemanticError>)
    ensures r.Ok? ==> CollectTargets(pattern).Ok?
    ensures r.Ok? ==> var n := |FlattenPattern(pattern)|;
                      InferRhsTypes(env, value, n).Ok? && |InferRhsTypes(env, value, n).value| == n
    ensures r.Ok? ==> r.value == BindTargets(env, FlattenPattern(pattern), InferRhsTypes(env, value, |FlattenPattern(pattern)|).value)
    ensures CollectTargets(pattern).Err? ==> r == Err(CollectTargets(pattern).error)
    ensures var n := |FlattenPattern(pattern)|;
            CollectTargets(pattern).Ok? && InferRhsTypes(env, value, n).Ok? && |InferRhsTypes(env, value, n).value| != n
            ==> r == Err(TupleAssignmentMismatch(|InferRhsTypes(env, value, n).value|, n))
  {
    var targets :- CollectTargets(pattern);
    var rhs :- InferRhsTypes(env, value, |targets|);
    if |rhs| != |targets| then Err(TupleAssignmentMismatch(|rhs|, |targets|))
    else Ok(BindTargets(env, targets, rhs))
  }

  // ---------------------------------------------------------------------------
  // let
  // ---------------------------------------------------------------------------

  function UnderscoreMessage(name: string): string
  {
    "Variable names starting with underscore are not allowed: '" + name + "'"
  }

  /** A name bound at the top scope clashes with an existing variable that is not a parameter. */
  predicate Redeclares(env: Env, name: string)
  {
    env.scopes == 0 && name in env.symbols && !env.symbols[name].isParameter
  }

  /**
   * The binding loop of `analyze_let_decl`: names starting with `_` are
   * rejected, a redeclaration at the top scope is rejected, every other
   * name is bound in order; wildcards are skipped.
   */
  function BindLet(env: Env, mutable: bool, targets: seq<Pattern>, types: seq<TypeNode>): (r: Result<Env, SemanticError>)
    requires |targets| == |types|
    ensures r.Ok? ==> SameFrame(env, r.value)
    decreases |targets|
  {
    if |targets| == 0 then Ok(env)
    else
      match targets[0]
      case Identifier(name) =>
        if StartsWith(name, "_") then Err(InvalidAssignmentTarget(Text(UnderscoreMessage(name))))
        else if name != "_" && Redeclares(env, name) then Err(VariableRedeclaration(name))
        else
          var next :=
            if name != "_"
            then env.(symbols := env.symbols[name := SymbolInfo(types[0], mutable, RefCounted(types[0]), false)])
            else env;
          BindLet(next, mutable, targets[1..], types[1..])
      case Wildcard => BindLet(env, mutable, targets[1..], types[1..])
      case _ => Err(InvalidAssignmentTarget(DebugPattern(targets[0])))
  }

  /** The declaration with its inferred type and reference-count flag written in. */
  function Annotate(n: AstNode, t: TypeNode): AstNode
    requires n.LetDecl?
  {
    n.(typeAnnotation := Some(t), isRefCounted := Some(RefCounted(t)))
  }

  /**
   * The type a `let` declares from the types its right-hand side provides.
   * As written it is always the first of them, so a call or tuple providing
   * several is cut to one; fixed, several values declare their tuple.
   */
  function LetType(rev: Revision, rhs: seq<TypeNode>): (t: TypeNode)
    requires |rhs| > 0
    ensures rev == AsWritten ==> t == rhs[0]
    ensures rev == Fixed && |rhs| != 1 ==> Spread(t) == rhs
  {
    if rev == AsWritten || |rhs| == 1 then rhs[0] else TypeNode.Tuple(rhs)
  }

  /**
   * `analyze_let_decl`: the declared type comes from the right-hand side;
   * an annotation must equal it; the targets are then matched against the
   * declared type, spread if it is a tuple, and bound in order.
   */
  function AnalyzeLet(rev: Revision, env: Env, n: AstNode): (r: Result<Checked, SemanticError>)
    requires n.LetDecl?
    ensures r.Ok? ==> r.value.node.LetDecl? && r.value.node.typeAnnotation.Some?
    ensures r.Ok? ==> r.value.node == Annotate(n, r.value.node.typeAnnotation.value)
    ensures r.Ok? && n.typeAnnotation.Some? ==> r.value.node.typeAnnotation == n.typeAnnotation
    ensures r.Ok? ==> |FlattenPattern(n.pattern)| == |Spread(r.value.node.typeAnnotation.value)|
    ensures r.Ok? ==> SameFrame(env, r.value.env)
  {
    var rhsList :- InferRhsTypes(env, n.value, 1);
    if |rhsList| == 0 then Err(VarTypeMismatch(TypeMismatch(n.typeAnnotation.UnwrapOr(Int), Void, Some(n.value))))
    else
      var rhs := LetType(rev, rhsList);
      if n.typeAnnotation.Some? && rhs != n.typeAnnotation.value then
        Err(VarTypeMismatch(TypeMismatch(n.typeAnnotation.value, rhs, Some(n.value))))
      else
        var targets :- CollectTargets(n.pattern);
        var rhsTypes := Spread(rhs);
        if |rhsTypes| != |targets| then Err(TupleAssignmentMismatch(|rhsTypes|, |targets|))
        else
          var bound :- BindLet(env, n.mutable, targets, rhsTypes);
          Ok(Checked(bound, Annotate(n, rhs)))
  }

  // ---------------------------------------------------------------------------
  // Functions: registration, parameters, returns
  // ---------------------------------------------------------------------------

  /** The declared parameter types, in order. */
  function ParamTypes(params: Params): (r: seq<TypeNode>)
    requires AllAnnotated(params)
    ensures |r| == |params| && forall i | 0 <= i < |params| :: params[i].1 == Some(r[i])
  {
    if |params| == 0 then []
    else
      assert forall i | 0 <= i < |params| - 1 :: params[1..][i] == params[i + 1];
      [params[0].1.value] + ParamTypes(params[1..])
  }

  /**
   * Registration before the body is analyzed: a second declaration of a
   * name is rejected whatever its signature; a declaration without a
   * return type is registered as returning Void.
   */
  function Register(env: Env, name: string, params: Params, ret: Option<TypeNode>): (r: Result<Env, SemanticError>)
    ensures name in env.functions ==> r == Err(FunctionRedeclaration(name))
    ensures r.Ok? <==> name !in env.functions && AllAnnotated(params)
    ensures r.Ok? ==> r.value == env.(functions := env.functions[name := Signature(ParamTypes(params), ret.UnwrapOr(Void))])
  {
    if name in env.functions then Err(FunctionRedeclaration(name))
    else if !AllAnnotated(params) then Err(Panic(UnwrapMessage))
    else Ok(env.(functions := env.functions[name := Signature(ParamTypes(params), ret.UnwrapOr(Void))]))
  }

  /** What a parameter is recorded as: its type, mutable, a parameter. */
  function ParamInfo(t: TypeNode): SymbolInfo
  {
    SymbolInfo(t, true, RefCounted(t), true)
  }

  /** The parameters from the first on, added to `scope` in order: each must have a type and a new name. */
  function ParamScope(params: Params, scope: map<string, SymbolInfo>): (r: Result<map<string, SymbolInfo>, SemanticError>)
    ensures r.Ok? ==> forall k | k in scope :: k in r.value && r.value[k] == scope[k]
    ensures r.Err? ==> r.error.MissingParamType? || r.error.FunctionParamRedeclaration?
    decreases |params|
  {
    if |params| == 0 then Ok(scope)
    else
      var (pname, ty) := params[0];
      if ty.None? then Err(MissingParamType(pname))
      else if pname in scope then Err(FunctionParamRedeclaration(pname))
      else ParamScope(params[1..], scope[pname := ParamInfo(ty.value)])
  }

  /** A return at the top level of the body that carries values. */
  predicate ReturnsValue(body: seq<AstNode>)
  {
    exists i | 0 <= i < |body| :: body[i].Return? && |body[i].values| > 0
  }

  /**
   * A body without a declared return type: no top-level return may carry a
   * value, and a non-empty body not ending in `return` gets an empty one.
   */
  function VoidBody(fname: string, body: seq<AstNode>): (r: Result<seq<AstNode>, SemanticError>)
    ensures r.Ok? <==> !ReturnsValue(body)
    ensures r.Err? ==> r.error == InvalidReturnInVoidFunction(fname)
    ensures r.Ok? ==> SizeList(r.value) <= SizeList(body) + 1
  {
    if ReturnsValue(body) then Err(InvalidReturnInVoidFunction(fname))
    else if |body| > 0 && !body[|body| - 1].Return? then
      assert [Return([])][1..] == [];
      SizeListAppend(body, [Return([])]);
      Ok(body + [Return([])])
    else Ok(body)
  }

  /** Some statement of the list always returns. */
  predicate HasReturn(nodes: seq<AstNode>)
    decreases nodes
  {
    |nodes| > 0 && (NodeReturns(nodes[0]) || HasReturn(nodes[1..]))
  }

  /**
   * The statement always returns: a `return`, a block that has one, or an
   * `if` whose then-block and else-branch both do. The else-branch is
   * checked as the one-statement list the source builds for it.
   */
  predicate NodeReturns(n: AstNode)
    decreases n
  {
    match n
    case Return(_) => true
    case ConditionalStmt(_, thenBlock, elseBranch) =>
      HasReturn(thenBlock) && elseBranch.Some? && NodeReturns(elseBranch.value)
    case Block(items) => HasReturn(items)
    case _ => false
  }

  /** The error `verify_single_return` reports for a bad value. */
  function ReturnError(fname: string, d: Discrepancy): SemanticError
  {
    match d
    case Failed(e) => e
    case Differs(expected, found) => ReturnTypeMismatch(fname, Mismatch(expected, found))
  }

  /** A count mismatch reports the types of all returned values, or the first error typing them. */
  function CountMismatch(env: Env, values: seq<AstNode>, expected: TypeNode, fname: string): SemanticError
  {
    match InferAll(env, values)
    case Err(e) => e
    case Ok(ts) => ReturnTypeMismatch(fname, Mismatch(expected, TypeNode.Tuple(ts)))
  }

  /**
   * `verify_single_return`: a tuple return type needs as many values as it
   * has elements, each of its element's type; any other return type needs
   * exactly one value of that type.
   */
  function ReturnMismatch(env: Env, values: seq<AstNode>, expected: TypeNode, fname: string): Option<SemanticError>
  {
    if expected.Tuple? then
      if |values| != |expected.elems| then Some(CountMismatch(env, values, expected, fname))
      else
        var d := FirstDiscrepancy(env, values, expected.elems);
        if d.Some? then Some(ReturnError(fname, d.value)) else None
    else if |values| != 1 then Some(CountMismatch(env, values, expected, fname))
    else
      match InferType(env, values[0])
      case Err(e) => Some(e)
      case Ok(t) => if t != expected then Some(ReturnTypeMismatch(fname, Mismatch(expected, t))) else None
  }

  /** `verify_return_types`: every `return` reachable through blocks and `if` branches, in order. */
  function BadReturn(env: Env, nodes: seq<AstNode>, expected: TypeNode, fname: string): Option<SemanticError>
    decreases nodes
  {
    if |nodes| == 0 then None
    else
      var first := BadReturnIn(env, nodes[0], expected, fname);
      if first.Some? then first else BadReturn(env, nodes[1..], expected, fname)
  }

  function BadReturnIn(env: Env, n: AstNode, expected: TypeNode, fname: string): Option<SemanticError>
    decreases n
  {
    match n
    case Return(values) => ReturnMismatch(env, values, expected, fname)
    case ConditionalStmt(_, thenBlock, elseBranch) =>
      var inThen := BadReturn(env, thenBlock, expected, fname);
      if inThen.Some? || elseBranch.None? then inThen
      else if elseBranch.value.Block? then BadReturn(env, elseBranch.value.stmts, expected, fname)
      else BadReturnIn(env, elseBranch.value, expected, fname)
    case Block(items) => BadReturn(env, items, expected, fname)
    case _ => None
  }

  // ---------------------------------------------------------------------------
  // Structs and enums
  // ---------------------------------------------------------------------------

  /** The names of a list of named entries. */
  function Names<V>(entries: seq<(string, V)>): (r: seq<string>)
    ensures |r| == |entries| && forall i | 0 <= i < |entries| :: r[i] == entries[i].0
  {
    if |entries| == 0 then [] else [entries[0].0] + Names(entries[1..])
  }

  /** The first name, scanning left to right, that has already occurred (or is in `seen`). */
  function FirstRepeat(names: seq<string>, seen: set<string>): Option<string>
    decreases |names|
  {
    if |names| == 0 then None
    else if names[0] in seen then Some(names[0])
    else FirstRepeat(names[1..], seen + {names[0]})
  }

  /** The entries as a map, later entries replacing earlier ones. */
  function ToMap<V>(entries: seq<(string, V)>): (r: map<string, V>)
    ensures r.Keys == set i | 0 <= i < |entries| :: entries[i].0
    decreases |entries|
  {
    if |entries| == 0 then map[]
    else
      var rest := ToMap(entries[..|entries| - 1]);
      var last := entries[|entries| - 1];
      assert forall i | 0 <= i < |entries| - 1 :: entries[..|entries| - 1][i] == entries[i];
      rest[last.0 := last.1]
  }

  /** `analyze_struct`: a new name, no field twice; the struct is recorded as a reference-counted symbol. */
  function AnalyzeStruct(env: Env, name: string, fields: seq<(string, TypeNode)>): (r: Result<Env, SemanticError>)
    ensures name in env.symbols ==> r == Err(StructRedeclaration(name))
    ensures r.Ok? ==> r.value == env.(symbols := env.symbols[name := SymbolInfo(Struct(name, ToMap(fields)), false, true, false)])
  {
    if name in env.symbols then Err(StructRedeclaration(name))
    else
      match FirstRepeat(Names(fields), {})
      case Some(f) => Err(DuplicateField(name, f))
      case None => Ok(env.(symbols := env.symbols[name := SymbolInfo(Struct(name, ToMap(fields)), false, true, false)]))
  }

  /** `analyze_enum`: a new name, no variant twice; the enum is recorded as a reference-counted symbol. */
  function AnalyzeEnum(env: Env, name: string, variants: seq<(string, Option<TypeNode>)>): (r: Result<Env, SemanticError>)
    ensures name in env.symbols ==> r == Err(EnumRedeclaration(name))
    ensures r.Ok? ==> r.value == env.(symbols := env.symbols[name := SymbolInfo(Enum(name, ToMap(variants)), false, true, false)])
  {
    if name in env.symbols then Err(EnumRedeclaration(name))
    else
      match FirstRepeat(Names(variants), {})
      case Some(v) => Err(DuplicateEnumVariant(name, v))
      case None => Ok(env.(symbols := env.symbols[name := SymbolInfo(Enum(name, ToMap(variants)), false, true, false)]))
  }

  // ---------------------------------------------------------------------------
  // The walk
  // ---------------------------------------------------------------------------

  /** The state after a statement, and the statement with what the analyzer wrote into it. */
  datatype Checked = Checked(env: Env, node: AstNode)

  /** The state after a list of statements, and the statements as rewritten. */
  datatype CheckedList = CheckedList(env: Env, nodes: seq<AstNode>)

  /** The types `print` accepts. */
  predicate Printable(t: TypeNode)
  {
    t.Int? || t.Float? || t.Bool? || t.String? || t.Array? || t.Map? || t.Tuple?
  }

  /** `analyze_program`: the statements in order, each under the state the previous one left; the first error stops it. */
  function AnalyzeProgram(rev: Revision, env: Env, nodes: seq<AstNode>): (r: Result<CheckedList, SemanticError>)
    ensures r.Ok? ==> |r.value.nodes| == |nodes|
    ensures r.Ok? ==> Keeps(env, r.value.env)
    decreases SizeList(nodes), 2
  {
    if |nodes| == 0 then Ok(CheckedList(env, []))
    else
      var first :- AnalyzeNode(rev, env, nodes[0]);
      var rest :- AnalyzeProgram(rev, first.env, nodes[1..]);
      Ok(CheckedList(rest.env, [first.node] + rest.nodes))
  }

  /** `analyze_node`: dispatch on the kind of statement. */
  function AnalyzeNode(rev: Revision, env: Env, n: AstNode): (r: Result<Checked, SemanticError>)
    ensures r.Ok? ==> Keeps(env, r.value.env)
    decreases Size(n), 1
  {
    match n
    case LetDecl(_, _, _, _, _) => AnalyzeLet(rev, env, n)
    case Block(items) =>
      var done :- AnalyzeProgram(rev, env, items);
      Ok(Checked(done.env, Block(done.nodes)))
    case Assignment(pattern, value) =>
      var after :- AnalyzeAssignment(env, pattern, value);
      Ok(Checked(after, n))
    case ConditionalStmt(_, _, _) => AnalyzeConditional(rev, env, n)
    case FunctionDecl(_, _, _, _, _) => AnalyzeFunction(rev, env, n)
    case Return(values) =>
      var types :- InferAll(env, values);
      Ok(Checked(env, n))
    case Print(exprs) =>
      var done :- AnalyzePrint(rev, env, exprs);
      Ok(Checked(done.env, Print(done.nodes)))
    case Break => Ok(Checked(env, n))
    case Continue => Ok(Checked(env, n))
    case _ =>
      var t :- InferType(env, n);
      Ok(Checked(env, n))
  }

  /** `analyze_conditional_stmt`: a Bool condition, then the then-block, then the else-branch under the state it left. */
  function AnalyzeConditional(rev: Revision, env: Env, n: AstNode): (r: Result<Checked, SemanticError>)
    requires n.ConditionalStmt?
    ensures r.Ok? ==> Keeps(env, r.value.env)
    decreases Size(n), 0
  {
    var c :- InferType(env, n.condition);
    if c != Bool then Err(InvalidConditionType(Mismatch(Bool, c)))
    else
      var thenDone :- AnalyzeProgram(rev, env, n.thenBlock);
      if n.elseBranch.None? then Ok(Checked(thenDone.env, n.(thenBlock := thenDone.nodes)))
      else
        var elseDone :- AnalyzeNode(rev, thenDone.env, n.elseBranch.value);
        Ok(Checked(elseDone.env, n.(thenBlock := thenDone.nodes, elseBranch := Some(elseDone.node))))
  }

  /** `analyze_print`: each expression must have a printable type, and is then analyzed as a statement. */
  function AnalyzePrint(rev: Revision, env: Env, exprs: seq<AstNode>): (r: Result<CheckedList, SemanticError>)
    ensures r.Ok? ==> Keeps(env, r.value.env)
    decreases SizeList(exprs), 2
  {
    if |exprs| == 0 then Ok(CheckedList(env, []))
    else
      var t :- InferType(env, exprs[0]);
      if !Printable(t) then Err(InvalidPrintType(t))
      else
        var first :- AnalyzeNode(rev, env, exprs[0]);
        var rest :- AnalyzePrint(rev, first.env, exprs[1..]);
        Ok(CheckedList(rest.env, [first.node] + rest.nodes))
  }

  /** Public functions must start with an upper-case letter. */
  predicate PublicNameOk(visibility: string, name: string)
  {
    visibility != "Public" || |name| == 0 || IsUppercase(name[0])
  }

  /** The state a function body is analyzed in: only the parameters visible, the caller's table saved. */
  function BodyEnv(env: Env, params: map<string, SymbolInfo>): Env
  {
    env.(outer := Some(env.symbols), symbols := params)
  }

  /**
   * The state after the body of a function declared in `caller`. As written
   * there is one slot for a saved table: it is put back if it is still
   * there and emptied, so after a nested declaration has emptied it the
   * enclosing function's own table stays in place. Fixed, the caller's
   * table and saved slot both come back.
   */
  function Restore(rev: Revision, caller: Env, done: Env): (r: Env)
    ensures r.functions == done.functions && r.scopes == done.scopes
    ensures rev == Fixed ==> r.symbols == caller.symbols && r.outer == caller.outer
    ensures rev == AsWritten && done.outer.Some? ==> r.symbols == done.outer.value && r.outer.None?
    ensures rev == AsWritten && done.outer.None? ==> r == done
  {
    if rev == Fixed then done.(symbols := caller.symbols, outer := caller.outer)
    else if done.outer.Some? then done.(symbols := done.outer.value, outer := None)
    else done
  }

  /** Every function known in `a` is known in `b` with the same signature. */
  predicate Keeps(a: Env, b: Env)
  {
    forall f | f in a.functions :: f in b.functions && b.functions[f] == a.functions[f]
  }

  /**
   * A function declaration: registration, the public-name rule, the
   * parameter scope, the Void rules for a function without a return type,
   * the body analyzed with only the parameters visible, the return checks,
   * and the caller's table restored.
   */
  function AnalyzeFunction(rev: Revision, env: Env, n: AstNode): (r: Result<Checked, SemanticError>)
    requires n.FunctionDecl?
    ensures r.Ok? ==> Keeps(env, r.value.env) && AllAnnotated(n.params) && n.name !in env.functions
    ensures r.Ok? ==> n.name in r.value.env.functions
                      && r.value.env.functions[n.name] == Signature(ParamTypes(n.params), n.returnType.UnwrapOr(Void))
    ensures rev == Fixed && r.Ok? ==> r.value.env.symbols == env.symbols && r.value.env.outer == env.outer
    decreases Size(n), 0
  {
    var registered :- Register(env, n.name, n.params, n.returnType);
    if !PublicNameOk(n.visibility, n.name) then Err(InvalidPublicName(n.name))
    else
      var scope :- ParamScope(n.params, map[]);
      var ret := n.returnType.UnwrapOr(Void);
      var body :- if n.returnType.None? then VoidBody(n.name, n.body) else Ok(n.body);
      if ret != Void && !HasReturn(body) then Err(MissingFunctionReturn(n.name))
      else
        var done :- AnalyzeProgram(rev, BodyEnv(registered, scope), body);
        var bad := if ret != Void then BadReturn(done.env, done.nodes, ret, n.name) else None;
        if bad.Some? then Err(bad.value)
        else Ok(Checked(Restore(rev, env, done.env), FunctionDecl(n.name, n.visibility, n.params, Some(ret), done.nodes)))
  }
}
