/**
 * What the semantic analyzer knows while it walks a program: the variables
 * in scope, the function signatures, the table saved while a function body
 * is analyzed, and the errors it reports.
 */
module Semantic {
  import opened Wrappers
  import opened Ast

  /** Expected and found types of a mismatch, with the offending value where the analyzer keeps it. */
  datatype TypeMismatch = TypeMismatch(expected: TypeNode, found: TypeNode, value: Option<AstNode>)

  /** A `{:?}` rendering inside an error message, kept as the value rendered. */
  datatype Shown = Text(text: string) | DebugPattern(pattern: Pattern) | DebugNode(node: AstNode)

  datatype SemanticError =
    | VariableRedeclaration(name: string)
    | UndeclaredVariable(name: string)
    | OutOfScopeVariable(name: string)
    | UndeclaredFunction(name: string)
    | VarTypeMismatch(mismatch: TypeMismatch)
    | OperatorTypeMismatch(mismatch: TypeMismatch)
    | ReturnTypeMismatch(fnName: string, mismatch: TypeMismatch)
    | InvalidConditionType(mismatch: TypeMismatch)
    | InvalidMapKeyType(found: TypeNode, expected: TypeNode)
    | InvalidPublicName(name: string)
    | FunctionParamRedeclaration(name: string)
    | FunctionRedeclaration(name: string)
    | MissingParamType(name: string)
    | MissingFunctionReturn(fnName: string)
    | InvalidReturnInVoidFunction(fnName: string)
    | InvalidFunctionCall(callee: Shown)
    | InvalidAssignmentTarget(target: Shown)
    | TupleAssignmentMismatch(expectedCount: nat, foundCount: nat)
    | FunctionArgumentMismatch(name: string, expectedCount: nat, foundCount: nat)
    | FunctionArgumentTypeMismatch(name: string, expected: TypeNode, found: TypeNode)
    | UnexpectedNode(expectedNode: string)
    | InvalidPrintType(found: TypeNode)
    | StructRedeclaration(name: string)
    | DuplicateField(structName: string, field: string)
    | EnumRedeclaration(name: string)
    | DuplicateEnumVariant(enumName: string, variant: string)
      // an `unimplemented!` or `unwrap` that would abort the compiler
    | Panic(message: string)

  /** What the symbol table records about a name. */
  datatype SymbolInfo = SymbolInfo(ty: TypeNode, mutable: bool, isRefCounted: bool, isParameter: bool)

  /** Parameter types and return type of a declared function. */
  datatype Signature = Signature(params: seq<TypeNode>, ret: TypeNode)

  /**
   * The analyzer's state: the current symbol table, the function table, the
   * table saved while a function body is analyzed, and how many nested
   * scopes are open.
   */
  datatype Env = Env(symbols: map<string, SymbolInfo>, functions: map<string, Signature>,
                     outer: Option<map<string, SymbolInfo>>, scopes: nat)

  /** The state `SemanticAnalyzer::new` starts from. */
  function NewEnv(): Env
  {
    Env(map[], map[], None, 0)
  }

  /** The function table and the scope count, the parts of the state a variable binding leaves alone. */
  predicate SameFrame(a: Env, b: Env)
  {
    a.functions == b.functions && a.outer == b.outer && a.scopes == b.scopes
  }
}
