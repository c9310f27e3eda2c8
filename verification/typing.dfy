/**
 * `infer_type`: the type of an expression under the analyzer's state, or
 * the first error met while typing it. Operands are typed left to right and
 * the first failure is the result.
 */
module Typing {
  import opened Wrappers
  import opened Text
  import Tokens
  import opened Ast
  import opened Semantic

  const InterpolationMessage := "String interpolation with ${...} is not supported"
  const NegativeIndexMessage := "Array indices cannot be negative"

  /** `==`, `===`, `!=`, `!==`, `>`, `<`, `>=`, `<=`. */
  predicate IsComparison(op: Tokens.TokenType)
  {
    op == Tokens.EqEq || op == Tokens.EqEqEq || op == Tokens.NotEq || op == Tokens.NotEqEq
    || op == Tokens.Gt || op == Tokens.Lt || op == Tokens.GtEq || op == Tokens.LtEq
  }

  /** `..` and `..=`. */
  predicate IsRange(op: Tokens.TokenType)
  {
    op == Tokens.RangeExc || op == Tokens.RangeInc
  }

  /** `&&` and `||`. */
  predicate IsLogical(op: Tokens.TokenType)
  {
    op == Tokens.AndAnd || op == Tokens.OrOr
  }

  /** `+`, `-`, `*`, `/`, `%`. */
  predicate IsArithmetic(op: Tokens.TokenType)
  {
    op == Tokens.Plus || op == Tokens.Minus || op == Tokens.Star || op == Tokens.Slash || op == Tokens.Percent
  }

  /** An operator `infer_type` has a rule for. */
  predicate IsTyped(op: Tokens.TokenType)
  {
    IsComparison(op) || IsRange(op) || IsLogical(op) || IsArithmetic(op)
  }

  /** The types arithmetic is defined on; both operands must have the same one. */
  predicate Arithmetic(t: TypeNode)
  {
    t == Int || t == String || t == Float
  }

  /** The types a map literal's keys may have. */
  predicate MapKey(t: TypeNode)
  {
    t == Int || t == String || t == Bool
  }

  function Mismatch(expected: TypeNode, found: TypeNode): TypeMismatch
  {
    TypeMismatch(expected, found, None)
  }

  /** The operator rules, applied to the operand types. */
  function BinaryType(op: Tokens.TokenType, a: TypeNode, b: TypeNode): (r: Result<TypeNode, SemanticError>)
    ensures IsComparison(op) ==> (r.Ok? <==> a == b) && (r.Ok? ==> r.value == Bool)
    ensures IsComparison(op) && r.Err? ==> r.error == OperatorTypeMismatch(Mismatch(a, b))
    ensures IsRange(op) ==> (r.Ok? <==> a == Int && b == Int)
    ensures IsRange(op) && r.Ok? ==> r.value == Range(Int, Int, op == Tokens.RangeInc)
    ensures IsRange(op) && r.Err? ==> r.error.OperatorTypeMismatch? && r.error.mismatch.expected == Int
                                      && r.error.mismatch.found == (if a != Int then a else b)
    ensures IsLogical(op) ==> (r.Ok? <==> a == Bool && b == Bool) && (r.Ok? ==> r.value == Bool)
    ensures IsLogical(op) && r.Err? ==> r.error.OperatorTypeMismatch? && r.error.mismatch.expected == Bool
                                        && r.error.mismatch.found == (if a != Bool then a else b)
    ensures IsArithmetic(op) ==> (r.Ok? <==> a == b && Arithmetic(a)) && (r.Ok? ==> r.value == a)
    ensures IsArithmetic(op) && r.Err? ==> r.error == OperatorTypeMismatch(Mismatch(a, b))
    ensures !IsTyped(op) ==> r.Err? && r.error.Panic?
  {
    if IsComparison(op) then
      if a != b then Err(OperatorTypeMismatch(Mismatch(a, b))) else Ok(Bool)
    else if IsRange(op) then
      if a != Int || b != Int then Err(OperatorTypeMismatch(Mismatch(Int, if a != Int then a else b)))
      else Ok(Range(Int, Int, op == Tokens.RangeInc))
    else if IsLogical(op) then
      if a != Bool || b != Bool then Err(OperatorTypeMismatch(Mismatch(Bool, if a != Bool then a else b)))
      else Ok(Bool)
    else if IsArithmetic(op) then
      if (a == Int && b == Int) || (a == String && b == String) || (a == Float && b == Float) then Ok(a)
      else Err(OperatorTypeMismatch(Mismatch(a, b)))
    else Err(Panic("Operator " + Tokens.KindName(op) + " not handled"))
  }

  /** Unary `-` keeps a numeric type, `!` needs Bool; any other operator is rejected. */
  function UnaryType(op: Tokens.TokenType, t: TypeNode): (r: Result<TypeNode, SemanticError>)
    ensures op == Tokens.Minus ==> (r.Ok? <==> t == Int || t == Float) && (r.Ok? ==> r.value == t)
    ensures op == Tokens.Minus && r.Err? ==> r.error == OperatorTypeMismatch(Mismatch(Int, t))
    ensures op == Tokens.Bang ==> (r.Ok? <==> t == Bool) && (r.Ok? ==> r.value == Bool)
    ensures op == Tokens.Bang && r.Err? ==> r.error == OperatorTypeMismatch(Mismatch(Bool, t))
    ensures op != Tokens.Minus && op != Tokens.Bang ==> r.Err? && r.error.UnexpectedNode?
  {
    if op == Tokens.Minus then
      if t == Int || t == Float then Ok(t) else Err(OperatorTypeMismatch(Mismatch(Int, t)))
    else if op == Tokens.Bang then
      if t == Bool then Ok(Bool) else Err(OperatorTypeMismatch(Mismatch(Bool, t)))
    else Err(UnexpectedNode("Minus or Bang operator"))
  }

  /**
   * A name's type: from the current table; a name missing there but present
   * in the table saved around a function body is out of scope, any other
   * missing name is undeclared.
   */
  function IdentifierType(env: Env, name: string): (r: Result<TypeNode, SemanticError>)
    ensures r.Ok? <==> name in env.symbols
    ensures r.Ok? ==> r.value == env.symbols[name].ty
    ensures r.Err? ==> (r.error == OutOfScopeVariable(name) <==> env.outer.Some? && name in env.outer.value)
    ensures r.Err? ==> r.error == OutOfScopeVariable(name) || r.error == UndeclaredVariable(name)
  {
    if name in env.symbols then Ok(env.symbols[name].ty)
    else if env.outer.Some? && name in env.outer.value then Err(OutOfScopeVariable(name))
    else Err(UndeclaredVariable(name))
  }

  /** A call's type is the callee's declared return type; the arguments are not looked at here. */
  function CallType(env: Env, callee: AstNode): (r: Result<TypeNode, SemanticError>)
    ensures r.Ok? <==> callee.Identifier? && callee.name in env.functions
    ensures r.Ok? ==> r.value == env.functions[callee.name].ret
    ensures !callee.Identifier? ==> r == Err(InvalidFunctionCall(DebugNode(callee)))
    ensures callee.Identifier? && r.Err? ==> r == Err(UndeclaredFunction(callee.name))
  {
    if !callee.Identifier? then Err(InvalidFunctionCall(DebugNode(callee)))
    else if callee.name in env.functions then Ok(env.functions[callee.name].ret)
    else Err(UndeclaredFunction(callee.name))
  }

  /** A literal `-` in front of the index. */
  predicate NegativeIndex(index: AstNode)
  {
    index.UnaryExpr? && index.op == Tokens.Minus
  }

  /**
   * Indexing: a literal negative index is rejected, an array takes an Int
   * and yields its element type, a map takes its key type and yields its
   * value type, and nothing else can be indexed.
   */
  function AccessType(index: AstNode, base: TypeNode, key: TypeNode): (r: Result<TypeNode, SemanticError>)
    ensures NegativeIndex(index) ==> r == Err(InvalidAssignmentTarget(Text(NegativeIndexMessage)))
    ensures !NegativeIndex(index) && base.Array? ==> (r.Ok? <==> key == Int) && (r.Ok? ==> r.value == base.elem)
    ensures !NegativeIndex(index) && base.Map? ==> (r.Ok? <==> key == base.key) && (r.Ok? ==> r.value == base.value)
    ensures !base.Array? && !base.Map? ==> r.Err?
    ensures !NegativeIndex(index) && !base.Array? && !base.Map? ==> r == Err(OperatorTypeMismatch(Mismatch(Array(Int), base)))
  {
    if NegativeIndex(index) then Err(InvalidAssignmentTarget(Text(NegativeIndexMessage)))
    else
      match base
      case Array(elem) => if key != Int then Err(OperatorTypeMismatch(Mismatch(Int, key))) else Ok(elem)
      case Map(k, v) => if key != k then Err(OperatorTypeMismatch(Mismatch(k, key))) else Ok(v)
      case _ => Err(OperatorTypeMismatch(Mismatch(Array(Int), base)))
  }

  /** Why a list of expressions did not have the expected types: one failed to type, or one had another type. */
  datatype Discrepancy = Failed(error: SemanticError) | Differs(expected: TypeNode, found: TypeNode)

  /** The error an array or map literal reports for a discrepancy. */
  function AsVarMismatch(d: Discrepancy): SemanticError
  {
    match d
    case Failed(e) => e
    case Differs(expected, found) => VarTypeMismatch(Mismatch(expected, found))
  }

  /** `n` copies of `t`. */
  function Repeat(t: TypeNode, n: nat): (r: seq<TypeNode>)
    ensures |r| == n && forall i | 0 <= i < n :: r[i] == t
  {
    seq(n, _ => t)
  }

  /** The type of an expression, or the first error met while typing it. */
  function InferType(env: Env, n: AstNode): Result<TypeNode, SemanticError>
    decreases n, 1, 0
  {
    match n
    case NumberLiteral(_) => Ok(Int)
    case FloatLiteral(_) => Ok(Float)
    case StringLiteral(s) =>
      if Contains(s, "${") then Err(UndeclaredFunction(InterpolationMessage)) else Ok(String)
    case BoolLiteral(_) => Ok(Bool)
    case Identifier(name) => IdentifierType(env, name)
    case BinaryExpr(left, op, right) =>
      var a :- InferType(env, left);
      var b :- InferType(env, right);
      BinaryType(op, a, b)
    case UnaryExpr(op, e) =>
      var t :- InferType(env, e);
      UnaryType(op, t)
    case FunctionCall(callee, _) => CallType(env, callee)
    case ArrayLiteral(es) =>
      if |es| == 0 then Ok(Array(Int))
      else
        var first :- InferType(env, es[0]);
        var d := FirstDiscrepancy(env, es, Repeat(first, |es|));
        if d.Some? then Err(AsVarMismatch(d.value)) else Ok(Array(first))
    case MapLiteral(entries) =>
      if |entries| == 0 then Ok(Map(String, Int))
      else
        assert entries[0] in entries;
        var k :- InferType(env, entries[0].key);
        var v :- InferType(env, entries[0].value);
        if !MapKey(k) then Err(InvalidMapKeyType(k, Map(Int, String)))
        else
          var d := FirstEntryDiscrepancy(env, n, 0, k, v);
          if d.Some? then Err(AsVarMismatch(d.value)) else Ok(Map(k, v))
    case ElementAccess(collection, index) =>
      var base :- InferType(env, collection);
      var key :- InferType(env, index);
      AccessType(index, base, key)
    case _ => Ok(Void)
  }

  /** Each expression typed in order against its expected type: the first discrepancy, if any. */
  function FirstDiscrepancy(env: Env, es: seq<AstNode>, expected: seq<TypeNode>): Option<Discrepancy>
    requires |es| == |expected|
    decreases es
  {
    if |es| == 0 then None
    else
      match InferType(env, es[0])
      case Err(e) => Some(Failed(e))
      case Ok(t) =>
        if t != expected[0] then Some(Differs(expected[0], t))
        else FirstDiscrepancy(env, es[1..], expected[1..])
  }

  /**
   * The entries of map literal `n` from index `i` on, each key and then its
   * value typed in order against `k` and `v`: the first discrepancy, if any.
   */
  function FirstEntryDiscrepancy(env: Env, n: AstNode, i: nat, k: TypeNode, v: TypeNode): Option<Discrepancy>
    requires n.MapLiteral?
    decreases n, 0, |n.entries| - i
  {
    if i >= |n.entries| then None
    else
      assert n.entries[i] in n.entries;
      match InferType(env, n.entries[i].key)
      case Err(e) => Some(Failed(e))
      case Ok(kt) =>
        match InferType(env, n.entries[i].value)
        case Err(e) => Some(Failed(e))
        case Ok(vt) =>
          if kt != k then Some(Differs(k, kt))
          else if vt != v then Some(Differs(v, vt))
          else FirstEntryDiscrepancy(env, n, i + 1, k, v)
  }

  /** The types of a list of expressions, in order, or the first error. */
  function InferAll(env: Env, es: seq<AstNode>): (r: Result<seq<TypeNode>, SemanticError>)
    ensures r.Ok? ==> |r.value| == |es| && forall i | 0 <= i < |es| :: InferType(env, es[i]) == Ok(r.value[i])
    ensures (forall i | 0 <= i < |es| :: InferType(env, es[i]).Ok?) ==> r.Ok?
    ensures r.Err? ==> exists i | 0 <= i < |es| :: InferType(env, es[i]) == Err(r.error)
  {
    if |es| == 0 then Ok([])
    else
      var t :- InferType(env, es[0]);
      var rest :- InferAll(env, es[1..]);
      Ok([t] + rest)
  }
}
