/**
 * The syntax tree the parser builds and the analyzer and MIR builder walk,
 * including the type nodes the analyzer writes back into it.
 */
module Ast {
  import opened Wrappers
  import Tokens

  /** Source-level and inferred types. */
  datatype TypeNode =
    | Int
    | Float
    | String
    | Bool
    | Array(elem: TypeNode)
    | Map(key: TypeNode, value: TypeNode)
    | Tuple(elems: seq<TypeNode>)
    | Void
    | Range(lo: TypeNode, hi: TypeNode, inclusive: bool)
    | Struct(name: string, fields: map<string, TypeNode>)
    | Enum(name: string, variants: map<string, Option<TypeNode>>)
    | TypeRef(name: string)

  /** The types whose values live behind a reference count: strings, arrays and maps. */
  predicate RefCounted(t: TypeNode)
  {
    t.String? || t.Array? || t.Map?
  }

  /** What a `let`, an assignment or a `for` binds. */
  datatype Pattern =
    | Identifier(name: string)
    | Tuple(items: seq<Pattern>)
    | Wildcard
    | EnumVariant(variant: string, inner: Pattern)

  /** A function's parameters: each a name and its declared type, if any. */
  type Params = seq<(string, Option<TypeNode>)>

  /** Every parameter carries a type. */
  predicate AllAnnotated(params: Params)
  {
    forall i | 0 <= i < |params| :: params[i].1.Some?
  }

  /** One `key: value` entry of a map literal. */
  datatype Entry = Entry(key: AstNode, value: AstNode)

  datatype AstNode =
    | TupleIdentifier(names: seq<string>)
    | Program(items: seq<AstNode>)
    | NumberLiteral(n: int)
    | FloatLiteral(text: string)
    | Identifier(name: string)
    | StringLiteral(s: string)
    | BoolLiteral(b: bool)
    | ArrayLiteral(elements: seq<AstNode>)
    | MapLiteral(entries: seq<Entry>)
    | UnaryExpr(op: Tokens.TokenType, expr: AstNode)
    | BinaryExpr(left: AstNode, op: Tokens.TokenType, right: AstNode)
    | ElementAccess(collection: AstNode, index: AstNode)
    | LetDecl(mutable: bool, typeAnnotation: Option<TypeNode>, pattern: Pattern,
              value: AstNode, isRefCounted: Option<bool>)
    | StructDecl(name: string, fields: seq<(string, TypeNode)>)
    | EnumDecl(name: string, variants: seq<(string, Option<TypeNode>)>)
    | ConditionalStmt(condition: AstNode, thenBlock: seq<AstNode>, elseBranch: Option<AstNode>)
    | Block(stmts: seq<AstNode>)
    | Return(values: seq<AstNode>)
    | Print(exprs: seq<AstNode>)
    | Break
    | Continue
    | Assignment(pattern: Pattern, value: AstNode)
    | FunctionDecl(name: string, visibility: string, params: seq<(string, Option<TypeNode>)>,
                   returnType: Option<TypeNode>, body: seq<AstNode>)
    | FunctionCall(func: AstNode, args: seq<AstNode>)
    | ForLoopStmt(pattern: Pattern, iterable: Option<AstNode>, body: seq<AstNode>)
    | TupleLiteral(elements: seq<AstNode>)

  /**
   * A size measure for walks that rebuild nodes on the way down: a function
   * body counts one more than its statements, so a body with one extra
   * `return` appended is still smaller than the declaration.
   */
  function Size(n: AstNode): (r: nat)
    decreases n
    ensures r >= 1
  {
    match n
    case Program(items) => 1 + SizeList(items)
    case ArrayLiteral(items) => 1 + SizeList(items)
    case MapLiteral(_) => 1 + SizeEntries(n, 0)
    case UnaryExpr(_, e) => 1 + Size(e)
    case BinaryExpr(l, _, r) => 1 + Size(l) + Size(r)
    case ElementAccess(a, i) => 1 + Size(a) + Size(i)
    case LetDecl(_, _, _, v, _) => 1 + Size(v)
    case ConditionalStmt(c, t, e) => 1 + Size(c) + SizeList(t) + (if e.Some? then Size(e.value) else 0)
    case Block(items) => 1 + SizeList(items)
    case Return(items) => 1 + SizeList(items)
    case Print(items) => 1 + SizeList(items)
    case Assignment(_, v) => 1 + Size(v)
    case FunctionDecl(_, _, _, _, body) => 2 + SizeList(body)
    case FunctionCall(f, args) => 1 + Size(f) + SizeList(args)
    case ForLoopStmt(_, it, body) => 1 + (if it.Some? then Size(it.value) else 0) + SizeList(body)
    case TupleLiteral(items) => 1 + SizeList(items)
    case _ => 1
  }

  function SizeList(ns: seq<AstNode>): (r: nat)
    decreases ns
    ensures |ns| > 0 ==> r >= Size(ns[0]) + |ns| - 1
  {
    if |ns| == 0 then 0 else Size(ns[0]) + SizeList(ns[1..])
  }

  /** The entries of map literal `n` from index `i` on. */
  function SizeEntries(n: AstNode, i: nat): nat
    requires n.MapLiteral?
    decreases n, |n.entries| - i
  {
    if i >= |n.entries| then 0
    else
      assert n.entries[i] in n.entries;
      Size(n.entries[i].key) + Size(n.entries[i].value) + SizeEntries(n, i + 1)
  }

  /** The list measure splits over concatenation. */
  lemma {:induction false} SizeListAppend(a: seq<AstNode>, b: seq<AstNode>)
    ensures SizeList(a + b) == SizeList(a) + SizeList(b)
    decreases |a|
  {
    if |a| > 0 {
      assert (a + b)[1..] == a[1..] + b;
      SizeListAppend(a[1..], b);
    } else {
      assert a + b == b;
    }
  }

  /** Every element is no bigger than its list. */
  lemma {:induction false} SizeListElement(ns: seq<AstNode>, i: nat)
    requires i < |ns|
    ensures Size(ns[i]) <= SizeList(ns)
    decreases i
  {
    if i > 0 {
      SizeListElement(ns[1..], i - 1);
    }
  }
}
