/**
 * Properties of `infer_type`: the literal and operator rules, and the
 * all-elements characterisation of array and map literals.
 */
module TypingProps {
  import opened Wrappers
  import opened Text
  import Tokens
  import opened Ast
  import opened Semantic
  import opened Typing

  /** Every expression in `es` types as the matching entry of `expected`. */
  predicate AllTyped(env: Env, es: seq<AstNode>, expected: seq<TypeNode>)
    requires |es| == |expected|
  {
    forall i | 0 <= i < |es| :: InferType(env, es[i]) == Ok(expected[i])
  }

  /** `d` describes expression `i`, and every expression before it typed as expected. */
  predicate DiscrepancyAt(env: Env, es: seq<AstNode>, expected: seq<TypeNode>, i: nat, d: Discrepancy)
    requires |es| == |expected|
  {
    i < |es|
    && (forall j | 0 <= j < i :: InferType(env, es[j]) == Ok(expected[j]))
    && match InferType(env, es[i])
       case Err(e) => d == Failed(e)
       case Ok(t) => t != expected[i] && d == Differs(expected[i], t)
  }

  /** No discrepancy exactly when every expression has its expected type. */
  lemma {:induction false} NoDiscrepancy(env: Env, es: seq<AstNode>, expected: seq<TypeNode>)
    requires |es| == |expected|
    ensures FirstDiscrepancy(env, es, expected).None? <==> AllTyped(env, es, expected)
    decreases |es|
  {
    if |es| > 0 {
      NoDiscrepancy(env, es[1..], expected[1..]);
      if AllTyped(env, es, expected) {
        assert AllTyped(env, es[1..], expected[1..]) by {
          forall i | 0 <= i < |es| - 1 ensures InferType(env, es[1..][i]) == Ok(expected[1..][i]) {
            assert es[1..][i] == es[i + 1];
          }
        }
      }
      if FirstDiscrepancy(env, es, expected).None? {
        forall i | 0 <= i < |es| ensures InferType(env, es[i]) == Ok(expected[i]) {
          if i > 0 {
            assert es[1..][i - 1] == es[i];
          }
        }
      }
    }
  }

  /** A discrepancy reported is the one at the first expression that fails or differs. */
  lemma {:induction false} FirstDiscrepancyIsFirst(env: Env, es: seq<AstNode>, expected: seq<TypeNode>)
    requires |es| == |expected| && FirstDiscrepancy(env, es, expected).Some?
    ensures exists i: nat :: DiscrepancyAt(env, es, expected, i, FirstDiscrepancy(env, es, expected).value)
    decreases |es|
  {
    var d := FirstDiscrepancy(env, es, expected).value;
    if InferType(env, es[0]).Err? || InferType(env, es[0]).value != expected[0] {
      assert DiscrepancyAt(env, es, expected, 0, d);
    } else {
      FirstDiscrepancyIsFirst(env, es[1..], expected[1..]);
      var i: nat :| DiscrepancyAt(env, es[1..], expected[1..], i, d);
      assert es[1..][i] == es[i + 1];
      forall j | 0 <= j < i + 1 ensures InferType(env, es[j]) == Ok(expected[j]) {
        if j > 0 {
          assert es[1..][j - 1] == es[j];
        }
      }
      assert DiscrepancyAt(env, es, expected, i + 1, d);
    }
  }

  /** A non-empty array literal has type `[t]` exactly when every element has type `t`. */
  lemma ArrayLiteralType(env: Env, es: seq<AstNode>, t: TypeNode)
    requires |es| > 0
    ensures InferType(env, ArrayLiteral(es)) == Ok(Array(t)) <==> forall i | 0 <= i < |es| :: InferType(env, es[i]) == Ok(t)
  {
    NoDiscrepancy(env, es, Repeat(t, |es|));
    var first := InferType(env, es[0]);
    if first.Ok? {
      NoDiscrepancy(env, es, Repeat(first.value, |es|));
    }
  }

  /**
   * A non-empty array literal whose first element types as `t` is rejected
   * at its first element that fails to type or has another type.
   */
  lemma ArrayLiteralMismatch(env: Env, es: seq<AstNode>, t: TypeNode)
    requires |es| > 0 && InferType(env, es[0]) == Ok(t) && InferType(env, ArrayLiteral(es)).Err?
    ensures exists i: nat, d :: DiscrepancyAt(env, es, Repeat(t, |es|), i, d)
                           && InferType(env, ArrayLiteral(es)) == Err(AsVarMismatch(d))
  {
    var expected := Repeat(t, |es|);
    FirstDiscrepancyIsFirst(env, es, expected);
  }

  /** Every entry of map literal `n` from index `i` on has key type `k` and value type `v`. */
  predicate EntriesTyped(env: Env, n: AstNode, i: nat, k: TypeNode, v: TypeNode)
    requires n.MapLiteral?
  {
    forall j | i <= j < |n.entries| :: InferType(env, n.entries[j].key) == Ok(k) && InferType(env, n.entries[j].value) == Ok(v)
  }

  /** No discrepancy among the entries exactly when each has the expected key and value types. */
  lemma {:induction false} NoEntryDiscrepancy(env: Env, n: AstNode, i: nat, k: TypeNode, v: TypeNode)
    requires n.MapLiteral?
    ensures FirstEntryDiscrepancy(env, n, i, k, v).None? <==> EntriesTyped(env, n, i, k, v)
    decreases |n.entries| - i
  {
    if i < |n.entries| {
      NoEntryDiscrepancy(env, n, i + 1, k, v);
      FirstEntryStep(env, n, i, k, v);
      EntriesTypedStep(env, n, i, k, v);
    }
  }

  /** The scan passes entry `i` exactly when it has the expected types, and then continues. */
  lemma FirstEntryStep(env: Env, n: AstNode, i: nat, k: TypeNode, v: TypeNode)
    requires n.MapLiteral? && i < |n.entries|
    ensures FirstEntryDiscrepancy(env, n, i, k, v).None?
            <==> InferType(env, n.entries[i].key) == Ok(k) && InferType(env, n.entries[i].value) == Ok(v)
                 && FirstEntryDiscrepancy(env, n, i + 1, k, v).None?
  {
  }

  /** The entries from `i` are typed exactly when entry `i` is and those after it are. */
  lemma EntriesTypedStep(env: Env, n: AstNode, i: nat, k: TypeNode, v: TypeNode)
    requires n.MapLiteral? && i < |n.entries|
    ensures EntriesTyped(env, n, i, k, v)
            <==> InferType(env, n.entries[i].key) == Ok(k) && InferType(env, n.entries[i].value) == Ok(v)
                 && EntriesTyped(env, n, i + 1, k, v)
  {
  }

  /** A non-empty map literal with an admissible key type: all keys and all values must agree with the first entry. */
  lemma MapLiteralType(env: Env, entries: seq<Entry>, k: TypeNode, v: TypeNode)
    requires |entries| > 0 && MapKey(k)
    ensures InferType(env, MapLiteral(entries)) == Ok(Map(k, v))
            <==> forall j | 0 <= j < |entries| :: InferType(env, entries[j].key) == Ok(k) && InferType(env, entries[j].value) == Ok(v)
  {
    var n := MapLiteral(entries);
    NoEntryDiscrepancy(env, n, 0, k, v);
    var k0 := InferType(env, entries[0].key);
    var v0 := InferType(env, entries[0].value);
    if k0.Ok? && v0.Ok? {
      NoEntryDiscrepancy(env, n, 0, k0.value, v0.value);
    }
  }

  /** A first key of a type other than Int, String or Bool is rejected, whatever follows. */
  lemma MapLiteralBadKey(env: Env, entries: seq<Entry>, k: TypeNode, v: TypeNode)
    requires |entries| > 0 && InferType(env, entries[0].key) == Ok(k) && InferType(env, entries[0].value) == Ok(v)
    requires !MapKey(k)
    ensures InferType(env, MapLiteral(entries)) == Err(InvalidMapKeyType(k, Map(Int, String)))
  {
  }

  /** Empty literals have fixed types. */
  lemma EmptyLiterals(env: Env)
    ensures InferType(env, ArrayLiteral([])) == Ok(Array(Int))
    ensures InferType(env, MapLiteral([])) == Ok(Map(String, Int))
  {
  }

  /** The literal rules; a string is rejected exactly when it contains `${`. */
  lemma LiteralTypes(env: Env, n: int, f: string, s: string, b: bool)
    ensures InferType(env, NumberLiteral(n)) == Ok(Int)
    ensures InferType(env, FloatLiteral(f)) == Ok(Float)
    ensures InferType(env, BoolLiteral(b)) == Ok(Bool)
    ensures InferType(env, StringLiteral(s)).Ok? <==> !Contains(s, "${")
    ensures InferType(env, StringLiteral(s)).Ok? ==> InferType(env, StringLiteral(s)).value == String
  {
  }

  /** The left operand is typed first; with both typed, the operator rule decides. */
  lemma BinaryExprType(env: Env, left: AstNode, op: Tokens.TokenType, right: AstNode)
    ensures InferType(env, left).Err? ==> InferType(env, BinaryExpr(left, op, right)) == Err(InferType(env, left).error)
    ensures InferType(env, left).Ok? && InferType(env, right).Ok?
            ==> InferType(env, BinaryExpr(left, op, right)) == BinaryType(op, InferType(env, left).value, InferType(env, right).value)
  {
  }

  /** `infer_type` on a call reads only the callee's signature: the arguments may even be ill-typed. */
  lemma CallIgnoresArguments(env: Env, name: string, args: seq<AstNode>)
    requires name in env.functions
    ensures InferType(env, FunctionCall(AstNode.Identifier(name), args)) == Ok(env.functions[name].ret)
  {
  }
}
