/**
 * Properties of declaration and top-level lowering: which bindings are
 * retained and tracked, where a function's scope is released, and the
 * releases at the end of the globals.
 */
module MirDeclsProps {
  import opened Wrappers
  import opened Text
  import opened Ast
  import opened Revisions
  import opened Mir
  import opened MirBuilder
  import opened MirLower
  import opened MirLowerProps
  import opened MirDecls

  // ---------------------------------------------------------------------------
  // Rendered types
  // ---------------------------------------------------------------------------

  /** The variants that carry data. */
  predicate HasPayload(t: TypeNode)
  {
    !(t.Int? || t.Float? || t.String? || t.Bool? || t.Void?)
  }

  /** How derived `Debug` opens a type: the variant's name, then `(` when it carries data. */
  function Opening(t: TypeNode): string
  {
    match t
    case Int => "Int"
    case Float => "Float"
    case String => "String"
    case Bool => "Bool"
    case Void => "Void"
    case Array(_) => "Array("
    case Map(_, _) => "Map("
    case Tuple(_) => "Tuple("
    case Range(_, _, _) => "Range("
    case Struct(_, _) => "Struct("
    case Enum(_, _) => "Enum("
    case TypeRef(_) => "TypeRef("
  }

  /** `s` is `a`, then something, then a closing `)`. */
  predicate FramedBy(s: string, a: string)
  {
    |s| > |a| && s[..|a|] == a && s[|s| - 1] == ')'
  }

  /** `a`, then `m`, then `)`: framed by `a`. */
  lemma Framed(a: string, m: string)
    ensures FramedBy(a + m + ")", a)
  {
    assert (a + m + ")")[..|a|] == (a + (m + ")"))[..|a|];
  }

  /** The variants whose data are other types. */
  lemma NestedFramed(t: TypeNode)
    requires t.Array? || t.Map? || t.Tuple? || t.Range?
    ensures FramedBy(DebugType(t), Opening(t))
  {
    var a := Opening(t);
    match t
    case Array(e) =>
      Framed(a, DebugType(e));
    case Map(k, v) =>
      Framed(a, DebugType(k) + ", " + DebugType(v));
    case Tuple(ts) =>
      Framed(a, "[" + Join(seq(|ts|, i requires 0 <= i < |ts| => DebugType(ts[i])), ", ") + "]");
    case Range(lo, hi, inc) =>
      Framed(a, DebugType(lo) + ", " + DebugType(hi) + ", " + ShowBool(inc));
  }

  /** The variants whose data is a quoted name. */
  lemma NamedFramed(t: TypeNode)
    requires t.Struct? || t.Enum? || t.TypeRef?
    ensures FramedBy(DebugType(t), Opening(t))
  {
    Framed(Opening(t), "\"" + t.name + "\"");
  }

  /**
   * The type recorded in a MIR header names its variant the way derived
   * `Debug` does: a type without data prints as the bare variant name, any
   * other as the variant name and `(`, its data, and a closing `)`.
   */
  lemma DebugTypeVariant(t: TypeNode)
    ensures !HasPayload(t) ==> DebugType(t) == Opening(t)
    ensures HasPayload(t) ==> FramedBy(DebugType(t), Opening(t))
  {
    if t.Struct? || t.Enum? || t.TypeRef? {
      NamedFramed(t);
    } else if HasPayload(t) {
      NestedFramed(t);
    }
  }

  // ---------------------------------------------------------------------------
  // let
  // ---------------------------------------------------------------------------

  /** A temporary is never taken for a copy of a variable. */
  lemma TempIsNoCopy(v: string)
    requires IsTemp(v)
    ensures !IsCopy(v)
  {
  }

  /**
   * A `let` of one name retains it (`IncRef`) exactly when its type is
   * counted and the value is a copy of a variable; a value the
   * expression computes into a fresh temporary is never retained. A
   * counted binding is tracked in the innermost scope either way.
   */
  lemma {:induction false} LetRetainsCopiesOnly(b: Builder, n: AstNode)
    requires n.LetDecl? && n.pattern.Identifier?
    ensures var v := Expr(b, [], n.value);
            var x := n.pattern.name;
            IncRef(x) in MirDecls.LetDecl(b, n).code <==> NeedsRc(n.typeAnnotation) && IsCopy(v.name)
    ensures !n.value.Identifier? ==> IncRef(n.pattern.name) !in MirDecls.LetDecl(b, n).code
    ensures NeedsRc(n.typeAnnotation) && |b.rcTracked| > 0 ==> IsRcTracked(MirDecls.LetDecl(b, n).b, n.pattern.name)
  {
    var v := Expr(b, [], n.value);
    var x := n.pattern.name;
    var r := MirDecls.LetDecl(b, n);
    ExprSsa(b, [], n.value);
    assert v.code[0..] == v.code;
    assert IncRef(x) !in v.code by {
      forall j | 0 <= j < |v.code|
        ensures v.code[j] != IncRef(x)
      {
        assert Computes(v.code[j]);
      }
    }
    var base := v.code + [Assign(x, v.name, n.mutable)];
    assert IncRef(x) !in base;
    if !n.value.Identifier? {
      TempIsNoCopy(v.name);
    }
    if NeedsRc(n.typeAnnotation) && |b.rcTracked| > 0 {
      TrackedAfterTrack(v.b, x, x);
    }
  }

  /**
   * Destructuring from position `i` on: each identifier at position `j`
   * gets an extract of element `j` into a temporary, then an assignment
   * from that temporary, then an `IncRef` when `retain` holds; nothing
   * is retained otherwise.
   */
  lemma {:induction false} DestructureSpec(b: Builder, code: seq<Instr>, items: seq<Pattern>, i: nat, source: string,
                                           mutable: bool, retain: bool)
    ensures var r := Destructure(b, code, items, i, source, mutable, retain).1;
            forall j | i <= j < |items| && items[j].Identifier? ::
              exists p | |code| <= p && p + 1 < |r| ::
                && r[p].TupleExtract? && r[p].source == source && r[p].position == j
                && r[p + 1] == Assign(items[j].name, r[p].name, mutable)
                && (retain ==> p + 2 < |r| && r[p + 2] == IncRef(items[j].name))
    ensures var r := Destructure(b, code, items, i, source, mutable, retain).1;
            !retain ==> forall p | |code| <= p < |r| :: !r[p].IncRef?
    decreases |items| - i
  {
    if i < |items| {
      var r := Destructure(b, code, items, i, source, mutable, retain).1;
      if items[i].Identifier? {
        var t := NextTmp(b);
        var x := items[i].name;
        var extra := [TupleExtract(t.name, source, i), Assign(x, t.name, mutable)] + (if retain then [IncRef(x)] else []);
        DestructureSpec(t.b, code + extra, items, i + 1, source, mutable, retain);
        assert r == Destructure(t.b, code + extra, items, i + 1, source, mutable, retain).1;
        assert code + extra <= r;
        var p := |code|;
        assert r[p] == (code + extra)[p] == TupleExtract(t.name, source, i);
        assert r[p + 1] == (code + extra)[p + 1];
        if retain {
          assert r[p + 2] == (code + extra)[p + 2];
        } else {
          forall q | |code| <= q < |code + extra|
            ensures !r[q].IncRef?
          {
            assert r[q] == (code + extra)[q];
          }
        }
      } else {
        DestructureSpec(b, code, items, i + 1, source, mutable, retain);
      }
    }
  }

  // ---------------------------------------------------------------------------
  // Function clean-up
  // ---------------------------------------------------------------------------

  predicate DistinctNames(bs: seq<Block>)
  {
    forall i, j | 0 <= i < j < |bs| :: bs[i].name != bs[j].name
  }

  lemma {:induction false} ReleaseFirstSpec(bs: seq<Block>, target: string, decrefs: seq<Instr>, void: bool)
    requires DistinctNames(bs)
    ensures forall i | 0 <= i < |bs| ::
      ReleaseFirst(bs, target, decrefs, void)[i] == if bs[i].name == target then Released(bs[i], decrefs, void) else bs[i]
    decreases |bs|
  {
    if |bs| > 0 {
      var r := ReleaseFirst(bs, target, decrefs, void);
      if bs[0].name != target {
        ReleaseFirstSpec(bs[1..], target, decrefs, void);
        forall i | 1 <= i < |bs|
          ensures r[i] == if bs[i].name == target then Released(bs[i], decrefs, void) else bs[i]
        {
          assert r[i] == ReleaseFirst(bs[1..], target, decrefs, void)[i - 1];
          assert bs[1..][i - 1] == bs[i];
        }
      } else {
        forall i | 1 <= i < |bs|
          ensures r[i] == bs[i]
        {
          assert bs[i].name != bs[0].name;
        }
      }
    }
  }

  lemma {:induction false} ReleaseAllSpec(bs: seq<Block>, labels: seq<string>, decrefs: seq<Instr>, void: bool)
    requires DistinctNames(bs)
    requires forall i, j | 0 <= i < j < |labels| :: labels[i] != labels[j]
    ensures forall i | 0 <= i < |bs| ::
      ReleaseAll(bs, labels, decrefs, void)[i] == if bs[i].name in labels then Released(bs[i], decrefs, void) else bs[i]
    decreases |labels|
  {
    if |labels| > 0 {
      var once := ReleaseFirst(bs, labels[0], decrefs, void);
      ReleaseFirstSpec(bs, labels[0], decrefs, void);
      assert forall i | 0 <= i < |bs| :: once[i].name == bs[i].name;
      assert DistinctNames(once);
      assert forall i, j | 0 <= i < j < |labels[1..]| :: labels[1..][i] != labels[1..][j] by {
        forall i, j | 0 <= i < j < |labels[1..]|
          ensures labels[1..][i] != labels[1..][j]
        {
          assert labels[1..][i] == labels[i + 1] && labels[1..][j] == labels[j + 1];
        }
      }
      ReleaseAllSpec(once, labels[1..], decrefs, void);
      forall i | 0 <= i < |bs|
        ensures ReleaseAll(bs, labels, decrefs, void)[i] == if bs[i].name in labels then Released(bs[i], decrefs, void) else bs[i]
      {
        if bs[i].name == labels[0] {
          assert bs[i].name !in labels[1..] by {
            forall k | 0 <= k < |labels[1..]|
              ensures labels[1..][k] != labels[0]
            {
              assert labels[1..][k] == labels[k + 1];
            }
          }
        } else {
          assert bs[i].name in labels <==> bs[i].name in labels[1..] by {
            assert labels == [labels[0]] + labels[1..];
          }
        }
      }
    }
  }

  lemma {:induction false} OpenLabelsDistinct(bs: seq<Block>, entry: string)
    requires DistinctNames(bs)
    ensures forall i, j | 0 <= i < j < |OpenLabels(bs, entry)| :: OpenLabels(bs, entry)[i] != OpenLabels(bs, entry)[j]
    decreases |bs|
  {
    if |bs| > 0 {
      assert DistinctNames(bs[1..]) by {
        forall i, j | 0 <= i < j < |bs[1..]|
          ensures bs[1..][i].name != bs[1..][j].name
        {
          assert bs[1..][i] == bs[i + 1] && bs[1..][j] == bs[j + 1];
        }
      }
      OpenLabelsDistinct(bs[1..], entry);
      var rest := OpenLabels(bs[1..], entry);
      if bs[0].terminator.None? && bs[0].name != entry {
        forall k | 0 <= k < |bs[1..]|
          ensures bs[1..][k].name != bs[0].name
        {
          assert bs[1..][k] == bs[k + 1];
        }
        assert bs[0].name !in rest;
        var r := [bs[0].name] + rest;
        forall i, j | 0 <= i < j < |r|
          ensures r[i] != r[j]
        {
          assert r[j] == rest[j - 1];
          if i > 0 {
            assert r[i] == rest[i - 1];
          }
        }
      }
    }
  }

  /**
   * Where a function's scope is released. When statements added blocks,
   * every block other than the entry's that has no terminator gets the
   * releases and, in a void function, an empty `return`; every other
   * block is left alone. Otherwise the releases go to the first block,
   * which returns when the function is void and nothing ended it.
   */
  lemma CleanupPlacement(bs: seq<Block>, decrefs: seq<Instr>, entry: string, added: bool, void: bool)
    requires DistinctNames(bs)
    ensures added ==> forall i | 0 <= i < |bs| ::
      Cleanup(bs, decrefs, entry, added, void)[i]
        == if bs[i].terminator.None? && bs[i].name != entry then Released(bs[i], decrefs, void) else bs[i]
    ensures !added && |bs| > 0 ==>
      && Cleanup(bs, decrefs, entry, added, void)[1..] == bs[1..]
      && Cleanup(bs, decrefs, entry, added, void)[0].instrs == bs[0].instrs + decrefs
      && Cleanup(bs, decrefs, entry, added, void)[0].terminator
           == if void && bs[0].terminator.None? then Some(Instr.Return([])) else bs[0].terminator
  {
    if added {
      OpenLabelsDistinct(bs, entry);
      ReleaseAllSpec(bs, OpenLabels(bs, entry), decrefs, void);
      forall i | 0 <= i < |bs|
        ensures bs[i].name in OpenLabels(bs, entry) <==> bs[i].terminator.None? && bs[i].name != entry
      {
      }
    }
  }

  // ---------------------------------------------------------------------------
  // The top level
  // ---------------------------------------------------------------------------

  /** The variables the top-level `let`s hand to the global scope, in order. */
  function TrackedNames(nodes: seq<AstNode>): (r: seq<string>)
    decreases |nodes|
  {
    if |nodes| == 0 then []
    else (if Tracked(nodes[0]).Some? then [Tracked(nodes[0]).value] else []) + TrackedNames(nodes[1..])
  }

  lemma {:induction false} AfterItemsOneScope(s: seq<string>, nodes: seq<AstNode>)
    ensures AfterItems([s], nodes) == [s + TrackedNames(nodes)]
    decreases |nodes|
  {
    if |nodes| > 0 {
      var added := if Tracked(nodes[0]).Some? then [Tracked(nodes[0]).value] else [];
      var s' := s + added;
      assert AfterItem([s], nodes[0]) == [s'] by {
        if Tracked(nodes[0]).Some? {
          assert |[s]| - 1 == 0;
          assert [s][0 := s'] == [s'];
        } else {
          assert s' == s;
        }
      }
      AfterItemsOneScope(s', nodes[1..]);
      assert TrackedNames(nodes) == added + TrackedNames(nodes[1..]);
      assert s' + TrackedNames(nodes[1..]) == s + (added + TrackedNames(nodes[1..]));
    } else {
      assert s + TrackedNames(nodes) == s;
    }
  }

  /**
   * With one scope open, the globals end with one release per tracked
   * variable of that scope (those tracked before and those the top-level
   * `let`s add), last tracked first.
   */
  lemma GlobalsReleaseTracked(rev: Revision, b: Builder, nodes: seq<AstNode>)
    requires |b.rcTracked| == 1
    ensures var r := BuildProgram(rev, b, nodes);
            var vars := b.rcTracked[0] + TrackedNames(nodes);
            r.Ok? ==>
              var g := r.value.program.globals;
              && |g| >= |vars|
              && forall j | |g| - |vars| <= j < |g| :: g[j] == DecRef(vars[|g| - 1 - j])
  {
    var r := BuildProgram(rev, b, nodes);
    if r.Ok? {
      assert b.rcTracked == [b.rcTracked[0]];
      AfterItemsOneScope(b.rcTracked[0], nodes);
    }
  }
}
