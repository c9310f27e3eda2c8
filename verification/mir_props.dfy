/**
 * Properties of the MIR: what its rendering shows and what `finalize`
 * keeps.
 */
module MirProps {
  import opened Wrappers
  import opened Text
  import opened Mir
  import opened MirBuilder

  // ---------------------------------------------------------------------------
  // Display
  // ---------------------------------------------------------------------------

  lemma NoEqualsInUnimplemented()
    ensures forall k | 0 <= k < |Unimplemented| :: Unimplemented[k] != '='
  {
  }

  lemma StartsLet(i: Instr)
    requires i.ConstInt? || i.ConstBool? || i.ConstString? || i.Array? || i.Map? || i.Call? || i.Add?
             || i.Sub? || i.Mul? || i.Div? || i.BinaryOp? || i.TupleExtract? || i.ArrayLen? || i.ArrayGet?
             || i.RangeCreate?
    ensures ShowInstr(i)[0] == 'L'
  {
  }

  lemma StartsKeyword(i: Instr)
    requires i.Arg? || i.Return? || i.Jump? || i.CondJump? || i.Print?
    ensures ShowInstr(i)[0] != '<'
  {
  }

  lemma {:induction false} ShowsEquals(i: Instr)
    requires i.Assign? || i.StructInit? || i.EnumInit?
    ensures ShowInstr(i) != Unimplemented
  {
    NoEqualsInUnimplemented();
    var s := ShowInstr(i);
    match i
    case Assign(n, v, m) =>
      var p := if m then "mut " else "";
      assert s == p + n + " = " + v;
      assert s[|p| + |n| + 1] == '=';
    case StructInit(n, _, _) =>
      assert s[|n| + 1] == '=';
    case EnumInit(n, _, _, _) =>
      assert s[|n| + 1] == '=';
  }

  /** The placeholder text is printed for exactly the instructions `Display` has no arm for. */
  lemma {:induction false} UnimplementedIffUnrendered(i: Instr)
    ensures ShowInstr(i) == Unimplemented <==> !Rendered(i)
  {
    if i.Assign? || i.StructInit? || i.EnumInit? {
      ShowsEquals(i);
    } else if i.Arg? || i.Return? || i.Jump? || i.CondJump? || i.Print? {
      StartsKeyword(i);
    } else if Rendered(i) {
      StartsLet(i);
    }
  }

  /**
   * An assignment is printed with the `mut ` prefix exactly when it is
   * mutable, for any name that is a single word other than `mut`.
   */
  lemma {:induction false} AssignShowsMut(n: string, v: string, m: bool)
    requires ' ' !in n && n != "mut"
    ensures StartsWith(ShowInstr(Assign(n, v, m)), "mut ") <==> m
  {
    var s := ShowInstr(Assign(n, v, m));
    if !m {
      assert s == n + " = " + v;
      if |n| >= 4 {
        assert n[3] in n;
        assert s[3] == n[3] != ' ';
      } else if |n| == 3 {
        assert s[..3] == n;
        assert s[..3] != "mut";
      } else {
        assert s[|n|] == ' ' != "mut "[|n|];
      }
    }
  }

  /**
   * A range is printed with `..=` exactly when it is inclusive, when the
   * names involved contain no dot and the end does not start with `=`.
   */
  lemma {:induction false} RangeShowsInclusive(n: string, start: string, end: string, inc: bool)
    requires '.' !in n && '.' !in start && '.' !in end && (|end| == 0 || end[0] != '=')
    ensures Contains(ShowInstr(RangeCreate(n, start, end, inc)), "..=") <==> inc
  {
    var a := "Let " + n + " = " + start;
    var s := ShowInstr(RangeCreate(n, start, end, inc));
    var k := |a|;
    assert '.' !in a;
    if inc {
      assert s == a + "..=" + end;
      assert OccursAt(s, "..=", k);
    } else {
      assert s == a + ".." + end;
      forall i: nat | i + 3 <= |s|
        ensures !OccursAt(s, "..=", i)
      {
        if i < k {
          assert a[i] in a;
          Mismatch(s, "..=", i, i);
        } else if i == k {
          assert s[k + 2] == end[0];
          Mismatch(s, "..=", i, k + 2);
        } else {
          assert end[i - k - 1] in end;
          assert s[i + 1] == end[i - k - 1];
          Mismatch(s, "..=", i, i + 1);
        }
      }
    }
  }

  /** One differing character rules out an occurrence. */
  lemma Mismatch(s: string, sub: string, i: nat, j: nat)
    requires i <= j < i + |sub| && j < |s| && s[j] != sub[j - i]
    ensures !OccursAt(s, sub, i)
  {
    if i + |sub| <= |s| {
      assert s[i..i + |sub|][j - i] == s[j];
    }
  }

  /** A call prints its destinations comma-joined; the one-destination arm is a case of the same format. */
  lemma CallShowsDests(ds: seq<string>, f: string, args: seq<string>)
    ensures ShowInstr(Call(ds, f, args)) == "Let " + Join(ds, ", ") + " = " + f + "(" + Join(args, ", ") + ")"
  {
  }

  /** Every binary operation prints in one format; the only operator renamed is `%`, to `rem`. */
  lemma BinaryOpShown(op: string, d: string, l: string, r: string)
    ensures ShowInstr(BinaryOp(op, d, l, r)) == "Let " + d + " = " + (if op == "%" then "rem" else op) + " " + l + ", " + r
  {
  }

  /** A return prints its values in parentheses: none as `ret ()`, one as `ret (v)`. */
  lemma ReturnShown(vs: seq<string>)
    ensures |vs| == 0 ==> ShowInstr(Instr.Return(vs)) == "ret ()"
    ensures |vs| == 1 ==> ShowInstr(Instr.Return(vs)) == "ret (" + vs[0] + ")"
    ensures |vs| == 2 ==> ShowInstr(Instr.Return(vs)) == "ret (" + vs[0] + ", " + vs[1] + ")"
  {
    if |vs| == 2 {
      assert Join(vs[1..], ", ") == vs[1];
    }
  }

  lemma {:induction false} FunctionsShowFirst(fs: seq<Function>)
    ensures |fs| > 0 ==> |ShowFunctions(fs)| > 0 && ShowFunctions(fs)[0] == 'F'
    ensures |fs| == 0 ==> ShowFunctions(fs) == ""
  {
    if |fs| > 0 {
      var h := ShowFunction(fs[0]);
      assert h[0] == 'F';
      assert ShowFunctions(fs)[0] == (h + ShowFunctions(fs[1..]))[0];
    }
  }

  lemma PrefixOfConcat(a: string, b: string)
    ensures StartsWith(a + b, a)
  {
    assert (a + b)[..|a|] == a;
  }

  lemma GlobalsShown(p: Program)
    requires |p.globals| > 0
    ensures StartsWith(ShowProgram(p), "Globals:\n")
  {
    var rest := ShowLines("  ", p.globals) + "\n" + ShowFunctions(p.functions);
    assert ShowProgram(p) == "Globals:\n" + rest;
    PrefixOfConcat("Globals:\n", rest);
  }

  lemma FunctionsNotGlobals(fs: seq<Function>)
    ensures !StartsWith(ShowFunctions(fs), "Globals:\n")
  {
    FunctionsShowFirst(fs);
    var s := ShowFunctions(fs);
    if |s| >= 9 {
      assert s[0] == 'F';
      assert s[..9][0] == 'F';
    }
  }

  /** The program text opens with the globals header exactly when there are globals. */
  lemma {:induction false} GlobalsSectionIff(p: Program)
    ensures StartsWith(ShowProgram(p), "Globals:\n") <==> |p.globals| > 0
  {
    if |p.globals| > 0 {
      GlobalsShown(p);
    } else {
      assert ShowProgram(p) == ShowFunctions(p.functions);
      FunctionsNotGlobals(p.functions);
    }
  }

  // ---------------------------------------------------------------------------
  // finalize
  // ---------------------------------------------------------------------------

  /** Dropping empty blocks works piecewise, so the kept blocks stay in their order. */
  lemma {:induction false} LiveBlocksSplit(a: seq<Block>, b: seq<Block>)
    ensures LiveBlocks(a + b) == LiveBlocks(a) + LiveBlocks(b)
    decreases |a|
  {
    if |a| == 0 {
      assert a + b == b;
    } else {
      assert (a + b)[1..] == a[1..] + b;
      LiveBlocksSplit(a[1..], b);
    }
  }

  /** Dropping empty blocks a second time changes nothing. */
  lemma {:induction false} LiveBlocksIdempotent(bs: seq<Block>)
    ensures LiveBlocks(LiveBlocks(bs)) == LiveBlocks(bs)
    decreases |bs|
  {
    if |bs| > 0 {
      LiveBlocksIdempotent(bs[1..]);
      if Live(bs[0]) {
        assert ([bs[0]] + LiveBlocks(bs[1..]))[1..] == LiveBlocks(bs[1..]);
      }
    }
  }

  /** The globals `finalize` never touches. */
  function Unnamed(gs: seq<Instr>): (r: seq<Instr>)
    ensures forall i | 0 <= i < |r| :: !Named(r[i]) && r[i] in gs
    decreases |gs|
  {
    if |gs| == 0 then [] else (if Named(gs[0]) then [] else [gs[0]]) + Unnamed(gs[1..])
  }

  /** `gs[i]` is the first named global with its name. */
  predicate FirstOfName(gs: seq<Instr>, i: nat)
    requires i < |gs| && Named(gs[i])
  {
    forall j | 0 <= j < i :: Named(gs[j]) ==> gs[j].name != gs[i].name
  }

  /** No two named globals share a name. */
  predicate OneOfEachName(gs: seq<Instr>)
  {
    forall i, j | 0 <= i < j < |gs| && Named(gs[i]) && Named(gs[j]) :: gs[i].name != gs[j].name
  }

  /** What the state of the first retain pass becomes after one global. */
  function SeenAfter(g: Instr, seen: set<string>): set<string>
  {
    if Named(g) && g.name !in seen then seen + {g.name} else seen
  }

  lemma DedupeStep(gs: seq<Instr>, seen: set<string>)
    requires |gs| > 0
    ensures Dedupe(gs, seen) == (if Named(gs[0]) && gs[0].name in seen then [] else [gs[0]])
                                + Dedupe(gs[1..], SeenAfter(gs[0], seen))
  {
  }

  lemma UnnamedStep(g: Instr, gs: seq<Instr>)
    ensures Unnamed([g] + gs) == (if Named(g) then [] else [g]) + Unnamed(gs)
  {
    assert ([g] + gs)[1..] == gs;
  }

  /** The first retain pass keeps every global that defines no name, in order. */
  lemma {:induction false} DedupeKeepsUnnamed(gs: seq<Instr>, seen: set<string>)
    ensures Unnamed(Dedupe(gs, seen)) == Unnamed(gs)
    decreases |gs|
  {
    if |gs| > 0 {
      var g := gs[0];
      var seen' := SeenAfter(g, seen);
      DedupeKeepsUnnamed(gs[1..], seen');
      DedupeStep(gs, seen);
      assert gs == [g] + gs[1..];
      UnnamedStep(g, gs[1..]);
      if !Named(g) || g.name !in seen {
        UnnamedStep(g, Dedupe(gs[1..], seen'));
      }
    }
  }

  /** After the first retain pass no two named globals share a name. */
  lemma {:induction false} DedupeDistinct(gs: seq<Instr>, seen: set<string>)
    ensures OneOfEachName(Dedupe(gs, seen))
    decreases |gs|
  {
    if |gs| > 0 {
      var g := gs[0];
      var seen' := SeenAfter(g, seen);
      DedupeDistinct(gs[1..], seen');
      DedupeStep(gs, seen);
      var rest := Dedupe(gs[1..], seen');
      if !Named(g) || g.name !in seen {
        OneOfEachNameCons(g, rest, seen');
      }
    }
  }

  /** A global whose name no later global has can be put in front. */
  lemma OneOfEachNameCons(g: Instr, rest: seq<Instr>, names: set<string>)
    requires OneOfEachName(rest)
    requires forall i | 0 <= i < |rest| && Named(rest[i]) :: rest[i].name !in names
    requires Named(g) ==> g.name in names
    ensures OneOfEachName([g] + rest)
  {
    var r := [g] + rest;
    forall i, j | 0 <= i < j < |r| && Named(r[i]) && Named(r[j])
      ensures r[i].name != r[j].name
    {
      assert r[j] == rest[j - 1];
      if i > 0 {
        assert r[i] == rest[i - 1];
      }
    }
  }

  /** The first retain pass keeps the first global of each name not already seen. */
  lemma {:induction false} DedupeKeepsFirst(gs: seq<Instr>, seen: set<string>)
    ensures forall i | 0 <= i < |gs| && Named(gs[i]) && gs[i].name !in seen && FirstOfName(gs, i) :: gs[i] in Dedupe(gs, seen)
    decreases |gs|
  {
    if |gs| > 0 {
      var g := gs[0];
      var seen' := SeenAfter(g, seen);
      DedupeKeepsFirst(gs[1..], seen');
      DedupeStep(gs, seen);
      forall i | 1 <= i < |gs| && Named(gs[i]) && gs[i].name !in seen && FirstOfName(gs, i)
        ensures gs[i] in Dedupe(gs, seen)
      {
        assert gs[1..][i - 1] == gs[i];
        assert FirstOfName(gs[1..], i - 1) by {
          forall j | 0 <= j < i - 1 && Named(gs[1..][j])
            ensures gs[1..][j].name != gs[i].name
          {
            assert gs[1..][j] == gs[j + 1];
          }
        }
        if Named(g) {
          assert g.name != gs[i].name;
        }
      }
    }
  }

  /** The second retain pass of `finalize` keeps everything once the first has run. */
  lemma {:induction false} DedupeAssignsNoOp(gs: seq<Instr>, seen: set<string>)
    requires OneOfEachName(gs)
    requires forall i | 0 <= i < |gs| && gs[i].Assign? :: gs[i].name !in seen
    ensures DedupeAssigns(gs, seen) == gs
    decreases |gs|
  {
    if |gs| > 0 {
      var seen' := if gs[0].Assign? then seen + {gs[0].name} else seen;
      assert OneOfEachName(gs[1..]) by {
        forall i, j | 0 <= i < j < |gs[1..]| && Named(gs[1..][i]) && Named(gs[1..][j])
          ensures gs[1..][i].name != gs[1..][j].name
        {
          assert gs[1..][i] == gs[i + 1] && gs[1..][j] == gs[j + 1];
        }
      }
      forall i | 0 <= i < |gs[1..]| && gs[1..][i].Assign?
        ensures gs[1..][i].name !in seen'
      {
        assert gs[1..][i] == gs[i + 1];
      }
      DedupeAssignsNoOp(gs[1..], seen');
    }
  }

  /**
   * `finalize` drops exactly the empty blocks, keeping the order of the
   * rest; among the named globals it keeps the first of each name and no
   * duplicates; the other globals stay as they were, in order.
   */
  lemma FinalizeSpec(p: Program)
    ensures forall i | 0 <= i < |p.functions| ::
      Finalize(p).functions[i] == p.functions[i].(blocks := LiveBlocks(p.functions[i].blocks))
    ensures Finalize(p).globals == Dedupe(p.globals, {})
    ensures Unnamed(Finalize(p).globals) == Unnamed(p.globals)
    ensures OneOfEachName(Finalize(p).globals)
    ensures forall i | 0 <= i < |p.globals| && Named(p.globals[i]) && FirstOfName(p.globals, i) :: p.globals[i] in Finalize(p).globals
  {
    DedupeKeepsUnnamed(p.globals, {});
    DedupeDistinct(p.globals, {});
    DedupeKeepsFirst(p.globals, {});
    DedupeAssignsNoOp(Dedupe(p.globals, {}), {});
  }
}
