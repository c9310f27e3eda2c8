/**
 * The mid-level representation: a program of functions made of labelled
 * blocks of instructions, plus a list of global instructions, and its
 * human-readable rendering (`Display`).
 */
module Mir {
  import opened Wrappers
  import opened Text

  /**
   * One instruction. Names are temporaries (`%n`), variables or block
   * labels. `IncRef` and `DecRef` are emitted by the builder although the
   * instruction enum of the repository does not declare them.
   */
  datatype Instr =
    | ConstInt(name: string, n: int)
    | ConstBool(name: string, b: bool)
    | ConstString(name: string, text: string)
    | Array(name: string, elements: seq<string>)
    | Map(name: string, entries: seq<(string, string)>)
    | RangeCreate(name: string, start: string, end: string, inclusive: bool)
    | ArrayLen(name: string, collection: string)
    | ArrayGet(name: string, collection: string, index: string)
    | ArraySet(collection: string, index: string, value: string)
    | MapGet(name: string, mapName: string, key: string)
    | MapSet(mapName: string, key: string, value: string)
    | Add(dest: string, lhs: string, rhs: string)
    | Sub(dest: string, lhs: string, rhs: string)
    | Mul(dest: string, lhs: string, rhs: string)
    | Div(dest: string, lhs: string, rhs: string)
    | BinaryOp(op: string, dest: string, lhs: string, rhs: string)
    | Assign(name: string, value: string, mutable: bool)
    | TupleCreate(name: string, elements: seq<string>)
    | TupleExtract(name: string, source: string, position: nat)
    | Arg(name: string)
    | Call(dests: seq<string>, func: string, args: seq<string>)
    | Return(values: seq<string>)
    | Jump(target: string)
    | CondJump(cond: string, thenBlock: string, elseBlock: string)
    | Print(values: seq<string>)
    | StructInit(name: string, structName: string, fields: seq<(string, string)>)
    | StructGet(name: string, instance: string, field: string)
    | StructSet(instance: string, field: string, value: string)
    | EnumInit(name: string, enumName: string, variant: string, payload: Option<string>)
    | EnumMatch(name: string, instance: string, variant: string)
    | Load(name: string, address: string)
    | Store(address: string, value: string)
    | IncRef(value: string)
    | DecRef(value: string)

  /** A basic block: its label (`name`), straight-line instructions, and an optional terminator. */
  datatype Block = Block(name: string, instrs: seq<Instr>, terminator: Option<Instr>)

  /**
   * A function: its name, parameter names, the rendered parameter and
   * return types (`None` for none), and its blocks.
   */
  datatype Function = Function(name: string, params: seq<string>, paramTypes: seq<Option<string>>,
                               returnType: Option<string>, blocks: seq<Block>)

  datatype Program = Program(functions: seq<Function>, globals: seq<Instr>)

  // ---------------------------------------------------------------------------
  // Display
  // ---------------------------------------------------------------------------

  const Unimplemented := "<unimplemented MIR instruction>"

  function ShowBool(b: bool): string
  {
    if b then "true" else "false"
  }

  function ShowPairs(ps: seq<(string, string)>, quoteKeys: bool): (r: seq<string>)
    ensures |r| == |ps|
    decreases |ps|
  {
    if |ps| == 0 then []
    else
      var k := if quoteKeys then "\"" + ps[0].0 + "\"" else ps[0].0;
      [k + ": " + ps[0].1] + ShowPairs(ps[1..], quoteKeys)
  }

  /** The instructions `Display` renders; every other one prints as `Unimplemented`. */
  predicate Rendered(i: Instr)
  {
    i.ConstInt? || i.ConstBool? || i.ConstString? || i.Array? || i.Map? || i.Assign? || i.Arg?
    || i.Return? || i.Call? || i.Add? || i.Sub? || i.Mul? || i.Div? || i.BinaryOp? || i.Jump?
    || i.CondJump? || i.Print? || i.StructInit? || i.EnumInit? || i.TupleExtract? || i.ArrayLen?
    || i.ArrayGet? || i.RangeCreate?
  }

  /** The `Display` rendering of one instruction. */
  function ShowInstr(i: Instr): string
  {
    match i
    case ConstInt(n, v) => "Let " + n + " = " + IntToString(v)
    case ConstBool(n, v) => "Let " + n + " = " + ShowBool(v)
    case ConstString(n, v) => "Let " + n + " = \"" + v + "\""
    case Array(n, es) => "Let " + n + " = [" + Join(es, ", ") + "]"
    case Map(n, es) => "Let " + n + " = { " + Join(ShowPairs(es, true), ", ") + " }"
    case Assign(n, v, m) => (if m then "mut " else "") + n + " = " + v
    case Arg(n) => "Arg " + n
    case Return(vs) => "ret (" + Join(vs, ", ") + ")"
    case Call(ds, f, args) =>
      if |ds| == 1 then "Let " + ds[0] + " = " + f + "(" + Join(args, ", ") + ")"
      else "Let " + Join(ds, ", ") + " = " + f + "(" + Join(args, ", ") + ")"
    case Add(d, l, r) => "Let " + d + " = add " + l + ", " + r
    case Sub(d, l, r) => "Let " + d + " = sub " + l + ", " + r
    case Mul(d, l, r) => "Let " + d + " = mul " + l + ", " + r
    case Div(d, l, r) => "Let " + d + " = div " + l + ", " + r
    case BinaryOp(op, d, l, r) =>
      if op == "gt" then "Let " + d + " = gt " + l + ", " + r
      else if op == "lt" then "Let " + d + " = lt " + l + ", " + r
      else if op == "%" then "Let " + d + " = rem " + l + ", " + r
      else "Let " + d + " = " + op + " " + l + ", " + r
    case Jump(t) => "jump " + t
    case CondJump(c, t, e) => "if " + c + " then " + t + " else " + e
    case Print(vs) => "print(" + Join(vs, ", ") + ")"
    case StructInit(n, s, fs) => n + " = " + s + " { " + Join(ShowPairs(fs, false), ", ") + " }"
    case EnumInit(n, e, v, p) =>
      if p.Some? then n + " = " + e + "::" + v + "(" + p.value + ")" else n + " = " + e + "::" + v
    case TupleExtract(n, s, k) => "Let " + n + " = extract(" + s + ", " + NatToString(k) + ")"
    case ArrayLen(n, a) => "Let " + n + " = len(" + a + ")"
    case ArrayGet(n, a, k) => "Let " + n + " = " + a + "[" + k + "]"
    case RangeCreate(n, s, e, inc) => "Let " + n + " = " + s + (if inc then "..=" else "..") + e
    case _ => Unimplemented
  }

  /** Each instruction on its own line behind `indent`. */
  function ShowLines(indent: string, code: seq<Instr>): string
    decreases |code|
  {
    if |code| == 0 then "" else indent + ShowInstr(code[0]) + "\n" + ShowLines(indent, code[1..])
  }

  function ShowBlock(b: Block): string
  {
    "  " + b.name + ":\n" + ShowLines("    ", b.instrs)
    + (if b.terminator.Some? then "    " + ShowInstr(b.terminator.value) + "\n" else "")
  }

  function ShowBlocks(bs: seq<Block>): string
    decreases |bs|
  {
    if |bs| == 0 then "" else ShowBlock(bs[0]) + ShowBlocks(bs[1..])
  }

  function ShowFunction(f: Function): string
  {
    "Function " + f.name + "(" + Join(f.params, ", ") + ") -> " + f.returnType.UnwrapOr("Void") + "\n"
    + ShowBlocks(f.blocks) + "\n"
  }

  function ShowFunctions(fs: seq<Function>): string
    decreases |fs|
  {
    if |fs| == 0 then "" else ShowFunction(fs[0]) + ShowFunctions(fs[1..])
  }

  /** The `Display` rendering of a program: its globals section, if any, then each function. */
  function ShowProgram(p: Program): string
  {
    (if |p.globals| > 0 then "Globals:\n" + ShowLines("  ", p.globals) + "\n" else "")
    + ShowFunctions(p.functions)
  }
}
