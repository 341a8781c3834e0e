/** The mid-level representation: a graph of blocks in SSA form, and how a function in it runs. */
module Mir {
  import opened Prelude

  type Value = nat
  type Block = nat
  type Callback = nat

  /** Floating point numbers, without rounding. */
  datatype Float = NaN | NegInf | Fin(r: real) | PosInf

  datatype Data = Undef | Int(i: int) | Flo(f: Float) | Str(s: string) | Bool(b: bool)

  datatype MathFunction =
    | Sqrt | Exp | Ln | Log | Clog2 | Floor | Ceil
    | Sin | Cos | Tan | Asin | Acos | Atan
    | Sinh | Cosh | Tanh | Asinh | Acosh | Atanh

  datatype Opcode1 =
    | Inot | Bnot | Fneg | Ineg | FIcast | IFcast | BIcast | IBcast | FBcast | BFcast | OptBarrier
    | Math(fun: MathFunction)

  datatype Opcode2 =
    | Iadd | Isub | Imul | Idiv | Irem | Ishl | Ishr | Ixor | Iand | Ior
    | Fadd | Fsub | Fmul | Fdiv | Frem
    | Ilt | Igt | Ige | Ile | Flt | Fgt | Fge | Fle
    | Ieq | Feq | Seq | Beq | Ine | Fne | Sne | Bne
    | Pow | Hypot | Atan2

  datatype Inst =
    | Unary(res: Value, op1: Opcode1, arg: Value)
    | Binary(res: Value, op2: Opcode2, lhs: Value, rhs: Value)
    | Phi(res: Value, edges: seq<(Block, Value)>)
    | Call(ret: Option<Value>, callee: Callback, args: seq<Value>)
    | Br(cond: Value, thenDst: Block, elseDst: Block)
    | Jump(dst: Block)
    | Exit

  predicate Terminator(i: Inst) {
    i.Br? || i.Jump? || i.Exit?
  }

  datatype Ty = TReal | TInt | TBool | TStr

  /** Operations that the representation shares with the source language and that are not spelled out. */
  datatype IntOp = Div | Rem | Shl | Shr | Xor | And | Or
  datatype RealOp = AddR | SubR | MulR | DivR | RemR | PowR | HypotR | Atan2R

  /** What arithmetic, casts, mathematical functions and callbacks do on a given machine; a callback may depend on the calls before it. */
  datatype Machine = Machine(
    int2: (IntOp, int, int) -> int,
    real2: (RealOp, Float, Float) -> Float,
    inot: int -> int,
    cast: (Ty, Ty, Data) -> Data,
    math: (MathFunction, Data) -> Data,
    answer: (Callback, seq<Data>, nat) -> Data)

  const MAX32: int := 0x7fff_ffff
  const MIN32: int := -0x8000_0000

  /** Two's complement arithmetic on 32 bits. */
  function Wrap32(i: int): (r: int)
    ensures MIN32 <= r <= MAX32
    ensures MIN32 <= i <= MAX32 ==> r == i
  {
    (i - MIN32) % 0x1_0000_0000 + MIN32
  }

  function Rank(f: Float): int {
    match f case NegInf => 0 case Fin(_) => 1 case PosInf => 2 case NaN => 3
  }

  /** `a < b`; false when one of them is not a number. */
  predicate Less(a: Float, b: Float) {
    if a.NaN? || b.NaN? then false
    else if a.Fin? && b.Fin? then a.r < b.r
    else Rank(a) < Rank(b)
  }

  predicate Same(a: Float, b: Float) {
    !a.NaN? && a == b
  }

  function NegF(f: Float): Float {
    match f case NaN => NaN case NegInf => PosInf case PosInf => NegInf case Fin(r) => Fin(-r)
  }

  function Exec1(M: Machine, op: Opcode1, x: Data): Data {
    match op
    case Inot => if x.Int? then Int(M.inot(x.i)) else Undef
    case Bnot => if x.Bool? then Bool(!x.b) else Undef
    case Fneg => if x.Flo? then Flo(NegF(x.f)) else Undef
    case Ineg => if x.Int? then Int(Wrap32(-x.i)) else Undef
    case OptBarrier => x
    case Math(fun) => M.math(fun, x)
    case FIcast => M.cast(TReal, TInt, x)
    case IFcast => M.cast(TInt, TReal, x)
    case BIcast => M.cast(TBool, TInt, x)
    case IBcast => M.cast(TInt, TBool, x)
    case FBcast => M.cast(TReal, TBool, x)
    case BFcast => M.cast(TBool, TReal, x)
  }

  function OnInts(M: Machine, op: Opcode2, i: int, j: int): Data {
    match op
    case Iadd => Int(Wrap32(i + j))
    case Isub => Int(Wrap32(i - j))
    case Imul => Int(Wrap32(i * j))
    case Idiv => Int(M.int2(Div, i, j))
    case Irem => Int(M.int2(Rem, i, j))
    case Ishl => Int(M.int2(Shl, i, j))
    case Ishr => Int(M.int2(Shr, i, j))
    case Ixor => Int(M.int2(Xor, i, j))
    case Iand => Int(M.int2(And, i, j))
    case Ior => Int(M.int2(Or, i, j))
    case Ilt => Bool(i < j)
    case Igt => Bool(i > j)
    case Ige => Bool(i >= j)
    case Ile => Bool(i <= j)
    case Ieq => Bool(i == j)
    case Ine => Bool(i != j)
    case _ => Undef
  }

  function OnFloats(M: Machine, op: Opcode2, a: Float, b: Float): Data {
    match op
    case Fadd => Flo(M.real2(AddR, a, b))
    case Fsub => Flo(M.real2(SubR, a, b))
    case Fmul => Flo(M.real2(MulR, a, b))
    case Fdiv => Flo(M.real2(DivR, a, b))
    case Frem => Flo(M.real2(RemR, a, b))
    case Pow => Flo(M.real2(PowR, a, b))
    case Hypot => Flo(M.real2(HypotR, a, b))
    case Atan2 => Flo(M.real2(Atan2R, a, b))
    case Flt => Bool(Less(a, b))
    case Fgt => Bool(Less(b, a))
    case Fge => Bool(Less(b, a) || Same(a, b))
    case Fle => Bool(Less(a, b) || Same(a, b))
    case Feq => Bool(Same(a, b))
    case Fne => Bool(!Same(a, b))
    case _ => Undef
  }

  function Exec2(M: Machine, op: Opcode2, x: Data, y: Data): Data {
    if x.Int? && y.Int? then OnInts(M, op, x.i, y.i)
    else if x.Flo? && y.Flo? then OnFloats(M, op, x.f, y.f)
    else if x.Bool? && y.Bool? then
      match op case Beq => Bool(x.b == y.b) case Bne => Bool(x.b != y.b) case _ => Undef
    else if x.Str? && y.Str? then
      match op case Seq => Bool(x.s == y.s) case Sne => Bool(x.s != y.s) case _ => Undef
    else Undef
  }

  // ---------------------------------------------------------------- running a function

  type Code = seq<seq<Inst>>

  datatype Prog = Prog(blocks: Code, consts: map<Value, Data>)

  /** The next instruction, the block control came from, the values computed so far, and the calls made. */
  datatype Config = Config(block: Block, pc: nat, prev: Block, vals: map<Value, Data>, calls: seq<(Callback, seq<Data>)>)

  function Read(P: Prog, vals: map<Value, Data>, v: Value): Data {
    if v in P.consts then P.consts[v] else if v in vals then vals[v] else Undef
  }

  function ReadAll(P: Prog, vals: map<Value, Data>, vs: seq<Value>): seq<Data> {
    seq(|vs|, i requires 0 <= i < |vs| => Read(P, vals, vs[i]))
  }

  /** The value that a phi takes when control comes from `prev`; of two edges of the same block the last counts. */
  function EdgeValue(edges: seq<(Block, Value)>, prev: Block): Option<Value> {
    if edges == [] then None
    else if edges[|edges| - 1].0 == prev then Some(edges[|edges| - 1].1)
    else EdgeValue(edges[..|edges| - 1], prev)
  }

  predicate Truth(d: Data) {
    d == Bool(true)
  }

  /** One instruction; `None` at the end of the code, at an exit, or where a phi knows no value. */
  function Step(M: Machine, P: Prog, c: Config): Option<Config> {
    if c.block >= |P.blocks| || c.pc >= |P.blocks[c.block]| then None
    else
      match P.blocks[c.block][c.pc]
      case Unary(res, op, x) => Some(c.(pc := c.pc + 1, vals := c.vals[res := Exec1(M, op, Read(P, c.vals, x))]))
      case Binary(res, op, x, y) =>
        Some(c.(pc := c.pc + 1, vals := c.vals[res := Exec2(M, op, Read(P, c.vals, x), Read(P, c.vals, y))]))
      case Phi(res, edges) =>
        (match EdgeValue(edges, c.prev)
         case None => None
         case Some(v) => Some(c.(pc := c.pc + 1, vals := c.vals[res := Read(P, c.vals, v)])))
      case Call(ret, callee, args) =>
        var data := ReadAll(P, c.vals, args);
        Some(c.(pc := c.pc + 1, calls := c.calls + [(callee, data)],
                vals := if ret.Some? then c.vals[ret.value := M.answer(callee, data, |c.calls|)] else c.vals))
      case Br(cond, thenDst, elseDst) =>
        Some(c.(block := if Truth(Read(P, c.vals, cond)) then thenDst else elseDst, pc := 0, prev := c.block))
      case Jump(dst) => Some(c.(block := dst, pc := 0, prev := c.block))
      case Exit => None
  }

  /** `n` instructions. */
  function Run(M: Machine, P: Prog, c: Config, n: nat): Option<Config>
    decreases n
  {
    if n == 0 then Some(c)
    else
      match Step(M, P, c)
      case None => None
      case Some(c') => Run(M, P, c', n - 1)
  }

  lemma {:induction false} RunOn(M: Machine, P: Prog, c: Config, n: nat, m: nat)
    requires Run(M, P, c, n).Some?
    ensures Run(M, P, c, n + m) == Run(M, P, Run(M, P, c, n).value, m)
    decreases n
  {
    if n > 0 {
      RunOn(M, P, Step(M, P, c).value, n - 1, m);
    }
  }

  lemma RunOne(M: Machine, P: Prog, c: Config)
    requires Step(M, P, c).Some?
    ensures Run(M, P, c, 1) == Step(M, P, c)
  {
    assert Run(M, P, Step(M, P, c).value, 0) == Some(Step(M, P, c).value);
  }
}
