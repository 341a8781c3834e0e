/** Lowering of expressions to the mid-level representation. */
module Lowering {
  import opened Prelude
  import opened Mir
  import opened MirBuilder

  datatype BinaryOp =
    | BooleanOr | BooleanAnd
    | EqualityTest | NegatedEqualityTest | GreaterEqualTest | GreaterTest | LesserEqualTest | LesserTest
    | Addition | Subtraction | Multiplication | Division | Remainder | Power
    | LeftShift | RightShift | BitwiseXor | BitwiseEq | BitwiseOr | BitwiseAnd
    | Hypotenuse | ArcTangent2

  datatype UnaryOp = Not | Neg | Identity | BitNegate | Apply(fun: MathFunction)

  /**
   * Expressions with resolved names and types.  `Sample` reads a variable or parameter whose current
   * value is known to the builder; `Cast` is the conversion recorded for an expression.
   */
  datatype Expr =
    | Sample(v: Value, tagged: bool)
    | Literal(d: Data)
    | Infinite(float: bool)
    | Cast(src: Ty, dst: Ty, arg: Expr)
    | UnaryExpr(uop: UnaryOp, ty: Ty, arg: Expr)
    | BinaryExpr(bop: BinaryOp, ty: Ty, lhs: Expr, rhs: Expr)
    | Select(cond: Expr, thenVal: Expr, elseVal: Expr)
    | Abs(ty: Ty, arg: Expr)
    | Min(ty: Ty, lhs: Expr, rhs: Expr)
    | Max(ty: Ty, lhs: Expr, rhs: Expr)
    | SimParam(name: Expr)
    | SimParamOr(name: Expr, default: Expr)

  const SIM_PARAM: Callback := 0
  const SIM_PARAM_OPT: Callback := 1

  function Size(e: Expr): (r: nat)
    ensures r >= 1
  {
    match e
    case Sample(_, _) => 1
    case Literal(_) => 1
    case Infinite(_) => 1
    case Cast(_, _, arg) => 1 + Size(arg)
    case UnaryExpr(_, _, arg) => 1 + Size(arg)
    case BinaryExpr(_, _, lhs, rhs) => 1 + Size(lhs) + Size(rhs)
    case Select(cond, a, b) => 1 + Size(cond) + Size(a) + Size(b)
    case Abs(_, arg) => 1 + Size(arg)
    case Min(_, lhs, rhs) => 1 + Size(lhs) + Size(rhs)
    case Max(_, lhs, rhs) => 1 + Size(lhs) + Size(rhs)
    case SimParam(name) => 1 + Size(name)
    case SimParamOr(name, default) => 1 + Size(name) + Size(default)
  }

  predicate Numeric(ty: Ty) {
    ty == TReal || ty == TInt
  }

  /** The operand types that type checking leaves for an operator. */
  predicate OpTyped(op: BinaryOp, ty: Ty) {
    match op
    case BooleanOr => true
    case BooleanAnd => true
    case EqualityTest => true
    case NegatedEqualityTest => true
    case Power => ty == TReal
    case Hypotenuse => ty == TReal
    case ArcTangent2 => ty == TReal
    case LeftShift => ty == TInt
    case RightShift => ty == TInt
    case BitwiseXor => ty == TInt
    case BitwiseEq => ty == TInt
    case BitwiseOr => ty == TInt
    case BitwiseAnd => ty == TInt
    case _ => Numeric(ty)
  }

  predicate Castable(src: Ty, dst: Ty) {
    src != dst && src != TStr && dst != TStr
  }

  /** Well-typed operators, and samples of values that exist already. */
  predicate Checked(e: Expr, next: Value) {
    match e
    case Sample(v, _) => v < next
    case Literal(_) => true
    case Infinite(_) => true
    case Cast(src, dst, arg) => Castable(src, dst) && Checked(arg, next)
    case UnaryExpr(op, ty, arg) => (op == Neg ==> Numeric(ty)) && Checked(arg, next)
    case BinaryExpr(op, ty, lhs, rhs) => OpTyped(op, ty) && Checked(lhs, next) && Checked(rhs, next)
    case Select(cond, a, b) => Checked(cond, next) && Checked(a, next) && Checked(b, next)
    case Abs(ty, arg) => Numeric(ty) && Checked(arg, next)
    case Min(ty, lhs, rhs) => Numeric(ty) && Checked(lhs, next) && Checked(rhs, next)
    case Max(ty, lhs, rhs) => Numeric(ty) && Checked(lhs, next) && Checked(rhs, next)
    case SimParam(name) => Checked(name, next)
    case SimParamOr(name, default) => Checked(name, next) && Checked(default, next)
  }

  // ---------------------------------------------------------------- what an expression means

  type Calls = seq<(Callback, seq<Data>)>

  predicate Of(ty: Ty, x: Data) {
    match ty case TReal => x.Flo? case TInt => x.Int? case TBool => x.Bool? case TStr => x.Str?
  }

  predicate Equal(x: Data, y: Data) {
    x == y && !(x.Flo? && x.f.NaN?)
  }

  /** `x` precedes `y`, for numbers of the same type. */
  predicate Before(x: Data, y: Data) {
    (x.Int? && y.Int? && x.i < y.i) || (x.Flo? && y.Flo? && Less(x.f, y.f))
  }

  function IntMeaning(M: Machine, op: BinaryOp, i: int, j: int): Data {
    match op
    case Addition => Int(Wrap32(i + j))
    case Subtraction => Int(Wrap32(i - j))
    case Multiplication => Int(Wrap32(i * j))
    case Division => Int(M.int2(Div, i, j))
    case Remainder => Int(M.int2(Rem, i, j))
    case LeftShift => Int(M.int2(Shl, i, j))
    case RightShift => Int(M.int2(Shr, i, j))
    case BitwiseXor => Int(M.int2(Xor, i, j))
    case BitwiseEq => Int(M.inot(M.int2(Xor, i, j)))
    case BitwiseOr => Int(M.int2(Or, i, j))
    case BitwiseAnd => Int(M.int2(And, i, j))
    case _ => Undef
  }

  function RealMeaning(M: Machine, op: BinaryOp, a: Float, b: Float): Data {
    match op
    case Addition => Flo(M.real2(AddR, a, b))
    case Subtraction => Flo(M.real2(SubR, a, b))
    case Multiplication => Flo(M.real2(MulR, a, b))
    case Division => Flo(M.real2(DivR, a, b))
    case Remainder => Flo(M.real2(RemR, a, b))
    case Power => Flo(M.real2(PowR, a, b))
    case Hypotenuse => Flo(M.real2(HypotR, a, b))
    case ArcTangent2 => Flo(M.real2(Atan2R, a, b))
    case _ => Undef
  }

  /** Source meaning of the operators that always evaluate both operands. */
  function Meaning2(M: Machine, op: BinaryOp, ty: Ty, x: Data, y: Data): Data {
    if !(Of(ty, x) && Of(ty, y)) then Undef
    else
      match op
      case EqualityTest => Bool(Equal(x, y))
      case NegatedEqualityTest => Bool(!Equal(x, y))
      case LesserTest => Bool(Before(x, y))
      case GreaterTest => Bool(Before(y, x))
      case LesserEqualTest => Bool(Before(x, y) || Equal(x, y))
      case GreaterEqualTest => Bool(Before(y, x) || Equal(x, y))
      case _ =>
        if ty == TInt then IntMeaning(M, op, x.i, y.i) else if ty == TReal then RealMeaning(M, op, x.f, y.f) else Undef
  }

  /** Absolute value; the smallest 32-bit integer has none and stays as it is. */
  function AbsOf(ty: Ty, x: Data): Data {
    match x
    case Int(i) => if ty == TInt && i < 0 then Int(Wrap32(-i)) else x
    case Flo(f) => if ty == TReal && (f.NegInf? || (f.Fin? && f.r < 0.0)) then Flo(NegF(f)) else x
    case _ => x
  }

  /** The smaller (or greater) of two numbers; the second one when they do not compare. */
  function LeastOf(ty: Ty, x: Data, y: Data): Data {
    if Of(ty, x) && Of(ty, y) && Before(x, y) then x else y
  }

  function GreatestOf(ty: Ty, x: Data, y: Data): Data {
    if Of(ty, x) && Of(ty, y) && Before(y, x) then x else y
  }

  function Negated(ty: Ty, x: Data): Data {
    if ty == TInt && x.Int? then Int(Wrap32(-x.i)) else if ty == TReal && x.Flo? then Flo(NegF(x.f)) else Undef
  }

  /** Whether an expression is the literal infinity, and of which type. */
  function InfinityOf(e: Expr): Option<bool> {
    match e
    case Infinite(float) => Some(float)
    case Cast(_, _, Infinite(float)) => Some(float)
    case _ => None
  }

  /** Value of an expression and the calls made, in order, while it is evaluated; `~` negates, as the compiler has it. */
  function Eval(M: Machine, e: Expr, rho: Value -> Data, calls: Calls): (Data, Calls) {
    match e
    case Sample(v, _) => (rho(v), calls)
    case Literal(d) => (d, calls)
    case Infinite(float) => (if float then Flo(PosInf) else Int(MAX32), calls)
    case Cast(src, dst, arg) =>
      var (x, calls1) := Eval(M, arg, rho, calls);
      (if arg.Infinite? then x else M.cast(src, dst, x), calls1)
    case UnaryExpr(op, ty, arg) =>
      var (x, calls1) := Eval(M, arg, rho, calls);
      (match op
       case Not => if x.Bool? then Bool(!x.b) else Undef
       case Identity => x
       case Apply(fun) => M.math(fun, x)
       case BitNegate => if x.Int? then Int(Wrap32(-x.i)) else Undef
       case Neg =>
         if InfinityOf(arg) == Some(true) then Flo(NegInf)
         else if InfinityOf(arg) == Some(false) then Int(MIN32)
         else Negated(ty, x),
       calls1)
    case BinaryExpr(op, ty, lhs, rhs) =>
      var (x, calls1) := Eval(M, lhs, rho, calls);
      if op == BooleanOr && Truth(x) then (Bool(true), calls1)
      else if op == BooleanAnd && !Truth(x) then (Bool(false), calls1)
      else
        var (y, calls2) := Eval(M, rhs, rho, calls1);
        (if op == BooleanOr || op == BooleanAnd then y else Meaning2(M, op, ty, x, y), calls2)
    case Select(cond, a, b) =>
      var (x, calls1) := Eval(M, cond, rho, calls);
      if Truth(x) then Eval(M, a, rho, calls1) else Eval(M, b, rho, calls1)
    case Abs(ty, arg) =>
      var (x, calls1) := Eval(M, arg, rho, calls);
      (AbsOf(ty, x), calls1)
    case Min(ty, lhs, rhs) =>
      var (x, calls1) := Eval(M, lhs, rho, calls);
      var (y, calls2) := Eval(M, rhs, rho, calls1);
      (LeastOf(ty, x, y), calls2)
    case Max(ty, lhs, rhs) =>
      var (x, calls1) := Eval(M, lhs, rho, calls);
      var (y, calls2) := Eval(M, rhs, rho, calls1);
      (GreatestOf(ty, x, y), calls2)
    case SimParam(name) =>
      var (x, calls1) := Eval(M, name, rho, calls);
      (M.answer(SIM_PARAM, [x], |calls1|), calls1 + [(SIM_PARAM, [x])])
    case SimParamOr(name, default) =>
      var (x, calls1) := Eval(M, name, rho, calls);
      var (y, calls2) := Eval(M, default, rho, calls1);
      (M.answer(SIM_PARAM_OPT, [x, y], |calls2|), calls2 + [(SIM_PARAM_OPT, [x, y])])
  }

  // ---------------------------------------------------------------- the code that is emitted

  function CastOp(src: Ty, dst: Ty): Opcode1 {
    match (dst, src)
    case (TReal, TInt) => IFcast
    case (TInt, TReal) => FIcast
    case (TBool, TReal) => FBcast
    case (TReal, TBool) => BFcast
    case (TInt, TBool) => BIcast
    case (_, _) => IBcast
  }

  function Opcode(op: BinaryOp, ty: Ty): Opcode2 {
    match op
    case EqualityTest => (match ty case TBool => Beq case TInt => Ieq case TReal => Feq case TStr => Seq)
    case NegatedEqualityTest => (match ty case TBool => Bne case TInt => Ine case TReal => Fne case TStr => Sne)
    case GreaterEqualTest => if ty == TInt then Ige else Fge
    case GreaterTest => if ty == TInt then Igt else Fgt
    case LesserEqualTest => if ty == TInt then Ile else Fle
    case LesserTest => if ty == TInt then Ilt else Flt
    case Addition => if ty == TInt then Iadd else Fadd
    case Subtraction => if ty == TInt then Isub else Fsub
    case Multiplication => if ty == TInt then Imul else Fmul
    case Division => if ty == TInt then Idiv else Fdiv
    case Remainder => if ty == TInt then Irem else Frem
    case Power => Pow
    case Hypotenuse => Hypot
    case ArcTangent2 => Atan2
    case LeftShift => Ishl
    case RightShift => Ishr
    case BitwiseOr => Ior
    case BitwiseAnd => Iand
    case _ => Ixor
  }

  /** What a branch of a condition does, in place of a closure. */
  datatype Body =
    | Lower(e: Expr)
    | Give(v: Value)
    | Negate(op: Opcode1, v: Value)
    | Compare(op2: Opcode2, x: Value, y: Value)

  function BodySize(b: Body): nat {
    if b.Lower? then Size(b.e) else 0
  }

  /** The current block exists. */
  predicate Live(s: State) {
    s.cur < |s.blocks|
  }

  function Low(s: State, e: Expr): (r: (State, Value))
    requires Live(s)
    ensures Live(r.0) && |s.blocks| <= |r.0.blocks|
    decreases Size(e), 0
  {
    match e
    case Sample(v, tagged) => if tagged then Op1(s, OptBarrier, v) else (s, v)
    case Literal(d) => Konst(s, d)
    case Infinite(float) => if float then (s, INFINITY) else Konst(s, Int(MAX32))
    case Cast(src, dst, arg) =>
      var (s1, x) := Low(s, arg);
      if arg.Infinite? then (s1, x) else Op1(s1, CastOp(src, dst), x)
    case UnaryExpr(op, ty, arg) => LowUnaryOp(s, op, ty, arg)
    case BinaryExpr(op, ty, lhs, rhs) => LowBinaryOp(s, op, ty, lhs, rhs)
    case Select(cond, a, b) =>
      var (s1, x) := Low(s, cond);
      LowSelect(s1, x, Lower(a), Lower(b))
    case Abs(ty, arg) =>
      var (s1, x) := Low(s, arg);
      var (s2, c) := Op2(s1, if ty == TReal then Flt else Ilt, x, if ty == TReal then F_ZERO else ZERO);
      LowSelect(s2, c, Negate(if ty == TReal then Fneg else Ineg, x), Give(x))
    case Min(ty, lhs, rhs) => LowExtreme(s, if ty == TReal then Flt else Ilt, lhs, rhs)
    case Max(ty, lhs, rhs) => LowExtreme(s, if ty == TReal then Fgt else Igt, lhs, rhs)
    case SimParam(name) =>
      var (s1, x) := Low(s, name);
      Call1(s1, SIM_PARAM, [x])
    case SimParamOr(name, default) =>
      var (s1, x) := Low(s, name);
      var (s2, y) := Low(s1, default);
      Call1(s2, SIM_PARAM_OPT, [x, y])
  }

  function LowUnaryOp(s: State, op: UnaryOp, ty: Ty, arg: Expr): (r: (State, Value))
    requires Live(s)
    ensures Live(r.0) && |s.blocks| <= |r.0.blocks|
    decreases Size(arg), 9
  {
    var (s1, x) := Low(s, arg);
    match op
    case Not => Op1(s1, Bnot, x)
    case Identity => (s1, x)
    case BitNegate => Op1(s1, Ineg, x)
    case Apply(fun) => Op1(s1, Math(fun), x)
    case Neg =>
      if InfinityOf(arg).Some? then Konst(s1, if InfinityOf(arg).value then Flo(NegInf) else Int(MIN32))
      else Op1(s1, if ty == TReal then Fneg else Ineg, x)
  }

  function LowBinaryOp(s: State, op: BinaryOp, ty: Ty, lhs: Expr, rhs: Expr): (r: (State, Value))
    requires Live(s)
    ensures Live(r.0) && |s.blocks| <= |r.0.blocks|
    decreases Size(lhs) + Size(rhs), 9
  {
    var (s1, x) := Low(s, lhs);
    if op == BooleanOr then LowSelect(s1, x, Give(TRUE), Lower(rhs))
    else if op == BooleanAnd then LowSelect(s1, x, Lower(rhs), Give(FALSE))
    else
      var (s2, y) := Low(s1, rhs);
      var (s3, z) := Op2(s2, Opcode(op, ty), x, y);
      if op == BitwiseEq then Op1(s3, Inot, z) else (s3, z)
  }

  /** Minimum or maximum: the first operand if the comparison holds. */
  function LowExtreme(s: State, comparison: Opcode2, lhs: Expr, rhs: Expr): (r: (State, Value))
    requires Live(s)
    ensures Live(r.0) && |s.blocks| <= |r.0.blocks|
    decreases Size(lhs) + Size(rhs), 9
  {
    var (s1, x) := Low(s, lhs);
    var (s2, y) := Low(s1, rhs);
    var (s3, c) := Op2(s2, comparison, x, y);
    LowSelect(s3, c, Give(x), Give(y))
  }

  function LowBody(s: State, b: Body): (r: (State, Value))
    requires Live(s)
    ensures Live(r.0) && |s.blocks| <= |r.0.blocks|
    decreases BodySize(b), 1
  {
    match b
    case Lower(e) => Low(s, e)
    case Give(v) => (s, v)
    case Negate(op, v) => Op1(s, op, v)
    case Compare(op, x, y) => Op2(s, op, x, y)
  }

  /** Where the branches of a condition start and end. */
  datatype Arms = Arms(thenDst: Block, elseDst: Block, join: Block)

  /** Open the blocks of a condition and branch to them. */
  function Fork(s: State, cond: Value): (r: (State, Arms))
    requires Live(s)
    ensures |r.0.blocks| == |s.blocks| + 3 && r.1 == Arms(|s.blocks|, |s.blocks| + 1, |s.blocks| + 2) && Live(r.0)
  {
    var (s1, thenDst) := Create(s);
    var (s2, elseDst) := Create(s1);
    var (s3, join) := Create(s2);
    (Switch(Put(s3, Br(cond, thenDst, elseDst)), thenDst), Arms(thenDst, elseDst, join))
  }

  /** Two branches and the block where they meet; each branch is reported as the block it ends in and its value. */
  function LowCond(s: State, cond: Value, thenBody: Body, elseBody: Body): (r: (State, (Block, Value), (Block, Value)))
    requires Live(s)
    ensures Live(r.0) && |s.blocks| <= |r.0.blocks|
    decreases BodySize(thenBody) + BodySize(elseBody), 2
  {
    var (s1, arms) := Fork(s, cond);
    var (s2, thenVal) := LowBody(s1, thenBody);
    var s3 := Switch(Put(s2, Jump(arms.join)), arms.elseDst);
    var (s4, elseVal) := LowBody(s3, elseBody);
    var s5 := Switch(Put(s4, Jump(arms.join)), arms.join);
    (s5, (s2.cur, thenVal), (s4.cur, elseVal))
  }

  function LowSelect(s: State, cond: Value, thenBody: Body, elseBody: Body): (r: (State, Value))
    requires Live(s)
    ensures Live(r.0) && |s.blocks| <= |r.0.blocks|
    decreases BodySize(thenBody) + BodySize(elseBody), 3
  {
    var (s1, thenSrc, elseSrc) := LowCond(s, cond, thenBody, elseBody);
    PhiOf(s1, [thenSrc, elseSrc])
  }

  /** The opcode chosen for an operator computes its meaning. */
  lemma OpcodeMeans(M: Machine, op: BinaryOp, ty: Ty, x: Data, y: Data)
    requires OpTyped(op, ty) && op != BooleanOr && op != BooleanAnd
    ensures op != BitwiseEq ==> Exec2(M, Opcode(op, ty), x, y) == Meaning2(M, op, ty, x, y)
    ensures op == BitwiseEq ==> Exec1(M, Inot, Exec2(M, Opcode(op, ty), x, y)) == Meaning2(M, op, ty, x, y)
  {
    hide Exec1, Exec2, Meaning2, Opcode;
    if Comparison(op) { ComparisonMeans(M, op, ty, x, y); } else { ArithmeticMeans(M, op, ty, x, y); }
  }

  predicate Comparison(op: BinaryOp) {
    op in {EqualityTest, NegatedEqualityTest, LesserTest, GreaterTest, LesserEqualTest, GreaterEqualTest}
  }

  lemma ComparisonMeans(M: Machine, op: BinaryOp, ty: Ty, x: Data, y: Data)
    requires OpTyped(op, ty) && Comparison(op)
    ensures Exec2(M, Opcode(op, ty), x, y) == Meaning2(M, op, ty, x, y)
  {
  }

  lemma ArithmeticMeans(M: Machine, op: BinaryOp, ty: Ty, x: Data, y: Data)
    requires OpTyped(op, ty) && op != BooleanOr && op != BooleanAnd && !Comparison(op)
    ensures op != BitwiseEq ==> Exec2(M, Opcode(op, ty), x, y) == Meaning2(M, op, ty, x, y)
    ensures op == BitwiseEq ==> Exec1(M, Inot, Exec2(M, Opcode(op, ty), x, y)) == Meaning2(M, op, ty, x, y)
  {
  }

  /** Absolute value is right for all 32-bit integers but the smallest one, and for all real numbers. */
  lemma AbsIs(i: int, f: Float)
    requires MIN32 <= i <= MAX32
    ensures AbsOf(TInt, Int(i)) == Int(if i < 0 then -i else i) <==> i != MIN32
    ensures AbsOf(TInt, Int(MIN32)) == Int(MIN32)
    ensures !Less(AbsOf(TReal, Flo(f)).f, Fin(0.0)) && (AbsOf(TReal, Flo(f)) == Flo(f) || AbsOf(TReal, Flo(f)) == Flo(NegF(f)))
  {
  }

  /** A negation is never the bitwise complement `-i - 1`. */
  lemma NegationDiffers(M: Machine, i: int)
    requires MIN32 <= i <= MAX32
    ensures MIN32 <= -i - 1 <= MAX32 && Exec1(M, Ineg, Int(i)) != Int(-i - 1)
  {
  }
}
