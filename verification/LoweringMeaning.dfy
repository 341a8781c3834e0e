/** What the meaning of expressions says about numbers, truth values and types. */
module LoweringMeaning {
  import opened Prelude
  import opened Mir
  import opened Lowering

  // ---------------------------------------------------------------- numbers and truth values

  /** `Less` is a strict order, total on everything that is a number, from negative to positive infinity. */
  lemma LessIsOrder(a: Float, b: Float, c: Float, x: real, y: real)
    ensures !Less(a, a) && (Less(a, b) && Less(b, c) ==> Less(a, c))
    ensures a.NaN? || b.NaN? ==> !Less(a, b)
    ensures !a.NaN? && !b.NaN? && a != b ==> Less(a, b) || Less(b, a)
    ensures Less(Fin(x), Fin(y)) <==> x < y
    ensures Less(NegInf, Fin(x)) && Less(Fin(x), PosInf) && Less(NegInf, PosInf)
  {
  }

  /** Reduction to 32 bits keeps a number modulo 2^32. */
  lemma WrapIs(i: int)
    ensures -0x8000_0000 <= Wrap32(i) <= 0x7fff_ffff && (Wrap32(i) - i) % 0x1_0000_0000 == 0
  {
  }

  /** Negation is an involution, and the additive inverse of finite numbers. */
  lemma NegFIs(f: Float, x: real)
    ensures NegF(NegF(f)) == f && NegF(Fin(x)) == Fin(-x) && NegF(PosInf) == NegInf && NegF(NegInf) == PosInf && NegF(NaN) == NaN
  {
  }

  lemma TruthIs(b: bool, d: Data)
    ensures (Truth(Bool(b)) <==> b) && (!d.Bool? ==> !Truth(d))
  {
  }

  /** Connectives and conditional expressions of truth values, with the operands that are evaluated. */
  lemma ConnectivesAre(M: Machine, ty: Ty, lhs: Expr, rhs: Expr, other: Expr, a: bool, b: bool, rho: Value -> Data, calls: Calls)
    requires Eval(M, lhs, rho, calls).0 == Bool(a)
    requires Eval(M, rhs, rho, Eval(M, lhs, rho, calls).1).0 == Bool(b)
    ensures var calls1 := Eval(M, lhs, rho, calls).1;
      var calls2 := Eval(M, rhs, rho, calls1).1;
      && Eval(M, BinaryExpr(BooleanOr, ty, lhs, rhs), rho, calls) == (Bool(a || b), if a then calls1 else calls2)
      && Eval(M, BinaryExpr(BooleanAnd, ty, lhs, rhs), rho, calls) == (Bool(a && b), if a then calls2 else calls1)
      && Eval(M, UnaryExpr(Not, ty, lhs), rho, calls) == (Bool(!a), calls1)
      && Eval(M, Select(lhs, rhs, other), rho, calls) == Eval(M, if a then rhs else other, rho, calls1)
  {
  }

  /** Comparisons, minimum and maximum of numbers. */
  lemma ComparisonsAre(M: Machine, i: int, j: int, a: Float, b: Float, x: real, y: real)
    ensures Meaning2(M, LesserTest, TInt, Int(i), Int(j)) == Bool(i < j) && Meaning2(M, GreaterTest, TInt, Int(i), Int(j)) == Bool(i > j)
    ensures Meaning2(M, LesserEqualTest, TInt, Int(i), Int(j)) == Bool(i <= j)
    ensures Meaning2(M, GreaterEqualTest, TInt, Int(i), Int(j)) == Bool(i >= j)
    ensures Meaning2(M, EqualityTest, TInt, Int(i), Int(j)) == Bool(i == j)
    ensures Meaning2(M, LesserTest, TReal, Flo(Fin(x)), Flo(Fin(y))) == Bool(x < y)
    ensures Meaning2(M, LesserEqualTest, TReal, Flo(Fin(x)), Flo(Fin(y))) == Bool(x <= y)
    ensures Meaning2(M, EqualityTest, TReal, Flo(NaN), Flo(a)) == Bool(false)
    ensures LeastOf(TInt, Int(i), Int(j)) == Int(if i <= j then i else j) && GreatestOf(TInt, Int(i), Int(j)) == Int(if i >= j then i else j)
    ensures LeastOf(TReal, Flo(Fin(x)), Flo(Fin(y))) == Flo(Fin(if x <= y then x else y))
    ensures GreatestOf(TReal, Flo(Fin(x)), Flo(Fin(y))) == Flo(Fin(if x >= y then x else y))
    ensures a.NaN? ==> LeastOf(TReal, Flo(a), Flo(b)) == GreatestOf(TReal, Flo(a), Flo(b)) == Flo(b)
  {
  }

  /** Sums, differences, products and negations of integers are right modulo 2^32. */
  lemma ArithmeticIs(M: Machine, i: int, j: int)
    ensures Modular(Meaning2(M, Addition, TInt, Int(i), Int(j)), i + j)
    ensures Modular(Meaning2(M, Subtraction, TInt, Int(i), Int(j)), i - j)
    ensures Modular(Meaning2(M, Multiplication, TInt, Int(i), Int(j)), i * j)
    ensures Modular(Negated(TInt, Int(i)), -i)
  {
    hide Wrap32;
    WrapIs(i + j);
    WrapIs(i - j);
    WrapIs(i * j);
    WrapIs(-i);
  }

  /** `d` is the 32-bit integer that equals `n` modulo 2^32. */
  predicate Modular(d: Data, n: int) {
    d.Int? && -0x8000_0000 <= d.i <= 0x7fff_ffff && (d.i - n) % 0x1_0000_0000 == 0
  }

  // ---------------------------------------------------------------- types

  /** Data of a type; integers have 32 bits. */
  predicate Typed(ty: Ty, d: Data) {
    Of(ty, d) && (d.Int? ==> MIN32 <= d.i <= MAX32)
  }

  /** The type that a mathematical function takes and yields. */
  function MathType(fun: MathFunction): Ty {
    if fun.Clog2? then TInt else TReal
  }

  /** Types of the variables and parameters that an expression may read. */
  type Types = map<Value, Ty>

  predicate Comparing(op: BinaryOp) {
    op in {EqualityTest, NegatedEqualityTest, LesserTest, GreaterTest, LesserEqualTest, GreaterEqualTest}
  }

  predicate HasType(e: Expr, types: Types, ty: Ty) {
    match e
    case Sample(v, _) => v in types && types[v] == ty
    case Literal(d) => Typed(ty, d)
    case Infinite(float) => ty == if float then TReal else TInt
    case Cast(src, dst, arg) =>
      ty == dst && if arg.Infinite? then HasType(arg, types, dst) else Castable(src, dst) && HasType(arg, types, src)
    case UnaryExpr(op, t, arg) =>
      (match op
       case Not => ty == TBool && HasType(arg, types, TBool)
       case Neg => ty == t && Numeric(t) && HasType(arg, types, t)
       case Identity => HasType(arg, types, ty)
       case BitNegate => ty == TInt && HasType(arg, types, TInt)
       case Apply(fun) => ty == MathType(fun) && HasType(arg, types, MathType(fun)))
    case BinaryExpr(op, t, lhs, rhs) =>
      if op == BooleanOr || op == BooleanAnd then ty == TBool && HasType(lhs, types, TBool) && HasType(rhs, types, TBool)
      else (ty == if Comparing(op) then TBool else t) && OpTyped(op, t) && HasType(lhs, types, t) && HasType(rhs, types, t)
    case Select(cond, a, b) => HasType(cond, types, TBool) && HasType(a, types, ty) && HasType(b, types, ty)
    case Abs(t, arg) => ty == t && Numeric(t) && HasType(arg, types, t)
    case Min(t, lhs, rhs) => ty == t && Numeric(t) && HasType(lhs, types, t) && HasType(rhs, types, t)
    case Max(t, lhs, rhs) => ty == t && Numeric(t) && HasType(lhs, types, t) && HasType(rhs, types, t)
    case SimParam(name) => ty == TReal && HasType(name, types, TStr)
    case SimParamOr(name, default) => ty == TReal && HasType(name, types, TStr) && HasType(default, types, TReal)
  }

  /** The operations that are left to the machine yield data of their types. */
  ghost predicate Sound(M: Machine) {
    && (forall op, i, j :: MIN32 <= M.int2(op, i, j) <= MAX32)
    && (forall i :: MIN32 <= M.inot(i) <= MAX32)
    && (forall src, dst, d :: Castable(src, dst) && Typed(src, d) ==> Typed(dst, M.cast(src, dst, d)))
    && (forall fun, d :: Typed(MathType(fun), d) ==> Typed(MathType(fun), M.math(fun, d)))
    && (forall args, n :: Typed(TReal, M.answer(SIM_PARAM, args, n)) && Typed(TReal, M.answer(SIM_PARAM_OPT, args, n)))
  }

  ghost predicate RightTypes(types: Types, rho: Value -> Data) {
    forall v :: v in types ==> Typed(types[v], rho(v))
  }

  /** Every expression of a type yields data of that type, and never an undefined value. */
  lemma {:induction false} TypePreserved(M: Machine, e: Expr, types: Types, ty: Ty, rho: Value -> Data, calls: Calls)
    requires HasType(e, types, ty) && Sound(M) && RightTypes(types, rho)
    ensures Typed(ty, Eval(M, e, rho, calls).0)
    decreases Size(e), 0
  {
    hide Sound, RightTypes, Meaning2, AbsOf, LeastOf, GreatestOf, Negated, Truth;
    match e
    case Sample(v, _) => SampleTyped(types, rho, v);
    case Literal(_) =>
    case Infinite(_) =>
    case Cast(src, dst, arg) =>
      TypePreserved(M, arg, types, if arg.Infinite? then dst else src, rho, calls);
      if !arg.Infinite? { CastTyped(M, src, dst, Eval(M, arg, rho, calls).0); }
    case UnaryExpr(op, t, arg) => UnaryTyped(M, op, t, arg, types, ty, rho, calls);
    case BinaryExpr(op, t, lhs, rhs) =>
      var t' := if op == BooleanOr || op == BooleanAnd then TBool else t;
      BothTyped(M, lhs, rhs, types, t', t', rho, calls);
      if t' == t && op != BooleanOr && op != BooleanAnd {
        var (x, calls1) := Eval(M, lhs, rho, calls);
        BinaryTyped(M, op, t, x, Eval(M, rhs, rho, calls1).0);
      }
    case Select(cond, a, b) =>
      TypePreserved(M, cond, types, TBool, rho, calls);
      BothTyped(M, cond, a, types, TBool, ty, rho, calls);
      BothTyped(M, cond, b, types, TBool, ty, rho, calls);
    case Abs(t, arg) =>
      TypePreserved(M, arg, types, t, rho, calls);
      AbsTyped(t, Eval(M, arg, rho, calls).0);
    case Min(t, lhs, rhs) => BothTyped(M, lhs, rhs, types, t, t, rho, calls); ExtremesTyped(M, t, lhs, rhs, rho, calls);
    case Max(t, lhs, rhs) => BothTyped(M, lhs, rhs, types, t, t, rho, calls); ExtremesTyped(M, t, lhs, rhs, rho, calls);
    case SimParam(name) =>
      var (x, calls1) := Eval(M, name, rho, calls);
      AnswerTyped(M, [x], |calls1|);
    case SimParamOr(name, default) =>
      var (x, calls1) := Eval(M, name, rho, calls);
      var (y, calls2) := Eval(M, default, rho, calls1);
      AnswerTyped(M, [x, y], |calls2|);
  }

  lemma {:induction false} BothTyped(M: Machine, a: Expr, b: Expr, types: Types, s: Ty, t: Ty, rho: Value -> Data, calls: Calls)
    requires HasType(a, types, s) && HasType(b, types, t) && Sound(M) && RightTypes(types, rho)
    ensures Typed(s, Eval(M, a, rho, calls).0) && Typed(t, Eval(M, b, rho, Eval(M, a, rho, calls).1).0)
    decreases Size(a) + Size(b), 0
  {
    TypePreserved(M, a, types, s, rho, calls);
    TypePreserved(M, b, types, t, rho, Eval(M, a, rho, calls).1);
  }

  lemma {:induction false} UnaryTyped(M: Machine, op: UnaryOp, t: Ty, arg: Expr, types: Types, ty: Ty, rho: Value -> Data, calls: Calls)
    requires HasType(UnaryExpr(op, t, arg), types, ty) && Sound(M) && RightTypes(types, rho)
    ensures Typed(ty, Eval(M, UnaryExpr(op, t, arg), rho, calls).0)
    decreases Size(arg), 1
  {
    hide Sound, RightTypes;
    var s := match op case Not => TBool case Neg => t case Identity => ty case BitNegate => TInt case Apply(fun) => MathType(fun);
    TypePreserved(M, arg, types, s, rho, calls);
    if op.Apply? { MathTyped(M, op.fun, Eval(M, arg, rho, calls).0); }
  }

  lemma SampleTyped(types: Types, rho: Value -> Data, v: Value)
    requires RightTypes(types, rho) && v in types
    ensures Typed(types[v], rho(v))
  {
  }

  lemma CastTyped(M: Machine, src: Ty, dst: Ty, d: Data)
    requires Sound(M) && Castable(src, dst) && Typed(src, d)
    ensures Typed(dst, M.cast(src, dst, d))
  {
  }

  lemma MathTyped(M: Machine, fun: MathFunction, d: Data)
    requires Sound(M) && Typed(MathType(fun), d)
    ensures Typed(MathType(fun), M.math(fun, d))
  {
  }

  lemma AnswerTyped(M: Machine, args: seq<Data>, n: nat)
    requires Sound(M)
    ensures Typed(TReal, M.answer(SIM_PARAM, args, n)) && Typed(TReal, M.answer(SIM_PARAM_OPT, args, n))
  {
  }

  lemma BinaryTyped(M: Machine, op: BinaryOp, t: Ty, x: Data, y: Data)
    requires Sound(M) && OpTyped(op, t) && op != BooleanOr && op != BooleanAnd && Typed(t, x) && Typed(t, y)
    ensures Typed(if Comparing(op) then TBool else t, Meaning2(M, op, t, x, y))
  {
    hide Equal, Before, Wrap32;
  }

  lemma AbsTyped(t: Ty, x: Data)
    requires Numeric(t) && Typed(t, x)
    ensures Typed(t, AbsOf(t, x))
  {
  }

  lemma ExtremesTyped(M: Machine, t: Ty, lhs: Expr, rhs: Expr, rho: Value -> Data, calls: Calls)
    requires var (x, calls1) := Eval(M, lhs, rho, calls); Typed(t, x) && Typed(t, Eval(M, rhs, rho, calls1).0)
    ensures Typed(t, Eval(M, Min(t, lhs, rhs), rho, calls).0) && Typed(t, Eval(M, Max(t, lhs, rhs), rho, calls).0)
  {
  }
}
