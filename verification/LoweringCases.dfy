/** Whole functions, for kinds of expressions and bounds whose result can be said in plain terms. */
module LoweringCases {
  import opened Prelude
  import opened Mir
  import opened MirBuilder
  import opened Lowering
  import opened LoweringMeaning
  import opened LoweringWhole
  import opened ParamBounds
  import opened ParamReports

  // ---------------------------------------------------------------- expressions

  /** A well-typed expression yields data of its type. */
  lemma TypedFromEntry(M: Machine, e: Expr, types: Types, ty: Ty, args: map<Value, Data>) returns (c': Config, n: nat)
    requires Checked(e, ARGUMENTS) && HasType(e, types, ty) && Sound(M) && Live(Empty())
    requires RightTypes(types, Environment(Whole(Low(Empty(), e).0), args))
    ensures var r := Low(Empty(), e); var P := Whole(r.0);
      Run(M, P, Entry(args), n) == Some(c') && At(c', r.0) && Typed(ty, Read(P, c'.vals, r.1))
  {
    hide Low, Run, Read, HasType, Sound, RightTypes;
    c', n := ExprFromEntry(M, e, args);
    TypePreserved(M, e, types, ty, Environment(Whole(Low(Empty(), e).0), args), []);
  }

  /** The literal infinity, perhaps with a recorded cast. */
  predicate IsInfinity(e: Expr, float: bool) {
    e == Infinite(float) || (e.Cast? && e.arg == Infinite(float))
  }

  /** Infinity is the infinite real number or the greatest integer; its negation is minus infinity or the smallest integer. */
  lemma InfinityFromEntry(M: Machine, e: Expr, float: bool, ty: Ty, args: map<Value, Data>)
    returns (c1: Config, n1: nat, c2: Config, n2: nat)
    requires IsInfinity(e, float) && Checked(e, ARGUMENTS) && Numeric(ty) && Live(Empty())
    ensures var r := Low(Empty(), e); var P := Whole(r.0);
      && Run(M, P, Entry(args), n1) == Some(c1) && At(c1, r.0)
      && Read(P, c1.vals, r.1) == if float then Flo(PosInf) else Int(0x7fff_ffff)
    ensures var r := Low(Empty(), UnaryExpr(Neg, ty, e)); var P := Whole(r.0);
      && Run(M, P, Entry(args), n2) == Some(c2) && At(c2, r.0)
      && Read(P, c2.vals, r.1) == if float then Flo(NegInf) else Int(-0x8000_0000)
  {
    hide Low, Run, Read;
    c1, n1 := ExprFromEntry(M, e, args);
    assert Checked(UnaryExpr(Neg, ty, e), ARGUMENTS);
    c2, n2 := ExprFromEntry(M, UnaryExpr(Neg, ty, e), args);
    InfinityMeans(M, e, float, ty, Environment(Whole(Low(Empty(), e).0), args));
    InfinityMeans(M, e, float, ty, Environment(Whole(Low(Empty(), UnaryExpr(Neg, ty, e)).0), args));
  }

  lemma InfinityMeans(M: Machine, e: Expr, float: bool, ty: Ty, rho: Value -> Data)
    requires IsInfinity(e, float)
    ensures Eval(M, e, rho, []).0 == if float then Flo(PosInf) else Int(0x7fff_ffff)
    ensures Eval(M, UnaryExpr(Neg, ty, e), rho, []).0 == if float then Flo(NegInf) else Int(-0x8000_0000)
  {
  }

  /** `d` is the negation of `x`: the additive inverse, for integers modulo 2^32. */
  predicate Opposite(x: Data, d: Data) {
    match x
    case Int(i) => Modular(d, -i)
    case Flo(Fin(r)) => d == Flo(Fin(-r))
    case Flo(PosInf) => d == Flo(NegInf)
    case Flo(NegInf) => d == Flo(PosInf)
    case Flo(NaN) => d == Flo(NaN)
    case _ => false
  }

  /** All other negations yield the negation of their operand. */
  lemma NegationFromEntry(M: Machine, e: Expr, ty: Ty, x: Data, args: map<Value, Data>) returns (c': Config, n: nat)
    requires !IsInfinity(e, true) && !IsInfinity(e, false) && Checked(e, ARGUMENTS) && Numeric(ty) && Live(Empty())
    requires Of(ty, x) && Eval(M, e, Environment(Whole(Low(Empty(), UnaryExpr(Neg, ty, e)).0), args), []).0 == x
    ensures var r := Low(Empty(), UnaryExpr(Neg, ty, e)); var P := Whole(r.0);
      Run(M, P, Entry(args), n) == Some(c') && At(c', r.0) && Opposite(x, Read(P, c'.vals, r.1))
  {
    hide Low, Run, Read;
    assert Checked(UnaryExpr(Neg, ty, e), ARGUMENTS);
    c', n := ExprFromEntry(M, UnaryExpr(Neg, ty, e), args);
    NegationMeans(M, e, ty, x, Environment(Whole(Low(Empty(), UnaryExpr(Neg, ty, e)).0), args));
  }

  lemma NegationMeans(M: Machine, e: Expr, ty: Ty, x: Data, rho: Value -> Data)
    requires !IsInfinity(e, true) && !IsInfinity(e, false) && Numeric(ty) && Of(ty, x) && Eval(M, e, rho, []).0 == x
    ensures Opposite(x, Eval(M, UnaryExpr(Neg, ty, e), rho, []).0)
  {
    hide Wrap32;
    if x.Int? { WrapIs(-x.i); }
  }

  // ---------------------------------------------------------------- bounds

  /** A single bound: one that has to contain the parameter, or one that must not. */
  lemma OneBound(M: Machine, kind: ConstraintKind, val: ConstraintValue, ty: Ty, p: Data, rho: Value -> Data)
    ensures Rejected(M, [ParamConstraint(kind, val)], ty, p, rho, []) <==> Contains(M, val, ty, p, rho, []).0 == (kind == Exclude)
  {
    hide Contains;
    var bounds := [ParamConstraint(kind, val)];
    assert HasKind(bounds, kind) by { assert bounds[0].kind == kind; }
    ScanFinds(M, bounds, From, ty, p, rho, []);
    ScanFinds(M, bounds, Exclude, ty, p, rho, Scan(M, bounds, From, ty, p, rho, []).1);
    assert bounds[1..] == [];
  }

  /** `p` is in the interval from the real number `lo` to infinity. */
  predicate FromRealOn(p: Float, lo: real, startInclusive: bool, endInclusive: bool) {
    match p
    case NaN => false
    case NegInf => false
    case Fin(r) => lo < r || (startInclusive && lo == r)
    case PosInf => endInclusive
  }

  function RealOn(lo: real, startInclusive: bool, endInclusive: bool): ConstraintValue {
    Within(Range(Literal(Flo(Fin(lo))), startInclusive, Infinite(true), endInclusive))
  }

  function IntBetween(lo: int, startInclusive: bool, hi: int, endInclusive: bool): ConstraintValue {
    Within(Range(Literal(Int(lo)), startInclusive, Literal(Int(hi)), endInclusive))
  }

  predicate InIntegers(i: int, lo: int, startInclusive: bool, hi: int, endInclusive: bool) {
    (if startInclusive then lo <= i else lo < i) && (if endInclusive then i <= hi else i < hi)
  }

  lemma RealOnMeans(M: Machine, lo: real, startInclusive: bool, endInclusive: bool, p: Float, rho: Value -> Data)
    ensures Contains(M, RealOn(lo, startInclusive, endInclusive), TReal, Flo(p), rho, []).0 <==> FromRealOn(p, lo, startInclusive, endInclusive)
  {
  }

  lemma IntBetweenMeans(M: Machine, lo: int, startInclusive: bool, hi: int, endInclusive: bool, i: int, rho: Value -> Data)
    ensures Contains(M, IntBetween(lo, startInclusive, hi, endInclusive), TInt, Int(i), rho, []).0
      <==> InIntegers(i, lo, startInclusive, hi, endInclusive)
  {
  }

  /** A given parameter `x` with one bound: what runs, and how often `invalid` is called. */
  lemma GivenFromEntry(M: Machine, given: Value, p: Value, default: Expr, kind: ConstraintKind, val: ConstraintValue, ty: Ty, invalid: Callback,
                       x: Data, args: map<Value, Data>)
    returns (c': Config, n: nat)
    requires ty != TBool && BoundChecked(val, ty, ARGUMENTS) && Checked(default, ARGUMENTS) && p < ARGUMENTS && Live(Empty())
    requires invalid != SIM_PARAM && invalid != SIM_PARAM_OPT && Testable([ParamConstraint(kind, val)], OpsOf(ty))
    requires var P := Whole(LowParam(Empty(), given, p, default, [ParamConstraint(kind, val)], OpsOf(ty), invalid).0);
      Read(P, args, given) == Bool(true) && Read(P, args, p) == x
    ensures var r := LowParam(Empty(), given, p, default, [ParamConstraint(kind, val)], OpsOf(ty), invalid); var P := Whole(r.0);
      && Run(M, P, Entry(args), n) == Some(c') && At(c', r.0) && Read(P, c'.vals, r.1) == x
      && Count(c'.calls, invalid) ==
         if Contains(M, val, ty, x, Environment(P, args), []).0 == (kind == Exclude) then 1 else 0
  {
    hide LowParam, Run, Read, Contains, Rejected, Count;
    var bounds := [ParamConstraint(kind, val)];
    assert BoundsChecked(bounds, ty, ARGUMENTS);
    c', n := ParamFromEntry(M, given, p, default, bounds, ty, invalid, args);
    var P := Whole(LowParam(Empty(), given, p, default, bounds, OpsOf(ty), invalid).0);
    OneBound(M, kind, val, ty, x, Environment(P, args));
  }

  /** A real parameter with the bound from `lo` to infinity is reported exactly if it is outside, or not a number. */
  lemma RealRangeFromEntry(M: Machine, given: Value, p: Value, default: Expr, lo: real, startInclusive: bool, endInclusive: bool,
                           invalid: Callback, x: Float, args: map<Value, Data>)
    returns (c': Config, n: nat)
    requires Checked(default, ARGUMENTS) && p < ARGUMENTS && Live(Empty()) && invalid != SIM_PARAM && invalid != SIM_PARAM_OPT
    requires Testable([ParamConstraint(From, RealOn(lo, startInclusive, endInclusive))], OpsOf(TReal))
    requires var bounds := [ParamConstraint(From, RealOn(lo, startInclusive, endInclusive))];
      var P := Whole(LowParam(Empty(), given, p, default, bounds, OpsOf(TReal), invalid).0);
      Read(P, args, given) == Bool(true) && Read(P, args, p) == Flo(x)
    ensures var bounds := [ParamConstraint(From, RealOn(lo, startInclusive, endInclusive))];
      var r := LowParam(Empty(), given, p, default, bounds, OpsOf(TReal), invalid);
      && Run(M, Whole(r.0), Entry(args), n) == Some(c') && At(c', r.0) && Read(Whole(r.0), c'.vals, r.1) == Flo(x)
      && Count(c'.calls, invalid) == if FromRealOn(x, lo, startInclusive, endInclusive) then 0 else 1
  {
    hide LowParam, Run, Read, Contains, Count;
    var val := RealOn(lo, startInclusive, endInclusive);
    assert BoundChecked(val, TReal, ARGUMENTS);
    c', n := GivenFromEntry(M, given, p, default, From, val, TReal, invalid, Flo(x), args);
    var P := Whole(LowParam(Empty(), given, p, default, [ParamConstraint(From, val)], OpsOf(TReal), invalid).0);
    RealOnMeans(M, lo, startInclusive, endInclusive, x, Environment(P, args));
  }

  /** An integer parameter with a bound between two integers is reported exactly if it is outside, or inside one that is excluded. */
  lemma IntRangeFromEntry(M: Machine, given: Value, p: Value, default: Expr, kind: ConstraintKind,
                          lo: int, startInclusive: bool, hi: int, endInclusive: bool, invalid: Callback, i: int, args: map<Value, Data>)
    returns (c': Config, n: nat)
    requires Checked(default, ARGUMENTS) && p < ARGUMENTS && Live(Empty()) && invalid != SIM_PARAM && invalid != SIM_PARAM_OPT
    requires Testable([ParamConstraint(kind, IntBetween(lo, startInclusive, hi, endInclusive))], OpsOf(TInt))
    requires var bounds := [ParamConstraint(kind, IntBetween(lo, startInclusive, hi, endInclusive))];
      var P := Whole(LowParam(Empty(), given, p, default, bounds, OpsOf(TInt), invalid).0);
      Read(P, args, given) == Bool(true) && Read(P, args, p) == Int(i)
    ensures var bounds := [ParamConstraint(kind, IntBetween(lo, startInclusive, hi, endInclusive))];
      var r := LowParam(Empty(), given, p, default, bounds, OpsOf(TInt), invalid);
      && Run(M, Whole(r.0), Entry(args), n) == Some(c') && At(c', r.0) && Read(Whole(r.0), c'.vals, r.1) == Int(i)
      && Count(c'.calls, invalid) == if InIntegers(i, lo, startInclusive, hi, endInclusive) == (kind == From) then 0 else 1
  {
    hide LowParam, Run, Read, Contains, Count;
    var val := IntBetween(lo, startInclusive, hi, endInclusive);
    assert BoundChecked(val, TInt, ARGUMENTS);
    c', n := GivenFromEntry(M, given, p, default, kind, val, TInt, invalid, Int(i), args);
    var P := Whole(LowParam(Empty(), given, p, default, [ParamConstraint(kind, val)], OpsOf(TInt), invalid).0);
    IntBetweenMeans(M, lo, startInclusive, hi, endInclusive, i, Environment(P, args));
  }
}
