/** How often the checks of a parameter report it. */
module ParamReports {
  import opened Mir
  import opened Lowering
  import opened ParamBounds

  function Count(calls: Calls, k: Callback): nat {
    if calls == [] then 0 else Count(calls[..|calls| - 1], k) + if calls[|calls| - 1].0 == k then 1 else 0
  }

  lemma CountPush(calls: Calls, call: (Callback, seq<Data>), k: Callback)
    ensures Count(calls + [call], k) == Count(calls, k) + if call.0 == k then 1 else 0
  {
    assert (calls + [call])[..|calls|] == calls;
  }

  /** Expressions make only the calls that ask for simulation parameters. */
  lemma {:induction false} EvalCalls(M: Machine, e: Expr, rho: Value -> Data, calls: Calls, k: Callback)
    requires k != SIM_PARAM && k != SIM_PARAM_OPT
    ensures Count(Eval(M, e, rho, calls).1, k) == Count(calls, k)
    decreases Size(e), 0
  {
    hide Count, Meaning2, Truth;
    match e
    case Cast(_, _, arg) => EvalCalls(M, arg, rho, calls, k);
    case UnaryExpr(_, _, arg) => EvalCalls(M, arg, rho, calls, k);
    case BinaryExpr(_, _, lhs, rhs) => EvalTwice(M, lhs, rhs, rho, calls, k);
    case Select(cond, a, b) =>
      EvalTwice(M, cond, a, rho, calls, k);
      EvalTwice(M, cond, b, rho, calls, k);
    case Abs(_, arg) => EvalCalls(M, arg, rho, calls, k);
    case Min(_, lhs, rhs) => EvalTwice(M, lhs, rhs, rho, calls, k);
    case Max(_, lhs, rhs) => EvalTwice(M, lhs, rhs, rho, calls, k);
    case SimParam(name) =>
      EvalCalls(M, name, rho, calls, k);
      var (x, calls1) := Eval(M, name, rho, calls);
      CountPush(calls1, (SIM_PARAM, [x]), k);
    case SimParamOr(name, default) =>
      EvalTwice(M, name, default, rho, calls, k);
      var (x, calls1) := Eval(M, name, rho, calls);
      var (y, calls2) := Eval(M, default, rho, calls1);
      CountPush(calls2, (SIM_PARAM_OPT, [x, y]), k);
    case _ =>
  }

  lemma {:induction false} EvalTwice(M: Machine, a: Expr, b: Expr, rho: Value -> Data, calls: Calls, k: Callback)
    requires k != SIM_PARAM && k != SIM_PARAM_OPT
    ensures var calls1 := Eval(M, a, rho, calls).1;
      Count(calls1, k) == Count(calls, k) && Count(Eval(M, b, rho, calls1).1, k) == Count(calls, k)
    decreases Size(a) + Size(b), 1
  {
    EvalCalls(M, a, rho, calls, k);
    EvalCalls(M, b, rho, Eval(M, a, rho, calls).1, k);
  }

  lemma ContainsCalls(M: Machine, val: ConstraintValue, ty: Ty, p: Data, rho: Value -> Data, calls: Calls, k: Callback)
    requires k != SIM_PARAM && k != SIM_PARAM_OPT
    ensures Count(Contains(M, val, ty, p, rho, calls).1, k) == Count(calls, k)
  {
    match val
    case Single(e) => EvalCalls(M, e, rho, calls, k);
    case Within(range) => EvalTwice(M, range.start, range.end, rho, calls, k);
  }

  lemma {:induction false} ScanCalls(M: Machine, bounds: Bounds, kind: ConstraintKind, ty: Ty, p: Data,
                                     rho: Value -> Data, calls: Calls, k: Callback)
    requires k != SIM_PARAM && k != SIM_PARAM_OPT
    ensures Count(Scan(M, bounds, kind, ty, p, rho, calls).1, k) == Count(calls, k)
  {
    hide Count, Contains;
    if bounds != [] {
      if bounds[0].kind != kind {
        ScanCalls(M, bounds[1..], kind, ty, p, rho, calls, k);
      } else {
        ContainsCalls(M, bounds[0].val, ty, p, rho, calls, k);
        ScanCalls(M, bounds[1..], kind, ty, p, rho, Contains(M, bounds[0].val, ty, p, rho, calls).1, k);
      }
    }
  }

  /** The calls made by looking at the first `i` bounds, as far as they are of the kind. */
  function CallsBefore(M: Machine, bounds: Bounds, kind: ConstraintKind, ty: Ty, p: Data, rho: Value -> Data, calls: Calls, i: nat): Calls
    requires i <= |bounds|
  {
    if i == 0 then calls
    else
      var calls1 := CallsBefore(M, bounds, kind, ty, p, rho, calls, i - 1);
      if bounds[i - 1].kind == kind then Contains(M, bounds[i - 1].val, ty, p, rho, calls1).1 else calls1
  }

  /** Bound `i` is of the kind and contains `p`, when it is looked at after the bounds before it. */
  ghost predicate Admits(M: Machine, bounds: Bounds, kind: ConstraintKind, ty: Ty, p: Data, rho: Value -> Data, calls: Calls, i: nat) {
    i < |bounds| && bounds[i].kind == kind && Contains(M, bounds[i].val, ty, p, rho, CallsBefore(M, bounds, kind, ty, p, rho, calls, i)).0
  }

  lemma {:induction false} ShiftCalls(M: Machine, bounds: Bounds, kind: ConstraintKind, ty: Ty, p: Data,
                                      rho: Value -> Data, calls: Calls, i: nat)
    requires 0 < i <= |bounds|
    ensures CallsBefore(M, bounds, kind, ty, p, rho, calls, i)
         == CallsBefore(M, bounds[1..], kind, ty, p, rho, CallsBefore(M, bounds, kind, ty, p, rho, calls, 1), i - 1)
  {
    hide Contains;
    if i > 1 {
      ShiftCalls(M, bounds, kind, ty, p, rho, calls, i - 1);
      assert bounds[1..][i - 2] == bounds[i - 1];
    }
  }

  /** The scan finds a bound if there is one. */
  lemma {:induction false} ScanFinds(M: Machine, bounds: Bounds, kind: ConstraintKind, ty: Ty, p: Data, rho: Value -> Data, calls: Calls)
    ensures Scan(M, bounds, kind, ty, p, rho, calls).0 <==> exists i: nat :: Admits(M, bounds, kind, ty, p, rho, calls, i)
  {
    hide Contains;
    if bounds != [] {
      var rest := bounds[1..];
      assert CallsBefore(M, bounds, kind, ty, p, rho, calls, 0) == calls;
      var calls1 := CallsBefore(M, bounds, kind, ty, p, rho, calls, 1);
      ScanFinds(M, rest, kind, ty, p, rho, calls1);
      forall i: nat ensures i > 0 ==> (Admits(M, bounds, kind, ty, p, rho, calls, i) <==> Admits(M, rest, kind, ty, p, rho, calls1, i - 1)) {
        if 0 < i < |bounds| { ShiftCalls(M, bounds, kind, ty, p, rho, calls, i); }
      }
      assert Admits(M, bounds, kind, ty, p, rho, calls, 0) <==> bounds[0].kind == kind && Contains(M, bounds[0].val, ty, p, rho, calls).0;
      forall i: nat | Admits(M, rest, kind, ty, p, rho, calls1, i) ensures Admits(M, bounds, kind, ty, p, rho, calls, i + 1) {
        assert i + 1 > 0 && i + 1 - 1 == i;
      }
    }
  }

  /** Some `From` bound exists and none contains `p`, or some `Exclude` bound contains it. */
  ghost predicate Rejected(M: Machine, bounds: Bounds, ty: Ty, p: Data, rho: Value -> Data, calls: Calls) {
    || (HasKind(bounds, From) && !exists i: nat :: Admits(M, bounds, From, ty, p, rho, calls, i))
    || exists i: nat :: Admits(M, bounds, Exclude, ty, p, rho, Scan(M, bounds, From, ty, p, rho, calls).1, i)
  }

  /** `invalid` is called once if the bounds reject the parameter, and not at all otherwise. */
  lemma ReportedOnce(M: Machine, bounds: Bounds, ty: Ty, p: Data, invalid: Callback, rho: Value -> Data, calls: Calls)
    requires invalid != SIM_PARAM && invalid != SIM_PARAM_OPT
    ensures Count(Report(M, bounds, ty, p, invalid, rho, calls), invalid)
         == Count(calls, invalid) + if Rejected(M, bounds, ty, p, rho, calls) then 1 else 0
  {
    hide Count, Scan, HasKind, Admits;
    var (allowed, calls1) := Scan(M, bounds, From, ty, p, rho, calls);
    var (excluded, calls2) := Scan(M, bounds, Exclude, ty, p, rho, calls1);
    ScanFinds(M, bounds, From, ty, p, rho, calls);
    ScanFinds(M, bounds, Exclude, ty, p, rho, calls1);
    ScanCalls(M, bounds, From, ty, p, rho, calls, invalid);
    ScanCalls(M, bounds, Exclude, ty, p, rho, calls1, invalid);
    CountPush(calls1, (invalid, []), invalid);
    CountPush(calls2, (invalid, []), invalid);
  }

  // ---------------------------------------------------------------- callbacks without a memory

  /** What callbacks answer does not depend on the calls before. */
  ghost predicate Steady(M: Machine) {
    forall callee, args, j, k :: M.answer(callee, args, j) == M.answer(callee, args, k)
  }

  lemma {:induction false} EvalSteady(M: Machine, e: Expr, rho: Value -> Data, calls: Calls, calls': Calls)
    requires Steady(M)
    ensures Eval(M, e, rho, calls).0 == Eval(M, e, rho, calls').0
    decreases Size(e), 0
  {
    hide Meaning2, Truth, Steady, Negated, AbsOf, LeastOf, GreatestOf;
    match e
    case Cast(_, _, arg) => EvalSteady(M, arg, rho, calls, calls');
    case UnaryExpr(_, _, arg) => EvalSteady(M, arg, rho, calls, calls');
    case BinaryExpr(_, _, lhs, rhs) => SteadyTwice(M, lhs, rhs, rho, calls, calls');
    case Select(cond, a, b) =>
      SteadyTwice(M, cond, a, rho, calls, calls');
      SteadyTwice(M, cond, b, rho, calls, calls');
    case Abs(_, arg) => EvalSteady(M, arg, rho, calls, calls');
    case Min(_, lhs, rhs) => SteadyTwice(M, lhs, rhs, rho, calls, calls');
    case Max(_, lhs, rhs) => SteadyTwice(M, lhs, rhs, rho, calls, calls');
    case SimParam(name) =>
      EvalSteady(M, name, rho, calls, calls');
      AnswerSteady(M, SIM_PARAM, [Eval(M, name, rho, calls).0], |Eval(M, name, rho, calls).1|, |Eval(M, name, rho, calls').1|);
    case SimParamOr(name, default) =>
      SteadyTwice(M, name, default, rho, calls, calls');
      var (x, calls1) := Eval(M, name, rho, calls);
      var (y, calls2) := Eval(M, default, rho, calls1);
      AnswerSteady(M, SIM_PARAM_OPT, [x, y], |calls2|, |Eval(M, default, rho, Eval(M, name, rho, calls').1).1|);
    case _ =>
  }

  lemma AnswerSteady(M: Machine, callee: Callback, args: seq<Data>, j: nat, k: nat)
    requires Steady(M)
    ensures M.answer(callee, args, j) == M.answer(callee, args, k)
  {
  }

  lemma {:induction false} SteadyTwice(M: Machine, a: Expr, b: Expr, rho: Value -> Data, calls: Calls, calls': Calls)
    requires Steady(M)
    ensures Eval(M, a, rho, calls).0 == Eval(M, a, rho, calls').0
    ensures Eval(M, b, rho, Eval(M, a, rho, calls).1).0 == Eval(M, b, rho, Eval(M, a, rho, calls').1).0
    decreases Size(a) + Size(b), 1
  {
    EvalSteady(M, a, rho, calls, calls');
    EvalSteady(M, b, rho, Eval(M, a, rho, calls).1, Eval(M, a, rho, calls').1);
  }

  lemma ContainsSteady(M: Machine, val: ConstraintValue, ty: Ty, p: Data, rho: Value -> Data, calls: Calls)
    requires Steady(M)
    ensures Contains(M, val, ty, p, rho, calls).0 == Contains(M, val, ty, p, rho, []).0
  {
    match val
    case Single(e) => EvalSteady(M, e, rho, calls, []);
    case Within(range) => SteadyTwice(M, range.start, range.end, rho, calls, []);
  }

  /** Bound `i` is of the kind and contains `p`. */
  ghost predicate Covers(M: Machine, bounds: Bounds, kind: ConstraintKind, ty: Ty, p: Data, rho: Value -> Data, i: nat) {
    i < |bounds| && bounds[i].kind == kind && Contains(M, bounds[i].val, ty, p, rho, []).0
  }

  /** Without a memory each bound contains `p` or not, whatever comes before it. */
  lemma RejectedSteady(M: Machine, bounds: Bounds, ty: Ty, p: Data, rho: Value -> Data, calls: Calls)
    requires Steady(M)
    ensures Rejected(M, bounds, ty, p, rho, calls) <==>
      || (HasKind(bounds, From) && !exists i: nat :: Covers(M, bounds, From, ty, p, rho, i))
      || exists i: nat :: Covers(M, bounds, Exclude, ty, p, rho, i)
  {
    hide Contains, Scan, HasKind, Steady;
    var calls1 := Scan(M, bounds, From, ty, p, rho, calls).1;
    forall i: nat ensures Admits(M, bounds, From, ty, p, rho, calls, i) <==> Covers(M, bounds, From, ty, p, rho, i) {
      if i < |bounds| { ContainsSteady(M, bounds[i].val, ty, p, rho, CallsBefore(M, bounds, From, ty, p, rho, calls, i)); }
    }
    forall i: nat ensures Admits(M, bounds, Exclude, ty, p, rho, calls1, i) <==> Covers(M, bounds, Exclude, ty, p, rho, i) {
      if i < |bounds| { ContainsSteady(M, bounds[i].val, ty, p, rho, CallsBefore(M, bounds, Exclude, ty, p, rho, calls1, i)); }
    }
  }
}
