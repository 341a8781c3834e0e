/** Checks of parameter values against their bounds: what they mean and the code that is emitted. */
module ParamBounds {
  import opened Prelude
  import opened Mir
  import opened MirBuilder
  import opened Lowering
  import opened LoweringMethods

  datatype ConstraintKind = From | Exclude

  datatype Range = Range(start: Expr, startInclusive: bool, end: Expr, endInclusive: bool)

  datatype ConstraintValue = Single(val: Expr) | Within(range: Range)

  datatype ParamConstraint = ParamConstraint(kind: ConstraintKind, val: ConstraintValue)

  type Bounds = seq<ParamConstraint>

  /** Type checking leaves ranges on numbers only. */
  predicate BoundChecked(val: ConstraintValue, ty: Ty, next: Value) {
    match val
    case Single(e) => Checked(e, next)
    case Within(range) => Numeric(ty) && Checked(range.start, next) && Checked(range.end, next)
  }

  predicate BoundsChecked(bounds: Bounds, ty: Ty, next: Value) {
    ty != TBool && forall i :: 0 <= i < |bounds| ==> BoundChecked(bounds[i].val, ty, next)
  }

  predicate HasKind(bounds: Bounds, kind: ConstraintKind) {
    exists i :: 0 <= i < |bounds| && bounds[i].kind == kind
  }

  // ---------------------------------------------------------------- what bounds mean

  predicate Ordered(ty: Ty, x: Data, y: Data, inclusive: bool) {
    Of(ty, x) && Of(ty, y) && (Before(x, y) || (inclusive && Equal(x, y)))
  }

  /** Whether a bound contains `p`, and the calls made to find out. */
  function Contains(M: Machine, val: ConstraintValue, ty: Ty, p: Data, rho: Value -> Data, calls: Calls): (bool, Calls) {
    match val
    case Single(e) =>
      var (x, calls1) := Eval(M, e, rho, calls);
      (Of(ty, x) && Of(ty, p) && Equal(x, p), calls1)
    case Within(range) =>
      var (x, calls1) := Eval(M, range.start, rho, calls);
      var (y, calls2) := Eval(M, range.end, rho, calls1);
      (Ordered(ty, x, p, range.startInclusive) && Ordered(ty, p, y, range.endInclusive), calls2)
  }

  /** Whether some bound of a kind contains `p`; later bounds are not looked at. */
  function Scan(M: Machine, bounds: Bounds, kind: ConstraintKind, ty: Ty, p: Data, rho: Value -> Data, calls: Calls): (bool, Calls) {
    if bounds == [] then (false, calls)
    else if bounds[0].kind != kind then Scan(M, bounds[1..], kind, ty, p, rho, calls)
    else
      var (hit, calls1) := Contains(M, bounds[0].val, ty, p, rho, calls);
      if hit then (true, calls1) else Scan(M, bounds[1..], kind, ty, p, rho, calls1)
  }

  /** The calls made while `p` is checked: those of the bounds, and at most one of `invalid`. */
  function Report(M: Machine, bounds: Bounds, ty: Ty, p: Data, invalid: Callback, rho: Value -> Data, calls: Calls): Calls {
    var (allowed, calls1) := Scan(M, bounds, From, ty, p, rho, calls);
    if HasKind(bounds, From) && !allowed then calls1 + [(invalid, [])]
    else
      var (excluded, calls2) := Scan(M, bounds, Exclude, ty, p, rho, calls1);
      if excluded then calls2 + [(invalid, [])] else calls2
  }

  // ---------------------------------------------------------------- the code that is emitted

  datatype CmpOps = CmpOps(lt: Option<Opcode2>, le: Option<Opcode2>, eq: Opcode2)

  function OpsOf(ty: Ty): CmpOps
    requires ty != TBool
  {
    match ty
    case TReal => CmpOps(Some(Flt), Some(Fle), Feq)
    case TInt => CmpOps(Some(Ilt), Some(Ile), Ieq)
    case TStr => CmpOps(None, None, Seq)
  }

  predicate Ranged(ops: CmpOps) {
    ops.lt.Some? && ops.le.Some?
  }

  function InBound(ops: CmpOps, inclusive: bool): Opcode2
    requires Ranged(ops)
  {
    if inclusive then ops.le.value else ops.lt.value
  }

  /** The condition that a bound contains the parameter. */
  function LowTest(s: State, val: ConstraintValue, ops: CmpOps, p: Value): (r: (State, Value))
    requires Live(s) && (val.Within? ==> Ranged(ops))
    ensures Live(r.0) && |s.blocks| <= |r.0.blocks|
  {
    match val
    case Single(e) =>
      var (s1, x) := Low(s, e);
      Op2(s1, ops.eq, x, p)
    case Within(range) =>
      var (s1, x) := Low(s, range.start);
      var (s2, y) := Low(s1, range.end);
      var (s3, lo) := Op2(s2, InBound(ops, range.startInclusive), x, p);
      LowSelect(s3, lo, Compare(InBound(ops, range.endInclusive), p, y), Give(FALSE))
  }

  /** Leave for `exit` if the condition holds; building goes on in a new block. */
  function LowLeave(s: State, ok: Value, exit: Block): (r: State)
    requires Live(s)
    ensures Live(r) && |r.blocks| == |s.blocks| + 1
  {
    var (s1, nextBb) := Create(s);
    Switch(Put(s1, Br(ok, exit, nextBb)), nextBb)
  }

  predicate Opened(s: State, exit: Option<Block>) {
    exit.Some? ==> exit.value < |s.blocks|
  }

  function OpenExit(s: State, exit: Option<Block>): (r: (State, Block))
    requires Live(s) && Opened(s, exit)
    ensures Live(r.0) && |s.blocks| <= |r.0.blocks| && r.1 < |r.0.blocks|
  {
    if exit.Some? then (s, exit.value) else Create(s)
  }

  predicate Testable(bounds: Bounds, ops: CmpOps) {
    forall i :: 0 <= i < |bounds| && bounds[i].val.Within? ==> Ranged(ops)
  }

  /** The tests of the bounds of a kind, one after the other. */
  function LowBounds(s: State, exit: Option<Block>, bounds: Bounds, kind: ConstraintKind, ops: CmpOps,
                     p: Value): (r: (State, Option<Block>))
    requires Live(s) && Testable(bounds, ops) && Opened(s, exit)
    ensures Live(r.0) && |s.blocks| <= |r.0.blocks| && Opened(r.0, r.1)
    decreases |bounds|
  {
    if bounds == [] then (s, exit)
    else if bounds[0].kind != kind then LowBounds(s, exit, bounds[1..], kind, ops, p)
    else
      var (s1, bb) := OpenExit(s, exit);
      var (s2, ok) := LowTest(s1, bounds[0].val, ops, p);
      LowBounds(LowLeave(s2, ok, bb), Some(bb), bounds[1..], kind, ops, p)
  }

  /** Report the parameter and leave. */
  function LowReport(s: State, invalid: Callback, globalExit: Block): State
    requires Live(s)
  {
    Put(Put(s, Call(None, invalid, [])), Jump(globalExit))
  }

  /** The tests of one kind: the parameter is reported unless a `From` bound, or if an `Exclude` bound, contains it. */
  function LowCheck(s: State, p: Value, bounds: Bounds, kind: ConstraintKind, ops: CmpOps, invalid: Callback, globalExit: Block): (r: State)
    requires Live(s) && Testable(bounds, ops)
    ensures Live(r) && |s.blocks| <= |r.blocks|
  {
    var (s1, exit) := LowBounds(s, None, bounds, kind, ops, p);
    match kind
    case From => if exit.Some? then Switch(LowReport(s1, invalid, globalExit), exit.value) else s1
    case Exclude =>
      var s2 := Put(s1, Jump(globalExit));
      if exit.Some? then LowReport(Switch(s2, exit.value), invalid, globalExit) else s2
  }

  /** All tests of a parameter; building goes on in a new block. */
  function LowChecks(s: State, p: Value, bounds: Bounds, ops: CmpOps, invalid: Callback): (r: State)
    requires Live(s) && Testable(bounds, ops)
    ensures Live(r) && |s.blocks| <= |r.blocks|
  {
    var (s0, exit) := Create(s);
    var s1 := LowCheck(s0, p, bounds, From, ops, invalid, exit);
    var s2 := LowCheck(s1, p, bounds, Exclude, ops, invalid, exit);
    Switch(s2, exit)
  }

  /** The value of a parameter: the one that was given, or the default; it has been checked either way. */
  function LowParam(s: State, given: Value, p: Value, default: Expr, bounds: Bounds, ops: CmpOps, invalid: Callback): (r: (State, Value))
    requires Live(s) && Testable(bounds, ops)
  {
    var (s1, arms) := Fork(s, given);
    var s2 := LowChecks(s1, p, bounds, ops, invalid);
    var s3 := Switch(Put(s2, Jump(arms.join)), arms.elseDst);
    var (s4, v) := Low(s3, default);
    var s5 := LowChecks(s4, v, bounds, ops, invalid);
    var s6 := Op1(s5, OptBarrier, v).0;
    var s7 := Switch(Put(s6, Jump(arms.join)), arms.join);
    PhiOf(s7, [(s2.cur, p), (s6.cur, v)])
  }

  // ---------------------------------------------------------------- emitting it step by step

  lemma Tail(bounds: Bounds, i: nat)
    requires i < |bounds|
    ensures bounds[i..][1..] == bounds[i + 1..] && bounds[i..][0] == bounds[i]
  {
  }

  method TestBound(func: FunctionBuilder, val: ConstraintValue, ops: CmpOps, p: Value) returns (ok: Value)
    requires Live(func.View()) && (val.Within? ==> Ranged(ops))
    modifies func
    ensures (func.View(), ok) == LowTest(old(func.View()), val, ops, p)
  {
    hide Low, LowSelect, Op2;
    match val {
      case Single(e) =>
        var x := LowerExpr(func, e);
        ok := func.BinaryInst(ops.eq, x, p);
      case Within(range) =>
        var start := LowerExpr(func, range.start);
        var end := LowerExpr(func, range.end);
        var lo := func.BinaryInst(InBound(ops, range.startInclusive), start, p);
        ok := LowerSelectWith(func, lo, Compare(InBound(ops, range.endInclusive), p, end), Give(FALSE));
    }
  }

  method ReportInvalid(func: FunctionBuilder, invalid: Callback, globalExit: Block)
    requires Live(func.View())
    modifies func
    ensures func.View() == LowReport(old(func.View()), invalid, globalExit)
  {
    func.Append(Call(None, invalid, []));
    func.Append(Jump(globalExit));
  }

  /** The loop over the bounds; it yields the block for parameters that one of the bounds contains. */
  method TestBounds(func: FunctionBuilder, p: Value, bounds: Bounds, kind: ConstraintKind, ops: CmpOps) returns (exit: Option<Block>)
    requires Live(func.View()) && Testable(bounds, ops)
    modifies func
    ensures (func.View(), exit) == LowBounds(old(func.View()), None, bounds, kind, ops, p)
  {
    hide LowTest;
    exit := None;
    ghost var s := func.View();
    var i := 0;
    assert bounds[0..] == bounds;
    while i < |bounds|
      invariant 0 <= i <= |bounds| && Live(func.View()) && Opened(func.View(), exit)
      invariant LowBounds(func.View(), exit, bounds[i..], kind, ops, p) == LowBounds(s, None, bounds, kind, ops, p)
    {
      Tail(bounds, i);
      if bounds[i].kind == kind {
        ghost var s0 := func.View();
        ghost var (s1, bb) := OpenExit(s0, exit);
        if exit.None? {
          var b := func.CreateBlock();
          exit := Some(b);
        }
        var ok := TestBound(func, bounds[i].val, ops, p);
        ghost var s2 := func.View();
        var nextBb := func.CreateBlock();
        func.Append(Br(ok, exit.value, nextBb));
        func.SwitchToBlock(nextBb);
        assert func.View() == LowLeave(s2, ok, exit.value);
      }
      i := i + 1;
    }
  }

  method CheckParam(func: FunctionBuilder, p: Value, bounds: Bounds, kind: ConstraintKind, ops: CmpOps,
                    invalid: Callback, globalExit: Block)
    requires Live(func.View()) && Testable(bounds, ops)
    modifies func
    ensures func.View() == LowCheck(old(func.View()), p, bounds, kind, ops, invalid, globalExit)
  {
    hide LowBounds, LowReport;
    var exit := TestBounds(func, p, bounds, kind, ops);
    match kind {
      case From =>
        if exit.Some? {
          ReportInvalid(func, invalid, globalExit);
          func.SwitchToBlock(exit.value);
        }
      case Exclude =>
        func.Append(Jump(globalExit));
        if exit.Some? {
          func.SwitchToBlock(exit.value);
          ReportInvalid(func, invalid, globalExit);
        }
    }
  }

  method CheckBounds(func: FunctionBuilder, p: Value, bounds: Bounds, ops: CmpOps, invalid: Callback)
    requires Live(func.View()) && Testable(bounds, ops)
    modifies func
    ensures func.View() == LowChecks(old(func.View()), p, bounds, ops, invalid)
  {
    hide LowCheck;
    var exit := func.CreateBlock();
    CheckParam(func, p, bounds, From, ops, invalid, exit);
    CheckParam(func, p, bounds, Exclude, ops, invalid, exit);
    func.SwitchToBlock(exit);
  }

  /** The code for the initial value of one parameter. */
  method InitParam(func: FunctionBuilder, given: Value, p: Value, default: Expr, bounds: Bounds, ops: CmpOps, invalid: Callback)
    returns (v: Value)
    requires Live(func.View()) && Testable(bounds, ops)
    modifies func
    ensures (func.View(), v) == LowParam(old(func.View()), given, p, default, bounds, ops, invalid)
  {
    hide LowChecks, Low;
    var thenDst := func.CreateBlock();
    var elseDst := func.CreateBlock();
    var nextBb := func.CreateBlock();
    func.Append(Br(given, thenDst, elseDst));

    func.SwitchToBlock(thenDst);
    CheckBounds(func, p, bounds, ops, invalid);
    func.Append(Jump(nextBb));
    var thenTail := func.position;

    func.SwitchToBlock(elseDst);
    var defaultVal := LowerExpr(func, default);
    CheckBounds(func, defaultVal, bounds, ops, invalid);
    var _ := func.UnaryInst(OptBarrier, defaultVal);
    func.Append(Jump(nextBb));
    var elseTail := func.position;

    func.SwitchToBlock(nextBb);
    v := func.PhiInst([(thenTail, p), (elseTail, defaultVal)]);
  }
}
