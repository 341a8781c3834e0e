/** The code that checks a parameter reports it exactly when its bounds reject it. */
module ParamBoundsRuns {
  import opened Prelude
  import opened Mir
  import opened MirBuilder
  import opened Lowering
  import opened LoweringRuns
  import opened LoweringCorrect
  import opened ParamBounds

  // ---------------------------------------------------------------- the graph only grows

  lemma {:induction false} TestBuilt(s: State, val: ConstraintValue, ty: Ty, p: Value)
    requires Fine(s) && ty != TBool && BoundChecked(val, ty, s.next) && p < s.next
    ensures Live(s) && Built(s, LowTest(s, val, OpsOf(ty), p))
  {
    hide Fine, Grows, Built, Low, LowSelect;
    Predefs(s);
    match val
    case Single(e) =>
      var r := OperandBuilt(s, e, s);
      Op2Built(r.0, OpsOf(ty).eq, r.1, p);
      BuiltTwice(s, r.0, Op2(r.0, OpsOf(ty).eq, r.1, p));
    case Within(range) =>
      var r := OperandBuilt(s, range.start, s);
      var q := OperandBuilt(r.0, range.end, s);
      var op, op' := InBound(OpsOf(ty), range.startInclusive), InBound(OpsOf(ty), range.endInclusive);
      var t := Op2(q.0, op, r.1, p);
      Op2Built(q.0, op, r.1, p);
      BuiltTwice(s, q.0, t);
      Parts(q.0, t);
      Parts(s, t);
      Predefs(t.0);
      SelectBuilt(t.0, t.1, Compare(op', p, q.1), Give(FALSE));
      BuiltTwice(s, t.0, LowSelect(t.0, t.1, Compare(op', p, q.1), Give(FALSE)));
  }

  /** An empty block that building does not go on in. */
  predicate Waiting(s: State, b: Block) {
    b < |s.blocks| && b != s.cur && s.blocks[b] == []
  }

  lemma StillWaiting(s: State, s': State, b: Block)
    requires Waiting(s, b) && Grows(s, s')
    ensures Waiting(s', b)
  {
  }

  lemma LeaveBuilt(s: State, ok: Value, exit: Block)
    requires Fine(s)
    ensures var s' := LowLeave(s, ok, exit);
      && Fine(s') && Grows(s, s') && s'.next == s.next && s'.blocks[s'.cur] == [] && s'.cur == |s.blocks|
      && s'.blocks[s.cur] == s.blocks[s.cur] + [Br(ok, exit, s'.cur)]
  {
  }

  lemma CreateBuilt(s: State)
    requires Fine(s)
    ensures var (s', b) := Create(s); Fine(s') && Grows(s, s') && Waiting(s', b) && s'.next == s.next && s'.cur == s.cur && b == |s.blocks|
  {
  }

  lemma OpenBuilt(s: State, exit: Option<Block>)
    requires Fine(s) && (exit.Some? ==> Waiting(s, exit.value))
    ensures Opened(s, exit)
    ensures var (s', b) := OpenExit(s, exit);
      && Fine(s') && Grows(s, s') && Waiting(s', b) && s'.next == s.next && s'.cur == s.cur
      && (exit.Some? ==> b == exit.value) && (exit.None? ==> b == |s.blocks|)
  {
    CreateBuilt(s);
    SelfGrows(s);
  }

  /** The stages of the test of one bound. */
  lemma {:induction false} BoundBuilt(s: State, exit: Option<Block>, val: ConstraintValue, ty: Ty, p: Value)
    returns (s1: State, bb: Block, t: (State, Value), s3: State)
    requires Fine(s) && ty != TBool && BoundChecked(val, ty, s.next) && p < s.next && (exit.Some? ==> Waiting(s, exit.value))
    ensures Opened(s, exit) && (s1, bb) == OpenExit(s, exit) && Fine(s1) && s1.next == s.next && s1.cur == s.cur && Waiting(s1, bb)
    ensures t == LowTest(s1, val, OpsOf(ty), p) && Fine(t.0) && Built(s1, t) && s.next <= t.0.next
    ensures s3 == LowLeave(t.0, t.1, bb) && Fine(s3) && Grows(t.0, s3) && Grows(s, s3) && Waiting(s3, bb)
    ensures Waiting(t.0, bb) && s.next <= s3.next
    ensures (exit.Some? ==> bb == exit.value) && (exit.None? ==> bb == |s.blocks|)
    ensures Grows(s, s1) && Grows(s1, t.0)
  {
    hide Fine, Ext, LowTest, LowLeave, Waiting;
    OpenBuilt(s, exit);
    var q := OpenExit(s, exit);
    s1, bb := q.0, q.1;
    TestBuilt(s1, val, ty, p);
    t := LowTest(s1, val, OpsOf(ty), p);
    Parts(s1, t);
    LeaveBuilt(t.0, t.1, bb);
    s3 := LowLeave(t.0, t.1, bb);
    GrowsTwice(s1, t.0, s3);
    GrowsTwice(s, s1, s3);
    StillWaiting(s1, t.0, bb);
    StillWaiting(t.0, s3, bb);
  }

  /** What the tests of a list of bounds leave behind. */
  ghost predicate BoundsLeft(s: State, exit: Option<Block>, bounds: Bounds, kind: ConstraintKind, r: (State, Option<Block>)) {
    && Fine(r.0) && Grows(s, r.0) && s.next <= r.0.next
    && (r.1.Some? <==> exit.Some? || HasKind(bounds, kind))
    && (r.1.Some? ==> Waiting(r.0, r.1.value) && (if exit.Some? then r.1 == exit else r.1.value >= |s.blocks|))
  }

  lemma HasKindStep(bounds: Bounds, kind: ConstraintKind)
    requires bounds != []
    ensures HasKind(bounds, kind) <==> bounds[0].kind == kind || HasKind(bounds[1..], kind)
  {
    if HasKind(bounds, kind) {
      var i :| 0 <= i < |bounds| && bounds[i].kind == kind;
      if i > 0 { assert bounds[1..][i - 1].kind == kind; }
    } else {
      forall i | 0 <= i < |bounds[1..]| ensures bounds[1..][i].kind != kind { assert bounds[i + 1].kind != kind; }
    }
  }

  lemma {:induction false} BoundCheckedMono(bounds: Bounds, ty: Ty, n: Value, m: Value)
    requires BoundsChecked(bounds, ty, n) && n <= m
    ensures BoundsChecked(bounds, ty, m)
  {
    forall i | 0 <= i < |bounds| ensures BoundChecked(bounds[i].val, ty, m) {
      assert BoundChecked(bounds[i].val, ty, n);
      match bounds[i].val
      case Single(e) => CheckedMono(e, n, m);
      case Within(range) => CheckedMono(range.start, n, m); CheckedMono(range.end, n, m);
    }
  }

  lemma CheckedTestable(bounds: Bounds, ty: Ty, n: Value)
    requires BoundsChecked(bounds, ty, n)
    ensures ty != TBool && Testable(bounds, OpsOf(ty))
    ensures bounds != [] ==> BoundsChecked(bounds[1..], ty, n) && BoundChecked(bounds[0].val, ty, n) && Testable(bounds[1..], OpsOf(ty))
  {
    forall i | 0 <= i < |bounds| ensures bounds[i].val.Within? ==> Ranged(OpsOf(ty)) {
      assert BoundChecked(bounds[i].val, ty, n);
    }
  }

  lemma {:induction false} BoundsBuilt(s: State, exit: Option<Block>, bounds: Bounds, kind: ConstraintKind, ty: Ty, p: Value)
    requires Fine(s) && BoundsChecked(bounds, ty, s.next) && p < s.next && (exit.Some? ==> Waiting(s, exit.value))
    ensures ty != TBool && Testable(bounds, OpsOf(ty)) && Opened(s, exit) && Live(s)
    ensures BoundsLeft(s, exit, bounds, kind, LowBounds(s, exit, bounds, kind, OpsOf(ty), p))
    decreases |bounds|
  {
    hide Fine, Ext, Grows, LowTest, LowLeave, BoundChecked, BoundsChecked, OpenExit, Testable, OpsOf, HasKind;
    Predefs(s);
    SelfGrows(s);
    CheckedTestable(bounds, ty, s.next);
    if bounds == [] {
      NoKind(kind);
    } else {
      HasKindStep(bounds, kind);
      if bounds[0].kind != kind {
        BoundsBuilt(s, exit, bounds[1..], kind, ty, p);
      } else {
        var s1, bb, t, s3 := BoundBuilt(s, exit, bounds[0].val, ty, p);
        BoundCheckedMono(bounds[1..], ty, s.next, s3.next);
        BoundsBuilt(s3, Some(bb), bounds[1..], kind, ty, p);
        var r := LowBounds(s3, Some(bb), bounds[1..], kind, OpsOf(ty), p);
        GrowsTwice(s, s3, r.0);
      }
    }
  }

  lemma NoKind(kind: ConstraintKind)
    ensures !HasKind([], kind)
  {
  }

  // ---------------------------------------------------------------- running the tests

  /** Comparison opcodes mean the order of the numbers. */
  lemma OrderedMeans(M: Machine, ty: Ty, x: Data, y: Data, inclusive: bool)
    requires Numeric(ty)
    ensures Truth(Exec2(M, InBound(OpsOf(ty), inclusive), x, y)) <==> Ordered(ty, x, y, inclusive)
  {
  }

  lemma EqualMeans(M: Machine, ty: Ty, x: Data, y: Data)
    requires ty != TBool
    ensures Truth(Exec2(M, OpsOf(ty).eq, x, y)) <==> Of(ty, x) && Of(ty, y) && Equal(x, y)
  {
  }

  /** The condition computed for a bound is true exactly if the bound contains the parameter. */
  lemma {:induction false} TestRuns(M: Machine, s: State, val: ConstraintValue, ty: Ty, p: Value, P: Prog,
                                    c: Config, rho: Value -> Data, n0: Value)
    returns (c': Config, n: nat, d: Data)
    requires Fine(s) && At(c, s) && ty != TBool && BoundChecked(val, ty, n0) && n0 <= s.next && p < s.next && Agree(rho, P, c.vals, n0)
    requires Ext(LowTest(s, val, OpsOf(ty), p).0, P)
    ensures var r := LowTest(s, val, OpsOf(ty), p);
      var m := Contains(M, val, ty, Read(P, c.vals, p), rho, c.calls);
      Ran(M, P, c, n, c', s.next, r.0, r.1, d, m.1) && Truth(d) == m.0
  {
    hide Fine, Grows, Built, Ext, At, Run, Read, Kept, Eval, Exec2, LowSelect, Low, Truth, Ordered, Equal;
    match val
    case Single(e) => c', n, d := SingleRuns(M, s, e, ty, p, P, c, rho, n0);
    case Within(range) => c', n, d := RangeRuns(M, s, range, ty, p, P, c, rho, n0);
  }

  lemma {:induction false} SingleRuns(M: Machine, s: State, e: Expr, ty: Ty, p: Value, P: Prog, c: Config, rho: Value -> Data, n0: Value)
    returns (c': Config, n: nat, d: Data)
    requires Fine(s) && At(c, s) && ty != TBool && Checked(e, n0) && n0 <= s.next && p < s.next && Agree(rho, P, c.vals, n0)
    requires Ext(LowTest(s, Single(e), OpsOf(ty), p).0, P)
    ensures var r := LowTest(s, Single(e), OpsOf(ty), p);
      var m := Contains(M, Single(e), ty, Read(P, c.vals, p), rho, c.calls);
      Ran(M, P, c, n, c', s.next, r.0, r.1, d, m.1) && Truth(d) == m.0
  {
    hide Fine, Grows, Built, Ext, At, Run, Read, Kept, Eval, Exec2, Low, Truth, Equal, OpsOf;
    CheckedMono(e, n0, s.next);
    var r := OperandBuilt(s, e, s);
    var t := Op2(r.0, OpsOf(ty).eq, r.1, p);
    Op2Built(r.0, OpsOf(ty).eq, r.1, p);
    BuiltExt(r.0, t, P);
    var c1, n1 := LowRuns(M, s, e, P, c, rho, n0);
    var (x, calls1) := Eval(M, e, rho, c.calls);
    c' := RanOp2(M, P, c1, r.0, OpsOf(ty).eq, r.1, p);
    KeptRead(P, c.vals, c1.vals, s.next, p);
    d := Exec2(M, OpsOf(ty).eq, x, Read(P, c.vals, p));
    EqualMeans(M, ty, x, Read(P, c.vals, p));
    n := n1 + 1;
    RanTwice(M, P, c, n1, c1, s.next, r.0, r.1, x, calls1, 1, c', r.0.next, t.0, t.1, d, calls1);
  }

  lemma {:induction false} RangeRuns(M: Machine, s: State, range: Range, ty: Ty, p: Value, P: Prog, c: Config,
                                     rho: Value -> Data, n0: Value)
    returns (c': Config, n: nat, d: Data)
    requires Fine(s) && At(c, s) && Numeric(ty) && Checked(range.start, n0) && Checked(range.end, n0) && n0 <= s.next
    requires p < s.next && Agree(rho, P, c.vals, n0)
    requires Ext(LowTest(s, Within(range), OpsOf(ty), p).0, P)
    ensures var r := LowTest(s, Within(range), OpsOf(ty), p);
      var m := Contains(M, Within(range), ty, Read(P, c.vals, p), rho, c.calls);
      Ran(M, P, c, n, c', s.next, r.0, r.1, d, m.1) && Truth(d) == m.0
  {
    hide Fine, Grows, Built, Ext, At, Run, Read, Kept, Eval, Exec2, LowSelect, Low, Truth, Ordered, InBound;
    var op, op' := InBound(OpsOf(ty), range.startInclusive), InBound(OpsOf(ty), range.endInclusive);
    CheckedMono(range.start, n0, s.next);
    CheckedMono(range.end, n0, s.next);
    var r1 := OperandBuilt(s, range.start, s);
    var (s1, x) := r1;
    var r2 := OperandBuilt(s1, range.end, s);
    var (s2, y) := r2;
    var t := Op2(s2, op, x, p);
    Op2Built(s2, op, x, p);
    Parts(s2, t);
    Predefs(t.0);
    var q := LowSelect(t.0, t.1, Compare(op', p, y), Give(FALSE));
    SelectBuilt(t.0, t.1, Compare(op', p, y), Give(FALSE));
    BuiltExt(t.0, q, P);
    BuiltExt(s2, t, P);
    var c2, n2 := TwoOperands(M, s, range.start, range.end, P, c, rho, n0);
    var (dx, calls1) := Eval(M, range.start, rho, c.calls);
    var (dy, calls2) := Eval(M, range.end, rho, calls1);
    var dp := Read(P, c.vals, p);
    KeptRead(P, c.vals, c2.vals, s.next, p);
    var c3 := RanOp2(M, P, c2, s2, op, x, p);
    var b := Exec2(M, op, dx, dp);
    RanTwice(M, P, c, n2, c2, s.next, s2, y, dy, calls2, 1, c3, s2.next, t.0, t.1, b, calls2);
    AgreeOn(rho, P, c.vals, c3.vals, n0, s.next);
    KeptRead(P, c2.vals, c3.vals, s2.next, p);
    KeptRead(P, c2.vals, c3.vals, s2.next, y);
    PredefRead(t.0, P, c3.vals);
    var n3;
    c', n3 := SelectRuns(M, t.0, t.1, Compare(op', p, y), Give(FALSE), P, c3, rho, n0);
    d := if Truth(b) then Exec2(M, op', dp, dy) else Bool(false);
    OrderedMeans(M, ty, dx, dp, range.startInclusive);
    OrderedMeans(M, ty, dp, dy, range.endInclusive);
    FalseIsFalse();
    n := n2 + 1 + n3;
    RanTwice(M, P, c, n2 + 1, c3, s.next, t.0, t.1, b, calls2, n3, c', t.0.next, q.0, q.1, d, calls2);
  }

  lemma FalseIsFalse()
    ensures !Truth(Bool(false))
  {
  }

  /** `n` steps lead from `c` to `c'`, with the calls made so far; values below `bound` read as before. */
  ghost predicate Moved(M: Machine, P: Prog, c: Config, n: nat, c': Config, bound: Value, calls: Calls) {
    Run(M, P, c, n) == Some(c') && c'.calls == calls && Kept(P, c.vals, c'.vals, bound)
  }

  predicate InFront(c: Config, b: Block) {
    c.block == b && c.pc == 0
  }

  lemma MovedTwice(M: Machine, P: Prog, c: Config, n: nat, c1: Config, bound: Value, calls1: Calls, m: nat,
                   c2: Config, bound1: Value, calls2: Calls)
    requires Moved(M, P, c, n, c1, bound, calls1) && Moved(M, P, c1, m, c2, bound1, calls2) && bound <= bound1
    ensures Moved(M, P, c, n + m, c2, bound, calls2)
  {
    hide Read;
    RunOn(M, P, c, n, m);
    KeptTwice(P, c.vals, c1.vals, c2.vals, bound, bound, bound1);
  }

  lemma RanMoved(M: Machine, P: Prog, c: Config, n: nat, c': Config, bound: Value, s': State, v: Value, d: Data, calls: Calls)
    requires Ran(M, P, c, n, c', bound, s', v, d, calls)
    ensures Moved(M, P, c, n, c', bound, calls) && At(c', s') && Read(P, c'.vals, v) == d
  {
  }

  lemma MovedNot(M: Machine, P: Prog, c: Config, bound: Value)
    ensures Moved(M, P, c, 0, c, bound, c.calls)
  {
  }

  /** A test leaves for the exit or goes on in the new block. */
  lemma RanLeave(M: Machine, P: Prog, c: Config, s: State, ok: Value, exit: Block, bound: Value) returns (c': Config)
    requires Fine(s) && At(c, s) && Ext(LowLeave(s, ok, exit), P)
    ensures Moved(M, P, c, 1, c', bound, c.calls)
    ensures if Truth(Read(P, c.vals, ok)) then InFront(c', exit) else At(c', LowLeave(s, ok, exit))
  {
    var s' := LowLeave(s, ok, exit);
    LeaveBuilt(s, ok, exit);
    assert s'.blocks[s.cur] <= P.blocks[s.cur];
    assert P.blocks[s.cur][c.pc] == s'.blocks[s.cur][c.pc];
    c' := c.(block := if Truth(Read(P, c.vals, ok)) then exit else s'.cur, pc := 0, prev := c.block);
    RunOne(M, P, c);
  }

  /** The test of one bound: out to the exit if the bound contains the parameter, and on otherwise. */
  lemma {:induction false} BoundRuns(M: Machine, s: State, exit: Option<Block>, val: ConstraintValue, ty: Ty,
                                     p: Value, P: Prog, c: Config, rho: Value -> Data, n0: Value)
    returns (c': Config, n: nat, bb: Block, s': State)
    requires Fine(s) && At(c, s) && ty != TBool && BoundChecked(val, ty, n0) && BoundChecked(val, ty, s.next)
    requires n0 <= s.next && p < s.next && Agree(rho, P, c.vals, n0) && (exit.Some? ==> Waiting(s, exit.value))
    requires Opened(s, exit)
    requires var (s1, b) := OpenExit(s, exit); var (s2, ok) := LowTest(s1, val, OpsOf(ty), p); Ext(LowLeave(s2, ok, b), P)
    ensures var (s1, b) := OpenExit(s, exit); var (s2, ok) := LowTest(s1, val, OpsOf(ty), p); bb == b && s' == LowLeave(s2, ok, b)
    ensures Fine(s') && Grows(s, s') && Waiting(s', bb) && s.next <= s'.next
    ensures var m := Contains(M, val, ty, Read(P, c.vals, p), rho, c.calls);
      Moved(M, P, c, n, c', s.next, m.1) && if m.0 then InFront(c', bb) else At(c', s')
  {
    hide Fine, Ext, LowTest, LowLeave, Waiting, Run, Read, Kept, Contains, Built, Grows, OpenExit, Truth;
    hide BoundChecked, OpsOf, Agree;
    var s1, t;
    s1, bb, t, s' := BoundBuilt(s, exit, val, ty, p);
    GrowsExt(t.0, s', P);
    GrowsExt(s1, t.0, P);
    SameEnd(s, s1, c);
    var c1, n1, d := TestRuns(M, s1, val, ty, p, P, c, rho, n0);
    var m := Contains(M, val, ty, Read(P, c.vals, p), rho, c.calls);
    RanMoved(M, P, c, n1, c1, s1.next, t.0, t.1, d, m.1);
    c' := RanLeave(M, P, c1, t.0, t.1, bb, s.next);
    n := n1 + 1;
    MovedTwice(M, P, c, n1, c1, s.next, m.1, 1, c', s.next, m.1);
  }

  lemma SameEnd(s: State, s': State, c: Config)
    requires At(c, s) && Live(s') && s'.cur == s.cur && Fine(s)
    requires exists exit :: Opened(s, exit) && OpenExit(s, exit).0 == s'
    ensures At(c, s')
  {
  }

  /** The tests of the bounds of a kind stop at the first one that contains the parameter. */
  lemma {:induction false} BoundsRun(M: Machine, s: State, exit: Option<Block>, bounds: Bounds,
                                     kind: ConstraintKind, ty: Ty, p: Value, P: Prog, c: Config,
                                     rho: Value -> Data, n0: Value) returns (c': Config, n: nat)
    requires Fine(s) && At(c, s) && BoundsChecked(bounds, ty, n0) && n0 <= s.next && p < s.next && Agree(rho, P, c.vals, n0)
    requires (exit.Some? ==> Waiting(s, exit.value)) && Opened(s, exit) && Testable(bounds, OpsOf(ty))
    requires Ext(LowBounds(s, exit, bounds, kind, OpsOf(ty), p).0, P)
    ensures var r := LowBounds(s, exit, bounds, kind, OpsOf(ty), p);
      var m := Scan(M, bounds, kind, ty, Read(P, c.vals, p), rho, c.calls);
      Moved(M, P, c, n, c', s.next, m.1) && if m.0 then r.1.Some? && InFront(c', r.1.value) else At(c', r.0)
    decreases |bounds|
  {
    hide Fine, Ext, Grows, LowTest, LowLeave, BoundChecked, BoundsChecked, OpenExit, OpsOf, Waiting, Read, Kept, Contains, Moved, Agree, At, HasKind, Testable;
    CheckedTestable(bounds, ty, n0);
    BoundCheckedMono(bounds, ty, n0, s.next);
    CheckedTestable(bounds, ty, s.next);
    var pd := Read(P, c.vals, p);
    if bounds == [] {
      c', n := c, 0;
      MovedNot(M, P, c, s.next);
    } else if bounds[0].kind != kind {
      c', n := BoundsRun(M, s, exit, bounds[1..], kind, ty, p, P, c, rho, n0);
    } else {
      var s1, bb, t, s3 := BoundBuilt(s, exit, bounds[0].val, ty, p);
      BoundCheckedMono(bounds[1..], ty, n0, s3.next);
      BoundsBuilt(s3, Some(bb), bounds[1..], kind, ty, p);
      var r := LowBounds(s3, Some(bb), bounds[1..], kind, OpsOf(ty), p);
      GrowsExt(s3, r.0, P);
      var c1, n1, b, s' := BoundRuns(M, s, exit, bounds[0].val, ty, p, P, c, rho, n0);
      var m := Contains(M, bounds[0].val, ty, pd, rho, c.calls);
      if m.0 {
        c', n := c1, n1;
      } else {
        MovedKept(M, P, c, n1, c1, s.next, m.1, p, rho, n0);
        var n2;
        c', n2 := BoundsRun(M, s3, Some(bb), bounds[1..], kind, ty, p, P, c1, rho, n0);
        n := n1 + n2;
        MovedTwice(M, P, c, n1, c1, s.next, m.1, n2, c', s3.next, Scan(M, bounds[1..], kind, ty, pd, rho, m.1).1);
      }
    }
  }

  lemma MovedKept(M: Machine, P: Prog, c: Config, n: nat, c': Config, bound: Value, calls: Calls, v: Value, rho: Value -> Data, n0: Value)
    requires Moved(M, P, c, n, c', bound, calls) && v < bound && n0 <= bound && Agree(rho, P, c.vals, n0)
    ensures Read(P, c'.vals, v) == Read(P, c.vals, v) && Agree(rho, P, c'.vals, n0) && c'.calls == calls
  {
    AgreeOn(rho, P, c.vals, c'.vals, n0, bound);
  }
}
