/** The initial value of a parameter: given or default, and checked against its bounds. */
module ParamInit {
  import opened Prelude
  import opened Mir
  import opened MirBuilder
  import opened Lowering
  import opened LoweringRuns
  import opened LoweringCorrect
  import opened ParamBounds
  import opened ParamBoundsRuns
  import opened ParamChecks

  /** States on the way: the two branches and the block where they meet. */
  datatype Branches = Branches(arms: Arms, s1: State, s2: State, s3: State, s4: State, v: Value, s5: State, s6: State, s7: State)

  function BranchesOf(s: State, given: Value, p: Value, default: Expr, bounds: Bounds, ops: CmpOps, invalid: Callback): (r: Branches)
    requires Live(s) && Testable(bounds, ops)
    ensures Live(r.s7) && LowParam(s, given, p, default, bounds, ops, invalid) == PhiOf(r.s7, [(r.s2.cur, p), (r.s6.cur, r.v)])
  {
    var (s1, arms) := Fork(s, given);
    var s2 := LowChecks(s1, p, bounds, ops, invalid);
    var s3 := Switch(Put(s2, Jump(arms.join)), arms.elseDst);
    var (s4, v) := Low(s3, default);
    var s5 := LowChecks(s4, v, bounds, ops, invalid);
    var s6 := Op1(s5, OptBarrier, v).0;
    var s7 := Switch(Put(s6, Jump(arms.join)), arms.join);
    Branches(arms, s1, s2, s3, s4, v, s5, s6, s7)
  }

  lemma {:induction false} GivenBuilt(s: State, given: Value, p: Value, default: Expr, bounds: Bounds, ty: Ty, invalid: Callback)
    requires Fine(s) && BoundsChecked(bounds, ty, s.next) && p < s.next
    ensures ty != TBool && Testable(bounds, OpsOf(ty)) && Live(s)
    ensures var g := BranchesOf(s, given, p, default, bounds, OpsOf(ty), invalid);
      && Fork(s, given) == (g.s1, g.arms) && g.s2 == LowChecks(g.s1, p, bounds, OpsOf(ty), invalid)
      && Fine(g.s1) && Fine(g.s2) && Fine(g.s3) && Grows(s, g.s3) && Grows(g.s1, g.s2) && s.next == g.s1.next <= g.s2.next == g.s3.next
      && g.s1.blocks[g.s1.cur] == [] && g.s1.cur == g.arms.thenDst
      && g.s3.cur == g.arms.elseDst && g.s3.blocks[g.s3.cur] == [] && |s.blocks| <= g.s3.cur && Waiting(g.s3, g.arms.join) && g.s2.cur < |g.s3.blocks|
      && Ext(Put(g.s2, Jump(g.arms.join)), Whole(g.s3)) && |s.blocks| <= g.arms.join && Live(g.s1) && Live(g.s3) && Live(g.s2)
  {
    hide Fine, BoundsChecked, LowChecks, Low, OpsOf, Testable;
    BoundsBuilt(s, None, bounds, From, ty, p);
    Predefs(s);
    var g := BranchesOf(s, given, p, default, bounds, OpsOf(ty), invalid);
    ForkBuilt(s, given);
    ChecksBuilt(g.s1, p, bounds, ty, invalid);
    JoinBuilt(s, g.s1, g.s2, g.arms.join, g.arms.elseDst);
    assert g.s2.blocks[g.arms.join] == g.s1.blocks[g.arms.join];
  }

  lemma {:induction false} DefaultBuilt(s: State, given: Value, p: Value, default: Expr, bounds: Bounds, ty: Ty, invalid: Callback)
    requires Fine(s) && BoundsChecked(bounds, ty, s.next) && p < s.next && Checked(default, s.next)
    ensures ty != TBool && Testable(bounds, OpsOf(ty)) && Live(s)
    ensures var g := BranchesOf(s, given, p, default, bounds, OpsOf(ty), invalid);
      && Low(g.s3, default) == (g.s4, g.v) && Built(g.s3, (g.s4, g.v)) && Live(g.s4)
      && g.s5 == LowChecks(g.s4, g.v, bounds, OpsOf(ty), invalid) && Live(g.s5)
      && g.s6 == Op1(g.s5, OptBarrier, g.v).0
      && Fine(g.s4) && Fine(g.s5) && Fine(g.s6) && Fine(g.s7) && Grows(s, g.s7) && Grows(g.s3, g.s4) && Grows(g.s4, g.s5) && Grows(g.s5, g.s6)
      && s.next <= g.s3.next <= g.s4.next <= g.s5.next < g.s6.next == g.s7.next && g.v < g.s4.next
      && g.s7.cur == g.arms.join && g.s7.blocks[g.s7.cur] == [] && Live(g.s7)
      && Ext(Put(g.s6, Jump(g.arms.join)), Whole(g.s7)) && g.s2.cur != g.s6.cur && Live(g.s6)
  {
    hide Fine, Ext, BoundsChecked, LowChecks, Low, OpsOf, Testable;
    GivenBuilt(s, given, p, default, bounds, ty, invalid);
    var g := BranchesOf(s, given, p, default, bounds, OpsOf(ty), invalid);
    CheckedMono(default, s.next, g.s3.next);
    LowBuilt(g.s3, default);
    Parts(g.s3, (g.s4, g.v));
    BoundCheckedMono(bounds, ty, s.next, g.s4.next);
    ChecksBuilt(g.s4, g.v, bounds, ty, invalid);
    Op1Built(g.s5, OptBarrier, g.v);
    Parts(g.s5, Op1(g.s5, OptBarrier, g.v));
    GrowsTwice(g.s3, g.s4, g.s5);
    GrowsTwice(g.s3, g.s5, g.s6);
    JoinBuilt(s, g.s3, g.s6, g.arms.join, g.arms.join);
  }

  lemma {:induction false} BranchExts(s: State, given: Value, p: Value, default: Expr, bounds: Bounds, ty: Ty, invalid: Callback, P: Prog)
    requires Fine(s) && BoundsChecked(bounds, ty, s.next) && p < s.next && Checked(default, s.next)
    requires ty != TBool && Testable(bounds, OpsOf(ty)) && Live(s) && Ext(LowParam(s, given, p, default, bounds, OpsOf(ty), invalid).0, P)
    ensures var g := BranchesOf(s, given, p, default, bounds, OpsOf(ty), invalid);
      && Ext(g.s1, P) && Ext(g.s2, P) && Ext(Put(g.s2, Jump(g.arms.join)), P) && Ext(g.s4, P) && Ext(g.s5, P) && Ext(g.s6, P)
      && Ext(Put(g.s6, Jump(g.arms.join)), P) && Live(g.s2) && Live(g.s6)
  {
    hide Fine, Ext, BoundsChecked, LowChecks, Low, OpsOf, Testable, Grows, Op1, Built;
    var g := BranchesOf(s, given, p, default, bounds, OpsOf(ty), invalid);
    GivenBuilt(s, given, p, default, bounds, ty, invalid);
    DefaultBuilt(s, given, p, default, bounds, ty, invalid);
    var edges := [(g.s2.cur, p), (g.s6.cur, g.v)];
    PhiBuilt(g.s7, edges);
    BuiltExt(g.s7, PhiOf(g.s7, edges), P);
    ExtBack(Put(g.s6, Jump(g.arms.join)), g.s7, P);
    PutExt(g.s6, Jump(g.arms.join), P);
    GrowsExt(g.s5, g.s6, P);
    GrowsExt(g.s4, g.s5, P);
    GrowsExt(g.s3, g.s4, P);
    ExtBack(Put(g.s2, Jump(g.arms.join)), g.s3, P);
    PutExt(g.s2, Jump(g.arms.join), P);
    GrowsExt(g.s1, g.s2, P);
  }

  /** A parameter that was given: it is checked, and control reaches the meeting block. */
  lemma {:induction false} GivenRuns(M: Machine, s: State, given: Value, p: Value, default: Expr, bounds: Bounds,
                                     ty: Ty, invalid: Callback, P: Prog, c: Config,
                                     rho: Value -> Data, n0: Value) returns (c': Config, n: nat)
    requires Fine(s) && At(c, s) && BoundsChecked(bounds, ty, n0) && BoundsChecked(bounds, ty, s.next) && Checked(default, s.next)
    requires n0 <= s.next && p < s.next && Agree(rho, P, c.vals, n0)
    requires ty != TBool && Testable(bounds, OpsOf(ty)) && Ext(LowParam(s, given, p, default, bounds, OpsOf(ty), invalid).0, P)
    requires Truth(Read(P, c.vals, given))
    ensures var g := BranchesOf(s, given, p, default, bounds, OpsOf(ty), invalid);
      InFront(c', g.arms.join) && c'.prev == g.s2.cur && Read(P, c'.vals, p) == Read(P, c.vals, p)
    ensures Moved(M, P, c, n, c', s.next, Report(M, bounds, ty, Read(P, c.vals, p), invalid, rho, c.calls))
  {
    hide Fine, Ext, Grows, LowChecks, BoundsChecked, OpsOf, Testable, Read, Kept, Agree, Report, Low, Fork, LowParam;
    GivenBuilt(s, given, p, default, bounds, ty, invalid);
    BranchExts(s, given, p, default, bounds, ty, invalid, P);
    var g := BranchesOf(s, given, p, default, bounds, OpsOf(ty), invalid);
    var c1 := RanFork(M, P, c, s, given);
    var report := Report(M, bounds, ty, Read(P, c.vals, p), invalid, rho, c.calls);
    var c2, n2 := ChecksRun(M, g.s1, p, bounds, ty, invalid, P, c1, rho, n0);
    c' := RanJump(M, P, c2, g.s2, g.arms.join);
    SameVals(P, c.vals, s.next);
    SameVals(P, c2.vals, s.next);
    MovedTwice(M, P, c, 1, c1, s.next, c.calls, n2, c2, s.next, report);
    MovedTwice(M, P, c, 1 + n2, c2, s.next, report, 1, c', s.next, report);
    KeptRead(P, c.vals, c'.vals, s.next, p);
    n := 1 + n2 + 1;
  }

  /** One that was not given: its default is computed and checked. */
  lemma {:induction false} DefaultRuns(M: Machine, s: State, given: Value, p: Value, default: Expr,
                                       bounds: Bounds, ty: Ty, invalid: Callback, P: Prog, c: Config,
                                       rho: Value -> Data, n0: Value) returns (c': Config, n: nat)
    requires Fine(s) && At(c, s) && BoundsChecked(bounds, ty, n0) && BoundsChecked(bounds, ty, s.next)
    requires Checked(default, n0) && Checked(default, s.next)
    requires n0 <= s.next && p < s.next && Agree(rho, P, c.vals, n0)
    requires ty != TBool && Testable(bounds, OpsOf(ty)) && Ext(LowParam(s, given, p, default, bounds, OpsOf(ty), invalid).0, P)
    requires !Truth(Read(P, c.vals, given))
    ensures var g := BranchesOf(s, given, p, default, bounds, OpsOf(ty), invalid);
      var (d, calls1) := Eval(M, default, rho, c.calls);
      && InFront(c', g.arms.join) && c'.prev == g.s6.cur && Read(P, c'.vals, g.v) == d
      && Moved(M, P, c, n, c', s.next, Report(M, bounds, ty, d, invalid, rho, calls1))
  {
    hide Fine, Ext, Grows, LowChecks, BoundsChecked, OpsOf, Testable, Read, Kept, Agree, Report, Low, Eval, Built, LowParam;
    GivenBuilt(s, given, p, default, bounds, ty, invalid);
    DefaultBuilt(s, given, p, default, bounds, ty, invalid);
    BranchExts(s, given, p, default, bounds, ty, invalid, P);
    var g := BranchesOf(s, given, p, default, bounds, OpsOf(ty), invalid);
    var c1 := RanFork(M, P, c, s, given);
    SameVals(P, c.vals, s.next);
    var c2, n2 := LowRuns(M, g.s3, default, P, c1, rho, n0);
    var (d, calls1) := Eval(M, default, rho, c.calls);
    RanMoved(M, P, c1, n2, c2, g.s3.next, g.s4, g.v, d, calls1);
    MovedTwice(M, P, c, 1, c1, s.next, c.calls, n2, c2, g.s3.next, calls1);
    AgreeOn(rho, P, c.vals, c2.vals, n0, s.next);
    var report := Report(M, bounds, ty, d, invalid, rho, calls1);
    var c3, n3 := ChecksRun(M, g.s4, g.v, bounds, ty, invalid, P, c2, rho, n0);
    MovedTwice(M, P, c, 1 + n2, c2, s.next, calls1, n3, c3, g.s4.next, report);
    KeptRead(P, c2.vals, c3.vals, g.s4.next, g.v);
    n := 1 + n2 + n3 + 2;
    c' := BarrierJump(M, g.s5, g.v, g.arms.join, P, c3);
    MovedTwice(M, P, c, 1 + n2 + n3, c3, s.next, report, 2, c', g.s5.next, report);
    KeptRead(P, c3.vals, c'.vals, g.s5.next, g.v);
  }

  lemma BarrierJump(M: Machine, s: State, v: Value, join: Block, P: Prog, c: Config) returns (c': Config)
    requires Fine(s) && At(c, s) && v < s.next && Ext(Op1(s, OptBarrier, v).0, P) && Ext(Put(Op1(s, OptBarrier, v).0, Jump(join)), P)
    ensures Moved(M, P, c, 2, c', s.next, c.calls) && InFront(c', join) && c'.prev == s.cur
  {
    hide Fine, Ext, Read;
    var s' := Op1(s, OptBarrier, v).0;
    var c1 := RanOp1(M, P, c, s, OptBarrier, v);
    c' := RanJump(M, P, c1, s', join);
    RunOn(M, P, c, 1, 1);
  }

  /**
   * The code for a parameter runs to its tail block, where the returned value is the given value or
   * the default; that value has been checked, and the calls are those of the default and the check.
   */
  lemma {:induction false} ParamRuns(M: Machine, s: State, given: Value, p: Value, default: Expr, bounds: Bounds,
                                     ty: Ty, invalid: Callback, P: Prog, c: Config,
                                     rho: Value -> Data, n0: Value) returns (c': Config, n: nat)
    requires Fine(s) && At(c, s) && BoundsChecked(bounds, ty, n0) && Checked(default, n0) && n0 <= s.next && p < s.next
    requires Agree(rho, P, c.vals, n0)
    requires ty != TBool && Testable(bounds, OpsOf(ty)) && Ext(LowParam(s, given, p, default, bounds, OpsOf(ty), invalid).0, P)
    ensures var r := LowParam(s, given, p, default, bounds, OpsOf(ty), invalid);
      var (d, calls1) := if Truth(Read(P, c.vals, given)) then (Read(P, c.vals, p), c.calls) else Eval(M, default, rho, c.calls);
      Ran(M, P, c, n, c', s.next, r.0, r.1, d, Report(M, bounds, ty, d, invalid, rho, calls1))
  {
    hide Fine, Ext, Grows, LowChecks, BoundsChecked, OpsOf, Testable, Read, Kept, Agree, Report, Low, Eval, Truth, LowParam, BranchesOf, Built;
    BoundCheckedMono(bounds, ty, n0, s.next);
    CheckedMono(default, n0, s.next);
    GivenBuilt(s, given, p, default, bounds, ty, invalid);
    DefaultBuilt(s, given, p, default, bounds, ty, invalid);
    var g := BranchesOf(s, given, p, default, bounds, OpsOf(ty), invalid);
    var edges := [(g.s2.cur, p), (g.s6.cur, g.v)];
    TwoEdges(edges[0], edges[1]);
    var (d, calls1) := if Truth(Read(P, c.vals, given)) then (Read(P, c.vals, p), c.calls) else Eval(M, default, rho, c.calls);
    var report := Report(M, bounds, ty, d, invalid, rho, calls1);
    var c1, n1;
    if Truth(Read(P, c.vals, given)) {
      c1, n1 := GivenRuns(M, s, given, p, default, bounds, ty, invalid, P, c, rho, n0);
      c' := RanPhi(M, P, c1, g.s7, edges, p);
    } else {
      c1, n1 := DefaultRuns(M, s, given, p, default, bounds, ty, invalid, P, c, rho, n0);
      c' := RanPhi(M, P, c1, g.s7, edges, g.v);
    }
    n := n1 + 1;
    var r := PhiOf(g.s7, edges);
    RanMoved(M, P, c1, 1, c', g.s7.next, r.0, r.1, d, report);
    MovedTwice(M, P, c, n1, c1, s.next, report, 1, c', g.s7.next, report);
  }
}
