/** The shape of the graph for parameters: terminators end blocks, and a phi has one edge for each predecessor of its block. */
module ParamGraph {
  import opened Prelude
  import opened Mir
  import opened MirBuilder
  import opened Lowering
  import opened LoweringRuns
  import opened LoweringGraph
  import opened ParamBounds
  import opened ParamBoundsRuns
  import opened ParamChecks
  import opened ParamInit

  /** The graph is in order, and has no new edges to the blocks of `base`. */
  ghost predicate Sound(base: Code, s: State) {
    GraphOk(s.blocks) && SameEdges(base, s.blocks)
  }

  /** The same, while the current block goes on. */
  ghost predicate Going(base: Code, s: State) {
    Sound(base, s) && Drafted(s)
  }

  lemma GoingOn(base: Code, s: State, s': State)
    requires Going(base, s) && LoweringGraph.Kept(s, s')
    ensures Going(base, s')
  {
    hide Preds, GraphOk;
    SameEdgesTwice(base, s.blocks, s'.blocks);
  }

  /** Building goes on in an empty block. */
  lemma SwitchGoes(base: Code, s: State, b: Block)
    requires Sound(base, s) && b < |s.blocks| && s.blocks[b] == []
    ensures Going(base, Switch(s, b))
  {
    hide GraphOk, SameEdges;
  }

  /** The current block ends with a jump or branch to empty blocks that are newer than `base`. */
  lemma FinishSound(base: Code, s: State, i: Inst)
    requires Going(base, s) && (i.Jump? || i.Br?)
    requires forall d: Block :: GoesTo([i], d) ==> Waiting(s, d) && |base| <= d
    ensures Sound(base, Put(s, i))
  {
    hide Preds, GraphOk;
    FinishGraph(s, i);
    forall d: Block | d < |base| ensures Preds(Put(s, i).blocks, d) == Preds(base, d) {
      assert !GoesTo([i], d) && Preds(s.blocks, d) == Preds(base, d);
    }
  }

  lemma CreateGoes(base: Code, s: State)
    requires Going(base, s)
    ensures Going(base, Create(s).0)
  {
    hide Preds, GraphOk;
    CreateGraph(s.blocks);
    SameEdgesTwice(base, s.blocks, s.blocks + [[]]);
  }

  lemma LeaveGoes(base: Code, s: State, ok: Value, exit: Block)
    requires Fine(s) && Going(base, s) && Waiting(s, exit) && |base| <= exit
    ensures Live(s) && Going(base, LowLeave(s, ok, exit))
  {
    hide Preds, GraphOk, SameEdges, Fine, Drafted, Sound;
    Predefs(s);
    CreateGoes(base, s);
    CreateBuilt(s);
    var (s1, next) := Create(s);
    assert Waiting(s1, exit);
    BaseSize(base, s);
    FinishSound(base, s1, Br(ok, exit, next));
    SwitchGoes(base, Put(s1, Br(ok, exit, next)), next);
  }

  lemma BaseSize(base: Code, s: State)
    requires Going(base, s)
    ensures |base| <= |s.blocks|
  {
  }

  lemma {:induction false} TestKept(s: State, val: ConstraintValue, ty: Ty, p: Value)
    requires Fine(s) && ty != TBool && BoundChecked(val, ty, s.next) && p < s.next && Drafted(s)
    ensures Live(s) && LoweringGraph.Kept(s, LowTest(s, val, OpsOf(ty), p).0)
  {
    hide Fine, Grows, Low, LowSelect, Drafted, SameEdges, Op2;
    SelfKept(s);
    match val
    case Single(e) =>
      var r := OperandKept(s, e, s);
      Op2Kept(r.0, OpsOf(ty).eq, r.1, p);
      KeptTwice(s, r.0, Op2(r.0, OpsOf(ty).eq, r.1, p).0);
    case Within(range) =>
      var r := OperandKept(s, range.start, s);
      var q := OperandKept(r.0, range.end, s);
      var op, op' := InBound(OpsOf(ty), range.startInclusive), InBound(OpsOf(ty), range.endInclusive);
      var t := CompareKept(s, (q.0, r.1), op, p);
      Predefs(t.0);
      SelectKept(t.0, t.1, Compare(op', p, q.1), Give(FALSE));
      KeptTwice(s, t.0, LowSelect(t.0, t.1, Compare(op', p, q.1), Give(FALSE)).0);
  }

  lemma {:induction false} BoundsGo(base: Code, s: State, exit: Option<Block>, bounds: Bounds, kind: ConstraintKind, ty: Ty, p: Value)
    requires Fine(s) && Going(base, s) && BoundsChecked(bounds, ty, s.next) && p < s.next
    requires exit.Some? ==> Waiting(s, exit.value) && |base| <= exit.value
    ensures ty != TBool && Testable(bounds, OpsOf(ty)) && Opened(s, exit) && Live(s)
    ensures Going(base, LowBounds(s, exit, bounds, kind, OpsOf(ty), p).0)
    decreases |bounds|
  {
    hide Fine, Ext, Grows, LowTest, LowLeave, BoundChecked, BoundsChecked, Testable, OpsOf, Drafted, Sound, Waiting;
    BoundsBuilt(s, exit, bounds, kind, ty, p);
    CheckedTestable(bounds, ty, s.next);
    if bounds != [] {
      if bounds[0].kind != kind {
        BoundsGo(base, s, exit, bounds[1..], kind, ty, p);
      } else {
        var s1, bb, t, s3 := BoundBuilt(s, exit, bounds[0].val, ty, p);
        BaseSize(base, s);
        CreateGoes(base, s);
        BoundMono(bounds[0].val, ty, s.next, s1.next);
        GoingDrafts(base, s1);
        TestKept(s1, bounds[0].val, ty, p);
        GoingOn(base, s1, t.0);
        LeaveGoes(base, t.0, t.1, bb);
        BoundCheckedMono(bounds[1..], ty, s.next, s3.next);
        BoundsGo(base, s3, Some(bb), bounds[1..], kind, ty, p);
      }
    }
  }

  lemma BoundMono(val: ConstraintValue, ty: Ty, n: Value, m: Value)
    requires BoundChecked(val, ty, n) && n == m
    ensures BoundChecked(val, ty, m)
  {
  }

  lemma GoingDrafts(base: Code, s: State)
    requires Going(base, s)
    ensures Drafted(s)
  {
  }

  lemma ReportSound(base: Code, s: State, invalid: Callback, exit: Block)
    requires Fine(s) && Going(base, s) && Waiting(s, exit) && |base| <= exit
    ensures Live(s) && Sound(base, LowReport(s, invalid, exit))
  {
    hide Preds, GraphOk, Fine;
    Predefs(s);
    var call := Call(None, invalid, []);
    PutGraph(s, call, Put(s, call));
    GoingOn(base, s, Put(s, call));
    FinishSound(base, Put(s, call), Jump(exit));
  }

  lemma {:induction false} FromGoes(base: Code, s: State, p: Value, bounds: Bounds, ty: Ty, invalid: Callback, exit: Block)
    requires Fine(s) && Going(base, s) && BoundsChecked(bounds, ty, s.next) && p < s.next && Waiting(s, exit) && |base| <= exit
    ensures ty != TBool && Testable(bounds, OpsOf(ty)) && Live(s)
    ensures Going(base, LowCheck(s, p, bounds, From, OpsOf(ty), invalid, exit))
  {
    hide Fine, Ext, LowBounds, LowReport, BoundsChecked, Drafted, Sound, Testable, OpsOf;
    BoundsBuilt(s, None, bounds, From, ty, p);
    BoundsGo(base, s, None, bounds, From, ty, p);
    FromBuilt(s, p, bounds, ty, invalid, exit);
    var (s1, e) := LowBounds(s, None, bounds, From, OpsOf(ty), p);
    StillWaiting(s, s1, exit);
    if e.Some? {
      ReportSound(base, s1, invalid, exit);
      ReportBuilt(s1, invalid, exit);
      StillWaiting(s1, LowReport(s1, invalid, exit), e.value);
      SwitchGoes(base, LowReport(s1, invalid, exit), e.value);
    }
  }

  lemma {:induction false} ExcludeSound(base: Code, s: State, p: Value, bounds: Bounds, ty: Ty, invalid: Callback, exit: Block)
    requires Fine(s) && Going(base, s) && BoundsChecked(bounds, ty, s.next) && p < s.next && Waiting(s, exit) && |base| <= exit
    ensures ty != TBool && Testable(bounds, OpsOf(ty)) && Live(s)
    ensures Sound(base, LowCheck(s, p, bounds, Exclude, OpsOf(ty), invalid, exit))
  {
    hide Fine, Ext, LowBounds, LowReport, BoundsChecked, Drafted, Sound, Testable, OpsOf;
    BoundsBuilt(s, None, bounds, Exclude, ty, p);
    BoundsGo(base, s, None, bounds, Exclude, ty, p);
    ExcludeBuilt(s, p, bounds, ty, invalid, exit);
    var (s1, e) := LowBounds(s, None, bounds, Exclude, OpsOf(ty), p);
    var s2 := Put(s1, Jump(exit));
    StillWaiting(s, s1, exit);
    FinishSound(base, s1, Jump(exit));
    if e.Some? {
      PutBuilt(s1, Jump(exit));
      StillWaiting(s1, s2, e.value);
      StillWaiting(s1, s2, exit);
      SwitchGoes(base, s2, e.value);
      ReportSound(base, Switch(s2, e.value), invalid, exit);
    }
  }

  /** The checks of a parameter keep the graph in order, and add no edges to blocks that were there before. */
  lemma {:induction false} ChecksKept(s: State, p: Value, bounds: Bounds, ty: Ty, invalid: Callback)
    requires Fine(s) && Drafted(s) && BoundsChecked(bounds, ty, s.next) && p < s.next
    ensures ty != TBool && Testable(bounds, OpsOf(ty)) && Live(s)
    ensures LoweringGraph.Kept(s, LowChecks(s, p, bounds, OpsOf(ty), invalid))
  {
    hide Fine, Ext, LowCheck, BoundsChecked, OpsOf, Testable, GraphOk, Preds;
    ChecksBuilt(s, p, bounds, ty, invalid);
    CreateBuilt(s);
    var (s0, exit) := Create(s);
    var s1 := LowCheck(s0, p, bounds, From, OpsOf(ty), invalid, exit);
    var s2 := LowCheck(s1, p, bounds, Exclude, OpsOf(ty), invalid, exit);
    CreateGoes(s.blocks, s);
    FromGoes(s.blocks, s0, p, bounds, ty, invalid, exit);
    BoundCheckedMono(bounds, ty, s.next, s1.next);
    ExcludeSound(s.blocks, s1, p, bounds, ty, invalid, exit);
    SwitchGoes(s.blocks, s2, exit);
  }

  /** The block where the two branches of a parameter meet is entered from their ends and from nowhere else. */
  lemma {:induction false} BranchesMeet(s: State, given: Value, p: Value, default: Expr, bounds: Bounds, ty: Ty, invalid: Callback)
    requires Fine(s) && Drafted(s) && BoundsChecked(bounds, ty, s.next) && p < s.next && Checked(default, s.next)
    ensures ty != TBool && Testable(bounds, OpsOf(ty)) && Live(s)
    ensures var g := BranchesOf(s, given, p, default, bounds, OpsOf(ty), invalid);
      LoweringGraph.Kept(s, g.s7) && Preds(g.s7.blocks, g.arms.join) == {g.s2.cur, g.s6.cur} && g.s7.cur == g.arms.join
  {
    hide Fine, Ext, BoundsChecked, LowChecks, Low, OpsOf, Testable, GraphOk, Preds, Op1, Drafted;
    GivenBuilt(s, given, p, default, bounds, ty, invalid);
    DefaultBuilt(s, given, p, default, bounds, ty, invalid);
    var g := BranchesOf(s, given, p, default, bounds, OpsOf(ty), invalid);
    ForkBuilt(s, given);
    ForkGraph(s, given);
    ChecksKept(g.s1, p, bounds, ty, invalid);
    assert g.s2.blocks[g.arms.join] == [] && g.s2.blocks[g.arms.elseDst] == [];
    JoinGraph(g.s1, g.s2, g.arms.join, g.arms.elseDst, g.s3);
    CheckedMono(default, s.next, g.s3.next);
    LowKept(g.s3, default);
    BoundCheckedMono(bounds, ty, s.next, g.s4.next);
    ChecksKept(g.s4, g.v, bounds, ty, invalid);
    Op1Kept(g.s5, OptBarrier, g.v);
    KeptTwice(g.s3, g.s4, g.s5);
    KeptTwice(g.s3, g.s5, g.s6);
    GrowsTwice(g.s3, g.s4, g.s5);
    GrowsTwice(g.s3, g.s5, g.s6);
    assert g.s6.blocks[g.arms.join] == [];
    JoinGraph(g.s3, g.s6, g.arms.join, g.arms.join, g.s7);
    forall d: Block | d < |s.blocks| ensures Preds(g.s7.blocks, d) == Preds(s.blocks, d) {
      assert Preds(g.s3.blocks, d) == Preds(g.s1.blocks, d) && Preds(g.s7.blocks, d) == Preds(g.s3.blocks, d);
    }
  }

  /** The code for the initial value of a parameter keeps the graph in order. */
  lemma {:induction false} ParamKept(s: State, given: Value, p: Value, default: Expr, bounds: Bounds, ty: Ty, invalid: Callback)
    requires Fine(s) && Drafted(s) && BoundsChecked(bounds, ty, s.next) && p < s.next && Checked(default, s.next)
    ensures ty != TBool && Testable(bounds, OpsOf(ty)) && Live(s)
    ensures LoweringGraph.Kept(s, LowParam(s, given, p, default, bounds, OpsOf(ty), invalid).0)
  {
    hide Fine, BoundsChecked, OpsOf, Testable, Preds, Drafted, SameEdges, BranchesOf, LowParam;
    BranchesMeet(s, given, p, default, bounds, ty, invalid);
    var g := BranchesOf(s, given, p, default, bounds, OpsOf(ty), invalid);
    var edges := [(g.s2.cur, p), (g.s6.cur, g.v)];
    TwoSources(edges);
    SelfKept(g.s7);
    PutGraph(g.s7, Phi(g.s7.next, edges), PhiOf(g.s7, edges).0);
    KeptTwice(s, g.s7, PhiOf(g.s7, edges).0);
  }
}
