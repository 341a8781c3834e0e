/** The shape of the lowered graph: terminators end blocks, and a phi has one edge for each predecessor of its block. */
module LoweringGraph {
  import opened Prelude
  import opened Mir
  import opened MirBuilder
  import opened Lowering
  import opened LoweringRuns

  /** Control can go from the end of block `b` to `d`. */
  predicate GoesTo(b: seq<Inst>, d: Block) {
    b != [] &&
    match b[|b| - 1]
    case Jump(dst) => dst == d
    case Br(_, thenDst, elseDst) => thenDst == d || elseDst == d
    case _ => false
  }

  ghost function Preds(blocks: Code, d: Block): set<Block> {
    set p | 0 <= p < |blocks| && GoesTo(blocks[p], d)
  }

  ghost function Sources(edges: seq<(Block, Value)>): set<Block> {
    set i | 0 <= i < |edges| :: edges[i].0
  }

  ghost predicate NoTerminator(b: seq<Inst>) {
    forall i :: 0 <= i < |b| ==> !Terminator(b[i])
  }

  ghost predicate NoPhi(b: seq<Inst>) {
    forall i :: 0 <= i < |b| ==> !b[i].Phi?
  }

  /** Terminators come last, and lead to blocks that exist. */
  ghost predicate BlockOk(b: seq<Inst>, n: nat) {
    && (forall i :: 0 <= i < |b| - 1 ==> !Terminator(b[i]))
    && (forall d: Block :: GoesTo(b, d) ==> d < n)
  }

  /** Each phi of block `d` has edges from exactly the predecessors of `d`. */
  ghost predicate PhisOk(blocks: Code, d: Block)
    requires d < |blocks|
  {
    forall i :: 0 <= i < |blocks[d]| && blocks[d][i].Phi? ==> Sources(blocks[d][i].edges) == Preds(blocks, d)
  }

  ghost predicate GraphOk(blocks: Code) {
    forall b :: 0 <= b < |blocks| ==> BlockOk(blocks[b], |blocks|) && PhisOk(blocks, b)
  }

  /** The graph is in order, and the current block has not been finished. */
  ghost predicate Drafted(s: State) {
    Live(s) && GraphOk(s.blocks) && NoTerminator(s.blocks[s.cur])
  }

  ghost predicate SameEdges(blocks: Code, blocks': Code) {
    |blocks| <= |blocks'| && forall d: Block :: d < |blocks| ==> Preds(blocks', d) == Preds(blocks, d)
  }

  lemma SameEdgesTwice(a: Code, b: Code, c: Code)
    requires SameEdges(a, b) && SameEdges(b, c)
    ensures SameEdges(a, c)
  {
    hide Preds;
  }

  /** A new empty block. */
  lemma CreateGraph(blocks: Code)
    requires GraphOk(blocks)
    ensures GraphOk(blocks + [[]]) && SameEdges(blocks, blocks + [[]]) && Preds(blocks + [[]], |blocks|) == {}
  {
    var blocks' := blocks + [[]];
    forall d: Block | d <= |blocks| ensures Preds(blocks', d) == if d < |blocks| then Preds(blocks, d) else {} {
      forall p | 0 <= p < |blocks'| ensures GoesTo(blocks'[p], d) == (p < |blocks| && GoesTo(blocks[p], d) && d < |blocks|) {
        if p < |blocks| { assert BlockOk(blocks[p], |blocks|); }
      }
    }
    forall b | 0 <= b < |blocks'| ensures BlockOk(blocks'[b], |blocks'|) && PhisOk(blocks', b) {
      if b < |blocks| { assert BlockOk(blocks[b], |blocks|) && PhisOk(blocks, b); }
    }
  }

  /** An instruction inside the current block. */
  lemma PutGraph(s: State, i: Inst, s': State)
    requires Drafted(s) && !Terminator(i) && s' == Put(s, i).(next := s'.next)
    requires i.Phi? ==> Sources(i.edges) == Preds(s.blocks, s.cur)
    ensures Drafted(s') && SameEdges(s.blocks, s'.blocks)
  {
    var blocks, blocks' := s.blocks, s'.blocks;
    forall d: Block ensures Preds(blocks', d) == Preds(blocks, d) {
      forall p | 0 <= p < |blocks| ensures GoesTo(blocks'[p], d) == GoesTo(blocks[p], d) {
      }
    }
    forall b | 0 <= b < |blocks'| ensures BlockOk(blocks'[b], |blocks'|) && PhisOk(blocks', b) {
      assert BlockOk(blocks[b], |blocks|) && PhisOk(blocks, b);
    }
  }

  /** A jump or branch to blocks without phis finishes the current block. */
  lemma FinishGraph(s: State, i: Inst)
    requires Drafted(s) && (i.Jump? || i.Br?)
    requires forall d: Block :: GoesTo([i], d) ==> d < |s.blocks| && d != s.cur && NoPhi(s.blocks[d])
    ensures var blocks' := Put(s, i).blocks;
      && GraphOk(blocks')
      && forall d: Block :: d < |s.blocks| ==> Preds(blocks', d) == Preds(s.blocks, d) + if GoesTo([i], d) then {s.cur} else {}
  {
    var blocks, blocks' := s.blocks, Put(s, i).blocks;
    forall d: Block ensures Preds(blocks', d) == Preds(blocks, d) + if GoesTo([i], d) then {s.cur} else {} {
      forall p | 0 <= p < |blocks| ensures GoesTo(blocks'[p], d) == (GoesTo(blocks[p], d) || (p == s.cur && GoesTo([i], d))) {
      }
    }
    forall b | 0 <= b < |blocks'| ensures BlockOk(blocks'[b], |blocks'|) && PhisOk(blocks', b) {
      assert BlockOk(blocks[b], |blocks|) && PhisOk(blocks, b);
      if b == s.cur {
        assert forall d: Block :: GoesTo(blocks'[b], d) == GoesTo([i], d);
      }
    }
  }

  /** The result of a lowering step: in order, and no edge to an older block has been added. */
  ghost predicate Kept(s: State, s': State) {
    Drafted(s') && SameEdges(s.blocks, s'.blocks)
  }

  lemma KeptTwice(s: State, s1: State, s2: State)
    requires Kept(s, s1) && Kept(s1, s2)
    ensures Kept(s, s2)
  {
    hide Drafted, SameEdges;
    SameEdgesTwice(s.blocks, s1.blocks, s2.blocks);
  }

  lemma KonstKept(s: State, d: Data)
    requires Drafted(s)
    ensures Kept(s, Konst(s, d).0)
  {
  }

  lemma Op1Kept(s: State, op: Opcode1, x: Value)
    requires Drafted(s)
    ensures Kept(s, Op1(s, op, x).0)
  {
    PutGraph(s, Unary(s.next, op, x), Op1(s, op, x).0);
  }

  lemma Op2Kept(s: State, op: Opcode2, x: Value, y: Value)
    requires Drafted(s)
    ensures Kept(s, Op2(s, op, x, y).0)
  {
    PutGraph(s, Binary(s.next, op, x, y), Op2(s, op, x, y).0);
  }

  lemma CallKept(s: State, callee: Callback, args: seq<Value>)
    requires Drafted(s)
    ensures Kept(s, Call1(s, callee, args).0)
  {
    PutGraph(s, Call(Some(s.next), callee, args), Call1(s, callee, args).0);
  }

  /** The blocks of a new condition are entered from the current block only. */
  lemma ForkGraph(s: State, cond: Value)
    requires Fine(s) && Drafted(s)
    ensures var (s1, arms) := Fork(s, cond);
      && Drafted(s1) && SameEdges(s.blocks, s1.blocks) && Preds(s1.blocks, arms.join) == {}
      && NoTerminator(s1.blocks[arms.elseDst]) && NoTerminator(s1.blocks[arms.join]) && NoPhi(s1.blocks[arms.join])
  {
    hide Preds, GraphOk;
    var b1 := s.blocks + [[]];
    var b2 := b1 + [[]];
    var b3 := b2 + [[]];
    CreateGraph(s.blocks);
    CreateGraph(b1);
    CreateGraph(b2);
    SameEdgesTwice(s.blocks, b1, b2);
    SameEdgesTwice(s.blocks, b2, b3);
    var s0 := s.(blocks := b3);
    var (s1, arms) := Fork(s, cond);
    var br := Br(cond, arms.thenDst, arms.elseDst);
    FinishGraph(s0, br);
    assert s1.blocks == Put(s0, br).blocks;
    forall d: Block | d < |s.blocks| ensures Preds(s1.blocks, d) == Preds(s.blocks, d) {
      assert !GoesTo([br], d) && d < |b3|;
    }
    assert !GoesTo([br], arms.join);
  }

  /** A branch that has been finished with a jump to `join`; building goes on in the older empty block `b`. */
  lemma JoinGraph(s1: State, s2: State, join: Block, b: Block, s3: State)
    requires Fine(s2) && Kept(s1, s2) && join < |s1.blocks| && b < |s1.blocks| && s2.cur != join && s2.cur != b
    requires NoPhi(s2.blocks[join]) && NoTerminator(s2.blocks[b])
    requires s3 == Switch(Put(s2, Jump(join)), b)
    ensures Drafted(s3) && Preds(s3.blocks, join) == Preds(s1.blocks, join) + {s2.cur}
    ensures forall d: Block :: d < |s1.blocks| && d != join ==> Preds(s3.blocks, d) == Preds(s1.blocks, d)
    ensures s3.blocks[join] == s2.blocks[join]
  {
    hide Preds, GraphOk;
    assert forall d: Block :: GoesTo([Jump(join)], d) == (d == join);
    FinishGraph(s2, Jump(join));
  }

  lemma {:induction false} LowKept(s: State, e: Expr)
    requires Fine(s) && Checked(e, s.next) && Drafted(s)
    ensures Kept(s, Low(s, e).0)
    decreases Size(e), 0
  {
    hide Fine, Grows, Drafted, SameEdges, LowSelect, LowUnaryOp, LowBinaryOp, LowExtreme, Konst, Op1, Op2, Call1;
    Predefs(s);
    SelfKept(s);
    match e
    case Sample(v, tagged) => if tagged { Op1Kept(s, OptBarrier, v); }
    case Literal(d) => KonstKept(s, d);
    case Infinite(float) => if !float { KonstKept(s, Int(MAX32)); }
    case Cast(src, dst, arg) =>
      var r := OperandKept(s, arg, s);
      if !arg.Infinite? {
        Op1Kept(r.0, CastOp(src, dst), r.1);
        KeptTwice(s, r.0, Op1(r.0, CastOp(src, dst), r.1).0);
      }
    case UnaryExpr(op, ty, arg) => UnaryKept(s, op, ty, arg);
    case BinaryExpr(op, ty, lhs, rhs) => BinaryKept(s, op, ty, lhs, rhs);
    case Select(cond, a, b) =>
      var r := OperandKept(s, cond, s);
      CheckedMono(a, s.next, r.0.next);
      CheckedMono(b, s.next, r.0.next);
      SelectKept(r.0, r.1, Lower(a), Lower(b));
      KeptTwice(s, r.0, LowSelect(r.0, r.1, Lower(a), Lower(b)).0);
    case Abs(ty, arg) =>
      var r := OperandKept(s, arg, s);
      var op, zero := if ty == TReal then Flt else Ilt, if ty == TReal then F_ZERO else ZERO;
      var q := CompareKept(s, r, op, zero);
      SelectKept(q.0, q.1, Negate(if ty == TReal then Fneg else Ineg, r.1), Give(r.1));
      KeptTwice(s, q.0, LowSelect(q.0, q.1, Negate(if ty == TReal then Fneg else Ineg, r.1), Give(r.1)).0);
    case Min(ty, lhs, rhs) => ExtremeKept(s, if ty == TReal then Flt else Ilt, lhs, rhs);
    case Max(ty, lhs, rhs) => ExtremeKept(s, if ty == TReal then Fgt else Igt, lhs, rhs);
    case SimParam(name) =>
      var r := OperandKept(s, name, s);
      CallKept(r.0, SIM_PARAM, [r.1]);
      KeptTwice(s, r.0, Call1(r.0, SIM_PARAM, [r.1]).0);
    case SimParamOr(name, default) =>
      var r := OperandKept(s, name, s);
      var q := OperandKept(r.0, default, s);
      CallKept(q.0, SIM_PARAM_OPT, [r.1, q.1]);
      KeptTwice(s, q.0, Call1(q.0, SIM_PARAM_OPT, [r.1, q.1]).0);
  }

  lemma SelfKept(s: State)
    requires Drafted(s)
    ensures Kept(s, s) && Live(s)
  {
  }

  /** A comparison with a value that exists already. */
  lemma CompareKept(s: State, r: (State, Value), op: Opcode2, y: Value) returns (q: (State, Value))
    requires Fine(r.0) && Kept(s, r.0)
    ensures Live(r.0) && q == Op2(r.0, op, r.1, y) && Fine(q.0) && Kept(s, q.0) && r.0.next <= q.0.next && q.1 < q.0.next && Drafted(q.0)
  {
    hide SameEdges, Fine;
    Predefs(r.0);
    q := Op2(r.0, op, r.1, y);
    Op2Kept(r.0, op, r.1, y);
    Op2Built(r.0, op, r.1, y);
    KeptTwice(s, r.0, q.0);
  }

  lemma {:induction false} OperandKept(s1: State, e: Expr, s: State) returns (r: (State, Value))
    requires Fine(s) && Fine(s1) && Checked(e, s.next) && (s1 == s || Grows(s, s1)) && Kept(s, s1)
    ensures Live(s1) && r == Low(s1, e) && Fine(r.0) && Live(r.0) && Grows(s, r.0) && Kept(s, r.0) && Drafted(r.0)
    ensures r.1 < r.0.next && s1.next <= r.0.next && s.next <= r.0.next
    decreases Size(e), 1
  {
    hide Fine, Low, SameEdges;
    assert s.next <= s1.next;
    CheckedMono(e, s.next, s1.next);
    r := OperandBuilt(s1, e, s);
    LowKept(s1, e);
    KeptTwice(s, s1, r.0);
  }

  lemma {:induction false} UnaryKept(s: State, op: UnaryOp, ty: Ty, arg: Expr)
    requires Fine(s) && Checked(arg, s.next) && Drafted(s)
    ensures Kept(s, LowUnaryOp(s, op, ty, arg).0)
    decreases Size(arg), 9
  {
    hide Fine, Grows, Low, Drafted, SameEdges, Konst, Op1;
    SelfKept(s);
    var r := OperandKept(s, arg, s);
    match op
    case Not => Op1Kept(r.0, Bnot, r.1); KeptTwice(s, r.0, Op1(r.0, Bnot, r.1).0);
    case Identity =>
    case BitNegate => Op1Kept(r.0, Ineg, r.1); KeptTwice(s, r.0, Op1(r.0, Ineg, r.1).0);
    case Apply(fun) => Op1Kept(r.0, Math(fun), r.1); KeptTwice(s, r.0, Op1(r.0, Math(fun), r.1).0);
    case Neg =>
      if InfinityOf(arg).Some? {
        KonstKept(r.0, if InfinityOf(arg).value then Flo(NegInf) else Int(MIN32));
        KeptTwice(s, r.0, Konst(r.0, if InfinityOf(arg).value then Flo(NegInf) else Int(MIN32)).0);
      } else {
        Op1Kept(r.0, if ty == TReal then Fneg else Ineg, r.1);
        KeptTwice(s, r.0, Op1(r.0, if ty == TReal then Fneg else Ineg, r.1).0);
      }
  }

  lemma {:induction false} BinaryKept(s: State, op: BinaryOp, ty: Ty, lhs: Expr, rhs: Expr)
    requires Fine(s) && Checked(lhs, s.next) && Checked(rhs, s.next) && Drafted(s)
    ensures Kept(s, LowBinaryOp(s, op, ty, lhs, rhs).0)
    decreases Size(lhs) + Size(rhs), 9
  {
    hide Fine, Grows, Low, LowSelect, Drafted, SameEdges, Op1, Op2, Opcode;
    SelfKept(s);
    var r := OperandKept(s, lhs, s);
    CheckedMono(rhs, s.next, r.0.next);
    Predefs(r.0);
    if op == BooleanOr {
      SelectKept(r.0, r.1, Give(TRUE), Lower(rhs));
      KeptTwice(s, r.0, LowSelect(r.0, r.1, Give(TRUE), Lower(rhs)).0);
    } else if op == BooleanAnd {
      SelectKept(r.0, r.1, Lower(rhs), Give(FALSE));
      KeptTwice(s, r.0, LowSelect(r.0, r.1, Lower(rhs), Give(FALSE)).0);
    } else {
      var q := OperandKept(r.0, rhs, s);
      var t := Op2(q.0, Opcode(op, ty), r.1, q.1);
      Op2Kept(q.0, Opcode(op, ty), r.1, q.1);
      KeptTwice(s, q.0, t.0);
      if op == BitwiseEq {
        Op1Kept(t.0, Inot, t.1);
        KeptTwice(s, t.0, Op1(t.0, Inot, t.1).0);
      }
    }
  }

  lemma {:induction false} ExtremeKept(s: State, comparison: Opcode2, lhs: Expr, rhs: Expr)
    requires Fine(s) && Checked(lhs, s.next) && Checked(rhs, s.next) && Drafted(s)
    ensures Kept(s, LowExtreme(s, comparison, lhs, rhs).0)
    decreases Size(lhs) + Size(rhs), 9
  {
    hide Fine, Grows, Low, LowSelect, Drafted, SameEdges, Op2;
    SelfKept(s);
    var r := OperandKept(s, lhs, s);
    var q := OperandKept(r.0, rhs, s);
    var t := CompareKept(s, (q.0, r.1), comparison, q.1);
    SelectKept(t.0, t.1, Give(r.1), Give(q.1));
    KeptTwice(s, t.0, LowSelect(t.0, t.1, Give(r.1), Give(q.1)).0);
  }

  lemma {:induction false} BodyKept(s: State, b: Body)
    requires Fine(s) && BodyChecked(b, s.next) && Drafted(s)
    ensures Kept(s, LowBody(s, b).0)
    decreases BodySize(b), 1
  {
    hide Fine, Low, Drafted, SameEdges, Op1, Op2;
    SelfKept(s);
    match b
    case Lower(e) => LowKept(s, e);
    case Give(v) =>
    case Negate(op, v) => Op1Kept(s, op, v);
    case Compare(op, x, y) => Op2Kept(s, op, x, y);
  }

  /** The block where the branches meet is entered from the two tails and from nowhere else. */
  lemma {:induction false} CondKept(s: State, cond: Value, thenBody: Body, elseBody: Body)
    requires Fine(s) && BodyChecked(thenBody, s.next) && BodyChecked(elseBody, s.next) && Drafted(s)
    ensures var g := StagesOf(s, cond, thenBody, elseBody);
      Kept(s, g.s5) && Preds(g.s5.blocks, g.arms.join) == {g.s2.cur, g.s4.cur} && g.s5.cur == g.arms.join
    decreases BodySize(thenBody) + BodySize(elseBody), 2
  {
    hide Fine, LowBody, Preds, GraphOk, Ext;
    Predefs(s);
    var g := StagesOf(s, cond, thenBody, elseBody);
    CondBuilt(s, cond, thenBody, elseBody);
    ForkBuilt(s, cond);
    ForkGraph(s, cond);
    BodyKept(g.s1, thenBody);
    assert g.s2.blocks[g.arms.join] == [] && g.s2.blocks[g.arms.elseDst] == [];
    JoinGraph(g.s1, g.s2, g.arms.join, g.arms.elseDst, g.s3);
    BodyCheckedMono(elseBody, s.next, g.s3.next);
    BodyKept(g.s3, elseBody);
    assert g.s4.blocks[g.arms.join] == [];
    JoinGraph(g.s3, g.s4, g.arms.join, g.arms.join, g.s5);
    forall d: Block | d < |s.blocks| ensures Preds(g.s5.blocks, d) == Preds(s.blocks, d) {
      assert Preds(g.s3.blocks, d) == Preds(g.s1.blocks, d) && Preds(g.s5.blocks, d) == Preds(g.s3.blocks, d);
    }
  }

  lemma {:induction false} SelectKept(s: State, cond: Value, thenBody: Body, elseBody: Body)
    requires Fine(s) && BodyChecked(thenBody, s.next) && BodyChecked(elseBody, s.next) && Drafted(s)
    ensures Kept(s, LowSelect(s, cond, thenBody, elseBody).0)
    decreases BodySize(thenBody) + BodySize(elseBody), 3
  {
    hide Fine, LowBody, Preds, Drafted, SameEdges;
    Predefs(s);
    var g := StagesOf(s, cond, thenBody, elseBody);
    CondKept(s, cond, thenBody, elseBody);
    var edges := [(g.s2.cur, g.thenVal), (g.s4.cur, g.elseVal)];
    TwoSources(edges);
    SelfKept(g.s5);
    PutGraph(g.s5, Phi(g.s5.next, edges), PhiOf(g.s5, edges).0);
    KeptTwice(s, g.s5, PhiOf(g.s5, edges).0);
  }

  lemma TwoSources(edges: seq<(Block, Value)>)
    requires |edges| == 2
    ensures Sources(edges) == {edges[0].0, edges[1].0}
  {
    assert edges[0].0 in Sources(edges) && edges[1].0 in Sources(edges);
  }
}
