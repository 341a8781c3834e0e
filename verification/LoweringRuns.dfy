/** The lowered code computes the meaning of the expression. */
module LoweringRuns {
  import opened Prelude
  import opened Mir
  import opened MirBuilder
  import opened Lowering

  lemma {:induction false} CheckedMono(e: Expr, n: Value, m: Value)
    requires Checked(e, n) && n <= m
    ensures Checked(e, m)
  {
    match e
    case Cast(_, _, arg) => CheckedMono(arg, n, m);
    case UnaryExpr(_, _, arg) => CheckedMono(arg, n, m);
    case BinaryExpr(_, _, lhs, rhs) => CheckedMono(lhs, n, m); CheckedMono(rhs, n, m);
    case Select(cond, a, b) => CheckedMono(cond, n, m); CheckedMono(a, n, m); CheckedMono(b, n, m);
    case Abs(_, arg) => CheckedMono(arg, n, m);
    case Min(_, lhs, rhs) => CheckedMono(lhs, n, m); CheckedMono(rhs, n, m);
    case Max(_, lhs, rhs) => CheckedMono(lhs, n, m); CheckedMono(rhs, n, m);
    case SimParam(name) => CheckedMono(name, n, m);
    case SimParamOr(name, default) => CheckedMono(name, n, m); CheckedMono(default, n, m);
    case _ =>
  }

  predicate BodyChecked(b: Body, n: Value) {
    match b
    case Lower(e) => Checked(e, n)
    case Give(v) => v < n
    case Negate(_, v) => v < n
    case Compare(_, x, y) => x < n && y < n
  }

  lemma BodyCheckedMono(b: Body, n: Value, m: Value)
    requires BodyChecked(b, n) && n <= m
    ensures BodyChecked(b, m)
  {
    if b.Lower? { CheckedMono(b.e, n, m); }
  }

  // ---------------------------------------------------------------- the graph only grows

  /** `r` was built on from `s`, and its value exists. */
  ghost predicate Built(s: State, r: (State, Value)) {
    Fine(r.0) && Grows(s, r.0) && r.1 < r.0.next
  }

  lemma BuiltTwice(s: State, s1: State, r: (State, Value))
    requires Grows(s, s1) && Built(s1, r)
    ensures Built(s, r)
  {
    hide Fine, Ext;
    hide Grows;
    GrowsTwice(s, s1, r.0);
  }

  lemma Op1Built(s: State, op: Opcode1, x: Value)
    requires Fine(s)
    ensures Built(s, Op1(s, op, x))
  {
    PutGrows(s, Unary(s.next, op, x), 1);
  }

  lemma Op2Built(s: State, op: Opcode2, x: Value, y: Value)
    requires Fine(s)
    ensures Built(s, Op2(s, op, x, y))
  {
    PutGrows(s, Binary(s.next, op, x, y), 1);
  }

  lemma CallBuilt(s: State, callee: Callback, args: seq<Value>)
    requires Fine(s)
    ensures Built(s, Call1(s, callee, args))
  {
    PutGrows(s, Call(Some(s.next), callee, args), 1);
  }

  lemma PhiBuilt(s: State, edges: seq<(Block, Value)>)
    requires Fine(s)
    ensures Built(s, PhiOf(s, edges))
  {
    PutGrows(s, Phi(s.next, edges), 1);
  }

  lemma SelfGrows(s: State)
    requires Fine(s)
    ensures Grows(s, s)
  {
  }

  /** The blocks of a condition are new and empty. */
  lemma ForkBuilt(s: State, cond: Value)
    requires Fine(s)
    ensures var (s1, arms) := Fork(s, cond);
      && Fine(s1) && Grows(s, s1) && s1.next == s.next && s1.cur == arms.thenDst
      && s1.blocks[arms.thenDst] == s1.blocks[arms.elseDst] == s1.blocks[arms.join] == []
      && s1.blocks[s.cur] == s.blocks[s.cur] + [Br(cond, arms.thenDst, arms.elseDst)]
      && s1.consts == s.consts
  {
  }

  /** After a branch has been finished with a jump and `b`, an older empty block, has become current. */
  lemma JoinBuilt(s: State, s1: State, s2: State, join: Block, b: Block)
    requires Fine(s) && Fine(s1) && Fine(s2) && Grows(s, s1) && Grows(s1, s2)
    requires s1.cur >= |s.blocks| && |s.blocks| <= b < |s1.blocks| && b != s1.cur
    ensures var s3 := Switch(Put(s2, Jump(join)), b);
      && Fine(s3) && Grows(s, s3) && s3.blocks[b] == s1.blocks[b] && s3.next == s2.next
      && s2.cur != b && Ext(Put(s2, Jump(join)), Whole(s3)) && Ext(s2, Whole(s3))
  {
    GrowsTwice(s, s1, s2);
    PutGrows(s2, Jump(join), 0);
    ExtBack(s, s2, Whole(Put(s2, Jump(join))));
    ExtSelf(Put(s2, Jump(join)));
  }

  lemma {:induction false} LowBuilt(s: State, e: Expr)
    requires Fine(s) && Checked(e, s.next)
    ensures Built(s, Low(s, e))
    decreases Size(e), 0
  {
    hide Fine, Grows, Built, LowSelect, LowUnaryOp, LowBinaryOp, LowExtreme;
    Predefs(s);
    match e
    case Sample(v, tagged) =>
      if tagged { Op1Built(s, OptBarrier, v); } else { SampleBuilt(s, v); }
    case Literal(d) => ConstBuilt(s, d);
    case Infinite(float) =>
      if float { SampleBuilt(s, INFINITY); } else { ConstBuilt(s, Int(MAX32)); }
    case Cast(src, dst, arg) =>
      var r := OperandBuilt(s, arg, s);
      if !arg.Infinite? {
        Op1Built(r.0, CastOp(src, dst), r.1);
        BuiltTwice(s, r.0, Op1(r.0, CastOp(src, dst), r.1));
      }
    case UnaryExpr(op, ty, arg) => UnaryBuilt(s, op, ty, arg);
    case BinaryExpr(op, ty, lhs, rhs) => BinaryBuilt(s, op, ty, lhs, rhs);
    case Select(cond, a, b) =>
      var r := OperandBuilt(s, cond, s);
      CheckedMono(a, s.next, r.0.next);
      CheckedMono(b, s.next, r.0.next);
      SelectBuilt(r.0, r.1, Lower(a), Lower(b));
      BuiltTwice(s, r.0, LowSelect(r.0, r.1, Lower(a), Lower(b)));
    case Abs(ty, arg) =>
      var r := OperandBuilt(s, arg, s);
      var op, zero := if ty == TReal then Flt else Ilt, if ty == TReal then F_ZERO else ZERO;
      var q := Op2(r.0, op, r.1, zero);
      Op2Built(r.0, op, r.1, zero);
      BuiltTwice(s, r.0, q);
      Parts(r.0, q);
      Parts(s, q);
      SelectBuilt(q.0, q.1, Negate(if ty == TReal then Fneg else Ineg, r.1), Give(r.1));
      BuiltTwice(s, q.0, LowSelect(q.0, q.1, Negate(if ty == TReal then Fneg else Ineg, r.1), Give(r.1)));
    case Min(ty, lhs, rhs) => ExtremeBuilt(s, if ty == TReal then Flt else Ilt, lhs, rhs);
    case Max(ty, lhs, rhs) => ExtremeBuilt(s, if ty == TReal then Fgt else Igt, lhs, rhs);
    case SimParam(name) =>
      var r := OperandBuilt(s, name, s);
      CallBuilt(r.0, SIM_PARAM, [r.1]);
      BuiltTwice(s, r.0, Call1(r.0, SIM_PARAM, [r.1]));
    case SimParamOr(name, default) =>
      var r := OperandBuilt(s, name, s);
      var q := OperandBuilt(r.0, default, s);
      CallBuilt(q.0, SIM_PARAM_OPT, [r.1, q.1]);
      BuiltTwice(s, q.0, Call1(q.0, SIM_PARAM_OPT, [r.1, q.1]));
  }

  lemma SampleBuilt(s: State, v: Value)
    requires Fine(s) && (v < s.next || v == INFINITY || v == TRUE || v == FALSE)
    ensures Built(s, (s, v))
  {
    SelfGrows(s);
  }

  lemma ConstBuilt(s: State, d: Data)
    requires Fine(s)
    ensures Built(s, Konst(s, d))
  {
    KonstGrows(s, d);
  }

  lemma Parts(s: State, r: (State, Value))
    requires Built(s, r)
    ensures Fine(r.0) && Live(r.0) && Grows(s, r.0) && r.1 < r.0.next && s.next <= r.0.next && |s.blocks| <= |r.0.blocks|
  {
  }

  /** An operand built on from `s1`, itself built on from `s`. */
  lemma {:induction false} OperandBuilt(s1: State, e: Expr, s: State) returns (r: (State, Value))
    requires Fine(s1) && Checked(e, s.next) && (s1 == s || Grows(s, s1)) && Fine(s)
    ensures Live(s1) && r == Low(s1, e) && Fine(r.0) && Live(r.0) && Built(s, r) && Grows(s, r.0) && Grows(s1, r.0)
    ensures r.1 < r.0.next && s1.next <= r.0.next && s.next <= r.0.next
    decreases Size(e), 1
  {
    hide Fine, Low;
    Predefs(s1);
    assert s.next <= s1.next;
    CheckedMono(e, s.next, s1.next);
    LowBuilt(s1, e);
    r := Low(s1, e);
    Parts(s1, r);
    if s1 != s { GrowsTwice(s, s1, r.0); }
  }

  lemma {:induction false} UnaryBuilt(s: State, op: UnaryOp, ty: Ty, arg: Expr)
    requires Fine(s) && Checked(arg, s.next)
    ensures Built(s, LowUnaryOp(s, op, ty, arg))
    decreases Size(arg), 9
  {
    hide Fine, Grows, Low;
    var r := OperandBuilt(s, arg, s);
    match op
    case Not => Op1Built(r.0, Bnot, r.1); BuiltTwice(s, r.0, Op1(r.0, Bnot, r.1));
    case Identity =>
    case BitNegate => Op1Built(r.0, Ineg, r.1); BuiltTwice(s, r.0, Op1(r.0, Ineg, r.1));
    case Apply(fun) => Op1Built(r.0, Math(fun), r.1); BuiltTwice(s, r.0, Op1(r.0, Math(fun), r.1));
    case Neg =>
      if InfinityOf(arg).Some? {
        ConstBuilt(r.0, if InfinityOf(arg).value then Flo(NegInf) else Int(MIN32));
        BuiltTwice(s, r.0, Konst(r.0, if InfinityOf(arg).value then Flo(NegInf) else Int(MIN32)));
      } else {
        Op1Built(r.0, if ty == TReal then Fneg else Ineg, r.1);
        BuiltTwice(s, r.0, Op1(r.0, if ty == TReal then Fneg else Ineg, r.1));
      }
  }

  lemma {:induction false} BinaryBuilt(s: State, op: BinaryOp, ty: Ty, lhs: Expr, rhs: Expr)
    requires Fine(s) && Checked(lhs, s.next) && Checked(rhs, s.next)
    ensures Built(s, LowBinaryOp(s, op, ty, lhs, rhs))
    decreases Size(lhs) + Size(rhs), 9
  {
    hide Fine, Grows, Built, Low, LowSelect;
    var r := OperandBuilt(s, lhs, s);
    CheckedMono(rhs, s.next, r.0.next);
    Predefs(r.0);
    if op == BooleanOr {
      SelectBuilt(r.0, r.1, Give(TRUE), Lower(rhs));
      BuiltTwice(s, r.0, LowSelect(r.0, r.1, Give(TRUE), Lower(rhs)));
    } else if op == BooleanAnd {
      SelectBuilt(r.0, r.1, Lower(rhs), Give(FALSE));
      BuiltTwice(s, r.0, LowSelect(r.0, r.1, Lower(rhs), Give(FALSE)));
    } else {
      var q := OperandBuilt(r.0, rhs, s);
      var t := Op2(q.0, Opcode(op, ty), r.1, q.1);
      Op2Built(q.0, Opcode(op, ty), r.1, q.1);
      BuiltTwice(s, q.0, t);
      Parts(s, t);
      if op == BitwiseEq {
        Op1Built(t.0, Inot, t.1);
        BuiltTwice(s, t.0, Op1(t.0, Inot, t.1));
      }
    }
  }

  lemma Predefs(s: State)
    requires Fine(s)
    ensures Live(s) && TRUE < s.next && FALSE < s.next && F_ZERO < s.next && ZERO < s.next && INFINITY < s.next
  {
  }

  lemma {:induction false} ExtremeBuilt(s: State, comparison: Opcode2, lhs: Expr, rhs: Expr)
    requires Fine(s) && Checked(lhs, s.next) && Checked(rhs, s.next)
    ensures Built(s, LowExtreme(s, comparison, lhs, rhs))
    decreases Size(lhs) + Size(rhs), 9
  {
    hide Fine, Grows, Built, Low, LowSelect;
    var r := OperandBuilt(s, lhs, s);
    var q := OperandBuilt(r.0, rhs, s);
    var t := Op2(q.0, comparison, r.1, q.1);
    Op2Built(q.0, comparison, r.1, q.1);
    BuiltTwice(s, q.0, t);
    Parts(q.0, t);
    Parts(s, t);
    SelectBuilt(t.0, t.1, Give(r.1), Give(q.1));
    BuiltTwice(s, t.0, LowSelect(t.0, t.1, Give(r.1), Give(q.1)));
  }

  lemma {:induction false} BodyBuilt(s: State, b: Body)
    requires Fine(s) && BodyChecked(b, s.next)
    ensures Built(s, LowBody(s, b))
    decreases BodySize(b), 1
  {
    hide Fine, Grows, Low;
    match b
    case Lower(e) => LowBuilt(s, e);
    case Give(v) => SelfGrows(s);
    case Negate(op, v) => Op1Built(s, op, v);
    case Compare(op, x, y) => Op2Built(s, op, x, y);
  }

  /** The stages of a lowered condition. */
  datatype Stages = Stages(arms: Arms, s1: State, s2: State, thenVal: Value, s3: State, s4: State, elseVal: Value, s5: State)

  function StagesOf(s: State, cond: Value, thenBody: Body, elseBody: Body): (r: Stages)
    requires Live(s)
    ensures LowCond(s, cond, thenBody, elseBody) == (r.s5, (r.s2.cur, r.thenVal), (r.s4.cur, r.elseVal))
  {
    var (s1, arms) := Fork(s, cond);
    var (s2, thenVal) := LowBody(s1, thenBody);
    var s3 := Switch(Put(s2, Jump(arms.join)), arms.elseDst);
    var (s4, elseVal) := LowBody(s3, elseBody);
    var s5 := Switch(Put(s4, Jump(arms.join)), arms.join);
    Stages(arms, s1, s2, thenVal, s3, s4, elseVal, s5)
  }

  lemma {:induction false} CondBuilt(s: State, cond: Value, thenBody: Body, elseBody: Body)
    requires Fine(s) && BodyChecked(thenBody, s.next) && BodyChecked(elseBody, s.next)
    ensures var g := StagesOf(s, cond, thenBody, elseBody);
      && Fine(g.s1) && Built(g.s1, (g.s2, g.thenVal)) && Fine(g.s3) && Built(g.s3, (g.s4, g.elseVal))
      && Fine(g.s5) && Grows(s, g.s5) && Grows(s, g.s3) && Grows(s, g.s1) && s.next == g.s1.next <= g.s2.next == g.s3.next <= g.s4.next == g.s5.next
      && g.s3.blocks[g.arms.elseDst] == [] && g.s5.blocks[g.arms.join] == []
      && Ext(Put(g.s2, Jump(g.arms.join)), Whole(g.s3)) && Ext(Put(g.s4, Jump(g.arms.join)), Whole(g.s5))
      && g.s2.cur != g.arms.elseDst && g.s2.cur != g.arms.join && g.s4.cur != g.arms.join
    decreases BodySize(thenBody) + BodySize(elseBody), 2
  {
    hide Fine, LowBody;
    Predefs(s);
    var g := StagesOf(s, cond, thenBody, elseBody);
    ForkBuilt(s, cond);
    BodyBuilt(g.s1, thenBody);
    JoinBuilt(s, g.s1, g.s2, g.arms.join, g.arms.elseDst);
    assert g.s3.blocks[g.arms.join] == [] by { assert g.s2.blocks[g.arms.join] == g.s1.blocks[g.arms.join]; }
    BodyCheckedMono(elseBody, s.next, g.s3.next);
    BodyBuilt(g.s3, elseBody);
    JoinBuilt(s, g.s3, g.s4, g.arms.join, g.arms.join);
  }

  lemma {:induction false} SelectBuilt(s: State, cond: Value, thenBody: Body, elseBody: Body)
    requires Fine(s) && BodyChecked(thenBody, s.next) && BodyChecked(elseBody, s.next)
    ensures Built(s, LowSelect(s, cond, thenBody, elseBody))
    decreases BodySize(thenBody) + BodySize(elseBody), 3
  {
    hide Fine, Grows, LowBody;
    Predefs(s);
    var g := StagesOf(s, cond, thenBody, elseBody);
    CondBuilt(s, cond, thenBody, elseBody);
    PhiBuilt(g.s5, [(g.s2.cur, g.thenVal), (g.s4.cur, g.elseVal)]);
    BuiltTwice(s, g.s5, PhiOf(g.s5, [(g.s2.cur, g.thenVal), (g.s4.cur, g.elseVal)]));
  }
}
