/** Running the lowered code: it reaches the tail block with the value of the expression. */
module LoweringCorrect {
  import opened Prelude
  import opened Mir
  import opened MirBuilder
  import opened Lowering
  import opened LoweringRuns

  /**
   * `n` steps lead from `c` to `c'`, where the code of `s'` ends so far: value `v` is `d`, the calls
   * made are `calls`, and values below `bound` read as before.
   */
  ghost predicate Ran(M: Machine, P: Prog, c: Config, n: nat, c': Config, bound: Value, s': State, v: Value, d: Data, calls: Calls) {
    && Run(M, P, c, n) == Some(c') && At(c', s')
    && Read(P, c'.vals, v) == d && c'.calls == calls && Kept(P, c.vals, c'.vals, bound)
  }

  /** The environment `rho` gives the values below `n`. */
  ghost predicate Agree(rho: Value -> Data, P: Prog, vals: map<Value, Data>, n: Value) {
    forall v: Value :: v < n ==> rho(v) == Read(P, vals, v)
  }

  lemma AgreeOn(rho: Value -> Data, P: Prog, vals: map<Value, Data>, vals': map<Value, Data>, n: Value, bound: Value)
    requires Agree(rho, P, vals, n) && Kept(P, vals, vals', bound) && n <= bound
    ensures Agree(rho, P, vals', n)
  {
    forall v: Value | v < n ensures rho(v) == Read(P, vals', v) {
    }
  }

  /** One run after another. */
  lemma RanTwice(M: Machine, P: Prog, c: Config, n: nat, c1: Config, bound: Value, s1: State, v1: Value, d1: Data, calls1: Calls,
                 m: nat, c2: Config, bound1: Value, s2: State, v2: Value, d2: Data, calls2: Calls)
    requires Ran(M, P, c, n, c1, bound, s1, v1, d1, calls1) && Ran(M, P, c1, m, c2, bound1, s2, v2, d2, calls2) && bound <= bound1
    ensures Ran(M, P, c, n + m, c2, bound, s2, v2, d2, calls2)
  {
    hide At, Read;
    RunOn(M, P, c, n, m);
    forall v: Value | v < bound ensures Read(P, c2.vals, v) == Read(P, c.vals, v) {
    }
  }

  /** Nothing to run. */
  lemma RanNot(M: Machine, P: Prog, c: Config, s: State, v: Value)
    requires At(c, s)
    ensures Ran(M, P, c, 0, c, s.next, s, v, Read(P, c.vals, v), c.calls)
  {
  }

  /** A constant from the constant table. */
  lemma RanConst(M: Machine, P: Prog, c: Config, s: State, d: Data)
    requires Fine(s) && At(c, s) && Ext(Konst(s, d).0, P)
    ensures Ran(M, P, c, 0, c, s.next, Konst(s, d).0, Konst(s, d).1, d, c.calls)
  {
    KonstGrows(s, d);
  }

  lemma RanOp1(M: Machine, P: Prog, c: Config, s: State, op: Opcode1, x: Value) returns (c': Config)
    requires Fine(s) && At(c, s) && Ext(Op1(s, op, x).0, P)
    ensures Ran(M, P, c, 1, c', s.next, Op1(s, op, x).0, s.next, Exec1(M, op, Read(P, c.vals, x)), c.calls)
  {
    hide Exec1;
    var s' := Op1(s, op, x).0;
    NextInst(s, s', Unary(s.next, op, x), P, c);
    var d := Exec1(M, op, Read(P, c.vals, x));
    c' := c.(pc := c.pc + 1, vals := c.vals[s.next := d]);
    RunOne(M, P, c);
    FreshRead(s, s', P, c.vals, d);
  }

  lemma RanOp2(M: Machine, P: Prog, c: Config, s: State, op: Opcode2, x: Value, y: Value) returns (c': Config)
    requires Fine(s) && At(c, s) && Ext(Op2(s, op, x, y).0, P)
    ensures Ran(M, P, c, 1, c', s.next, Op2(s, op, x, y).0, s.next, Exec2(M, op, Read(P, c.vals, x), Read(P, c.vals, y)), c.calls)
  {
    hide Exec2;
    var s' := Op2(s, op, x, y).0;
    NextInst(s, s', Binary(s.next, op, x, y), P, c);
    var d := Exec2(M, op, Read(P, c.vals, x), Read(P, c.vals, y));
    c' := c.(pc := c.pc + 1, vals := c.vals[s.next := d]);
    RunOne(M, P, c);
    FreshRead(s, s', P, c.vals, d);
  }

  lemma RanCall(M: Machine, P: Prog, c: Config, s: State, callee: Callback, args: seq<Value>) returns (c': Config)
    requires Fine(s) && At(c, s) && Ext(Call1(s, callee, args).0, P)
    ensures var data := ReadAll(P, c.vals, args);
      Ran(M, P, c, 1, c', s.next, Call1(s, callee, args).0, s.next, M.answer(callee, data, |c.calls|), c.calls + [(callee, data)])
  {
    hide ReadAll;
    var s' := Call1(s, callee, args).0;
    NextInst(s, s', Call(Some(s.next), callee, args), P, c);
    var data := ReadAll(P, c.vals, args);
    var d := M.answer(callee, data, |c.calls|);
    c' := c.(pc := c.pc + 1, calls := c.calls + [(callee, data)], vals := c.vals[s.next := d]);
    RunOne(M, P, c);
    FreshRead(s, s', P, c.vals, d);
  }

  lemma RanPhi(M: Machine, P: Prog, c: Config, s: State, edges: seq<(Block, Value)>, v: Value) returns (c': Config)
    requires Fine(s) && At(c, s) && Ext(PhiOf(s, edges).0, P) && EdgeValue(edges, c.prev) == Some(v)
    ensures Ran(M, P, c, 1, c', s.next, PhiOf(s, edges).0, s.next, Read(P, c.vals, v), c.calls)
  {
    var s' := PhiOf(s, edges).0;
    NextInst(s, s', Phi(s.next, edges), P, c);
    var d := Read(P, c.vals, v);
    c' := c.(pc := c.pc + 1, vals := c.vals[s.next := d]);
    RunOne(M, P, c);
    FreshRead(s, s', P, c.vals, d);
  }

  /** A jump leads to the front of another block. */
  lemma RanJump(M: Machine, P: Prog, c: Config, s: State, dst: Block) returns (c': Config)
    requires At(c, s) && Ext(Put(s, Jump(dst)), P)
    ensures c' == c.(block := dst, pc := 0, prev := s.cur) && Run(M, P, c, 1) == Some(c')
  {
    NextInst(s, Put(s, Jump(dst)), Jump(dst), P, c);
    c' := c.(block := dst, pc := 0, prev := c.block);
    RunOne(M, P, c);
  }

  /** A branch leads to the front of one of the two blocks of a condition. */
  lemma RanFork(M: Machine, P: Prog, c: Config, s: State, cond: Value) returns (c': Config)
    requires Fine(s) && At(c, s) && Ext(Fork(s, cond).0, P)
    ensures var arms := Fork(s, cond).1;
      c' == c.(block := if Truth(Read(P, c.vals, cond)) then arms.thenDst else arms.elseDst, pc := 0, prev := s.cur)
    ensures Run(M, P, c, 1) == Some(c')
  {
    var (s1, arms) := Fork(s, cond);
    ForkBuilt(s, cond);
    assert s1.blocks[s.cur] <= P.blocks[s.cur];
    assert P.blocks[s.cur][c.pc] == s1.blocks[s.cur][c.pc] == Br(cond, arms.thenDst, arms.elseDst);
    c' := c.(block := if Truth(Read(P, c.vals, cond)) then arms.thenDst else arms.elseDst, pc := 0, prev := c.block);
    RunOne(M, P, c);
  }

  // ---------------------------------------------------------------- conditions

  /** Meaning of a branch. */
  function BodyMeaning(M: Machine, b: Body, rho: Value -> Data, P: Prog, vals: map<Value, Data>, calls: Calls): (Data, Calls) {
    match b
    case Lower(e) => Eval(M, e, rho, calls)
    case Give(v) => (Read(P, vals, v), calls)
    case Negate(op, v) => (Exec1(M, op, Read(P, vals, v)), calls)
    case Compare(op, x, y) => (Exec2(M, op, Read(P, vals, x), Read(P, vals, y)), calls)
  }

  /** The expression of a branch samples only values below `n`. */
  predicate BodyAgrees(b: Body, n: Value) {
    b.Lower? ==> Checked(b.e, n)
  }

  lemma {:induction false} BodyRuns(M: Machine, s: State, b: Body, P: Prog, c: Config, rho: Value -> Data, n0: Value)
    returns (c': Config, n: nat)
    requires Fine(s) && At(c, s) && BodyAgrees(b, n0) && n0 <= s.next && Agree(rho, P, c.vals, n0) && Ext(LowBody(s, b).0, P)
    ensures Ran(M, P, c, n, c', s.next, LowBody(s, b).0, LowBody(s, b).1,
                BodyMeaning(M, b, rho, P, c.vals, c.calls).0, BodyMeaning(M, b, rho, P, c.vals, c.calls).1)
    decreases BodySize(b), 1
  {
    hide Fine, Ran, Low, Eval, Exec1, Exec2;
    match b
    case Lower(e) => c', n := LowRuns(M, s, e, P, c, rho, n0);
    case Give(v) => c', n := c, 0; RanNot(M, P, c, s, v);
    case Negate(op, v) => n := 1; c' := RanOp1(M, P, c, s, op, v);
    case Compare(op, x, y) => n := 1; c' := RanOp2(M, P, c, s, op, x, y);
  }

  /** A branch runs to its end and jumps to the block where the branches meet. */
  lemma {:induction false} ArmRuns(M: Machine, s: State, b: Body, join: Block, P: Prog, c: Config, rho: Value -> Data, n0: Value)
    returns (c': Config, n: nat)
    requires Fine(s) && At(c, s) && BodyAgrees(b, n0) && n0 <= s.next && Agree(rho, P, c.vals, n0)
    requires Ext(Put(LowBody(s, b).0, Jump(join)), P)
    ensures Run(M, P, c, n) == Some(c') && c'.block == join && c'.pc == 0 && c'.prev == LowBody(s, b).0.cur
    ensures Read(P, c'.vals, LowBody(s, b).1) == BodyMeaning(M, b, rho, P, c.vals, c.calls).0
    ensures c'.calls == BodyMeaning(M, b, rho, P, c.vals, c.calls).1 && Kept(P, c.vals, c'.vals, s.next)
    decreases BodySize(b), 2
  {
    hide Fine, LowBody, BodyMeaning;
    var s' := LowBody(s, b).0;
    PutExt(s', Jump(join), P);
    var c1, n1 := BodyRuns(M, s, b, P, c, rho, n0);
    c' := RanJump(M, P, c1, s', join);
    RunOn(M, P, c, n1, 1);
    n := n1 + 1;
  }

  lemma PutExt(s: State, i: Inst, P: Prog)
    requires Live(s) && Ext(Put(s, i), P)
    ensures Ext(s, P)
  {
    forall k | 0 <= k < |s.blocks| ensures s.blocks[k] <= P.blocks[k] {
      assert s.blocks[k] <= Put(s, i).blocks[k] <= P.blocks[k];
    }
  }

  /** Of two edges with different sources each is found. */
  lemma TwoEdges(a: (Block, Value), b: (Block, Value))
    requires a.0 != b.0
    ensures EdgeValue([a, b], a.0) == Some(a.1) && EdgeValue([a, b], b.0) == Some(b.1)
  {
    assert [a, b][..1] == [a];
    assert EdgeValue([a], a.0) == Some(a.1);
  }

  /** Only the selected branch of a condition runs, and the phi yields its value. */
  lemma {:induction false} SelectRuns(M: Machine, s: State, cond: Value, thenBody: Body, elseBody: Body, P: Prog,
                                      c: Config, rho: Value -> Data, n0: Value)
    returns (c': Config, n: nat)
    requires Fine(s) && At(c, s) && n0 <= s.next && Agree(rho, P, c.vals, n0)
    requires BodyChecked(thenBody, s.next) && BodyChecked(elseBody, s.next) && BodyAgrees(thenBody, n0) && BodyAgrees(elseBody, n0)
    requires Ext(LowSelect(s, cond, thenBody, elseBody).0, P)
    ensures var r := LowSelect(s, cond, thenBody, elseBody);
      var m := BodyMeaning(M, if Truth(Read(P, c.vals, cond)) then thenBody else elseBody, rho, P, c.vals, c.calls);
      Ran(M, P, c, n, c', s.next, r.0, r.1, m.0, m.1)
    decreases BodySize(thenBody) + BodySize(elseBody), 3
  {
    hide Fine, LowBody, BodyMeaning, Truth, Run, Read, Kept, Ext, Grows, Built, Agree, LowCond, Fork;
    Predefs(s);
    var g := StagesOf(s, cond, thenBody, elseBody);
    CondBuilt(s, cond, thenBody, elseBody);
    var edges := [(g.s2.cur, g.thenVal), (g.s4.cur, g.elseVal)];
    StageExts(s, cond, thenBody, elseBody, P);
    StageStarts(s, cond, thenBody, elseBody);
    StageTails(s, cond, thenBody, elseBody);
    TwoEdges(edges[0], edges[1]);
    var c1 := RanFork(M, P, c, s, cond);
    var c2, n2;
    if Truth(Read(P, c.vals, cond)) {
      c2, n2 := ArmRuns(M, g.s1, thenBody, g.arms.join, P, c1, rho, n0);
      c' := RanPhi(M, P, c2, g.s5, edges, g.thenVal);
    } else {
      c2, n2 := ArmRuns(M, g.s3, elseBody, g.arms.join, P, c1, rho, n0);
      c' := RanPhi(M, P, c2, g.s5, edges, g.elseVal);
    }
    RunOn(M, P, c, 1, n2);
    RunOn(M, P, c, 1 + n2, 1);
    n := 1 + n2 + 1;
    KeptTwice(P, c.vals, c2.vals, c'.vals, s.next, if Truth(Read(P, c.vals, cond)) then g.s1.next else g.s3.next, g.s5.next);
  }

  lemma KeptTwice(P: Prog, vals: map<Value, Data>, vals1: map<Value, Data>, vals2: map<Value, Data>, n: Value, k: Value, m: Value)
    requires Kept(P, vals, vals1, k) && Kept(P, vals1, vals2, m) && n <= k && n <= m
    ensures Kept(P, vals, vals2, n)
  {
    hide Read;
    forall v: Value | v < n ensures Read(P, vals2, v) == Read(P, vals, v) {
      assert Read(P, vals1, v) == Read(P, vals, v);
    }
  }

  /** Where the branches of a condition start. */
  lemma StageStarts(s: State, cond: Value, thenBody: Body, elseBody: Body)
    requires Fine(s) && BodyChecked(thenBody, s.next) && BodyChecked(elseBody, s.next)
    ensures var g := StagesOf(s, cond, thenBody, elseBody);
      && Fork(s, cond) == (g.s1, g.arms)
      && g.s1.cur == g.arms.thenDst && g.s1.blocks[g.s1.cur] == [] && Live(g.s1)
      && g.s3.cur == g.arms.elseDst && g.s3.blocks[g.s3.cur] == [] && Live(g.s3)
      && g.s5.cur == g.arms.join && g.s5.blocks[g.s5.cur] == [] && Live(g.s5)
      && LowBody(g.s1, thenBody) == (g.s2, g.thenVal) && LowBody(g.s3, elseBody) == (g.s4, g.elseVal)
      && LowSelect(s, cond, thenBody, elseBody) == PhiOf(g.s5, [(g.s2.cur, g.thenVal), (g.s4.cur, g.elseVal)])
  {
    hide Fine, LowBody;
    Predefs(s);
    ForkBuilt(s, cond);
    CondBuilt(s, cond, thenBody, elseBody);
  }

  /** Every stage of a condition is part of the finished program. */
  lemma StageExts(s: State, cond: Value, thenBody: Body, elseBody: Body, P: Prog)
    requires Fine(s) && BodyChecked(thenBody, s.next) && BodyChecked(elseBody, s.next)
    requires Ext(LowSelect(s, cond, thenBody, elseBody).0, P)
    ensures var g := StagesOf(s, cond, thenBody, elseBody);
      && Ext(g.s1, P) && Ext(Put(g.s2, Jump(g.arms.join)), P) && Ext(Put(g.s4, Jump(g.arms.join)), P) && Ext(g.s5, P)
  {
    hide Fine, LowBody, Ext;
    Predefs(s);
    var g := StagesOf(s, cond, thenBody, elseBody);
    CondBuilt(s, cond, thenBody, elseBody);
    var edges := [(g.s2.cur, g.thenVal), (g.s4.cur, g.elseVal)];
    PhiBuilt(g.s5, edges);
    ExtBack(g.s5, PhiOf(g.s5, edges).0, P);
    ExtBack(Put(g.s4, Jump(g.arms.join)), g.s5, P);
    PutExt(g.s4, Jump(g.arms.join), P);
    ExtBack(g.s3, g.s4, P);
    ExtBack(Put(g.s2, Jump(g.arms.join)), g.s3, P);
    PutExt(g.s2, Jump(g.arms.join), P);
    ExtBack(g.s1, g.s2, P);
  }

  /** The branches of a condition end in different blocks. */
  lemma StageTails(s: State, cond: Value, thenBody: Body, elseBody: Body)
    requires Fine(s) && BodyChecked(thenBody, s.next) && BodyChecked(elseBody, s.next)
    ensures var g := StagesOf(s, cond, thenBody, elseBody); g.s2.cur != g.s4.cur
  {
    hide Fine, LowBody;
    Predefs(s);
    CondBuilt(s, cond, thenBody, elseBody);
  }

  lemma KeptRead(P: Prog, vals: map<Value, Data>, vals': map<Value, Data>, bound: Value, v: Value)
    requires Kept(P, vals, vals', bound) && v < bound
    ensures Read(P, vals', v) == Read(P, vals, v)
  {
  }

  lemma GrowsExt(s: State, s': State, P: Prog)
    requires Grows(s, s') && Ext(s', P)
    ensures Ext(s, P)
  {
    ExtBack(s, s', P);
  }

  lemma BuiltExt(s: State, r: (State, Value), P: Prog)
    requires Built(s, r) && Ext(r.0, P)
    ensures Ext(s, P)
  {
    ExtBack(s, r.0, P);
  }

  /** An operand, and an instruction on its value. */
  lemma {:induction false} ThenUnary(M: Machine, s: State, e: Expr, op: Opcode1, P: Prog, c: Config, rho: Value -> Data, n0: Value)
    returns (c': Config, n: nat)
    requires Fine(s) && At(c, s) && Checked(e, n0) && n0 <= s.next && Agree(rho, P, c.vals, n0)
    requires var r := Low(s, e); Ext(Op1(r.0, op, r.1).0, P)
    ensures var r := Low(s, e);
      Ran(M, P, c, n, c', s.next, Op1(r.0, op, r.1).0, Op1(r.0, op, r.1).1, Exec1(M, op, Eval(M, e, rho, c.calls).0), Eval(M, e, rho, c.calls).1)
    decreases Size(e), 2
  {
    hide Fine, Grows, Built, Ext, At, Run, Read, Kept, Low, Eval, Exec1;
    Predefs(s);
    var c1, n1, s1 := Operand(M, s, e, op, P, c, rho, n0);
    c' := RanOp1(M, P, c1, s1, op, Low(s, e).1);
    n := n1 + 1;
    var (d, calls) := Eval(M, e, rho, c.calls);
    RanTwice(M, P, c, n1, c1, s.next, s1, Low(s, e).1, d, calls, 1, c', s1.next, Op1(s1, op, Low(s, e).1).0,
             s1.next, Exec1(M, op, d), calls);
  }

  lemma {:induction false} Operand(M: Machine, s: State, e: Expr, op: Opcode1, P: Prog, c: Config, rho: Value -> Data, n0: Value)
    returns (c1: Config, n1: nat, s1: State)
    requires Fine(s) && At(c, s) && Checked(e, n0) && n0 <= s.next && Agree(rho, P, c.vals, n0)
    requires var r := Low(s, e); Ext(Op1(r.0, op, r.1).0, P)
    ensures Live(s) && Live(s1) && s1 == Low(s, e).0 && Fine(s1) && s.next <= s1.next
    ensures Ran(M, P, c, n1, c1, s.next, s1, Low(s, e).1, Eval(M, e, rho, c.calls).0, Eval(M, e, rho, c.calls).1)
    decreases Size(e), 1
  {
    hide Fine, Low, Eval, Ran;
    CheckedMono(e, n0, s.next);
    var r := OperandBuilt(s, e, s);
    s1 := r.0;
    Op1Built(s1, op, r.1);
    BuiltExt(s1, Op1(s1, op, r.1), P);
    c1, n1 := LowRuns(M, s, e, P, c, rho, n0);
  }

  /** Two operands, one after the other. */
  lemma {:induction false} TwoOperands(M: Machine, s: State, a: Expr, b: Expr, P: Prog, c: Config, rho: Value -> Data, n0: Value)
    returns (c': Config, n: nat)
    requires Fine(s) && At(c, s) && Checked(a, n0) && Checked(b, n0) && n0 <= s.next && Agree(rho, P, c.vals, n0)
    requires Ext(Low(Low(s, a).0, b).0, P)
    ensures var (s1, x) := Low(s, a);
      var (s2, y) := Low(s1, b);
      var (d, calls1) := Eval(M, a, rho, c.calls);
      var (d', calls2) := Eval(M, b, rho, calls1);
      && Fine(s1) && Fine(s2) && s.next <= s1.next <= s2.next && x < s2.next && y < s2.next
      && Ran(M, P, c, n, c', s.next, s2, y, d', calls2) && Read(P, c'.vals, x) == d
    decreases Size(a) + Size(b), 0
  {
    hide Fine, Grows, Built, Ext, At, Run, Read, Kept, Low, Eval, Agree, Checked;
    CheckedMono(a, n0, s.next);
    CheckedMono(b, n0, s.next);
    var r := OperandBuilt(s, a, s);
    var q := OperandBuilt(r.0, b, s);
    GrowsExt(r.0, q.0, P);
    var c1, n1 := LowRuns(M, s, a, P, c, rho, n0);
    AgreeOn(rho, P, c.vals, c1.vals, n0, s.next);
    var n2;
    c', n2 := LowRuns(M, r.0, b, P, c1, rho, n0);
    n := n1 + n2;
    var (d, calls1) := Eval(M, a, rho, c.calls);
    var (d', calls2) := Eval(M, b, rho, calls1);
    KeptRead(P, c1.vals, c'.vals, r.0.next, r.1);
    RanTwice(M, P, c, n1, c1, s.next, r.0, r.1, d, calls1, n2, c', r.0.next, q.0, q.1, d', calls2);
  }

  // ---------------------------------------------------------------- the operators

  lemma CastMeans(M: Machine, src: Ty, dst: Ty, x: Data)
    requires Castable(src, dst)
    ensures Exec1(M, CastOp(src, dst), x) == M.cast(src, dst, x)
  {
  }

  /** Comparing with zero and negating computes the absolute value. */
  lemma AbsMeans(M: Machine, ty: Ty, x: Data)
    requires Numeric(ty)
    ensures var zero := if ty == TReal then Flo(Fin(0.0)) else Int(0);
      AbsOf(ty, x) == if Truth(Exec2(M, if ty == TReal then Flt else Ilt, x, zero)) then Exec1(M, if ty == TReal then Fneg else Ineg, x) else x
  {
  }

  lemma LeastMeans(M: Machine, ty: Ty, x: Data, y: Data)
    requires Numeric(ty)
    ensures LeastOf(ty, x, y) == if Truth(Exec2(M, if ty == TReal then Flt else Ilt, x, y)) then x else y
    ensures GreatestOf(ty, x, y) == if Truth(Exec2(M, if ty == TReal then Fgt else Igt, x, y)) then x else y
  {
  }

  /** Short-circuit operators. */
  lemma {:induction false} BooleanRuns(M: Machine, s: State, op: BinaryOp, ty: Ty, lhs: Expr, rhs: Expr, P: Prog,
                                       c: Config, rho: Value -> Data, n0: Value)
    returns (c': Config, n: nat)
    requires op == BooleanOr || op == BooleanAnd
    requires Fine(s) && At(c, s) && Checked(lhs, n0) && Checked(rhs, n0) && n0 <= s.next && Agree(rho, P, c.vals, n0)
    requires Ext(LowBinaryOp(s, op, ty, lhs, rhs).0, P)
    ensures var r := LowBinaryOp(s, op, ty, lhs, rhs);
      var (d, calls1) := Eval(M, lhs, rho, c.calls);
      var m :=
        if op == BooleanOr && Truth(d) then (Bool(true), calls1)
        else if op == BooleanAnd && !Truth(d) then (Bool(false), calls1)
        else Eval(M, rhs, rho, calls1);
      Ran(M, P, c, n, c', s.next, r.0, r.1, m.0, m.1)
    decreases Size(lhs) + Size(rhs), 9
  {
    hide Fine, Grows, Built, Ext, At, Run, Read, Kept, Low, Eval, LowSelect, Truth;
    CheckedMono(lhs, n0, s.next);
    CheckedMono(rhs, n0, s.next);
    var r := OperandBuilt(s, lhs, s);
    CheckedMono(rhs, n0, r.0.next);
    Predefs(r.0);
    var t, f := if op == BooleanOr then Give(TRUE) else Lower(rhs), if op == BooleanOr then Lower(rhs) else Give(FALSE);
    SelectBuilt(r.0, r.1, t, f);
    var q := LowSelect(r.0, r.1, t, f);
    BuiltExt(r.0, q, P);
    var c1, n1 := LowRuns(M, s, lhs, P, c, rho, n0);
    AgreeOn(rho, P, c.vals, c1.vals, n0, s.next);
    var n2;
    c', n2 := SelectRuns(M, r.0, r.1, t, f, P, c1, rho, n0);
    n := n1 + n2;
    PredefRead(r.0, P, c1.vals);
    var (d, calls1) := Eval(M, lhs, rho, c.calls);
    var m := BodyMeaning(M, if Truth(d) then t else f, rho, P, c1.vals, calls1);
    RanTwice(M, P, c, n1, c1, s.next, r.0, r.1, d, calls1, n2, c', r.0.next, q.0, q.1, m.0, m.1);
  }

  lemma PredefRead(s: State, P: Prog, vals: map<Value, Data>)
    requires Fine(s) && Ext(s, P)
    ensures Read(P, vals, TRUE) == Bool(true) && Read(P, vals, FALSE) == Bool(false)
    ensures Read(P, vals, F_ZERO) == Flo(Fin(0.0)) && Read(P, vals, ZERO) == Int(0) && Read(P, vals, INFINITY) == Flo(PosInf)
  {
  }

  /** Operators that evaluate both operands. */
  lemma {:induction false} BinaryRuns(M: Machine, s: State, op: BinaryOp, ty: Ty, lhs: Expr, rhs: Expr, P: Prog,
                                      c: Config, rho: Value -> Data, n0: Value)
    returns (c': Config, n: nat)
    requires op != BooleanOr && op != BooleanAnd && OpTyped(op, ty)
    requires Fine(s) && At(c, s) && Checked(lhs, n0) && Checked(rhs, n0) && n0 <= s.next && Agree(rho, P, c.vals, n0)
    requires Ext(LowBinaryOp(s, op, ty, lhs, rhs).0, P)
    ensures var r := LowBinaryOp(s, op, ty, lhs, rhs);
      var (d, calls1) := Eval(M, lhs, rho, c.calls);
      var (d', calls2) := Eval(M, rhs, rho, calls1);
      Ran(M, P, c, n, c', s.next, r.0, r.1, Meaning2(M, op, ty, d, d'), calls2)
    decreases Size(lhs) + Size(rhs), 9
  {
    hide Fine, Grows, Built, Ext, At, Run, Read, Kept, Low, Eval, Exec1, Exec2, Meaning2, Opcode;
    CheckedMono(lhs, n0, s.next);
    CheckedMono(rhs, n0, s.next);
    var r1 := OperandBuilt(s, lhs, s);
    var (s1, x) := r1;
    var r2 := OperandBuilt(s1, rhs, s);
    var (s2, y) := r2;
    var t := Op2(s2, Opcode(op, ty), x, y);
    Op2Built(s2, Opcode(op, ty), x, y);
    Parts(s2, t);
    if op == BitwiseEq {
      Op1Built(t.0, Inot, t.1);
      BuiltExt(t.0, Op1(t.0, Inot, t.1), P);
    }
    BuiltExt(s2, t, P);
    var c2, n2 := TwoOperands(M, s, lhs, rhs, P, c, rho, n0);
    var (d, calls1) := Eval(M, lhs, rho, c.calls);
    var (d', calls2) := Eval(M, rhs, rho, calls1);
    var z := Exec2(M, Opcode(op, ty), d, d');
    OpcodeMeans(M, op, ty, d, d');
    c' := RanOp2(M, P, c2, s2, Opcode(op, ty), x, y);
    n := n2 + 1;
    RanTwice(M, P, c, n2, c2, s.next, s2, y, d', calls2, 1, c', s2.next, t.0, t.1, z, calls2);
    if op == BitwiseEq {
      var c3 := RanOp1(M, P, c', t.0, Inot, t.1);
      RanTwice(M, P, c, n, c', s.next, t.0, t.1, z, calls2, 1, c3, t.0.next, Op1(t.0, Inot, t.1).0, t.0.next, Exec1(M, Inot, z), calls2);
      c', n := c3, n + 1;
    }
  }

  lemma {:induction false} UnaryRuns(M: Machine, s: State, op: UnaryOp, ty: Ty, arg: Expr, P: Prog, c: Config,
                                     rho: Value -> Data, n0: Value)
    returns (c': Config, n: nat)
    requires op == Neg ==> Numeric(ty)
    requires Fine(s) && At(c, s) && Checked(arg, n0) && n0 <= s.next && Agree(rho, P, c.vals, n0)
    requires Ext(LowUnaryOp(s, op, ty, arg).0, P)
    ensures var r := LowUnaryOp(s, op, ty, arg);
      var m := Eval(M, UnaryExpr(op, ty, arg), rho, c.calls);
      Ran(M, P, c, n, c', s.next, r.0, r.1, m.0, m.1)
    decreases Size(arg), 9
  {
    hide Fine, Grows, Built, Ext, At, Run, Read, Kept, Low, Konst;
    var (d, calls1) := Eval(M, arg, rho, c.calls);
    if op == Not {
      c', n := ThenUnary(M, s, arg, Bnot, P, c, rho, n0);
    } else if op == BitNegate {
      c', n := ThenUnary(M, s, arg, Ineg, P, c, rho, n0);
    } else if op.Apply? {
      c', n := ThenUnary(M, s, arg, Math(op.fun), P, c, rho, n0);
    } else if op == Neg && InfinityOf(arg).None? {
      c', n := ThenUnary(M, s, arg, if ty == TReal then Fneg else Ineg, P, c, rho, n0);
    } else {
      CheckedMono(arg, n0, s.next);
      var r := OperandBuilt(s, arg, s);
      if op == Identity {
        c', n := LowRuns(M, s, arg, P, c, rho, n0);
      } else {
        var k := if InfinityOf(arg).value then Flo(NegInf) else Int(MIN32);
        ConstBuilt(r.0, k);
        BuiltExt(r.0, Konst(r.0, k), P);
        c', n := LowRuns(M, s, arg, P, c, rho, n0);
        RanConst(M, P, c', r.0, k);
        RanTwice(M, P, c, n, c', s.next, r.0, r.1, d, calls1, 0, c', r.0.next, Konst(r.0, k).0, Konst(r.0, k).1, k, calls1);
      }
    }
  }

  lemma {:induction false} AbsRuns(M: Machine, s: State, ty: Ty, arg: Expr, P: Prog, c: Config, rho: Value -> Data, n0: Value)
    returns (c': Config, n: nat)
    requires Fine(s) && At(c, s) && Checked(arg, n0) && Numeric(ty) && n0 <= s.next && Agree(rho, P, c.vals, n0)
    requires Ext(Low(s, Abs(ty, arg)).0, P)
    ensures var r := Low(s, Abs(ty, arg));
      Ran(M, P, c, n, c', s.next, r.0, r.1, AbsOf(ty, Eval(M, arg, rho, c.calls).0), Eval(M, arg, rho, c.calls).1)
    decreases Size(arg), 9
  {
    hide Fine, Grows, Built, Ext, At, Run, Read, Kept, Eval, Exec1, Exec2, LowSelect, AbsOf, Truth;
    CheckedMono(arg, n0, s.next);
    var r := OperandBuilt(s, arg, s);
    Predefs(r.0);
    var cmp, neg, zero := if ty == TReal then Flt else Ilt, if ty == TReal then Fneg else Ineg, if ty == TReal then F_ZERO else ZERO;
    var t := Op2(r.0, cmp, r.1, zero);
    Op2Built(r.0, cmp, r.1, zero);
    Parts(r.0, t);
    var q := LowSelect(t.0, t.1, Negate(neg, r.1), Give(r.1));
    assert Low(s, Abs(ty, arg)) == q;
    SelectBuilt(t.0, t.1, Negate(neg, r.1), Give(r.1));
    BuiltExt(t.0, q, P);
    BuiltExt(r.0, t, P);
    var c1, n1 := LowRuns(M, s, arg, P, c, rho, n0);
    var (d, calls1) := Eval(M, arg, rho, c.calls);
    PredefRead(r.0, P, c1.vals);
    var c2 := RanOp2(M, P, c1, r.0, cmp, r.1, zero);
    var b := Exec2(M, cmp, d, Read(P, c1.vals, zero));
    RanTwice(M, P, c, n1, c1, s.next, r.0, r.1, d, calls1, 1, c2, r.0.next, t.0, t.1, b, calls1);
    AgreeOn(rho, P, c.vals, c2.vals, n0, s.next);
    var n3;
    c', n3 := SelectRuns(M, t.0, t.1, Negate(neg, r.1), Give(r.1), P, c2, rho, n0);
    KeptRead(P, c1.vals, c2.vals, r.0.next, r.1);
    AbsMeans(M, ty, d);
    n := n1 + 1 + n3;
    RanTwice(M, P, c, n1 + 1, c2, s.next, t.0, t.1, b, calls1, n3, c', t.0.next, q.0, q.1, AbsOf(ty, d), calls1);
  }

  /** Minimum and maximum. */
  lemma {:induction false} ExtremeRuns(M: Machine, s: State, cmp: Opcode2, lhs: Expr, rhs: Expr, P: Prog,
                                       c: Config, rho: Value -> Data, n0: Value)
    returns (c': Config, n: nat)
    requires Fine(s) && At(c, s) && Checked(lhs, n0) && Checked(rhs, n0) && n0 <= s.next && Agree(rho, P, c.vals, n0)
    requires Ext(LowExtreme(s, cmp, lhs, rhs).0, P)
    ensures var r := LowExtreme(s, cmp, lhs, rhs);
      var (d, calls1) := Eval(M, lhs, rho, c.calls);
      var (d', calls2) := Eval(M, rhs, rho, calls1);
      Ran(M, P, c, n, c', s.next, r.0, r.1, if Truth(Exec2(M, cmp, d, d')) then d else d', calls2)
    decreases Size(lhs) + Size(rhs), 9
  {
    hide Fine, Grows, Built, Ext, At, Run, Read, Kept, Eval, Exec1, Exec2, LowSelect, Low, Truth;
    CheckedMono(lhs, n0, s.next);
    CheckedMono(rhs, n0, s.next);
    var r1 := OperandBuilt(s, lhs, s);
    var (s1, x) := r1;
    var r2 := OperandBuilt(s1, rhs, s);
    var (s2, y) := r2;
    var t := Op2(s2, cmp, x, y);
    Op2Built(s2, cmp, x, y);
    Parts(s2, t);
    var q := LowSelect(t.0, t.1, Give(x), Give(y));
    SelectBuilt(t.0, t.1, Give(x), Give(y));
    BuiltExt(t.0, q, P);
    BuiltExt(s2, t, P);
    var c2, n2 := TwoOperands(M, s, lhs, rhs, P, c, rho, n0);
    var (d, calls1) := Eval(M, lhs, rho, c.calls);
    var (d', calls2) := Eval(M, rhs, rho, calls1);
    var c3 := RanOp2(M, P, c2, s2, cmp, x, y);
    var b := Exec2(M, cmp, d, d');
    RanTwice(M, P, c, n2, c2, s.next, s2, y, d', calls2, 1, c3, s2.next, t.0, t.1, b, calls2);
    AgreeOn(rho, P, c.vals, c3.vals, n0, s.next);
    KeptRead(P, c2.vals, c3.vals, s2.next, x);
    KeptRead(P, c2.vals, c3.vals, s2.next, y);
    var n3;
    c', n3 := SelectRuns(M, t.0, t.1, Give(x), Give(y), P, c3, rho, n0);
    n := n2 + 1 + n3;
    RanTwice(M, P, c, n2 + 1, c3, s.next, t.0, t.1, b, calls2, n3, c', t.0.next, q.0, q.1, if Truth(b) then d else d', calls2);
  }

  lemma ReadTwo(P: Prog, vals: map<Value, Data>, x: Value, y: Value)
    ensures ReadAll(P, vals, [x]) == [Read(P, vals, x)]
    ensures ReadAll(P, vals, [x, y]) == [Read(P, vals, x), Read(P, vals, y)]
  {
  }

  lemma CallUnfold(M: Machine, s: State, name: Expr, rho: Value -> Data, calls: Calls)
    requires Live(s)
    ensures Low(s, SimParam(name)) == Call1(Low(s, name).0, SIM_PARAM, [Low(s, name).1])
    ensures var (x, calls1) := Eval(M, name, rho, calls);
      Eval(M, SimParam(name), rho, calls) == (M.answer(SIM_PARAM, [x], |calls1|), calls1 + [(SIM_PARAM, [x])])
  {
  }

  lemma CallOrUnfold(M: Machine, s: State, name: Expr, default: Expr, rho: Value -> Data, calls: Calls)
    requires Live(s)
    ensures var (s1, x) := Low(s, name);
      var (s2, y) := Low(s1, default);
      Low(s, SimParamOr(name, default)) == Call1(s2, SIM_PARAM_OPT, [x, y])
    ensures var (x, calls1) := Eval(M, name, rho, calls);
      var (y, calls2) := Eval(M, default, rho, calls1);
      Eval(M, SimParamOr(name, default), rho, calls) == (M.answer(SIM_PARAM_OPT, [x, y], |calls2|), calls2 + [(SIM_PARAM_OPT, [x, y])])
  {
  }

  lemma {:induction false} CallRuns(M: Machine, s: State, name: Expr, P: Prog, c: Config, rho: Value -> Data, n0: Value)
    returns (c': Config, n: nat)
    requires Fine(s) && At(c, s) && Checked(name, n0) && n0 <= s.next && Agree(rho, P, c.vals, n0)
    requires Ext(Low(s, SimParam(name)).0, P)
    ensures var r := Low(s, SimParam(name));
      var m := Eval(M, SimParam(name), rho, c.calls);
      Ran(M, P, c, n, c', s.next, r.0, r.1, m.0, m.1)
    decreases Size(name), 9
  {
    hide Fine, Grows, Built, Ext, At, Run, Kept, Read, ReadAll, Low, Eval, Agree;
    CheckedMono(name, n0, s.next);
    var r := OperandBuilt(s, name, s);
    var t := Call1(r.0, SIM_PARAM, [r.1]);
    CallUnfold(M, s, name, rho, c.calls);
    CallBuilt(r.0, SIM_PARAM, [r.1]);
    BuiltExt(r.0, t, P);
    var c1, n1 := LowRuns(M, s, name, P, c, rho, n0);
    var (d, calls1) := Eval(M, name, rho, c.calls);
    c' := RanCall(M, P, c1, r.0, SIM_PARAM, [r.1]);
    ReadTwo(P, c1.vals, r.1, r.1);
    n := n1 + 1;
    RanTwice(M, P, c, n1, c1, s.next, r.0, r.1, d, calls1, 1, c', r.0.next, t.0, t.1, M.answer(SIM_PARAM, [d],
             |calls1|), calls1 + [(SIM_PARAM, [d])]);
  }

  lemma {:induction false} CallOrRuns(M: Machine, s: State, name: Expr, default: Expr, P: Prog, c: Config, rho: Value -> Data, n0: Value)
    returns (c': Config, n: nat)
    requires Fine(s) && At(c, s) && Checked(name, n0) && Checked(default, n0) && n0 <= s.next && Agree(rho, P, c.vals, n0)
    requires Ext(Low(s, SimParamOr(name, default)).0, P)
    ensures var r := Low(s, SimParamOr(name, default));
      var m := Eval(M, SimParamOr(name, default), rho, c.calls);
      Ran(M, P, c, n, c', s.next, r.0, r.1, m.0, m.1)
    decreases Size(name) + Size(default), 9
  {
    hide Fine, Grows, Built, Ext, At, Run, Kept, Read, ReadAll, Low, Eval, Agree;
    CheckedMono(name, n0, s.next);
    CheckedMono(default, n0, s.next);
    var r1 := OperandBuilt(s, name, s);
    var (s1, x) := r1;
    var r2 := OperandBuilt(s1, default, s);
    var (s2, y) := r2;
    var t := Call1(s2, SIM_PARAM_OPT, [x, y]);
    CallOrUnfold(M, s, name, default, rho, c.calls);
    CallBuilt(s2, SIM_PARAM_OPT, [x, y]);
    BuiltExt(s2, t, P);
    var c2, n2 := TwoOperands(M, s, name, default, P, c, rho, n0);
    var (d, calls1) := Eval(M, name, rho, c.calls);
    var (d', calls2) := Eval(M, default, rho, calls1);
    c' := RanCall(M, P, c2, s2, SIM_PARAM_OPT, [x, y]);
    ReadTwo(P, c2.vals, x, y);
    n := n2 + 1;
    RanTwice(M, P, c, n2, c2, s.next, s2, y, d', calls2, 1, c', s2.next, t.0, t.1,
             M.answer(SIM_PARAM_OPT, [d, d'], |calls2|), calls2 + [(SIM_PARAM_OPT, [d, d'])]);
  }

  lemma {:induction false} SelectExprRuns(M: Machine, s: State, cond: Expr, a: Expr, b: Expr, P: Prog, c: Config,
                                          rho: Value -> Data, n0: Value)
    returns (c': Config, n: nat)
    requires Fine(s) && At(c, s) && Checked(cond, n0) && Checked(a, n0) && Checked(b, n0) && n0 <= s.next && Agree(rho, P, c.vals, n0)
    requires Ext(Low(s, Select(cond, a, b)).0, P)
    ensures var r := Low(s, Select(cond, a, b));
      var m := Eval(M, Select(cond, a, b), rho, c.calls);
      Ran(M, P, c, n, c', s.next, r.0, r.1, m.0, m.1)
    decreases Size(cond) + Size(a) + Size(b), 9
  {
    hide Fine, Grows, Built, Ext, At, Run, Read, Kept, LowSelect, Truth;
    CheckedMono(cond, n0, s.next);
    CheckedMono(a, n0, s.next);
    CheckedMono(b, n0, s.next);
    var r := OperandBuilt(s, cond, s);
    CheckedMono(a, n0, r.0.next);
    CheckedMono(b, n0, r.0.next);
    var q := LowSelect(r.0, r.1, Lower(a), Lower(b));
    assert Low(s, Select(cond, a, b)) == q;
    SelectBuilt(r.0, r.1, Lower(a), Lower(b));
    BuiltExt(r.0, q, P);
    var c1, n1 := LowRuns(M, s, cond, P, c, rho, n0);
    var (d, calls1) := Eval(M, cond, rho, c.calls);
    AgreeOn(rho, P, c.vals, c1.vals, n0, s.next);
    var n2;
    c', n2 := SelectRuns(M, r.0, r.1, Lower(a), Lower(b), P, c1, rho, n0);
    n := n1 + n2;
    var m := Eval(M, if Truth(d) then a else b, rho, calls1);
    RanTwice(M, P, c, n1, c1, s.next, r.0, r.1, d, calls1, n2, c', r.0.next, q.0, q.1, m.0, m.1);
  }

  /**
   * The code lowered from an expression, in whatever way the function is completed later, runs from
   * the old end of the current block to the end of the tail block, where the returned value is the
   * value of the expression; exactly the calls of the evaluation are made, in order.
   */
  lemma {:induction false} LowRuns(M: Machine, s: State, e: Expr, P: Prog, c: Config, rho: Value -> Data, n0: Value)
    returns (c': Config, n: nat)
    requires Fine(s) && At(c, s) && Checked(e, n0) && n0 <= s.next && Agree(rho, P, c.vals, n0) && Ext(Low(s, e).0, P)
    ensures Ran(M, P, c, n, c', s.next, Low(s, e).0, Low(s, e).1, Eval(M, e, rho, c.calls).0, Eval(M, e, rho, c.calls).1)
    decreases Size(e), 0
  {
    hide Fine, LowSelect, LowBinaryOp, LowUnaryOp, LowExtreme, Ran, Exec1, Exec2, Meaning2, LeastOf, GreatestOf, AbsOf, Konst;
    c', n := c, 0;
    match e
    case Sample(v, tagged) =>
      if tagged { n := 1; c' := RanOp1(M, P, c, s, OptBarrier, v); BarrierMeans(M, Read(P, c.vals, v)); } else { RanNot(M, P, c, s, v); }
    case Literal(d) => RanConst(M, P, c, s, d);
    case Infinite(float) =>
      if float { RanNot(M, P, c, s, INFINITY); PredefRead(s, P, c.vals); } else { RanConst(M, P, c, s, Int(MAX32)); }
    case Cast(src, dst, arg) =>
      if arg.Infinite? {
        c', n := LowRuns(M, s, arg, P, c, rho, n0);
      } else {
        c', n := ThenUnary(M, s, arg, CastOp(src, dst), P, c, rho, n0);
        CastMeans(M, src, dst, Eval(M, arg, rho, c.calls).0);
      }
    case UnaryExpr(op, ty, arg) => c', n := UnaryRuns(M, s, op, ty, arg, P, c, rho, n0);
    case BinaryExpr(op, ty, lhs, rhs) =>
      if op == BooleanOr || op == BooleanAnd {
        c', n := BooleanRuns(M, s, op, ty, lhs, rhs, P, c, rho, n0);
      } else {
        c', n := BinaryRuns(M, s, op, ty, lhs, rhs, P, c, rho, n0);
      }
    case Select(cond, a, b) => c', n := SelectExprRuns(M, s, cond, a, b, P, c, rho, n0);
    case Abs(ty, arg) => c', n := AbsRuns(M, s, ty, arg, P, c, rho, n0);
    case Min(ty, lhs, rhs) =>
      c', n := ExtremeRuns(M, s, if ty == TReal then Flt else Ilt, lhs, rhs, P, c, rho, n0);
      var (d, calls1) := Eval(M, lhs, rho, c.calls);
      LeastMeans(M, ty, d, Eval(M, rhs, rho, calls1).0);
    case Max(ty, lhs, rhs) =>
      c', n := ExtremeRuns(M, s, if ty == TReal then Fgt else Igt, lhs, rhs, P, c, rho, n0);
      var (d, calls1) := Eval(M, lhs, rho, c.calls);
      LeastMeans(M, ty, d, Eval(M, rhs, rho, calls1).0);
    case SimParam(name) => c', n := CallRuns(M, s, name, P, c, rho, n0);
    case SimParamOr(name, default) => c', n := CallOrRuns(M, s, name, default, P, c, rho, n0);
  }

  lemma BarrierMeans(M: Machine, x: Data)
    ensures Exec1(M, OptBarrier, x) == x
  {
  }
}
