/** Lowering as it works: a builder is changed step by step. */
module LoweringMethods {
  import opened Prelude
  import opened Mir
  import opened MirBuilder
  import opened Lowering

  /** Lower `e` at the current position; the value of the expression is returned. */
  method LowerExpr(func: FunctionBuilder, e: Expr) returns (v: Value)
    requires Live(func.View())
    modifies func
    ensures (func.View(), v) == Low(old(func.View()), e)
    decreases Size(e), 0
  {
    hide LowSelect, LowUnaryOp, LowBinaryOp, LowExtreme, Konst, Op1, Op2, Call1;
    match e {
      case Sample(val, tagged) =>
        v := val;
        if tagged { v := func.UnaryInst(OptBarrier, val); }
      case Literal(d) => v := func.Const(d);
      case Infinite(float) =>
        if float { return INFINITY; }
        v := func.Const(Int(MAX32));
      case Cast(src, dst, arg) =>
        v := LowerExpr(func, arg);
        if !arg.Infinite? { v := func.UnaryInst(CastOp(src, dst), v); }
      case UnaryExpr(op, ty, arg) => v := LowerUnaryOp(func, op, ty, arg);
      case BinaryExpr(op, ty, lhs, rhs) => v := LowerBinOp(func, op, ty, lhs, rhs);
      case Select(cond, a, b) =>
        var c := LowerExpr(func, cond);
        v := LowerSelectWith(func, c, Lower(a), Lower(b));
      case Abs(ty, arg) => v := LowerAbs(func, ty, arg);
      case Min(ty, lhs, rhs) => v := LowerExtreme(func, if ty == TReal then Flt else Ilt, lhs, rhs);
      case Max(ty, lhs, rhs) => v := LowerExtreme(func, if ty == TReal then Fgt else Igt, lhs, rhs);
      case SimParam(name) =>
        var x := LowerExpr(func, name);
        v := func.CallInst(SIM_PARAM, [x]);
      case SimParamOr(name, default) =>
        var x := LowerExpr(func, name);
        var y := LowerExpr(func, default);
        v := func.CallInst(SIM_PARAM_OPT, [x, y]);
    }
  }

  method LowerUnaryOp(func: FunctionBuilder, op: UnaryOp, ty: Ty, arg: Expr) returns (v: Value)
    requires Live(func.View())
    modifies func
    ensures (func.View(), v) == LowUnaryOp(old(func.View()), op, ty, arg)
    decreases Size(arg), 9
  {
    hide Low, Konst, Op1;
    var inf := InfinityOf(arg);
    v := LowerExpr(func, arg);
    match op {
      case Not => v := func.UnaryInst(Bnot, v);
      case Identity =>
      case BitNegate => v := func.UnaryInst(Ineg, v);
      case Apply(fun) => v := func.UnaryInst(Math(fun), v);
      case Neg =>
        if inf.Some? {
          v := func.Const(if inf.value then Flo(NegInf) else Int(MIN32));
        } else {
          v := func.UnaryInst(if ty == TReal then Fneg else Ineg, v);
        }
    }
  }

  method LowerBinOp(func: FunctionBuilder, op: BinaryOp, ty: Ty, lhs: Expr, rhs: Expr) returns (v: Value)
    requires Live(func.View())
    modifies func
    ensures (func.View(), v) == LowBinaryOp(old(func.View()), op, ty, lhs, rhs)
    decreases Size(lhs) + Size(rhs), 9
  {
    hide Low, LowSelect, Op1, Op2, Opcode;
    ghost var s := func.View();
    var x := LowerExpr(func, lhs);
    ghost var s1 := func.View();
    if op == BooleanOr {
      assert LowBinaryOp(s, op, ty, lhs, rhs) == LowSelect(s1, x, Give(TRUE), Lower(rhs));
      v := LowerSelectWith(func, x, Give(TRUE), Lower(rhs));
    } else if op == BooleanAnd {
      assert LowBinaryOp(s, op, ty, lhs, rhs) == LowSelect(s1, x, Lower(rhs), Give(FALSE));
      v := LowerSelectWith(func, x, Lower(rhs), Give(FALSE));
    } else {
      var y := LowerExpr(func, rhs);
      ghost var q := Op2(func.View(), Opcode(op, ty), x, y);
      assert LowBinaryOp(s, op, ty, lhs, rhs) == if op == BitwiseEq then Op1(q.0, Inot, q.1) else q;
      v := func.BinaryInst(Opcode(op, ty), x, y);
      if op == BitwiseEq {
        v := func.UnaryInst(Inot, v);
      }
    }
  }

  method LowerAbs(func: FunctionBuilder, ty: Ty, arg: Expr) returns (v: Value)
    requires Live(func.View())
    modifies func
    ensures (func.View(), v) == Low(old(func.View()), Abs(ty, arg))
    decreases Size(arg), 9
  {
    hide LowSelect, Op2;
    var negate, comparison, zero := Ineg, Ilt, ZERO;
    if ty == TReal { negate, comparison, zero := Fneg, Flt, F_ZERO; }
    var x := LowerExpr(func, arg);
    var c := func.BinaryInst(comparison, x, zero);
    v := LowerSelectWith(func, c, Negate(negate, x), Give(x));
  }

  method LowerExtreme(func: FunctionBuilder, comparison: Opcode2, lhs: Expr, rhs: Expr) returns (v: Value)
    requires Live(func.View())
    modifies func
    ensures (func.View(), v) == LowExtreme(old(func.View()), comparison, lhs, rhs)
    decreases Size(lhs) + Size(rhs), 9
  {
    hide Low, LowSelect, Op2;
    var x := LowerExpr(func, lhs);
    var y := LowerExpr(func, rhs);
    var c := func.BinaryInst(comparison, x, y);
    v := LowerSelectWith(func, c, Give(x), Give(y));
  }

  /** Run what stands for the closure of a branch. */
  method LowerBranch(func: FunctionBuilder, body: Body) returns (v: Value)
    requires Live(func.View())
    modifies func
    ensures (func.View(), v) == LowBody(old(func.View()), body)
    decreases BodySize(body), 1
  {
    hide Low, Op1, Op2;
    match body {
      case Lower(e) => v := LowerExpr(func, e);
      case Give(x) => v := x;
      case Negate(op, x) => v := func.UnaryInst(op, x);
      case Compare(op, x, y) => v := func.BinaryInst(op, x, y);
    }
  }

  /** Two branches, each with its tail block and value; building goes on where they meet. */
  method MakeCond(func: FunctionBuilder, cond: Value, thenBody: Body, elseBody: Body)
    returns (thenSrc: (Block, Value), elseSrc: (Block, Value))
    requires Live(func.View())
    modifies func
    ensures (func.View(), thenSrc, elseSrc) == LowCond(old(func.View()), cond, thenBody, elseBody)
    decreases BodySize(thenBody) + BodySize(elseBody), 2
  {
    hide LowBody;
    var thenDst := func.CreateBlock();
    var elseDst := func.CreateBlock();
    var nextBb := func.CreateBlock();
    func.Append(Br(cond, thenDst, elseDst));

    func.SwitchToBlock(thenDst);
    var thenVal := LowerBranch(func, thenBody);
    func.Append(Jump(nextBb));
    var thenTail := func.position;

    func.SwitchToBlock(elseDst);
    var elseVal := LowerBranch(func, elseBody);
    func.Append(Jump(nextBb));
    var elseTail := func.position;

    func.SwitchToBlock(nextBb);
    return (thenTail, thenVal), (elseTail, elseVal);
  }

  method LowerSelectWith(func: FunctionBuilder, cond: Value, thenBody: Body, elseBody: Body) returns (v: Value)
    requires Live(func.View())
    modifies func
    ensures (func.View(), v) == LowSelect(old(func.View()), cond, thenBody, elseBody)
    decreases BodySize(thenBody) + BodySize(elseBody), 3
  {
    hide LowCond;
    var thenSrc, elseSrc := MakeCond(func, cond, thenBody, elseBody);
    v := func.PhiInst([thenSrc, elseSrc]);
  }
}
