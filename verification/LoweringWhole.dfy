/** Whole functions: an expression, or the initial value of a parameter, lowered into an empty function and run from its entry. */
module LoweringWhole {
  import opened Prelude
  import opened Mir
  import opened MirBuilder
  import opened Lowering
  import opened LoweringCorrect
  import opened LoweringGraph
  import opened ParamBounds
  import opened ParamInit
  import opened ParamGraph
  import opened ParamReports

  /** Values below this one are the constants that every function has, and its arguments. */
  const ARGUMENTS: Value := 64

  /** A function with one empty block. */
  function Empty(): State {
    State([[]],
          map[FALSE := Bool(false), TRUE := Bool(true), F_ZERO := Flo(Fin(0.0)), ZERO := Int(0), INFINITY := Flo(PosInf)],
          map[Bool(false) := FALSE, Bool(true) := TRUE, Flo(Fin(0.0)) := F_ZERO, Int(0) := ZERO, Flo(PosInf) := INFINITY],
          ARGUMENTS, 0)
  }

  /** Before the first instruction, with these arguments. */
  function Entry(args: map<Value, Data>): Config {
    Config(0, 0, 0, args, [])
  }

  lemma EmptyStarts(args: map<Value, Data>)
    ensures Fine(Empty()) && Drafted(Empty()) && At(Entry(args), Empty()) && Empty().next == ARGUMENTS
  {
    assert Preds(Empty().blocks, 0) == {};
  }

  /** The environment of the samples: constants and arguments. */
  function Environment(P: Prog, args: map<Value, Data>): Value -> Data {
    (v: Value) => Read(P, args, v)
  }

  /**
   * Lowered into an empty function and run from its entry, an expression yields its value, with the
   * calls of its evaluation; and the graph is in order.
   */
  lemma ExprFromEntry(M: Machine, e: Expr, args: map<Value, Data>) returns (c': Config, n: nat)
    requires Checked(e, ARGUMENTS)
    ensures Live(Empty())
    ensures var r := Low(Empty(), e); var P := Whole(r.0); var m := Eval(M, e, Environment(P, args), []);
      && Run(M, P, Entry(args), n) == Some(c') && At(c', r.0)
      && Read(P, c'.vals, r.1) == m.0 && c'.calls == m.1 && GraphOk(P.blocks)
  {
    hide Fine, Low, Eval, Preds, GraphOk, Run, Read;
    EmptyStarts(args);
    var r := Low(Empty(), e);
    var P := Whole(r.0);
    ExtSelf(r.0);
    LowKept(Empty(), e);
    assert Agree(Environment(P, args), P, args, ARGUMENTS);
    c', n := LowRuns(M, Empty(), e, P, Entry(args), Environment(P, args), ARGUMENTS);
  }

  /** The operator `~` never yields the bitwise complement `-i - 1` of a 32-bit integer: it is lowered to a negation. */
  lemma ComplementFromEntry(M: Machine, arg: Expr, args: map<Value, Data>, i: int) returns (c': Config, n: nat)
    requires Checked(arg, ARGUMENTS) && MIN32 <= i <= MAX32 && Live(Empty())
    requires var e := UnaryExpr(BitNegate, TInt, arg); Eval(M, arg, Environment(Whole(Low(Empty(), e).0), args), []).0 == Int(i)
    ensures MIN32 <= -i - 1 <= MAX32
    ensures var r := Low(Empty(), UnaryExpr(BitNegate, TInt, arg)); var P := Whole(r.0);
      && Run(M, P, Entry(args), n) == Some(c') && At(c', r.0)
      && Read(P, c'.vals, r.1) == Int(Wrap32(-i)) != Int(-i - 1)
  {
    hide Low, Run, Read, Preds, GraphOk;
    var e := UnaryExpr(BitNegate, TInt, arg);
    assert Checked(e, ARGUMENTS);
    c', n := ExprFromEntry(M, e, args);
    NegationDiffers(M, i);
  }

  /**
   * Lowered into an empty function and run from its entry, the code for a parameter yields the given
   * value or the default, and calls `invalid` once if the bounds reject that value and not at all otherwise.
   */
  lemma ParamFromEntry(M: Machine, given: Value, p: Value, default: Expr, bounds: Bounds, ty: Ty, invalid: Callback, args: map<Value, Data>)
    returns (c': Config, n: nat)
    requires BoundsChecked(bounds, ty, ARGUMENTS) && Checked(default, ARGUMENTS) && p < ARGUMENTS
    requires invalid != SIM_PARAM && invalid != SIM_PARAM_OPT
    ensures Live(Empty()) && ty != TBool && Testable(bounds, OpsOf(ty))
    ensures var r := LowParam(Empty(), given, p, default, bounds, OpsOf(ty), invalid);
      var P := Whole(r.0);
      var rho := Environment(P, args);
      var (d, calls) := if Truth(Read(P, args, given)) then (Read(P, args, p), []) else Eval(M, default, rho, []);
      && Run(M, P, Entry(args), n) == Some(c') && At(c', r.0) && Read(P, c'.vals, r.1) == d
      && Count(c'.calls, invalid) == (if Rejected(M, bounds, ty, d, rho, calls) then 1 else 0) && GraphOk(P.blocks)
  {
    hide Fine, Low, LowParam, Eval, Preds, GraphOk, Run, Read, OpsOf, Testable, BoundsChecked, Report, Rejected, Truth, Count;
    EmptyStarts(args);
    ParamKept(Empty(), given, p, default, bounds, ty, invalid);
    var r := LowParam(Empty(), given, p, default, bounds, OpsOf(ty), invalid);
    var P := Whole(r.0);
    var rho := Environment(P, args);
    ExtSelf(r.0);
    assert Agree(rho, P, args, ARGUMENTS);
    c', n := ParamRuns(M, Empty(), given, p, default, bounds, ty, invalid, P, Entry(args), rho, ARGUMENTS);
    var (d, calls) := if Truth(Read(P, args, given)) then (Read(P, args, p), []) else Eval(M, default, rho, []);
    ReportedOnce(M, bounds, ty, d, invalid, rho, calls);
    EvalCalls(M, default, rho, [], invalid);
    NoCalls(invalid);
  }

  lemma NoCalls(k: Callback)
    ensures Count([], k) == 0
  {
  }
}
