/** All checks of a parameter, and its initial value. */
module ParamChecks {
  import opened Prelude
  import opened Mir
  import opened MirBuilder
  import opened Lowering
  import opened LoweringRuns
  import opened LoweringCorrect
  import opened ParamBounds
  import opened ParamBoundsRuns

  lemma PutBuilt(s: State, i: Inst)
    requires Fine(s)
    ensures Fine(Put(s, i)) && Grows(s, Put(s, i))
  {
    PutGrows(s, i, 0);
  }

  lemma ReportBuilt(s: State, invalid: Callback, exit: Block)
    requires Fine(s)
    ensures Live(s)
    ensures var s' := LowReport(s, invalid, exit);
      && Fine(s') && Grows(s, s') && s'.next == s.next && s'.cur == s.cur
      && Ext(Put(s, Call(None, invalid, [])), Whole(s'))
  {
    hide Fine;
    Predefs(s);
    var s1 := Put(s, Call(None, invalid, []));
    PutBuilt(s, Call(None, invalid, []));
    PutBuilt(s1, Jump(exit));
    GrowsTwice(s, s1, Put(s1, Jump(exit)));
  }

  /** Building goes on in a block that is newer than `s`. */
  lemma SwitchBuilt(s: State, s1: State, b: Block)
    requires Fine(s1) && Grows(s, s1) && |s.blocks| <= b < |s1.blocks|
    ensures Fine(Switch(s1, b)) && Grows(s, Switch(s1, b)) && Ext(s1, Whole(Switch(s1, b)))
  {
    ExtSelf(s1);
  }

  lemma SwitchExt(s: State, b: Block, P: Prog)
    requires Ext(Switch(s, b), P)
    ensures Ext(s, P)
  {
  }

  lemma ReportRuns(M: Machine, P: Prog, c: Config, s: State, invalid: Callback, exit: Block, bound: Value) returns (c': Config)
    requires Fine(s) && At(c, s) && Ext(LowReport(s, invalid, exit), P)
    ensures Moved(M, P, c, 2, c', bound, c.calls + [(invalid, [])]) && InFront(c', exit)
  {
    hide Fine;
    Predefs(s);
    var call := Call(None, invalid, []);
    var s1 := Put(s, call);
    PutBuilt(s, call);
    PutExt(s1, Jump(exit), P);
    NextInst(s, s1, call, P, c);
    var c1 := c.(pc := c.pc + 1, calls := c.calls + [(invalid, [])]);
    assert ReadAll(P, c.vals, []) == [];
    RunOne(M, P, c);
    c' := RanJump(M, P, c1, s1, exit);
    RunOn(M, P, c, 1, 1);
  }

  lemma HasKindScan(M: Machine, bounds: Bounds, kind: ConstraintKind, ty: Ty, p: Data, rho: Value -> Data, calls: Calls)
    requires !HasKind(bounds, kind)
    ensures Scan(M, bounds, kind, ty, p, rho, calls) == (false, calls)
  {
    if bounds != [] {
      HasKindStep(bounds, kind);
      HasKindScan(M, bounds[1..], kind, ty, p, rho, calls);
    }
  }

  // ---------------------------------------------------------------- bounds that the parameter must be in

  /** What remains to be said about a check: the graph has grown, and the shared exit waits. */
  ghost predicate CheckLeft(s: State, s': State, exit: Block) {
    Fine(s') && Grows(s, s') && s.next <= s'.next && Waiting(s', exit)
  }

  lemma {:induction false} FromBuilt(s: State, p: Value, bounds: Bounds, ty: Ty, invalid: Callback, exit: Block)
    requires Fine(s) && BoundsChecked(bounds, ty, s.next) && p < s.next && Waiting(s, exit)
    ensures Testable(bounds, OpsOf(ty)) && Live(s)
    ensures CheckLeft(s, LowCheck(s, p, bounds, From, OpsOf(ty), invalid, exit), exit)
    ensures var (s1, e) := LowBounds(s, None, bounds, From, OpsOf(ty), p);
      e.Some? ==> var s' := LowCheck(s, p, bounds, From, OpsOf(ty), invalid, exit);
        Ext(LowReport(s1, invalid, exit), Whole(s')) && LowReport(s1, invalid, exit).next == s'.next && s'.blocks[s'.cur] == [] && s'.cur == e.value
  {
    hide Fine, Ext, LowBounds, LowReport, BoundsChecked;
    BoundsBuilt(s, None, bounds, From, ty, p);
    var (s1, e) := LowBounds(s, None, bounds, From, OpsOf(ty), p);
    StillWaiting(s, s1, exit);
    if e.Some? {
      ReportBuilt(s1, invalid, exit);
      var s2 := LowReport(s1, invalid, exit);
      GrowsTwice(s, s1, s2);
      StillWaiting(s1, s2, exit);
      StillWaiting(s1, s2, e.value);
      SwitchBuilt(s, s2, e.value);
    }
  }

  /** Either the parameter is reported, or building and running go on together. */
  lemma {:induction false} FromRuns(M: Machine, s: State, p: Value, bounds: Bounds, ty: Ty, invalid: Callback,
                                    exit: Block, P: Prog, c: Config,
                                    rho: Value -> Data, n0: Value) returns (c': Config, n: nat)
    requires Fine(s) && At(c, s) && BoundsChecked(bounds, ty, n0) && BoundsChecked(bounds, ty, s.next) && Testable(bounds, OpsOf(ty))
    requires n0 <= s.next && p < s.next && Agree(rho, P, c.vals, n0) && Waiting(s, exit)
    requires Ext(LowCheck(s, p, bounds, From, OpsOf(ty), invalid, exit), P)
    ensures var m := Scan(M, bounds, From, ty, Read(P, c.vals, p), rho, c.calls);
      if HasKind(bounds, From) && !m.0 then Moved(M, P, c, n, c', s.next, m.1 + [(invalid, [])]) && InFront(c', exit)
      else Moved(M, P, c, n, c', s.next, m.1) && At(c', LowCheck(s, p, bounds, From, OpsOf(ty), invalid, exit))
  {
    hide Fine, Ext, Grows, LowBounds, LowReport, BoundsChecked, Moved, Read, Scan, Agree, HasKind, OpsOf, Testable, Waiting;
    BoundsBuilt(s, None, bounds, From, ty, p);
    FromBuilt(s, p, bounds, ty, invalid, exit);
    var (s1, e) := LowBounds(s, None, bounds, From, OpsOf(ty), p);
    var s' := LowCheck(s, p, bounds, From, OpsOf(ty), invalid, exit);
    var m := Scan(M, bounds, From, ty, Read(P, c.vals, p), rho, c.calls);
    if e.Some? {
      ReportBuilt(s1, invalid, exit);
      ExtBack(LowReport(s1, invalid, exit), s', P);
      GrowsExt(s1, LowReport(s1, invalid, exit), P);
    }
    c', n := BoundsRun(M, s, None, bounds, From, ty, p, P, c, rho, n0);
    if !HasKind(bounds, From) {
      HasKindScan(M, bounds, From, ty, Read(P, c.vals, p), rho, c.calls);
    } else if !m.0 {
      var c1 := c';
      c' := ReportRuns(M, P, c1, s1, invalid, exit, s.next);
      MovedCalls(M, P, c, n, c1, s.next, m.1);
      MovedTwice(M, P, c, n, c1, s.next, m.1, 2, c', s.next, m.1 + [(invalid, [])]);
      n := n + 2;
    }
  }

  lemma MovedCalls(M: Machine, P: Prog, c: Config, n: nat, c': Config, bound: Value, calls: Calls)
    requires Moved(M, P, c, n, c', bound, calls)
    ensures c'.calls == calls
  {
  }

  // ---------------------------------------------------------------- bounds that the parameter must not be in

  lemma {:induction false} ExcludeBuilt(s: State, p: Value, bounds: Bounds, ty: Ty, invalid: Callback, exit: Block)
    requires Fine(s) && BoundsChecked(bounds, ty, s.next) && p < s.next && Waiting(s, exit)
    ensures Testable(bounds, OpsOf(ty)) && Live(s)
    ensures CheckLeft(s, LowCheck(s, p, bounds, Exclude, OpsOf(ty), invalid, exit), exit)
    ensures var (s1, e) := LowBounds(s, None, bounds, Exclude, OpsOf(ty), p);
      var s' := LowCheck(s, p, bounds, Exclude, OpsOf(ty), invalid, exit);
      && Fine(s1) && s1.next == s'.next && Ext(Put(s1, Jump(exit)), Whole(s'))
      && (e.Some? ==> var s2 := Switch(Put(s1, Jump(exit)), e.value);
          Fine(s2) && s2.blocks[s2.cur] == [] && s' == LowReport(s2, invalid, exit) && Grows(s2, s'))
  {
    hide Fine, LowBounds, LowReport, BoundsChecked;
    BoundsBuilt(s, None, bounds, Exclude, ty, p);
    var (s1, e) := LowBounds(s, None, bounds, Exclude, OpsOf(ty), p);
    var s2 := Put(s1, Jump(exit));
    PutBuilt(s1, Jump(exit));
    GrowsTwice(s, s1, s2);
    StillWaiting(s, s1, exit);
    StillWaiting(s1, s2, exit);
    ExtSelf(s2);
    if e.Some? {
      StillWaiting(s1, s2, e.value);
      SwitchBuilt(s, s2, e.value);
      var s3 := Switch(s2, e.value);
      ReportBuilt(s3, invalid, exit);
      GrowsTwice(s, s3, LowReport(s3, invalid, exit));
      assert Waiting(s3, exit);
      StillWaiting(s3, LowReport(s3, invalid, exit), exit);
      ExtBack(s2, s3, Whole(LowReport(s3, invalid, exit)));
    }
  }

  /** The run ends before the shared exit; the parameter is reported if a bound contains it. */
  lemma {:induction false} ExcludeRuns(M: Machine, s: State, p: Value, bounds: Bounds, ty: Ty, invalid: Callback,
                                       exit: Block, P: Prog, c: Config,
                                       rho: Value -> Data, n0: Value) returns (c': Config, n: nat)
    requires Fine(s) && At(c, s) && BoundsChecked(bounds, ty, n0) && BoundsChecked(bounds, ty, s.next) && Testable(bounds, OpsOf(ty))
    requires n0 <= s.next && p < s.next && Agree(rho, P, c.vals, n0) && Waiting(s, exit)
    requires Ext(LowCheck(s, p, bounds, Exclude, OpsOf(ty), invalid, exit), P)
    ensures var m := Scan(M, bounds, Exclude, ty, Read(P, c.vals, p), rho, c.calls);
      Moved(M, P, c, n, c', s.next, if m.0 then m.1 + [(invalid, [])] else m.1) && InFront(c', exit)
  {
    hide Fine, Ext, Grows, LowBounds, LowReport, BoundsChecked, Read, Scan, Agree, HasKind, OpsOf, Testable, Waiting, Kept;
    BoundsBuilt(s, None, bounds, Exclude, ty, p);
    ExcludeBuilt(s, p, bounds, ty, invalid, exit);
    var (s1, e) := LowBounds(s, None, bounds, Exclude, OpsOf(ty), p);
    var s' := LowCheck(s, p, bounds, Exclude, OpsOf(ty), invalid, exit);
    var m := Scan(M, bounds, Exclude, ty, Read(P, c.vals, p), rho, c.calls);
    ExtBack(Put(s1, Jump(exit)), s', P);
    PutExt(s1, Jump(exit), P);
    var c1, n1 := BoundsRun(M, s, None, bounds, Exclude, ty, p, P, c, rho, n0);
    if m.0 {
      var s2 := Switch(Put(s1, Jump(exit)), e.value);
      c' := ReportRuns(M, P, c1, s2, invalid, exit, s.next);
      MovedTwice(M, P, c, n1, c1, s.next, m.1, 2, c', s.next, m.1 + [(invalid, [])]);
      n := n1 + 2;
    } else {
      c' := RanJump(M, P, c1, s1, exit);
      n := n1 + 1;
      SameVals(P, c1.vals, s.next);
      MovedTwice(M, P, c, n1, c1, s.next, m.1, 1, c', s.next, m.1);
    }
  }

  lemma SameVals(P: Prog, vals: map<Value, Data>, n: Value)
    ensures Kept(P, vals, vals, n)
  {
  }

  // ---------------------------------------------------------------- both

  lemma {:induction false} ChecksBuilt(s: State, p: Value, bounds: Bounds, ty: Ty, invalid: Callback)
    requires Fine(s) && BoundsChecked(bounds, ty, s.next) && p < s.next
    ensures ty != TBool && Testable(bounds, OpsOf(ty)) && Live(s)
    ensures var s' := LowChecks(s, p, bounds, OpsOf(ty), invalid);
      && Fine(s') && Grows(s, s') && s.next <= s'.next && s'.cur == |s.blocks| && s'.blocks[s'.cur] == []
    ensures var (s0, exit) := Create(s);
      var s1 := LowCheck(s0, p, bounds, From, OpsOf(ty), invalid, exit);
      var s2 := LowCheck(s1, p, bounds, Exclude, OpsOf(ty), invalid, exit);
      && CheckLeft(s0, s1, exit) && CheckLeft(s1, s2, exit) && LowChecks(s, p, bounds, OpsOf(ty), invalid) == Switch(s2, exit)
      && Fine(s0) && Grows(s, s0) && Waiting(s0, exit) && s0.next == s.next && s0.cur == s.cur
  {
    hide Fine, Ext, LowCheck, BoundsChecked, OpsOf, Testable;
    CreateBuilt(s);
    var (s0, exit) := Create(s);
    FromBuilt(s0, p, bounds, ty, invalid, exit);
    BoundsBuilt(s, None, bounds, From, ty, p);
    var s1 := LowCheck(s0, p, bounds, From, OpsOf(ty), invalid, exit);
    BoundCheckedMono(bounds, ty, s.next, s1.next);
    ExcludeBuilt(s1, p, bounds, ty, invalid, exit);
    var s2 := LowCheck(s1, p, bounds, Exclude, OpsOf(ty), invalid, exit);
    GrowsTwice(s, s0, s1);
    GrowsTwice(s, s1, s2);
    SwitchBuilt(s, s2, exit);
  }

  /**
   * However the function is completed later, the code of the checks runs from the old end of the
   * current block to the new, still empty, current block; it makes the calls of `Report` and no others.
   */
  lemma {:induction false} ChecksRun(M: Machine, s: State, p: Value, bounds: Bounds, ty: Ty, invalid: Callback, P: Prog, c: Config,
                                     rho: Value -> Data, n0: Value) returns (c': Config, n: nat)
    requires Fine(s) && At(c, s) && BoundsChecked(bounds, ty, n0) && n0 <= s.next && p < s.next && Agree(rho, P, c.vals, n0)
    requires ty != TBool && Testable(bounds, OpsOf(ty)) && Ext(LowChecks(s, p, bounds, OpsOf(ty), invalid), P)
    ensures Moved(M, P, c, n, c', s.next, Report(M, bounds, ty, Read(P, c.vals, p), invalid, rho, c.calls))
    ensures At(c', LowChecks(s, p, bounds, OpsOf(ty), invalid))
  {
    hide Fine, Ext, Grows, LowCheck, BoundsChecked, OpsOf, Testable, Read, Kept, Agree, Scan, HasKind;
    BoundCheckedMono(bounds, ty, n0, s.next);
    ChecksBuilt(s, p, bounds, ty, invalid);
    var (s0, exit) := Create(s);
    var s1 := LowCheck(s0, p, bounds, From, OpsOf(ty), invalid, exit);
    var s2 := LowCheck(s1, p, bounds, Exclude, OpsOf(ty), invalid, exit);
    BoundCheckedMono(bounds, ty, n0, s1.next);
    SwitchExt(s2, exit, P);
    GrowsExt(s1, s2, P);
    var pd := Read(P, c.vals, p);
    var m := Scan(M, bounds, From, ty, pd, rho, c.calls);
    c', n := FromRuns(M, s0, p, bounds, ty, invalid, exit, P, c, rho, n0);
    if !(HasKind(bounds, From) && !m.0) {
      var c1 := c';
      MovedKept(M, P, c, n, c1, s.next, m.1, p, rho, n0);
      var n2;
      c', n2 := ExcludeRuns(M, s1, p, bounds, ty, invalid, exit, P, c1, rho, n0);
      var m2 := Scan(M, bounds, Exclude, ty, pd, rho, m.1);
      MovedTwice(M, P, c, n, c1, s.next, m.1, n2, c', s1.next, if m2.0 then m2.1 + [(invalid, [])] else m2.1);
      n := n + n2;
    }
  }
}
