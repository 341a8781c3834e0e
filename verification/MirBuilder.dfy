/** Building a function: appending instructions to the current block, creating blocks and switching between them. */
module MirBuilder {
  import opened Prelude
  import opened Mir

  /** A function under construction: constants are interned, `next` is the next value number. */
  datatype State = State(blocks: Code, consts: map<Value, Data>, interned: map<Data, Value>, next: Value, cur: Block)

  const FALSE: Value := 1
  const TRUE: Value := 2
  const F_ZERO: Value := 3
  const ZERO: Value := 4
  const INFINITY: Value := 15

  /** The constants that every function starts with. */
  ghost predicate Predefined(consts: map<Value, Data>) {
    && FALSE in consts && consts[FALSE] == Bool(false)
    && TRUE in consts && consts[TRUE] == Bool(true)
    && F_ZERO in consts && consts[F_ZERO] == Flo(Fin(0.0))
    && ZERO in consts && consts[ZERO] == Int(0)
    && INFINITY in consts && consts[INFINITY] == Flo(PosInf)
  }

  ghost predicate Fine(s: State) {
    && s.cur < |s.blocks| && Predefined(s.consts)
    && (forall v :: v in s.consts ==> v < s.next)
    && (forall d :: d in s.interned ==> s.interned[d] in s.consts && s.consts[s.interned[d]] == d)
  }

  function Create(s: State): (State, Block) {
    (s.(blocks := s.blocks + [[]]), |s.blocks|)
  }

  function Switch(s: State, b: Block): State {
    s.(cur := b)
  }

  function Put(s: State, i: Inst): State
    requires s.cur < |s.blocks|
  {
    s.(blocks := s.blocks[s.cur := s.blocks[s.cur] + [i]])
  }

  function Konst(s: State, d: Data): (State, Value) {
    if d in s.interned then (s, s.interned[d])
    else (s.(consts := s.consts[s.next := d], interned := s.interned[d := s.next], next := s.next + 1), s.next)
  }

  function Op1(s: State, op: Opcode1, x: Value): (r: (State, Value))
    requires s.cur < |s.blocks|
    ensures r.0.cur == s.cur && |r.0.blocks| == |s.blocks|
  {
    (Put(s.(next := s.next + 1), Unary(s.next, op, x)), s.next)
  }

  function Op2(s: State, op: Opcode2, x: Value, y: Value): (r: (State, Value))
    requires s.cur < |s.blocks|
    ensures r.0.cur == s.cur && |r.0.blocks| == |s.blocks|
  {
    (Put(s.(next := s.next + 1), Binary(s.next, op, x, y)), s.next)
  }

  function PhiOf(s: State, edges: seq<(Block, Value)>): (r: (State, Value))
    requires s.cur < |s.blocks|
    ensures r.0.cur == s.cur && |r.0.blocks| == |s.blocks|
  {
    (Put(s.(next := s.next + 1), Phi(s.next, edges)), s.next)
  }

  function Call1(s: State, callee: Callback, args: seq<Value>): (r: (State, Value))
    requires s.cur < |s.blocks|
    ensures r.0.cur == s.cur && |r.0.blocks| == |s.blocks|
  {
    (Put(s.(next := s.next + 1), Call(Some(s.next), callee, args)), s.next)
  }

  /** The same as an object that is changed step by step. */
  class FunctionBuilder {
    var blocks: Code
    var consts: map<Value, Data>
    var interned: map<Data, Value>
    var next: Value
    var position: Block

    function View(): State
      reads this
    {
      State(blocks, consts, interned, next, position)
    }

    method CreateBlock() returns (b: Block)
      modifies this
      ensures (View(), b) == Create(old(View()))
    {
      b := |blocks|;
      blocks := blocks + [[]];
    }

    method SwitchToBlock(b: Block)
      modifies this
      ensures View() == Switch(old(View()), b)
    {
      position := b;
    }

    method Append(i: Inst)
      requires position < |blocks|
      modifies this
      ensures View() == Put(old(View()), i)
    {
      blocks := blocks[position := blocks[position] + [i]];
    }

    method Const(d: Data) returns (v: Value)
      modifies this
      ensures (View(), v) == Konst(old(View()), d)
      ensures position == old(position) && blocks == old(blocks)
    {
      if d in interned {
        return interned[d];
      }
      v := next;
      consts, interned, next := consts[next := d], interned[d := next], next + 1;
    }

    method UnaryInst(op: Opcode1, x: Value) returns (v: Value)
      requires position < |blocks|
      modifies this
      ensures (View(), v) == Op1(old(View()), op, x)
      ensures position == old(position) && |blocks| == |old(blocks)|
    {
      v := next;
      next := next + 1;
      Append(Unary(v, op, x));
    }

    method BinaryInst(op: Opcode2, x: Value, y: Value) returns (v: Value)
      requires position < |blocks|
      modifies this
      ensures (View(), v) == Op2(old(View()), op, x, y)
      ensures position == old(position) && |blocks| == |old(blocks)|
    {
      v := next;
      next := next + 1;
      Append(Binary(v, op, x, y));
    }

    method PhiInst(edges: seq<(Block, Value)>) returns (v: Value)
      requires position < |blocks|
      modifies this
      ensures (View(), v) == PhiOf(old(View()), edges)
      ensures position == old(position) && |blocks| == |old(blocks)|
    {
      v := next;
      next := next + 1;
      Append(Phi(v, edges));
    }

    method CallInst(callee: Callback, args: seq<Value>) returns (v: Value)
      requires position < |blocks|
      modifies this
      ensures (View(), v) == Call1(old(View()), callee, args)
      ensures position == old(position) && |blocks| == |old(blocks)|
    {
      v := next;
      next := next + 1;
      Append(Call(Some(v), callee, args));
    }
  }

  // ---------------------------------------------------------------- later states, and finished programs

  ghost predicate SameConsts(a: map<Value, Data>, b: map<Value, Data>, next: Value) {
    forall v: Value :: v < next ==> (v in a <==> v in b) && (v in a ==> b[v] == a[v])
  }

  ghost predicate Longer(a: Code, b: Code) {
    |a| <= |b| && forall k :: 0 <= k < |a| ==> a[k] <= b[k]
  }

  /** `P` is `s` with more instructions at the ends of its blocks. */
  ghost predicate Ext(s: State, P: Prog) {
    Longer(s.blocks, P.blocks) && SameConsts(s.consts, P.consts, s.next)
  }

  ghost function Whole(s: State): Prog {
    Prog(s.blocks, s.consts)
  }

  /** `s'` was built on from `s`, in the current block and in new ones. */
  ghost predicate Grows(s: State, s': State) {
    && Ext(s, Whole(s')) && s.next <= s'.next
    && (forall k :: 0 <= k < |s.blocks| && k != s.cur ==> s'.blocks[k] == s.blocks[k])
    && (s'.cur == s.cur || s'.cur >= |s.blocks|)
  }

  lemma ExtBack(s: State, s': State, P: Prog)
    requires Ext(s, Whole(s')) && s.next <= s'.next && Ext(s', P)
    ensures Ext(s, P)
  {
    forall k | 0 <= k < |s.blocks| ensures s.blocks[k] <= P.blocks[k] {
      assert s.blocks[k] <= s'.blocks[k] <= P.blocks[k];
    }
    forall v: Value | v < s.next ensures (v in s.consts <==> v in P.consts) && (v in s.consts ==> P.consts[v] == s.consts[v]) {
      assert (v in s.consts <==> v in s'.consts) && (v in s'.consts <==> v in P.consts);
    }
  }

  lemma ExtSelf(s: State)
    ensures Ext(s, Whole(s))
  {
  }

  lemma GrowsTwice(s: State, s1: State, s2: State)
    requires Grows(s, s1) && Grows(s1, s2)
    ensures Grows(s, s2)
  {
    ExtBack(s, s1, Whole(s2));
  }

  lemma PutGrows(s: State, i: Inst, n: nat)
    requires Fine(s)
    ensures Fine(Put(s.(next := s.next + n), i)) && Grows(s, Put(s.(next := s.next + n), i))
  {
  }

  lemma KonstGrows(s: State, d: Data)
    requires Fine(s)
    ensures Fine(Konst(s, d).0) && Grows(s, Konst(s, d).0) && Konst(s, d).0.cur == s.cur && Konst(s, d).0.blocks == s.blocks
    ensures Konst(s, d).1 in Konst(s, d).0.consts && Konst(s, d).0.consts[Konst(s, d).1] == d && Konst(s, d).1 < Konst(s, d).0.next
  {
  }

  /** Before the next instruction of the current block. */
  ghost predicate At(c: Config, s: State) {
    s.cur < |s.blocks| && c.block == s.cur && c.pc == |s.blocks[s.cur]|
  }

  /** The instruction just put is the next one to run. */
  lemma NextInst(s: State, s': State, i: Inst, P: Prog, c: Config)
    requires At(c, s) && s'.blocks == s.blocks[s.cur := s.blocks[s.cur] + [i]] && s'.cur == s.cur && Ext(s', P)
    ensures c.block < |P.blocks| && c.pc < |P.blocks[c.block]| && P.blocks[c.block][c.pc] == i
    ensures At(c.(pc := c.pc + 1), s')
  {
    var b := s'.blocks[s.cur];
    assert b <= P.blocks[s.cur] && b[c.pc] == i;
  }

  /** Values below `n` read the same. */
  ghost predicate Kept(P: Prog, vals: map<Value, Data>, vals': map<Value, Data>, n: Value) {
    forall v: Value :: v < n ==> Read(P, vals', v) == Read(P, vals, v)
  }

  /** A fresh value number is not that of a constant. */
  lemma FreshRead(s: State, s': State, P: Prog, vals: map<Value, Data>, d: Data)
    requires Fine(s) && s'.next > s.next && s'.consts == s.consts && Ext(s', P)
    ensures Read(P, vals[s.next := d], s.next) == d && Kept(P, vals, vals[s.next := d], s.next)
  {
    assert s.next !in s'.consts;
  }
}
