/** What is needed in a function, told from its instructions. */
module NeededCode {
  import opened Arithmetic
  import opened Cfg
  import opened ArrayIr
  import opened DeadCode

  /** Result r is an operand of the instruction. */
  ghost predicate Reads(i: Instr, r: Reg) {
    match i
    case Alloca(_) => false
    case Gep(_, v, w) => v == Res(r) || w == Res(r)
    case Load(_, p) => p == Res(r)
    case Store(v, p) => v == Res(r) || p == Res(r)
    case Binary(_, _, v, w) => v == Res(r) || w == Res(r)
    case Compare(_, _, v, w) => v == Res(r) || w == Res(r)
    case Zext(_, v) => v == Res(r)
    case Call(_, _, args) => Res(r) in args
  }

  ghost predicate PhiReads(phi: Phi, r: Reg) { exists k :: 0 <= k < |phi.pairs| && phi.pairs[k].0 == Res(r) }

  ghost predicate InstrNeeds(impure: set<nat>, s: set<Reg>, i: Instr) {
    && (i.Call? && i.callee in impure ==> i.d in s)
    && (i.Store? || i.d in s ==> forall r :: Reads(i, r) ==> r in s)
  }

  /** The set holds what stores, terminators and calls of functions of the set use, the
      results of those calls, and with each result the operands of what makes it. */
  ghost predicate Needs(f: Func, impure: set<nat>, s: set<Reg>) {
    && (forall b, i {:trigger f[b].body[i]} :: 0 <= b < |f| && 0 <= i < |f[b].body| ==> InstrNeeds(impure, s, f[b].body[i]))
    && (forall b, k {:trigger f[b].phis[k]} :: 0 <= b < |f| && 0 <= k < |f[b].phis| && f[b].phis[k].dest in s ==>
          forall r :: PhiReads(f[b].phis[k], r) ==> r in s)
    && (forall b {:trigger f[b].term} :: 0 <= b < |f| ==>
          && (f[b].term.CondBr? && f[b].term.cond.Res? ==> f[b].term.cond.r in s)
          && (f[b].term.Ret? && f[b].term.val.Res? ==> f[b].term.val.r in s))
  }

  ghost predicate LeastNeeds(f: Func, impure: set<nat>, s: set<Reg>) {
    Needs(f, impure, s) && forall t {:trigger Needs(f, impure, t)} :: Needs(f, impure, t) ==> s <= t
  }

  /** at lists, in order, the positions that are left. */
  ghost predicate Left<T>(was: seq<T>, now: seq<T>, at: seq<nat>) {
    && |at| == |now|
    && (forall k {:trigger at[k]} :: 0 <= k < |at| ==> at[k] < |was| && now[k] == was[at[k]])
    && (forall j, k {:trigger at[j], at[k]} :: 0 <= j < k < |at| ==> at[j] < at[k])
  }

  /** What is left of a body: the stores, and what makes a result of the set. */
  ghost predicate BodyLeft(s: set<Reg>, was: seq<Instr>, now: seq<Instr>) {
    exists at: seq<nat> {:trigger Left(was, now, at)} :: Left(was, now, at) && forall i {:trigger was[i]} :: 0 <= i < |was| ==>
      (i in at <==> was[i].Store? || was[i].d in s)
  }

  ghost predicate PhisLeft(s: set<Reg>, was: seq<Phi>, now: seq<Phi>) {
    exists at: seq<nat> {:trigger Left(was, now, at)} :: Left(was, now, at) && forall i {:trigger was[i]} :: 0 <= i < |was| ==> (i in at <==> was[i].dest in s)
  }

  /** Stores, what makes a result of the set, and the terminators are left, in their
      order, and nothing else. */
  ghost predicate OnlyLeft(f: Func, s: set<Reg>, f': Func) {
    |f'| == |f| && forall b {:trigger f'[b]} {:trigger f[b]} :: 0 <= b < |f| ==>
      f'[b].term == f[b].term && BodyLeft(s, f[b].body, f'[b].body) && PhisLeft(s, f[b].phis, f'[b].phis)
  }

  /** f' is f with what is needed. */
  ghost predicate LeastLeft(f: Func, impure: set<nat>, f': Func) {
    exists s {:trigger LeastNeeds(f, impure, s)} :: LeastNeeds(f, impure, s) && OnlyLeft(f, s, f')
  }

  // ---------------------------------------------------------------- marks

  lemma OperandsAre(i: Instr, r: Reg)
    ensures r in Operands(i) <==> Reads(i, r)
  {
    if i.Call? && r in ListRegs(i.args) {
      var v :| v in i.args && v.Res? && v.r == r;
      assert v == Res(r);
    }
  }

  lemma PhiOperandsAre(phi: Phi, r: Reg)
    ensures r in PhiOperands(phi) <==> PhiReads(phi, r)
  {
    if r in PhiOperands(phi) {
      var p :| p in phi.pairs && p.0.Res? && p.0.r == r;
      var k :| 0 <= k < |phi.pairs| && phi.pairs[k] == p;
      assert phi.pairs[k].0 == Res(r);
    }
    if PhiReads(phi, r) {
      var k :| 0 <= k < |phi.pairs| && phi.pairs[k].0 == Res(r);
      assert phi.pairs[k] in phi.pairs;
    }
  }

  lemma TermOperandsAre(t: Term, r: Reg)
    ensures r in ListRegs(TermUses(t)) <==> (t.CondBr? && t.cond == Res(r)) || (t.Ret? && t.val == Res(r))
  {
    match t
    case Br(_) =>
    case CondBr(v, _, _) => assert v in TermUses(t);
    case Ret(v) => assert v in TermUses(t);
    case RetVoid =>
  }

  /** Closed marks hold what is needed. */
  lemma ClosedNeeds(f: Func, impure: set<nat>, marked: set<Reg>)
    requires MarksClosed(f, impure, marked)
    ensures Needs(f, impure, marked)
  {
    hide Operands, PhiOperands, Reads, PhiReads, ListRegs, TermUses;
    forall b, i | 0 <= b < |f| && 0 <= i < |f[b].body|
      ensures InstrNeeds(impure, marked, f[b].body[i])
    {
      var w := f[b].body[i];
      assert InstrClosed(impure, marked, f[b].body[i]);
      forall r
        ensures Reads(w, r) ==> r in Operands(w)
      {
        OperandsAre(w, r);
      }
      if w.Call? && w.callee in impure {
        assert w.d in Made(w);
      }
      if !w.Store? && w.d in marked {
        assert w.d in Made(w);
      }
    }
    forall b, k | 0 <= b < |f| && 0 <= k < |f[b].phis| && f[b].phis[k].dest in marked
      ensures forall r :: PhiReads(f[b].phis[k], r) ==> r in marked
    {
      assert PhiClosed(marked, f[b].phis[k]);
      forall r
        ensures PhiReads(f[b].phis[k], r) ==> r in PhiOperands(f[b].phis[k])
      {
        PhiOperandsAre(f[b].phis[k], r);
      }
    }
    forall b | 0 <= b < |f|
      ensures f[b].term.CondBr? && f[b].term.cond.Res? ==> f[b].term.cond.r in marked
      ensures f[b].term.Ret? && f[b].term.val.Res? ==> f[b].term.val.r in marked
    {
      var t := f[b].term;
      if t.CondBr? && t.cond.Res? {
        TermOperandsAre(t, t.cond.r);
      }
      if t.Ret? && t.val.Res? {
        TermOperandsAre(t, t.val.r);
      }
    }
  }

  // ---------------------------------------------------------------- what the sweep leaves

  function Shifted(at: seq<nat>, from: nat): seq<nat> { seq(|at|, k requires 0 <= k < |at| => at[k] + from) }

  lemma ShiftedIn(at: seq<nat>, i: nat)
    ensures i in Shifted(at, 1) <==> i > 0 && i - 1 in at
  {
    if i in Shifted(at, 1) {
      var k :| 0 <= k < |at| && Shifted(at, 1)[k] == i;
      assert at[k] == i - 1;
    }
    if i > 0 && i - 1 in at {
      var k :| 0 <= k < |at| && at[k] == i - 1;
      assert Shifted(at, 1)[k] == i;
    }
  }

  /** One more element in front, left or not. */
  lemma LeftOn<T>(was: seq<T>, now: seq<T>, at: seq<nat>, x: T)
    requires Left(was, now, at)
    ensures Left([x] + was, now, Shifted(at, 1)) && Left([x] + was, [x] + now, [0] + Shifted(at, 1))
  {
    var all, more := [x] + was, [0] + Shifted(at, 1);
    forall k | 0 <= k < |more|
      ensures more[k] < |all| && ([x] + now)[k] == all[more[k]]
    {
      if k > 0 {
        assert more[k] == at[k - 1] + 1;
      }
    }
    forall j, k | 0 <= j < k < |more|
      ensures more[j] < more[k]
    {
      if j > 0 {
        assert more[j] == at[j - 1] + 1 && more[k] == at[k - 1] + 1;
      }
    }
  }

  lemma {:induction false} SweepLeft(impure: set<nat>, marked: set<Reg>, body: seq<Instr>) returns (at: seq<nat>)
    ensures Left(body, SweepBody(impure, marked, body), at)
    ensures forall i: nat {:trigger body[i]} :: i < |body| ==> (i in at <==> Kept(impure, marked, body[i]))
  {
    hide Kept, Left, Shifted;
    at := [];
    if body == [] {
      NothingLeft<Instr>();
    } else {
      var rest := SweepLeft(impure, marked, body[1..]);
      assert [body[0]] + body[1..] == body;
      LeftOn(body[1..], SweepBody(impure, marked, body[1..]), rest, body[0]);
      at := (if Kept(impure, marked, body[0]) then [0] else []) + Shifted(rest, 1);
      assert [] + Shifted(rest, 1) == Shifted(rest, 1) && [] + SweepBody(impure, marked, body[1..]) == SweepBody(impure, marked, body[1..]);
      forall i: nat | i < |body|
        ensures i in at <==> Kept(impure, marked, body[i])
      {
        ShiftedIn(rest, i);
        if i > 0 {
          assert body[1..][i - 1] == body[i];
        }
      }
    }
  }

  lemma {:induction false} SweepPhisLeft(marked: set<Reg>, phis: seq<Phi>) returns (at: seq<nat>)
    ensures Left(phis, SweepPhis(marked, phis), at)
    ensures forall i: nat {:trigger phis[i]} :: i < |phis| ==> (i in at <==> phis[i].dest in marked)
  {
    hide Left, Shifted;
    at := [];
    if phis == [] {
      NothingLeft<Phi>();
    } else {
      var rest := SweepPhisLeft(marked, phis[1..]);
      assert [phis[0]] + phis[1..] == phis;
      LeftOn(phis[1..], SweepPhis(marked, phis[1..]), rest, phis[0]);
      at := (if phis[0].dest in marked then [0] else []) + Shifted(rest, 1);
      assert [] + Shifted(rest, 1) == Shifted(rest, 1) && [] + SweepPhis(marked, phis[1..]) == SweepPhis(marked, phis[1..]);
      forall i: nat | i < |phis|
        ensures i in at <==> phis[i].dest in marked
      {
        ShiftedIn(rest, i);
        if i > 0 {
          assert phis[1..][i - 1] == phis[i];
        }
      }
    }
  }

  lemma NothingLeft<T>()
    ensures Left<T>([], [], [])
  {
  }

  /** The sweep under closed marks leaves what its marks say. */
  lemma SweptLeaves(f: Func, impure: set<nat>, marked: set<Reg>, f': Func)
    requires MarksClosed(f, impure, marked) && Swept(f, impure, marked, f')
    ensures OnlyLeft(f, marked, f')
  {
    hide Left, Operands;
    forall b | 0 <= b < |f|
      ensures f'[b].term == f[b].term && BodyLeft(marked, f[b].body, f'[b].body) && PhisLeft(marked, f[b].phis, f'[b].phis)
    {
      assert f'[b] == SweepBlock(impure, marked, f[b]);
      var at := SweepLeft(impure, marked, f[b].body);
      forall i: nat | i < |f[b].body|
        ensures i in at <==> f[b].body[i].Store? || f[b].body[i].d in marked
      {
        assert InstrClosed(impure, marked, f[b].body[i]);
        KeptIs(impure, marked, f[b].body[i]);
      }
      assert Left(f[b].body, f'[b].body, at);
      var places := SweepPhisLeft(marked, f[b].phis);
      assert Left(f[b].phis, f'[b].phis, places);
    }
  }

  lemma KeptIs(impure: set<nat>, marked: set<Reg>, i: Instr)
    requires InstrClosed(impure, marked, i)
    ensures Kept(impure, marked, i) <==> i.Store? || i.d in marked
  {
    if !i.Store? {
      assert i.d in Made(i);
    }
  }
}
