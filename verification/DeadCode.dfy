/** Instructions nobody needs: which ones they are, and why runs are the same
    without them. */
module DeadCode {
  import opened Arithmetic
  import opened Cfg
  import opened ArrayIr

  /** A call of a function with side effects, or an instruction without result. */
  predicate IsSideEffect(impure: set<nat>, i: Instr) {
    if i.Call? then i.callee in impure else i.Store?
  }

  predicate Kept(impure: set<nat>, marked: set<Reg>, i: Instr) {
    IsSideEffect(impure, i) || exists x :: x in Made(i) && x in marked
  }

  // ---------------------------------------------------------------- marking

  ghost predicate InstrClosed(impure: set<nat>, marked: set<Reg>, i: Instr) {
    && (IsSideEffect(impure, i) ==> Made(i) <= marked)
    && (Kept(impure, marked, i) ==> Operands(i) <= marked)
  }

  ghost predicate PhiClosed(marked: set<Reg>, phi: Phi) {
    phi.dest in marked ==> PhiOperands(phi) <= marked
  }

  /** Everything needed for side effects and terminators, directly or not. */
  ghost predicate MarksClosed(f: Func, impure: set<nat>, marked: set<Reg>) {
    && (forall b, i {:trigger f[b].body[i]} :: 0 <= b < |f| && 0 <= i < |f[b].body| ==> InstrClosed(impure, marked, f[b].body[i]))
    && (forall b, k {:trigger f[b].phis[k]} :: 0 <= b < |f| && 0 <= k < |f[b].phis| ==> PhiClosed(marked, f[b].phis[k]))
    && (forall b {:trigger f[b].term} :: 0 <= b < |f| ==> ListRegs(TermUses(f[b].term)) <= marked)
  }

  // ---------------------------------------------------------------- sweeping

  function SweepBody(impure: set<nat>, marked: set<Reg>, body: seq<Instr>): seq<Instr> {
    if body == [] then []
    else (if Kept(impure, marked, body[0]) then [body[0]] else []) + SweepBody(impure, marked, body[1..])
  }

  function SweepPhis(marked: set<Reg>, phis: seq<Phi>): seq<Phi> {
    if phis == [] then []
    else (if phis[0].dest in marked then [phis[0]] else []) + SweepPhis(marked, phis[1..])
  }

  function SweepBlock(impure: set<nat>, marked: set<Reg>, b: BasicBlock): BasicBlock {
    BasicBlock(SweepPhis(marked, b.phis), SweepBody(impure, marked, b.body), b.term)
  }

  ghost predicate Swept(f: Func, impure: set<nat>, marked: set<Reg>, f': Func) {
    |f'| == |f| && forall b {:trigger f'[b]} {:trigger f[b]} :: 0 <= b < |f| ==> f'[b] == SweepBlock(impure, marked, f[b])
  }

  // ---------------------------------------------------------------- runs

  /** A pure function neither writes memory nor prints. */
  ghost predicate Quiet(m: Machine, pure: set<nat>) {
    forall f, args, mem, out {:trigger m.callees(f, args, mem, out)} ::
      f in pure && m.callees(f, args, mem, out).Reply? ==>
        m.callees(f, args, mem, out).mem == mem && m.callees(f, args, mem, out).out == []
  }

  /** Every call is to a function that is known to be one or the other. */
  ghost predicate Known(impure: set<nat>, pure: set<nat>, body: seq<Instr>) {
    forall i {:trigger body[i]} :: 0 <= i < |body| && body[i].Call? ==> body[i].callee in impure || body[i].callee in pure
  }

  ghost predicate AllKnown(impure: set<nat>, pure: set<nat>, f: Func) {
    forall b {:trigger f[b]} :: 0 <= b < |f| ==> Known(impure, pure, f[b].body)
  }

  ghost predicate SameReg(s: Env, t: Env, r: Reg) { (r in s <==> r in t) && (r in s ==> s[r] == t[r]) }

  ghost predicate SameEnv(marked: set<Reg>, s: Env, t: Env) {
    forall r {:trigger SameReg(s, t, r)} :: r in marked ==> SameReg(s, t, r)
  }

  ghost predicate Related(marked: set<Reg>, s: State, t: State) {
    s.mem == t.mem && s.out == t.out && SameEnv(marked, s.env, t.env)
  }

  lemma EvalSame(m: Machine, marked: set<Reg>, s: Env, t: Env, v: Value)
    requires SameEnv(marked, s, t) && ValueRegs(v) <= marked
    ensures Eval(m, s, v) == Eval(m, t, v) && Num(m, s, v) == Num(m, t, v) && Ptr(m, s, v) == Ptr(m, t, v)
  {
    if v.Res? {
      assert v.r in ValueRegs(v);
      assert SameReg(s, t, v.r);
    }
  }

  lemma {:induction false} EvalAllSame(m: Machine, marked: set<Reg>, s: Env, t: Env, vs: seq<Value>)
    requires SameEnv(marked, s, t) && ListRegs(vs) <= marked
    ensures EvalAll(m, s, vs) == EvalAll(m, t, vs)
  {
    if vs != [] {
      assert vs[0] in vs;
      assert vs[0].Res? ==> vs[0].r in ListRegs(vs);
      EvalSame(m, marked, s, t, vs[0]);
      assert ListRegs(vs[1..]) <= ListRegs(vs);
      EvalAllSame(m, marked, s, t, vs[1..]);
    }
  }

  lemma DefineSame(marked: set<Reg>, s: State, t: State, d: Reg, v: Option<Datum>, why: Reason)
    requires Related(marked, s, t)
    ensures var a, b := Define(s, d, v, why), Define(t, d, v, why);
      if v.None? then a == b && a.Halt? else a.Next? && b.Next? && Related(marked, a.s, b.s)
  {
    if v.Some? {
      forall r | r in marked
        ensures SameReg(s.env[d := v.value], t.env[d := v.value], r)
      {
        assert r == d || SameReg(s.env, t.env, r);
      }
    }
  }

  ghost predicate Alike(marked: set<Reg>, a: Result, b: Result) {
    if a.Next? then b.Next? && Related(marked, a.s, b.s) else b == a
  }

  /** An instruction that is kept does the same. */
  lemma KeptStep(m: Machine, marked: set<Reg>, i: Instr, s: State, t: State)
    requires Related(marked, s, t) && Operands(i) <= marked
    ensures Alike(marked, Exec(m, i, s), Exec(m, i, t))
  {
    hide Num, Ptr, Eval, Related, Arith, Test;
    RelatedOut(marked, s, t);
    match i
    case Alloca(d) => DefineSame(marked, s, t, d, Some(P(Local(m.frame, d), 0)), Undefined);
    case Gep(d, v, w) =>
      EvalSame(m, marked, s.env, t.env, v);
      EvalSame(m, marked, s.env, t.env, w);
      var a, b := Ptr(m, s.env, v), Num(m, s.env, w);
      DefineSame(marked, s, t, d, if a.None? || b.None? then None else Some(P(a.value.0, a.value.1 + b.value)), Undefined);
    case Load(d, v) =>
      EvalSame(m, marked, s.env, t.env, v);
      var a := Ptr(m, s.env, v);
      DefineSame(marked, s, t, d, if a.None? then None else Some(N(Fetch(s.mem, a.value))), Undefined);
    case Store(v, w) =>
      EvalSame(m, marked, s.env, t.env, v);
      EvalSame(m, marked, s.env, t.env, w);
      OutsideSame(marked, s, t);
    case Binary(d, op, v, w) =>
      EvalSame(m, marked, s.env, t.env, v);
      EvalSame(m, marked, s.env, t.env, w);
      var a, b := Num(m, s.env, v), Num(m, s.env, w);
      if a.Some? && b.Some? {
        DefineSame(marked, s, t, d, AsNum(Arith(op, a.value, b.value)), Trap);
      }
    case Compare(d, op, v, w) =>
      EvalSame(m, marked, s.env, t.env, v);
      EvalSame(m, marked, s.env, t.env, w);
      var a, b := Num(m, s.env, v), Num(m, s.env, w);
      if a.Some? && b.Some? {
        DefineSame(marked, s, t, d, Some(N(Bit(Test(op, a.value, b.value)))), Trap);
      }
    case Zext(d, v) =>
      EvalSame(m, marked, s.env, t.env, v);
      DefineSame(marked, s, t, d, AsNum(Num(m, s.env, v)), Undefined);
    case Call(d, f, vs) => KeptCall(m, marked, d, f, vs, s, t);
  }

  lemma OutsideSame(marked: set<Reg>, s: State, t: State)
    requires Related(marked, s, t)
    ensures forall mem, out :: Related(marked, s.(mem := mem, out := out), t.(mem := mem, out := out))
  {
  }

  lemma KeptCall(m: Machine, marked: set<Reg>, d: Reg, f: nat, vs: seq<Value>, s: State, t: State)
    requires Related(marked, s, t) && ListRegs(vs) <= marked
    ensures Alike(marked, Exec(m, Call(d, f, vs), s), Exec(m, Call(d, f, vs), t))
  {
    EvalAllSame(m, marked, s.env, t.env, vs);
    var a := EvalAll(m, s.env, vs);
    if a.Some? {
      match m.callees(f, a.value, s.mem, s.out)
      case NoReply =>
      case Reply(n, mem, out) =>
        var s', t' := s.(mem := mem, out := s.out + out), t.(mem := mem, out := t.out + out);
        OutsideSame(marked, s, t);
        DefineSame(marked, s', t', d, Some(N(n)), Undefined);
    }
  }

  /** An instruction that is dropped changes nothing that is needed. */
  lemma DroppedStep(m: Machine, impure: set<nat>, pure: set<nat>, marked: set<Reg>, i: Instr, s: State, t: State)
    requires Related(marked, s, t) && !Kept(impure, marked, i) && Quiet(m, pure) && Known(impure, pure, [i])
    ensures var r := Exec(m, i, s); if r.Next? then Related(marked, r.s, t) else r.mem == s.mem && r.out == s.out
  {
    var r := Exec(m, i, s);
    assert [i][0] == i;
    if r.Next? {
      assert i.d in Made(i);
      forall q | q in marked
        ensures SameReg(r.s.env, t.env, q)
      {
        assert SameReg(s.env, t.env, q);
      }
    }
  }

  // ---------------------------------------------------------------- what has been printed

  ghost predicate Prefix(a: seq<int>, b: seq<int>) { |a| <= |b| && b[..|a|] == a }

  function OutOf(r: Result): seq<int> { if r.Next? then r.s.out else r.out }

  lemma PrefixTrans(a: seq<int>, b: seq<int>, c: seq<int>)
    requires Prefix(a, b) && Prefix(b, c)
    ensures Prefix(a, c)
  {
    assert c[..|b|][..|a|] == c[..|a|];
  }

  lemma ExecPrints(m: Machine, i: Instr, s: State)
    ensures Prefix(s.out, OutOf(Exec(m, i, s)))
  {
    var o := OutOf(Exec(m, i, s));
    assert s.out[..|s.out|] == s.out;
  }

  lemma {:induction false} BodyPrints(m: Machine, body: seq<Instr>, s: State)
    ensures Prefix(s.out, OutOf(ExecBody(m, body, s)))
  {
    if body == [] {
      assert s.out[..|s.out|] == s.out;
    } else {
      ExecPrints(m, body[0], s);
      var r := Exec(m, body[0], s);
      if r.Next? {
        BodyPrints(m, body[1..], r.s);
        PrefixTrans(s.out, r.s.out, OutOf(ExecBody(m, body[1..], r.s)));
      }
    }
  }

  lemma {:induction false} RunPrints(m: Machine, f: Func, b: Block, s: State, k: nat)
    ensures Prefix(s.out, RunFrom(m, f, b, s, k).out)
    decreases k
  {
    assert s.out[..|s.out|] == s.out;
    if k > 0 && b < |f| {
      BodyPrints(m, f[b].body, s);
      var r := ExecBody(m, f[b].body, s);
      if r.Next? {
        match ExecTerm(m, f[b].term, r.s)
        case Done(o) =>
        case Goto(c) =>
          if c < |f| {
            var t := Entered(m, f[c].phis, b, r.s);
            RunPrints(m, f, c, t, k - 1);
            PrefixTrans(s.out, r.s.out, RunFrom(m, f, c, t, k - 1).out);
          }
      }
    }
  }

  // ---------------------------------------------------------------- without the dropped ones

  /** The instruction at which the code halts. */
  function BodyStop(m: Machine, body: seq<Instr>, s: State): Option<Instr> {
    if body == [] then None
    else
      var r := Exec(m, body[0], s);
      if r.Halt? then Some(body[0]) else BodyStop(m, body[1..], r.s)
  }

  /** The instruction at which the run halts. */
  function RunStop(m: Machine, f: Func, b: Block, s: State, fuel: nat): Option<Instr>
    decreases fuel
  {
    if fuel == 0 || b >= |f| then None
    else
      var r := ExecBody(m, f[b].body, s);
      if r.Halt? then BodyStop(m, f[b].body, s)
      else
        match ExecTerm(m, f[b].term, r.s)
        case Done(_) => None
        case Goto(c) => if c < |f| then RunStop(m, f, c, Entered(m, f[c].phis, b, r.s), fuel - 1) else None
  }

  /** A dropped instruction is where it halts. */
  predicate AtDropped(impure: set<nat>, marked: set<Reg>, stop: Option<Instr>) { stop.Some? && !Kept(impure, marked, stop.value) }

  lemma {:induction false} BodyStops(m: Machine, body: seq<Instr>, s: State)
    ensures ExecBody(m, body, s).Halt? <==> BodyStop(m, body, s).Some?
  {
    if body != [] {
      var r := Exec(m, body[0], s);
      if r.Next? {
        BodyStops(m, body[1..], r.s);
      }
    }
  }

  /** The same result, unless the original halts at a dropped instruction: then it
      has printed no more. */
  ghost predicate BodySame(impure: set<nat>, marked: set<Reg>, stop: Option<Instr>, a: Result, b: Result) {
    if AtDropped(impure, marked, stop) then a.Halt? && Prefix(a.out, OutOf(b)) else Alike(marked, a, b)
  }

  lemma {:induction false} BodySwept(m: Machine, impure: set<nat>, pure: set<nat>, marked: set<Reg>, body: seq<Instr>, s: State, t: State)
    requires Related(marked, s, t) && Quiet(m, pure) && Known(impure, pure, body)
    requires forall i {:trigger body[i]} :: 0 <= i < |body| ==> InstrClosed(impure, marked, body[i])
    ensures BodySame(impure, marked, BodyStop(m, body, s), ExecBody(m, body, s), ExecBody(m, SweepBody(impure, marked, body), t))
  {
    hide Related, Quiet, Exec, Kept;
    if body != [] {
      var i, rest, sweptRest := body[0], body[1..], SweepBody(impure, marked, body[1..]);
      var r := Exec(m, i, s);
      assert InstrClosed(impure, marked, body[0]);
      if Kept(impure, marked, i) {
        KeptStep(m, marked, i, s, t);
        assert SweepBody(impure, marked, body) == [i] + sweptRest;
        assert ([i] + sweptRest)[1..] == sweptRest;
        if r.Next? {
          BodySwept(m, impure, pure, marked, rest, r.s, Exec(m, i, t).s);
        }
      } else {
        DroppedStep(m, impure, pure, marked, i, s, t);
        assert SweepBody(impure, marked, body) == sweptRest;
        if r.Next? {
          BodySwept(m, impure, pure, marked, rest, r.s, t);
        } else {
          RelatedOut(marked, s, t);
          BodyPrints(m, sweptRest, t);
        }
      }
    }
  }

  lemma RelatedOut(marked: set<Reg>, s: State, t: State)
    requires Related(marked, s, t)
    ensures s.mem == t.mem && s.out == t.out && SameEnv(marked, s.env, t.env)
  {
  }

  lemma {:induction false} IncomingSame(m: Machine, marked: set<Reg>, s: Env, t: Env, pairs: seq<(Value, Block)>, b: Block)
    requires SameEnv(marked, s, t) && forall p {:trigger p in pairs} :: p in pairs ==> ValueRegs(p.0) <= marked
    ensures Incoming(m, s, pairs, b) == Incoming(m, t, pairs, b)
  {
    if pairs != [] {
      assert pairs[0] in pairs;
      EvalSame(m, marked, s, t, pairs[0].0);
      assert forall p {:trigger p in pairs[1..]} :: p in pairs[1..] ==> p in pairs;
      IncomingSame(m, marked, s, t, pairs[1..], b);
    }
  }

  lemma {:induction false} PhisSwept(m: Machine, marked: set<Reg>, s0: Env, t0: Env, phis: seq<Phi>, b: Block, s: Env, t: Env)
    requires SameEnv(marked, s0, t0) && SameEnv(marked, s, t)
    requires forall k {:trigger phis[k]} :: 0 <= k < |phis| ==> PhiClosed(marked, phis[k])
    ensures SameEnv(marked, EnterPhis(m, s0, phis, b, s), EnterPhis(m, t0, SweepPhis(marked, phis), b, t))
  {
    if phis != [] {
      var phi, rest := phis[0], SweepPhis(marked, phis[1..]);
      assert PhiClosed(marked, phis[0]);
      var v := Incoming(m, s0, phi.pairs, b);
      var s' := if v.None? then s - {phi.dest} else s[phi.dest := v.value];
      if phi.dest in marked {
        forall p | p in phi.pairs
          ensures ValueRegs(p.0) <= marked
        {
          assert p.0.Res? ==> p.0.r in PhiOperands(phi);
        }
        IncomingSame(m, marked, s0, t0, phi.pairs, b);
        var t' := if v.None? then t - {phi.dest} else t[phi.dest := v.value];
        forall r | r in marked
          ensures SameReg(s', t', r)
        {
          assert SameReg(s, t, r);
        }
        assert SweepPhis(marked, phis) == [phi] + rest;
        assert ([phi] + rest)[1..] == rest;
        PhisSwept(m, marked, s0, t0, phis[1..], b, s', t');
      } else {
        forall r | r in marked
          ensures SameReg(s', t, r)
        {
          assert SameReg(s, t, r);
        }
        assert SweepPhis(marked, phis) == rest;
        PhisSwept(m, marked, s0, t0, phis[1..], b, s', t);
      }
    }
  }

  /** The same outcome, unless the original halts at a dropped instruction: then all
      it has printed by then is printed. */
  ghost predicate SweptOutcome(impure: set<nat>, marked: set<Reg>, stop: Option<Instr>, o: Outcome, o': Outcome) {
    if AtDropped(impure, marked, stop) then o.Halted? && Prefix(o.out, o'.out) else o' == o
  }

  lemma {:induction false} RunsSwept(m: Machine, f: Func, impure: set<nat>, pure: set<nat>, marked: set<Reg>, f': Func, b: Block, s: State, t: State, k: nat)
    requires MarksClosed(f, impure, marked) && Swept(f, impure, marked, f') && Related(marked, s, t) && Quiet(m, pure) && AllKnown(impure, pure, f)
    ensures SweptOutcome(impure, marked, RunStop(m, f, b, s, k), RunFrom(m, f, b, s, k), RunFrom(m, f', b, t, k))
    decreases k
  {
    hide Related, Quiet, InstrClosed, PhiClosed, Exec, Kept, EnterPhis;
    RelatedOut(marked, s, t);
    if k > 0 && b < |f| {
      assert f'[b] == SweepBlock(impure, marked, f[b]);
      assert Known(impure, pure, f[b].body);
      assert forall i {:trigger f[b].body[i]} :: 0 <= i < |f[b].body| ==> InstrClosed(impure, marked, f[b].body[i]);
      BodySwept(m, impure, pure, marked, f[b].body, s, t);
      BodyStops(m, f[b].body, s);
      var r, r' := ExecBody(m, f[b].body, s), ExecBody(m, f'[b].body, t);
      if r.Next? {
        RelatedOut(marked, r.s, r'.s);
        TermSame(m, marked, f[b].term, r.s, r'.s);
        match ExecTerm(m, f[b].term, r.s)
        case Done(o) =>
        case Goto(c) =>
          if c < |f| {
            PhisSwept(m, marked, r.s.env, r'.s.env, f[c].phis, b, r.s.env, r'.s.env);
            var s1, t1 := Entered(m, f[c].phis, b, r.s), Entered(m, f'[c].phis, b, r'.s);
            NewEnv(marked, r.s, r'.s, s1.env, t1.env);
            RunsSwept(m, f, impure, pure, marked, f', c, s1, t1, k - 1);
          }
      } else if AtDropped(impure, marked, BodyStop(m, f[b].body, s)) {
        var all := RunFrom(m, f', b, t, k);
        AfterBody(m, f', b, t, k);
        PrefixTrans(r.out, OutOf(r'), all.out);
      }
    }
  }

  lemma NewEnv(marked: set<Reg>, s: State, t: State, e: Env, e': Env)
    requires Related(marked, s, t) && SameEnv(marked, e, e')
    ensures Related(marked, s.(env := e), t.(env := e'))
  {
  }

  lemma TermSame(m: Machine, marked: set<Reg>, t: Term, s: State, s': State)
    requires Related(marked, s, s') && ListRegs(TermUses(t)) <= marked
    ensures ExecTerm(m, t, s) == ExecTerm(m, t, s')
  {
    match t
    case Br(_) =>
    case CondBr(c, _, _) =>
      assert c in TermUses(t);
      EvalSame(m, marked, s.env, s'.env, c);
    case Ret(v) =>
      assert v in TermUses(t);
      EvalSame(m, marked, s.env, s'.env, v);
    case RetVoid =>
  }

  /** Behind the body of the first block only more is printed. */
  lemma AfterBody(m: Machine, f: Func, b: Block, s: State, k: nat)
    requires k > 0 && b < |f|
    ensures Prefix(OutOf(ExecBody(m, f[b].body, s)), RunFrom(m, f, b, s, k).out)
  {
    var r := ExecBody(m, f[b].body, s);
    assert OutOf(r)[..|OutOf(r)|] == OutOf(r);
    if r.Next? {
      match ExecTerm(m, f[b].term, r.s)
      case Done(o) =>
      case Goto(c) =>
        if c < |f| {
          RunPrints(m, f, c, Entered(m, f[c].phis, b, r.s), k - 1);
        }
    }
  }

  /** Removal preserves every run that does not halt at a removed instruction. */
  lemma SweepPreservesRuns(m: Machine, f: Func, impure: set<nat>, pure: set<nat>, marked: set<Reg>, f': Func, mem: Mem, k: nat)
    requires MarksClosed(f, impure, marked) && Swept(f, impure, marked, f') && Quiet(m, pure) && AllKnown(impure, pure, f)
    ensures SweptOutcome(impure, marked, RunStop(m, f, ENTRY, State(map[], mem, []), k), Execute(m, f, mem, k), Execute(m, f', mem, k))
  {
    hide MarksClosed, Swept, Quiet;
    var s := State(map[], mem, []);
    RunsSwept(m, f, impure, pure, marked, f', ENTRY, s, s, k);
  }

  // ---------------------------------------------------------------- when nothing removed can halt

  /** Calls of pure functions come back. */
  ghost predicate Answers(m: Machine, pure: set<nat>) {
    forall f, args, mem, out {:trigger m.callees(f, args, mem, out)} :: f in pure ==> m.callees(f, args, mem, out).Reply?
  }

  /** A division by a number that never traps, or no division. */
  predicate CannotTrap(i: Instr) { i.Binary? && i.op.SDiv? ==> i.rhs.Const? && i.rhs.n != 0 && i.rhs.n != -1 }

  ghost predicate DroppedTotal(f: Func, impure: set<nat>, marked: set<Reg>) {
    forall b, i {:trigger f[b].body[i]} :: 0 <= b < |f| && 0 <= i < |f[b].body| && !Kept(impure, marked, f[b].body[i]) ==> CannotTrap(f[b].body[i])
  }

  /** The instruction where code halts is one of it, and halts for the same reason. */
  lemma {:induction false} BodyReason(m: Machine, body: seq<Instr>, s: State) returns (i: nat, t: State)
    requires ExecBody(m, body, s).Halt?
    ensures i < |body| && BodyStop(m, body, s) == Some(body[i]) && Exec(m, body[i], t).Halt? && Exec(m, body[i], t).why == ExecBody(m, body, s).why
  {
    hide Exec;
    var r := Exec(m, body[0], s);
    if r.Halt? {
      i, t := 0, s;
    } else {
      i, t := BodyReason(m, body[1..], r.s);
      i := i + 1;
    }
  }

  lemma {:induction false} RunReason(m: Machine, f: Func, b: Block, s: State, k: nat) returns (c: Block, i: nat, t: State)
    requires RunStop(m, f, b, s, k).Some?
    ensures c < |f| && i < |f[c].body| && RunStop(m, f, b, s, k) == Some(f[c].body[i])
    ensures Exec(m, f[c].body[i], t).Halt? && RunFrom(m, f, b, s, k).Halted? && RunFrom(m, f, b, s, k).why == Exec(m, f[c].body[i], t).why
    decreases k
  {
    hide Exec, EnterPhis;
    BodyStops(m, f[b].body, s);
    var r := ExecBody(m, f[b].body, s);
    if r.Halt? {
      i, t := BodyReason(m, f[b].body, s);
      c := b;
    } else {
      match ExecTerm(m, f[b].term, r.s)
      case Goto(d) => c, i, t := RunReason(m, f, d, Entered(m, f[d].phis, b, r.s), k - 1);
      case Done(_) => assert false;
    }
  }

  /** If removed divisions cannot trap and removed callees come back, then removal
      preserves every run that uses no undefined value. */
  lemma TotalSweepIsExact(m: Machine, f: Func, impure: set<nat>, pure: set<nat>, marked: set<Reg>, f': Func, mem: Mem, k: nat)
    requires MarksClosed(f, impure, marked) && Swept(f, impure, marked, f') && Quiet(m, pure) && AllKnown(impure, pure, f)
    requires Answers(m, pure) && DroppedTotal(f, impure, marked)
    requires var o := Execute(m, f, mem, k); !(o.Halted? && o.why == Undefined)
    ensures Execute(m, f', mem, k) == Execute(m, f, mem, k)
  {
    hide MarksClosed, Swept, Quiet;
    SweepPreservesRuns(m, f, impure, pure, marked, f', mem, k);
    var s := State(map[], mem, []);
    var stop := RunStop(m, f, ENTRY, s, k);
    if AtDropped(impure, marked, stop) {
      var c, i, t := RunReason(m, f, ENTRY, s, k);
      assert Known(impure, pure, f[c].body);
      DroppedReason(m, impure, pure, marked, f[c].body[i], t);
      assert false;
    }
  }

  lemma DroppedReason(m: Machine, impure: set<nat>, pure: set<nat>, marked: set<Reg>, i: Instr, t: State)
    requires !Kept(impure, marked, i) && Answers(m, pure) && CannotTrap(i) && (i.Call? ==> i.callee in impure || i.callee in pure)
    ensures Exec(m, i, t).Halt? ==> Exec(m, i, t).why == Undefined
  {
    match i
    case Call(d, f, vs) =>
      var a := EvalAll(m, t.env, vs);
      if a.Some? {
        assert m.callees(f, a.value, t.mem, t.out).Reply?;
      }
    case _ =>
  }
}
