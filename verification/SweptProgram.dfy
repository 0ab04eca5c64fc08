/** A whole program without the instructions nobody needs: calls that come back do
    the same. */
module SweptProgram {
  import opened Arithmetic
  import opened Cfg
  import opened ArrayIr
  import opened DeadCode
  import opened SideEffects

  /** Whatever comes back from a call on m comes back on m'. */
  ghost predicate Refines(m: Machine, m': Machine) {
    && m'.frame == m.frame && m'.args == m.args
    && forall c, args, mem, out {:trigger m.callees(c, args, mem, out)} ::
         m.callees(c, args, mem, out).Reply? ==> m'.callees(c, args, mem, out) == m.callees(c, args, mem, out)
  }

  lemma EvalOther(m: Machine, m': Machine, env: Env, v: Value)
    requires m'.args == m.args
    ensures Eval(m', env, v) == Eval(m, env, v) && Num(m', env, v) == Num(m, env, v) && Ptr(m', env, v) == Ptr(m, env, v)
  {
  }

  lemma {:induction false} EvalAllOther(m: Machine, m': Machine, env: Env, vs: seq<Value>)
    requires m'.args == m.args
    ensures EvalAll(m', env, vs) == EvalAll(m, env, vs)
  {
    if vs != [] {
      EvalOther(m, m', env, vs[0]);
      EvalAllOther(m, m', env, vs[1..]);
    }
  }

  ghost predicate LostAt(r: Result) { r.Halt? && r.why == Lost }

  lemma StepRefined(m: Machine, m': Machine, i: Instr, s: State)
    requires Refines(m, m')
    ensures LostAt(Exec(m, i, s)) || Exec(m', i, s) == Exec(m, i, s)
  {
    hide Arith, Test, Eval, Num, Ptr;
    match i
    case Alloca(_) =>
    case Gep(_, v, w) =>
      EvalOther(m, m', s.env, v);
      EvalOther(m, m', s.env, w);
    case Load(_, v) => EvalOther(m, m', s.env, v);
    case Store(v, w) =>
      EvalOther(m, m', s.env, v);
      EvalOther(m, m', s.env, w);
    case Binary(_, _, v, w) =>
      EvalOther(m, m', s.env, v);
      EvalOther(m, m', s.env, w);
    case Compare(_, _, v, w) =>
      EvalOther(m, m', s.env, v);
      EvalOther(m, m', s.env, w);
    case Zext(_, v) => EvalOther(m, m', s.env, v);
    case Call(_, f, vs) => EvalAllOther(m, m', s.env, vs);
  }

  lemma {:induction false} BodyRefined(m: Machine, m': Machine, body: seq<Instr>, s: State)
    requires Refines(m, m')
    ensures LostAt(ExecBody(m, body, s)) || ExecBody(m', body, s) == ExecBody(m, body, s)
  {
    hide Refines, Exec;
    if body != [] {
      StepRefined(m, m', body[0], s);
      var r := Exec(m, body[0], s);
      if r.Next? {
        BodyRefined(m, m', body[1..], r.s);
      }
    }
  }

  lemma {:induction false} IncomingOther(m: Machine, m': Machine, env: Env, pairs: seq<(Value, Block)>, b: Block)
    requires m'.args == m.args
    ensures Incoming(m', env, pairs, b) == Incoming(m, env, pairs, b)
  {
    if pairs != [] {
      EvalOther(m, m', env, pairs[0].0);
      IncomingOther(m, m', env, pairs[1..], b);
    }
  }

  lemma {:induction false} PhisOther(m: Machine, m': Machine, was: Env, phis: seq<Phi>, b: Block, env: Env)
    requires m'.args == m.args
    ensures EnterPhis(m', was, phis, b, env) == EnterPhis(m, was, phis, b, env)
  {
    if phis != [] {
      IncomingOther(m, m', was, phis[0].pairs, b);
      var v := Incoming(m, was, phis[0].pairs, b);
      PhisOther(m, m', was, phis[1..], b, if v.None? then env - {phis[0].dest} else env[phis[0].dest := v.value]);
    }
  }

  lemma {:induction false} RunRefined(m: Machine, m': Machine, f: Func, b: Block, s: State, k: nat)
    requires Refines(m, m')
    ensures var o := RunFrom(m, f, b, s, k); (o.Halted? && o.why == Lost) || RunFrom(m', f, b, s, k) == o
    decreases k
  {
    hide Exec, EnterPhis, Eval;
    if k > 0 && b < |f| {
      BodyRefined(m, m', f[b].body, s);
      var r := ExecBody(m, f[b].body, s);
      if r.Next? {
        TermOther(m, m', f[b].term, r.s);
        match ExecTerm(m, f[b].term, r.s)
        case Done(o) =>
        case Goto(c) =>
          if c < |f| {
            PhisOther(m, m', r.s.env, f[c].phis, b, r.s.env);
            RunRefined(m, m', f, c, Entered(m, f[c].phis, b, r.s), k - 1);
          }
      }
    }
  }

  lemma TermOther(m: Machine, m': Machine, t: Term, s: State)
    requires m'.args == m.args
    ensures ExecTerm(m', t, s) == ExecTerm(m, t, s)
  {
    match t
    case Br(_) =>
    case CondBr(v, _, _) => EvalOther(m, m', s.env, v);
    case Ret(v) => EvalOther(m, m', s.env, v);
    case RetVoid =>
  }

  /** Every function has been swept, by marks of its own. */
  ghost predicate SweptAll(p: Program, impure: set<nat>, p': Program) {
    p'.Keys == p.Keys && forall f {:trigger p[f]} {:trigger p'[f]} :: f in p ==> SweptBy(p[f], impure, p'[f])
  }

  ghost predicate SweptBy(f: Func, impure: set<nat>, f': Func) {
    exists marked :: MarksClosed(f, impure, marked) && Swept(f, impure, marked, f')
  }

  ghost predicate CallsKnown(p: Program, impure: set<nat>, pure: set<nat>) {
    forall f {:trigger p[f]} :: f in p ==> AllKnown(impure, pure, p[f])
  }

  /** A call that comes back in the original program comes back in the swept one,
      with the same value, memory and output. */
  lemma {:induction false} CallsKept(p: Program, main: nat, impure: set<nat>, pure: set<nat>, p': Program, ext: Outside, fuel: nat,
                                     depth: nat, frame: nat, f: nat, args: seq<Datum>, mem: Mem, out: seq<int>)
    requires AllOneMaker(p) && CallsKnown(p, impure, pure) && SweptAll(p, impure, p')
    requires forall g :: g in pure ==> !Effects(p, main, {}, g)
    requires CallIn(p, ext, fuel, depth, frame, f, args, mem, out).Reply?
    ensures CallIn(p', ext, fuel, depth, frame, f, args, mem, out) == CallIn(p, ext, fuel, depth, frame, f, args, mem, out)
    decreases depth
  {
    hide AllKnown, OneMaker, SweptBy, Effects, Execute;
    if f in p {
      var m, m' := Inside(p, ext, fuel, depth, frame, args, out), Inside(p', ext, fuel, depth, frame, args, out);
      forall c, a, mm, oo | m.callees(c, a, mm, oo).Reply?
        ensures m'.callees(c, a, mm, oo) == m.callees(c, a, mm, oo)
      {
        CallsKept(p, main, impure, pure, p', ext, fuel, depth - 1, frame + 1, c, a, mm, out + oo);
      }
      InsideQuiet(p, main, ext, fuel, depth, frame, args, out, pure);
      assert SweptBy(p[f], impure, p'[f]) && AllKnown(impure, pure, p[f]);
      ReturnKept(m, m', p[f], impure, pure, p'[f], mem, fuel);
    }
  }

  lemma ReturnKept(m: Machine, m': Machine, f: Func, impure: set<nat>, pure: set<nat>, f': Func, mem: Mem, k: nat)
    requires Refines(m, m') && Quiet(m, pure) && AllKnown(impure, pure, f) && SweptBy(f, impure, f')
    ensures Execute(m, f, mem, k).Returned? ==> Execute(m', f', mem, k) == Execute(m, f, mem, k)
  {
    hide Refines, Quiet, AllKnown, MarksClosed, Swept;
    var marked :| MarksClosed(f, impure, marked) && Swept(f, impure, marked, f');
    SweepPreservesRuns(m, f, impure, pure, marked, f', mem, k);
    RunRefined(m, m', f', ENTRY, State(map[], mem, []), k);
  }
}
