/** A function without its common subexpressions runs as it did. */
module CseMeaning {
  import opened Arithmetic
  import opened Cfg
  import opened ArrayIr
  import opened ArraySsa
  import opened CseTables
  import opened CseFacts
  import opened CseSteps

  // ---------------------------------------------------------------- what calls are given

  predicate ArrayOnly(arrays: set<nat>, v: Value) { v.Global? ==> v.g in arrays }

  /** Of the globals, only arrays are passed on by calls and phis. */
  ghost predicate PassesOn(f: Func, arrays: set<nat>) {
    && (forall b, i {:trigger f[b].body[i]} :: 0 <= b < |f| && 0 <= i < |f[b].body| && f[b].body[i].Call? ==>
          forall k {:trigger f[b].body[i].args[k]} :: 0 <= k < |f[b].body[i].args| ==> ArrayOnly(arrays, f[b].body[i].args[k]))
    && (forall b, k {:trigger f[b].phis[k]} :: 0 <= b < |f| && 0 <= k < |f[b].phis| ==>
          forall j {:trigger f[b].phis[k].pairs[j]} :: 0 <= j < |f[b].phis[k].pairs| ==> ArrayOnly(arrays, f[b].phis[k].pairs[j].0))
  }

  /** All pointers a state holds may be given to a called function. */
  ghost predicate EnvForeign(frame: nat, arrays: set<nat>, env: Env) { forall r {:trigger env[r]} :: r in env ==> Foreign(frame, arrays, env[r]) }

  lemma EvalForeign(m: Machine, arrays: set<nat>, env: Env, v: Value)
    requires AllForeign(m.frame, arrays, m.args) && EnvForeign(m.frame + 1, arrays, env) && ArrayOnly(arrays, v) && Eval(m, env, v).Some?
    ensures Foreign(m.frame + 1, arrays, Eval(m, env, v).value)
  {
  }

  lemma {:induction false} AllEvalForeign(m: Machine, arrays: set<nat>, env: Env, vs: seq<Value>)
    requires AllForeign(m.frame, arrays, m.args) && EnvForeign(m.frame + 1, arrays, env) && EvalAll(m, env, vs).Some?
    requires forall k {:trigger vs[k]} :: 0 <= k < |vs| ==> ArrayOnly(arrays, vs[k])
    ensures AllForeign(m.frame + 1, arrays, EvalAll(m, env, vs).value)
  {
    hide EnvForeign, ArrayOnly, Foreign;
    if vs != [] {
      EvalForeign(m, arrays, env, vs[0]);
      assert forall k {:trigger vs[1..][k]} :: 0 <= k < |vs[1..]| ==> vs[1..][k] == vs[k + 1];
      AllEvalForeign(m, arrays, env, vs[1..]);
    }
  }

  lemma ExecForeign(made: Makers, m: Machine, arrays: set<nat>, w: Instr, s: State)
    requires AllForeign(m.frame, arrays, m.args) && EnvForeign(m.frame + 1, arrays, s.env) && PointersOk(made, arrays, w) && Exec(m, w, s).Next?
    ensures EnvForeign(m.frame + 1, arrays, Exec(m, w, s).s.env)
  {
    hide Arith, Test, PtrOk;
    if w.Gep? {
      GepForeign(made, m, arrays, w, s);
    }
  }

  lemma GepForeign(made: Makers, m: Machine, arrays: set<nat>, w: Instr, s: State)
    requires AllForeign(m.frame, arrays, m.args) && EnvForeign(m.frame + 1, arrays, s.env) && PointersOk(made, arrays, w) && w.Gep? && Ptr(m, s.env, w.base).Some?
    ensures Foreign(m.frame + 1, arrays, P(Ptr(m, s.env, w.base).value.0, 0))
  {
    EvalForeign(m, arrays, s.env, w.base);
  }

  lemma {:induction false} IncomingForeign(m: Machine, arrays: set<nat>, env: Env, pairs: seq<(Value, Block)>, b: Block)
    requires AllForeign(m.frame, arrays, m.args) && EnvForeign(m.frame + 1, arrays, env)
    requires forall j {:trigger pairs[j]} :: 0 <= j < |pairs| ==> ArrayOnly(arrays, pairs[j].0)
    ensures Incoming(m, env, pairs, b).Some? ==> Foreign(m.frame + 1, arrays, Incoming(m, env, pairs, b).value)
  {
    hide EnvForeign, ArrayOnly, Foreign, Eval;
    if pairs != [] {
      if pairs[0].1 == b && Eval(m, env, pairs[0].0).Some? {
        EvalForeign(m, arrays, env, pairs[0].0);
      }
      IncomingForeign(m, arrays, env, pairs[1..], b);
    }
  }

  lemma {:induction false} EnterForeign(m: Machine, arrays: set<nat>, was: Env, phis: seq<Phi>, b: Block, env: Env)
    requires AllForeign(m.frame, arrays, m.args) && EnvForeign(m.frame + 1, arrays, was) && EnvForeign(m.frame + 1, arrays, env)
    requires forall k {:trigger phis[k]} :: 0 <= k < |phis| ==> forall j {:trigger phis[k].pairs[j]} :: 0 <= j < |phis[k].pairs| ==> ArrayOnly(arrays, phis[k].pairs[j].0)
    ensures EnvForeign(m.frame + 1, arrays, EnterPhis(m, was, phis, b, env))
  {
    hide ArrayOnly, Foreign, Incoming;
    if phis != [] {
      assert phis[0] == phis[0];
      IncomingForeign(m, arrays, was, phis[0].pairs, b);
      var v := Incoming(m, was, phis[0].pairs, b);
      assert forall k {:trigger phis[1..][k]} :: 0 <= k < |phis[1..]| ==> phis[1..][k] == phis[k + 1];
      EnterForeign(m, arrays, was, phis[1..], b, if v.None? then env - {phis[0].dest} else env[phis[0].dest := v.value]);
    }
  }

  lemma {:induction false} ReachedForeign(c: SsaFunc, arrays: set<nat>, m: Machine, mem: Mem, n: nat, b: Block, i: nat, s: State)
    requires Fit(c, arrays) && PassesOn(c.f, arrays) && AllForeign(m.frame, arrays, m.args) && c.Reached(m, mem, n, b, i, s)
    ensures EnvForeign(m.frame + 1, arrays, s.env)
    decreases n, i
  {
    hide SsaFunc.Reached, SsaFunc.Valid, Exec, EnterPhis, AllForeign, EnvForeign, PointersOk, MakersOf, ArrayOnly, SsaFunc.Visit;
    c.ReachedBounds(m, mem, n, b, i, s);
    if i > 0 {
      var s0 := c.ReachedBack(m, mem, n, b, i - 1, s);
      ReachedForeign(c, arrays, m, mem, n, b, i - 1, s0);
      assert PointersOk(MakersOf(c), arrays, c.f[b].body[i - 1]);
      ExecForeign(MakersOf(c), m, arrays, c.f[b].body[i - 1], s0);
    } else {
      c.ReachedStart(m, mem, n, b, s);
      if n == 0 {
        StartForeign(c, arrays, m, mem, b, s);
      } else {
        var p, s0 := c.VisitBack(m, mem, n - 1, b, s);
        ReachedForeign(c, arrays, m, mem, n - 1, p, |c.f[p].body|, s0);
        EnterForeign(m, arrays, s0.env, c.f[b].phis, p, s0.env);
      }
    }
  }

  lemma StartForeign(c: SsaFunc, arrays: set<nat>, m: Machine, mem: Mem, b: Block, s: State)
    requires c.Visit(m, mem, 0) == Some((b, s))
    ensures EnvForeign(m.frame + 1, arrays, s.env)
  {
  }

  // ---------------------------------------------------------------- two machines

  /** The same activation; the called functions answer alike when they are given no
      pointers into what is called later. */
  ghost predicate Agree(m: Machine, m': Machine, arrays: set<nat>) {
    && m'.frame == m.frame && m'.args == m.args
    && forall f, args, mem, out {:trigger m.callees(f, args, mem, out)} {:trigger m'.callees(f, args, mem, out)} ::
         AllForeign(m.frame + 1, arrays, args) ==> m'.callees(f, args, mem, out) == m.callees(f, args, mem, out)
  }

  /** The states in front of position i of b, of the function and of what it becomes. */
  ghost predicate Alike(c: SsaFunc, sub: Sub, b: Block, i: int, s: State, t: State) {
    && t.mem == s.mem && t.out == s.out
    && forall x {:trigger SameReg(s.env, t.env, x)} :: c.Before(x, b, i) && x !in sub ==> SameReg(s.env, t.env, x)
  }

  /** Everything the comparison of two runs rests on. */
  ghost predicate Both(c: SsaFunc, arrays: set<nat>, m: Machine, m': Machine, mem: Mem, sub: Sub) {
    && Fit(c, arrays) && PassesOn(c.f, arrays) && AllForeign(m.frame, arrays, m.args) && Agree(m, m', arrays)
    && SubOk(c, m, mem, sub, |c.f|, 0)
  }

  lemma EvalAlike(c: SsaFunc, arrays: set<nat>, m: Machine, m': Machine, mem: Mem, sub: Sub, n: nat, b: Block, i: nat, s: State, t: State, v: Value)
    requires Both(c, arrays, m, m', mem, sub) && c.Reached(m, mem, n, b, i, s) && b < |c.f| && Alike(c, sub, b, i, s, t) && c.Available(ValueRegs(v), b, i)
    ensures Eval(m', t.env, SubVal(sub, v)) == Eval(m, s.env, v) && Num(m', t.env, SubVal(sub, v)) == Num(m, s.env, v)
    ensures Ptr(m', t.env, SubVal(sub, v)) == Ptr(m, s.env, v)
  {
    hide SsaFunc.Valid, SsaFunc.Reached, SsaFunc.Before, PairOk, Walked, PassesOn, AllForeign;
    if v.Res? {
      assert c.Before(v.r, b, i);
      if v.r in sub {
        PairEqual(c, m, mem, sub, v.r, n, b, i, s);
        assert SameReg(s.env, t.env, sub[v.r]);
      } else {
        assert SameReg(s.env, t.env, v.r);
      }
    }
  }

  lemma {:induction false} EvalAllAlike(c: SsaFunc, arrays: set<nat>, m: Machine, m': Machine, mem: Mem, sub: Sub, n: nat, b: Block, i: nat, s: State, t: State, vs: seq<Value>)
    requires Both(c, arrays, m, m', mem, sub) && c.Reached(m, mem, n, b, i, s) && b < |c.f| && Alike(c, sub, b, i, s, t) && c.Available(ListRegs(vs), b, i)
    ensures EvalAll(m', t.env, SubAll(sub, vs)) == EvalAll(m, s.env, vs)
  {
    hide Both, SsaFunc.Reached, SsaFunc.Before, Alike, Eval, SubVal, SubAll;
    SubAllIs(sub, vs);
    if vs != [] {
      assert vs[0] in vs && forall v :: v in vs[1..] ==> v in vs;
      FewerAvailable(c, ListRegs(vs), ValueRegs(vs[0]), b, i);
      FewerAvailable(c, ListRegs(vs), ListRegs(vs[1..]), b, i);
      EvalAlike(c, arrays, m, m', mem, sub, n, b, i, s, t, vs[0]);
      EvalAllAlike(c, arrays, m, m', mem, sub, n, b, i, s, t, vs[1..]);
    }
  }

  lemma SubAllIs(sub: Sub, vs: seq<Value>)
    ensures |SubAll(sub, vs)| == |vs|
    ensures vs != [] ==> SubAll(sub, vs)[0] == SubVal(sub, vs[0]) && SubAll(sub, vs)[1..] == SubAll(sub, vs[1..])
  {
  }

  // ---------------------------------------------------------------- one instruction

  /** A replaced instruction never halts, and nothing else misses it. */
  lemma GoneStep(c: SsaFunc, arrays: set<nat>, m: Machine, m': Machine, mem: Mem, sub: Sub, n: nat, b: Block, i: nat, s: State, t: State)
    requires Both(c, arrays, m, m', mem, sub) && c.Reached(m, mem, n, b, i, s) && Alike(c, sub, b, i, s, t)
    requires b < |c.f| && i < |c.f[b].body| && !c.f[b].body[i].Store? && c.f[b].body[i].d in sub
    ensures Exec(m, c.f[b].body[i], s).Next? && Alike(c, sub, b, i + 1, Exec(m, c.f[b].body[i], s).s, t)
  {
    hide SsaFunc.Valid, SsaFunc.Reached, PassesOn, AllForeign, Agree, Exec, SsaFunc.Available, SameKind;
    var w := c.f[b].body[i];
    c.MadeIs(b, i);
    assert PairOk(c, m, mem, w.d, sub[w.d]);
    CopiesAt(c, m, mem, w.d, sub[w.d], n, s);
    ExecPlain(m, w, s);
    ComputedNext(m, w, s);
    var s' := Exec(m, w, s).s;
    forall y | c.Before(y, b, i + 1) && y !in sub
      ensures SameReg(s'.env, t.env, y)
    {
      OtherSite(c, b, i, y);
      assert SameReg(s.env, t.env, y);
    }
  }

  lemma CopiesAt(c: SsaFunc, m: Machine, mem: Mem, d: Reg, r: Reg, n: nat, s: State)
    requires c.IsMade(d) && Copies(c, m, mem, d, r) && c.Reached(m, mem, n, c.sites[d].0, c.sites[d].1, s)
    ensures Plain(c.Maker(d)) && r in s.env && Computed(m, c.Maker(d), s) == Some(s.env[r])
  {
    hide SsaFunc.Reached, Computed;
  }

  lemma ComputedNext(m: Machine, w: Instr, s: State)
    requires Plain(w) && Computed(m, w, s).Some?
    ensures Exec(m, w, s).Next?
  {
    hide Exec;
  }

  ghost predicate ValuesAlike(m: Machine, m': Machine, sub: Sub, s: State, t: State, v: Value) {
    Num(m', t.env, SubVal(sub, v)) == Num(m, s.env, v) && Ptr(m', t.env, SubVal(sub, v)) == Ptr(m, s.env, v)
  }

  /** The effect of an instruction on equal operands. */
  lemma ExecAlike(m: Machine, m': Machine, sub: Sub, w: Instr, s: State, t: State)
    requires m'.frame == m.frame && t.mem == s.mem && t.out == s.out
    requires forall v {:trigger ValuesAlike(m, m', sub, s, t, v)} :: ValueRegs(v) <= Operands(w) ==> ValuesAlike(m, m', sub, s, t, v)
    requires w.Call? ==> EvalAll(m', t.env, SubAll(sub, w.args)) == EvalAll(m, s.env, w.args) && (EvalAll(m, s.env, w.args).Some? ==>
               m'.callees(w.callee, EvalAll(m, s.env, w.args).value, s.mem, s.out) == m.callees(w.callee, EvalAll(m, s.env, w.args).value, s.mem, s.out))
    ensures var r, r' := Exec(m, w, s), Exec(m', SubInstr(sub, w), t);
      if r.Halt? then r' == r
      else if w.Store? then r.s == s.(mem := r.s.mem) && r' == Next(t.(mem := r.s.mem))
      else w.d in r.s.env && r.s.env == s.env[w.d := r.s.env[w.d]] && r' == Next(State(t.env[w.d := r.s.env[w.d]], r.s.mem, r.s.out))
  {
    hide Arith, Test, Num, Ptr, SubVal, Eval, EvalAll, SubAll;
    match w
    case Alloca(_) =>
    case Gep(_, a, b) => assert ValuesAlike(m, m', sub, s, t, a) && ValuesAlike(m, m', sub, s, t, b);
    case Load(_, a) => assert ValuesAlike(m, m', sub, s, t, a);
    case Store(a, b) => assert ValuesAlike(m, m', sub, s, t, a) && ValuesAlike(m, m', sub, s, t, b);
    case Binary(_, _, a, b) => assert ValuesAlike(m, m', sub, s, t, a) && ValuesAlike(m, m', sub, s, t, b);
    case Compare(_, _, a, b) => assert ValuesAlike(m, m', sub, s, t, a) && ValuesAlike(m, m', sub, s, t, b);
    case Zext(_, a) => assert ValuesAlike(m, m', sub, s, t, a);
    case Call(_, _, _) =>
  }

  /** Any other does the same with its operands replaced. */
  lemma KeptStep(c: SsaFunc, arrays: set<nat>, m: Machine, m': Machine, mem: Mem, sub: Sub, n: nat, b: Block, i: nat, s: State, t: State)
    requires Both(c, arrays, m, m', mem, sub) && c.Reached(m, mem, n, b, i, s) && Alike(c, sub, b, i, s, t)
    requires b < |c.f| && i < |c.f[b].body| && (c.f[b].body[i].Store? || c.f[b].body[i].d !in sub)
    ensures var r, r' := Exec(m, c.f[b].body[i], s), Exec(m', SubInstr(sub, c.f[b].body[i]), t);
      if r.Next? then r'.Next? && Alike(c, sub, b, i + 1, r.s, r'.s) else r' == r
  {
    hide Both, SsaFunc.Valid, SsaFunc.Reached, SsaFunc.Available, Exec, SubInstr, EvalAll, SubAll, Alike;
    BothParts(c, arrays, m, m', mem, sub);
    AlikeOut(c, sub, b, i, s, t);
    var w := c.f[b].body[i];
    OperandsAt(c, b, i);
    forall v | ValueRegs(v) <= Operands(w)
      ensures ValuesAlike(m, m', sub, s, t, v)
    {
      FewerAvailable(c, Operands(w), ValueRegs(v), b, i);
      EvalAlike(c, arrays, m, m', mem, sub, n, b, i, s, t, v);
    }
    if w.Call? {
      EvalAllAlike(c, arrays, m, m', mem, sub, n, b, i, s, t, w.args);
      CallAgrees(c, arrays, m, m', mem, sub, n, b, i, s);
    }
    ExecAlike(m, m', sub, w, s, t);
    var r := Exec(m, w, s);
    if r.Next? && !w.Store? {
      DefinedAlike(c, sub, b, i, s, t, r.s.env[w.d], r.s.mem, r.s.out);
    } else if r.Next? {
      StoredAlike(c, sub, b, i, s, t, r.s.mem);
    }
  }

  lemma BothParts(c: SsaFunc, arrays: set<nat>, m: Machine, m': Machine, mem: Mem, sub: Sub)
    requires Both(c, arrays, m, m', mem, sub)
    ensures c.Valid() && m'.frame == m.frame && m'.args == m.args && SubOk(c, m, mem, sub, |c.f|, 0)
  {
    hide SsaFunc.Valid, SubOk;
  }

  lemma OperandsAt(c: SsaFunc, b: Block, i: nat)
    requires c.Valid() && b < |c.f| && i < |c.f[b].body|
    ensures c.Available(Operands(c.f[b].body[i]), b, i)
  {
    hide SsaFunc.Available, SsaFunc.Edges;
    assert c.InstrOk(b, i);
  }

  lemma CallAgrees(c: SsaFunc, arrays: set<nat>, m: Machine, m': Machine, mem: Mem, sub: Sub, n: nat, b: Block, i: nat, s: State)
    requires Both(c, arrays, m, m', mem, sub) && c.Reached(m, mem, n, b, i, s)
    requires b < |c.f| && i < |c.f[b].body| && c.f[b].body[i].Call?
    ensures var w := c.f[b].body[i];
      var a := EvalAll(m, s.env, w.args);
      a.Some? ==> m'.callees(w.callee, a.value, s.mem, s.out) == m.callees(w.callee, a.value, s.mem, s.out)
  {
    hide SsaFunc.Reached, SsaFunc.Valid, AllForeign, EnvForeign, ArrayOnly, EvalAll, PointersOk, SubOk;
    var w := c.f[b].body[i];
    ReachedForeign(c, arrays, m, mem, n, b, i, s);
    assert PassesOn(c.f, arrays) && c.f[b].body[i].Call?;
    if EvalAll(m, s.env, w.args).Some? {
      AllEvalForeign(m, arrays, s.env, w.args);
    }
  }

  lemma DefinedAlike(c: SsaFunc, sub: Sub, b: Block, i: nat, s: State, t: State, x: Datum, mem: Mem, out: seq<int>)
    requires c.Valid() && Alike(c, sub, b, i, s, t) && b < |c.f| && i < |c.f[b].body| && !c.f[b].body[i].Store?
    ensures var d := c.f[b].body[i].d; Alike(c, sub, b, i + 1, State(s.env[d := x], mem, out), State(t.env[d := x], mem, out))
  {
    hide SsaFunc.Valid, Dom, StrictDom;
    c.MadeIs(b, i);
    var d := c.f[b].body[i].d;
    forall y | c.Before(y, b, i + 1) && y !in sub
      ensures SameReg(s.env[d := x], t.env[d := x], y)
    {
      if y != d {
        OtherSite(c, b, i, y);
        assert SameReg(s.env, t.env, y);
      }
    }
  }

  lemma OtherSite(c: SsaFunc, b: Block, i: nat, y: Reg)
    requires c.Valid() && b < |c.f| && i < |c.f[b].body| && c.Before(y, b, i + 1) && (c.f[b].body[i].Store? || y != c.f[b].body[i].d)
    ensures c.Before(y, b, i)
  {
    hide Dom, StrictDom;
    assert c.SiteOk(y);
  }

  lemma StoredAlike(c: SsaFunc, sub: Sub, b: Block, i: nat, s: State, t: State, mem: Mem)
    requires c.Valid() && Alike(c, sub, b, i, s, t) && b < |c.f| && i < |c.f[b].body| && c.f[b].body[i].Store?
    ensures Alike(c, sub, b, i + 1, s.(mem := mem), t.(mem := mem))
  {
    hide SsaFunc.Valid, SsaFunc.Before;
    forall y | c.Before(y, b, i + 1) && y !in sub
      ensures SameReg(s.env, t.env, y)
    {
      OtherSite(c, b, i, y);
    }
  }

  // ---------------------------------------------------------------- one block

  lemma {:induction false} BodyAlike(c: SsaFunc, arrays: set<nat>, m: Machine, m': Machine, mem: Mem, sub: Sub, n: nat, b: Block, i: nat, s: State, t: State)
    requires Both(c, arrays, m, m', mem, sub) && c.Visit(m, mem, n) == Some((b, s)) && b < |c.f| && Alike(c, sub, b, 0, s, t) && i <= |c.f[b].body|
    ensures var r, r' := ExecBody(m, c.f[b].body[..i], s), ExecBody(m', SubBody(sub, Keep(sub.Keys, c.f[b].body[..i])), t);
      if r.Next? then r'.Next? && Alike(c, sub, b, i, r.s, r'.s) else r' == r
  {
    hide Both, SsaFunc.Visit, Exec, Alike, SubInstr, SsaFunc.Before;
    var body := c.f[b].body;
    if i == 0 {
      assert body[..0] == [] && SubBody(sub, []) == [];
    } else {
      var w := body[i - 1];
      BodyAlike(c, arrays, m, m', mem, sub, n, b, i - 1, s, t);
      assert body[..i] == body[..i - 1] + [w] && body[..i][..i - 1] == body[..i - 1];
      ExecSnoc(m, body[..i - 1], w, s);
      var r := ExecBody(m, body[..i - 1], s);
      var kept := Keep(sub.Keys, body[..i - 1]);
      var gone := !w.Store? && w.d in sub;
      if !gone {
        assert SubBody(sub, kept + [w]) == SubBody(sub, kept) + [SubInstr(sub, w)];
        ExecSnoc(m', SubBody(sub, kept), SubInstr(sub, w), t);
      } else {
        assert kept + [] == kept;
      }
      if r.Next? {
        var r' := ExecBody(m', SubBody(sub, kept), t);
        assert c.Reached(m, mem, n, b, i - 1, r.s);
        if gone {
          GoneStep(c, arrays, m, m', mem, sub, n, b, i - 1, r.s, r'.s);
        } else {
          KeptStep(c, arrays, m, m', mem, sub, n, b, i - 1, r.s, r'.s);
        }
      }
    }
  }

  // ---------------------------------------------------------------- edges

  lemma {:induction false} IncomingAlike(m: Machine, m': Machine, sub: Sub, s: Env, t: Env, pairs: seq<(Value, Block)>, p: Block)
    requires forall j {:trigger pairs[j]} :: 0 <= j < |pairs| && pairs[j].1 == p ==> Eval(m', t, SubVal(sub, pairs[j].0)) == Eval(m, s, pairs[j].0)
    ensures Incoming(m', t, SubPairs(sub, pairs), p) == Incoming(m, s, pairs, p)
  {
    hide Eval, SubVal;
    if pairs != [] {
      assert pairs[0] == pairs[0] && SubPairs(sub, pairs)[0] == (SubVal(sub, pairs[0].0), pairs[0].1);
      assert SubPairs(sub, pairs)[1..] == SubPairs(sub, pairs[1..]);
      assert forall j {:trigger pairs[1..][j]} :: 0 <= j < |pairs[1..]| ==> pairs[1..][j] == pairs[j + 1];
      IncomingAlike(m, m', sub, s, t, pairs[1..], p);
    }
  }

  /** The pairs of a phi give the same. */
  ghost predicate PhiAlike(m: Machine, m': Machine, sub: Sub, s: Env, t: Env, phi: Phi, p: Block) {
    Incoming(m', t, SubPairs(sub, phi.pairs), p) == Incoming(m, s, phi.pairs, p)
  }

  lemma {:induction false} EnterAlike(m: Machine, m': Machine, sub: Sub, s: Env, t: Env, phis: seq<Phi>, p: Block, env: Env, env': Env, x: Reg)
    requires forall k {:trigger phis[k]} :: 0 <= k < |phis| ==> PhiAlike(m, m', sub, s, t, phis[k], p)
    requires SameReg(env, env', x) || IsDest(phis, x)
    ensures SameReg(EnterPhis(m, s, phis, p, env), EnterPhis(m', t, SubPhis(sub, phis), p, env'), x)
  {
    hide Incoming, SubPairs;
    if phis != [] {
      var phi, v := phis[0], Incoming(m, s, phis[0].pairs, p);
      assert PhiAlike(m, m', sub, s, t, phi, p);
      assert SubPhis(sub, phis)[0] == SubPhi(sub, phi) && SubPhis(sub, phis)[1..] == SubPhis(sub, phis[1..]);
      var next := if v.None? then env - {phi.dest} else env[phi.dest := v.value];
      var next' := if v.None? then env' - {phi.dest} else env'[phi.dest := v.value];
      assert forall k {:trigger phis[1..][k]} :: 0 <= k < |phis[1..]| ==> phis[1..][k] == phis[k + 1];
      if !SameReg(next, next', x) {
        var k :| 0 <= k < |phis| && phis[k].dest == x;
        assert phis[1..][k - 1].dest == x;
      }
      EnterAlike(m, m', sub, s, t, phis[1..], p, next, next', x);
    }
  }

  lemma EdgeAlike(c: SsaFunc, arrays: set<nat>, m: Machine, m': Machine, mem: Mem, sub: Sub, n: nat, p: Block, d: Block, s: State, t: State)
    requires Both(c, arrays, m, m', mem, sub) && p < |c.f| && d < |c.f| && d in c.g.succs[p]
    requires c.Reached(m, mem, n, p, |c.f[p].body|, s) && Alike(c, sub, p, |c.f[p].body|, s, t)
    ensures Alike(c, sub, d, 0, Entered(m, c.f[d].phis, p, s), Entered(m', SubPhis(sub, c.f[d].phis), p, t))
  {
    hide Both, SsaFunc.Valid, SsaFunc.Reached, SsaFunc.Available, EnterPhis, Dom, StrictDom, SubPhis, PhiAlike, SameReg, IsDest;
    BothParts(c, arrays, m, m', mem, sub);
    forall k | 0 <= k < |c.f[d].phis|
      ensures PhiAlike(m, m', sub, s.env, t.env, c.f[d].phis[k], p)
    {
      PhiAt(c, arrays, m, m', mem, sub, n, p, d, s, t, k);
    }
    forall x | c.Before(x, d, 0) && x !in sub
      ensures SameReg(Entered(m, c.f[d].phis, p, s).env, Entered(m', SubPhis(sub, c.f[d].phis), p, t).env, x)
    {
      if !IsDest(c.f[d].phis, x) {
        AboveOrPhi(c, p, d, x);
        assert SameReg(s.env, t.env, x);
      }
      EnterAlike(m, m', sub, s.env, t.env, c.f[d].phis, p, s.env, t.env, x);
    }
  }

  lemma AboveOrPhi(c: SsaFunc, p: Block, d: Block, x: Reg)
    requires c.Valid() && p < |c.f| && d < |c.f| && d in c.g.succs[p] && c.Before(x, d, 0) && !IsDest(c.f[d].phis, x)
    ensures c.Before(x, p, |c.f[p].body|)
  {
    hide Dom, Reachable;
    assert c.SiteOk(x);
    if StrictDom(c.g, c.sites[x].0, d) {
      c.BeforeEdge(x, p, d);
    } else {
      PhiSites(c, d, x);
    }
  }

  lemma PhiSites(c: SsaFunc, d: Block, x: Reg)
    requires c.Valid() && d < |c.f| && x in c.sites && c.sites[x] == (d, -1)
    ensures IsDest(c.f[d].phis, x)
  {
    hide Dom, SsaFunc.Edges;
    assert c.SiteOk(x);
  }

  lemma PhiAt(c: SsaFunc, arrays: set<nat>, m: Machine, m': Machine, mem: Mem, sub: Sub, n: nat, p: Block, d: Block, s: State, t: State, k: nat)
    requires Both(c, arrays, m, m', mem, sub) && p < |c.f| && d < |c.f| && k < |c.f[d].phis|
    requires c.Reached(m, mem, n, p, |c.f[p].body|, s) && Alike(c, sub, p, |c.f[p].body|, s, t)
    ensures PhiAlike(m, m', sub, s.env, t.env, c.f[d].phis[k], p)
  {
    hide Both, SsaFunc.Edges, SsaFunc.Reached, SsaFunc.Available, Alike, SubVal, Eval;
    BothParts(c, arrays, m, m', mem, sub);
    assert c.PhiOk(d, k);
    var pairs := c.f[d].phis[k].pairs;
    forall j | 0 <= j < |pairs| && pairs[j].1 == p
      ensures Eval(m', t.env, SubVal(sub, pairs[j].0)) == Eval(m, s.env, pairs[j].0)
    {
      EvalAlike(c, arrays, m, m', mem, sub, n, p, |c.f[p].body|, s, t, pairs[j].0);
    }
    IncomingAlike(m, m', sub, s.env, t.env, pairs, p);
  }

  // ---------------------------------------------------------------- runs

  lemma TermAlike(c: SsaFunc, arrays: set<nat>, m: Machine, m': Machine, mem: Mem, sub: Sub, n: nat, b: Block, s: State, t: State)
    requires Both(c, arrays, m, m', mem, sub) && b < |c.f| && c.Reached(m, mem, n, b, |c.f[b].body|, s) && Alike(c, sub, b, |c.f[b].body|, s, t)
    ensures ExecTerm(m', SubTerm(sub, c.f[b].term), t) == ExecTerm(m, c.f[b].term, s)
  {
    hide Both, SsaFunc.Edges, SsaFunc.Reached, SsaFunc.Available, SubVal, Num, Eval, SsaFunc.Before;
    BothParts(c, arrays, m, m', mem, sub);
    assert c.TermOk(b);
    forall v | v in TermUses(c.f[b].term)
      ensures Num(m', t.env, SubVal(sub, v)) == Num(m, s.env, v)
    {
      FewerAvailable(c, ListRegs(TermUses(c.f[b].term)), ValueRegs(v), b, |c.f[b].body|);
      EvalAlike(c, arrays, m, m', mem, sub, n, b, |c.f[b].body|, s, t, v);
    }
    match c.f[b].term
    case Br(_) =>
    case CondBr(v, _, _) => assert v in TermUses(c.f[b].term);
    case Ret(v) => assert v in TermUses(c.f[b].term);
    case RetVoid =>
  }

  lemma {:induction false} RunsAlike(c: SsaFunc, arrays: set<nat>, m: Machine, m': Machine, mem: Mem, sub: Sub, f': Func, n: nat, b: Block, s: State, t: State, k: nat)
    requires Both(c, arrays, m, m', mem, sub) && Rewritten(c.f, sub, f') && c.Visit(m, mem, n) == Some((b, s)) && Alike(c, sub, b, 0, s, t) && b < |c.f|
    ensures RunFrom(m', f', b, t, k) == RunFrom(m, c.f, b, s, k)
    decreases k
  {
    hide Both, SsaFunc.Visit, Exec, Alike, EnterPhis, SubInstr, SubVal, SubPhi, Keep, ExecTerm, SubTerm, SubPhis, SubBody;
    AlikeOut(c, sub, b, 0, s, t);
    if k > 0 {
      var body := c.f[b].body;
      assert f'[b] == SubBlock(sub.Keys, sub, c.f[b]);
      BodyAlike(c, arrays, m, m', mem, sub, n, b, |body|, s, t);
      assert body[..|body|] == body;
      var r := ExecBody(m, body, s);
      if r.Next? {
        var r' := ExecBody(m', SubBody(sub, Keep(sub.Keys, body)), t);
        assert c.Reached(m, mem, n, b, |body|, r.s);
        TermAlike(c, arrays, m, m', mem, sub, n, b, r.s, r'.s);
        AlikeOut(c, sub, b, |body|, r.s, r'.s);
        match ExecTerm(m, c.f[b].term, r.s)
        case Done(_) =>
        case Goto(d) =>
          if d < |c.f| {
            assert f'[d] == SubBlock(sub.Keys, sub, c.f[d]);
            GoesTo(c, arrays, m, m', mem, sub, b, d, r.s);
            EdgeAlike(c, arrays, m, m', mem, sub, n, b, d, r.s, r'.s);
            VisitOn(c, m, mem, n, b, s, r.s, d);
            RunsAlike(c, arrays, m, m', mem, sub, f', n + 1, d, Entered(m, c.f[d].phis, b, r.s), Entered(m', f'[d].phis, b, r'.s), k - 1);
          }
      }
    }
  }

  lemma AlikeOut(c: SsaFunc, sub: Sub, b: Block, i: int, s: State, t: State)
    requires Alike(c, sub, b, i, s, t)
    ensures t.mem == s.mem && t.out == s.out
  {
  }

  lemma GoesTo(c: SsaFunc, arrays: set<nat>, m: Machine, m': Machine, mem: Mem, sub: Sub, b: Block, d: Block, s: State)
    requires Both(c, arrays, m, m', mem, sub) && b < |c.f| && ExecTerm(m, c.f[b].term, s) == Goto(d)
    ensures b < |c.g.succs| && d in c.g.succs[b]
  {
    hide SubOk, Agree, PassesOn, AllForeign, PointersOk, Reachable, StrictDom;
    var t := c.f[b].term;
    if t.Br? {
      assert Targets(t)[0] == d;
    } else {
      assert Targets(t)[0] == d || Targets(t)[1] == d;
    }
  }

  lemma VisitOn(c: SsaFunc, m: Machine, mem: Mem, n: nat, b: Block, s: State, s1: State, d: Block)
    requires c.Visit(m, mem, n) == Some((b, s)) && b < |c.f| && ExecBody(m, c.f[b].body, s) == Next(s1) && ExecTerm(m, c.f[b].term, s1) == Goto(d) && d < |c.f|
    ensures c.Visit(m, mem, n + 1) == Some((d, Entered(m, c.f[d].phis, b, s1)))
  {
    hide Exec, ExecTerm, EnterPhis;
  }

  /** The pass preserves every run: for any arguments and memory, after any number of
      blocks, on any machine whose called functions answer alike. */
  lemma PassPreservesRuns(c: SsaFunc, arrays: set<nat>, impure: set<nat>, m: Machine, m': Machine, f': Func, mem: Mem, k: nat)
    requires Ready(c, arrays, m, impure) && PassesOn(c.f, arrays) && Agree(m, m', arrays) && |c.f| == |c.g.preds| && Finishes(c.g)
    requires Rewritten(c.f, Replaced(c, impure), f')
    ensures Execute(m', f', mem, k) == Execute(m, c.f, mem, k)
  {
    hide FlowsDown, Finishes, CallsQuiet, Agree, PassesOn, AllForeign, SubOk, EndsOk, RunFrom, SsaFunc.Edges;
    var sub := Replaced(c, impure);
    PassIsOk(c, arrays, m, mem, impure, |c.f|);
    EntryIs(c);
    var s := State(map[], mem, []);
    assert c.Visit(m, mem, 0) == Some((ENTRY, s));
    RunsAlike(c, arrays, m, m', mem, sub, f', 0, ENTRY, s, s, k);
  }

  lemma EntryIs(c: SsaFunc)
    requires c.Valid()
    ensures |c.f| > 0
  {
    hide Reachable;
  }
}
