/** Functions in SSA form over pointers and arrays, and what holds in all their runs:
    a result that is available is still what its instruction computes. */
module ArraySsa {
  import opened Arithmetic
  import opened Cfg
  import opened ArrayIr

  /** Where each result is made: block and position, or -1 for a phi. */
  type Sites = map<Reg, (Block, int)>

  /** Instructions whose value depends on their operands only. */
  predicate Pure(w: Instr) { !w.Store? && !w.Call? && !w.Load? }

  predicate Plain(w: Instr) { !w.Store? && !w.Call? }

  /** The value a plain instruction gives its result. */
  function Computed(m: Machine, w: Instr, s: State): Option<Datum>
    requires Plain(w)
  {
    var r := Exec(m, w, s);
    if r.Next? then Some(r.s.env[w.d]) else None
  }

  /** The result holds what its instruction computes. */
  predicate Holds(m: Machine, w: Instr, s: State) { Plain(w) && w.d in s.env && Computed(m, w, s) == Some(s.env[w.d]) }

  predicate SameReg(s: Env, t: Env, r: Reg) { (r in s <==> r in t) && (r in s ==> s[r] == t[r]) }

  ghost predicate SameRegs(s: Env, t: Env, rs: set<Reg>) { forall r {:trigger SameReg(s, t, r)} :: r in rs ==> SameReg(s, t, r) }

  lemma ExecPlain(m: Machine, w: Instr, s: State)
    requires Plain(w)
    ensures Exec(m, w, s).Next? ==> Computed(m, w, s).Some? && Exec(m, w, s).s == s.(env := s.env[w.d := Computed(m, w, s).value])
    ensures Exec(m, w, s).Halt? ==> Computed(m, w, s).None? && Exec(m, w, s).mem == s.mem && Exec(m, w, s).out == s.out
  {
    hide Arith, Test, Num, Ptr;
  }

  lemma EvalSame(m: Machine, m': Machine, s: Env, t: Env, v: Value)
    requires SameRegs(s, t, ValueRegs(v)) && m'.args == m.args
    ensures Eval(m', t, v) == Eval(m, s, v) && Num(m', t, v) == Num(m, s, v) && Ptr(m', t, v) == Ptr(m, s, v)
  {
    if v.Res? {
      assert SameReg(s, t, v.r);
    }
  }

  lemma FewerRegs(s: Env, t: Env, rs: set<Reg>, fewer: set<Reg>)
    requires SameRegs(s, t, rs) && fewer <= rs
    ensures SameRegs(s, t, fewer)
  {
  }

  /** Plain instructions look at their operands, and loads at memory. */
  lemma ComputedSame(m: Machine, w: Instr, s: State, t: State)
    requires Plain(w) && SameRegs(s.env, t.env, Operands(w)) && (w.Load? ==> s.mem == t.mem)
    ensures Computed(m, w, t) == Computed(m, w, s)
  {
    hide Arith, Test, Eval, Num, Ptr, SameRegs;
    match w
    case Alloca(_) =>
    case Gep(_, a, b) =>
      FewerRegs(s.env, t.env, Operands(w), ValueRegs(a));
      FewerRegs(s.env, t.env, Operands(w), ValueRegs(b));
      EvalSame(m, m, s.env, t.env, a);
      EvalSame(m, m, s.env, t.env, b);
    case Load(_, a) => EvalSame(m, m, s.env, t.env, a);
    case Binary(_, _, a, b) =>
      FewerRegs(s.env, t.env, Operands(w), ValueRegs(a));
      FewerRegs(s.env, t.env, Operands(w), ValueRegs(b));
      EvalSame(m, m, s.env, t.env, a);
      EvalSame(m, m, s.env, t.env, b);
    case Compare(_, _, a, b) =>
      FewerRegs(s.env, t.env, Operands(w), ValueRegs(a));
      FewerRegs(s.env, t.env, Operands(w), ValueRegs(b));
      EvalSame(m, m, s.env, t.env, a);
      EvalSame(m, m, s.env, t.env, b);
    case Zext(_, a) => EvalSame(m, m, s.env, t.env, a);
  }

  lemma HoldsSame(m: Machine, w: Instr, s: State, t: State)
    requires Holds(m, w, s) && SameReg(s.env, t.env, w.d) && SameRegs(s.env, t.env, Operands(w)) && (w.Load? ==> s.mem == t.mem)
    ensures Holds(m, w, t)
  {
    hide SameRegs;
    ComputedSame(m, w, s, t);
  }

  // ---------------------------------------------------------------- entering a block

  ghost predicate IsDest(phis: seq<Phi>, r: Reg) { exists k {:trigger phis[k]} :: 0 <= k < |phis| && phis[k].dest == r }

  lemma {:induction false} EnterOther(m: Machine, was: Env, phis: seq<Phi>, b: Block, env: Env, r: Reg)
    requires !IsDest(phis, r)
    ensures SameReg(env, EnterPhis(m, was, phis, b, env), r)
  {
    if phis != [] {
      assert phis[0].dest != r;
      var v := Incoming(m, was, phis[0].pairs, b);
      forall k | 0 <= k < |phis[1..]|
        ensures phis[1..][k].dest != r
      {
        assert phis[1..][k] == phis[k + 1];
      }
      EnterOther(m, was, phis[1..], b, if v.None? then env - {phis[0].dest} else env[phis[0].dest := v.value], r);
    }
  }

  // ---------------------------------------------------------------- the form

  datatype SsaFunc = SsaFunc(g: Graph, f: Func, sites: Sites) {
    /** r is made on every way to position i of block b. */
    ghost predicate Before(r: Reg, b: Block, i: int) {
      r in sites && ((sites[r].0 == b && sites[r].1 < i) || StrictDom(g, sites[r].0, b))
    }

    ghost predicate Available(rs: set<Reg>, b: Block, i: int) { forall r {:trigger Before(r, b, i)} :: r in rs ==> Before(r, b, i) }

    ghost predicate InstrOk(b: Block, i: nat)
      requires b < |f| && i < |f[b].body|
    {
      var w := f[b].body[i];
      (!w.Store? ==> w.d in sites && sites[w.d] == (b, i)) && Available(Operands(w), b, i)
    }

    ghost predicate PhiOk(b: Block, k: nat)
      requires b < |f| && k < |f[b].phis|
    {
      var phi := f[b].phis[k];
      && phi.dest in sites && sites[phi.dest] == (b, -1)
      && forall j {:trigger phi.pairs[j]} :: 0 <= j < |phi.pairs| ==> phi.pairs[j].1 < |f| && Available(ValueRegs(phi.pairs[j].0), phi.pairs[j].1, |f[phi.pairs[j].1].body|)
    }

    ghost predicate TermOk(b: Block)
      requires b < |f|
    {
      Available(ListRegs(TermUses(f[b].term)), b, |f[b].body|)
    }

    /** r is made by an instruction. */
    predicate IsMade(r: Reg) {
      && r in sites && sites[r].0 < |f| && 0 <= sites[r].1 < |f[sites[r].0].body|
      && var w := f[sites[r].0].body[sites[r].1]; !w.Store? && w.d == r
    }

    function Maker(r: Reg): Instr
      requires IsMade(r)
    {
      f[sites[r].0].body[sites[r].1]
    }

    ghost predicate SiteOk(r: Reg) {
      r in sites ==> sites[r].0 < |f| && if sites[r].1 == -1 then IsDest(f[sites[r].0].phis, r) else IsMade(r)
    }

    ghost predicate Edges() {
      g.WellFormed() && |f| == g.Size() && forall b {:trigger f[b]} :: 0 <= b < |f| ==> g.succs[b] == Targets(f[b].term)
    }

    /** Every result is made once, and used only behind that. */
    ghost predicate Valid() {
      && Edges()
      && (forall b, i {:trigger InstrOk(b, i)} :: 0 <= b < |f| && 0 <= i < |f[b].body| ==> InstrOk(b, i))
      && (forall b, k {:trigger PhiOk(b, k)} :: 0 <= b < |f| && 0 <= k < |f[b].phis| ==> PhiOk(b, k))
      && (forall b {:trigger TermOk(b)} :: 0 <= b < |f| ==> TermOk(b))
      && (forall r {:trigger SiteOk(r)} :: SiteOk(r))
    }

    lemma BeforeTrans(x: Reg, r: Reg, b: Block, i: int)
      requires Valid() && r in sites && Before(x, sites[r].0, sites[r].1) && Before(r, b, i) && b < |f|
      ensures Before(x, b, i)
    {
      hide Dom;
      assert SiteOk(x) && SiteOk(r);
      var a, c := sites[x].0, sites[r].0;
      if StrictDom(g, a, c) && StrictDom(g, c, b) {
        DomTrans(g, a, c, b);
        if a == b {
          DomAntisym(g, a, c);
        }
      }
    }

    /** What is available is not what the instruction makes. */
    lemma Untouched(x: Reg, b: Block, i: nat)
      requires Valid() && b < |f| && i < |f[b].body| && Before(x, b, i)
      ensures !f[b].body[i].Store? ==> x != f[b].body[i].d
    {
      hide Dom;
      assert InstrOk(b, i);
    }

    /** What an instruction has made is available at its block on the way. */
    lemma BeforeEdge(x: Reg, p: Block, c: Block)
      requires Valid() && p < |f| && c < |f| && c in g.succs[p] && x in sites && StrictDom(g, sites[x].0, c)
      ensures Before(x, p, |f[p].body|) && !IsDest(f[c].phis, x)
    {
      hide Dom, Reachable;
      assert SiteOk(x) && p in g.preds[c];
      DomPred(g, sites[x].0, c, p);
      DestSite(c, x);
    }

    lemma DestSite(c: Block, x: Reg)
      requires Valid() && c < |f|
      ensures IsDest(f[c].phis, x) ==> x in sites && sites[x] == (c, -1)
    {
      hide Dom;
      forall k | 0 <= k < |f[c].phis|
        ensures f[c].phis[k].dest in sites && sites[f[c].phis[k].dest] == (c, -1)
      {
        assert PhiOk(c, k);
      }
    }

    // -------------------------------------------------------------- what holds in a run

    /** Results of instructions are there; pure ones are what they were computed as. */
    ghost predicate Equation(m: Machine, s: State, r: Reg)
      requires IsMade(r)
    {
      r in s.env && (Pure(Maker(r)) ==> Holds(m, Maker(r), s))
    }

    ghost predicate Equations(m: Machine, b: Block, i: nat, s: State) {
      forall r {:trigger IsMade(r)} :: IsMade(r) && Before(r, b, i) ==> Equation(m, s, r)
    }

    lemma MadeIs(b: Block, i: nat)
      requires Valid() && b < |f| && i < |f[b].body| && !f[b].body[i].Store?
      ensures var d := f[b].body[i].d; IsMade(d) && Maker(d) == f[b].body[i] && sites[d] == (b, i)
      ensures Available(Operands(f[b].body[i]), b, i)
    {
      hide Dom;
      assert InstrOk(b, i);
    }

    lemma OperandsBefore(r: Reg, b: Block, i: int)
      requires Valid() && IsMade(r) && Before(r, b, i) && b < |f|
      ensures Available(Operands(Maker(r)), b, i)
    {
      hide Dom, StrictDom, Before;
      MadeIs(sites[r].0, sites[r].1);
      forall x | x in Operands(Maker(r))
        ensures Before(x, b, i)
      {
        assert Before(x, sites[r].0, sites[r].1);
        BeforeTrans(x, r, b, i);
      }
    }

    lemma ExecOther(m: Machine, b: Block, i: nat, s: State, x: Reg)
      requires Valid() && b < |f| && i < |f[b].body| && Exec(m, f[b].body[i], s).Next? && Before(x, b, i)
      ensures SameReg(s.env, Exec(m, f[b].body[i], s).s.env, x)
    {
      hide Dom, StrictDom, Before, Arith, Test, Num, Ptr;
      Untouched(x, b, i);
      var w := f[b].body[i];
      if Plain(w) {
        ExecPlain(m, w, s);
      }
    }

    /** Nothing that is available changes. */
    lemma ExecOthers(m: Machine, b: Block, i: nat, s: State, rs: set<Reg>)
      requires Valid() && b < |f| && i < |f[b].body| && Exec(m, f[b].body[i], s).Next? && Available(rs, b, i)
      ensures SameRegs(s.env, Exec(m, f[b].body[i], s).s.env, rs)
    {
      hide Before, Exec, SameReg;
      forall r | r in rs
        ensures SameReg(s.env, Exec(m, f[b].body[i], s).s.env, r)
      {
        assert Before(r, b, i);
        ExecOther(m, b, i, s, r);
      }
    }

    lemma ExecEquations(m: Machine, b: Block, i: nat, s: State)
      requires Valid() && b < |f| && i < |f[b].body| && Exec(m, f[b].body[i], s).Next? && Equations(m, b, i, s)
      ensures Equations(m, b, i + 1, Exec(m, f[b].body[i], s).s)
    {
      hide Dom, StrictDom, Exec, SameRegs, Available, Holds, Computed;
      var w, s' := f[b].body[i], Exec(m, f[b].body[i], s).s;
      forall r | IsMade(r) && Before(r, b, i + 1)
        ensures Equation(m, s', r)
      {
        if sites[r] == (b, i) {
          MadeIs(b, i);
          MadeEquation(m, b, i, s);
        } else {
          assert Before(r, b, i);
          ExecOther(m, b, i, s, r);
          OperandsBefore(r, b, i);
          ExecOthers(m, b, i, s, Operands(Maker(r)));
          if Pure(Maker(r)) {
            HoldsSame(m, Maker(r), s, s');
          }
        }
      }
    }

    lemma MadeEquation(m: Machine, b: Block, i: nat, s: State)
      requires Valid() && b < |f| && i < |f[b].body| && Exec(m, f[b].body[i], s).Next? && !f[b].body[i].Store?
      ensures IsMade(f[b].body[i].d) && Equation(m, Exec(m, f[b].body[i], s).s, f[b].body[i].d)
    {
      hide Dom, StrictDom, Before, Arith, Test, Num, Ptr, SameRegs, Available, Computed, Eval, EvalAll;
      var w, s' := f[b].body[i], Exec(m, f[b].body[i], s).s;
      MadeIs(b, i);
      if Pure(w) {
        ExecPlain(m, w, s);
        ExecOthers(m, b, i, s, Operands(w));
        ComputedSame(m, w, s, s');
      }
    }

    /** Made strictly above c. */
    ghost predicate Above(rs: set<Reg>, c: Block) { forall r {:trigger r in rs} :: r in rs ==> r in sites && StrictDom(g, sites[r].0, c) }

    lemma EnterOthers(m: Machine, p: Block, c: Block, s: State, rs: set<Reg>)
      requires Valid() && p < |f| && c < |f| && c in g.succs[p] && Above(rs, c)
      ensures SameRegs(s.env, Entered(m, f[c].phis, p, s).env, rs) && Available(rs, p, |f[p].body|)
    {
      hide Dom, StrictDom, EnterPhis, SameReg, IsDest;
      forall r | r in rs
        ensures SameReg(s.env, Entered(m, f[c].phis, p, s).env, r) && Before(r, p, |f[p].body|)
      {
        BeforeEdge(r, p, c);
        EnterOther(m, s.env, f[c].phis, p, s.env, r);
      }
    }

    /** What an instruction has made above a block, and what that needed. */
    lemma MadeAbove(r: Reg, c: Block)
      requires Valid() && IsMade(r) && Before(r, c, 0) && c < |f|
      ensures StrictDom(g, sites[r].0, c) && Above({r}, c) && Above(Operands(Maker(r)), c)
    {
      hide Dom;
      forall x | x in Operands(Maker(r))
        ensures x in sites && StrictDom(g, sites[x].0, c)
      {
        MadeIs(sites[r].0, sites[r].1);
        assert Before(x, sites[r].0, sites[r].1);
        OperandsBefore(r, c, 0);
        assert Before(x, c, 0);
        if !StrictDom(g, sites[x].0, c) {
          assert sites[x].0 == c;
          DomAntisym(g, c, sites[r].0);
        }
      }
    }

    lemma EdgeEquations(m: Machine, p: Block, c: Block, s: State)
      requires Valid() && p < |f| && c < |f| && c in g.succs[p] && Equations(m, p, |f[p].body|, s)
      ensures Equations(m, c, 0, Entered(m, f[c].phis, p, s))
    {
      hide Dom, StrictDom, EnterPhis, SameRegs, Holds, Before, Available;
      var s' := Entered(m, f[c].phis, p, s);
      forall r | IsMade(r) && Before(r, c, 0)
        ensures Equation(m, s', r)
      {
        MadeAbove(r, c);
        EnterOthers(m, p, c, s, {r});
        EnterOthers(m, p, c, s, Operands(Maker(r)));
        OneReg(s.env, s'.env, r);
        assert Before(r, p, |f[p].body|) by {
          OneAvailable(r, p, |f[p].body|);
        }
        assert Equation(m, s, r);
        if Pure(Maker(r)) {
          HoldsSame(m, Maker(r), s, s');
        }
      }
    }

    lemma OneAvailable(r: Reg, b: Block, i: int)
      ensures Available({r}, b, i) <==> Before(r, b, i)
    {
      hide Before;
    }

    // -------------------------------------------------------------- the states of a run

    /** The block a run comes to after n blocks, and the state behind its phis. */
    function Visit(m: Machine, mem: Mem, n: nat): Option<(Block, State)> {
      if n == 0 then (if |f| > 0 then Some((ENTRY, State(map[], mem, []))) else None)
      else
        var v := Visit(m, mem, n - 1);
        if v.None? || v.value.0 >= |f| then None
        else
          var r := ExecBody(m, f[v.value.0].body, v.value.1);
          if r.Halt? then None
          else
            var t := ExecTerm(m, f[v.value.0].term, r.s);
            if t.Done? || t.b >= |f| then None else Some((t.b, Entered(m, f[t.b].phis, v.value.0, r.s)))
    }

    /** In the n-th of its blocks, b, the run comes to position i with s. */
    ghost predicate Reached(m: Machine, mem: Mem, n: nat, b: Block, i: nat, s: State) {
      && b < |f| && i <= |f[b].body| && Visit(m, mem, n).Some? && Visit(m, mem, n).value.0 == b
      && ExecBody(m, f[b].body[..i], Visit(m, mem, n).value.1) == Next(s)
    }

    lemma ReachedBounds(m: Machine, mem: Mem, n: nat, b: Block, i: nat, s: State)
      requires Reached(m, mem, n, b, i, s)
      ensures b < |f| && i <= |f[b].body|
    {
      hide Visit;
    }

    lemma ReachedStart(m: Machine, mem: Mem, n: nat, b: Block, s: State)
      requires b < |f|
      ensures Reached(m, mem, n, b, 0, s) <==> Visit(m, mem, n) == Some((b, s))
    {
      hide Visit, ExecTerm, Exec;
      assert f[b].body[..0] == [];
    }

    /** The state in front of the instruction before. */
    lemma ReachedBack(m: Machine, mem: Mem, n: nat, b: Block, i: nat, s': State) returns (s: State)
      requires Reached(m, mem, n, b, i + 1, s')
      ensures Reached(m, mem, n, b, i, s) && Exec(m, f[b].body[i], s) == Next(s')
    {
      hide Visit, Exec;
      var s0 := Visit(m, mem, n).value.1;
      assert f[b].body[..i + 1] == f[b].body[..i] + [f[b].body[i]];
      ExecSnoc(m, f[b].body[..i], f[b].body[i], s0);
      s := ExecBody(m, f[b].body[..i], s0).s;
    }

    /** The end of the block before. */
    lemma VisitBack(m: Machine, mem: Mem, n: nat, c: Block, s': State) returns (p: Block, s: State)
      requires Valid() && Visit(m, mem, n + 1) == Some((c, s'))
      ensures p < |f| && c < |f| && Reached(m, mem, n, p, |f[p].body|, s) && c in g.succs[p] && s' == Entered(m, f[c].phis, p, s)
    {
      hide Exec, EnterPhis, StrictDom;
      var v := Visit(m, mem, n).value;
      p := v.0;
      s := ExecBody(m, f[p].body, v.1).s;
      assert f[p].body[..|f[p].body|] == f[p].body;
      var t := f[p].term;
      if t.Br? {
        assert Targets(t)[0] == c;
      } else {
        assert Targets(t)[0] == c || Targets(t)[1] == c;
      }
    }

    lemma {:induction false} EquationsHold(m: Machine, mem: Mem, n: nat, b: Block, i: nat, s: State)
      requires Valid() && Reached(m, mem, n, b, i, s)
      ensures Equations(m, b, i, s)
      decreases n, i
    {
      hide Visit, Equations, Exec, EnterPhis, Dom;
      if i > 0 {
        var s0 := ReachedBack(m, mem, n, b, i - 1, s);
        EquationsHold(m, mem, n, b, i - 1, s0);
        ExecEquations(m, b, i - 1, s0);
      } else {
        ReachedStart(m, mem, n, b, s);
        if n == 0 {
          EntryEquations(m, mem, b, s);
        } else {
          var p, s0 := VisitBack(m, mem, n - 1, b, s);
          EquationsHold(m, mem, n - 1, p, |f[p].body|, s0);
          EdgeEquations(m, p, b, s0);
        }
      }
    }

    lemma EntryEquations(m: Machine, mem: Mem, b: Block, s: State)
      requires Valid() && Visit(m, mem, 0) == Some((b, s))
      ensures Equations(m, b, 0, s)
    {
      hide Reachable;
      forall r | IsMade(r)
        ensures !Before(r, ENTRY, 0)
      {
        assert IsPath(g, [ENTRY], ENTRY);
      }
    }

    // -------------------------------------------------------------- two results that stay equal

    /** Where d is made, r holds the same. */
    ghost predicate MeetsAt(m: Machine, mem: Mem, d: Reg, r: Reg)
      requires d in sites && 0 <= sites[d].1
    {
      forall n: nat, s {:trigger Reached(m, mem, n, sites[d].0, sites[d].1 + 1, s)} ::
        Reached(m, mem, n, sites[d].0, sites[d].1 + 1, s) ==> d in s.env && r in s.env && s.env[d] == s.env[r]
    }

    /** So it does everywhere behind. */
    lemma {:induction false} MeetsLater(m: Machine, mem: Mem, d: Reg, r: Reg, n: nat, b: Block, i: nat, s: State)
      requires Valid() && IsMade(d) && IsMade(r) && Before(r, sites[d].0, sites[d].1) && MeetsAt(m, mem, d, r)
      requires Reached(m, mem, n, b, i, s) && Before(d, b, i)
      ensures d in s.env && r in s.env && s.env[d] == s.env[r]
      decreases n, i
    {
      hide Visit, Exec, EnterPhis, Dom, StrictDom, Reached, MeetsAt, SameRegs, Above, Available;
      ReachedBounds(m, mem, n, b, i, s);
      if i > 0 && sites[d] == (b, i - 1) {
        MeetsHere(m, mem, d, r, n, s);
      } else if i > 0 {
        var s0 := ReachedBack(m, mem, n, b, i - 1, s);
        assert Before(d, b, i - 1);
        MeetsLater(m, mem, d, r, n, b, i - 1, s0);
        BeforeTrans(r, d, b, i - 1);
        ExecOther(m, b, i - 1, s0, d);
        ExecOther(m, b, i - 1, s0, r);
      } else {
        ReachedStart(m, mem, n, b, s);
        if n == 0 {
          EntryNothing(m, mem, b, s, d);
          assert false;
        } else {
          var p, s0 := VisitBack(m, mem, n - 1, b, s);
          BeforeTrans(r, d, b, 0);
          MadeAbove(d, b);
          MadeAbove(r, b);
          EnterOthers(m, p, b, s0, {d});
          EnterOthers(m, p, b, s0, {r});
          OneAvailable(d, p, |f[p].body|);
          OneAvailable(r, p, |f[p].body|);
          MeetsLater(m, mem, d, r, n - 1, p, |f[p].body|, s0);
          OneReg(s0.env, s.env, d);
          OneReg(s0.env, s.env, r);
        }
      }
    }

    lemma MeetsHere(m: Machine, mem: Mem, d: Reg, r: Reg, n: nat, s: State)
      requires IsMade(d) && MeetsAt(m, mem, d, r) && Reached(m, mem, n, sites[d].0, sites[d].1 + 1, s)
      ensures d in s.env && r in s.env && s.env[d] == s.env[r]
    {
      hide Reached;
    }

    lemma EntryNothing(m: Machine, mem: Mem, b: Block, s: State, d: Reg)
      requires Valid() && IsMade(d) && Visit(m, mem, 0) == Some((b, s))
      ensures !Before(d, b, 0)
    {
      hide Reachable;
      assert IsPath(g, [ENTRY], ENTRY);
    }
  }

  lemma OneReg(s: Env, t: Env, r: Reg)
    requires SameRegs(s, t, {r})
    ensures SameReg(s, t, r)
  {
  }

  lemma {:induction false} ExecSnoc(m: Machine, body: seq<Instr>, w: Instr, s: State)
    ensures var r := ExecBody(m, body, s);
      ExecBody(m, body + [w], s) == if r.Halt? then r else Exec(m, w, r.s)
  {
    hide Exec;
    if body == [] {
      assert [w][1..] == [] && [] + [w] == [w];
    } else {
      var r := Exec(m, body[0], s);
      assert (body + [w])[1..] == body[1..] + [w];
      if r.Next? {
        ExecSnoc(m, body[1..], w, r.s);
      }
    }
  }
}
