/** The promoted function computes what the original does, block by block. */
module SsaMeaning {
  import opened Cfg
  import opened PostOrder
  import opened Arithmetic
  import opened Ir
  import opened Ssa
  import opened SsaValues

  /** Every result that is available has the value of what replaces it. */
  ghost predicate SameResults(c: Promotion, m: Machine, b: Block, i: nat, senv: Env, tenv: Env) {
    forall r {:trigger r in senv} :: r in senv && r in c.sites && Before(c.g, c.sites[r], b, i) ==>
      Eval(m, tenv, Subst(c.ren.sub, Res(r))) == Some(senv[r])
  }

  /** Every slot that has a value has a current definition, and its value. */
  ghost predicate SlotsHeld(m: Machine, cur: Slots, slots: map<nat, int>, tenv: Env) {
    forall x {:trigger x in slots} :: x in slots ==> x in cur && Eval(m, tenv, cur[x]) == Some(slots[x])
  }

  ghost predicate Related(c: Promotion, m: Machine, b: Block, i: nat, s: State, t: State) {
    && c.Valid() && b < |c.f| && b in c.ren.inn && i <= |c.f[b].body|
    && SameResults(c, m, b, i, s.env, t.env)
    && SlotsHeld(m, c.At(b, i), s.slots, t.env)
    && s.mem == t.mem && s.out == t.out
  }

  lemma EvalRelated(c: Promotion, m: Machine, b: Block, i: nat, s: State, t: State, v: Value)
    requires Related(c, m, b, i, s, t) && c.Avail(v, b, i) && !IsPhiResult(v)
    ensures Eval(m, s.env, v).Some? ==> Eval(m, t.env, Subst(c.ren.sub, v)) == Eval(m, s.env, v)
  {
    hide Dom, StrictDom;
    assert v.Res? ==> v.r.Temp?;
  }

  lemma {:induction false} EvalAllRelated(c: Promotion, m: Machine, b: Block, i: nat, s: State, t: State, vs: seq<Value>)
    requires Related(c, m, b, i, s, t)
    requires forall k :: 0 <= k < |vs| ==> c.Avail(vs[k], b, i) && !IsPhiResult(vs[k])
    ensures EvalAll(m, s.env, vs).Some? ==> EvalAll(m, t.env, SubstAll(c.ren.sub, vs)) == EvalAll(m, s.env, vs)
  {
    hide Dom, StrictDom, Related;
    if vs != [] {
      EvalRelated(c, m, b, i, s, t, vs[0]);
      EvalAllRelated(c, m, b, i, s, t, vs[1..]);
      assert SubstAll(c.ren.sub, vs)[1..] == SubstAll(c.ren.sub, vs[1..]);
    }
  }

  /** A result that is not available yet is not read by anything current. */
  lemma NewResult(c: Promotion, m: Machine, b: Block, i: nat, v: Value, tenv: Env, n: int)
    requires c.Valid() && b < |c.f| && i < |c.f[b].body| && c.Avail(v, b, i)
    requires Dest(c.f[b].body[i]).Some?
    ensures Eval(m, tenv[Dest(c.f[b].body[i]).value := n], v) == Eval(m, tenv, v)
  {
    hide Dom, StrictDom;
    assert SiteOf(c.f, c.sites, b, i);
    c.NotStrictSelf(b);
  }

  lemma DefineResults(c: Promotion, m: Machine, b: Block, i: nat, s: State, t: State, n: int)
    requires Related(c, m, b, i, s, t) && i < |c.f[b].body| && !Promoted(c.ren.sub, c.f[b].body[i])
    requires Dest(c.f[b].body[i]).Some?
    ensures var d := Dest(c.f[b].body[i]).value; SameResults(c, m, b, i + 1, s.env[d := n], t.env[d := n])
  {
    hide Dom, StrictDom, Available, Consistent, DomTree, Closed, SlotsHeld;
    var d := Dest(c.f[b].body[i]).value;
    assert SiteOf(c.f, c.sites, b, i);
    forall r | r in s.env[d := n] && r in c.sites && Before(c.g, c.sites[r], b, i + 1)
      ensures Eval(m, t.env[d := n], Subst(c.ren.sub, Res(r))) == Some(s.env[d := n][r])
    {
      if r == d {
        assert d !in c.ren.sub;
      } else {
        assert Before(c.g, c.sites[r], b, i);
        TempAvailable(c, r, b, i);
        c.SubstAvailable(Res(r), b, i);
        NewResult(c, m, b, i, Subst(c.ren.sub, Res(r)), t.env, n);
      }
    }
  }

  /** Defining the same value on both sides. */
  lemma DefineRelated(c: Promotion, m: Machine, b: Block, i: nat, s: State, t: State, n: int)
    requires Related(c, m, b, i, s, t) && i < |c.f[b].body| && !Promoted(c.ren.sub, c.f[b].body[i])
    requires Dest(c.f[b].body[i]).Some?
    ensures var d := Dest(c.f[b].body[i]).value;
      Related(c, m, b, i + 1, s.(env := s.env[d := n]), t.(env := t.env[d := n]))
  {
    hide Dom, StrictDom, Available, Consistent, DomTree, Closed, SameResults, SingleSites;
    var d := Dest(c.f[b].body[i]).value;
    DefineResults(c, m, b, i, s, t, n);
    assert c.At(b, i + 1) == c.At(b, i);
    forall x | x in s.slots
      ensures x in c.At(b, i) && Eval(m, t.env[d := n], c.At(b, i)[x]) == Some(s.slots[x])
    {
      c.CurrentAvailable(b, i, x);
      NewResult(c, m, b, i, c.At(b, i)[x], t.env, n);
    }
  }

  lemma TempAvailable(c: Promotion, r: Reg, b: Block, i: nat)
    requires c.Valid() && r in c.sites && Before(c.g, c.sites[r], b, i)
    ensures c.Avail(Res(r), b, i)
  {
    hide Dom, StrictDom;
    assert SiteOf(c.f, c.sites, c.sites[r].0, c.sites[r].1);
  }

  /** An instruction that computes nothing and touches no slot. */
  lemma SkipRelated(c: Promotion, m: Machine, b: Block, i: nat, s: State, t: State, mem: Memory)
    requires Related(c, m, b, i, s, t) && i < |c.f[b].body|
    requires !Promoted(c.ren.sub, c.f[b].body[i]) && Dest(c.f[b].body[i]).None?
    ensures Related(c, m, b, i + 1, s.(mem := mem), t.(mem := mem))
  {
    hide Dom, StrictDom, Consistent, DomTree, Closed;
    assert c.At(b, i + 1) == c.At(b, i);
    forall r | r in s.env && r in c.sites && Before(c.g, c.sites[r], b, i + 1)
      ensures Eval(m, t.env, Subst(c.ren.sub, Res(r))) == Some(s.env[r])
    {
      assert Dest(c.f[c.sites[r].0].body[c.sites[r].1]) == Some(r);
      assert Before(c.g, c.sites[r], b, i);
    }
  }

  /** How the results of two executions compare: equal unless the original uses
      a value that is undefined. */
  ghost predicate Matches(c: Promotion, m: Machine, b: Block, i: nat, r: Result, r': Result) {
    match r
    case Next(s) => r'.Next? && Related(c, m, b, i, s, r'.s)
    case Halt(why, _, _) => why == Undefined || r' == r
  }

  lemma UsesRelated(c: Promotion, m: Machine, b: Block, i: nat, s: State, t: State)
    requires Related(c, m, b, i, s, t) && i < |c.f[b].body|
    ensures forall k :: 0 <= k < |Uses(c.f[b].body[i])| ==> var v := Uses(c.f[b].body[i])[k];
      Eval(m, s.env, v).Some? ==> Eval(m, t.env, Subst(c.ren.sub, v)) == Eval(m, s.env, v)
  {
    hide Dom, StrictDom, Available, Consistent, DomTree, Closed, SameResults, SlotsHeld, SingleSites, ReplacesLoads;
    assert UsesAvailable(c.g, c.f, c.sites, b, i);
    var w := c.f[b].body[i];
    forall k | 0 <= k < |Uses(w)|
      ensures Eval(m, s.env, Uses(w)[k]).Some? ==>
        Eval(m, t.env, Subst(c.ren.sub, Uses(w)[k])) == Eval(m, s.env, Uses(w)[k])
    {
      EvalRelated(c, m, b, i, s, t, Uses(w)[k]);
    }
  }

  lemma CallRelated(c: Promotion, m: Machine, b: Block, i: nat, s: State, t: State)
    requires Related(c, m, b, i, s, t) && i < |c.f[b].body| && c.f[b].body[i].Call?
    ensures var vs := c.f[b].body[i].args;
      EvalAll(m, s.env, vs).Some? ==> EvalAll(m, t.env, SubstAll(c.ren.sub, vs)) == EvalAll(m, s.env, vs)
  {
    hide Dom, StrictDom, Available, Consistent, DomTree, Closed, SameResults, SlotsHeld, SingleSites, ReplacesLoads;
    assert UsesAvailable(c.g, c.f, c.sites, b, i);
    assert Uses(c.f[b].body[i]) == c.f[b].body[i].args;
    EvalAllRelated(c, m, b, i, s, t, c.f[b].body[i].args);
  }

  lemma KeptStep(c: Promotion, m: Machine, b: Block, i: nat, s: State, t: State)
    requires Related(c, m, b, i, s, t) && i < |c.f[b].body| && !Promoted(c.ren.sub, c.f[b].body[i])
    ensures Matches(c, m, b, i + 1, Exec(m, c.f[b].body[i], s), Exec(m, SubstInstr(c.ren.sub, c.f[b].body[i]), t))
  {
    hide *;
    RelatedBounds(c, m, b, i, s, t);
    PromotedKinds(c.ren.sub, c.f[b].body[i]);
    if LoadsSlot(c.f[b].body[i]) {
      MissingStep(c, m, b, i, s, t);
      MatchesUndefined(c, m, b, i + 1, s, Exec(m, SubstInstr(c.ren.sub, c.f[b].body[i]), t));
    } else {
      match c.f[b].body[i]
      case Alloca(_) => assert false;
      case Store(_, _) => StoreCellStep(c, m, b, i, s, t);
      case Call(_, _, _) => CallStep(c, m, b, i, s, t);
      case _ => ComputeStep(c, m, b, i, s, t);
    }
  }

  lemma PromotedKinds(sub: map<Reg, Value>, w: Instr)
    ensures w.Alloca? ==> Promoted(sub, w)
    ensures LoadsSlot(w) ==> w.Load? && (Promoted(sub, w) <==> w.dest in sub)
  {
  }

  lemma MatchesUndefined(c: Promotion, m: Machine, b: Block, i: nat, s: State, r: Result)
    ensures Matches(c, m, b, i, Stop(Undefined, s), r)
  {
  }

  /** A load that stays finds no value in its slot. */
  lemma MissingStep(c: Promotion, m: Machine, b: Block, i: nat, s: State, t: State)
    requires Related(c, m, b, i, s, t) && i < |c.f[b].body| && LoadsSlot(c.f[b].body[i]) && c.f[b].body[i].dest !in c.ren.sub
    ensures Exec(m, c.f[b].body[i], s) == Stop(Undefined, s)
  {
    hide Dom, StrictDom, DomTree, Closed, SourceForm;
    assert BlockConsistent(c.f, c.idom, c.place, c.ren, b);
    assert LoadResolved(c.f[b].body, c.ren.inn[b], c.ren.sub, i);
  }

  lemma ComputeStep(c: Promotion, m: Machine, b: Block, i: nat, s: State, t: State)
    requires Related(c, m, b, i, s, t) && i < |c.f[b].body| && !Promoted(c.ren.sub, c.f[b].body[i]) && !LoadsSlot(c.f[b].body[i])
    requires var w := c.f[b].body[i]; w.Load? || w.Binary? || w.Compare? || w.Zext?
    ensures Matches(c, m, b, i + 1, Exec(m, c.f[b].body[i], s), Exec(m, SubstInstr(c.ren.sub, c.f[b].body[i]), t))
  {
    hide Related, Available, Arith, Test;
    RelatedBounds(c, m, b, i, s, t);
    UsesRelated(c, m, b, i, s, t);
    var w := c.f[b].body[i];
    var us := Uses(w);
    assert w.Load? ==> us[0] == w.ptr.index;
    assert w.Binary? || w.Compare? ==> us[0] == w.lhs && us[1] == w.rhs;
    assert w.Zext? ==> us[0] == w.val;
    var r := Exec(m, w, s);
    if r.Next? {
      DefineRelated(c, m, b, i, s, t, r.s.env[w.dest]);
    }
  }

  lemma StoreCellStep(c: Promotion, m: Machine, b: Block, i: nat, s: State, t: State)
    requires Related(c, m, b, i, s, t) && i < |c.f[b].body| && !Promoted(c.ren.sub, c.f[b].body[i]) && c.f[b].body[i].Store?
    ensures Matches(c, m, b, i + 1, Exec(m, c.f[b].body[i], s), Exec(m, SubstInstr(c.ren.sub, c.f[b].body[i]), t))
  {
    hide Related, Available;
    RelatedBounds(c, m, b, i, s, t);
    UsesRelated(c, m, b, i, s, t);
    var w := c.f[b].body[i];
    assert Uses(w)[0] == w.val && Uses(w)[1] == w.ptr.index;
    var r := Exec(m, w, s);
    if r.Next? {
      SkipRelated(c, m, b, i, s, t, r.s.mem);
    }
  }

  lemma CallStep(c: Promotion, m: Machine, b: Block, i: nat, s: State, t: State)
    requires Related(c, m, b, i, s, t) && i < |c.f[b].body| && c.f[b].body[i].Call?
    ensures Matches(c, m, b, i + 1, Exec(m, c.f[b].body[i], s), Exec(m, SubstInstr(c.ren.sub, c.f[b].body[i]), t))
  {
    hide Related, Available;
    RelatedBounds(c, m, b, i, s, t);
    CallRelated(c, m, b, i, s, t);
    var w := c.f[b].body[i];
    var r := Exec(m, w, s);
    if r.Next? {
      var n := r.s.env[w.dest];
      DefineRelated(c, m, b, i, s, t, n);
      RelatedOutside(c, m, b, i + 1, s.(env := r.s.env), t.(env := t.env[w.dest := n]), r.s.mem, r.s.out);
    }
  }

  lemma RelatedOutside(c: Promotion, m: Machine, b: Block, i: nat, s: State, t: State, mem: Memory, out: seq<int>)
    requires Related(c, m, b, i, s, t)
    ensures Related(c, m, b, i, s.(mem := mem, out := out), t.(mem := mem, out := out))
  {
  }

  /** Results other than that of instruction i are unaffected by it. */
  lemma SameResultsStep(c: Promotion, m: Machine, b: Block, i: nat, senv: Env, senv': Env, tenv: Env)
    requires c.Valid() && b < |c.f| && i < |c.f[b].body|
    requires SameResults(c, m, b, i, senv, tenv)
    requires forall r :: r in senv' && Some(r) != Dest(c.f[b].body[i]) ==> r in senv && senv[r] == senv'[r]
    requires forall r :: r in senv' && Some(r) == Dest(c.f[b].body[i]) ==> Eval(m, tenv, Subst(c.ren.sub, Res(r))) == Some(senv'[r])
    ensures SameResults(c, m, b, i + 1, senv', tenv)
  {
    hide Dom, StrictDom, Available, DomTree, Closed, Consistent;
    forall q | q in senv' && q in c.sites && Before(c.g, c.sites[q], b, i + 1)
      ensures Eval(m, tenv, Subst(c.ren.sub, Res(q))) == Some(senv'[q])
    {
      assert Dest(c.f[c.sites[q].0].body[c.sites[q].1]) == Some(q);
      if Dest(c.f[b].body[i]) != Some(q) {
        assert Before(c.g, c.sites[q], b, i);
      }
    }
  }

  lemma SlotLoadStep(c: Promotion, m: Machine, b: Block, i: nat, s: State, t: State)
    requires Related(c, m, b, i, s, t) && i < |c.f[b].body| && LoadsSlot(c.f[b].body[i]) && c.f[b].body[i].dest in c.ren.sub
    ensures Matches(c, m, b, i + 1, Exec(m, c.f[b].body[i], s), Next(t))
  {
    hide Dom, StrictDom, Available, DomTree, Closed, EdgesOf;
    assert BlockConsistent(c.f, c.idom, c.place, c.ren, b);
    assert LoadResolved(c.f[b].body, c.ren.inn[b], c.ren.sub, i);
    var r := Exec(m, c.f[b].body[i], s);
    if r.Next? {
      SameResultsStep(c, m, b, i, s.env, r.s.env, t.env);
    }
  }

  lemma SlotStoreStep(c: Promotion, m: Machine, b: Block, i: nat, s: State, t: State)
    requires Related(c, m, b, i, s, t) && i < |c.f[b].body| && c.f[b].body[i].Store? && c.f[b].body[i].ptr.Slot?
    ensures Matches(c, m, b, i + 1, Exec(m, c.f[b].body[i], s), Next(t))
  {
    hide Dom, StrictDom, Available, DomTree, Closed, EdgesOf, Consistent;
    var w := c.f[b].body[i];
    assert UsesAvailable(c.g, c.f, c.sites, b, i) && Uses(w)[0] == w.val;
    EvalRelated(c, m, b, i, s, t, w.val);
    SameResultsStep(c, m, b, i, s.env, s.env, t.env);
  }

  lemma AllocaStep(c: Promotion, m: Machine, b: Block, i: nat, s: State, t: State)
    requires Related(c, m, b, i, s, t) && i < |c.f[b].body| && c.f[b].body[i].Alloca?
    ensures Matches(c, m, b, i + 1, Exec(m, c.f[b].body[i], s), Next(t))
  {
    hide Dom, StrictDom, Available, DomTree, Closed, EdgesOf, Consistent;
    SameResultsStep(c, m, b, i, s.env, s.env, t.env);
  }

  lemma {:induction false} BodyMatches(c: Promotion, m: Machine, b: Block, i: nat, s: State, t: State)
    requires Related(c, m, b, i, s, t)
    ensures Matches(c, m, b, |c.f[b].body|, ExecBody(m, c.f[b].body[i..], s), ExecBody(m, Kept(c.ren.sub, c.f[b].body, i), t))
    decreases |c.f[b].body| - i
  {
    hide Related;
    RelatedBounds(c, m, b, i, s, t);
    var body := c.f[b].body;
    if i < |body| {
      assert body[i..][0] == body[i] && body[i..][1..] == body[i + 1..];
      var r := Exec(m, body[i], s);
      if Promoted(c.ren.sub, body[i]) {
        if body[i].Alloca? {
          AllocaStep(c, m, b, i, s, t);
        } else if body[i].Load? {
          SlotLoadStep(c, m, b, i, s, t);
        } else {
          SlotStoreStep(c, m, b, i, s, t);
        }
        if r.Next? {
          BodyMatches(c, m, b, i + 1, r.s, t);
        }
      } else {
        KeptStep(c, m, b, i, s, t);
        var rest := Kept(c.ren.sub, body, i + 1);
        var r' := Exec(m, SubstInstr(c.ren.sub, body[i]), t);
        assert Kept(c.ren.sub, body, i)[1..] == rest;
        if r.Next? {
          BodyMatches(c, m, b, i + 1, r.s, r'.s);
        }
      }
    }
  }

  lemma RelatedBounds(c: Promotion, m: Machine, b: Block, i: nat, s: State, t: State)
    requires Related(c, m, b, i, s, t)
    ensures b < |c.f| && b in c.ren.inn && i <= |c.f[b].body| && c.Valid() && s.mem == t.mem && s.out == t.out
  {
  }

  // ---------------------------------------------------------------- edges

  lemma {:induction false} PhisKeepOthers(m: Machine, old_: Env, phis: seq<Phi>, p: Block, env: Env, r: Reg)
    requires forall k :: 0 <= k < |phis| ==> phis[k].dest != r
    ensures (r in EnterPhis(m, old_, phis, p, env) <==> r in env)
    ensures r in env ==> EnterPhis(m, old_, phis, p, env)[r] == env[r]
  {
    if phis != [] {
      var v := Incoming(m, old_, phis[0].pairs, p);
      var env' := if v.None? then env - {phis[0].dest} else env[phis[0].dest := v.value];
      PhisKeepOthers(m, old_, phis[1..], p, env', r);
    }
  }

  /** A phi has the value its edge brings. */
  lemma {:induction false} PhiGets(m: Machine, old_: Env, phis: seq<Phi>, p: Block, env: Env, k: nat)
    requires k < |phis| && forall i, j :: 0 <= i < j < |phis| ==> phis[i].dest != phis[j].dest
    ensures Eval(m, EnterPhis(m, old_, phis, p, env), Res(phis[k].dest)) == Incoming(m, old_, phis[k].pairs, p)
  {
    var v := Incoming(m, old_, phis[0].pairs, p);
    var env' := if v.None? then env - {phis[0].dest} else env[phis[0].dest := v.value];
    if k == 0 {
      PhisKeepOthers(m, old_, phis[1..], p, env', phis[0].dest);
    } else {
      PhiGets(m, old_, phis[1..], p, env', k - 1);
    }
  }

  lemma {:induction false} IncomingIs(m: Machine, env: Env, pairs: seq<(Value, Block)>, p: Block, v: Value)
    requires HasPair(pairs, p) && forall k :: 0 <= k < |pairs| && pairs[k].1 == p ==> pairs[k].0 == v
    ensures Incoming(m, env, pairs, p) == Eval(m, env, v)
  {
    if pairs[0].1 != p {
      var k :| 0 <= k < |pairs| && pairs[k].1 == p;
      assert pairs[1..][k - 1].1 == p;
      IncomingIs(m, env, pairs[1..], p, v);
    }
  }

  /** Entering block b from p: nothing but the phis of b changes. */
  lemma EnterOther(c: Promotion, m: Machine, p: Block, b: Block, phis: seq<Phi>, env: Env, v: Value, d: Block, j: nat)
    requires c.Valid() && b < |c.f| && d < |c.f| && PhisFor(c.place, b, phis)
    requires c.Avail(v, d, j) && StrictDom(c.g, d, b)
    ensures Eval(m, EnterPhis(m, env, phis, p, env), v) == Eval(m, env, v)
  {
    if v.Res? {
      if v.r.PhiOf? && v.r.block == b {
        DomAntisym(c.g, b, d);
      }
      PhisKeepOthers(m, env, phis, p, env, v.r);
    }
  }

  lemma EnterResult(c: Promotion, m: Machine, p: Block, b: Block, phis: seq<Phi>, s: State, t: State, r: Reg)
    requires p < |c.f| && Related(c, m, p, |c.f[p].body|, s, t) && b < |c.f| && p in c.g.preds[b] && PhisFor(c.place, b, phis)
    requires r in s.env && r in c.sites && Before(c.g, c.sites[r], b, 0)
    ensures Eval(m, EnterPhis(m, t.env, phis, p, t.env), Subst(c.ren.sub, Res(r))) == Some(s.env[r])
  {
    hide Dom, StrictDom, Available, DomTree, Closed, Consistent, PhisFor, EdgesOf, SlotsHeld;
    var (d, j) := c.sites[r];
    EdgeBounds(c, p, b);
    DomPred(c.g, d, b, p);
    BeforeEnd(c, d, j, p);
    SubstAtSite(c, r);
    EnterOther(c, m, p, b, phis, t.env, Subst(c.ren.sub, Res(r)), d, j + 1);
  }

  lemma EdgeBounds(c: Promotion, p: Block, b: Block)
    requires c.Valid() && b < |c.f| && p in c.g.preds[b]
    ensures c.g.WellFormed() && |c.f| == c.g.Size() && b != ENTRY
  {
    hide Dom, StrictDom;
  }

  lemma EnterResults(c: Promotion, m: Machine, p: Block, b: Block, phis: seq<Phi>, s: State, t: State)
    requires p < |c.f| && Related(c, m, p, |c.f[p].body|, s, t) && b < |c.f| && p in c.g.preds[b] && PhisFor(c.place, b, phis)
    ensures SameResults(c, m, b, 0, s.env, EnterPhis(m, t.env, phis, p, t.env))
  {
    hide Related, PhisFor;
    forall r | r in s.env && r in c.sites && Before(c.g, c.sites[r], b, 0)
      ensures Eval(m, EnterPhis(m, t.env, phis, p, t.env), Subst(c.ren.sub, Res(r))) == Some(s.env[r])
    {
      EnterResult(c, m, p, b, phis, s, t, r);
    }
  }

  lemma BeforeEnd(c: Promotion, d: Block, j: nat, p: Block)
    requires c.Valid() && d < |c.f| && j < |c.f[d].body| && p < |c.f| && Dom(c.g, d, p)
    ensures Before(c.g, (d, j), p, |c.f[p].body|)
  {
  }

  /** What replaces a result is available just behind the result's own site. */
  lemma SubstAtSite(c: Promotion, r: Reg)
    requires c.Valid() && r in c.sites
    ensures c.Avail(Subst(c.ren.sub, Res(r)), c.sites[r].0, c.sites[r].1 + 1)
  {
    hide Dom, StrictDom;
    TempAvailable(c, r, c.sites[r].0, c.sites[r].1 + 1);
    c.SubstAvailable(Res(r), c.sites[r].0, c.sites[r].1 + 1);
  }

  lemma EnterSlots(c: Promotion, m: Machine, p: Block, b: Block, phis: seq<Phi>, s: State, t: State)
    requires p < |c.f| && Related(c, m, p, |c.f[p].body|, s, t) && b < |c.f| && p in c.g.preds[b] && PhisFor(c.place, b, phis)
    requires b in c.ren.inn && forall k :: 0 <= k < |phis| ==> Filled(c.g, c.ren, b, phis[k])
    ensures SlotsHeld(m, c.At(b, 0), s.slots, EnterPhis(m, t.env, phis, p, t.env))
  {
    hide Dom, StrictDom, Available, DomTree, Closed;
    var tenv := EnterPhis(m, t.env, phis, p, t.env);
    assert b != ENTRY;
    assert BlockConsistent(c.f, c.idom, c.place, c.ren, b) && BlockConsistent(c.f, c.idom, c.place, c.ren, p);
    forall x | x in s.slots
      ensures x in c.At(b, 0) && Eval(m, tenv, c.At(b, 0)[x]) == Some(s.slots[x])
    {
      assert x in c.ren.out[p];
      assert EntryValue(c.place, c.ren.inn[b], Above(c.idom, c.ren, b), b, x);
      if (b, x) in c.place {
        var k :| 0 <= k < |phis| && phis[k].lval == x;
        PhiFromEdge(c, m, p, b, phis, t.env, k);
      } else {
        c.JoinAgrees(p, b, x);
        c.Tree(b);
        var d := c.idom[b];
        assert BlockConsistent(c.f, c.idom, c.place, c.ren, d);
        c.CurrentAvailable(d, |c.f[d].body|, x);
        IdomIsStrict(c.g, d, b);
        EnterOther(c, m, p, b, phis, t.env, c.At(b, 0)[x], d, |c.f[d].body|);
      }
    }
  }

  lemma IdomIsStrict(g: Graph, d: Block, b: Block)
    requires IsIdom(g, d, b)
    ensures StrictDom(g, d, b)
  {
  }

  lemma PhiFromEdge(c: Promotion, m: Machine, p: Block, b: Block, phis: seq<Phi>, env: Env, k: nat)
    requires c.g.WellFormed() && b < |c.g.preds| && p in c.g.preds[b] && PhisFor(c.place, b, phis)
    requires k < |phis| && Filled(c.g, c.ren, b, phis[k]) && p in c.ren.out && phis[k].lval in c.ren.out[p]
    ensures Eval(m, EnterPhis(m, env, phis, p, env), Res(PhiOf(b, phis[k].lval))) == Eval(m, env, c.ren.out[p][phis[k].lval])
  {
    var pairs := phis[k].pairs;
    assert HasPair(pairs, p);
    var l :| 0 <= l < |pairs| && pairs[l].1 == p;
    assert PairOk(c.g, c.ren, b, phis[k], l);
    forall i | 0 <= i < |pairs| && pairs[i].1 == p
      ensures pairs[i].0 == c.ren.out[p][phis[k].lval]
    {
      assert PairOk(c.g, c.ren, b, phis[k], i);
    }
    IncomingIs(m, env, pairs, p, c.ren.out[p][phis[k].lval]);
    forall i, j | 0 <= i < j < |phis|
      ensures phis[i].dest != phis[j].dest
    {
      assert Differ(Lvals(phis), i, j);
    }
    PhiGets(m, env, phis, p, env, k);
  }

  lemma EnterRelated(c: Promotion, m: Machine, p: Block, b: Block, f': Func, s: State, t: State)
    requires p < |c.f| && Related(c, m, p, |c.f[p].body|, s, t) && b < |c.f| && p in c.g.preds[b]
    requires TargetForm(c.g, c.f, c.place, c.ren, f')
    ensures Related(c, m, b, 0, s, t.(env := EnterPhis(m, t.env, f'[b].phis, p, t.env)))
  {
    hide Dom, StrictDom, Available, DomTree, Closed;
    assert TargetBlock(c.g, c.place, c.ren, b, c.f[b], f'[b]);
    assert BlockConsistent(c.f, c.idom, c.place, c.ren, b);
    EnterResults(c, m, p, b, f'[b].phis, s, t);
    EnterSlots(c, m, p, b, f'[b].phis, s, t);
  }

  // ---------------------------------------------------------------- runs

  ghost predicate SameOutcome(o: Outcome, o': Outcome) {
    (o.Halted? && o.why == Undefined) || o' == o
  }

  lemma {:induction false} RunsAgree(c: Promotion, m: Machine, f': Func, b: Block, s: State, t: State, fuel: nat)
    requires Related(c, m, b, 0, s, t) && TargetForm(c.g, c.f, c.place, c.ren, f')
    ensures SameOutcome(RunFrom(m, c.f, b, s, fuel), RunFrom(m, f', b, t, fuel))
    decreases fuel
  {
    hide Related, Dom, StrictDom;
    RelatedBounds(c, m, b, 0, s, t);
    var body := c.f[b].body;
    if fuel > 0 {
      BodyMatches(c, m, b, 0, s, t);
      assert TargetBlock(c.g, c.place, c.ren, b, c.f[b], f'[b]);
      assert body[0..] == body;
      var r, r' := ExecBody(m, body, s), ExecBody(m, f'[b].body, t);
      if r.Next? {
        TermRelated(c, m, b, r.s, r'.s);
        var l := ExecTerm(m, c.f[b].term, r.s);
        if l.Goto? && l.b < |c.f| {
          EdgeTaken(c, b, l.b);
          EnterRelated(c, m, b, l.b, f', r.s, r'.s);
          assert c.f[l.b].phis == [];
          var t' := r'.s.(env := EnterPhis(m, r'.s.env, f'[l.b].phis, b, r'.s.env));
          assert r.s.(env := EnterPhis(m, r.s.env, c.f[l.b].phis, b, r.s.env)) == r.s;
          RunsAgree(c, m, f', l.b, r.s, t', fuel - 1);
        }
      }
    }
  }

  lemma TermRelated(c: Promotion, m: Machine, b: Block, s: State, t: State)
    requires b < |c.f| && Related(c, m, b, |c.f[b].body|, s, t)
    ensures var l, l' := ExecTerm(m, c.f[b].term, s), ExecTerm(m, SubstTerm(c.ren.sub, c.f[b].term), t);
      (l.Done? && l.o.Halted? && l.o.why == Undefined) || l' == l
    ensures ExecTerm(m, c.f[b].term, s).Goto? ==> ExecTerm(m, c.f[b].term, s).b in Targets(c.f[b].term)
    ensures s.mem == t.mem && s.out == t.out
  {
    assert TermAvailable(c.g, c.f, c.sites, b);
    var w := c.f[b].term;
    forall k | 0 <= k < |TermUses(w)|
      ensures Eval(m, s.env, TermUses(w)[k]).Some? ==>
        Eval(m, t.env, Subst(c.ren.sub, TermUses(w)[k])) == Eval(m, s.env, TermUses(w)[k])
    {
      EvalRelated(c, m, b, |c.f[b].body|, s, t, TermUses(w)[k]);
    }
    match w
    case Br(_) =>
    case CondBr(v, _, _) => assert TermUses(w)[0] == v;
    case Ret(v) => assert TermUses(w)[0] == v;
    case RetVoid =>
  }

  lemma EdgeTaken(c: Promotion, b: Block, a: Block)
    requires c.Valid() && b < |c.f| && a in Targets(c.f[b].term)
    ensures a < |c.f| && b in c.g.preds[a]
  {
    hide Dom, StrictDom;
    assert a in c.g.succs[b];
  }

  /** Promotion preserves meaning: started in any memory, for any arguments and
      any called functions, and stopped after any number of blocks, a run of the
      promoted function ends as the run of the original does, unless that one
      uses an undefined value. */
  lemma PromotionPreservesRuns(c: Promotion, m: Machine, f': Func, mem: Memory, fuel: nat)
    requires c.Valid() && TargetForm(c.g, c.f, c.place, c.ren, f')
    ensures SameOutcome(Execute(m, c.f, mem, fuel), Execute(m, f', mem, fuel))
  {
    hide Dom, StrictDom;
    assert BlockConsistent(c.f, c.idom, c.place, c.ren, ENTRY);
    var s := State(map[], map[], mem, []);
    assert Related(c, m, ENTRY, 0, s, s);
    RunsAgree(c, m, f', ENTRY, s, s, fuel);
  }
}
