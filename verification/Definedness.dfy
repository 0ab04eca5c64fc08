/** When no run uses an undefined value: if every look-up finds a value, promotion
    changes no outcome at all. */
module Definedness {
  import opened Cfg
  import opened PostOrder
  import opened Arithmetic
  import opened Ir
  import opened Ssa
  import opened SsaValues
  import opened Coverage
  import opened RenameWalk
  import opened SsaMeaning

  /** No alloca is passed while its slot holds a value. */
  ghost predicate NoReset(g: Graph, f: Func, place: set<(Block, nat)>) {
    forall b, i {:trigger f[b].body[i]} :: 0 <= b < |f| && 0 <= i < |f[b].body| && f[b].body[i].Alloca? ==>
      !DefinedAt(g, f, place, b, i, f[b].body[i].slot)
  }

  predicate Given(m: Machine, v: Value) { v.Param? ==> v.k < |m.args| }

  /** The arguments that are used are there. */
  ghost predicate ArgsGiven(m: Machine, f: Func) {
    && (forall b, i, k {:trigger Uses(f[b].body[i])[k]} :: 0 <= b < |f| && 0 <= i < |f[b].body| && 0 <= k < |Uses(f[b].body[i])| ==>
          Given(m, Uses(f[b].body[i])[k]))
    && forall b, k {:trigger TermUses(f[b].term)[k]} :: 0 <= b < |f| && 0 <= k < |TermUses(f[b].term)| ==> Given(m, TermUses(f[b].term)[k])
  }

  ghost predicate AllThere(c: Promotion, m: Machine) {
    c.Valid() && Covered(c.g, c.f, c.place) && NoReset(c.g, c.f, c.place) && ArgsGiven(m, c.f)
  }

  ghost predicate ResultsThere(c: Promotion, b: Block, i: nat, env: Env) {
    forall r {:trigger r in env} {:trigger r in c.sites} :: r in c.sites && Before(c.g, c.sites[r], b, i) ==> r in env
  }

  /** All that has been computed or stored on the way is there. */
  ghost predicate There(c: Promotion, b: Block, i: nat, s: State) {
    && b < |c.f| && b in c.ren.inn && i <= |c.f[b].body|
    && ResultsThere(c, b, i, s.env)
    && forall x {:trigger x in s.slots} {:trigger x in c.At(b, i)} :: x in c.At(b, i) ==> x in s.slots
  }

  lemma EvalThere(c: Promotion, m: Machine, b: Block, i: nat, s: State, v: Value)
    requires There(c, b, i, s) && c.Avail(v, b, i) && !IsPhiResult(v) && Given(m, v)
    ensures Eval(m, s.env, v).Some?
  {
    hide Before;
  }

  lemma {:induction false} EvalAllThere(c: Promotion, m: Machine, b: Block, i: nat, s: State, vs: seq<Value>)
    requires There(c, b, i, s)
    requires forall k {:trigger vs[k]} :: 0 <= k < |vs| ==> c.Avail(vs[k], b, i) && !IsPhiResult(vs[k]) && Given(m, vs[k])
    ensures EvalAll(m, s.env, vs).Some?
  {
    hide There, Available;
    if vs != [] {
      EvalThere(c, m, b, i, s, vs[0]);
      assert forall k {:trigger vs[1..][k]} :: 0 <= k < |vs[1..]| ==> vs[1..][k] == vs[k + 1];
      EvalAllThere(c, m, b, i, s, vs[1..]);
    }
  }

  /** The operands of an instruction have values, and a slot that is loaded. */
  lemma UsesThere(c: Promotion, m: Machine, b: Block, i: nat, s: State)
    requires AllThere(c, m) && There(c, b, i, s) && i < |c.f[b].body|
    ensures forall k {:trigger Uses(c.f[b].body[i])[k]} :: 0 <= k < |Uses(c.f[b].body[i])| ==> Eval(m, s.env, Uses(c.f[b].body[i])[k]).Some?
    ensures c.f[b].body[i].Call? ==> EvalAll(m, s.env, c.f[b].body[i].args).Some?
    ensures LoadsSlot(c.f[b].body[i]) ==> c.f[b].body[i].ptr.x in s.slots
  {
    hide Dom, StrictDom, DomTree, Closed, Consistent, ResultsThere, Available, DefinedAt, EdgeCovered;
    var w := c.f[b].body[i];
    assert UsesAvailable(c.g, c.f, c.sites, b, i);
    forall k | 0 <= k < |Uses(w)|
      ensures Eval(m, s.env, Uses(w)[k]).Some?
    {
      assert Given(m, Uses(c.f[b].body[i])[k]);
      EvalThere(c, m, b, i, s, Uses(w)[k]);
    }
    if w.Call? {
      assert Uses(w) == w.args;
      EvalAllThere(c, m, b, i, s, w.args);
    }
    if LoadsSlot(w) {
      assert LoadCovered(c.g, c.f, c.place, b, i);
      SlotThere(c, b, i, s, w.ptr.x);
    }
  }

  lemma SlotThere(c: Promotion, b: Block, i: nat, s: State, x: nat)
    requires c.Valid() && There(c, b, i, s) && DefinedAt(c.g, c.f, c.place, b, i, x)
    ensures x in s.slots
  {
    hide Dom, StrictDom, DefinedAt, DomTree, SourceForm, Closed, Consistent, ResultsThere;
    ValidIsUpper(c);
    KeysAt(c, Blocks(c.g), b, i, x);
  }

  /** Halting at an instruction has another reason. */
  ghost predicate Fine(c: Promotion, b: Block, i: nat, r: Result) {
    match r
    case Next(s) => There(c, b, i, s)
    case Halt(why, _, _) => why != Undefined
  }

  lemma StepThere(c: Promotion, m: Machine, b: Block, i: nat, s: State)
    requires AllThere(c, m) && There(c, b, i, s) && i < |c.f[b].body|
    ensures Fine(c, b, i + 1, Exec(m, c.f[b].body[i], s))
  {
    hide AllThere, ResultsThere, Arith, Test, Before;
    UsesThere(c, m, b, i, s);
    var w := c.f[b].body[i];
    OperandsAre(w);
    var r := Exec(m, w, s);
    if r.Next? {
      SlotsStep(c, m, b, i, s);
      NextThere(c, m, b, i, s, r.s);
    }
  }

  lemma OperandsAre(w: Instr)
    ensures w.Store? ==> Uses(w)[0] == w.val && (w.ptr.Cell? ==> Uses(w)[1] == w.ptr.index)
    ensures w.Load? && w.ptr.Cell? ==> Uses(w)[0] == w.ptr.index
    ensures w.Binary? || w.Compare? ==> Uses(w)[0] == w.lhs && Uses(w)[1] == w.rhs
    ensures w.Zext? ==> Uses(w)[0] == w.val
  {
  }

  lemma SlotsStep(c: Promotion, m: Machine, b: Block, i: nat, s: State)
    requires AllThere(c, m) && There(c, b, i, s) && i < |c.f[b].body| && Exec(m, c.f[b].body[i], s).Next?
    ensures forall x {:trigger x in c.At(b, i + 1)} :: x in c.At(b, i + 1) ==> x in Exec(m, c.f[b].body[i], s).s.slots
    ensures var s' := Exec(m, c.f[b].body[i], s).s; forall r {:trigger r in s'.env} :: r in s.env || Dest(c.f[b].body[i]) == Some(r) ==> r in s'.env
  {
    hide Arith, Test, Before, ResultsThere, Covered, ArgsGiven, Promotion.Valid;
    var w := c.f[b].body[i];
    if w.Alloca? {
      if w.slot in c.At(b, i) {
        ResetThere(c, b, i, w.slot);
        assert false;
      }
    }
  }

  lemma ResetThere(c: Promotion, b: Block, i: nat, x: nat)
    requires c.Valid() && b < |c.f| && b in c.ren.inn && i <= |c.f[b].body| && x in c.At(b, i)
    ensures DefinedAt(c.g, c.f, c.place, b, i, x)
  {
    hide Dom, StrictDom, DefinedAt, DomTree, SourceForm, Closed, Consistent;
    ValidIsUpper(c);
    KeysAt(c, Blocks(c.g), b, i, x);
  }

  lemma NextThere(c: Promotion, m: Machine, b: Block, i: nat, s: State, s': State)
    requires AllThere(c, m) && There(c, b, i, s) && i < |c.f[b].body|
    requires forall x {:trigger x in c.At(b, i + 1)} :: x in c.At(b, i + 1) ==> x in s'.slots
    requires forall r {:trigger r in s'.env} :: r in s.env || Dest(c.f[b].body[i]) == Some(r) ==> r in s'.env
    ensures There(c, b, i + 1, s')
  {
    hide Dom, StrictDom, DomTree, Closed, Consistent, Covered, NoReset, ArgsGiven;
    forall r | r in c.sites && Before(c.g, c.sites[r], b, i + 1)
      ensures r in s'.env
    {
      assert Dest(c.f[c.sites[r].0].body[c.sites[r].1]) == Some(r);
      if Dest(c.f[b].body[i]) != Some(r) {
        assert Before(c.g, c.sites[r], b, i);
      }
    }
  }

  lemma {:induction false} BodyThere(c: Promotion, m: Machine, b: Block, i: nat, s: State)
    requires AllThere(c, m) && There(c, b, i, s)
    ensures b < |c.f| && Fine(c, b, |c.f[b].body|, ExecBody(m, c.f[b].body[i..], s))
    decreases |c.f[b].body| - i
  {
    hide AllThere, ResultsThere, Exec;
    if i < |c.f[b].body| {
      StepThere(c, m, b, i, s);
      assert c.f[b].body[i..][0] == c.f[b].body[i] && c.f[b].body[i..][1..] == c.f[b].body[i + 1..];
      var r := Exec(m, c.f[b].body[i], s);
      if r.Next? {
        BodyThere(c, m, b, i + 1, r.s);
      }
    } else {
      assert c.f[b].body[i..] == [];
    }
  }

  lemma EnterThere(c: Promotion, m: Machine, p: Block, b: Block, s: State)
    requires p < |c.f| && AllThere(c, m) && There(c, p, |c.f[p].body|, s) && b < |c.f| && p in c.g.preds[b]
    ensures There(c, b, 0, s)
  {
    hide Dom, StrictDom, DomTree, Closed, DefinedAt, LoadCovered, NoReset, ArgsGiven;
    EdgeBounds(c, p, b);
    assert BlockConsistent(c.f, c.idom, c.place, c.ren, b) && BlockConsistent(c.f, c.idom, c.place, c.ren, p);
    forall r | r in c.sites && Before(c.g, c.sites[r], b, 0)
      ensures r in s.env
    {
      ResultComes(c, p, b, r);
    }
    forall x | x in c.At(b, 0)
      ensures x in s.slots
    {
      assert EntryValue(c.place, c.ren.inn[b], Above(c.idom, c.ren, b), b, x);
      if (b, x) in c.place {
        assert EdgeCovered(c.g, c.f, c.place, p, b, x);
        SlotThere(c, p, |c.f[p].body|, s, x);
      } else {
        c.JoinAgrees(p, b, x);
        assert x in c.At(p, |c.f[p].body|);
      }
    }
  }

  lemma ResultComes(c: Promotion, p: Block, b: Block, r: Reg)
    requires c.Valid() && p < |c.f| && b < |c.f| && p in c.g.preds[b] && r in c.sites && Before(c.g, c.sites[r], b, 0)
    ensures Before(c.g, c.sites[r], p, |c.f[p].body|)
  {
    hide Dom, StrictDom, DomTree, Closed, Consistent;
    EdgeBounds(c, p, b);
    var (d, j) := c.sites[r];
    DomPred(c.g, d, b, p);
    BeforeEnd(c, d, j, p);
  }

  lemma TermThere(c: Promotion, m: Machine, b: Block, s: State)
    requires b < |c.f| && AllThere(c, m) && There(c, b, |c.f[b].body|, s)
    ensures var l := ExecTerm(m, c.f[b].term, s); !(l.Done? && l.o.Halted?) && (l.Goto? ==> l.b in Targets(c.f[b].term))
  {
    hide Dom, StrictDom, DomTree, Closed, Consistent, Covered, NoReset, Available;
    assert TermAvailable(c.g, c.f, c.sites, b);
    var t := c.f[b].term;
    forall k | 0 <= k < |TermUses(t)|
      ensures Eval(m, s.env, TermUses(t)[k]).Some?
    {
      assert Given(m, TermUses(c.f[b].term)[k]);
      EvalThere(c, m, b, |c.f[b].body|, s, TermUses(t)[k]);
    }
    match t
    case Br(_) =>
    case CondBr(v, _, _) => assert TermUses(t)[0] == v;
    case Ret(v) => assert TermUses(t)[0] == v;
    case RetVoid =>
  }

  lemma {:induction false} RunDefined(c: Promotion, m: Machine, b: Block, s: State, fuel: nat)
    requires AllThere(c, m) && There(c, b, 0, s)
    ensures var o := RunFrom(m, c.f, b, s, fuel); !(o.Halted? && o.why == Undefined)
    decreases fuel
  {
    hide There, Dom, StrictDom, DomTree, Closed, Consistent, Covered, NoReset, ArgsGiven;
    if fuel > 0 && b < |c.f| {
      BodyThere(c, m, b, 0, s);
      assert c.f[b].body[0..] == c.f[b].body;
      var r := ExecBody(m, c.f[b].body, s);
      if r.Next? {
        TermThere(c, m, b, r.s);
        var l := ExecTerm(m, c.f[b].term, r.s);
        if l.Goto? && l.b < |c.f| {
          EdgeTaken(c, b, l.b);
          EnterThere(c, m, b, l.b, r.s);
          assert c.f[l.b].phis == [];
          assert r.s.(env := EnterPhis(m, r.s.env, c.f[l.b].phis, b, r.s.env)) == r.s;
          RunDefined(c, m, l.b, r.s, fuel - 1);
        }
      }
    }
  }

  /** Where every look-up finds a value no run uses an undefined one, and the promoted
      function has exactly the outcomes of the original. */
  lemma PromotionIsExact(c: Promotion, m: Machine, f': Func, mem: Memory, fuel: nat)
    requires AllThere(c, m) && TargetForm(c.g, c.f, c.place, c.ren, f') && Least(c.g, c.f, c.place)
    ensures var o := Execute(m, c.f, mem, fuel); !(o.Halted? && o.why == Undefined) && Execute(m, f', mem, fuel) == o
  {
    hide Dom, StrictDom, Covered, NoReset, ArgsGiven, Least, Closed;
    var s := State(map[], map[], mem, []);
    assert BlockConsistent(c.f, c.idom, c.place, c.ren, ENTRY);
    forall x: nat
      ensures (ENTRY, x) !in c.place
    {
      NoEntryPhi(c.g, c.f, c.place, x);
    }
    EntryThere(c, s);
    RunDefined(c, m, ENTRY, s, fuel);
    PromotionPreservesRuns(c, m, f', mem, fuel);
  }

  lemma EntryThere(c: Promotion, s: State)
    requires c.Valid() && ENTRY < |c.f| && ENTRY in c.ren.inn && BlockConsistent(c.f, c.idom, c.place, c.ren, ENTRY)
    requires forall x: nat {:trigger (ENTRY, x) in c.place} :: (ENTRY, x) !in c.place
    ensures There(c, ENTRY, 0, s)
  {
    hide DomTree, Closed, Consistent, StrictDom;
    forall r | r in c.sites
      ensures !Before(c.g, c.sites[r], ENTRY, 0)
    {
      if StrictDom(c.g, c.sites[r].0, ENTRY) {
        c.StrictAbove(c.sites[r].0, ENTRY);
        assert false;
      }
    }
    forall x
      ensures x !in c.At(ENTRY, 0)
    {
      assert EntryValue(c.place, c.ren.inn[ENTRY], Above(c.idom, c.ren, ENTRY), ENTRY, x);
    }
  }

  // ---------------------------------------------------------------- slots stored in the entry block

  /** Allocas of slots that are stored stand in the entry block, before the stores. */
  ghost predicate AllocasFirst(f: Func) {
    && (forall b, i {:trigger f[b].body[i]} :: 0 <= b < |f| && 0 <= i < |f[b].body| && f[b].body[i].Alloca? ==> b == ENTRY)
    && forall i {:trigger f[ENTRY].body[i]} :: 0 < |f| && 0 <= i < |f[ENTRY].body| && f[ENTRY].body[i].Alloca? ==>
         !StoredBefore(f[ENTRY].body, i, f[ENTRY].body[i].slot)
  }

  /** The entry block gets no phi. */
  lemma NoEntryPhi(g: Graph, f: Func, place: set<(Block, nat)>, x: nat)
    requires g.WellFormed() && Closed(g, f, place) && Least(g, f, place)
    ensures (ENTRY, x) !in place
  {
    hide Dom, StrictDom, Reachable;
    var q := set p: (Block, nat) | p in place && p.0 != ENTRY;
    assert Closed(g, f, q);
  }

  lemma FirstIsNoReset(g: Graph, f: Func, place: set<(Block, nat)>)
    requires g.WellFormed() && |f| == g.Size() && AllocasFirst(f) && Closed(g, f, place) && Least(g, f, place)
    ensures NoReset(g, f, place)
  {
    hide Dom, Closed, Least, Reachable, Defines, StoredBefore;
    forall b, i | 0 <= b < |f| && 0 <= i < |f[b].body| && f[b].body[i].Alloca?
      ensures !DefinedAt(g, f, place, b, i, f[b].body[i].slot)
    {
      assert b == ENTRY;
      NoEntryPhi(g, f, place, f[b].body[i].slot);
      forall d: Block | d < |f|
        ensures !StrictDom(g, d, ENTRY)
      {
        NothingAboveEntry(g, d);
      }
    }
  }

  lemma NothingAboveEntry(g: Graph, d: Block)
    requires g.WellFormed()
    ensures !StrictDom(g, d, ENTRY)
  {
    assert IsPath(g, [ENTRY], ENTRY);
  }

  /** So for a function that stores all its slots in the entry block, behind their
      allocas and before any load, promotion changes no outcome at all. */
  lemma InitialisedIsExact(c: Promotion, m: Machine, f': Func, mem: Memory, fuel: nat)
    requires c.Valid() && Least(c.g, c.f, c.place) && TargetForm(c.g, c.f, c.place, c.ren, f')
    requires InitialisedInEntry(c.f) && AllocasFirst(c.f) && ArgsGiven(m, c.f)
    ensures var o := Execute(m, c.f, mem, fuel); !(o.Halted? && o.why == Undefined) && Execute(m, f', mem, fuel) == o
  {
    hide Dom, StrictDom, Covered, InitialisedInEntry, AllocasFirst, ArgsGiven, NoReset, Least, Closed, Consistent, DomTree, TargetForm;
    BaseSize(c);
    InitialisedIsCoverable(c.g, c.f);
    CoverablePlace(c.g, c.f, c.place);
    FirstIsNoReset(c.g, c.f, c.place);
    PromotionIsExact(c, m, f', mem, fuel);
  }

  lemma CoverablePlace(g: Graph, f: Func, place: set<(Block, nat)>)
    requires Coverable(g, f) && Closed(g, f, place) && Least(g, f, place)
    ensures Covered(g, f, place)
  {
  }
}
