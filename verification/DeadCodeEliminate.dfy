/** The pass that removes what nobody needs: functions with side effects by the
    call graph, needed instructions by marking, the rest swept. */
module DeadCodeEliminate {
  import opened Arithmetic
  import opened Cfg
  import opened ArrayIr
  import opened DeadCode
  import opened SideEffects
  import opened SideEffectFuncs
  import opened SweptProgram
  import opened NeededCode
  import opened EffectCode

  // ---------------------------------------------------------------- marking

  /** The operands of the instruction that makes a result. */
  type Makers = map<Reg, set<Reg>>

  /** An instruction or a phi makes x. */
  ghost predicate HasMaker(f: Func, x: Reg) {
    || (exists b, i {:trigger In(f, b, i)} :: In(f, b, i) && !f[b].body[i].Store? && f[b].body[i].d == x)
    || exists b, k {:trigger f[b].phis[k]} :: 0 <= b < |f| && 0 <= k < |f[b].phis| && f[b].phis[k].dest == x
  }

  /** defs leads from every result, and nothing else, to the operands of its
      instruction, and all operands are results. */
  ghost predicate MakersOf(f: Func, defs: Makers) {
    && (forall x {:trigger x in defs} :: x in defs ==> HasMaker(f, x))
    && (forall b, i {:trigger f[b].body[i]} :: 0 <= b < |f| && 0 <= i < |f[b].body| ==> MakesInstr(defs, f[b].body[i]))
    && (forall b, k {:trigger f[b].phis[k]} :: 0 <= b < |f| && 0 <= k < |f[b].phis| ==> MakesPhi(defs, f[b].phis[k]))
    && (forall b {:trigger f[b].term} :: 0 <= b < |f| ==> ListRegs(TermUses(f[b].term)) <= defs.Keys)
    && (forall x {:trigger x in defs} :: x in defs ==> defs[x] <= defs.Keys)
  }

  ghost predicate MakesInstr(defs: Makers, i: Instr) {
    Operands(i) <= defs.Keys && forall x {:trigger x in defs} :: x in Made(i) ==> x in defs && defs[x] == Operands(i)
  }

  ghost predicate MakesPhi(defs: Makers, phi: Phi) {
    PhiOperands(phi) <= defs.Keys && phi.dest in defs && defs[phi.dest] == PhiOperands(phi)
  }

  /** Operands of marked results are marked, unless the result is being visited. */
  ghost predicate ClosedBut(defs: Makers, marked: set<Reg>, gray: set<Reg>) {
    forall x {:trigger x in marked} :: x in marked && x in defs && x !in gray ==> defs[x] <= marked
  }

  ghost predicate ClosedSet(defs: Makers, s: set<Reg>) {
    forall x {:trigger x in s} :: x in s && x in defs ==> defs[x] <= s
  }

  /** What is marked first: the results and operands of instructions with side
      effects, and the operands of terminators. */
  ghost predicate Seed(f: Func, impure: set<nat>, x: Reg) {
    || (exists b, i :: 0 <= b < |f| && 0 <= i < |f[b].body| && IsSideEffect(impure, f[b].body[i]) && (x in Made(f[b].body[i]) || x in Operands(f[b].body[i])))
    || exists b :: 0 <= b < |f| && x in ListRegs(TermUses(f[b].term))
  }

  /** Every closed set that holds the seeds holds all that is marked. */
  ghost predicate OnlyNeeded(f: Func, impure: set<nat>, defs: Makers, marked: set<Reg>) {
    forall s {:trigger ClosedSet(defs, s)} :: ClosedSet(defs, s) && (forall x :: Seed(f, impure, x) ==> x in s) ==> marked <= s
  }

  lemma MarkedIsClosed(f: Func, impure: set<nat>, defs: Makers, marked: set<Reg>)
    requires MakersOf(f, defs) && ClosedBut(defs, marked, {}) && forall x :: Seed(f, impure, x) ==> x in marked
    ensures MarksClosed(f, impure, marked)
  {
    forall b, i | 0 <= b < |f| && 0 <= i < |f[b].body|
      ensures InstrClosed(impure, marked, f[b].body[i])
    {
      var w := f[b].body[i];
      assert MakesInstr(defs, w);
      if IsSideEffect(impure, w) {
        forall x | x in Made(w) || x in Operands(w)
          ensures x in marked
        {
          assert Seed(f, impure, x);
        }
      } else if Kept(impure, marked, w) {
        var x :| x in Made(w) && x in marked;
        assert x in defs;
      }
    }
    forall b, k | 0 <= b < |f| && 0 <= k < |f[b].phis|
      ensures PhiClosed(marked, f[b].phis[k])
    {
      assert MakesPhi(defs, f[b].phis[k]);
      assert f[b].phis[k].dest in defs;
    }
    forall b | 0 <= b < |f|
      ensures ListRegs(TermUses(f[b].term)) <= marked
    {
      forall x | x in ListRegs(TermUses(f[b].term))
        ensures x in marked
      {
        assert Seed(f, impure, x);
      }
    }
  }

  /** The marks are the least set that holds what is needed. */
  lemma MarksAreLeast(f: Func, impure: set<nat>, defs: Makers, marked: set<Reg>)
    requires MakersOf(f, defs) && MarksClosed(f, impure, marked) && OnlyNeeded(f, impure, defs, marked)
    ensures LeastNeeds(f, impure, marked)
  {
    hide MarksClosed, Needs, ClosedSet, MakersOf, Seed;
    ClosedNeeds(f, impure, marked);
    forall t | Needs(f, impure, t)
      ensures marked <= t
    {
      NeedsClosed(f, impure, defs, t);
      assert ClosedSet(defs, t * defs.Keys);
    }
  }

  lemma NeedsClosed(f: Func, impure: set<nat>, defs: Makers, t: set<Reg>)
    requires MakersOf(f, defs) && Needs(f, impure, t)
    ensures ClosedSet(defs, t * defs.Keys) && forall x :: Seed(f, impure, x) ==> x in t * defs.Keys
  {
    hide Operands, PhiOperands, Reads, PhiReads, ListRegs, TermUses;
    forall x | x in t * defs.Keys
      ensures defs[x] <= t * defs.Keys
    {
      assert HasMaker(f, x);
      if b, i :| In(f, b, i) && !f[b].body[i].Store? && f[b].body[i].d == x {
        var w := f[b].body[i];
        assert MakesInstr(defs, w) && InstrNeeds(impure, t, w) && x in Made(w);
        forall r | r in defs[x]
          ensures r in t
        {
          OperandsAre(w, r);
        }
      } else {
        var b, k :| 0 <= b < |f| && 0 <= k < |f[b].phis| && f[b].phis[k].dest == x;
        assert MakesPhi(defs, f[b].phis[k]);
        forall r | r in defs[x]
          ensures r in t
        {
          PhiOperandsAre(f[b].phis[k], r);
        }
      }
    }
    forall x | Seed(f, impure, x)
      ensures x in t * defs.Keys
    {
      SeedNeeded(f, impure, defs, t, x);
    }
  }

  lemma SeedNeeded(f: Func, impure: set<nat>, defs: Makers, t: set<Reg>, x: Reg)
    requires MakersOf(f, defs) && Needs(f, impure, t) && Seed(f, impure, x)
    ensures x in t && x in defs
  {
    hide Operands, Reads, ListRegs, TermUses;
    if b :| 0 <= b < |f| && x in ListRegs(TermUses(f[b].term)) {
      TermOperandsAre(f[b].term, x);
    } else {
      var b, i :| 0 <= b < |f| && 0 <= i < |f[b].body| && IsSideEffect(impure, f[b].body[i]) && (x in Made(f[b].body[i]) || x in Operands(f[b].body[i]));
      var w := f[b].body[i];
      assert MakesInstr(defs, w) && InstrNeeds(impure, t, w);
      OperandsAre(w, x);
    }
  }

  lemma SweepSplit(impure: set<nat>, marked: set<Reg>, body: seq<Instr>, i: nat)
    requires i < |body|
    ensures SweepBody(impure, marked, body[i..]) == (if Kept(impure, marked, body[i]) then [body[i]] else []) + SweepBody(impure, marked, body[i + 1..])
  {
    assert body[i..][1..] == body[i + 1..];
  }

  lemma SweepPhisSplit(marked: set<Reg>, phis: seq<Phi>, i: nat)
    requires i < |phis|
    ensures SweepPhis(marked, phis[i..]) == (if phis[i].dest in marked then [phis[i]] else []) + SweepPhis(marked, phis[i + 1..])
  {
    assert phis[i..][1..] == phis[i + 1..];
  }

  class DeadCodeDelete {
    var sideEffectFunc: set<nat>
    var blocks: Func
    var worklist: set<Reg>

    constructor (f: Func)
      ensures blocks == f && sideEffectFunc == {} && worklist == {}
    {
      blocks, sideEffectFunc, worklist := f, {}, {};
    }

    // -------------------------------------------------------------- side effects

    /** Exactly the functions from which calls lead to an effect. */
    method InitSets(p: Program, main: nat, funcs: set<nat>)
      requires AllCallsIn(p, main, funcs)
      modifies this`sideEffectFunc
      ensures sideEffectFunc == set f | f in funcs && Effects(p, main, {}, f)
      ensures HarmfulOnly(p, main, {}, funcs, sideEffectFunc)
    {
      hide Effects, HarmfulOnly;
      var scan := new SideEffectScan();
      scan.Init(p, main, {}, funcs);
      sideEffectFunc := scan.sideEffectFunc;
    }

    // -------------------------------------------------------------- marking

    /** Marks an instruction and, through its operands, all that it needs. */
    method CompleteWorklist(inst: Reg, defs: Makers, ghost gray: set<Reg>)
      requires inst in defs && forall x {:trigger x in defs} :: x in defs ==> defs[x] <= defs.Keys
      requires ClosedBut(defs, worklist, gray) && gray <= worklist <= defs.Keys
      modifies this`worklist
      ensures inst in worklist && old(worklist) <= worklist <= defs.Keys && ClosedBut(defs, worklist, gray)
      ensures forall s {:trigger ClosedSet(defs, s)} :: ClosedSet(defs, s) && old(worklist) <= s && inst in s ==> worklist <= s
      decreases defs.Keys - worklist
    {
      if inst in worklist {
        return;
      }
      ghost var first := worklist;
      worklist := worklist + {inst};
      var rest := defs[inst];
      while rest != {}
        invariant rest <= defs[inst] && defs[inst] - rest <= worklist
        invariant first + {inst} <= worklist <= defs.Keys && ClosedBut(defs, worklist, gray + {inst})
        invariant forall s {:trigger ClosedSet(defs, s)} :: ClosedSet(defs, s) && first <= s && inst in s ==> worklist <= s
      {
        var op :| op in rest;
        ghost var mid := worklist;
        CompleteWorklist(op, defs, gray + {inst});
        forall s | ClosedSet(defs, s) && first <= s && inst in s
          ensures worklist <= s
        {
          assert mid <= s;
          assert inst in s && defs[inst] <= s;
        }
        rest := rest - {op};
      }
    }

    /** Marks all of a set. */
    method MarkAll(items: set<Reg>, defs: Makers, ghost f: Func)
      requires MakersOf(f, defs) && items <= defs.Keys && forall x :: x in items ==> Seed(f, sideEffectFunc, x)
      requires ClosedBut(defs, worklist, {}) && worklist <= defs.Keys && OnlyNeeded(f, sideEffectFunc, defs, worklist)
      modifies this`worklist
      ensures items + old(worklist) <= worklist <= defs.Keys && ClosedBut(defs, worklist, {})
      ensures OnlyNeeded(f, sideEffectFunc, defs, worklist)
    {
      hide Seed, MakesInstr, MakesPhi;
      var rest := items;
      while rest != {}
        invariant rest <= items && items - rest + old(worklist) <= worklist <= defs.Keys && ClosedBut(defs, worklist, {})
        invariant OnlyNeeded(f, sideEffectFunc, defs, worklist)
      {
        var x :| x in rest;
        ghost var mid := worklist;
        CompleteWorklist(x, defs, {});
        forall s | ClosedSet(defs, s) && (forall x :: Seed(f, sideEffectFunc, x) ==> x in s)
          ensures worklist <= s
        {
          assert mid <= s && x in s;
        }
        rest := rest - {x};
      }
    }

    ghost predicate SeedsTo(f: Func, b: nat, i: nat)
      reads this
    {
      && (forall d, j {:trigger f[d].body[j]} :: 0 <= d < |f| && 0 <= j < |f[d].body| && (d < b || (d == b && j < i)) && IsSideEffect(sideEffectFunc, f[d].body[j]) ==>
            Made(f[d].body[j]) + Operands(f[d].body[j]) <= worklist)
      && (forall d {:trigger f[d].term} :: 0 <= d < |f| && d < b ==> ListRegs(TermUses(f[d].term)) <= worklist)
    }

    /** Everything with a side effect, and what that needs. */
    method Mark(defs: Makers)
      requires MakersOf(blocks, defs) && worklist == {}
      modifies this`worklist
      ensures MarksClosed(blocks, sideEffectFunc, worklist) && OnlyNeeded(blocks, sideEffectFunc, defs, worklist)
      ensures LeastNeeds(blocks, sideEffectFunc, worklist)
    {
      hide Seed, MakesPhi, IsSideEffect, Operands, Made, ClosedBut, OnlyNeeded, LeastNeeds, HasMaker;
      ghost var f := blocks;
      NothingMarked(f, sideEffectFunc, defs);
      var b := 0;
      while b < |blocks|
        invariant b <= |blocks| && SeedsTo(f, b, 0) && f == blocks
        invariant ClosedBut(defs, worklist, {}) && worklist <= defs.Keys && OnlyNeeded(f, sideEffectFunc, defs, worklist)
      {
        var i := 0;
        while i < |blocks[b].body|
          invariant i <= |blocks[b].body| && SeedsTo(f, b, i) && f == blocks
          invariant ClosedBut(defs, worklist, {}) && worklist <= defs.Keys && OnlyNeeded(f, sideEffectFunc, defs, worklist)
        {
          var inst := blocks[b].body[i];
          if IsSideEffect(sideEffectFunc, inst) {
            assert MakesInstr(defs, f[b].body[i]);
            InstrSeeds(f, sideEffectFunc, b, i);
            MarkAll(Made(inst) + Operands(inst), defs, f);
          }
          i := i + 1;
        }
        TermSeeds(f, sideEffectFunc, b);
        MarkAll(ListRegs(TermUses(blocks[b].term)), defs, f);
        b := b + 1;
      }
      AllSeeds(f);
      MarkedIsClosed(f, sideEffectFunc, defs, worklist);
      MarksAreLeast(f, sideEffectFunc, defs, worklist);
    }

    static lemma NothingMarked(f: Func, impure: set<nat>, defs: Makers)
      ensures ClosedBut(defs, {}, {}) && OnlyNeeded(f, impure, defs, {})
    {
    }

    static lemma InstrSeeds(f: Func, impure: set<nat>, b: nat, i: nat)
      requires b < |f| && i < |f[b].body| && IsSideEffect(impure, f[b].body[i])
      ensures forall x :: x in Made(f[b].body[i]) + Operands(f[b].body[i]) ==> Seed(f, impure, x)
    {
      hide IsSideEffect, Made, Operands;
    }

    static lemma TermSeeds(f: Func, impure: set<nat>, b: nat)
      requires b < |f|
      ensures forall x :: x in ListRegs(TermUses(f[b].term)) ==> Seed(f, impure, x)
    {
      hide ListRegs;
    }

    lemma AllSeeds(f: Func)
      requires SeedsTo(f, |f|, 0)
      ensures forall x :: Seed(f, sideEffectFunc, x) ==> x in worklist
    {
      hide IsSideEffect, Made, Operands, ListRegs;
    }

    // -------------------------------------------------------------- sweeping

    method Sweep(b: Block) returns (bb: BasicBlock)
      requires b < |blocks|
      ensures bb == SweepBlock(sideEffectFunc, worklist, blocks[b])
    {
      var phis := KeepPhis(blocks[b].phis);
      var body := KeepBody(blocks[b].body);
      bb := BasicBlock(phis, body, blocks[b].term);
    }

    method KeepPhis(phis: seq<Phi>) returns (left: seq<Phi>)
      ensures left == SweepPhis(worklist, phis)
    {
      hide SweepPhis;
      left := [];
      var i := 0;
      assert phis[0..] == phis;
      while i < |phis|
        invariant i <= |phis| && left + SweepPhis(worklist, phis[i..]) == SweepPhis(worklist, phis)
      {
        SweepPhisSplit(worklist, phis, i);
        if phis[i].dest in worklist {
          left := left + [phis[i]];
        }
        i := i + 1;
      }
      SweepNone(sideEffectFunc, worklist);
      assert phis[i..] == [];
    }

    method KeepBody(body: seq<Instr>) returns (left: seq<Instr>)
      ensures left == SweepBody(sideEffectFunc, worklist, body)
    {
      hide SweepBody, Kept;
      left := [];
      var i := 0;
      assert body[0..] == body;
      while i < |body|
        invariant i <= |body| && left + SweepBody(sideEffectFunc, worklist, body[i..]) == SweepBody(sideEffectFunc, worklist, body)
      {
        SweepSplit(sideEffectFunc, worklist, body, i);
        if Kept(sideEffectFunc, worklist, body[i]) {
          left := left + [body[i]];
        }
        i := i + 1;
      }
      SweepNone(sideEffectFunc, worklist);
      assert body[i..] == [];
    }

    static lemma SweepNone(impure: set<nat>, marked: set<Reg>)
      ensures SweepBody(impure, marked, []) == [] && SweepPhis(marked, []) == []
    {
    }

    /** Marks, then removes what is not marked: runs are preserved on every machine
        whose pure functions are quiet. */
    method DeleteDeadInst(defs: Makers)
      requires MakersOf(blocks, defs) && worklist == {}
      modifies this`worklist, this`blocks
      ensures LeastNeeds(old(blocks), sideEffectFunc, worklist) && OnlyLeft(old(blocks), worklist, blocks)
      ensures MarksClosed(old(blocks), sideEffectFunc, worklist) && Swept(old(blocks), sideEffectFunc, worklist, blocks)
      ensures forall m, pure, mem, k :: Quiet(m, pure) && AllKnown(sideEffectFunc, pure, old(blocks)) ==>
                SweptOutcome(sideEffectFunc, worklist, RunStop(m, old(blocks), ENTRY, State(map[], mem, []), k),
                             Execute(m, old(blocks), mem, k), Execute(m, blocks, mem, k))
    {
      hide MarksClosed, LeastNeeds, OnlyLeft, SweepBlock, SweptOutcome, Quiet, AllKnown, Execute, MakersOf;
      ghost var f := blocks;
      Mark(defs);
      ghost var marked := worklist;
      var b := 0;
      while b < |blocks|
        invariant b <= |blocks| == |f| && worklist == marked
        invariant forall c {:trigger blocks[c]} :: 0 <= c < |f| ==> blocks[c] == if c < b then SweepBlock(sideEffectFunc, worklist, f[c]) else f[c]
      {
        var bb := Sweep(b);
        blocks := blocks[b := bb];
        b := b + 1;
      }
      SweptLeaves(f, sideEffectFunc, worklist, blocks);
      forall m, pure, mem, k | Quiet(m, pure) && AllKnown(sideEffectFunc, pure, f)
        ensures SweptOutcome(sideEffectFunc, worklist, RunStop(m, f, ENTRY, State(map[], mem, []), k), Execute(m, f, mem, k), Execute(m, blocks, mem, k))
      {
        SweepPreservesRuns(m, f, sideEffectFunc, pure, worklist, blocks, mem, k);
      }
    }

    /** All functions of a program: each is swept, and every call that comes back does
        what it did. */
    method DeleteInProgram(p: Program, main: nat, funcs: set<nat>, defs: map<nat, Makers>) returns (p': Program)
      requires AllOneMaker(p) && AllCallsIn(p, main, funcs) && (main in p ==> forall c: nat {:trigger CallsOf(p[main], c)} :: CallsOf(p[main], c) ==> c in funcs)
      requires forall f {:trigger p[f]} :: f in p ==> f in defs && MakersOf(p[f], defs[f])
      modifies this
      ensures sideEffectFunc == (set f | f in funcs && Effects(p, main, {}, f)) && HarmfulOnly(p, main, {}, funcs, sideEffectFunc)
      ensures SweptAll(p, sideEffectFunc, p')
      ensures p'.Keys == p.Keys && forall f {:trigger p'[f]} {:trigger p[f]} :: f in p ==> LeastLeft(p[f], sideEffectFunc, p'[f])
      ensures forall ext, fuel, depth, frame, f, args, mem, out {:trigger CallIn(p', ext, fuel, depth, frame, f, args, mem, out)} ::
                CallIn(p, ext, fuel, depth, frame, f, args, mem, out).Reply? ==>
                CallIn(p', ext, fuel, depth, frame, f, args, mem, out) == CallIn(p, ext, fuel, depth, frame, f, args, mem, out)
    {
      hide Effects, HarmfulOnly, CallsOf, OneMaker, MakersOf, MarksClosed, LeastNeeds, OnlyLeft, Swept, SweptOutcome, CallIn, Quiet, AllKnown;
      InitSets(p, main, funcs);
      ghost var impure := sideEffectFunc;
      ghost var pure := funcs - impure;
      p' := map[];
      var rest := p.Keys;
      while rest != {}
        invariant rest <= p.Keys && p'.Keys == p.Keys - rest && sideEffectFunc == impure
        invariant forall f {:trigger p'[f]} :: f in p' ==> SweptBy(p[f], impure, p'[f]) && LeastLeft(p[f], impure, p'[f])
      {
        var f :| f in rest;
        blocks, worklist := p[f], {};
        DeleteDeadInst(defs[f]);
        assert SweptBy(p[f], impure, blocks) && LeastLeft(p[f], impure, blocks);
        p' := p'[f := blocks];
        rest := rest - {f};
      }
      KnownCalls(p, main, funcs, impure, pure);
      forall ext, fuel, depth, frame, f, args, mem, out | CallIn(p, ext, fuel, depth, frame, f, args, mem, out).Reply?
        ensures CallIn(p', ext, fuel, depth, frame, f, args, mem, out) == CallIn(p, ext, fuel, depth, frame, f, args, mem, out)
      {
        CallsKept(p, main, impure, pure, p', ext, fuel, depth, frame, f, args, mem, out);
      }
    }

    static lemma KnownCalls(p: Program, main: nat, funcs: set<nat>, impure: set<nat>, pure: set<nat>)
      requires AllCallsIn(p, main, funcs) && (main in p ==> forall c: nat {:trigger CallsOf(p[main], c)} :: CallsOf(p[main], c) ==> c in funcs)
      requires impure == (set f | f in funcs && Effects(p, main, {}, f)) && pure == funcs - impure
      ensures CallsKnown(p, impure, pure) && forall g :: g in pure ==> !Effects(p, main, {}, g)
    {
      hide Effects;
      forall f: nat, b: nat, i: nat | f in p && b < |p[f]| && i < |p[f][b].body| && p[f][b].body[i].Call?
        ensures p[f][b].body[i].callee in impure || p[f][b].body[i].callee in pure
      {
        CallsHere(p[f], b, i);
      }
    }
  }
}
