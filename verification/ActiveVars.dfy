/** The pass that computes live variables by rescanning the blocks. First the use,
    definition and phi sets are gathered block by block, instruction by instruction;
    then the live sets are recomputed, block after block in the order of the list,
    until a whole scan changes none of them. Last the empty sets are dropped. */
module ActiveVars {
  import opened Cfg
  import opened Liveness
  import opened Rescan
  import opened UseSets

  lemma {:induction false} SubsetSame(a: set<Var>, b: set<Var>)
    requires a <= b && |a| == |b|
    ensures a == b
  {
    assert b == a + (b - a);
    assert |b| == |a| + |b - a|;
  }

  /** All sets at one moment of their construction. */
  datatype Maps = Maps(uses: Sets, defs: Sets, phiOp: Sets, phiPair: map<Block, set<(Block, Var)>>, liveIn: Sets)

  /** The sets of one block after these instructions. */
  ghost predicate Scanned(m: Maps, need: set<Var>, geps: set<Var>, code: seq<Inst>, b: Block) {
    && At(m.uses, b) == UseOf(need, geps, code) == At(m.liveIn, b) && At(m.defs, b) == DefOf(need, geps, code)
    && PairsAt(m.phiPair, b) == PhiPairs(need, code) && At(m.phiOp, b) == Seconds(PhiPairs(need, code))
  }

  /** Only the sets of b change. */
  ghost predicate OnlyAt(m: Maps, m': Maps, b: Block) {
    forall c: Block {:trigger Unchanged(m, m', c)} :: c != b ==> Unchanged(m, m', c)
  }

  ghost predicate Unchanged(m: Maps, m': Maps, c: Block) {
    && At(m'.uses, c) == At(m.uses, c) && At(m'.defs, c) == At(m.defs, c) && At(m'.phiOp, c) == At(m.phiOp, c)
    && PairsAt(m'.phiPair, c) == PairsAt(m.phiPair, c) && At(m'.liveIn, c) == At(m.liveIn, c)
  }

  lemma OnlyAtTrans(m: Maps, m': Maps, m'': Maps, b: Block)
    requires OnlyAt(m, m', b) && OnlyAt(m', m'', b)
    ensures OnlyAt(m, m'', b)
  {
    forall c: Block | c != b
      ensures Unchanged(m, m'', c)
    {
      assert Unchanged(m, m', c) && Unchanged(m', m'', c);
    }
  }

  ghost function CodeOf(blocks: seq<seq<Inst>>, b: Block, n: nat): seq<Inst> {
    if b < n && b < |blocks| then blocks[b] else []
  }

  /** The first n blocks are done, the others untouched. */
  ghost predicate InitTo(m: Maps, need: set<Var>, geps: set<Var>, blocks: seq<seq<Inst>>, n: nat) {
    forall b: Block {:trigger Scanned(m, need, geps, CodeOf(blocks, b, n), b)} :: Scanned(m, need, geps, CodeOf(blocks, b, n), b)
  }

  lemma InitStep(m: Maps, m': Maps, need: set<Var>, geps: set<Var>, blocks: seq<seq<Inst>>, b: Block)
    requires b < |blocks| && InitTo(m, need, geps, blocks, b) && OnlyAt(m, m', b) && Scanned(m', need, geps, blocks[b], b)
    ensures InitTo(m', need, geps, blocks, b + 1)
  {
    var n := b + 1;
    forall c: Block
      ensures Scanned(m', need, geps, CodeOf(blocks, c, n), c)
    {
      assert Scanned(m, need, geps, CodeOf(blocks, c, b), c);
      assert c != b ==> CodeOf(blocks, c, n) == CodeOf(blocks, c, b);
      assert c != b ==> Unchanged(m, m', c);
    }
  }

  class ActiveVars {
    var liveIn: Sets
    var liveOut: Sets
    var useSet: Sets
    var defSet: Sets
    var phiOp: Sets
    var phiOpPair: map<Block, set<(Block, Var)>>

    constructor ()
      ensures liveIn == liveOut == useSet == defSet == phiOp == map[] && phiOpPair == map[]
    {
      liveIn, liveOut, useSet, defSet, phiOp, phiOpPair := map[], map[], map[], map[], map[], map[];
    }

    ghost function Sets(g: Graph): Facts
      reads this`useSet, this`defSet, this`phiOp, this`phiOpPair
    {
      Facts(g, useSet, defSet, phiOp, phiOpPair)
    }

    // -------------------------------------------------------------- uses and definitions

    /** Adds to the set of a block. */
    method AddUses(b: Block, s: set<Var>)
      requires At(liveIn, b) == At(useSet, b)
      modifies this`useSet, this`liveIn
      ensures At(useSet, b) == At(old(useSet), b) + s && At(liveIn, b) == At(useSet, b)
      ensures forall c: Block {:trigger At(useSet, c)} :: c != b ==> At(useSet, c) == At(old(useSet), c)
      ensures forall c: Block {:trigger At(liveIn, c)} :: c != b ==> At(liveIn, c) == At(old(liveIn), c)
    {
      AtPut(useSet, b, At(useSet, b) + s);
      AtPut(liveIn, b, At(liveIn, b) + s);
      useSet := useSet[b := At(useSet, b) + s];
      liveIn := liveIn[b := At(liveIn, b) + s];
    }

    method AddDef(b: Block, s: set<Var>)
      modifies this`defSet
      ensures At(defSet, b) == At(old(defSet), b) + s
      ensures forall c: Block {:trigger At(defSet, c)} :: c != b ==> At(defSet, c) == At(old(defSet), c)
    {
      AtPut(defSet, b, At(defSet, b) + s);
      defSet := defSet[b := At(defSet, b) + s];
    }

    /** The operands of an instruction that is no alloca. */
    method ScanOperands(need: set<Var>, geps: set<Var>, inst: Inst, b: Block, used: set<Var>, defed: set<Var>) returns (used': set<Var>)
      requires At(liveIn, b) == At(useSet, b) && !inst.kind.Alloca?
      modifies this`useSet, this`liveIn
      ensures used' == used + Used(need, inst) + Stored(geps, inst)
      ensures At(useSet, b) == At(old(useSet), b) + (Used(need, inst) - defed) + Stored(geps, inst)
      ensures At(liveIn, b) == At(useSet, b)
      ensures forall c: Block {:trigger At(useSet, c)} :: c != b ==> At(useSet, c) == At(old(useSet), c)
      ensures forall c: Block {:trigger At(liveIn, c)} :: c != b ==> At(liveIn, c) == At(old(liveIn), c)
    {
      hide At, Used, Stored, Counted, GepBase;
      used' := used;
      var i := 0;
      NoneCounted(need, inst);
      while i < |inst.ops|
        invariant i <= |inst.ops| && used' == used + Counted(need, inst, i)
        invariant At(useSet, b) == At(old(useSet), b) + (Counted(need, inst, i) - defed) && At(liveIn, b) == At(useSet, b)
        invariant forall c: Block {:trigger At(useSet, c)} :: c != b ==> At(useSet, c) == At(old(useSet), c)
        invariant forall c: Block {:trigger At(liveIn, c)} :: c != b ==> At(liveIn, c) == At(old(liveIn), c)
      {
        CountOne(need, inst, i);
        if Counts(need, inst, inst.ops[i]) {
          used' := used' + {inst.ops[i].v};
          if inst.ops[i].v !in defed {
            AddUses(b, {inst.ops[i].v});
          }
        }
        i := i + 1;
      }
      used' := ScanAddress(geps, inst, b, used', defed);
      UsedIs(need, inst);
    }

    static lemma UsedIs(need: set<Var>, inst: Inst)
      requires !inst.kind.Alloca?
      ensures Used(need, inst) == Counted(need, inst, |inst.ops|) + GepBase(inst)
    {
    }

    /** A gep uses its base even when that is a global; so does a store its address,
        if no gep computes that. */
    method ScanAddress(geps: set<Var>, inst: Inst, b: Block, used: set<Var>, defed: set<Var>) returns (used': set<Var>)
      requires At(liveIn, b) == At(useSet, b) && !inst.kind.Alloca?
      modifies this`useSet, this`liveIn
      ensures used' == used + GepBase(inst) + Stored(geps, inst)
      ensures At(useSet, b) == At(old(useSet), b) + (GepBase(inst) - defed) + Stored(geps, inst) && At(liveIn, b) == At(useSet, b)
      ensures forall c: Block {:trigger At(useSet, c)} :: c != b ==> At(useSet, c) == At(old(useSet), c)
      ensures forall c: Block {:trigger At(liveIn, c)} :: c != b ==> At(liveIn, c) == At(old(liveIn), c)
    {
      hide At;
      used' := used;
      if inst.kind.Gep? && |inst.ops| > 0 && inst.ops[0].Of? {
        used' := used' + {inst.ops[0].v};
        if inst.ops[0].v !in defed {
          AddUses(b, {inst.ops[0].v});
        }
      }
      if inst.kind.Store? && |inst.ops| > 1 && inst.ops[1].Of? && inst.ops[1].v !in geps {
        used' := used' + {inst.ops[1].v};
        AddUses(b, {inst.ops[1].v});
      }
    }

    static lemma NoneCounted(need: set<Var>, inst: Inst)
      ensures Counted(need, inst, 0) == {}
    {
    }

    /** The operands of a phi, with the blocks they come from. */
    method ScanPhi(need: set<Var>, inst: Inst, b: Block)
      requires PhiOk(inst)
      modifies this`phiOp, this`phiOpPair
      ensures PairsAt(phiOpPair, b) == PairsAt(old(phiOpPair), b) + Pairs(need, inst, |inst.ops| / 2)
      ensures At(phiOp, b) == At(old(phiOp), b) + Seconds(Pairs(need, inst, |inst.ops| / 2))
      ensures forall c: Block {:trigger At(phiOp, c)} :: c != b ==> At(phiOp, c) == At(old(phiOp), c)
      ensures forall c: Block {:trigger PairsAt(phiOpPair, c)} :: c != b ==> PairsAt(phiOpPair, c) == PairsAt(old(phiOpPair), c)
    {
      hide At, PairsAt;
      var i := 0;
      assert Seconds(Pairs(need, inst, 0)) == {};
      while i < |inst.ops|
        invariant i <= |inst.ops| && i % 2 == 0
        invariant PairsAt(phiOpPair, b) == PairsAt(old(phiOpPair), b) + Pairs(need, inst, i / 2)
        invariant At(phiOp, b) == At(old(phiOp), b) + Seconds(Pairs(need, inst, i / 2))
        invariant forall c: Block {:trigger At(phiOp, c)} :: c != b ==> At(phiOp, c) == At(old(phiOp), c)
        invariant forall c: Block {:trigger PairsAt(phiOpPair, c)} :: c != b ==> PairsAt(phiOpPair, c) == PairsAt(old(phiOpPair), c)
      {
        var v, from := inst.ops[i], inst.ops[i + 1];
        OnePair(need, inst, i / 2);
        assert (i + 2) / 2 == i / 2 + 1 && 2 * (i / 2) == i;
        if v.Of? && v.v in need {
          AtPut(phiOp, b, At(phiOp, b) + {v.v});
          PairsPut(phiOpPair, b, PairsAt(phiOpPair, b) + {(from.b, v.v)});
          phiOp := phiOp[b := At(phiOp, b) + {v.v}];
          phiOpPair := phiOpPair[b := PairsAt(phiOpPair, b) + {(from.b, v.v)}];
        }
        i := i + 2;
      }
    }

    static lemma OnePair(need: set<Var>, inst: Inst, n: nat)
      requires 2 * n + 2 <= |inst.ops|
      ensures var v, b := inst.ops[2 * n], inst.ops[2 * n + 1];
        var one: set<(Block, Var)> := if v.Of? && v.v in need && b.Label? then {(b.b, v.v)} else {};
        Pairs(need, inst, n + 1) == Pairs(need, inst, n) + one &&
        Seconds(Pairs(need, inst, n + 1)) == Seconds(Pairs(need, inst, n)) + (if v.Of? && v.v in need && b.Label? then {v.v} else {})
    {
      var v, b := inst.ops[2 * n], inst.ops[2 * n + 1];
      var one: set<(Block, Var)> := if v.Of? && v.v in need && b.Label? then {(b.b, v.v)} else {};
      SecondsUnion(Pairs(need, inst, n), one);
      assert Seconds(one) == if v.Of? && v.v in need && b.Label? then {v.v} else {} by {
        if v.Of? && v.v in need && b.Label? {
          assert (b.b, v.v) in one;
        }
      }
    }

    ghost function Now(): Maps
      reads this`useSet, this`defSet, this`phiOp, this`phiOpPair, this`liveIn
    {
      Maps(useSet, defSet, phiOp, phiOpPair, liveIn)
    }

    method ScanInst(need: set<Var>, geps: set<Var>, ghost code: seq<Inst>, inst: Inst, b: Block, used: set<Var>, defed: set<Var>)
      returns (used': set<Var>, defed': set<Var>)
      requires Scanned(Now(), need, geps, code, b) && used == AllUsed(need, geps, code) && defed == Results(code)
      requires (inst.kind.Phi? ==> PhiOk(inst)) && Result(inst) <= need
      modifies this`useSet, this`defSet, this`phiOp, this`phiOpPair, this`liveIn
      ensures Scanned(Now(), need, geps, code + [inst], b) && OnlyAt(old(Now()), Now(), b)
      ensures used' == AllUsed(need, geps, code + [inst]) && defed' == Results(code + [inst])
    {
      hide At, PairsAt, Used, Stored, Results, AllUsed, UseOf, DefOf, PhiPairs, Pairs, Seconds, PhiOk;
      OneInst(need, geps, code, inst);
      used', defed' := used, defed;
      if inst.kind.Alloca? {
        defed' := defed + Result(inst);
        AddDef(b, Result(inst));
        assert PhiPairs(need, code) + {} == PhiPairs(need, code);
      } else {
        used' := ScanOperands(need, geps, inst, b, used, defed);
        if inst.result.Some? && inst.result.v in need {
          defed' := defed + {inst.result.v};
          if inst.result.v !in used' {
            AddDef(b, {inst.result.v});
          }
        }
        assert !inst.kind.Phi? ==> PhiPairs(need, code) + {} == PhiPairs(need, code);
        if inst.kind.Phi? {
          SecondsUnion(PhiPairs(need, code), Pairs(need, inst, |inst.ops| / 2));
          ScanPhi(need, inst, b);
        }
      }
    }

    static lemma OneInst(need: set<Var>, geps: set<Var>, code: seq<Inst>, inst: Inst)
      ensures var now := code + [inst];
        && Results(now) == Results(code) + Result(inst)
        && AllUsed(need, geps, now) == AllUsed(need, geps, code) + Used(need, inst) + Stored(geps, inst)
        && UseOf(need, geps, now) == UseOf(need, geps, code) + (Used(need, inst) - Results(code)) + Stored(geps, inst)
        && DefOf(need, geps, now) == DefOf(need, geps, code) + (if inst.kind.Alloca? then Result(inst) else Result(inst) - AllUsed(need, geps, now))
        && PhiPairs(need, now) == PhiPairs(need, code) + (if inst.kind.Phi? then Pairs(need, inst, |inst.ops| / 2) else {})
        && (inst.kind.Alloca? ==> Used(need, inst) == {} && Stored(geps, inst) == {})
    {
      hide Counted, Pairs;
      var now := code + [inst];
      assert now[..|now| - 1] == code;
    }

    method InitBlock(need: set<Var>, geps: set<Var>, code: seq<Inst>, b: Block)
      requires Scanned(Now(), need, geps, [], b)
      requires forall i {:trigger code[i]} :: 0 <= i < |code| ==> (code[i].kind.Phi? ==> PhiOk(code[i])) && Result(code[i]) <= need
      modifies this`useSet, this`defSet, this`phiOp, this`phiOpPair, this`liveIn
      ensures Scanned(Now(), need, geps, code, b) && OnlyAt(old(Now()), Now(), b)
    {
      hide Scanned, PhiOk;
      var used: set<Var>, defed: set<Var> := {}, {};
      var i := 0;
      while i < |code|
        invariant i <= |code| && Scanned(Now(), need, geps, code[..i], b) && OnlyAt(old(Now()), Now(), b)
        invariant used == AllUsed(need, geps, code[..i]) && defed == Results(code[..i])
      {
        ghost var was := Now();
        used, defed := ScanInst(need, geps, code[..i], code[i], b, used, defed);
        OnlyAtTrans(old(Now()), was, Now(), b);
        assert code[..i] + [code[i]] == code[..i + 1];
        i := i + 1;
      }
      assert code[..i] == code;
    }

    /** Use, definition and phi sets of all blocks; what is used is live. */
    method InitSet(fn: Fn)
      requires fn.Valid() && liveIn == useSet == defSet == phiOp == map[] && phiOpPair == map[]
      modifies this`useSet, this`defSet, this`phiOp, this`phiOpPair, this`liveIn
      ensures FactsOf(fn, Sets(fn.g)) && FromCode(fn, Sets(fn.g)) && forall b: Block {:trigger At(liveIn, b)} :: At(liveIn, b) == At(useSet, b)
    {
      hide Scanned, FromCode;
      var need := Defined(fn.args, fn.blocks);
      var geps := GepResults(fn.blocks);
      var b := 0;
      NothingScanned(need, geps, fn.blocks);
      while b < |fn.blocks|
        invariant b <= |fn.blocks| && InitTo(Now(), need, geps, fn.blocks, b)
      {
        ghost var was := Now();
        assert Scanned(was, need, geps, CodeOf(fn.blocks, b, b), b);
        NeedsResults(fn, b);
        InitBlock(need, geps, fn.blocks[b], b);
        InitStep(was, Now(), need, geps, fn.blocks, b);
        b := b + 1;
      }
      AllScanned(fn, need, geps);
      SetsFromCode(fn, Sets(fn.g));
    }

    static lemma NeedsResults(fn: Fn, b: Block)
      requires fn.Valid() && b < |fn.blocks|
      ensures forall i {:trigger fn.blocks[b][i]} :: 0 <= i < |fn.blocks[b]| ==>
                (fn.blocks[b][i].kind.Phi? ==> PhiOk(fn.blocks[b][i])) && Result(fn.blocks[b][i]) <= Defined(fn.args, fn.blocks)
    {
    }

    lemma NothingScanned(need: set<Var>, geps: set<Var>, blocks: seq<seq<Inst>>)
      requires liveIn == useSet == defSet == phiOp == map[] && phiOpPair == map[]
      ensures InitTo(Now(), need, geps, blocks, 0)
    {
    }

    lemma AllScanned(fn: Fn, need: set<Var>, geps: set<Var>)
      requires InitTo(Now(), need, geps, fn.blocks, |fn.blocks|) && need == Defined(fn.args, fn.blocks) && geps == GepResults(fn.blocks)
      ensures FactsOf(fn, Sets(fn.g)) && forall b: Block {:trigger At(liveIn, b)} :: At(liveIn, b) == At(useSet, b)
    {
      hide UseOf, DefOf, PhiPairs, Seconds, At, PairsAt;
      var n := |fn.blocks|;
      EmptySets(need, geps);
      forall b: Block
        ensures At(useSet, b) == At(liveIn, b) == if b < n then UseOf(need, geps, fn.blocks[b]) else {}
        ensures At(defSet, b) == if b < n then DefOf(need, geps, fn.blocks[b]) else {}
        ensures At(phiOp, b) == if b < n then Seconds(PhiPairs(need, fn.blocks[b])) else {}
        ensures PairsAt(phiOpPair, b) == if b < n then PhiPairs(need, fn.blocks[b]) else {}
      {
        assert Scanned(Now(), need, geps, CodeOf(fn.blocks, b, n), b);
      }
    }

    static lemma EmptySets(need: set<Var>, geps: set<Var>)
      ensures UseOf(need, geps, []) == {} == DefOf(need, geps, []) && PhiPairs(need, []) == {} && Seconds({}) == {}
    {
    }

    // -------------------------------------------------------------- rescanning

    /** One block: what the successors need, and the block's own uses, without its
        definitions. Tells whether that changed anything. */
    method Update(g: Graph, b: Block) returns (changed: bool)
      requires g.InRange() && b < g.Size()
      modifies this`liveIn, this`liveOut
      ensures Sets(g).Recomputed(old(liveIn), liveIn, b)
      ensures changed <==> At(liveIn, b) != At(old(liveIn), b)
      ensures forall c: Block {:trigger At(liveOut, c)} :: c != b ==> At(liveOut, c) == At(old(liveOut), c)
      ensures forall v {:trigger v in At(liveOut, b)} :: v in At(liveOut, b) <==> Sets(g).FlowsIn(old(liveIn), b, v)
    {
      hide Facts.FlowsIn, Facts.Passes, Graph.InRange;
      ghost var was, f := liveIn, Sets(g);
      var curIn := At(liveIn, b);
      FromSuccessors(g, b);
      changed := Combine(b, curIn);
    }

    /** Uses are added, then definitions are taken out; is that what there was? */
    method Combine(b: Block, curIn: set<Var>) returns (changed: bool)
      requires b in liveIn
      modifies this`liveIn
      ensures forall c: Block {:trigger At(liveIn, c)} :: c != b ==> At(liveIn, c) == At(old(liveIn), c)
      ensures At(liveIn, b) == old(liveIn)[b] + At(useSet, b) - At(defSet, b)
      ensures changed <==> At(liveIn, b) != curIn
    {
      AtPut(liveIn, b, liveIn[b] + At(useSet, b));
      liveIn := liveIn[b := liveIn[b] + At(useSet, b)];
      AtPut(liveIn, b, liveIn[b] - At(defSet, b));
      liveIn := liveIn[b := liveIn[b] - At(defSet, b)];
      changed := |liveIn[b]| != |curIn| || !(curIn <= liveIn[b]);
      if !changed {
        SubsetSame(curIn, liveIn[b]);
      }
    }

    /** The sets of the block are cleared, then filled from its successors. */
    method FromSuccessors(g: Graph, b: Block)
      requires g.InRange() && b < g.Size()
      modifies this`liveIn, this`liveOut
      ensures b in liveIn && b in liveOut && liveIn[b] == liveOut[b]
      ensures forall c: Block {:trigger At(liveIn, c)} :: c != b ==> At(liveIn, c) == At(old(liveIn), c)
      ensures forall c: Block {:trigger At(liveOut, c)} :: c != b ==> At(liveOut, c) == At(old(liveOut), c)
      ensures forall v {:trigger v in liveOut[b]} :: v in liveOut[b] <==> Sets(g).FlowsIn(old(liveIn), b, v)
    {
      hide Facts.Passes;
      ghost var was, f := liveIn, Sets(g);
      AtPut(liveOut, b, {});
      AtPut(liveIn, b, {});
      liveOut := liveOut[b := {}];
      liveIn := liveIn[b := {}];
      var k := 0;
      while k < |g.succs[b]|
        invariant k <= |g.succs[b]| && f == Sets(g)
        invariant b in liveIn && b in liveOut && liveIn[b] == liveOut[b]
        invariant forall c: Block {:trigger At(liveIn, c)} :: c != b ==> At(liveIn, c) == At(was, c)
        invariant forall c: Block {:trigger At(liveOut, c)} :: c != b ==> At(liveOut, c) == At(old(liveOut), c)
        invariant forall v {:trigger v in liveOut[b]} :: v in liveOut[b] <==> Partly(f, was, b, k, v)
      {
        AddFrom(g, b, g.succs[b][k], was, k);
        k := k + 1;
      }
      forall v
        ensures Partly(f, was, b, k, v) <==> f.FlowsIn(was, b, v)
      {
        AllAsked(f, was, b, v);
      }
    }

    static lemma AllAsked(f: Facts, was: Sets, b: Block, v: Var)
      requires b < f.g.Size()
      ensures Partly(f, was, b, |f.g.succs[b]|, v) <==> f.FlowsIn(was, b, v)
    {
      hide Facts.Passes;
    }

    /** The first k successors have been asked. */
    static ghost predicate Partly(f: Facts, was: Sets, b: Block, k: nat, v: Var)
      requires b < f.g.Size() && k <= |f.g.succs[b]|
    {
      exists i :: 0 <= i < k && f.g.succs[b][i] != b && v in At(was, f.g.succs[b][i]) && f.Passes(b, f.g.succs[b][i], v)
    }

    /** What one successor needs. */
    method AddFrom(g: Graph, b: Block, succ: Block, ghost was: Sets, ghost k: nat)
      requires g.InRange() && b < g.Size() && k < |g.succs[b]| && succ == g.succs[b][k]
      requires b in liveIn && b in liveOut && liveIn[b] == liveOut[b]
      requires forall c: Block {:trigger At(liveIn, c)} :: c != b ==> At(liveIn, c) == At(was, c)
      requires forall v {:trigger v in liveOut[b]} :: v in liveOut[b] <==> Partly(Sets(g), was, b, k, v)
      modifies this`liveIn, this`liveOut
      ensures b in liveIn && b in liveOut && liveIn[b] == liveOut[b]
      ensures forall c: Block {:trigger At(liveIn, c)} :: c != b ==> At(liveIn, c) == At(was, c)
      ensures forall c: Block {:trigger At(liveOut, c)} :: c != b ==> At(liveOut, c) == At(old(liveOut), c)
      ensures forall v {:trigger v in liveOut[b]} :: v in liveOut[b] <==> Partly(Sets(g), was, b, k + 1, v)
    {
      hide Facts.Passes;
      ghost var f, out0 := Sets(g), liveOut[b];
      var items := At(liveIn, succ);
      ghost var all := items;
      while items != {}
        invariant items <= all && f == Sets(g)
        invariant b in liveIn && b in liveOut && liveIn[b] == liveOut[b]
        invariant forall c: Block {:trigger At(liveIn, c)} :: c != b ==> At(liveIn, c) == At(was, c)
        invariant forall c: Block {:trigger At(liveOut, c)} :: c != b ==> At(liveOut, c) == At(old(liveOut), c)
        invariant forall v {:trigger v in liveOut[b]} :: v in liveOut[b] <==> v in out0 || (v in all - items && f.Passes(b, succ, v))
      {
        var inItem :| inItem in items;
        if inItem !in liveOut[b] {
          if !(inItem in At(phiOp, succ) && (b, inItem) !in PairsAt(phiOpPair, succ)) {
            AtPut(liveOut, b, liveOut[b] + {inItem});
            AtPut(liveIn, b, liveIn[b] + {inItem});
            liveOut := liveOut[b := liveOut[b] + {inItem}];
            liveIn := liveIn[b := liveIn[b] + {inItem}];
          }
        }
        assert f.Passes(b, succ, inItem) <==> !(inItem in At(phiOp, succ) && (b, inItem) !in PairsAt(phiOpPair, succ)) by {
          PassesIs(f, b, succ, inItem);
        }
        items := items - {inItem};
      }
      forall v
        ensures v in liveOut[b] <==> Partly(f, was, b, k + 1, v)
      {
        assert v in out0 <==> Partly(f, was, b, k, v);
        if v in all && f.Passes(b, succ, v) {
          assert succ == b ==> v in out0;
          assert g.succs[b][k] == succ;
        }
      }
    }

    static lemma PassesIs(f: Facts, b: Block, c: Block, v: Var)
      ensures f.Passes(b, c, v) <==> !(v in At(f.phiOp, c) && (b, v) !in PairsAt(f.phiPair, c))
    {
    }

    /** What has been found to hold of the first n blocks. */
    static ghost predicate Settled(f: Facts, liveIn: Sets, liveOut: Sets, n: nat) {
      forall b: Block {:trigger f.Solved(liveIn, b)} :: b < n ==> f.Solved(liveIn, b) && OutAt(f, liveIn, liveOut, b)
    }

    static ghost predicate OutAt(f: Facts, liveIn: Sets, liveOut: Sets, b: Block) {
      forall v {:trigger v in At(liveOut, b)} :: v in At(liveOut, b) <==> f.FlowsIn(liveIn, b, v)
    }

    static ghost predicate Same(a: Sets, b: Sets) {
      forall c: Block {:trigger At(a, c)} {:trigger At(b, c)} :: At(a, c) == At(b, c)
    }

    static lemma FlowsSame(f: Facts, a: Sets, b: Sets, c: Block, v: Var)
      requires Same(a, b)
      ensures f.FlowsIn(a, c, v) <==> f.FlowsIn(b, c, v)
    {
      hide Facts.Passes;
    }

    /** One more block is settled when it and all before it did not change. */
    static lemma SettledStep(f: Facts, was: Sets, now: Sets, outWas: Sets, out: Sets, b: Block)
      requires f.Recomputed(was, now, b) && Settled(f, was, outWas, b) && At(now, b) == At(was, b)
      requires forall c: Block {:trigger At(out, c)} :: c != b ==> At(out, c) == At(outWas, c)
      requires forall v {:trigger v in At(out, b)} :: v in At(out, b) <==> f.FlowsIn(was, b, v)
      ensures Settled(f, now, out, b + 1) && Same(was, now)
    {
      hide Facts.FlowsIn;
      assert Same(was, now);
      forall c: Block | c < b + 1
        ensures f.Solved(now, c) && OutAt(f, now, out, c)
      {
        if c < b {
          assert f.Solved(was, c) && OutAt(f, was, outWas, c);
        }
        forall v
          ensures f.FlowsIn(was, c, v) <==> f.FlowsIn(now, c, v)
        {
          FlowsSame(f, was, now, c, v);
        }
      }
    }

    /** The first b blocks have been recomputed once more than the others. */
    static ghost predicate Midway(f: Facts, liveIn: Sets, n: nat, b: Block) {
      forall c: Block, v {:trigger v in At(liveIn, c)} :: v in At(liveIn, c) <==> After(f, if c < b then n + 1 else n, c, v)
    }

    /** All have been recomputed n times. */
    static ghost predicate SetsAfter(f: Facts, liveIn: Sets, n: nat) {
      forall c: Block, v {:trigger v in At(liveIn, c)} :: v in At(liveIn, c) <==> After(f, n, c, v)
    }

    static lemma MidwayStep(f: Facts, was: Sets, now: Sets, n: nat, b: Block)
      requires Midway(f, was, n, b) && f.Recomputed(was, now, b) && b < f.g.Size()
      ensures Midway(f, now, n, b + 1)
    {
      hide Facts.Passes;
      forall c: Block, v
        ensures v in At(now, c) <==> After(f, if c < b + 1 then n + 1 else n, c, v)
      {
        if c == b {
          MidwayFlows(f, was, n, b, v);
          assert v in At(now, b) <==> f.Equation(was, b, v);
        } else {
          assert v in At(now, c) <==> v in At(was, c);
        }
      }
    }

    static lemma MidwayFlows(f: Facts, was: Sets, n: nat, b: Block, v: Var)
      requires Midway(f, was, n, b)
      ensures f.FlowsIn(was, b, v) <==> exists c: Block {:trigger Asks(f, b, c, v)} :: Asks(f, b, c, v) && After(f, if c < b then n + 1 else n, c, v)
    {
      hide Facts.Passes, After;
      if f.FlowsIn(was, b, v) {
        var c :| c in f.g.succs[b] && c != b && v in At(was, c) && f.Passes(b, c, v);
        assert Asks(f, b, c, v);
      }
    }

    static lemma MidwayEnd(f: Facts, liveIn: Sets, n: nat)
      requires Bounded(f) && Midway(f, liveIn, n, f.g.Size())
      ensures SetsAfter(f, liveIn, n + 1)
    {
      hide After, Bounded;
      forall c: Block, v
        ensures v in At(liveIn, c) <==> After(f, n + 1, c, v)
      {
        if c >= f.g.Size() {
          NothingOutside(f, n, c, v);
          NothingOutside(f, n + 1, c, v);
        }
      }
    }

    static lemma MidwayStart(f: Facts, liveIn: Sets, n: nat)
      requires SetsAfter(f, liveIn, n)
      ensures Midway(f, liveIn, n, 0)
    {
      hide After;
    }

    /** A block has another set behind the scan. */
    static ghost predicate Moved(f: Facts, n: nat, b: Block) { exists v :: After(f, n + 1, b, v) != After(f, n, b, v) }

    static lemma MovedHere(f: Facts, was: Sets, now: Sets, n: nat, b: Block)
      requires Midway(f, was, n, b) && Midway(f, now, n, b + 1) && At(was, b) != At(now, b)
      ensures Moved(f, n, b)
    {
      hide After, At;
      var v :| (v in At(was, b)) != (v in At(now, b));
      assert v in At(was, b) <==> After(f, n, b, v);
      assert v in At(now, b) <==> After(f, n + 1, b, v);
    }

    static lemma StillIs(f: Facts, first: Sets, liveIn: Sets, n: nat)
      requires SetsAfter(f, first, n) && SetsAfter(f, liveIn, n + 1) && Same(first, liveIn)
      ensures StillAt(f, n)
    {
      hide After, At;
      forall b: Block, v
        ensures After(f, n + 1, b, v) <==> After(f, n, b, v)
      {
        assert v in At(first, b) <==> After(f, n, b, v);
        assert v in At(liveIn, b) <==> After(f, n + 1, b, v);
      }
    }

    /** All blocks once. Another scan follows iff this one has changed a set. */
    method Scan(g: Graph, ghost n: nat) returns (rescan: bool)
      requires Bounded(Sets(g)) && SetsAfter(Sets(g), liveIn, n)
      modifies this`liveIn, this`liveOut
      ensures SetsAfter(Sets(g), liveIn, n + 1)
      ensures rescan <==> !StillAt(Sets(g), n)
      ensures !rescan ==> Settled(Sets(g), liveIn, liveOut, g.Size())
    {
      hide Facts.Recomputed, Settled, Facts.FlowsIn, At, After, Midway, Moved;
      ghost var f, first := Sets(g), liveIn;
      rescan := false;
      var b := 0;
      NothingSettled(f, liveIn, liveOut);
      MidwayStart(f, liveIn, n);
      while b < g.Size()
        invariant b <= g.Size() && f == Sets(g) && Midway(f, liveIn, n, b)
        invariant !rescan ==> Settled(f, liveIn, liveOut, b) && Same(first, liveIn)
        invariant rescan ==> exists c: Block :: Moved(f, n, c)
      {
        ghost var was, outWas := liveIn, liveOut;
        var changed := Update(g, b);
        MidwayStep(f, was, liveIn, n, b);
        if changed {
          MovedHere(f, was, liveIn, n, b);
          rescan := true;
        } else if !rescan {
          SettledStep(f, was, liveIn, outWas, liveOut, b);
        }
        b := b + 1;
      }
      MidwayEnd(f, liveIn, n);
      if rescan {
        NotStill(f, n);
      } else {
        StillIs(f, first, liveIn, n);
      }
    }

    static lemma NotStill(f: Facts, n: nat)
      requires exists c: Block :: Moved(f, n, c)
      ensures !StillAt(f, n)
    {
      hide After;
      var c: Block :| Moved(f, n, c);
      var v :| After(f, n + 1, c, v) != After(f, n, c, v);
      assert After(f, n, c, v) != After(f, n + 1, c, v);
    }

    static lemma NothingSettled(f: Facts, liveIn: Sets, liveOut: Sets)
      ensures Settled(f, liveIn, liveOut, 0)
    {
    }

    /** The sets hold exactly what is live. */
    static ghost predicate InRight(f: Facts, liveIn: Sets) {
      forall b: Block, v {:trigger v in At(liveIn, b)} :: v in At(liveIn, b) <==> b < f.g.Size() && f.Live(b, v)
    }

    static ghost predicate OutRight(f: Facts, liveOut: Sets) {
      forall b: Block, v {:trigger v in At(liveOut, b)} :: b < f.g.Size() ==> (v in At(liveOut, b) <==> f.LiveBehind(b, v))
    }

    static ghost predicate InEnough(f: Facts, liveIn: Sets) {
      forall b: Block, v {:trigger f.Live(b, v)} :: b < f.g.Size() && f.Live(b, v) ==> v in At(liveIn, b)
    }

    /** Scans until one changes nothing. Here it is cut off after some number of scans:
        it ends iff one of them changes nothing, as it does, after no more scans than
        blocks and one, if no stray goes round. If it ends the sets hold what is live,
        and nothing else iff no stray goes round. */
    method Solve(g: Graph, scans: nat) returns (ended: bool)
      requires Bounded(Sets(g)) && forall b: Block {:trigger At(liveIn, b)} :: At(liveIn, b) == At(useSet, b)
      modifies this`liveIn, this`liveOut
      ensures ended <==> exists k: nat :: k < scans && StillAt(Sets(g), k)
      ensures ended ==> exists k: nat :: k < scans && StillAt(Sets(g), k) && SetsAfter(Sets(g), liveIn, k)
      ensures Clean(Sets(g)) && scans > g.Size() ==> ended
      ensures ended ==> InEnough(Sets(g), liveIn) && (InRight(Sets(g), liveIn) <==> Clean(Sets(g)))
      ensures ended && Clean(Sets(g)) ==> OutRight(Sets(g), liveOut)
    {
      hide Settled, Facts.Live, At, Clean, StillAt, After, Bounded, InRight, OutRight, InEnough;
      ghost var f := Sets(g);
      SeedsScanned(f, liveIn);
      var rescan := true;
      var n := 0;
      while rescan && n < scans
        invariant n <= scans && f == Sets(g) && SetsAfter(f, liveIn, n)
        invariant forall k: nat :: k < (if rescan then n else n - 1) ==> !StillAt(f, k)
        invariant !rescan ==> n > 0 && StillAt(f, n - 1) && Settled(f, liveIn, liveOut, g.Size())
        decreases scans - n
      {
        rescan := Scan(g, n);
        n := n + 1;
      }
      ended := !rescan;
      if Clean(f) && scans > g.Size() {
        CleanEnds(f, g.Size());
      }
      if ended {
        SettledExact(f, liveIn, liveOut, n - 1);
      }
    }

    static lemma SeedsScanned(f: Facts, liveIn: Sets)
      requires forall b: Block {:trigger At(liveIn, b)} :: At(liveIn, b) == At(f.uses, b)
      ensures SetsAfter(f, liveIn, 0)
    {
      hide At;
    }

    static lemma SettledExact(f: Facts, liveIn: Sets, liveOut: Sets, k: nat)
      requires Bounded(f) && StillAt(f, k) && SetsAfter(f, liveIn, k + 1) && Settled(f, liveIn, liveOut, f.g.Size())
      ensures InEnough(f, liveIn) && (InRight(f, liveIn) <==> Clean(f)) && SetsAfter(f, liveIn, k)
      ensures Clean(f) ==> OutRight(f, liveOut)
    {
      hide After, Facts.LiveWay, Clean;
      HoldsEnough(f, liveIn, liveOut);
      EndsRight(f, k);
      hide Settled, Bounded, At, Facts.Live;
      forall b: Block, v
        ensures v in At(liveIn, b) <==> After(f, k, b, v)
        ensures b >= f.g.Size() ==> !After(f, k, b, v)
      {
        assert v in At(liveIn, b) <==> After(f, k + 1, b, v);
        assert After(f, k + 1, b, v) <==> After(f, k, b, v);
        if b >= f.g.Size() {
          NothingOutside(f, k, b, v);
        }
      }
      assert InRight(f, liveIn) <==> RightAfter(f, k) by {
        RightIs(f, liveIn, k);
      }
      if Clean(f) {
        OutIs(f, liveIn, liveOut);
      }
    }

    static lemma RightIs(f: Facts, liveIn: Sets, k: nat)
      requires forall b: Block, v {:trigger v in At(liveIn, b)} {:trigger After(f, k, b, v)} :: v in At(liveIn, b) <==> After(f, k, b, v)
      requires forall b: Block, v {:trigger After(f, k, b, v)} :: b >= f.g.Size() ==> !After(f, k, b, v)
      ensures InRight(f, liveIn) <==> RightAfter(f, k)
    {
      hide After, Facts.Live, At;
      if InRight(f, liveIn) {
        forall b: Block, v | b < f.g.Size()
          ensures After(f, k, b, v) <==> f.Live(b, v)
        {
          assert v in At(liveIn, b) <==> f.Live(b, v);
        }
      } else {
        var b: Block, v :| (v in At(liveIn, b)) != (b < f.g.Size() && f.Live(b, v));
        assert After(f, k, b, v) != f.Live(b, v);
      }
    }

    static lemma HoldsEnough(f: Facts, liveIn: Sets, liveOut: Sets)
      requires Bounded(f) && Settled(f, liveIn, liveOut, f.g.Size())
      ensures InEnough(f, liveIn)
    {
      hide Facts.Passes, Facts.Equation;
      forall b: Block, v | b < f.g.Size() && f.Live(b, v)
        ensures v in At(liveIn, b)
      {
        var p :| f.LiveWay(p, b, v);
        f.SolvedHolds(liveIn, p, b, v);
      }
    }

    static lemma OutIs(f: Facts, liveIn: Sets, liveOut: Sets)
      requires Settled(f, liveIn, liveOut, f.g.Size()) && InRight(f, liveIn) && f.g.InRange()
      ensures OutRight(f, liveOut)
    {
      hide Facts.Passes, Facts.Equation, Facts.Live, At;
      forall b: Block, v | b < f.g.Size()
        ensures v in At(liveOut, b) <==> f.LiveBehind(b, v)
      {
        assert f.Solved(liveIn, b) && OutAt(f, liveIn, liveOut, b);
      }
    }

    /** The pass on one function; empty sets are dropped at the end. It ends with what
        is live iff no stray goes round. */
    method Run(fn: Fn, scans: nat) returns (ended: bool)
      requires fn.Valid()
      requires liveIn == liveOut == useSet == defSet == phiOp == map[] && phiOpPair == map[]
      modifies this
      ensures FactsOf(fn, Sets(fn.g)) && FromCode(fn, Sets(fn.g))
      ensures ended <==> exists k: nat :: k < scans && StillAt(Sets(fn.g), k)
      ensures ended ==> exists k: nat :: k < scans && StillAt(Sets(fn.g), k) && SetsAfter(Sets(fn.g), liveIn, k)
      ensures Clean(Sets(fn.g)) && scans > fn.g.Size() ==> ended
      ensures ended ==> InEnough(Sets(fn.g), liveIn) && (InRight(Sets(fn.g), liveIn) <==> Clean(Sets(fn.g)))
      ensures ended && Clean(Sets(fn.g)) ==> OutRight(Sets(fn.g), liveOut)
      ensures ended ==> forall b: Block {:trigger b in liveIn} {:trigger b in liveOut} ::
                b < fn.g.Size() ==> (b in liveIn ==> liveIn[b] != {}) && (b in liveOut ==> liveOut[b] != {})
      ensures ended && Clean(Sets(fn.g)) ==> forall b: Block {:trigger At(liveOut, b)} :: b < fn.g.Size() ==> OutExact(Sets(fn.g), b, At(liveOut, b))
    {
      hide FactsOf, FromCode, OutExact, Facts.Live, Facts.LiveBehind, Clean, StillAt, Bounded, InRight, OutRight, InEnough;
      InitSet(fn);
      UsesInside(fn, Sets(fn.g));
      ended := Solve(fn.g, scans);
      if !ended {
        return;
      }
      ghost var inn, out, f := liveIn, liveOut, Sets(fn.g);
      var b := 0;
      while b < fn.g.Size()
        invariant b <= fn.g.Size() && Same(inn, liveIn) && Same(out, liveOut)
        invariant f == Sets(fn.g)
        invariant forall c: Block {:trigger c in liveIn} {:trigger c in liveOut} ::
                    c < b ==> (c in liveIn ==> liveIn[c] != {}) && (c in liveOut ==> liveOut[c] != {})
      {
        if b in liveIn && |liveIn[b]| == 0 {
          liveIn := liveIn - {b};
        }
        if b in liveOut && |liveOut[b]| == 0 {
          liveOut := liveOut - {b};
        }
        b := b + 1;
      }
      AllSame(f, inn, liveIn, out, liveOut);
      if Clean(f) {
        forall b: Block | b < fn.g.Size()
          ensures OutExact(f, b, At(liveOut, b))
        {
          OutIsExact(f, liveOut, b);
        }
      }
    }

    static lemma UsesInside(fn: Fn, f: Facts)
      requires fn.Valid() && FactsOf(fn, f)
      ensures Bounded(f)
    {
      hide UseOf, DefOf, PhiPairs, Defined, GepResults;
    }

    /** Dropping empty sets says nothing else. */
    static lemma AllSame(f: Facts, inn: Sets, inn': Sets, out: Sets, out': Sets)
      requires Same(inn, inn') && Same(out, out')
      ensures InEnough(f, inn') == InEnough(f, inn) && InRight(f, inn') == InRight(f, inn) && OutRight(f, out') == OutRight(f, out)
      ensures forall k: nat :: SetsAfter(f, inn', k) == SetsAfter(f, inn, k)
    {
      hide Facts.Live, Facts.LiveBehind, At, After;
      assert forall b: Block, v {:trigger v in At(inn, b)} {:trigger v in At(inn', b)} :: v in At(inn, b) <==> v in At(inn', b);
      assert forall b: Block, v {:trigger v in At(out, b)} {:trigger v in At(out', b)} :: v in At(out, b) <==> v in At(out', b);
    }

    static lemma OutIsExact(f: Facts, out: Sets, b: Block)
      requires OutRight(f, out) && b < f.g.Size()
      ensures OutExact(f, b, At(out, b))
    {
      hide Facts.LiveBehind, OutExact, At;
      RightOut(f, b, At(out, b));
    }

    /** What is live behind a block is found exactly iff nothing is live only round
        it; so it is if the block does not lead to itself. */
    static ghost predicate OutExact(f: Facts, b: Block, out: set<Var>)
      requires b < f.g.Size()
    {
      && ((forall v {:trigger LiveAfter(f, b, v)} :: v in out <==> LiveAfter(f, b, v)) <==> forall v :: !OnlyAround(f, b, v))
      && (b !in f.g.succs[b] ==> forall v {:trigger LiveAfter(f, b, v)} :: v in out <==> LiveAfter(f, b, v))
    }

    static lemma RightOut(f: Facts, b: Block, out: set<Var>)
      requires b < f.g.Size() && forall v {:trigger v in out} :: v in out <==> f.LiveBehind(b, v)
      ensures OutExact(f, b, out)
    {
      hide Facts.LiveBehind, LiveAfter, OnlyAround;
      OutIsRight(f, b, out);
    }
  }

  /** The pass on a function with a block that leads to itself: 7 is live there, and
      missing. */
  method MissesSelfLoop() returns (liveIn: Sets, liveOut: Sets, ghost f: Facts)
    ensures FactsOf(SelfLoop(), f) && LiveAfter(f, 1, 7) && 7 !in At(liveOut, 1) && 7 in At(liveIn, 1)
  {
    hide Facts.Live, Facts.LiveBehind, LiveAfter, FactsOf, Separate, AllTidy, Clean, StillAt;
    SelfLoopFits();
    var pass := new ActiveVars();
    var ended := pass.Run(SelfLoop(), 4);
    f := pass.Sets(SelfLoop().g);
    SeparateIsClean(SelfLoop(), f);
    SelfLoopMissed(f);
    SelfLoopHere(f);
    liveIn, liveOut := pass.liveIn, pass.liveOut;
  }

  lemma SelfLoopFits()
    ensures SelfLoop().Valid() && Separate(SelfLoop()) && SelfLoop().g.Size() == 3
  {
    SelfLoopTidy();
    hide AllTidy;
    TidyIsSeparate(SelfLoop());
  }

  lemma SelfLoopHere(f: Facts)
    requires FactsOf(SelfLoop(), f)
    ensures f.Live(1, 7) && f.g == SelfLoop().g
  {
    SelfLoopSets(f);
    assert f.LiveWay([1], 1, 7);
  }

  /** On a function whose last block stores to its own alloca, behind a ring of three,
      the pass has not ended after any number of scans. */
  method OwnStoreRuns(scans: nat) returns (ended: bool)
    ensures !ended
  {
    hide FactsOf, StoreLast, Clean, StillAt, RingOfThree;
    RingsFit();
    var pass := new ActiveVars();
    ended := pass.Run(StoreLast(RingOfThree()), scans);
    forall k: nat
      ensures !StillAt(pass.Sets(RingOfThree()), k)
    {
      OwnStoreNeverEnds(pass.Sets(RingOfThree()), k);
    }
  }

  /** Behind a ring of two it ends, and takes 9 for live where nothing is. */
  method OwnStoreIsWrong() returns (liveIn: Sets, ghost f: Facts)
    ensures FactsOf(StoreLast(RingOfTwo()), f) && 9 in At(liveIn, 1) && forall b: Block, v :: !f.Live(b, v)
  {
    hide FactsOf, StoreLast, Clean, StillAt, RingOfTwo;
    RingsFit();
    var pass := new ActiveVars();
    var ended := pass.Run(StoreLast(RingOfTwo()), 3);
    f := pass.Sets(RingOfTwo());
    OwnStoreEndsWrong(f);
    liveIn := pass.liveIn;
    assert ended;
    ghost var k: nat :| k < 3 && StillAt(f, k) && ActiveVars.SetsAfter(f, liveIn, k);
    NotAtFirst(f);
    Remains(f, k);
    assert 9 in At(liveIn, 1) <==> After(f, k, 1, 9);
  }

  lemma NotAtFirst(f: Facts)
    requires FactsOf(StoreLast(RingOfTwo()), f)
    ensures !StillAt(f, 0)
  {
    RingsInRange();
    StoreStep(RingOfTwo(), f, 0, 1);
    Remains(f, 1);
    hide FactsOf, StoreLast;
  }

  lemma RingsFit()
    ensures StoreLast(RingOfThree()).Valid() && StoreLast(RingOfTwo()).Valid()
    ensures StoreLast(RingOfThree()).g == RingOfThree() && StoreLast(RingOfTwo()).g == RingOfTwo()
  {
  }
}
