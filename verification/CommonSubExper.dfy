/** The pass over a function: block after block, a repetition is replaced wherever it is
    used, and deleted at the end of its block. At every moment the function is the
    original under the replacements made so far. */
module CommonSubExper {
  import opened Arithmetic
  import opened Cfg
  import opened ArrayIr
  import opened ArraySsa
  import opened CseTables
  import opened CseFacts
  import opened CseSteps
  import opened CseMeaning
  import opened CseFinds

  // ---------------------------------------------------------------- what has been dealt with

  /** All results that take part have been dealt with. */
  ghost predicate PassSites(c: SsaFunc, s: Pass, b: Block, i: int) {
    && (forall d {:trigger d in s.sub} :: d in s.sub ==> Walked(c, d, b, i) && Walked(c, s.sub[d], b, i))
    && forall k {:trigger k in s.table} :: k in s.table ==> Walked(c, s.table[k], b, i)
  }

  lemma EnterSites(made: Makers, impure: set<nat>, t: Table, w: Instr)
    ensures forall k {:trigger k in Enter(made, impure, t, w)} :: k in Enter(made, impure, t, w) ==>
      (k in t && Enter(made, impure, t, w)[k] == t[k]) || (KeyOf(w).Some? && !w.Store? && Enter(made, impure, t, w)[k] == w.d)
  {
    hide Kills;
  }

  lemma StepSites(c: SsaFunc, impure: set<nat>, s: Pass, b: Block, i: nat)
    requires c.Valid() && b < |c.f| && i < |c.f[b].body| && PassSites(c, s, b, i)
    ensures PassSites(c, Step(MakersOf(c), impure, s, c.f[b].body[i]), b, i + 1)
  {
    hide SsaFunc.Valid, MakersOf, Enter, KeyOf, SubInstr;
    var w := c.f[b].body[i];
    var j := SubInstr(s.sub, w);
    DestStays(s.sub, w);
    EnterSites(MakersOf(c), impure, s.table, j);
    if !w.Store? {
      c.MadeIs(b, i);
    }
  }

  lemma DestStays(sub: Sub, w: Instr)
    ensures SubInstr(sub, w).Store? <==> w.Store?
    ensures !w.Store? ==> SubInstr(sub, w).d == w.d
    ensures KeyOf(SubInstr(sub, w)).Some? ==> !w.Store?
  {
  }

  /** Nothing of block b from position i on takes part yet. */
  lemma SitesOther(c: SsaFunc, s: Pass, b: Block, i: nat)
    requires c.Valid() && b < |c.f| && i < |c.f[b].body| && PassSites(c, s, b, i) && !c.f[b].body[i].Store?
    ensures c.f[b].body[i].d !in s.sub && forall x {:trigger x in s.sub} :: x in s.sub ==> s.sub[x] != c.f[b].body[i].d
  {
    hide SsaFunc.Valid;
    c.MadeIs(b, i);
  }

  // ---------------------------------------------------------------- replacing twice

  function SubWhole(sub: Sub, bb: BasicBlock): BasicBlock { BasicBlock(SubPhis(sub, bb.phis), SubBody(sub, bb.body), SubTerm(sub, bb.term)) }

  lemma ValTwice(sub: Sub, d: Reg, r: Reg, v: Value)
    requires d !in sub && forall x {:trigger x in sub} :: x in sub ==> sub[x] != d
    ensures SubVal(map[d := r], SubVal(sub, v)) == SubVal(sub[d := r], v)
  {
  }

  lemma InstrTwice(sub: Sub, d: Reg, r: Reg, w: Instr)
    requires d !in sub && forall x {:trigger x in sub} :: x in sub ==> sub[x] != d
    ensures SubInstr(map[d := r], SubInstr(sub, w)) == SubInstr(sub[d := r], w)
  {
    hide SubVal;
    forall v: Value
      ensures SubVal(map[d := r], SubVal(sub, v)) == SubVal(sub[d := r], v)
    {
      ValTwice(sub, d, r, v);
    }
    if w.Call? {
      assert SubAll(map[d := r], SubAll(sub, w.args)) == SubAll(sub[d := r], w.args);
    }
  }

  lemma PhiTwice(sub: Sub, d: Reg, r: Reg, phi: Phi)
    requires d !in sub && forall x {:trigger x in sub} :: x in sub ==> sub[x] != d
    ensures SubPhi(map[d := r], SubPhi(sub, phi)) == SubPhi(sub[d := r], phi)
  {
    hide SubVal;
    forall v: Value
      ensures SubVal(map[d := r], SubVal(sub, v)) == SubVal(sub[d := r], v)
    {
      ValTwice(sub, d, r, v);
    }
    assert SubPairs(map[d := r], SubPairs(sub, phi.pairs)) == SubPairs(sub[d := r], phi.pairs);
  }

  lemma BlockTwice(gone: set<Reg>, sub: Sub, d: Reg, r: Reg, bb: BasicBlock)
    requires d !in sub && forall x {:trigger x in sub} :: x in sub ==> sub[x] != d
    ensures SubWhole(map[d := r], SubBlock(gone, sub, bb)) == SubBlock(gone, sub[d := r], bb)
  {
    hide SubInstr, SubPhi, SubVal, Keep;
    var one, both := map[d := r], sub[d := r];
    var body := Keep(gone, bb.body);
    forall k | 0 <= k < |body|
      ensures SubInstr(one, SubInstr(sub, body[k])) == SubInstr(both, body[k])
    {
      InstrTwice(sub, d, r, body[k]);
    }
    assert SubBody(one, SubBody(sub, body)) == SubBody(both, body);
    forall k | 0 <= k < |bb.phis|
      ensures SubPhi(one, SubPhi(sub, bb.phis[k])) == SubPhi(both, bb.phis[k])
    {
      PhiTwice(sub, d, r, bb.phis[k]);
    }
    assert SubPhis(one, SubPhis(sub, bb.phis)) == SubPhis(both, bb.phis);
    forall v: Value
      ensures SubVal(one, SubVal(sub, v)) == SubVal(both, v)
    {
      ValTwice(sub, d, r, v);
    }
  }

  lemma InstrNothing(w: Instr)
    ensures SubInstr(map[], w) == w
  {
    if w.Call? {
      assert SubAll(map[], w.args) == w.args;
    }
  }

  lemma {:induction false} KeepNothing(body: seq<Instr>)
    ensures Keep({}, body) == body
  {
    if body != [] {
      KeepNothing(body[..|body| - 1]);
    }
  }

  lemma BlockNothing(bb: BasicBlock)
    ensures SubBlock({}, map[], bb) == bb
  {
    hide SubInstr;
    KeepNothing(bb.body);
    forall k | 0 <= k < |bb.body|
      ensures SubInstr(map[], bb.body[k]) == bb.body[k]
    {
      InstrNothing(bb.body[k]);
    }
    assert SubBody(map[], bb.body) == bb.body;
    forall k | 0 <= k < |bb.phis|
      ensures SubPhi(map[], bb.phis[k]) == bb.phis[k]
    {
      assert SubPairs(map[], bb.phis[k].pairs) == bb.phis[k].pairs;
    }
    assert SubPhis(map[], bb.phis) == bb.phis;
  }

  // ---------------------------------------------------------------- deleting

  lemma {:induction false} KeepSame(gone: set<Reg>, gone': set<Reg>, body: seq<Instr>)
    requires forall k {:trigger body[k]} :: 0 <= k < |body| && !body[k].Store? ==> (body[k].d in gone <==> body[k].d in gone')
    ensures Keep(gone, body) == Keep(gone', body)
  {
    if body != [] {
      var n := |body| - 1;
      assert forall k {:trigger body[..n][k]} :: 0 <= k < n ==> body[..n][k] == body[k];
      assert body[n] == body[n];
      KeepSame(gone, gone', body[..n]);
    }
  }

  /** What block b has in its own results is in no other block. */
  lemma OtherBlocks(c: SsaFunc, gone: set<Reg>, more: set<Reg>, b: Block, x: Block)
    requires c.Valid() && b < |c.f| && x < |c.f| && x != b && forall d {:trigger d in more} :: d in more ==> d in c.sites && c.sites[d].0 == b
    ensures Keep(gone + more, c.f[x].body) == Keep(gone, c.f[x].body)
  {
    hide SsaFunc.Valid;
    forall k | 0 <= k < |c.f[x].body| && !c.f[x].body[k].Store?
      ensures c.f[x].body[k].d !in more
    {
      c.MadeIs(x, k);
    }
    KeepSame(gone, gone + more, c.f[x].body);
  }

  /** Nothing of block b has been deleted when the pass comes to it. */
  lemma OwnBlock(c: SsaFunc, s: Pass, b: Block)
    requires c.Valid() && b < |c.f| && PassSites(c, s, b, 0)
    ensures Keep(s.sub.Keys, c.f[b].body) == c.f[b].body
  {
    hide SsaFunc.Valid;
    forall k | 0 <= k < |c.f[b].body| && !c.f[b].body[k].Store?
      ensures c.f[b].body[k].d !in s.sub
    {
      c.MadeIs(b, k);
    }
    KeepSame({}, s.sub.Keys, c.f[b].body);
    KeepNothing(c.f[b].body);
  }

  lemma StartIs(preds: seq<Block>, ends: seq<Table>, b: Block, t: Table)
    requires b <= |ends| && OneInFront(preds, b) && forall k, r :: (k in t && t[k] == r) <==> Inherits(preds, ends, b, k, r)
    ensures t == Start(preds, ends, b)
  {
    hide Inherits, OneInFront;
    var u := Start(preds, ends, b);
    forall k
      ensures k in t <==> k in u
      ensures k in t ==> t[k] == u[k]
    {
      if k in t {
        assert Inherits(preds, ends, b, k, t[k]);
        assert k in u && u[k] == t[k];
      }
      if k in u {
        assert Inherits(preds, ends, b, k, u[k]);
        assert k in t && t[k] == u[k];
      }
    }
  }

  ghost predicate AllEarlier(preds: seq<Block>, b: Block) { forall p :: p in preds ==> p < b }

  lemma EarlierStep(preds: seq<Block>, p: Block, b: Block)
    ensures AllEarlier(preds + [p], b) <==> AllEarlier(preds, b) && p < b
  {
    assert (preds + [p])[|preds|] == p;
    if AllEarlier(preds + [p], b) {
      assert p in preds + [p];
      forall x | x in preds
        ensures x < b
      {
        assert x in preds + [p];
      }
    }
  }

  lemma StartNothing(preds: seq<Block>, ends: seq<Table>, b: Block)
    requires b <= |ends| && forall p: Block {:trigger InFront(preds, b, p)} :: !InFront(preds, b, p)
    ensures OneInFront(preds, b) && Start(preds, ends, b) == map[]
  {
  }

  lemma RunsKept(c: SsaFunc, impure: set<nat>, f': Func)
    requires |c.f| == |c.g.preds| && Finishes(c.g) && Rewritten(c.f, Replaced(c, impure), f')
    ensures forall arrays, m, m', mem, k {:trigger Agree(m, m', arrays), Execute(m, c.f, mem, k)} ::
              Ready(c, arrays, m, impure) && PassesOn(c.f, arrays) && Agree(m, m', arrays) ==> Execute(m', f', mem, k) == Execute(m, c.f, mem, k)
  {
    hide Rewritten, Ready, PassesOn, Agree, Execute, Finishes;
    forall arrays, m, m', mem, k | Ready(c, arrays, m, impure) && PassesOn(c.f, arrays) && Agree(m, m', arrays)
      ensures Execute(m', f', mem, k) == Execute(m, c.f, mem, k)
    {
      PassPreservesRuns(c, arrays, impure, m, m', f', mem, k);
    }
  }

  class CommonSubExper {
    const preds: seq<seq<Block>>
    const made: Makers
    const sideEffectFunc: set<nat>
    var blocks: Func
    var table: Table
    var ends: map<Block, Table>

    constructor (preds: seq<seq<Block>>, made: Makers, sideEffectFunc: set<nat>, blocks: Func)
      ensures this.preds == preds && this.made == made && this.sideEffectFunc == sideEffectFunc && this.blocks == blocks && table == map[] && ends == map[]
    {
      this.preds, this.made, this.sideEffectFunc, this.blocks, table, ends := preds, made, sideEffectFunc, blocks, map[], map[];
    }

    /** The tables of the blocks in front of b. */
    ghost predicate EndsAre(tables: seq<Table>)
      reads this`ends
    {
      forall p: Block {:trigger p in ends} :: (p in ends <==> p < |tables|) && (p in ends ==> ends[p] == tables[p])
    }

    /** A block begins with what the predecessor dealt with before it ends with. With
        a second such predecessor the loop over the others does not end: it tests an
        iterator that nothing moves. Here it is cut off after some number of turns. */
    method InitSets(b: Block, turns: nat, ghost tables: seq<Table>) returns (ended: bool)
      requires b < |preds| && EndsAre(tables) && |tables| == b
      modifies this`table
      ensures ended <==> OneInFront(preds[b], b)
      ensures ended ==> table == Start(preds[b], tables, b)
    {
      var preSet: set<Block> := {};
      var flag := true;
      var i := 0;
      while i < |preds[b]|
        invariant i <= |preds[b]|
        invariant forall p {:trigger p in preSet} :: p in preSet <==> InFront(preds[b][..i], b, p)
        invariant flag <==> AllEarlier(preds[b][..i], b)
      {
        var p := preds[b][i];
        assert preds[b][..i + 1] == preds[b][..i] + [p];
        EarlierStep(preds[b][..i], p, b);
        if p != b && p in ends {
          preSet := preSet + {p};
        } else {
          flag := false;
        }
        i := i + 1;
      }
      assert preds[b][..i] == preds[b];
      table := map[];
      if preSet == {} {
        NoneInFront(b, preSet);
        StartNothing(preds[b], tables, b);
        return true;
      }
      var first: Block :| first in preSet;
      assert first in ends;
      table := if flag then ends[first] else map k | k in ends[first] && !k.Cell? :: ends[first][k];
      ghost var start := table;
      var preBB: Option<Block> := None;
      if preSet != {first} {
        SomeOther(preSet, first);
        var next: Block :| next in preSet && next != first;
        preBB := Some(next);
      }
      var n := 0;
      while preBB != None && n < turns
        invariant preBB == None ==> table == start
        invariant preBB.Some? ==> preBB.value in preSet && preBB.value in ends
        decreases turns - n
      {
        var cur := preBB.value;
        table := map k | k in table && k in ends[cur] && ends[cur][k] == table[k] :: table[k];
        n := n + 1;
      }
      ended := preBB == None;
      if ended {
        OnlyFirst(b, tables, preSet, flag, first);
      } else {
        TwoInFront(b, preSet, first, preBB.value);
      }
    }

    lemma NoneInFront(b: Block, preSet: set<Block>)
      requires b < |preds| && preSet == {} && forall p {:trigger p in preSet} :: p in preSet <==> InFront(preds[b], b, p)
      ensures forall p: Block {:trigger InFront(preds[b], b, p)} :: !InFront(preds[b], b, p)
    {
      forall p: Block
        ensures !InFront(preds[b], b, p)
      {
        assert p in preSet <==> InFront(preds[b], b, p);
      }
    }

    lemma SomeOther(preSet: set<Block>, first: Block)
      requires first in preSet && preSet != {first}
      ensures exists next: Block :: next in preSet && next != first
    {
      assert exists x :: x in preSet && x !in {first};
    }

    lemma TwoInFront(b: Block, preSet: set<Block>, first: Block, next: Block)
      requires b < |preds| && forall p {:trigger p in preSet} :: p in preSet <==> InFront(preds[b], b, p)
      requires first in preSet && next in preSet && next != first
      ensures !OneInFront(preds[b], b)
    {
      assert InFront(preds[b], b, first) && InFront(preds[b], b, next);
    }

    /** What the only predecessor in front gives. */
    lemma OnlyFirst(b: Block, tables: seq<Table>, preSet: set<Block>, flag: bool, first: Block)
      requires b < |preds| && EndsAre(tables) && |tables| == b && preSet == {first}
      requires forall p {:trigger p in preSet} :: p in preSet <==> InFront(preds[b], b, p)
      requires flag <==> AllEarlier(preds[b], b)
      ensures first in ends && OneInFront(preds[b], b)
      ensures (if flag then ends[first] else map k | k in ends[first] && !k.Cell? :: ends[first][k]) == Start(preds[b], tables, b)
    {
      forall p: Block
        ensures InFront(preds[b], b, p) <==> p == first
      {
        assert p in preSet <==> InFront(preds[b], b, p);
      }
      assert first in ends && ends[first] == tables[first];
      var t := if flag then ends[first] else map k | k in ends[first] && !k.Cell? :: ends[first][k];
      forall k, r
        ensures (k in t && t[k] == r) <==> Inherits(preds[b], tables, b, k, r)
      {
        InheritsFirst(preds[b], tables, b, first, k, r);
      }
      StartIs(preds[b], tables, b, t);
    }

    lemma InheritsFirst(ps: seq<Block>, tables: seq<Table>, b: Block, first: Block, k: Key, r: Reg)
      requires b == |tables| && first < b && forall p: Block {:trigger InFront(ps, b, p)} :: InFront(ps, b, p) <==> p == first
      ensures Inherits(ps, tables, b, k, r) <==> k in tables[first] && tables[first][k] == r && (k.Cell? ==> AllEarlier(ps, b))
    {
      assert InFront(ps, b, first);
    }

    /** Every use of d in the function becomes one of r. */
    method ReplaceAllUseWith(d: Reg, r: Reg)
      modifies this`blocks
      ensures |blocks| == |old(blocks)|
      ensures forall x {:trigger blocks[x]} :: 0 <= x < |blocks| ==> blocks[x] == SubWhole(map[d := r], old(blocks)[x])
    {
      hide SubWhole;
      var x := 0;
      while x < |blocks|
        invariant x <= |blocks| == |old(blocks)|
        invariant forall y {:trigger blocks[y]} :: 0 <= y < |blocks| ==> blocks[y] == if y < x then SubWhole(map[d := r], old(blocks)[y]) else old(blocks)[y]
      {
        blocks := blocks[x := SubWhole(map[d := r], blocks[x])];
        x := x + 1;
      }
    }

    /** Removes the given instructions from a block. */
    method DeleteInstrs(b: Block, waitDelete: set<Reg>)
      requires b < |blocks|
      modifies this`blocks
      ensures blocks == old(blocks)[b := old(blocks)[b].(body := Keep(waitDelete, old(blocks)[b].body))]
    {
      var body := blocks[b].body;
      var left: seq<Instr> := [];
      var k := 0;
      while k < |body|
        invariant k <= |body| && left == Keep(waitDelete, body[..k])
      {
        assert body[..k + 1][..k] == body[..k];
        if body[k].Store? || body[k].d !in waitDelete {
          left := left + [body[k]];
        }
        k := k + 1;
      }
      assert body[..k] == body;
      blocks := blocks[b := blocks[b].(body := left)];
    }

    /** Every block is the original's under the replacements, without what is gone. */
    ghost predicate BlocksAre(c: SsaFunc, gone: set<Reg>, sub: Sub)
      reads this`blocks
    {
      |blocks| == |c.f| && forall x {:trigger blocks[x]} :: 0 <= x < |c.f| ==> blocks[x] == SubBlock(gone, sub, c.f[x])
    }

    lemma BlockAt(c: SsaFunc, gone: set<Reg>, sub: Sub, b: Block, i: nat)
      requires BlocksAre(c, gone, sub) && b < |c.f| && Keep(gone, c.f[b].body) == c.f[b].body
      ensures b < |blocks| && |blocks[b].body| == |c.f[b].body| && (i < |c.f[b].body| ==> blocks[b].body[i] == SubInstr(sub, c.f[b].body[i]))
    {
      hide SubInstr, SubPhis, Keep, SubTerm;
    }

    lemma AllTwice(c: SsaFunc, gone: set<Reg>, sub: Sub, d: Reg, r: Reg, was: Func)
      requires |was| == |c.f| && forall x {:trigger was[x]} :: 0 <= x < |c.f| ==> was[x] == SubBlock(gone, sub, c.f[x])
      requires |blocks| == |was| && forall x {:trigger blocks[x]} :: 0 <= x < |blocks| ==> blocks[x] == SubWhole(map[d := r], was[x])
      requires d !in sub && forall x {:trigger x in sub} :: x in sub ==> sub[x] != d
      ensures BlocksAre(c, gone, sub[d := r])
    {
      hide SubBlock, SubWhole;
      forall x | 0 <= x < |c.f|
        ensures blocks[x] == SubBlock(gone, sub[d := r], c.f[x])
      {
        assert was[x] == SubBlock(gone, sub, c.f[x]);
        BlockTwice(gone, sub, d, r, c.f[x]);
      }
    }

    /** One block: repetitions are replaced, in the end they are deleted. */
    method CommonSubExperDelete(b: Block, ghost c: SsaFunc, ghost sub0: Sub) returns (ghost sub: Sub)
      requires c.Valid() && made == MakersOf(c) && b < |c.f| && BlocksAre(c, sub0.Keys, sub0) && PassSites(c, Pass(sub0, table), b, 0)
      modifies this`blocks, this`table, this`ends
      ensures Pass(sub, table) == InBlock(made, sideEffectFunc, Pass(sub0, old(table)), c.f[b].body)
      ensures BlocksAre(c, sub.Keys, sub) && PassSites(c, Pass(sub, table), b + 1, 0) && ends == old(ends)[b := table]
    {
      hide SsaFunc.Valid, SubBlock, Keep, SubInstr, KeyOf, Enter, MakersOf, BlocksAre, PassSites;
      ghost var gone, body := sub0.Keys, c.f[b].body;
      var waitDelete: set<Reg> := {};
      sub := sub0;
      ghost var start := Pass(sub0, table);
      OwnBlock(c, start, b);
      BlockAt(c, gone, sub, b, 0);
      assert body[..0] == [];
      var i := 0;
      while i < |blocks[b].body|
        invariant b < |blocks| && i <= |body| == |blocks[b].body| && BlocksAre(c, gone, sub) && ends == old(ends)
        invariant Pass(sub, table) == InBlock(made, sideEffectFunc, start, body[..i]) && PassSites(c, Pass(sub, table), b, i)
        invariant sub.Keys == gone + waitDelete && forall d {:trigger d in waitDelete} :: d in waitDelete ==> d in c.sites && c.sites[d].0 == b
      {
        BlockAt(c, gone, sub, b, i);
        var instr := blocks[b].body[i];
        assert body[..i + 1][..i] == body[..i] && body[..i + 1][i] == body[i];
        StepSites(c, sideEffectFunc, Pass(sub, table), b, i);
        var key := KeyOf(instr);
        DestStays(sub, body[i]);
        if key.Some? && key.value in table {
          ghost var was := blocks;
          WasBlocks(c, gone, sub);
          SitesOther(c, Pass(sub, table), b, i);
          c.MadeIs(b, i);
          var r := table[key.value];
          ReplaceAllUseWith(instr.d, r);
          AllTwice(c, gone, sub, instr.d, r, was);
          sub := sub[instr.d := r];
          waitDelete := waitDelete + {instr.d};
        } else {
          table := Enter(made, sideEffectFunc, table, instr);
        }
        BlockAt(c, gone, sub, b, i);
        i := i + 1;
      }
      assert body[..i] == body;
      ghost var was := blocks;
      WasBlocks(c, gone, sub);
      DeleteInstrs(b, waitDelete);
      Deleted(c, gone, waitDelete, sub, b, was);
      ends := ends[b := table];
      NextSites(c, Pass(sub, table), b, i);
    }

    lemma WasBlocks(c: SsaFunc, gone: set<Reg>, sub: Sub)
      requires BlocksAre(c, gone, sub)
      ensures |blocks| == |c.f| && forall x {:trigger blocks[x]} :: 0 <= x < |c.f| ==> blocks[x] == SubBlock(gone, sub, c.f[x])
    {
    }

    lemma NextSites(c: SsaFunc, s: Pass, b: Block, i: nat)
      requires PassSites(c, s, b, i)
      ensures PassSites(c, s, b + 1, 0)
    {
    }

    /** Deleting in block b is deleting everywhere. */
    lemma Deleted(c: SsaFunc, gone: set<Reg>, more: set<Reg>, sub: Sub, b: Block, was: Func)
      requires c.Valid() && b < |c.f| == |was| && sub.Keys == gone + more && Keep(gone, c.f[b].body) == c.f[b].body
      requires forall d {:trigger d in more} :: d in more ==> d in c.sites && c.sites[d].0 == b
      requires forall x {:trigger was[x]} :: 0 <= x < |c.f| ==> was[x] == SubBlock(gone, sub, c.f[x])
      requires blocks == was[b := was[b].(body := Keep(more, was[b].body))]
      ensures BlocksAre(c, sub.Keys, sub)
    {
      hide SsaFunc.Valid, SubInstr, SubPhi, SubTerm, Keep;
      forall x | 0 <= x < |c.f|
        ensures blocks[x] == SubBlock(sub.Keys, sub, c.f[x])
      {
        assert was[x] == SubBlock(gone, sub, c.f[x]);
        if x == b {
          KeepSub(more, sub, c.f[b].body);
          KeepBoth(gone, more, c.f[b].body);
        } else {
          OtherBlocks(c, gone, more, b, x);
        }
      }
    }

    lemma {:induction false} KeepSub(gone: set<Reg>, sub: Sub, body: seq<Instr>)
      ensures Keep(gone, SubBody(sub, body)) == SubBody(sub, Keep(gone, body))
    {
      hide SubVal, SubAll;
      if body != [] {
        var n := |body| - 1;
        KeepSub(gone, sub, body[..n]);
        assert SubBody(sub, body)[..n] == SubBody(sub, body[..n]);
        assert SubBody(sub, Keep(gone, body[..n]) + [body[n]]) == SubBody(sub, Keep(gone, body[..n])) + [SubInstr(sub, body[n])];
      }
    }

    /** What has nothing of gone keeps the same without it. */
    lemma {:induction false} KeepBoth(gone: set<Reg>, more: set<Reg>, body: seq<Instr>)
      requires Keep(gone, body) == body
      ensures Keep(gone + more, body) == Keep(more, body)
    {
      if body != [] {
        var n := |body| - 1;
        KeepShorter(gone, body[..n]);
        KeepBoth(gone, more, body[..n]);
      }
    }

    lemma {:induction false} KeepShorter(gone: set<Reg>, body: seq<Instr>)
      ensures |Keep(gone, body)| <= |body|
      ensures |Keep(gone, body)| == |body| ==> Keep(gone, body) == body
    {
      if body != [] {
        KeepShorter(gone, body[..|body| - 1]);
      }
    }

    /** The whole function. The pass finishes iff no block has two predecessors in
        front. Then the replacements are those the tables give, block after block, no
        repetition inside a block is left, and every run is preserved where entries
        flow down. */
    method Run(turns: nat, ghost c: SsaFunc) returns (ended: bool)
      requires c.Valid() && blocks == c.f && preds == c.g.preds && |c.f| == |preds| && made == MakersOf(c) && table == map[] && ends == map[]
      modifies this
      ensures ended <==> Finishes(c.g)
      ensures ended ==> Rewritten(c.f, Replaced(c, sideEffectFunc), blocks) && NothingMissed(c, sideEffectFunc, blocks)
      ensures ended ==> forall arrays, m, m', mem, k {:trigger Agree(m, m', arrays), Execute(m, c.f, mem, k)} ::
                Ready(c, arrays, m, sideEffectFunc) && PassesOn(c.f, arrays) && Agree(m, m', arrays) ==> Execute(m', blocks, mem, k) == Execute(m, c.f, mem, k)
    {
      hide SsaFunc.Valid, SubBlock, InBlock, Start, MakersOf, Ready, PassesOn, Agree, Execute, BlocksAre, EndSites, PassSites, Rewritten, OneInFront, NothingMissed;
      ghost var sub: Sub := map[];
      ghost var tables: seq<Table> := [];
      NothingYet(c);
      assert sub.Keys == {};
      var b := 0;
      while b < |preds|
        invariant b <= |preds| && |tables| == b && EndsAre(tables) && forall x: Block {:trigger OneInFront(preds[x], x)} :: x < b ==> OneInFront(preds[x], x)
        invariant Finishes(c.g) ==> Ends(sub, tables) == UpTo(c, sideEffectFunc, b)
        invariant BlocksAre(c, sub.Keys, sub) && EndSites(c, sub, tables)
      {
        ended := InitSets(b, turns, tables);
        if !ended {
          return;
        }
        StartSites(c, sub, tables);
        ghost var was := sub;
        sub := CommonSubExperDelete(b, c, sub);
        SitesOn(c, was, sub, tables, table);
        tables := tables + [table];
        b := b + 1;
      }
      ended := true;
      assert Finishes(c.g);
      RewrittenIs(c, sub);
      NothingIsMissed(c, sideEffectFunc, blocks);
      RunsKept(c, sideEffectFunc, blocks);
    }

    lemma RewrittenIs(c: SsaFunc, sub: Sub)
      requires BlocksAre(c, sub.Keys, sub)
      ensures Rewritten(c.f, sub, blocks)
    {
      hide SubBlock;
    }

    ghost predicate EndSites(c: SsaFunc, sub: Sub, tables: seq<Table>) {
      && PassSites(c, Pass(sub, map[]), |tables|, 0)
      && forall p: Block {:trigger tables[p]} :: p < |tables| ==> PassSites(c, Pass(map[], tables[p]), |tables|, 0)
    }

    lemma NothingYet(c: SsaFunc)
      requires blocks == c.f
      ensures BlocksAre(c, {}, map[]) && EndSites(c, map[], [])
    {
      forall x | 0 <= x < |c.f|
        ensures blocks[x] == SubBlock({}, map[], c.f[x])
      {
        BlockNothing(c.f[x]);
      }
    }

    lemma StartSites(c: SsaFunc, sub: Sub, tables: seq<Table>)
      requires EndSites(c, sub, tables) && |tables| < |preds| && OneInFront(preds[|tables|], |tables|)
      ensures PassSites(c, Pass(sub, Start(preds[|tables|], tables, |tables|)), |tables|, 0)
    {
      hide Walked;
      var b := |tables|;
      var t := Start(preds[b], tables, b);
      forall k | k in t
        ensures Walked(c, t[k], b, 0)
      {
        assert Inherits(preds[b], tables, b, k, t[k]);
        var p: Block :| InFront(preds[b], b, p) && k in tables[p] && tables[p][k] == t[k];
        assert PassSites(c, Pass(map[], tables[p]), b, 0);
      }
    }

    lemma SitesOn(c: SsaFunc, sub: Sub, sub': Sub, tables: seq<Table>, t: Table)
      requires EndSites(c, sub, tables) && PassSites(c, Pass(sub', t), |tables| + 1, 0)
      ensures EndSites(c, sub', tables + [t])
    {
      var now := tables + [t];
      forall p: Block | p < |now|
        ensures PassSites(c, Pass(map[], now[p]), |now|, 0)
      {
        if p < |tables| {
          assert PassSites(c, Pass(map[], tables[p]), |tables|, 0);
        }
      }
    }
  }
}
