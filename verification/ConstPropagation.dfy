/** Path compression: a block whose only predecessor leads nowhere else is merged
    into it. The blocks to merge are collected first and then merged one by one, in
    any order; every step edits the lists of the neighbours and the labels of the
    phis behind. */
module ConstPropagation {
  import opened Cfg
  import opened Arithmetic
  import opened Ir
  import opened BlockMerge

  lemma NotBefore(list: seq<Block>, k: nat)
    requires Distinct(list) && k < |list|
    ensures list[k] !in list[..k]
  {
    forall i | 0 <= i < k
      ensures list[..k][i] != list[k]
    {
      assert Differ(list, i, k);
    }
  }

  class ConstPropagation {
    var blocks: Func
    var preds: seq<seq<Block>>
    var succs: seq<seq<Block>>
    // The blocks still in the function's list.
    var live: set<Block>

    constructor (f: Func, g: Graph, all: set<Block>)
      ensures Now() == Layout(f, g.preds, g.succs, all)
    {
      blocks, preds, succs, live := f, g.preds, g.succs, all;
    }

    ghost function Now(): Layout
      reads this
    {
      Layout(blocks, preds, succs, live)
    }

    /** Those with one predecessor that leads nowhere else. */
    method Collect() returns (waitMerge: set<Block>)
      requires Ok(Now()) && NoSinglePhis(Now())
      ensures forall b: Block {:trigger b in waitMerge} :: b in waitMerge <==>
                b in live && b < |preds| && |preds[b]| == 1 && preds[b][0] < |succs| && |succs[preds[b][0]]| == 1
    {
      hide Reached, LabelsIn;
      waitMerge := {};
      var b := 0;
      while b < |blocks|
        invariant b <= |blocks|
        invariant forall c: Block {:trigger c in waitMerge} :: c in waitMerge <==>
                    c < b && c in live && |preds[c]| == 1 && preds[c][0] < |succs| && |succs[preds[c][0]]| == 1
      {
        if b in live {
          assert BlockOk(Now(), b);
          if |preds[b]| == 1 {
            assert preds[b][0] in preds[b];
            assert BlockOk(Now(), preds[b][0]);
            var preBB := preds[b][0];
            if |succs[preBB]| == 1 {
              waitMerge := waitMerge + {b};
            }
          }
        }
        b := b + 1;
      }
      forall c: Block
        ensures c in live ==> c < |preds|
      {
        assert BlockOk(Now(), c);
      }
    }

    /** Every use of bb as a label becomes one of preBB. */
    method ReplaceLabels(bb: Block, preBB: Block)
      modifies this`blocks
      ensures |blocks| == |old(blocks)|
      ensures forall b: Block {:trigger blocks[b]} :: b < |blocks| ==>
                blocks[b] == BasicBlock(Relabel(old(blocks)[b].phis, bb, preBB), old(blocks)[b].body, old(blocks)[b].term)
    {
      var b := 0;
      while b < |blocks|
        invariant b <= |blocks| == |old(blocks)|
        invariant forall c: Block {:trigger blocks[c]} :: c < |blocks| ==>
                    blocks[c] == if c < b then BasicBlock(Relabel(old(blocks)[c].phis, bb, preBB), old(blocks)[c].body, old(blocks)[c].term) else old(blocks)[c]
      {
        var d := blocks[b];
        blocks := blocks[b := BasicBlock(Relabel(d.phis, bb, preBB), d.body, d.term)];
        b := b + 1;
      }
    }

    /** The edges out of bb become edges out of preBB. */
    method MoveEdges(bb: Block, preBB: Block)
      requires bb < |preds| == |succs| && preBB < |preds| && bb != preBB && succs[preBB] == []
      requires Distinct(succs[bb]) && forall c :: c in succs[bb] ==> c < |preds| && c != bb
      modifies this`preds, this`succs
      ensures succs == old(succs)[preBB := old(succs)[bb]] && |preds| == |old(preds)|
      ensures forall b: Block {:trigger preds[b]} :: b < |preds| ==>
                preds[b] == if b in old(succs)[bb] then old(preds)[b] + [preBB] else old(preds)[b]
    {
      var list := succs[bb];
      var k := 0;
      while k < |list|
        invariant k <= |list| && |preds| == |old(preds)|
        invariant succs == old(succs)[preBB := list[..k]]
        invariant forall b: Block {:trigger preds[b]} :: b < |preds| ==>
                    preds[b] == if b in list[..k] then old(preds)[b] + [preBB] else old(preds)[b]
      {
        var succBB := list[k];
        assert succBB in list;
        NotBefore(list, k);
        assert list[..k + 1] == list[..k] + [succBB];
        preds := preds[succBB := preds[succBB] + [preBB]];
        succs := succs[preBB := succs[preBB] + [succBB]];
        k := k + 1;
      }
      assert list[..k] == list;
    }

    /** The block leaves the function's list, and the lists of its successors. */
    method RemoveBlock(bb: Block)
      requires bb < |preds| == |succs| && preds[bb] == [] && forall c :: c in succs[bb] ==> c < |preds| && c != bb
      requires Distinct(succs[bb])
      modifies this`preds, this`live
      ensures live == old(live) - {bb} && |preds| == |old(preds)|
      ensures forall b: Block {:trigger preds[b]} :: b < |preds| ==>
                preds[b] == if b in succs[bb] then RemoveAll(old(preds)[b], bb) else old(preds)[b]
    {
      live := live - {bb};
      ghost var live', succs' := live, succs;
      var list := succs[bb];
      var k := 0;
      while k < |list|
        invariant k <= |list| && |preds| == |old(preds)| && live == live' && succs == succs'
        invariant forall b: Block {:trigger preds[b]} :: b < |preds| ==>
                    preds[b] == if b in list[..k] then RemoveAll(old(preds)[b], bb) else old(preds)[b]
      {
        var succ := list[k];
        assert succ in list;
        NotBefore(list, k);
        assert list[..k + 1] == list[..k] + [succ];
        preds := preds[succ := RemoveAll(preds[succ], bb)];
        k := k + 1;
      }
      assert list[..k] == list;
    }

    /** One block into its predecessor. */
    method Merge(bb: Block)
      requires Ok(Now()) && Awaits(Now(), bb)
      modifies this
      ensures Now() == Merged(old(Now()), bb)
    {
      hide Reached, LabelsIn;
      ghost var l := Now();
      PredDiffers(l, bb);
      MergeFacts(l, bb);
      var preBB := preds[bb][0];
      blocks := blocks[preBB := BasicBlock(blocks[preBB].phis, blocks[preBB].body + blocks[bb].body, blocks[bb].term)];
      succs := succs[preBB := RemoveAll(succs[preBB], bb)];
      preds := preds[bb := RemoveAll(preds[bb], preBB)];
      MoveEdges(bb, preBB);
      ReplaceLabels(bb, preBB);
      RemoveBlock(bb);
      SameLayout(l, bb, Now());
    }

    static lemma MergeFacts(l: Layout, bb: Block)
      requires Ok(l) && Awaits(l, bb)
      ensures var pre := l.preds[bb][0];
        && RemoveAll(l.succs[pre], bb) == [] && RemoveAll(l.preds[bb], pre) == []
        && Distinct(l.succs[bb]) && (forall c :: c in l.succs[bb] ==> c < |l.preds| && c != bb)
    {
      hide Reached, LabelsIn;
      PredDiffers(l, bb);
      var pre := l.preds[bb][0];
      assert l.preds[bb] == [pre] && l.preds[bb][1..] == [] && l.succs[pre][1..] == [];
      assert BlockOk(l, bb);
      forall c | c in l.succs[bb]
        ensures c < |l.preds| && c != bb
      {
        assert BlockOk(l, c);
        SuccIsOther(l, bb, c);
      }
    }

    static lemma SameLayout(l: Layout, bb: Block, n: Layout)
      requires Ok(l) && Awaits(l, bb)
      requires |n.f| == |l.f| == |n.preds| && n.live == l.live - {bb}
      requires var pre := l.preds[bb][0]; n.succs == l.succs[pre := l.succs[bb]] && pre < |l.f| && bb < |l.f|
      requires forall b: Block {:trigger n.f[b]} :: b < |l.f| ==> n.f[b] == MergedBlock(l, bb, l.preds[bb][0], b)
      requires forall b: Block {:trigger n.preds[b]} :: b < |l.f| ==>
                 n.preds[b] == if b == bb then [] else if b in l.succs[bb] then RemoveAll(l.preds[b] + [l.preds[bb][0]], bb) else l.preds[b]
      ensures n == Merged(l, bb)
    {
      hide Reached, LabelsIn;
      var k := Merged(l, bb);
      assert n.f == k.f;
      assert n.preds == k.preds;
    }

    /** Merges all of them: exactly the blocks go that had one predecessor which led
        nowhere else, and no block is left that has. */
    method CompressPath()
      requires Ok(Now()) && NoSinglePhis(Now())
      modifies this
      ensures Ok(Now()) && SameResults(old(blocks), blocks) && SamePrints(old(blocks), blocks)
      ensures forall b: Block {:trigger b in live} :: b in live <==>
                b in old(live) && !(b < |old(preds)| && |old(preds)[b]| == 1 && old(preds)[b][0] < |old(succs)| && |old(succs)[old(preds)[b][0]]| == 1)
      ensures forall b: Block {:trigger b in live} :: b in live ==> b < |preds| && !(|preds[b]| == 1 && preds[b][0] < |succs| && |succs[preds[b][0]]| == 1)
    {
      hide SameResults, SamePrints, BlockOk, Mirror, Reached, Merged, Awaits;
      ghost var first := Now();
      var waitMerge := Collect();
      SameRefl(blocks);
      SamePrintsRefl(blocks);
      ghost var all := waitMerge;
      AllAwait(first, waitMerge);
      while waitMerge != {}
        invariant Ok(Now()) && NoSinglePhis(Now()) && SameResults(old(blocks), blocks) && SamePrints(old(blocks), blocks) && waitMerge <= all
        invariant forall b: Block {:trigger b in waitMerge} :: b in waitMerge <==> Awaits(Now(), b)
        invariant live == first.live - (all - waitMerge)
        decreases waitMerge
      {
        var bb :| bb in waitMerge;
        ghost var l := Now();
        MergedOk(l, bb);
        MergedPhis(l, bb);
        MergedResults(l, bb);
        MergedPrints(l, bb);
        forall c: Block
          ensures Awaits(Merged(l, bb), c) <==> Awaits(l, c) && c != bb
        {
          if Awaits(l, c) && c != bb {
            StillAwaits(l, bb, c);
          }
          if Awaits(Merged(l, bb), c) {
            NoNewAwaits(l, bb, c);
          }
        }
        Merge(bb);
        SameTrans(old(blocks), l.f, blocks);
        SamePrintsTrans(old(blocks), l.f, blocks);
        MergedLive(l, bb);
        waitMerge := waitMerge - {bb};
      }
      LiveInRange(Now());
      forall b: Block | b in live
        ensures b < |preds| && !(|preds[b]| == 1 && preds[b][0] < |succs| && |succs[preds[b][0]]| == 1)
      {
        AwaitsIs(Now(), b);
        assert b !in waitMerge;
      }
    }

    static lemma LiveInRange(l: Layout)
      requires Ok(l)
      ensures forall b: Block {:trigger b in l.live} :: b in l.live ==> b < |l.preds|
    {
      hide Reached, Mirror;
      forall b: Block | b in l.live
        ensures b < |l.preds|
      {
        assert BlockOk(l, b);
      }
    }

    static lemma AllAwait(l: Layout, some: set<Block>)
      requires Ok(l) && NoSinglePhis(l)
      requires forall b: Block {:trigger b in some} :: b in some <==>
        b in l.live && b < |l.preds| && |l.preds[b]| == 1 && l.preds[b][0] < |l.succs| && |l.succs[l.preds[b][0]]| == 1
      ensures forall b: Block {:trigger b in some} :: b in some <==> Awaits(l, b)
    {
      hide BlockOk, Mirror, Reached, Awaits;
      forall b: Block
        ensures b in some <==> Awaits(l, b)
      {
        AwaitsIs(l, b);
      }
    }

    static lemma MergedLive(l: Layout, bb: Block)
      requires |l.preds| == |l.succs| == |l.f| && Awaits(l, bb)
      ensures Merged(l, bb).live == l.live - {bb}
    {
    }
  }
}
