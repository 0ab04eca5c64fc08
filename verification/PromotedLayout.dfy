/** What promotion leaves is fit for path compression: phis stand only where ways
    meet, and their labels are predecessors. */
module PromotedLayout {
  import opened Cfg
  import opened PostOrder
  import opened Arithmetic
  import opened Ir
  import opened Ssa
  import opened RenameWalk
  import B = BlockMerge

  /** A block that is reached has a predecessor other than itself. */
  lemma {:induction false} NotOnlySelf(g: Graph, p: seq<Block>, y: Block)
    requires g.WellFormed() && IsPath(g, p, y) && y < g.Size() && y != ENTRY
    ensures g.preds[y] != [y]
    decreases |p|
  {
    PathLastEdge(g, p, y);
    if g.preds[y] == [y] {
      NotOnlySelf(g, p[..|p| - 1], y);
    }
  }

  /** A dominance frontier holds only blocks where ways meet. */
  lemma FrontierMeets(g: Graph, b: Block, y: Block)
    requires g.WellFormed() && y < g.Size() && InFrontier(g, b, y)
    ensures |g.preds[y]| != 1
  {
    hide Dom;
    if |g.preds[y]| == 1 {
      var p := g.preds[y][0];
      assert g.preds[y] == [p] && p < g.Size();
      DomFromPreds(g, b, y);
      assert b == y;
      DomRefl(g, p);
      DomFromPreds(g, p, y);
      DomAntisym(g, p, y);
      assert Reachable(g, y);
      var w :| IsPath(g, w, y);
      NotOnlySelf(g, w, y);
    }
  }

  lemma PlaceMeets(g: Graph, f: Func, place: set<(Block, nat)>, y: Block, x: nat)
    requires g.WellFormed() && Closed(g, f, place) && Least(g, f, place) && (y, x) in place
    ensures y < g.Size() && |g.preds[y]| != 1
  {
    hide InFrontier;
    var q := set p: (Block, nat) | p in place && p.0 < g.Size() && |g.preds[p.0]| != 1;
    forall b: Block, z: nat, c: Block | (Stores(f, b, z) || (b, z) in q) && InFrontier(g, b, c)
      ensures (c, z) in q
    {
      FrontierInside(g, b, c);
      FrontierMeets(g, b, c);
    }
    assert Closed(g, f, q);
  }

  lemma FrontierInside(g: Graph, b: Block, y: Block)
    requires g.InRange() && InFrontier(g, b, y)
    ensures y < g.Size()
  {
  }

  lemma SameTargets(sub: map<Reg, Value>, t: Term)
    ensures var t' := SubstTerm(sub, t);
      Targets(t') == Targets(t) && (t'.CondBr? ==> t.CondBr? && t'.ifTrue == t.ifTrue && t'.ifFalse == t.ifFalse)
  {
  }

  lemma LabelsFilled(g: Graph, ren: Renaming, b: Block, phis: seq<Phi>)
    requires b < |g.preds| && forall k :: 0 <= k < |phis| ==> Filled(g, ren, b, phis[k])
    ensures B.LabelsIn(phis, g.preds[b])
  {
    forall k, i | 0 <= k < |phis| && 0 <= i < |phis[k].pairs|
      ensures phis[k].pairs[i].1 in g.preds[b]
    {
      assert Filled(g, ren, b, phis[k]) && PairOk(g, ren, b, phis[k], i);
    }
  }

  lemma PromotedBlockOk(g: Graph, f: Func, place: set<(Block, nat)>, ren: Renaming, f': Func, b: Block)
    requires EdgesOf(g, f) && TargetForm(g, f, place, ren, f')
    ensures B.BlockOk(B.Layout(f', g.preds, g.succs, Blocks(g)), b)
  {
    hide Reachable, B.LabelsIn;
    if b < |f| {
      assert TargetBlock(g, place, ren, b, f[b], f'[b]);
      SameTargets(ren.sub, f[b].term);
      LabelsFilled(g, ren, b, f'[b].phis);
      forall c | c in g.succs[b]
        ensures c in Blocks(g)
      {
        var i :| 0 <= i < |g.succs[b]| && g.succs[b][i] == c;
      }
      forall c | c in g.preds[b]
        ensures c in Blocks(g)
      {
        var i :| 0 <= i < |g.preds[b]| && g.preds[b][i] == c;
      }
    }
  }

  lemma ReachedAgain(g: Graph, f': Func, b: Block)
    requires g.WellFormed() && |f'| == g.Size() && b < g.Size()
    ensures B.Reached(B.Layout(f', g.preds, g.succs, Blocks(g)), b)
  {
    assert Reachable(g, b);
    var p :| IsPath(g, p, b);
    assert B.Way(B.Layout(f', g.preds, g.succs, Blocks(g)), p, b);
  }

  /** A promoted function can be compressed. */
  lemma PromotedIsOk(g: Graph, f: Func, place: set<(Block, nat)>, ren: Renaming, f': Func)
    requires EdgesOf(g, f) && TargetForm(g, f, place, ren, f') && Closed(g, f, place) && Least(g, f, place)
    ensures var l := B.Layout(f', g.preds, g.succs, Blocks(g)); B.Ok(l) && B.NoSinglePhis(l)
  {
    hide Reachable, B.LabelsIn, B.BlockOk, B.Reached, InFrontier, Closed, Least, Filled;
    var l := B.Layout(f', g.preds, g.succs, Blocks(g));
    forall b: Block
      ensures B.BlockOk(l, b)
    {
      PromotedBlockOk(g, f, place, ren, f', b);
    }
    forall a: Block, b: Block
      ensures B.Mirror(l, a, b)
    {
    }
    forall b: Block | b in l.live
      ensures B.Reached(l, b)
    {
      ReachedAgain(g, f', b);
    }
    forall b: Block | b in l.live && |l.preds[b]| == 1
      ensures f'[b].phis == []
    {
      assert TargetBlock(g, place, ren, b, f[b], f'[b]);
      if f'[b].phis != [] {
        PlaceMeets(g, f, place, b, f'[b].phis[0].lval);
      }
    }
  }
}
