/** The dominator pass: a post-order traversal, immediate dominators by
    iteration to a fixpoint, dominance frontiers and the dominator tree. */
module Dominators {
  import opened Cfg
  import opened PostOrder
  import opened Climb

  class Dominators {
    const g: Graph
    var reversePostOrder: seq<Block>
    var postOrderId: map<Block, nat>
    var idom: map<Block, Block>
    var domFrontier: map<Block, set<Block>>
    var domTreeSuccs: map<Block, set<Block>>

    constructor (g: Graph)
      requires g.WellFormed()
      ensures this.g == g
    {
      this.g := g;
      reversePostOrder, postOrderId, idom, domFrontier, domTreeSuccs := [], map[], map[], map[], map[];
    }

    ghost predicate Done()
      reads this`postOrderId, this`idom
    {
      DomTree(g, postOrderId, idom)
    }

    /** The traversal is done: all blocks, numbered downwards from the entry. */
    ghost predicate Ordered()
      reads this`reversePostOrder, this`postOrderId
    {
      && Numbering(g, postOrderId)
      && |reversePostOrder| == g.Size()
      && NumbersDown(reversePostOrder, postOrderId)
    }

    method CreateReversePostOrder()
      requires g.WellFormed()
      modifies this`reversePostOrder, this`postOrderId
      ensures Ordered()
    {
      reversePostOrder, postOrderId := [], map[];
      var visited := PostOrderVisit(ENTRY, {});
      ghost var order := reversePostOrder;
      assert visited - {} == visited;
      ClosedIsAll(visited);
      CountBlocks(order, postOrderId);
      reversePostOrder := Reverse(reversePostOrder);
      NumbersReverse(order, postOrderId, reversePostOrder);
      assert postOrderId[ENTRY] == |order| - 1;
      forall b | b in postOrderId && b != ENTRY
        ensures postOrderId[b] < postOrderId[ENTRY]
      {
        assert At(order, postOrderId, b) && Apart(postOrderId, b, ENTRY);
      }
    }

    lemma CountBlocks(order: seq<Block>, ids: map<Block, nat>)
      requires Numbers(order, ids) && ids.Keys == Blocks(g)
      ensures |order| == g.Size()
    {
      forall b | b in Blocks(g)
        ensures b in Elems(order)
      {
        assert At(order, ids, b);
      }
      assert Elems(order) == Blocks(g);
      DistinctCard(order, Elems(order));
      var all := seq(g.Size(), i requires 0 <= i < g.Size() => i);
      DistinctCard(all, Elems(all));
      assert Elems(all) == Blocks(g) by {
        forall b | b in Blocks(g) ensures b in Elems(all) { assert all[b] == b; }
      }
    }

    lemma ClosedIsAll(visited: set<Block>)
      requires g.WellFormed() && ENTRY in visited && visited <= Blocks(g)
      requires forall a, b :: a in visited && a < g.Size() && b in g.succs[a] ==> b in visited
      ensures visited == Blocks(g)
    {
      forall b | b in Blocks(g)
        ensures b in visited
      {
        assert Reachable(g, b);
        var p :| IsPath(g, p, b);
        ClosedOnPath(visited, p, |p| - 1);
      }
    }

    lemma {:induction false} ClosedOnPath(visited: set<Block>, p: seq<Block>, i: nat)
      requires g.InRange() && IsWalk(g, p) && i < |p| && p[0] in visited
      requires forall a, b :: a in visited && a < g.Size() && b in g.succs[a] ==> b in visited
      ensures p[i] in visited
    {
      if i > 0 {
        ClosedOnPath(visited, p, i - 1);
      }
    }

    method Reverse(s: seq<Block>) returns (r: seq<Block>)
      ensures |r| == |s| && forall i :: 0 <= i < |s| ==> r[i] == s[|s| - 1 - i]
    {
      r := [];
      var n := 0;
      while n < |s|
        invariant n <= |s| && |r| == n
        invariant forall i :: 0 <= i < n ==> r[i] == s[n - 1 - i]
      {
        r := [s[n]] + r;
        n := n + 1;
      }
    }

    /** Visits everything reachable from bb that is not yet visited, numbering
        blocks as they are left. */
    method PostOrderVisit(bb: Block, visited: set<Block>) returns (visited': set<Block>)
      requires g.WellFormed() && bb < g.Size() && bb !in visited && visited <= Blocks(g)
      requires Numbers(reversePostOrder, postOrderId) && postOrderId.Keys <= visited
      modifies this`reversePostOrder, this`postOrderId
      ensures Numbers(reversePostOrder, postOrderId)
      ensures 0 < |reversePostOrder| && reversePostOrder[|reversePostOrder| - 1] == bb
      ensures visited + {bb} <= visited' <= Blocks(g)
      ensures postOrderId.Keys == old(postOrderId.Keys) + (visited' - visited)
      ensures Extends(old(postOrderId), postOrderId)
      ensures Left(g, postOrderId, visited' - visited, visited', {bb})
      decreases Blocks(g) - visited
    {
      hide Graph.Mirrored, Reachable, Numbers;
      visited' := visited + {bb};
      ghost var roots := Elems(g.succs[bb]);
      var i := 0;
      while i < |g.succs[bb]|
        invariant i <= |g.succs[bb]|
        invariant Numbers(reversePostOrder, postOrderId)
        invariant visited + {bb} <= visited' <= Blocks(g)
        invariant postOrderId.Keys == old(postOrderId.Keys) + (visited' - visited - {bb})
        invariant Extends(old(postOrderId), postOrderId)
        invariant forall j :: 0 <= j < i ==> g.succs[bb][j] in visited'
        invariant Left(g, postOrderId, visited' - visited - {bb}, visited', roots)
      {
        var b := g.succs[bb][i];
        if b !in visited' {
          ghost var ids, seen := postOrderId, visited';
          visited' := PostOrderVisit(b, visited');
          LeftAfter(g, ids, seen - visited - {bb}, seen, postOrderId, visited' - seen, visited', roots, b);
          assert visited' - visited - {bb} == (seen - visited - {bb}) + (visited' - seen);
        }
        i := i + 1;
      }
      NumbersPush(reversePostOrder, postOrderId, bb);
      LeaveBlock(g, postOrderId, visited' - visited - {bb}, visited', bb, |reversePostOrder|);
      assert visited' - visited == (visited' - visited - {bb}) + {bb};
      postOrderId := postOrderId[bb := |reversePostOrder|];
      reversePostOrder := reversePostOrder + [bb];
    }

    /** The lowest block on both chains. */
    method Intersect(b1: Block, b2: Block) returns (b: Block)
      requires Numbering(g, postOrderId) && Climbs(postOrderId, idom) && b1 in idom && b2 in idom
      ensures b in idom
      ensures forall e :: OnChain(postOrderId, idom, e, b) <==>
        OnChain(postOrderId, idom, e, b1) && OnChain(postOrderId, idom, e, b2)
    {
      var x, y := b1, b2;
      while x != y
        invariant BothChains(b1, b2, x, y)
        decreases 2 * postOrderId[ENTRY] - postOrderId[x] - postOrderId[y]
      {
        ghost var x0, y0 := x, y;
        assert Apart(postOrderId, x, y);
        while postOrderId[x] < postOrderId[y]
          invariant BothChains(b1, b2, x, y) && postOrderId[x0] <= postOrderId[x] && y == y0
          invariant postOrderId[x0] < postOrderId[y] ==> x == x0 || postOrderId[x0] < postOrderId[x]
          decreases postOrderId[ENTRY] - postOrderId[x]
        {
          ClimbLower(b1, b2, x, y);
          x := idom[x];
        }
        while postOrderId[y] < postOrderId[x]
          invariant BothChains(b1, b2, x, y) && postOrderId[x0] <= postOrderId[x] && postOrderId[y0] <= postOrderId[y]
          invariant x == x0 ==> y == y0 || postOrderId[y0] < postOrderId[y]
          decreases postOrderId[ENTRY] - postOrderId[y]
        {
          assert BothChains(b2, b1, y, x);
          ClimbLower(b2, b1, y, x);
          y := idom[y];
          assert BothChains(b2, b1, y, x);
        }
      }
      b := x;
      forall e | OnChain(postOrderId, idom, e, b)
        ensures OnChain(postOrderId, idom, e, b1) && OnChain(postOrderId, idom, e, b2)
      {
        OnChainTrans(postOrderId, idom, e, b, b1);
        OnChainTrans(postOrderId, idom, e, b, b2);
      }
    }

    /** x and y have climbed from b1 and b2 without passing a common block. */
    ghost predicate BothChains(b1: Block, b2: Block, x: Block, y: Block)
      reads this`postOrderId, this`idom
      requires Numbering(g, postOrderId) && Climbs(postOrderId, idom) && b1 in idom && b2 in idom
    {
      && x in idom && y in idom
      && OnChain(postOrderId, idom, x, b1) && OnChain(postOrderId, idom, y, b2)
      && (forall e :: OnChain(postOrderId, idom, e, b1) && OnChain(postOrderId, idom, e, b2) ==>
            OnChain(postOrderId, idom, e, x) && OnChain(postOrderId, idom, e, y))
    }

    lemma ClimbLower(b1: Block, b2: Block, x: Block, y: Block)
      requires Numbering(g, postOrderId) && Climbs(postOrderId, idom) && b1 in idom && b2 in idom
      requires BothChains(b1, b2, x, y) && postOrderId[x] < postOrderId[y]
      ensures idom[x] in idom && postOrderId[x] < postOrderId[idom[x]] <= postOrderId[ENTRY]
      ensures BothChains(b1, b2, idom[x], y)
    {
      assert Linked(postOrderId, idom, x);
      OnChainTrans(postOrderId, idom, idom[x], x, b1);
      forall e | OnChain(postOrderId, idom, e, b1) && OnChain(postOrderId, idom, e, b2)
        ensures OnChain(postOrderId, idom, e, idom[x])
      {
        OnChainAbove(postOrderId, idom, e, y);
      }
    }

    /** The loop over predecessors: one that has a dominator, then the meeting
        point with every other one that has. */
    method NewIdom(bb: Block) returns (newIdom: Block)
      requires AllSound(g, postOrderId, idom)
      requires bb in postOrderId && bb != ENTRY && Parent(g, postOrderId, bb) in idom
      ensures IsMeet(g, postOrderId, idom, newIdom, bb)
    {
      var preds := g.preds[bb];
      var i := 0;
      while i < |preds| && preds[i] !in idom
        invariant i <= |preds| && forall j :: 0 <= j < i ==> preds[j] !in idom
      {
        i := i + 1;
      }
      var pred := preds[i];
      newIdom := pred;
      var n := 0;
      while n < |preds|
        invariant n <= |preds| && newIdom in idom
        invariant forall e :: OnChain(postOrderId, idom, e, newIdom) <==>
          && OnChain(postOrderId, idom, e, pred)
          && (forall p :: p in preds[..n] && p in idom ==> OnChain(postOrderId, idom, e, p))
      {
        var p := preds[n];
        assert preds[..n + 1] == preds[..n] + [p];
        if p != pred && p in idom {
          newIdom := Intersect(p, newIdom);
        }
        n := n + 1;
      }
      assert preds[..n] == preds;
    }

    /** Passes in reverse post-order until nothing changes. Every stored dominator
        only climbs; after k passes it lies on all paths of at most k edges, so the
        pass after Size() passes changes nothing. */
    method CreateIdom()
      requires Ordered()
      modifies this`idom
      ensures Done()
    {
      hide Turn;
      idom := map[ENTRY := ENTRY];
      TurnBegins(g, postOrderId, |reversePostOrder|);
      var changed := true;
      ghost var k := 0;
      while changed
        invariant AllSound(g, postOrderId, idom) && AllSettled(g, k, idom) && Turn(g, postOrderId, idom, |reversePostOrder|)
        invariant k > 0 ==> idom.Keys == Blocks(g)
        invariant changed ==> k <= g.Size()
        invariant !changed ==> k > 0 && Stable(g, postOrderId, idom)
        decreases g.Size() + 1 - k
      {
        changed := Pass(k);
        TurnAgain(g, postOrderId, idom, |reversePostOrder|);
        k := k + 1;
      }
      StableIsExact(g, postOrderId, idom);
    }

    /** One pass over the blocks in reverse post-order. */
    method Pass(ghost k: nat) returns (changed: bool)
      requires Ordered() && AllSound(g, postOrderId, idom) && AllSettled(g, k, idom)
      requires (k > 0 ==> idom.Keys == Blocks(g)) && Turn(g, postOrderId, idom, |reversePostOrder|)
      modifies this`idom
      ensures AllSound(g, postOrderId, idom) && AllSettled(g, k + 1, idom) && idom.Keys == Blocks(g)
      ensures Turn(g, postOrderId, idom, 0) && Higher(postOrderId, old(idom), idom)
      ensures k >= g.Size() ==> !changed
      ensures !changed ==> idom == old(idom) && Stable(g, postOrderId, idom)
    {
      hide Turn, Higher;
      changed := false;
      ghost var seen: set<Block> := {};
      SameIsHigher(postOrderId, idom);
      var i := 0;
      while i < |reversePostOrder|
        invariant i <= |reversePostOrder|
        invariant MidPass(g, postOrderId, k, seen, idom)
        invariant Turn(g, postOrderId, idom, |reversePostOrder| - i) && Higher(postOrderId, old(idom), idom)
        invariant forall j :: 0 <= j < i ==> reversePostOrder[j] in seen
        invariant k >= g.Size() ==> !changed
        invariant !changed ==> idom == old(idom) && StableOn(g, postOrderId, seen, idom)
      {
        ghost var was := idom;
        var c := VisitNext(i, k, seen);
        HigherTrans(postOrderId, old(idom), was, idom);
        changed := changed || c;
        seen := seen + {reversePostOrder[i]};
        i := i + 1;
      }
      AllSeen(seen);
    }

    lemma AllSeen(seen: set<Block>)
      requires Ordered() && seen <= Blocks(g)
      requires forall j :: 0 <= j < |reversePostOrder| ==> reversePostOrder[j] in seen
      ensures seen == Blocks(g)
    {
      forall b | b in Blocks(g)
        ensures b in seen
      {
        assert AtDown(reversePostOrder, postOrderId, b);
      }
    }

    lemma ParentBefore(bb: Block, i: nat)
      requires Ordered() && i < |reversePostOrder| && bb == reversePostOrder[i] && bb != ENTRY
      ensures exists j :: 0 <= j < i && reversePostOrder[j] == Parent(g, postOrderId, bb)
    {
      var p := Parent(g, postOrderId, bb);
      assert AtDown(reversePostOrder, postOrderId, p);
    }

    method VisitNext(i: nat, ghost k: nat, ghost seen: set<Block>) returns (changed: bool)
      requires Ordered() && MidPass(g, postOrderId, k, seen, idom) && i < |reversePostOrder|
      requires forall j :: 0 <= j < i ==> reversePostOrder[j] in seen
      requires Turn(g, postOrderId, idom, |reversePostOrder| - i)
      modifies this`idom
      ensures MidPass(g, postOrderId, k, seen + {reversePostOrder[i]}, idom)
      ensures Turn(g, postOrderId, idom, |reversePostOrder| - i - 1) && Higher(postOrderId, old(idom), idom)
      ensures k >= g.Size() ==> !changed
      ensures !changed ==> idom == old(idom)
      ensures !changed && StableOn(g, postOrderId, seen, idom) ==> StableOn(g, postOrderId, seen + {reversePostOrder[i]}, idom)
    {
      hide Turn, Higher;
      var bb := reversePostOrder[i];
      SameIsHigher(postOrderId, idom);
      changed := false;
      if bb != ENTRY {
        ParentBefore(bb, i);
        changed := Visit(bb, k, seen);
      } else {
        TurnEntry(g, postOrderId, idom);
      }
    }

    /** The visit of one block within a pass. */
    method Visit(bb: Block, ghost k: nat, ghost seen: set<Block>) returns (changed: bool)
      requires Ordered() && MidPass(g, postOrderId, k, seen, idom)
      requires bb in postOrderId && bb != ENTRY && Parent(g, postOrderId, bb) in seen
      requires Turn(g, postOrderId, idom, postOrderId[bb] + 1)
      modifies this`idom
      ensures MidPass(g, postOrderId, k, seen + {bb}, idom)
      ensures Turn(g, postOrderId, idom, postOrderId[bb]) && Higher(postOrderId, old(idom), idom)
      ensures changed && bb in old(idom) ==> idom[bb] != old(idom)[bb] && OnChain(postOrderId, old(idom), idom[bb], old(idom)[bb])
      ensures k >= g.Size() ==> !changed
      ensures !changed ==> idom == old(idom) && OnAllChains(g, postOrderId, idom, idom[bb], bb)
    {
      hide Turn, Higher, Meets, Follows;
      var newIdom := NewIdom(bb);
      MeetIsSound(g, postOrderId, idom, newIdom, bb);
      MeetIsSettled(g, postOrderId, idom, k, newIdom, bb);
      changed := false;
      if bb !in idom || idom[bb] != newIdom {
        if k >= g.Size() {
          NoLateChange(g, postOrderId, idom, k, bb, newIdom);
        }
        changed := true;
      } else {
        assert OnChain(postOrderId, idom, newIdom, newIdom);
        assert idom[bb := newIdom] == idom;
      }
      StoreKeeps(g, postOrderId, idom, k, seen, bb, newIdom);
      VisitClimbs(g, postOrderId, idom, newIdom, bb);
      if changed {
        idom := idom[bb := newIdom];
      }
    }

    // -------------------------------------------------------- frontiers and the tree

    /** Walks up from p to the dominator of bb, which lies on the chain of p. */
    method AddRunners(bb: Block, p: Block)
      requires Done() && bb in idom && bb != ENTRY && p in g.preds[bb] && p in idom
      requires domFrontier.Keys == Blocks(g)
      modifies this`domFrontier
      ensures domFrontier.Keys == Blocks(g)
      ensures forall b {:trigger domFrontier[b]} :: b in domFrontier ==>
        domFrontier[b] == old(domFrontier[b]) + (if Dom(g, b, p) && !StrictDom(g, b, bb) then {bb} else {})
    {
      RunnerStart(bb, p);
      ghost var passed := WalkUp(p, idom[bb], bb);
      RunnerEnd(bb, p, passed);
    }

    method WalkUp(p: Block, top: Block, bb: Block) returns (ghost passed: set<Block>)
      requires Climbs(postOrderId, idom) && p in idom && top in idom && OnChain(postOrderId, idom, top, p)
      requires domFrontier.Keys == idom.Keys
      modifies this`domFrontier
      ensures forall b :: OnChain(postOrderId, idom, b, p) <==> b in passed || OnChain(postOrderId, idom, b, top)
      ensures forall b :: b in passed ==> !OnChain(postOrderId, idom, b, top)
      ensures domFrontier.Keys == idom.Keys
      ensures forall b {:trigger domFrontier[b]} :: b in domFrontier ==>
        domFrontier[b] == old(domFrontier[b]) + (if b in passed then {bb} else {})
    {
      var runner := p;
      passed := {};
      while runner != top
        invariant runner in idom && OnChain(postOrderId, idom, top, runner)
        invariant forall b :: OnChain(postOrderId, idom, b, p) <==> b in passed || OnChain(postOrderId, idom, b, runner)
        invariant forall b :: b in passed ==> !OnChain(postOrderId, idom, b, runner)
        invariant domFrontier.Keys == idom.Keys
        invariant forall b {:trigger domFrontier[b]} :: b in domFrontier ==>
          domFrontier[b] == old(domFrontier[b]) + (if b in passed then {bb} else {})
        decreases postOrderId[ENTRY] - postOrderId[runner]
      {
        RunnerStep(runner, top);
        domFrontier := domFrontier[runner := domFrontier[runner] + {bb}];
        passed := passed + {runner};
        runner := idom[runner];
      }
    }

    lemma RunnerStart(bb: Block, p: Block)
      requires Done() && bb in idom && bb != ENTRY && p in g.preds[bb] && p in idom
      ensures idom[bb] in idom && OnChain(postOrderId, idom, idom[bb], p)
    {
      assert IsIdom(g, idom[bb], bb) && Linked(postOrderId, idom, bb);
      DomPred(g, idom[bb], bb, p);
    }

    lemma RunnerEnd(bb: Block, p: Block, passed: set<Block>)
      requires Done() && bb in idom && bb != ENTRY && p in idom && idom[bb] in idom
      requires forall b :: OnChain(postOrderId, idom, b, p) <==> b in passed || OnChain(postOrderId, idom, b, idom[bb])
      requires forall b :: b in passed ==> !OnChain(postOrderId, idom, b, idom[bb])
      ensures forall b :: b in idom ==> (b in passed <==> Dom(g, b, p) && !StrictDom(g, b, bb))
    {
      forall b | b in idom
        ensures b in passed <==> Dom(g, b, p) && !StrictDom(g, b, bb)
      {
        assert IsIdom(g, idom[bb], bb);
        StrictDomIsDomIdom(g, b, bb, idom[bb]);
        assert OnChain(postOrderId, idom, b, p) <==> Dom(g, b, p);
        assert OnChain(postOrderId, idom, b, idom[bb]) <==> Dom(g, b, idom[bb]);
      }
    }

    lemma RunnerStep(runner: Block, d: Block)
      requires Climbs(postOrderId, idom) && runner in idom && d in idom && d != runner && OnChain(postOrderId, idom, d, runner)
      ensures runner != ENTRY && idom[runner] in idom && OnChain(postOrderId, idom, d, idom[runner])
      ensures postOrderId[runner] < postOrderId[idom[runner]] <= postOrderId[ENTRY]
      ensures forall b :: OnChain(postOrderId, idom, b, runner) <==> b == runner || OnChain(postOrderId, idom, b, idom[runner])
      ensures !OnChain(postOrderId, idom, runner, idom[runner])
      ensures forall b :: OnChain(postOrderId, idom, b, d) ==> OnChain(postOrderId, idom, b, idom[runner])
    {
      assert Linked(postOrderId, idom, runner);
      if OnChain(postOrderId, idom, runner, idom[runner]) {
        OnChainAbove(postOrderId, idom, runner, idom[runner]);
      }
      forall b | OnChain(postOrderId, idom, b, d)
        ensures OnChain(postOrderId, idom, b, idom[runner])
      {
        OnChainTrans(postOrderId, idom, b, d, idom[runner]);
      }
    }

    /** A block with a single predecessor is in no frontier. */
    lemma SinglePredecessor(bb: Block)
      requires Done() && bb in idom && |g.preds[bb]| < 2
      ensures forall b {:trigger InFrontier(g, b, bb)} :: !InFrontier(g, b, bb)
    {
      forall b
        ensures !InFrontier(g, b, bb)
      {
        if InFrontier(g, b, bb) {
          var p :| p in g.preds[bb] && Dom(g, b, p);
          assert Parent(g, postOrderId, bb) == p;
          DomFromPreds(g, b, bb);
          DomFromPreds(g, p, bb);
          DomAntisym(g, p, bb);
        }
      }
    }

    /** The frontier sets are right as far as the blocks below n are concerned. */
    ghost predicate FrontiersUpTo(n: nat)
      reads this`domFrontier
    {
      && domFrontier.Keys == Blocks(g)
      && forall b: Block, y: Block {:trigger y in domFrontier[b]} ::
           b in domFrontier ==> (y in domFrontier[b] <==> y < n && InFrontier(g, b, y))
    }

    method CreateDominanceFrontier()
      requires Done()
      modifies this`domFrontier
      ensures FrontiersUpTo(g.Size())
    {
      domFrontier := map b | b in Blocks(g) :: {};
      var bb := 0;
      while bb < g.Size()
        invariant bb <= g.Size() && FrontiersUpTo(bb)
      {
        if |g.preds[bb]| >= 2 {
          RunPredecessors(bb);
        } else {
          SinglePredecessor(bb);
        }
        bb := bb + 1;
      }
    }

    method RunPredecessors(bb: Block)
      requires Done() && bb in idom && |g.preds[bb]| >= 2 && FrontiersUpTo(bb)
      modifies this`domFrontier
      ensures FrontiersUpTo(bb + 1)
    {
      hide Dom, StrictDom;
      ghost var was := domFrontier;
      var n := 0;
      while n < |g.preds[bb]|
        invariant n <= |g.preds[bb]| && domFrontier.Keys == Blocks(g)
        invariant forall b {:trigger domFrontier[b]} :: b in domFrontier ==>
          domFrontier[b] == was[b] + (if PartlyInFrontier(bb, n, b) then {bb} else {})
      {
        AddRunners(bb, g.preds[bb][n]);
        PartlyStep(bb, n);
        n := n + 1;
      }
      PartlyAll(bb);
    }

    lemma PartlyStep(bb: Block, n: nat)
      requires bb < |g.preds| && n < |g.preds[bb]|
      ensures forall b: Block {:trigger PartlyInFrontier(bb, n + 1, b)} :: PartlyInFrontier(bb, n + 1, b) <==>
        PartlyInFrontier(bb, n, b) || (Dom(g, b, g.preds[bb][n]) && !StrictDom(g, b, bb))
    {
      hide Dom, StrictDom;
    }

    lemma PartlyAll(bb: Block)
      requires bb < |g.preds|
      ensures forall b: Block {:trigger PartlyInFrontier(bb, |g.preds[bb]|, b)} ::
        b < g.Size() ==> (PartlyInFrontier(bb, |g.preds[bb]|, b) <==> InFrontier(g, b, bb))
    {
      hide Dom, StrictDom;
    }

    /** As InFrontier, with the first n predecessors of bb only. */
    ghost predicate PartlyInFrontier(bb: Block, n: nat, b: Block)
      requires bb < |g.preds| && n <= |g.preds[bb]|
    {
      (exists i :: 0 <= i < n && Dom(g, b, g.preds[bb][i])) && !StrictDom(g, b, bb)
    }

    ghost predicate TreeUpTo(n: nat)
      reads this`domTreeSuccs, this`idom
    {
      && domTreeSuccs.Keys == Blocks(g)
      && forall b: Block, c: Block {:trigger c in domTreeSuccs[b]} ::
           b in domTreeSuccs ==> (c in domTreeSuccs[b] <==> c < n && c in idom && c != ENTRY && idom[c] == b)
    }

    method CreateDomTreeSucc()
      requires Done()
      modifies this`domTreeSuccs
      ensures TreeUpTo(g.Size())
    {
      hide Graph.Mirrored, Reachable, Dom, StrictDom;
      domTreeSuccs := map b | b in Blocks(g) :: {};
      var bb := 0;
      while bb < g.Size()
        invariant bb <= g.Size() && TreeUpTo(bb)
      {
        assert Linked(postOrderId, idom, bb);
        if idom[bb] != bb {
          domTreeSuccs := domTreeSuccs[idom[bb] := domTreeSuccs[idom[bb]] + {bb}];
        }
        bb := bb + 1;
      }
    }

    /** The pass on one function. */
    method Run()
      requires g.WellFormed()
      modifies this
      ensures Done() && FrontiersUpTo(g.Size()) && TreeUpTo(g.Size())
    {
      CreateReversePostOrder();
      CreateIdom();
      CreateDominanceFrontier();
      CreateDomTreeSucc();
    }
  }
}
