/** Reachability and strongly connected components of a directed graph, and what
    Tarjan's traversal keeps while it runs. */
module Scc {
  import opened Cfg

  type Edges = map<Block, set<Block>>

  ghost predicate Step(e: Edges, a: Block, b: Block) { a in e && b in e[a] }

  ghost predicate Leads(e: Edges, p: seq<Block>, a: Block, b: Block) {
    && 0 < |p| && p[0] == a && p[|p| - 1] == b
    && forall i {:trigger p[i]} :: 0 <= i < |p| - 1 ==> Step(e, p[i], p[i + 1])
  }

  ghost predicate Reach(e: Edges, a: Block, b: Block) {
    exists p :: Leads(e, p, a, b)
  }

  lemma ReachRefl(e: Edges, a: Block)
    ensures Reach(e, a, a)
  {
    assert Leads(e, [a], a, a);
  }

  lemma ReachStep(e: Edges, a: Block, b: Block)
    requires Step(e, a, b)
    ensures Reach(e, a, b)
  {
    assert Leads(e, [a, b], a, b);
  }

  lemma ReachTrans(e: Edges, a: Block, b: Block, c: Block)
    requires Reach(e, a, b) && Reach(e, b, c)
    ensures Reach(e, a, c)
  {
    var p :| Leads(e, p, a, b);
    var q :| Leads(e, q, b, c);
    var r := p + q[1..];
    forall i | 0 <= i < |r| - 1
      ensures Step(e, r[i], r[i + 1])
    {
      if i < |p| - 1 {
        assert Step(e, p[i], p[i + 1]);
      } else {
        assert Step(e, q[i - (|p| - 1)], q[i - (|p| - 1) + 1]);
      }
    }
    assert Leads(e, r, a, c);
  }

  /** A set that no edge leaves holds everything reachable from it. */
  lemma ClosedReach(e: Edges, s: set<Block>, a: Block, b: Block)
    requires a in s && Reach(e, a, b)
    requires forall x, y :: x in s && Step(e, x, y) ==> y in s
    ensures b in s
  {
    var p :| Leads(e, p, a, b);
    ClosedLeads(e, s, p, a, b, |p| - 1);
  }

  lemma {:induction false} ClosedLeads(e: Edges, s: set<Block>, p: seq<Block>, a: Block, b: Block, i: nat)
    requires a in s && Leads(e, p, a, b) && i < |p|
    requires forall x, y :: x in s && Step(e, x, y) ==> y in s
    ensures p[i] in s
  {
    if i > 0 {
      ClosedLeads(e, s, p, a, b, i - 1);
      assert Step(e, p[i - 1], p[i - 1 + 1]);
    }
  }

  ghost predicate Connected(e: Edges, a: Block, b: Block) {
    Reach(e, a, b) && Reach(e, b, a)
  }

  /** A maximal set of mutually reachable blocks. */
  ghost predicate IsScc(e: Edges, c: set<Block>) {
    && c != {}
    && (forall a, b {:trigger Connected(e, a, b)} :: a in c && b in c ==> Connected(e, a, b))
    && (forall a, b {:trigger Connected(e, a, b)} :: a in c && Connected(e, a, b) ==> b in c)
  }

  lemma SccsDisjoint(e: Edges, c: set<Block>, d: set<Block>, x: Block)
    requires IsScc(e, c) && IsScc(e, d) && x in c && x in d
    ensures c == d
  {
    forall y | y in c
      ensures y in d
    {
      assert Connected(e, x, y);
    }
    forall y | y in d
      ensures y in c
    {
      assert Connected(e, x, y);
    }
  }

  // ---------------------------------------------------------------- the traversal

  /** The traversal at one moment: the numbers given so far, the stack, the
      components that have been taken off it, and the blocks being visited. */
  datatype Search = Search(e: Edges, nodes: set<Block>, index: map<Block, nat>, count: nat,
                           stack: seq<Block>, found: set<set<Block>>, gray: set<Block>)
  {
    /** Numbered and off the stack again. */
    ghost function Done(): set<Block> { set x | x in index && x !in stack }

    /** Position in the stack follows the numbers. */
    ghost predicate Ordered() {
      && (forall i {:trigger stack[i]} :: 0 <= i < |stack| ==> stack[i] in index)
      && (forall i, j {:trigger Below(i, j)} :: 0 <= i < j < |stack| ==> Below(i, j))
      && (forall x :: x in index ==> index[x] < count)
      && (forall x, y {:trigger SameIndex(x, y)} :: x in index && y in index && SameIndex(x, y) ==> x == y)
      && index.Keys <= nodes && gray <= index.Keys
      && (forall x {:trigger x in gray} :: x in gray ==> x in stack)
    }

    ghost predicate SameIndex(x: Block, y: Block)
      requires x in index && y in index
    {
      index[x] == index[y]
    }

    ghost predicate Below(i: nat, j: nat)
      requires i < |stack| && j < |stack|
    {
      stack[i] in index && stack[j] in index && index[stack[i]] < index[stack[j]]
    }

    /** The graph is closed on its nodes. */
    ghost predicate Inside() {
      && nodes <= e.Keys
      && forall x, y {:trigger Step(e, x, y)} :: x in nodes && Step(e, x, y) ==> y in nodes
    }

    /** Edges from finished blocks lead to numbered ones, and from components
        taken off the stack to such components. */
    ghost predicate NoWayBack() {
      && (forall x, y {:trigger Step(e, x, y)} :: x in index && x !in gray && Step(e, x, y) ==> y in index)
      && (forall x, y {:trigger Step(e, x, y)} :: x in Done() && Step(e, x, y) ==> y in Done())
    }

    /** A block being visited reaches everything above it on the stack. */
    ghost predicate GrayReach(x: Block, y: Block)
      requires x in index && y in index
    {
      index[x] <= index[y] ==> Reach(e, x, y)
    }

    /** y reaches a block being visited that is not above it. */
    ghost predicate ReachesGray(y: Block) {
      y in index && exists x :: x in gray && x in index && index[x] <= index[y] && Reach(e, y, x)
    }

    ghost predicate Linked() {
      && (forall x, y {:trigger GrayReach(x, y)} :: x in gray && x in index && y in stack && y in index ==> GrayReach(x, y))
      && (forall y {:trigger ReachesGray(y)} :: y in stack ==> ReachesGray(y))
    }

    /** Exactly the components of the finished part with two blocks or more. */
    ghost predicate Emitted() {
      forall c {:trigger c in found} :: c in found <==> IsScc(e, c) && 2 <= |c| && c <= Done()
    }

    ghost predicate Valid() {
      Ordered() && Inside() && NoWayBack() && Linked() && Emitted()
    }
  }
}
