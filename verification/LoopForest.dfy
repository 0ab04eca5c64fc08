/** The loops found round by round form a forest, and leave no cycle behind. */
module LoopForest {
  import opened Cfg
  import opened PostOrder
  import opened Scc

  datatype Loop = Loop(body: set<Block>, base: Block)

  ghost function SuccEdges(g: Graph): Edges
    requires g.InRange()
  {
    map b | b in Blocks(g) :: Elems(g.succs[b])
  }

  /** The graph among the given nodes. */
  ghost function Among(e: Edges, nodes: set<Block>): Edges {
    map b | b in nodes && b in e :: e[b] * nodes
  }

  lemma {:induction false} ReachMore(e: Edges, few: set<Block>, many: set<Block>, a: Block, b: Block)
    requires few <= many <= e.Keys && Reach(Among(e, few), a, b)
    ensures Reach(Among(e, many), a, b)
  {
    var p :| Leads(Among(e, few), p, a, b);
    forall i | 0 <= i < |p| - 1
      ensures Step(Among(e, many), p[i], p[i + 1])
    {
      assert Step(Among(e, few), p[i], p[i + 1]);
    }
    assert Leads(Among(e, many), p, a, b);
  }

  /** Two maps with the same edges on a closed set reach the same there. */
  lemma ReachSame(e: Edges, e': Edges, nodes: set<Block>, a: Block, b: Block)
    requires forall x, y {:trigger Step(e, x, y)} {:trigger Step(e', x, y)} :: x in nodes ==> (Step(e, x, y) <==> Step(e', x, y))
    requires forall x, y {:trigger Step(e, x, y)} :: x in nodes && Step(e, x, y) ==> y in nodes
    requires a in nodes && Reach(e, a, b)
    ensures Reach(e', a, b) && b in nodes
  {
    var p :| Leads(e, p, a, b);
    forall i | 0 <= i < |p|
      ensures p[i] in nodes
    {
      ClosedLeads(e, nodes, p, a, b, i);
    }
    forall i | 0 <= i < |p| - 1
      ensures Step(e', p[i], p[i + 1])
    {
      assert Step(e, p[i], p[i + 1]);
    }
    assert Leads(e', p, a, b);
  }

  lemma StepsConnect(e: Edges, p: seq<Block>, a: Block, b: Block, i: nat)
    requires Leads(e, p, a, b) && i < |p|
    ensures Reach(e, a, p[i]) && Reach(e, p[i], b)
  {
    assert forall j {:trigger p[..i + 1][j]} :: 0 <= j < i ==> p[..i + 1][j] == p[j];
    assert Leads(e, p[..i + 1], a, p[i]);
    var v := p[i..];
    forall j | 0 <= j < |v| - 1
      ensures Step(e, v[j], v[j + 1])
    {
      var k := i + j;
      assert v[j] == p[k] && v[j + 1] == p[k + 1];
    }
    assert Leads(e, v, p[i], b);
  }

  lemma SccSame(e: Edges, e': Edges, nodes: set<Block>, c: set<Block>)
    requires forall x, y {:trigger Step(e, x, y)} {:trigger Step(e', x, y)} :: x in nodes ==> (Step(e, x, y) <==> Step(e', x, y))
    requires forall x, y {:trigger Step(e, x, y)} :: x in nodes && Step(e, x, y) ==> y in nodes
    requires c <= nodes && IsScc(e, c)
    ensures IsScc(e', c)
  {
    hide Reach;
    forall a, b | a in c && b in c
      ensures Connected(e', a, b)
    {
      assert Connected(e, a, b);
      ReachSame(e, e', nodes, a, b);
      ReachSame(e, e', nodes, b, a);
    }
    forall a, b | a in c && Connected(e', a, b)
      ensures b in c
    {
      ReachSame(e', e, nodes, a, b);
      ReachSame(e', e, nodes, b, a);
      assert Connected(e, a, b);
    }
  }

  // ---------------------------------------------------------------- nesting

  /** The later loop is apart from the earlier, or inside it without its base. */
  ghost predicate Nested(earlier: Loop, later: Loop) {
    earlier.body !! later.body || later.body <= earlier.body - {earlier.base}
  }

  /** Among nodes nothing that meets the loop is connected to anything outside
      it, and its base is gone. */
  ghost predicate Split(e: Edges, nodes: set<Block>, l: Loop) {
    && l.base in l.body && l.base !in nodes
    && forall x, y {:trigger Connected(Among(e, nodes), x, y)} :: x in l.body && x in nodes && Connected(Among(e, nodes), x, y) ==> y in l.body
  }

  lemma SplitFewer(e: Edges, many: set<Block>, few: set<Block>, l: Loop)
    requires few <= many <= e.Keys && Split(e, many, l)
    ensures Split(e, few, l)
  {
    hide Reach;
    forall x, y | x in l.body && x in few && Connected(Among(e, few), x, y)
      ensures y in l.body
    {
      ReachMore(e, few, many, x, y);
      ReachMore(e, few, many, y, x);
      assert Connected(Among(e, many), x, y);
    }
  }

  /** A component without its base is a split loop. */
  lemma FoundIsSplit(e: Edges, nodes: set<Block>, c: set<Block>, base: Block, fewer: set<Block>)
    requires nodes <= e.Keys && IsScc(Among(e, nodes), c) && base in c && fewer <= nodes - {base}
    ensures Split(e, fewer, Loop(c, base))
  {
    hide Reach;
    forall x, y | x in c && x in fewer && Connected(Among(e, fewer), x, y)
      ensures y in c
    {
      ReachMore(e, fewer, nodes, x, y);
      ReachMore(e, fewer, nodes, y, x);
      assert Connected(Among(e, nodes), x, y);
    }
  }

  lemma NestedInSplit(e: Edges, nodes: set<Block>, l: Loop, c: set<Block>, base: Block)
    requires Split(e, nodes, l) && IsScc(Among(e, nodes), c) && c <= nodes
    ensures Nested(l, Loop(c, base))
  {
    hide Reach;
    if x :| x in l.body && x in c {
      forall y | y in c
        ensures y in l.body && y != l.base
      {
        assert Connected(Among(e, nodes), x, y);
      }
    }
  }

  ghost predicate Forest(loops: seq<Loop>) {
    forall i, j {:trigger Nested(loops[i], loops[j])} :: 0 <= i < j < |loops| ==> Nested(loops[i], loops[j])
  }

  // ---------------------------------------------------------------- entries of loops

  /** A component of two blocks or more is entered from outside. */
  lemma EnteredFromOutside(g: Graph, nodes: set<Block>, c: set<Block>) returns (u: Block, v: Block)
    requires g.WellFormed() && nodes <= Blocks(g) && c <= nodes && 2 <= |c|
    requires IsScc(Among(SuccEdges(g), nodes), c)
    ensures u < g.Size() && u !in c && v in c && v in g.succs[u]
  {
    var e := SuccEdges(g);
    EntryOutside(g, nodes, c);
    var x :| x in c;
    assert Reachable(g, x);
    var p :| IsPath(g, p, x);
    var i := |p| - 1;
    while p[i - 1] in c
      invariant 0 < i < |p| && p[i] in c
      decreases i
    {
      i := i - 1;
    }
    u, v := p[i - 1], p[i];
    assert p[i - 1 + 1] in g.succs[p[i - 1]];
  }

  lemma LastStep(e: Edges, y: Block, z: Block)
    requires Reach(e, y, z)
    ensures y == z || exists x :: Step(e, x, z)
  {
    var p :| Leads(e, p, y, z);
    if |p| > 1 {
      var i := |p| - 2;
      assert Step(e, p[i], p[i + 1]);
    }
  }

  lemma NoStepToEntry(g: Graph, nodes: set<Block>, x: Block)
    requires g.WellFormed() && nodes <= Blocks(g)
    ensures !Step(Among(SuccEdges(g), nodes), x, ENTRY)
  {
    if x in nodes {
      assert x in g.preds[ENTRY] <==> ENTRY in g.succs[x];
    }
  }

  lemma EntryOutside(g: Graph, nodes: set<Block>, c: set<Block>)
    requires g.WellFormed() && nodes <= Blocks(g) && c <= nodes && 2 <= |c|
    requires IsScc(Among(SuccEdges(g), nodes), c)
    ensures ENTRY !in c
  {
    hide Reach;
    var e := Among(SuccEdges(g), nodes);
    forall y | y in c && ENTRY in c
      ensures y == ENTRY
    {
      assert Connected(e, ENTRY, y);
      LastStep(e, y, ENTRY);
      forall x
        ensures !Step(e, x, ENTRY)
      {
        NoStepToEntry(g, nodes, x);
      }
    }
    assert ENTRY in c ==> c == {ENTRY};
  }

  // ---------------------------------------------------------------- cycles

  /** A closed walk through two different blocks. */
  ghost predicate IsCycle(e: Edges, w: seq<Block>) {
    2 <= |w| && Leads(e, w, w[0], w[0]) && exists i :: 0 <= i < |w| && w[i] != w[0]
  }

  ghost predicate Within(w: seq<Block>, s: set<Block>) {
    forall i :: 0 <= i < |w| ==> w[i] in s
  }

  /** The loop holds the whole cycle, which passes its base. */
  ghost predicate Covers(l: Loop, w: seq<Block>) { Within(w, l.body) && l.base in w }

  ghost function ComponentOf(e: Edges, nodes: set<Block>, x: Block): set<Block> {
    set y | y in nodes && Connected(Among(e, nodes), x, y)
  }

  lemma ComponentIsScc(e: Edges, nodes: set<Block>, x: Block)
    requires nodes <= e.Keys && x in nodes
    ensures IsScc(Among(e, nodes), ComponentOf(e, nodes, x)) && x in ComponentOf(e, nodes, x)
  {
    hide Reach;
    var a, c := Among(e, nodes), ComponentOf(e, nodes, x);
    ReachRefl(a, x);
    assert Connected(a, x, x) && x in c;
    forall y, z | y in c && z in c
      ensures Connected(a, y, z)
    {
      ReachTrans(a, y, x, z);
      ReachTrans(a, z, x, y);
    }
    forall y, z | y in c && Connected(a, y, z)
      ensures z in c
    {
      ReachTrans(a, x, y, z);
      ReachTrans(a, z, y, x);
      StaysAmong(e, nodes, y, z);
    }
  }

  lemma StaysAmong(e: Edges, nodes: set<Block>, y: Block, z: Block)
    requires nodes <= e.Keys && y in nodes && Reach(Among(e, nodes), y, z)
    ensures z in nodes
  {
    ClosedReach(Among(e, nodes), nodes, y, z);
  }

  lemma CycleAmong(e: Edges, nodes: set<Block>, w: seq<Block>)
    requires nodes <= e.Keys && 2 <= |w| && Leads(e, w, w[0], w[0]) && Within(w, nodes)
    ensures Leads(Among(e, nodes), w, w[0], w[0])
  {
    forall j | 0 <= j < |w| - 1
      ensures Step(Among(e, nodes), w[j], w[j + 1])
    {
      var k := j + 1;
      assert Step(e, w[j], w[k]) && w[k] in nodes;
    }
  }

  /** A cycle among nodes lies in one component of two blocks or more. */
  lemma CycleInComponent(e: Edges, nodes: set<Block>, w: seq<Block>)
    requires nodes <= e.Keys && IsCycle(e, w) && Within(w, nodes)
    ensures var c := ComponentOf(e, nodes, w[0]);
      IsScc(Among(e, nodes), c) && 2 <= |c| && c <= nodes && Within(w, c)
  {
    hide Reach;
    var c := ComponentOf(e, nodes, w[0]);
    assert w[0] in nodes;
    ComponentIsScc(e, nodes, w[0]);
    CycleAmong(e, nodes, w);
    forall i | 0 <= i < |w|
      ensures w[i] in c
    {
      StepsConnect(Among(e, nodes), w, w[0], w[0], i);
    }
    var i :| 0 <= i < |w| && w[i] != w[0];
    TwoElements(c, w[0], w[i]);
  }

  lemma TwoElements(c: set<Block>, x: Block, y: Block)
    requires x in c && y in c && x != y
    ensures 2 <= |c|
  {
    assert c == (c - {x, y}) + {x, y};
    assert |c| == |c - {x, y}| + |{x, y}|;
  }
}
