/** The rounds of loop discovery: what holds of the graph that is left, of the loops
    found so far, and of the tables about them. */
module LoopRounds {
  import opened Cfg
  import opened PostOrder
  import opened Scc
  import opened LoopForest

  // ---------------------------------------------------------------- the graph that is left

  ghost function PredEdges(g: Graph): Edges
    requires g.InRange()
  {
    map b | b in Blocks(g) :: Elems(g.preds[b])
  }

  ghost predicate KeptNode(g: Graph, succs: Edges, prevs: Edges, nodes: set<Block>, n: Block)
    requires g.InRange()
  {
    && n in succs && n in prevs && n < g.Size()
    && succs[n] == Elems(g.succs[n]) * nodes && prevs[n] == Elems(g.preds[n]) * nodes
  }

  ghost predicate ReservedNode(g: Graph, succs: Edges, nodes: set<Block>, r: Block)
    requires g.InRange()
  {
    r in succs && r < g.Size() && Elems(g.succs[r]) * nodes <= succs[r] <= Elems(g.succs[r])
  }

  /** nodes keep their edges among themselves; the reserved ones still lead to them. */
  ghost predicate Shrunk(g: Graph, succs: Edges, prevs: Edges, nodes: set<Block>, reserved: set<Block>)
    requires g.InRange()
  {
    && succs.Keys == Blocks(g) == prevs.Keys
    && nodes + reserved == Blocks(g) && nodes !! reserved
    && (forall n {:trigger KeptNode(g, succs, prevs, nodes, n)} :: n in nodes ==> KeptNode(g, succs, prevs, nodes, n))
    && (forall r {:trigger ReservedNode(g, succs, nodes, r)} :: r in reserved ==> ReservedNode(g, succs, nodes, r))
  }

  ghost function Erase(e: Edges, from: set<Block>, b: Block): Edges {
    map x | x in e :: if x in from then e[x] - {b} else e[x]
  }

  /** Erasing a node from its successors' and predecessors' lists. */
  lemma RemoveKeeps(g: Graph, succs: Edges, prevs: Edges, nodes: set<Block>, reserved: set<Block>, base: Block)
    requires g.WellFormed() && Shrunk(g, succs, prevs, nodes, reserved) && base in nodes
    ensures base in succs && base in prevs
    ensures var prevs' := Erase(prevs, succs[base], base);
      Shrunk(g, Erase(succs, prevs'[base], base), prevs', nodes - {base}, reserved + {base})
  {
    assert KeptNode(g, succs, prevs, nodes, base);
    var prevs' := Erase(prevs, succs[base], base);
    var succs' := Erase(succs, prevs'[base], base);
    var few := nodes - {base};
    forall n | n in few
      ensures KeptNode(g, succs', prevs', few, n)
    {
      assert KeptNode(g, succs, prevs, nodes, n);
      assert base in g.preds[n] <==> n in g.succs[base];
      assert base in g.succs[n] <==> n in g.preds[base];
    }
    forall r | r in reserved + {base}
      ensures ReservedNode(g, succs', few, r)
    {
      if r != base {
        assert ReservedNode(g, succs, nodes, r);
      }
    }
  }

  lemma ShrunkIsAmong(g: Graph, succs: Edges, prevs: Edges, nodes: set<Block>, reserved: set<Block>)
    requires g.InRange() && Shrunk(g, succs, prevs, nodes, reserved)
    ensures nodes <= SuccEdges(g).Keys && nodes <= succs.Keys && nodes <= prevs.Keys
    ensures forall x, y {:trigger Step(succs, x, y)} {:trigger Step(Among(SuccEdges(g), nodes), x, y)} ::
              x in nodes ==> (Step(succs, x, y) <==> Step(Among(SuccEdges(g), nodes), x, y))
    ensures forall x, y {:trigger Step(succs, x, y)} :: x in nodes && Step(succs, x, y) ==> y in nodes
  {
    forall x, y | x in nodes
      ensures Step(succs, x, y) <==> Step(Among(SuccEdges(g), nodes), x, y)
    {
      assert KeptNode(g, succs, prevs, nodes, x);
    }
  }

  /** The components of what is left, of the graph itself. */
  ghost predicate Components(g: Graph, nodes: set<Block>, sccs: set<set<Block>>)
    requires g.InRange()
  {
    forall c {:trigger c in sccs} :: c in sccs <==> IsScc(Among(SuccEdges(g), nodes), c) && 2 <= |c| && c <= nodes
  }

  lemma ComponentsOfShrunk(g: Graph, succs: Edges, prevs: Edges, nodes: set<Block>, reserved: set<Block>, sccs: set<set<Block>>)
    requires g.InRange() && Shrunk(g, succs, prevs, nodes, reserved)
    requires forall c {:trigger c in sccs} :: c in sccs <==> IsScc(succs, c) && 2 <= |c| && c <= nodes
    ensures Components(g, nodes, sccs)
  {
    hide IsScc, Shrunk, Step;
    var e := Among(SuccEdges(g), nodes);
    ShrunkIsAmong(g, succs, prevs, nodes, reserved);
    forall c
      ensures c in sccs <==> IsScc(e, c) && 2 <= |c| && c <= nodes
    {
      if c <= nodes && IsScc(succs, c) {
        SccSame(succs, e, nodes, c);
      }
      if c <= nodes && IsScc(e, c) {
        SccSame(e, succs, nodes, c);
      }
    }
  }

  lemma BegunShrunk(g: Graph, succs: Edges, prevs: Edges)
    requires g.InRange() && succs == SuccEdges(g) && prevs == PredEdges(g)
    ensures Shrunk(g, succs, prevs, Blocks(g), {})
  {
    forall n | n in Blocks(g)
      ensures KeptNode(g, succs, prevs, Blocks(g), n)
    {
      assert Elems(g.succs[n]) <= Blocks(g) && Elems(g.preds[n]) <= Blocks(g);
    }
  }

  // ---------------------------------------------------------------- loops

  /** A loop of the graph: two blocks or more, each reached from each within the
      loop, entered from outside at its base. */
  ghost predicate IsLoop(g: Graph, l: Loop)
    requires g.InRange()
  {
    && 2 <= |l.body| && l.body <= Blocks(g) && l.base in l.body
    && (exists u :: u in g.preds[l.base] && u !in l.body)
    && forall a, b {:trigger Reach(Among(SuccEdges(g), l.body), a, b)} :: a in l.body && b in l.body ==> Reach(Among(SuccEdges(g), l.body), a, b)
  }

  lemma ReachInside(e: Edges, nodes: set<Block>, c: set<Block>, a: Block, b: Block)
    requires nodes <= e.Keys && c <= nodes && IsScc(Among(e, nodes), c) && a in c && b in c
    ensures Reach(Among(e, c), a, b)
  {
    var all := Among(e, nodes);
    assert Connected(all, a, b);
    var p :| Leads(all, p, a, b);
    forall i | 0 <= i < |p|
      ensures p[i] in c
    {
      StepsConnect(all, p, a, b, i);
      ReachTrans(all, p[i], b, a);
      assert Connected(all, a, p[i]);
    }
    forall i | 0 <= i < |p| - 1
      ensures Step(Among(e, c), p[i], p[i + 1])
    {
      var j := i + 1;
      assert Step(all, p[i], p[j]) && p[j] in c;
    }
    assert Leads(Among(e, c), p, a, b);
  }

  lemma ComponentIsLoop(g: Graph, nodes: set<Block>, c: set<Block>, base: Block, u: Block)
    requires g.WellFormed() && nodes <= Blocks(g) && c <= nodes && 2 <= |c| && IsScc(Among(SuccEdges(g), nodes), c)
    requires base in c && u !in c && u in g.preds[base]
    ensures IsLoop(g, Loop(c, base))
  {
    hide IsScc, Reach;
    forall a, b | a in c && b in c
      ensures Reach(Among(SuccEdges(g), c), a, b)
    {
      ReachInside(SuccEdges(g), nodes, c, a, b);
    }
  }

  ghost predicate AllLoops(g: Graph, loops: seq<Loop>)
    requires g.InRange()
  {
    forall i {:trigger IsLoop(g, loops[i])} :: 0 <= i < |loops| ==> IsLoop(g, loops[i])
  }

  /** Some loop holds the cycle and has its base on it. */
  ghost predicate Covered(loops: seq<Loop>, w: seq<Block>) {
    exists i {:trigger Covers(loops[i], w)} :: 0 <= i < |loops| && Covers(loops[i], w)
  }

  ghost predicate CyclesKept(g: Graph, nodes: set<Block>, loops: seq<Loop>)
    requires g.InRange()
  {
    forall w {:trigger IsCycle(SuccEdges(g), w)} :: IsCycle(SuccEdges(g), w) ==> Within(w, nodes) || Covered(loops, w)
  }

  /** Between two rounds. */
  ghost predicate Found(g: Graph, nodes: set<Block>, loops: seq<Loop>)
    requires g.InRange()
  {
    && Forest(loops) && AllLoops(g, loops) && CyclesKept(g, nodes, loops)
    && forall i {:trigger Split(SuccEdges(g), nodes, loops[i])} :: 0 <= i < |loops| ==> Split(SuccEdges(g), nodes, loops[i])
  }

  lemma FoundNothing(g: Graph)
    requires g.InRange()
    ensures Found(g, Blocks(g), [])
  {
    var e := SuccEdges(g);
    forall w | IsCycle(e, w)
      ensures Within(w, Blocks(g))
    {
      forall i | 0 <= i < |w|
        ensures w[i] in Blocks(g)
      {
        if i < |w| - 1 {
          assert Step(e, w[i], w[i + 1]);
        } else {
          assert Step(e, w[0], w[0 + 1]);
        }
      }
    }
  }

  /** During a round that began with nodes0 and loops0: which components are dealt with. */
  ghost predicate Working(g: Graph, nodes0: set<Block>, loops0: seq<Loop>, done: set<set<Block>>,
                          nodes: set<Block>, loops: seq<Loop>)
    requires g.InRange()
  {
    && loops0 <= loops && Forest(loops) && AllLoops(g, loops)
    && nodes <= nodes0
    && (forall i {:trigger loops[i]} :: |loops0| <= i < |loops| ==> loops[i].body in done && loops[i].base in nodes0 - nodes)
    && (forall c {:trigger NewBody(loops, |loops0|, c)} :: c in done ==> NewBody(loops, |loops0|, c))
    && (forall x {:trigger NewBase(loops, |loops0|, x)} :: x in nodes0 && x !in nodes ==> NewBase(loops, |loops0|, x))
  }

  /** Behind the first k loops one has this body; this base. */
  ghost predicate NewBody(loops: seq<Loop>, k: nat, c: set<Block>) { exists i :: k <= i < |loops| && loops[i].body == c }

  ghost predicate NewBase(loops: seq<Loop>, k: nat, x: Block) { exists i :: k <= i < |loops| && loops[i].base == x }

  lemma NewMore(loops: seq<Loop>, l: Loop, k: nat)
    requires k <= |loops|
    ensures forall c {:trigger NewBody(loops + [l], k, c)} :: NewBody(loops, k, c) || c == l.body ==> NewBody(loops + [l], k, c)
    ensures forall x {:trigger NewBase(loops + [l], k, x)} :: NewBase(loops, k, x) || x == l.base ==> NewBase(loops + [l], k, x)
  {
    var more := loops + [l];
    assert more[|loops|] == l;
    forall c | NewBody(loops, k, c)
      ensures NewBody(more, k, c)
    {
      var i :| k <= i < |loops| && loops[i].body == c;
      assert more[i].body == c;
    }
    forall x | NewBase(loops, k, x)
      ensures NewBase(more, k, x)
    {
      var i :| k <= i < |loops| && loops[i].base == x;
      assert more[i].base == x;
    }
  }

  lemma WorkingBegins(g: Graph, nodes: set<Block>, loops: seq<Loop>)
    requires g.InRange() && Found(g, nodes, loops)
    ensures Working(g, nodes, loops, {}, nodes, loops)
  {
  }

  lemma WorkingStep(g: Graph, nodes0: set<Block>, loops0: seq<Loop>, sccs: set<set<Block>>, done: set<set<Block>>,
                    nodes: set<Block>, loops: seq<Loop>, c: set<Block>, base: Block)
    requires g.InRange() && Components(g, nodes0, sccs) && Found(g, nodes0, loops0)
    requires Working(g, nodes0, loops0, done, nodes, loops) && done <= sccs
    requires c in sccs && c !in done && base in c && base in nodes && IsLoop(g, Loop(c, base))
    ensures Working(g, nodes0, loops0, done + {c}, nodes - {base}, loops + [Loop(c, base)])
    ensures forall i {:trigger loops[i]} :: 0 <= i < |loops| ==> loops[i].base != base && loops[i].body != c
  {
    hide *;
    NewIsNested(g, nodes0, loops0, sccs, done, nodes, loops, c, base);
    WorkingParts(g, nodes0, loops0, done, nodes, loops);
    ForestStep(loops, Loop(c, base));
    LoopsStep(g, loops, Loop(c, base));
    WorkingAdds(g, nodes0, loops0, done, nodes, loops, c, base);
  }

  lemma WorkingParts(g: Graph, nodes0: set<Block>, loops0: seq<Loop>, done: set<set<Block>>, nodes: set<Block>, loops: seq<Loop>)
    requires g.InRange() && Working(g, nodes0, loops0, done, nodes, loops)
    ensures Forest(loops) && AllLoops(g, loops)
  {
  }

  /** The new loop against those found before, in earlier rounds and in this one. */
  lemma NewIsNested(g: Graph, nodes0: set<Block>, loops0: seq<Loop>, sccs: set<set<Block>>, done: set<set<Block>>,
                    nodes: set<Block>, loops: seq<Loop>, c: set<Block>, base: Block)
    requires g.InRange() && Components(g, nodes0, sccs) && Found(g, nodes0, loops0)
    requires Working(g, nodes0, loops0, done, nodes, loops) && done <= sccs
    requires c in sccs && c !in done && base in c && base in nodes
    ensures forall i {:trigger loops[i]} :: 0 <= i < |loops| ==> loops[i].base != base && loops[i].body != c && Nested(loops[i], Loop(c, base))
  {
    hide IsScc, IsLoop, Reach, AllLoops, Forest, CyclesKept, Among;
    forall i | 0 <= i < |loops|
      ensures loops[i].base != base && loops[i].body != c && Nested(loops[i], Loop(c, base))
    {
      if i < |loops0| {
        assert loops[i] == loops0[i] && Split(SuccEdges(g), nodes0, loops0[i]);
        NestedInSplit(SuccEdges(g), nodes0, loops0[i], c, base);
      } else {
        SccsApart(g, nodes0, sccs, loops[i].body, c);
      }
    }
  }

  lemma ForestStep(loops: seq<Loop>, l: Loop)
    requires Forest(loops) && forall i {:trigger loops[i]} :: 0 <= i < |loops| ==> Nested(loops[i], l)
    ensures Forest(loops + [l])
  {
    hide Nested;
    var loops' := loops + [l];
    forall i, j | 0 <= i < j < |loops'|
      ensures Nested(loops'[i], loops'[j])
    {
      if j < |loops| {
        assert Nested(loops[i], loops[j]);
      }
    }
  }

  lemma LoopsStep(g: Graph, loops: seq<Loop>, l: Loop)
    requires g.InRange() && AllLoops(g, loops) && IsLoop(g, l)
    ensures AllLoops(g, loops + [l])
  {
    hide IsLoop;
    forall i | 0 <= i < |loops + [l]|
      ensures IsLoop(g, (loops + [l])[i])
    {
      if i < |loops| {
        assert IsLoop(g, loops[i]);
      }
    }
  }

  lemma WorkingAdds(g: Graph, nodes0: set<Block>, loops0: seq<Loop>, done: set<set<Block>>,
                    nodes: set<Block>, loops: seq<Loop>, c: set<Block>, base: Block)
    requires g.InRange() && Working(g, nodes0, loops0, done, nodes, loops) && base in nodes
    requires Forest(loops + [Loop(c, base)]) && AllLoops(g, loops + [Loop(c, base)])
    ensures Working(g, nodes0, loops0, done + {c}, nodes - {base}, loops + [Loop(c, base)])
  {
    hide AllLoops, Forest, NewBody, NewBase;
    var l := Loop(c, base);
    NewMore(loops, l, |loops0|);
    assert forall d {:trigger NewBody(loops + [l], |loops0|, d)} :: d in done ==> NewBody(loops, |loops0|, d);
    assert forall x {:trigger NewBase(loops + [l], |loops0|, x)} :: x in nodes0 && x !in nodes ==> NewBase(loops, |loops0|, x);
  }

  lemma SccsApart(g: Graph, nodes: set<Block>, sccs: set<set<Block>>, c: set<Block>, d: set<Block>)
    requires g.InRange() && Components(g, nodes, sccs) && c in sccs && d in sccs
    ensures c == d || c !! d
  {
    hide IsScc;
    if x :| x in c && x in d {
      SccsDisjoint(Among(SuccEdges(g), nodes), c, d, x);
    }
  }

  /** All components of the round are dealt with. */
  lemma WorkingEnds(g: Graph, nodes0: set<Block>, loops0: seq<Loop>, sccs: set<set<Block>>, nodes: set<Block>, loops: seq<Loop>)
    requires g.InRange() && nodes0 <= Blocks(g) && Components(g, nodes0, sccs) && Found(g, nodes0, loops0)
    requires Working(g, nodes0, loops0, sccs, nodes, loops)
    ensures Found(g, nodes, loops)
  {
    hide IsScc, IsLoop, Reach, Connected;
    var e := SuccEdges(g);
    forall i | 0 <= i < |loops|
      ensures Split(e, nodes, loops[i])
    {
      if i < |loops0| {
        assert loops[i] == loops0[i] && Split(e, nodes0, loops0[i]);
        SplitFewer(e, nodes0, nodes, loops[i]);
      } else {
        assert IsLoop(g, loops[i]);
        LoopHasBase(g, loops[i]);
        FoundIsSplit(e, nodes0, loops[i].body, loops[i].base, nodes);
      }
    }
    forall w | IsCycle(e, w)
      ensures Within(w, nodes) || Covered(loops, w)
    {
      CycleStep(g, nodes0, loops0, sccs, nodes, loops, w);
    }
  }

  lemma LoopHasBase(g: Graph, l: Loop)
    requires g.InRange() && IsLoop(g, l)
    ensures l.base in l.body
  {
  }

  lemma CycleStep(g: Graph, nodes0: set<Block>, loops0: seq<Loop>, sccs: set<set<Block>>, nodes: set<Block>, loops: seq<Loop>, w: seq<Block>)
    requires g.InRange() && nodes0 <= Blocks(g) && Components(g, nodes0, sccs) && CyclesKept(g, nodes0, loops0)
    requires Working(g, nodes0, loops0, sccs, nodes, loops) && IsCycle(SuccEdges(g), w)
    ensures Within(w, nodes) || Covered(loops, w)
  {
    hide Covered, Components, Working, Leads, Within, ComponentOf, Among, SuccEdges, IsScc;
    if Covered(loops0, w) {
      CoveredMore(g, nodes0, loops0, sccs, nodes, loops, w);
    } else {
      NodesOfGraph(g, nodes0);
      CycleInComponent(SuccEdges(g), nodes0, w);
      var c := ComponentOf(SuccEdges(g), nodes0, w[0]);
      CycleOfComponent(g, nodes0, loops0, sccs, nodes, loops, w, c);
    }
  }
  lemma CoveredMore(g: Graph, nodes0: set<Block>, loops0: seq<Loop>, done: set<set<Block>>, nodes: set<Block>, loops: seq<Loop>, w: seq<Block>)
    requires g.InRange() && Working(g, nodes0, loops0, done, nodes, loops) && Covered(loops0, w)
    ensures Covered(loops, w)
  {
    hide Covers, IsLoop, Nested;
    var i :| 0 <= i < |loops0| && Covers(loops0[i], w);
    assert Covers(loops[i], w);
  }

  lemma NodesOfGraph(g: Graph, nodes: set<Block>)
    requires g.InRange() && nodes <= Blocks(g)
    ensures nodes <= SuccEdges(g).Keys
  {
  }

  /** A cycle in one component either loses nothing or goes through its base. */
  lemma CycleOfComponent(g: Graph, nodes0: set<Block>, loops0: seq<Loop>, sccs: set<set<Block>>, nodes: set<Block>, loops: seq<Loop>,
                         w: seq<Block>, c: set<Block>)
    requires g.InRange() && Components(g, nodes0, sccs) && Working(g, nodes0, loops0, sccs, nodes, loops)
    requires IsScc(Among(SuccEdges(g), nodes0), c) && 2 <= |c| && c <= nodes0 && Within(w, c)
    ensures Within(w, nodes) || Covered(loops, w)
  {
    hide IsScc, IsLoop, Nested, Among, SuccEdges;
    assert c in sccs;
    assert NewBody(loops, |loops0|, c);
    var i :| |loops0| <= i < |loops| && loops[i].body == c;
    if loops[i].base in w {
      assert Covers(loops[i], w);
    } else {
      forall k | 0 <= k < |w|
        ensures w[k] in nodes
      {
        BaseIsOut(g, nodes0, loops0, sccs, nodes, loops, i, w[k]);
      }
    }
  }

  lemma BaseIsOut(g: Graph, nodes0: set<Block>, loops0: seq<Loop>, sccs: set<set<Block>>, nodes: set<Block>, loops: seq<Loop>, i: nat, x: Block)
    requires g.InRange() && Components(g, nodes0, sccs) && Working(g, nodes0, loops0, sccs, nodes, loops)
    requires |loops0| <= i < |loops| && x in loops[i].body && x in nodes0
    ensures x in nodes || loops[i].base == x
  {
    hide IsScc, IsLoop, Nested, Among, SuccEdges, Components;
    if x !in nodes {
      assert NewBase(loops, |loops0|, x);
      var j :| |loops0| <= j < |loops| && loops[j].base == x;
      BaseOnce(g, nodes0, sccs, loops, i, j, x);
    }
  }

  lemma BaseOnce(g: Graph, nodes: set<Block>, sccs: set<set<Block>>, loops: seq<Loop>, i: nat, j: nat, x: Block)
    requires g.InRange() && Components(g, nodes, sccs) && AllLoops(g, loops) && Forest(loops)
    requires i < |loops| && j < |loops| && loops[i].body in sccs && loops[j].body in sccs
    requires x in loops[i].body && loops[j].base == x
    ensures loops[i].base == x
  {
    hide IsScc, Reach;
    assert IsLoop(g, loops[i]) && IsLoop(g, loops[j]);
    SccsDisjoint(Among(SuccEdges(g), nodes), loops[i].body, loops[j].body, x);
    assert i < j ==> Nested(loops[i], loops[j]);
    assert j < i ==> Nested(loops[j], loops[i]);
  }

  // ---------------------------------------------------------------- the tables

  /** l is found after every other loop that holds b. */
  ghost predicate LastWith(loops: seq<Loop>, i: nat, b: Block) {
    i < |loops| && b in loops[i].body && forall j :: i < j < |loops| ==> b !in loops[j].body
  }

  ghost predicate HasBody(loops: seq<Loop>, c: set<Block>) { exists i :: 0 <= i < |loops| && loops[i].body == c }

  ghost predicate HasBase(loops: seq<Loop>, b: Block) { exists i :: 0 <= i < |loops| && loops[i].base == b }

  ghost predicate TablesOf(loops: seq<Loop>, loopSet: set<set<Block>>, base2loop: map<Block, set<Block>>,
                           loop2base: map<set<Block>, Block>, bb2base: map<Block, Block>)
  {
    && (forall c {:trigger c in loopSet} :: c in loopSet <==> HasBody(loops, c))
    && loop2base.Keys == loopSet
    && (forall b {:trigger b in base2loop} :: b in base2loop <==> HasBase(loops, b))
    && (forall i {:trigger loops[i]} :: 0 <= i < |loops| ==>
          loops[i].base in base2loop && base2loop[loops[i].base] == loops[i].body &&
          loops[i].body in loop2base && loop2base[loops[i].body] == loops[i].base)
    && (forall i: nat, b: Block {:trigger LastWith(loops, i, b)} :: LastWith(loops, i, b) ==> b in bb2base && bb2base[b] == loops[i].base)
    && (forall b {:trigger b in bb2base} :: b in bb2base ==> exists i: nat :: LastWith(loops, i, b))
  }

  ghost function AllTo(body: set<Block>, base: Block): map<Block, Block> { map b | b in body :: base }

  lemma AllToNone(m: map<Block, Block>, body: set<Block>, base: Block)
    ensures m + AllTo(body - body, base) == m
  {
  }

  lemma AllToMore(m: map<Block, Block>, body: set<Block>, rest: set<Block>, b: Block, base: Block)
    requires b in rest && rest <= body
    ensures (m + AllTo(body - rest, base))[b := base] == m + AllTo(body - (rest - {b}), base)
  {
  }

  lemma NoTables()
    ensures TablesOf([], {}, map[], map[], map[])
  {
  }

  /** Entering a loop in the tables. */
  lemma TablesStep(loops: seq<Loop>, loopSet: set<set<Block>>, base2loop: map<Block, set<Block>>,
                   loop2base: map<set<Block>, Block>, bb2base: map<Block, Block>, l: Loop)
    requires TablesOf(loops, loopSet, base2loop, loop2base, bb2base)
    requires forall i {:trigger loops[i]} :: 0 <= i < |loops| ==> loops[i].base != l.base && loops[i].body != l.body
    ensures l.base !in base2loop
    ensures TablesOf(loops + [l], loopSet + {l.body}, base2loop[l.base := l.body], loop2base[l.body := l.base],
                     bb2base + AllTo(l.body, l.base))
  {
    var loops' := loops + [l];
    var bb := bb2base + AllTo(l.body, l.base);
    assert loops'[|loops|] == l;
    forall i: nat, b: Block | LastWith(loops', i, b)
      ensures b in bb && bb[b] == loops'[i].base
    {
      LastBefore(loops, l, i, b);
    }
    forall b | b in bb
      ensures exists i: nat :: LastWith(loops', i, b)
    {
      if b in l.body {
        assert LastWith(loops', |loops|, b);
      } else {
        var i: nat :| LastWith(loops, i, b);
        assert LastWith(loops', i, b);
      }
    }
    forall c
      ensures c in loopSet + {l.body} <==> HasBody(loops', c)
    {
      if c in loopSet {
        var i :| 0 <= i < |loops| && loops[i].body == c;
        assert loops'[i].body == c;
      }
    }
    forall b
      ensures b in base2loop[l.base := l.body] <==> HasBase(loops', b)
    {
      if b in base2loop {
        var i :| 0 <= i < |loops| && loops[i].base == b;
        assert loops'[i].base == b;
      }
    }
  }

  lemma LastBefore(loops: seq<Loop>, l: Loop, i: nat, b: Block)
    requires LastWith(loops + [l], i, b)
    ensures if b in l.body then i == |loops| else LastWith(loops, i, b)
  {
    var loops' := loops + [l];
    assert loops'[|loops|] == l;
    forall j | i < j < |loops|
      ensures b !in loops[j].body
    {
      assert loops'[j] == loops[j];
    }
  }

  /** The table names the base of the smallest loop around a block, and names one
      for exactly the blocks of loops. */
  ghost predicate Innermost(loops: seq<Loop>, bb2base: map<Block, Block>) {
    && (forall b, i {:trigger b in loops[i].body} :: 0 <= i < |loops| && b in loops[i].body ==> b in bb2base)
    && forall b {:trigger b in bb2base} :: b in bb2base ==> InnermostAt(loops, b, bb2base[b])
  }

  ghost predicate InnermostAt(loops: seq<Loop>, b: Block, base: Block) {
    exists i {:trigger loops[i]} :: 0 <= i < |loops| && loops[i].base == base && b in loops[i].body &&
      forall j {:trigger loops[j]} :: 0 <= j < |loops| && b in loops[j].body ==> loops[i].body <= loops[j].body
  }

  lemma LastIsInnermost(loops: seq<Loop>, i: nat, b: Block)
    requires Forest(loops) && LastWith(loops, i, b)
    ensures InnermostAt(loops, b, loops[i].base)
  {
    forall j | 0 <= j < |loops| && b in loops[j].body
      ensures loops[i].body <= loops[j].body
    {
      assert j < i ==> Nested(loops[j], loops[i]);
    }
  }

  lemma {:induction false} SomeLast(loops: seq<Loop>, i: nat, b: Block) returns (k: nat)
    requires i < |loops| && b in loops[i].body
    ensures LastWith(loops, k, b)
    decreases |loops| - i
  {
    if j :| i < j < |loops| && b in loops[j].body {
      k := SomeLast(loops, j, b);
    } else {
      k := i;
    }
  }

  lemma TablesInnermost(loops: seq<Loop>, loopSet: set<set<Block>>, base2loop: map<Block, set<Block>>,
                        loop2base: map<set<Block>, Block>, bb2base: map<Block, Block>)
    requires Forest(loops) && TablesOf(loops, loopSet, base2loop, loop2base, bb2base)
    ensures Innermost(loops, bb2base)
  {
    hide InnermostAt, Forest;
    forall b, i | 0 <= i < |loops| && b in loops[i].body
      ensures b in bb2base
    {
      var k := SomeLast(loops, i, b);
    }
    forall b | b in bb2base
      ensures InnermostAt(loops, b, bb2base[b])
    {
      var i: nat :| LastWith(loops, i, b);
      LastIsInnermost(loops, i, b);
    }
  }

  /** No component is left: every cycle is held by a loop. */
  lemma NoCycleLeft(g: Graph, nodes: set<Block>, loops: seq<Loop>, w: seq<Block>)
    requires g.InRange() && nodes <= Blocks(g) && Components(g, nodes, {}) && CyclesKept(g, nodes, loops)
    requires IsCycle(SuccEdges(g), w)
    ensures Covered(loops, w)
  {
    hide Covered, Components, Leads, Within, ComponentOf, Among, SuccEdges, IsScc;
    NodesOfGraph(g, nodes);
    if Within(w, nodes) {
      CycleInComponent(SuccEdges(g), nodes, w);
      var c := ComponentOf(SuccEdges(g), nodes, w[0]);
      NoComponent(g, nodes, c);
    }
  }

  lemma NoComponent(g: Graph, nodes: set<Block>, c: set<Block>)
    requires g.InRange() && Components(g, nodes, {})
    ensures !(IsScc(Among(SuccEdges(g), nodes), c) && 2 <= |c| && c <= nodes)
  {
    hide IsScc, Among, SuccEdges;
    var none: set<set<Block>> := {};
    assert c !in none;
  }

  /** Entry edges of a component come from nodes outside it or from reserved ones. */
  lemma EntryIsSeen(g: Graph, succs: Edges, prevs: Edges, nodes: set<Block>, reserved: set<Block>, c: set<Block>, u: Block, v: Block)
    requires g.WellFormed() && Shrunk(g, succs, prevs, nodes, reserved) && c <= nodes
    requires u < g.Size() && u !in c && v in c && v in g.succs[u]
    ensures v in prevs && (u in prevs[v] || (u in reserved && u in succs && v in succs[u]))
  {
    assert KeptNode(g, succs, prevs, nodes, v);
    assert v in g.succs[u] <==> u in g.preds[v];
    if u in reserved {
      assert ReservedNode(g, succs, nodes, u);
    }
  }

  /** And only from there. */
  lemma SeenIsEntry(g: Graph, succs: Edges, prevs: Edges, nodes: set<Block>, reserved: set<Block>, c: set<Block>, u: Block, v: Block)
    requires g.WellFormed() && Shrunk(g, succs, prevs, nodes, reserved) && c <= nodes && v in c
    requires (v in prevs && u in prevs[v] && u !in c) || (u in reserved && u in succs && v in succs[u])
    ensures v < g.Size() && u !in c && u in g.preds[v]
  {
    assert KeptNode(g, succs, prevs, nodes, v);
    if u in reserved {
      assert ReservedNode(g, succs, nodes, u);
      assert v in g.succs[u] <==> u in g.preds[v];
    }
  }
}
