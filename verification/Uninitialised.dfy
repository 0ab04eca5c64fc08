/** Functions whose variable is assigned on one way only. Every run of them is
    defined. One is promoted with a phi that gets no value on the other edge; for
    the other, renaming fails if it walks the assigning side first, since it then
    finds the stack of the variable, emptied. */
module Uninitialised {
  import opened Cfg
  import opened PostOrder
  import opened Arithmetic
  import opened Ir
  import opened Ssa
  import opened SsaValues
  import opened Coverage
  import opened RenameWalk

  /** int f(void) { int x; if (1) x = 5; return x; } */
  function Triangle(): Func {
    [BasicBlock([], [Alloca(0), Compare(Temp(0), Ne, Const(1), Const(0))], CondBr(Res(Temp(0)), 1, 2)),
     BasicBlock([], [Store(Const(5), Slot(0))], Br(2)),
     BasicBlock([], [Load(Temp(1), Slot(0))], Ret(Res(Temp(1))))]
  }

  function TriangleGraph(): Graph { Graph([[2, 1], [2], []], [[], [0], [0, 1]]) }

  function TriangleSites(): Sites { map[Temp(0) := (0, 1), Temp(1) := (2, 0)] }

  lemma Ways()
    ensures var g := TriangleGraph();
      IsPath(g, [0], 0) && IsPath(g, [0, 1], 1) && IsPath(g, [0, 2], 2) && IsPath(g, [0, 1, 2], 2)
  {
    var g := TriangleGraph();
    assert g.succs[0] == [2, 1] && g.succs[1] == [2];
    assert g.succs[0][0] == 2 && g.succs[0][1] == 1 && g.succs[1][0] == 2;
  }

  lemma TriangleEdges()
    ensures EdgesOf(TriangleGraph(), Triangle())
  {
    var g, f := TriangleGraph(), Triangle();
    Ways();
    hide IsPath;
    assert g.preds[2] == [0, 1] && g.preds[2][0] == 0 && g.preds[2][1] == 1 && g.preds[1][0] == 0;
    assert g.succs[0][0] == 2 && g.succs[0][1] == 1 && g.succs[1][0] == 2;
    assert g.InRange() && g.Mirrored();
    assert Reachable(g, 0) && Reachable(g, 1) && Reachable(g, 2);
    assert Distinct(g.preds[2]) && Distinct(g.preds[1]) && Distinct(g.preds[0]);
  }

  lemma TriangleResults(b: Block)
    requires b < 3
    ensures var f, sites := Triangle(), TriangleSites();
      && (forall i: nat :: i < |f[b].body| ==> SiteOf(f, sites, b, i) && UsesAvailable(TriangleGraph(), f, sites, b, i))
      && TermAvailable(TriangleGraph(), f, sites, b)
  {
    hide Dom;
  }

  /** It has the form the pass expects. */
  lemma TriangleForm()
    ensures SourceForm(TriangleGraph(), Triangle(), TriangleSites())
  {
    hide EdgesOf, SiteOf, UsesAvailable, TermAvailable;
    TriangleEdges();
    TriangleResults(0);
    TriangleResults(1);
    TriangleResults(2);
  }

  /** All its runs return 5. */
  lemma TriangleRuns(m: Machine, mem: Memory, fuel: nat)
    requires fuel >= 3
    ensures Execute(m, Triangle(), mem, fuel) == Returned(Some(5), mem, [])
  {
    var f := Triangle();
    var s := State(map[], map[], mem, []);
    var s1 := State(map[Temp(0) := 1], map[], mem, []);
    assert f[0].body[1..] == [Compare(Temp(0), Ne, Const(1), Const(0))];
    assert f[0].body[1..][1..] == [];
    assert ExecBody(m, f[0].body[1..], s) == Next(s1);
    assert s.(slots := s.slots - {0}) == s;
    assert ExecBody(m, f[0].body, s) == Next(s1);
    assert EnterPhis(m, s1.env, [], 0, s1.env) == s1.env;
    var s2 := State(map[Temp(0) := 1], map[0 := 5], mem, []);
    assert f[1].body[1..] == [];
    assert ExecBody(m, f[1].body, s1) == Next(s2);
    assert EnterPhis(m, s2.env, [], 1, s2.env) == s2.env;
    var s3 := State(map[Temp(0) := 1, Temp(1) := 5], map[0 := 5], mem, []);
    assert f[2].body[1..] == [];
    assert ExecBody(m, f[2].body, s2) == Next(s3);
    assert RunFrom(m, f, 2, s2, fuel - 2) == Returned(Some(5), mem, []);
    assert RunFrom(m, f, 1, s1, fuel - 1) == RunFrom(m, f, 2, s2, fuel - 2);
    assert ExecTerm(m, f[0].term, s1) == Goto(1);
    assert RunFrom(m, f, 0, s, fuel) == RunFrom(m, f, 1, s1, fuel - 1);
  }

  lemma PlaceIsLeast()
    ensures Closed(TriangleGraph(), Triangle(), {(2, 0)}) && Least(TriangleGraph(), Triangle(), {(2, 0)})
  {
    var g, f, place := TriangleGraph(), Triangle(), {(2, 0)};
    Ways();
    assert InFrontier(g, 1, 2) by {
      assert 1 in g.preds[2] by {
        assert g.preds[2][1] == 1;
      }
      DomRefl(g, 1);
      assert 1 !in [0, 2];
    }
    assert !Dom(g, 1, 0) && !Dom(g, 2, 0) && !Dom(g, 2, 1);
    forall b: Block, x: nat, y: Block | (Stores(f, b, x) || (b, x) in place) && InFrontier(g, b, y)
      ensures (y, x) in place
    {
    }
    assert StoresTo(f[1].body[0], 0);
    assert Stores(f, 1, 0);
  }

  /** One edge brings no value, but only block 2 is walked with the stack there. */
  lemma TriangleIsSafe()
    ensures !Covered(TriangleGraph(), Triangle(), {(2, 0)}) && Safe(TriangleGraph(), Triangle(), {(2, 0)})
  {
    var g, f, place := TriangleGraph(), Triangle(), {(2, 0)};
    Ways();
    assert !EdgeCovered(g, f, place, 0, 2, 0) by {
      forall d: Block
        ensures !StrictDom(g, d, 0)
      {
        assert d !in [0] || d == 0;
      }
    }
    assert g.preds[2][0] == 0;
    assert StoresTo(f[1].body[0], 0);
    assert StoredBefore(f[1].body, 1, 0);
    assert g.succs[0] == [2, 1] && g.succs[1] == [2] && g.succs[2] == [];
    forall b: Block, x: nat, d: Block | Misses(g, f, place, b, x) && Defines(f, place, d, x) && d < |f|
      ensures Dom(g, b, d)
    {
      assert b == 0;
      EntryDominates(g, d);
    }
  }

  // ---------------------------------------------------------------- a failure

  /** int f(int a) { int x; if (a) { x = 1; } else { output(2); } return 0; } */
  function Diamond(): Func {
    [BasicBlock([], [Alloca(0), Compare(Temp(0), Ne, Param(0), Const(0))], CondBr(Res(Temp(0)), 1, 2)),
     BasicBlock([], [Store(Const(1), Slot(0))], Br(3)),
     BasicBlock([], [Call(Temp(1), 0, [Const(2)])], Br(3)),
     BasicBlock([], [], Ret(Const(0)))]
  }

  function DiamondGraph(): Graph { Graph([[2, 1], [3], [3], []], [[], [0], [0], [2, 1]]) }

  function DiamondSites(): Sites { map[Temp(0) := (0, 1), Temp(1) := (2, 0)] }

  lemma DiamondWays()
    ensures var g := DiamondGraph();
      IsPath(g, [0], 0) && IsPath(g, [0, 1], 1) && IsPath(g, [0, 2], 2) && IsPath(g, [0, 1, 3], 3) && IsPath(g, [0, 2, 3], 3)
  {
    var g := DiamondGraph();
    assert g.succs[0] == [2, 1] && g.succs[1] == [3] && g.succs[2] == [3];
    assert g.succs[0][0] == 2 && g.succs[0][1] == 1 && g.succs[1][0] == 3 && g.succs[2][0] == 3;
  }

  lemma DiamondMirrored()
    ensures DiamondGraph().InRange() && DiamondGraph().Mirrored()
  {
    var g := DiamondGraph();
    assert g.preds[3] == [2, 1] && g.preds[3][0] == 2 && g.preds[3][1] == 1 && g.preds[1][0] == 0 && g.preds[2][0] == 0;
    assert g.succs[0][0] == 2 && g.succs[0][1] == 1 && g.succs[1][0] == 3 && g.succs[2][0] == 3;
  }

  lemma DiamondEdges()
    ensures EdgesOf(DiamondGraph(), Diamond())
  {
    var g, f := DiamondGraph(), Diamond();
    DiamondWays();
    DiamondMirrored();
    hide IsPath, Graph.Mirrored, Graph.InRange;
    assert Reachable(g, 0) && Reachable(g, 1) && Reachable(g, 2) && Reachable(g, 3);
    assert Distinct(g.preds[3]) && Distinct(g.preds[2]) && Distinct(g.preds[1]) && Distinct(g.preds[0]);
  }

  lemma DiamondResults(b: Block)
    requires b < 4
    ensures |Diamond()| == 4 && Diamond()[b].phis == []
    ensures var f, sites := Diamond(), DiamondSites();
      && (forall i: nat :: i < |f[b].body| ==> SiteOf(f, sites, b, i) && UsesAvailable(DiamondGraph(), f, sites, b, i))
      && TermAvailable(DiamondGraph(), f, sites, b)
  {
    hide Dom;
  }

  lemma DiamondMade()
    ensures var f, sites := Diamond(), DiamondSites();
      forall r :: r in sites ==> sites[r].0 < |f| && sites[r].1 < |f[sites[r].0].body| && Dest(f[sites[r].0].body[sites[r].1]) == Some(r)
  {
  }

  /** It has the form the pass expects. */
  lemma DiamondForm()
    ensures SourceForm(DiamondGraph(), Diamond(), DiamondSites())
  {
    hide EdgesOf, SiteOf, UsesAvailable, TermAvailable, Diamond, DiamondGraph, DiamondSites;
    DiamondEdges();
    DiamondMade();
    DiamondResults(0);
    forall b: Block | b < 4
      ensures Diamond()[b].phis == [] && TermAvailable(DiamondGraph(), Diamond(), DiamondSites(), b)
      ensures forall i: nat :: i < |Diamond()[b].body| ==>
        SiteOf(Diamond(), DiamondSites(), b, i) && UsesAvailable(DiamondGraph(), Diamond(), DiamondSites(), b, i)
    {
      DiamondResults(b);
    }
  }

  lemma DiamondEnd(m: Machine, s: State, p: Block, fuel: nat)
    requires fuel >= 1
    ensures Enter(m, Diamond(), p, 3, s, fuel) == Returned(Some(0), s.mem, s.out)
  {
    assert EnterPhis(m, s.env, [], p, s.env) == s.env;
    assert ExecBody(m, Diamond()[3].body, s) == Next(s);
  }

  /** Its runs with an argument are defined: they return 0 unless a call does not
      come back. */
  lemma DiamondRuns(m: Machine, mem: Memory, fuel: nat)
    requires fuel >= 3 && |m.args| == 1
    ensures var o := Execute(m, Diamond(), mem, fuel); (o.Returned? && o.value == Some(0)) || (o.Halted? && o.why == Lost)
  {
    var f := Diamond();
    var s := State(map[], map[], mem, []);
    var s1 := State(map[Temp(0) := Bit(Test(Ne, m.args[0], 0))], map[], mem, []);
    assert f[0].body[1..] == [Compare(Temp(0), Ne, Param(0), Const(0))];
    assert f[0].body[1..][1..] == [];
    assert s.(slots := s.slots - {0}) == s;
    assert ExecBody(m, f[0].body[1..], s) == Next(s1);
    assert ExecBody(m, f[0].body, s) == Next(s1);
    assert EnterPhis(m, s1.env, [], 0, s1.env) == s1.env;
    if m.args[0] != 0 {
      assert ExecTerm(m, f[0].term, s1) == Goto(1);
      assert RunFrom(m, f, 0, s, fuel) == RunFrom(m, f, 1, s1, fuel - 1);
      var s2 := s1.(slots := map[0 := 1]);
      assert f[1].body[1..] == [];
      assert ExecBody(m, f[1].body, s1) == Next(s2);
      DiamondEnd(m, s2, 1, fuel - 2);
      assert RunFrom(m, f, 1, s1, fuel - 1) == Enter(m, f, 1, 3, s2, fuel - 2);
    } else {
      assert f[2].body[1..] == [] && [Const(2)][1..] == [];
      assert EvalAll(m, s1.env, [Const(2)][1..]) == Some([]);
      var none: seq<int> := [];
      assert [2] + none == [2];
      assert EvalAll(m, s1.env, [Const(2)]) == Some([2]);
      assert ExecTerm(m, f[0].term, s1) == Goto(2);
      assert RunFrom(m, f, 0, s, fuel) == RunFrom(m, f, 2, s1, fuel - 1);
      var r := Exec(m, f[2].body[0], s1);
      assert r.Halt? ==> r.why == Lost;
      assert ExecBody(m, f[2].body, s1) == if r.Halt? then r else Next(r.s);
      if r.Next? {
        DiamondEnd(m, r.s, 2, fuel - 2);
        assert RunFrom(m, f, 2, s1, fuel - 1) == Enter(m, f, 2, 3, r.s, fuel - 2);
      }
    }
  }

  lemma DiamondFrontier(b: Block, y: Block)
    ensures InFrontier(DiamondGraph(), b, y) && (b == 1 || b == 3) ==> y == 3
    ensures InFrontier(DiamondGraph(), 1, 3)
  {
    var g := DiamondGraph();
    DiamondWays();
    assert 1 in g.preds[3] by {
      assert g.preds[3][1] == 1;
    }
    DomRefl(g, 1);
    assert 1 !in [0, 2, 3];
    assert !Dom(g, 1, 0) && !Dom(g, 3, 0) && !Dom(g, 3, 1) && !Dom(g, 3, 2) && !Dom(g, 1, 2);
  }

  lemma DiamondPlace()
    ensures Closed(DiamondGraph(), Diamond(), {(3, 0)}) && Least(DiamondGraph(), Diamond(), {(3, 0)})
  {
    hide InFrontier;
    var g, f, place := DiamondGraph(), Diamond(), {(3, 0)};
    DiamondFrontier(0, 0);
    forall b: Block, x: nat, y: Block | (Stores(f, b, x) || (b, x) in place) && InFrontier(g, b, y)
      ensures (y, x) in place
    {
      DiamondFrontier(b, y);
    }
    assert StoresTo(f[1].body[0], 0);
    assert Stores(f, 1, 0);
  }

  /** The entry is above all, and nothing else is above anything. */
  function DiamondIdom(): map<Block, Block> { map[1 := 0, 2 := 0, 3 := 0] }

  lemma DiamondDoms(d: Block, b: Block)
    requires b < 4
    ensures Dom(DiamondGraph(), d, b) <==> d == 0 || d == b
  {
    var g := DiamondGraph();
    DiamondWays();
    if d == 0 {
      EntryDominates(g, b);
    } else if d == b {
      DomRefl(g, b);
    } else {
      assert b == 0 ==> d !in [0];
      assert b == 1 ==> d !in [0, 1];
      assert b == 2 ==> d !in [0, 2];
      assert b == 3 ==> d !in [0, 1, 3] || d !in [0, 2, 3];
    }
  }

  lemma DiamondIdoms(b: Block)
    requires 0 < b < 4
    ensures IsIdom(DiamondGraph(), DiamondIdom()[b], b)
  {
    var g := DiamondGraph();
    forall e
      ensures Dom(g, e, b) <==> e == 0 || e == b
    {
      DiamondDoms(e, b);
    }
    hide Dom;
    forall e | StrictDom(g, e, b)
      ensures Dom(g, e, 0)
    {
      DiamondDoms(0, 0);
    }
  }

  /** The walk can go either way round. */
  lemma DiamondOrder(first: Block, second: Block)
    requires {first, second} == {1, 2} && first != second
    ensures WalkOrder(DiamondGraph(), DiamondIdom(), [0, first, second, 3]) && WalkOrder(DiamondGraph(), DiamondIdom(), [0, first, second])
  {
    var g, idom := DiamondGraph(), DiamondIdom();
    forall d: Block, b: Block | b < 4
      ensures Dom(g, d, b) <==> d == 0 || d == b
    {
      DiamondDoms(d, b);
    }
    hide Dom, WalkOrder;
    assert first in {1, 2} && second in {1, 2};
    DiamondEmpty();
    assert [] + [0] == [0] && [0] + [first] == [0, first] && [0, first] + [second] == [0, first, second] && [0, first, second] + [3] == [0, first, second, 3];
    OneMore(g, idom, [], 0);
    assert idom[first] == 0 && idom[second] == 0;
    OneMore(g, idom, [0], first);
    OneMore(g, idom, [0, first], second);
    OneMore(g, idom, [0, first, second], 3);
  }

  lemma DiamondEmpty()
    ensures WalkOrder(DiamondGraph(), DiamondIdom(), [])
  {
  }

  lemma DiamondOrders()
    ensures forall b :: 0 < b < 4 ==> IsIdom(DiamondGraph(), DiamondIdom()[b], b)
    ensures WalkOrder(DiamondGraph(), DiamondIdom(), [0, 1, 2]) && WalkOrder(DiamondGraph(), DiamondIdom(), [0, 2, 1, 3])
  {
    hide WalkOrder, IsIdom;
    forall b: Block | 0 < b < 4
      ensures IsIdom(DiamondGraph(), DiamondIdom()[b], b)
    {
      DiamondIdoms(b);
    }
    DiamondOrder(1, 2);
    DiamondOrder(2, 1);
  }

  /** With block 1 walked first, the edge from block 2 finds the stack empty. */
  lemma DiamondFails()
    ensures var g, f, place := DiamondGraph(), Diamond(), {(3, 0)};
      && (forall b :: 0 < b < 4 ==> IsIdom(g, DiamondIdom()[b], b))
      && WalkOrder(g, DiamondIdom(), [0, 1, 2]) && WalkOrder(g, DiamondIdom(), [0, 2, 1, 3])
      && !Safe(g, f, place) && !NoStale(g, f, place, [0, 1, 2]) && NoStale(g, f, place, [0, 2, 1, 3])
  {
    var g, f, place := DiamondGraph(), Diamond(), {(3, 0)};
    DiamondOrders();
    hide WalkOrder, IsIdom;
    DiamondMisses(g, f, place);
    assert StoresTo(f[1].body[0], 0);
    assert Stores(f, 1, 0) && Defines(f, place, 1, 0);
    assert !Dom(g, 2, 1) by {
      DiamondWays();
      assert 2 !in [0, 1];
    }
    var bad, good := [0, 1, 2], [0, 2, 1, 3];
    assert bad[..2] == [0, 1] && bad[..2][1] == 1;
    assert StaleEdge(g, f, place, Elems(bad[..2]), 2, 3, 0);
    assert g.succs[2][0] == 3;
    assert StaleIn(g, f, place, Elems(bad[..2]), 2);
    assert bad[2] == 2;
    forall k | 0 <= k < |good|
      ensures !StaleIn(g, f, place, Elems(good[..k]), good[k])
    {
      DiamondGood(g, f, place, k);
    }
  }

  lemma DiamondMisses(g: Graph, f: Func, place: set<(Block, nat)>)
    requires g == DiamondGraph() && f == Diamond() && place == {(3, 0)}
    ensures !DefinedAt(g, f, place, 2, 1, 0) && Misses(g, f, place, 2, 0)
  {
    DiamondWays();
    assert g.succs[2][0] == 3;
    forall d: Block | StrictDom(g, d, 2)
      ensures d == 0
    {
      assert d in [0, 2];
    }
    assert !Stores(f, 0, 0);
  }

  lemma DiamondGood(g: Graph, f: Func, place: set<(Block, nat)>, k: nat)
    requires g == DiamondGraph() && f == Diamond() && place == {(3, 0)} && k < 4
    ensures var good := [0, 2, 1, 3]; !StaleIn(g, f, place, Elems(good[..k]), good[k])
  {
    var good := [0, 2, 1, 3];
    var b, walked := good[k], Elems(good[..k]);
    assert g.succs[0] == [2, 1] && g.succs[1] == [3] && g.succs[3] == [];
    if k == 2 {
      assert StoresTo(f[1].body[0], 0);
      assert StoredBefore(f[1].body, 1, 0);
    } else if k < 2 {
      forall d | d in walked
        ensures d == 0
      {
        assert good[..k] == if k == 0 then [] else [0];
      }
      assert !Stores(f, 0, 0);
    }
  }
}
