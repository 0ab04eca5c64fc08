/** Loop discovery: Tarjan's algorithm on the control-flow graph, again and again
    on the graph without the bases of the loops found. */
module LoopSearch {
  import opened Cfg
  import opened Scc
  import opened Tarjan
  import opened PostOrder
  import opened LoopForest
  import opened LoopRounds
  import Arithmetic

  /** The numbers given so far; a node that has none holds -1. */
  ghost function Numbered(nodes: set<Block>, index: map<Block, int>): map<Block, nat> {
    map x | x in nodes && x in index && index[x] >= 0 :: index[x]
  }

  function Min(a: int, b: int): int { if a < b then a else b }

  /** Every node has its fields, and onStack tells what is on the stack. */
  ghost predicate FieldsOk(nodes: set<Block>, index: map<Block, int>, onStack: map<Block, bool>, stack: seq<Block>) {
    && nodes <= index.Keys && nodes <= onStack.Keys
    && (forall x {:trigger index[x]} :: x in nodes ==> index[x] >= -1)
    && (forall x {:trigger onStack[x]} :: x in nodes ==> (onStack[x] <==> x in stack))
    && (forall i {:trigger stack[i]} :: 0 <= i < |stack| ==> stack[i] in nodes)
  }

  lemma FieldsPush(nodes: set<Block>, index: map<Block, int>, onStack: map<Block, bool>, stack: seq<Block>, n: Block, count: nat)
    requires FieldsOk(nodes, index, onStack, stack) && n in nodes && index[n] == -1
    ensures FieldsOk(nodes, index[n := count], onStack[n := true], stack + [n])
    ensures Numbered(nodes, index[n := count]) == Numbered(nodes, index)[n := count] && n !in Numbered(nodes, index)
  {
  }

  lemma FieldsPop(s: Search, nodes: set<Block>, index: map<Block, int>, onStack: map<Block, bool>, j: nat)
    requires s.Ordered() && j < |s.stack| && FieldsOk(nodes, index, onStack, s.stack[..j + 1])
    ensures FieldsOk(nodes, index, onStack[s.stack[j] := false], s.stack[..j])
  {
    var tmp := s.stack[j];
    assert s.stack[..j + 1][j] == tmp;
    forall x | x in nodes
      ensures onStack[tmp := false][x] <==> x in s.stack[..j]
    {
      if x in s.stack[..j] {
        var i :| 0 <= i < j && s.stack[..j][i] == x;
        assert s.Below(i, j);
        assert s.stack[..j + 1][i] == x;
      } else if x != tmp {
        assert x !in s.stack[..j] + [tmp] && s.stack[..j + 1] == s.stack[..j] + [tmp];
      }
      assert onStack[x] <==> x in s.stack[..j + 1];
    }
    forall i | 0 <= i < j
      ensures s.stack[..j][i] in nodes
    {
      assert s.stack[..j + 1][i] in nodes;
    }
  }

  /** As the fields are before a search. */
  ghost predicate Cleared(nodes: set<Block>, index: map<Block, int>, onStack: map<Block, bool>) {
    && nodes <= index.Keys && nodes <= onStack.Keys
    && (forall x {:trigger index[x]} :: x in nodes ==> index[x] == -1)
    && (forall x {:trigger onStack[x]} :: x in nodes ==> !onStack[x])
  }

  /** The edges of the nodes stay among the nodes. */
  ghost predicate Closed(e: Edges, nodes: set<Block>) {
    && nodes <= e.Keys
    && forall x, y {:trigger Step(e, x, y)} :: x in nodes && Step(e, x, y) ==> y in nodes
  }

  ghost predicate ExactSccs(e: Edges, nodes: set<Block>, result: set<set<Block>>) {
    forall c {:trigger c in result} :: c in result <==> IsScc(e, c) && 2 <= |c| && c <= nodes
  }

  lemma SearchBegins(s: Search, nodes: set<Block>, index: map<Block, int>, onStack: map<Block, bool>)
    requires Cleared(nodes, index, onStack) && Closed(s.e, nodes)
    requires s == Search(s.e, nodes, Numbered(nodes, index), 0, [], {}, {})
    ensures s.Valid() && FieldsOk(nodes, index, onStack, [])
  {
    assert s.Done() == {};
  }

  /** Something is on the stack only while something is being visited. */
  lemma NothingGray(s: Search)
    requires s.Valid()
    ensures s.stack != [] ==> s.gray != {}
  {
    hide Reach, IsScc;
    if s.stack != [] {
      assert s.ReachesGray(s.stack[0]);
    }
  }

  lemma SearchEnds(s: Search, nodes: set<Block>)
    requires s.Valid() && s.stack == [] && s.nodes == nodes && forall x :: x in nodes ==> x in s.index
    ensures ExactSccs(s.e, nodes, s.found)
  {
    hide Reach, IsScc;
    assert s.Done() == nodes;
  }

  lemma VisitOkValid(s: Search, t: Search, n: Block, low: int)
    requires VisitOk(s, t, n, low)
    ensures t.Valid()
  {
  }

  lemma FieldsKeys(nodes: set<Block>, index: map<Block, int>, onStack: map<Block, bool>, stack: seq<Block>)
    requires FieldsOk(nodes, index, onStack, stack)
    ensures nodes <= index.Keys && nodes <= onStack.Keys
  {
  }

  ghost predicate KeepsLow(numbered: map<Block, nat>, was: map<Block, int>, now: map<Block, int>) {
    forall x {:trigger SameLow(was, now, x)} :: x in was && x in numbered ==> SameLow(was, now, x)
  }

  ghost predicate SameLow(was: map<Block, int>, now: map<Block, int>, x: Block) {
    x in was && x in now && now[x] == was[x]
  }

  lemma KeepsLowTrans(numbered: map<Block, nat>, a: map<Block, int>, b: map<Block, int>, c: map<Block, int>)
    requires KeepsLow(numbered, a, b) && KeepsLow(numbered, b, c)
    ensures KeepsLow(numbered, a, c)
  {
    forall x | x in a && x in numbered
      ensures SameLow(a, c, x)
    {
      assert SameLow(a, b, x) && SameLow(b, c, x);
    }
  }

  lemma KeepsLowEnter(numbered: map<Block, nat>, a: map<Block, int>, n: Block, low: int)
    requires n !in numbered
    ensures KeepsLow(numbered, a, a[n := low])
  {
  }

  lemma KeepsLowRefl(numbered: map<Block, nat>, a: map<Block, int>)
    ensures KeepsLow(numbered, a, a)
  {
  }

  lemma KeepsLowAt(numbered: map<Block, nat>, a: map<Block, int>, b: map<Block, int>, n: Block)
    requires KeepsLow(numbered, a, b) && n in numbered && n in a
    ensures n in b && b[n] == a[n]
  {
    assert SameLow(a, b, n);
  }

  lemma KeepsLowSmaller(few: map<Block, nat>, many: map<Block, nat>, a: map<Block, int>, b: map<Block, int>, n: Block, low: int)
    requires KeepsLow(many, a, b) && few.Keys <= many.Keys && n !in few
    ensures KeepsLow(few, a, b[n := low])
  {
    forall x | x in a && x in few
      ensures SameLow(a, b[n := low], x)
    {
      assert SameLow(a, b, x);
    }
  }

  lemma MinIs(a: int, b: int)
    ensures Min(a, b) == if a < b then a else b
  {
  }

  lemma StepIs(e: Edges, a: Block, b: Block)
    requires a in e && b in e[a]
    ensures Step(e, a, b)
  {
  }

  lemma EnterIs(s: Search, n: Block, t: Search)
    requires t == s.(index := s.index[n := s.count], count := s.count + 1, stack := s.stack + [n], gray := s.gray + {n})
    ensures t == EnterState(s, n)
  {
  }

  lemma NoTop(s: Search)
    ensures Top(s, |s.stack|) == {}
  {
  }

  lemma FieldsAt(nodes: set<Block>, index: map<Block, int>, onStack: map<Block, bool>, stack: seq<Block>, x: Block)
    requires FieldsOk(nodes, index, onStack, stack) && x in nodes
    ensures x in index && x in onStack && (onStack[x] <==> x in stack) && index[x] >= -1
    ensures x in Numbered(nodes, index) <==> index[x] != -1
    ensures x in Numbered(nodes, index) ==> Numbered(nodes, index)[x] == index[x]
  {
  }

  lemma ValidInside(s: Search)
    requires s.Valid()
    ensures s.nodes <= s.e.Keys && s.Ordered() && s.gray <= s.index.Keys <= s.nodes
  {
    hide Reach, IsScc;
  }

  lemma VisitNumbers(s: Search, u: Search, n: Block, low: int, followed: set<Block>)
    requires Visiting(s, u, n, low, followed)
    ensures s.index.Keys <= u.index.Keys && n in u.index && n !in s.index
  {
    hide Reach, IsScc;
    StackNumbered(s, u, n);
  }

  lemma VisitOkNumbers(s: Search, t: Search, n: Block, low: int)
    requires VisitOk(s, t, n, low)
    ensures s.index.Keys + {n} <= t.index.Keys
  {
    hide Reach, IsScc;
  }

  lemma LeavingGray(s: Search, u: Search, n: Block, gray: set<Block>)
    requires Leaving(u, n) && u.gray == gray + {n} && n !in s.index && s.Valid() && gray == s.gray
    ensures u.gray - {n} == gray && u.Ordered() && n in u.index
  {
    hide Reach, IsScc;
    ValidInside(s);
  }

  lemma TopStep(s: Search, j: nat)
    requires j < |s.stack|
    ensures Top(s, j) == Top(s, j + 1) + {s.stack[j]}
  {
    assert s.stack[j..] == [s.stack[j]] + s.stack[j + 1..];
  }

  lemma StackOnce(s: Search, k: nat, j: nat)
    requires s.Ordered() && k <= j < |s.stack| && s.stack[j] == s.stack[k]
    ensures j == k
  {
    assert k < j ==> s.Below(k, j);
  }

  /** b is in the set and an edge leads to it from a node outside or a reserved one. */
  ghost predicate Entry(succs: Edges, prevs: Edges, scc: set<Block>, reserved: set<Block>, b: Block) {
    b in scc && ((b in prevs && exists u :: u in prevs[b] && u !in scc) || exists u :: u in reserved && u in succs && b in succs[u])
  }

  lemma EntryIs(succs: Edges, prevs: Edges, scc: set<Block>, reserved: set<Block>, b: Block, u: Block)
    requires b in scc && ((b in prevs && u in prevs[b] && u !in scc) || (u in reserved && u in succs && b in succs[u]))
    ensures Entry(succs, prevs, scc, reserved, b)
  {
  }

  /** A component always has an entry. */
  lemma ComponentHasEntry(g: Graph, nodes0: set<Block>, succs: Edges, prevs: Edges, nodes: set<Block>, reserved: set<Block>,
                          sccs: set<set<Block>>, c: set<Block>)
    requires g.WellFormed() && Shrunk(g, succs, prevs, nodes, reserved) && nodes0 <= Blocks(g)
    requires Components(g, nodes0, sccs) && c in sccs && c <= nodes
    ensures exists b :: Entry(succs, prevs, c, reserved, b)
  {
    hide IsScc, Shrunk, Entry, Reachable, Graph.WellFormed;
    var u, v := EnteredFromOutside(g, nodes0, c);
    EntryIsSeen(g, succs, prevs, nodes, reserved, c, u, v);
    EntryIs(succs, prevs, c, reserved, v, u);
  }

  /** And an entry makes it a loop. */
  lemma EntryMakesLoop(g: Graph, nodes0: set<Block>, succs: Edges, prevs: Edges, nodes: set<Block>, reserved: set<Block>,
                       sccs: set<set<Block>>, c: set<Block>, b: Block)
    requires g.WellFormed() && Shrunk(g, succs, prevs, nodes, reserved) && nodes0 <= Blocks(g)
    requires Components(g, nodes0, sccs) && c in sccs && c <= nodes && Entry(succs, prevs, c, reserved, b)
    ensures IsLoop(g, Loop(c, b)) && b in c && b in nodes
  {
    hide IsScc, Shrunk, IsLoop, Graph.WellFormed;
    var u :| (b in prevs && u in prevs[b] && u !in c) || (u in reserved && u in succs && b in succs[u]);
    SeenIsEntry(g, succs, prevs, nodes, reserved, c, u, b);
    ComponentIsLoop(g, nodes0, c, b, u);
  }

  /** The other components keep all their nodes. */
  lemma OthersKept(g: Graph, nodes0: set<Block>, nodes: set<Block>, sccs: set<set<Block>>, rest: set<set<Block>>, c: set<Block>, base: Block)
    requires g.InRange() && Components(g, nodes0, sccs) && rest <= sccs && c in rest && base in c
    requires forall d :: d in rest ==> d <= nodes
    ensures forall d :: d in rest - {c} ==> d <= nodes - {base}
  {
    hide IsScc;
    forall d | d in rest - {c}
      ensures d <= nodes - {base}
    {
      SccsApart(g, nodes0, sccs, c, d);
    }
  }

  class LoopSearch {
    // The nodes' fields.
    var succs: Edges
    var prevs: Edges
    var index: map<Block, int>
    var lowlink: map<Block, int>
    var onStack: map<Block, bool>
    // The traversal.
    var indexCount: nat
    var stack: seq<Block>
    // The loops.
    var loopSet: set<set<Block>>
    var base2loop: map<Block, set<Block>>
    var loop2base: map<set<Block>, Block>
    var bb2base: map<Block, Block>

    constructor ()
      ensures loopSet == {} && base2loop == map[] && loop2base == map[] && bb2base == map[]
    {
      succs, prevs, index, lowlink, onStack := map[], map[], map[], map[], map[];
      indexCount, stack := 0, [];
      loopSet, base2loop, loop2base, bb2base := {}, map[], map[], map[];
    }

    ghost function Now(nodes: set<Block>, found: set<set<Block>>, gray: set<Block>): Search
      reads this`succs, this`index, this`indexCount, this`stack
    {
      Search(succs, nodes, Numbered(nodes, index), indexCount, stack, found, gray)
    }

    /** Numbers n, visits what its edges lead to, and takes its component off the
        stack when nothing below n can be reached. */
    method Traverse(n: Block, result: set<set<Block>>, ghost nodes: set<Block>, ghost gray: set<Block>)
      returns (result': set<set<Block>>)
      requires FieldsOk(nodes, index, onStack, stack) && Now(nodes, result, gray).Valid() && n in nodes && index[n] == -1
      requires forall x :: x in gray ==> Reach(succs, x, n)
      modifies this`index, this`lowlink, this`onStack, this`indexCount, this`stack
      ensures FieldsOk(nodes, index, onStack, stack) && n in lowlink
      ensures VisitOk(old(Now(nodes, result, gray)), Now(nodes, result', gray), n, lowlink[n])
      ensures KeepsLow(Numbered(nodes, old(index)), old(lowlink), lowlink)
      decreases nodes - Numbered(nodes, index).Keys, 0
    {
      hide *;
      ghost var s, low0 := Now(nodes, result, gray), lowlink;
      NowIs(nodes, result, gray);
      FieldsAt(nodes, index, onStack, stack, n);
      ValidInside(s);
      VisitBegins(s, n);
      FieldsPush(nodes, index, onStack, stack, n, indexCount);
      index := index[n := indexCount];
      indexCount := indexCount + 1;
      lowlink := lowlink[n := index[n]];
      stack := stack + [n];
      onStack := onStack[n := true];
      result' := result;
      NowIs(nodes, result', gray + {n});
      EnterIs(s, n, Now(nodes, result', gray + {n}));
      KeepsLowEnter(s.index, low0, n, lowlink[n]);
      var rest := succs[n];
      assert succs[n] - rest == {};
      while rest != {}
        invariant rest <= succs[n]
        invariant FieldsOk(nodes, index, onStack, stack) && n in lowlink && n in Numbered(nodes, index)
        invariant nodes - Numbered(nodes, index).Keys < nodes - s.index.Keys
        invariant Visiting(s, Now(nodes, result', gray + {n}), n, lowlink[n], succs[n] - rest)
        invariant KeepsLow(s.index, low0, lowlink)
      {
        var su :| su in rest;
        assert succs[n] - (rest - {su}) == succs[n] - rest + {su};
        ghost var low1 := lowlink;
        result' := Follow(n, su, result', nodes, gray + {n}, s, succs[n] - rest);
        KeepsLowTrans(s.index, low0, low1, lowlink);
        rest := rest - {su};
      }
      assert succs[n] - rest == succs[n];
      FieldsAt(nodes, index, onStack, stack, n);
      result' := Finish(n, result', nodes, gray, s);
    }

    /** One edge out of n. */
    method Follow(n: Block, su: Block, result: set<set<Block>>, ghost nodes: set<Block>, ghost gray: set<Block>,
                  ghost s: Search, ghost followed: set<Block>)
      returns (result': set<set<Block>>)
      requires FieldsOk(nodes, index, onStack, stack) && n in succs && su in succs[n] && n in lowlink && n in Numbered(nodes, index) && n !in s.index
      requires s.nodes == nodes && Visiting(s, Now(nodes, result, gray), n, lowlink[n], followed)
      requires forall x :: x in s.gray ==> Reach(succs, x, n)
      requires s.e == succs
      modifies this`index, this`lowlink, this`onStack, this`indexCount, this`stack
      ensures FieldsOk(nodes, index, onStack, stack) && n in lowlink && n in Numbered(nodes, index) && Numbered(nodes, old(index)).Keys <= Numbered(nodes, index).Keys
      ensures Visiting(s, Now(nodes, result', gray), n, lowlink[n], followed + {su})
      ensures KeepsLow(s.index, old(lowlink), lowlink)
      decreases nodes - Numbered(nodes, index).Keys, 1
    {
      hide *;
      ghost var u, low0 := Now(nodes, result, gray), lowlink;
      result' := result;
      NowIs(nodes, result, gray);
      StepIs(succs, n, su);
      VisitingReach(s, u, n, lowlink[n], followed, su);
      VisitNumbers(s, u, n, lowlink[n], followed);
      FieldsAt(nodes, index, onStack, stack, su);
      if index[su] == -1 {
        result' := Traverse(su, result', nodes, gray);
        ghost var v := Now(nodes, result', gray);
        NowIs(nodes, result', gray);
        VisitOkNumbers(u, v, su, lowlink[su]);
        KeepsLowAt(u.index, low0, lowlink, n);
        FollowNew(s, u, v, n, lowlink[n], followed, su, lowlink[su]);
        KeepsLowSmaller(s.index, u.index, low0, lowlink, n, Min(lowlink[su], lowlink[n]));
        MinIs(lowlink[su], lowlink[n]);
        lowlink := lowlink[n := Min(lowlink[su], lowlink[n])];
      } else {
        FollowOld(s, u, n, lowlink[n], followed, su);
        KeepsLowEnter(s.index, low0, n, Min(index[su], lowlink[n]));
        KeepsLowRefl(s.index, low0);
        if onStack[su] {
          MinIs(index[su], lowlink[n]);
          lowlink := lowlink[n := Min(index[su], lowlink[n])];
        }
      }
    }

    lemma NowIs(nodes: set<Block>, found: set<set<Block>>, gray: set<Block>)
      ensures var s := Now(nodes, found, gray);
        s.e == succs && s.nodes == nodes && s.index == Numbered(nodes, index) && s.count == indexCount && s.stack == stack &&
        s.found == found && s.gray == gray
    {
    }

    /** All edges of n have been followed. */
    method Finish(n: Block, result: set<set<Block>>, ghost nodes: set<Block>, ghost gray: set<Block>, ghost s: Search)
      returns (result': set<set<Block>>)
      requires FieldsOk(nodes, index, onStack, stack) && n in succs && n in lowlink && n in index && n !in s.index
      requires s.Valid() && s.gray == gray && s.nodes == nodes && n in nodes
      requires Visiting(s, Now(nodes, result, gray + {n}), n, lowlink[n], succs[n])
      modifies this`onStack, this`stack
      ensures FieldsOk(nodes, index, onStack, stack)
      ensures VisitOk(s, Now(nodes, result', gray), n, lowlink[n])
    {
      hide *;
      result' := result;
      ghost var u := Now(nodes, result', gray + {n});
      NowIs(nodes, result', gray + {n});
      VisitLeaving(s, u, n, lowlink[n]);
      LeavingGray(s, u, n, gray);
      FieldsAt(nodes, index, onStack, stack, n);
      if index[n] == lowlink[n] {
        VisitPops(s, u, n, lowlink[n]);
        result' := PopComponent(n, result', nodes, |s.stack|, gray + {n});
      } else {
        VisitStays(s, u, n, lowlink[n]);
      }
      NowIs(nodes, result', gray);
    }

    /** Takes n and everything above it off the stack; a component of one block is
        dropped. */
    method PopComponent(n: Block, result: set<set<Block>>, ghost nodes: set<Block>, ghost k: nat, ghost gray: set<Block>)
      returns (result': set<set<Block>>)
      requires FieldsOk(nodes, index, onStack, stack) && k < |stack| && stack[k] == n && Now(nodes, result, gray).Ordered()
      modifies this`onStack, this`stack
      ensures FieldsOk(nodes, index, onStack, stack)
      ensures Now(nodes, result', gray - {n}) == PopState(old(Now(nodes, result, gray)), n, k)
    {
      hide Search.Ordered, FieldsOk, Top;
      ghost var s := Now(nodes, result, gray);
      var component: set<Block> := {};
      NoTop(s);
      ghost var j := |stack|;
      assert s.stack[..j] == s.stack;
      var popped := false;
      while !popped
        invariant k <= j <= |s.stack| && stack == s.stack[..j] && (popped <==> j == k)
        invariant component == Top(s, j)
        invariant FieldsOk(nodes, index, onStack, stack)
        decreases j
      {
        var tmp := stack[|stack| - 1];
        FieldsPop(s, nodes, index, onStack, j - 1);
        TopStep(s, j - 1);
        onStack := onStack[tmp := false];
        component := component + {tmp};
        stack := stack[..|stack| - 1];
        j := j - 1;
        popped := tmp == n;
        if popped {
          StackOnce(s, k, j);
        }
      }
      result' := if |component| == 1 then result else result + {component};
    }

    /** The components of two nodes or more, each once. */
    method StronglyConnectedComponents(nodes: set<Block>) returns (any: bool, result: set<set<Block>>)
      requires Cleared(nodes, index, onStack) && Closed(succs, nodes)
      modifies this`index, this`lowlink, this`onStack, this`indexCount, this`stack
      ensures ExactSccs(succs, nodes, result) && (any <==> result != {})
      ensures nodes <= index.Keys && nodes <= onStack.Keys && stack == []
    {
      hide *;
      indexCount := 0;
      stack := [];
      result := {};
      NowIs(nodes, result, {});
      SearchBegins(Now(nodes, result, {}), nodes, index, onStack);
      ghost var gray: set<Block> := {};
      var rest := nodes;
      while rest != {}
        invariant rest <= nodes && FieldsOk(nodes, index, onStack, stack)
        invariant Now(nodes, result, {}).Valid() && stack == []
        invariant forall x :: x in nodes - rest ==> x in Numbered(nodes, index)
      {
        var n :| n in rest;
        FieldsAt(nodes, index, onStack, stack, n);
        if index[n] == -1 {
          ghost var s := Now(nodes, result, {});
          NowIs(nodes, result, {});
          result := Traverse(n, result, nodes, {});
          ghost var t := Now(nodes, result, {});
          NowIs(nodes, result, {});
          VisitOkNumbers(s, t, n, lowlink[n]);
          VisitOkValid(s, t, n, lowlink[n]);
          NothingGray(t);
        }
        rest := rest - {n};
      }
      NowIs(nodes, result, {});
      SearchEnds(Now(nodes, result, {}), nodes);
      any := result != {};
      FieldsKeys(nodes, index, onStack, stack);
    }

    // -------------------------------------------------------------- nesting

    /** One node for every block. */
    method BuildCfg(g: Graph) returns (nodes: set<Block>)
      requires g.WellFormed()
      modifies this`succs, this`prevs, this`index, this`lowlink, this`onStack
      ensures nodes == Blocks(g) && Shrunk(g, succs, prevs, nodes, {}) && Cleared(nodes, index, onStack)
    {
      hide Shrunk, Graph.Mirrored, Reachable;
      nodes := Blocks(g);
      index := map b | b in nodes :: -1;
      lowlink := map b | b in nodes :: -1;
      onStack := map b | b in nodes :: false;
      succs := map b | b in nodes :: Elems(g.succs[b]);
      prevs := map b | b in nodes :: Elems(g.preds[b]);
      assert succs == SuccEdges(g) && prevs == PredEdges(g);
      BegunShrunk(g, succs, prevs);
    }

    /** The node of a loop that is entered from outside: from a node that is left,
        or else from one taken out before. */
    method FindLoopBase(scc: set<Block>, reserved: set<Block>) returns (base: Arithmetic.Option<Block>)
      requires scc <= prevs.Keys && reserved <= succs.Keys
      ensures base.Some? ==> Entry(succs, prevs, scc, reserved, base.value)
      ensures base.None? ==> forall b :: !Entry(succs, prevs, scc, reserved, b)
    {
      base := Arithmetic.None;
      var rest := scc;
      while rest != {}
        invariant rest <= scc
        invariant base.Some? ==> Entry(succs, prevs, scc, reserved, base.value)
        invariant base.None? ==> forall n :: n in scc - rest ==> prevs[n] <= scc
      {
        var n :| n in rest;
        var from := prevs[n];
        while from != {}
          invariant from <= prevs[n]
          invariant base.Some? ==> Entry(succs, prevs, scc, reserved, base.value)
          invariant base.None? ==> prevs[n] - from <= scc && forall m :: m in scc - rest ==> prevs[m] <= scc
        {
          var prev :| prev in from;
          if prev !in scc {
            base := Arithmetic.Some(n);
            EntryIs(succs, prevs, scc, reserved, n, prev);
          }
          from := from - {prev};
        }
        rest := rest - {n};
      }
      if base.Some? {
        return;
      }
      rest := reserved;
      while rest != {}
        invariant rest <= reserved
        invariant base.Some? ==> Entry(succs, prevs, scc, reserved, base.value)
        invariant base.None? ==> forall r :: r in reserved - rest ==> succs[r] !! scc
      {
        var res :| res in rest;
        var to := succs[res];
        while to != {}
          invariant to <= succs[res]
          invariant base.Some? ==> Entry(succs, prevs, scc, reserved, base.value)
          invariant base.None? ==> (succs[res] - to) !! scc && forall r :: r in reserved - rest ==> succs[r] !! scc
        {
          var succ :| succ in to;
          if succ in scc {
            base := Arithmetic.Some(succ);
            EntryIs(succs, prevs, scc, reserved, succ, res);
          }
          to := to - {succ};
        }
        rest := rest - {res};
      }
    }

    /** Enters a loop in the tables. */
    method Store(body: set<Block>, base: Block, ghost loops: seq<Loop>)
      requires TablesOf(loops, loopSet, base2loop, loop2base, bb2base)
      requires forall i {:trigger loops[i]} :: 0 <= i < |loops| ==> loops[i].base != base && loops[i].body != body
      modifies this`loopSet, this`base2loop, this`loop2base, this`bb2base
      ensures TablesOf(loops + [Loop(body, base)], loopSet, base2loop, loop2base, bb2base)
    {
      hide TablesOf, AllTo;
      ghost var l := Loop(body, base);
      TablesStep(loops, loopSet, base2loop, loop2base, bb2base, l);
      loopSet := loopSet + {body};
      if base !in base2loop {
        base2loop := base2loop[base := body];
      }
      loop2base := loop2base[body := base];
      ghost var loopSet', base2loop', loop2base' := loopSet, base2loop, loop2base;
      var rest := body;
      AllToNone(bb2base, body, base);
      while rest != {}
        invariant rest <= body && loopSet == loopSet' && base2loop == base2loop' && loop2base == loop2base'
        invariant bb2base == old(bb2base) + AllTo(body - rest, base)
      {
        var bb :| bb in rest;
        AllToMore(old(bb2base), body, rest, bb, base);
        bb2base := bb2base[bb := base];
        rest := rest - {bb};
      }
      assert body - rest == l.body;
    }

    /** Takes a base out of the graph; its own lists stay. */
    method Erase(base: Block)
      requires base in succs && base in prevs
      modifies this`succs, this`prevs
      ensures prevs == LoopRounds.Erase(old(prevs), old(succs)[base], base)
      ensures succs == LoopRounds.Erase(old(succs), prevs[base], base)
    {
      var to := succs[base];
      var rest := to;
      while rest != {}
        invariant rest <= to && succs == old(succs) && base in prevs
        invariant prevs == LoopRounds.Erase(old(prevs), to - rest, base)
      {
        var su :| su in rest;
        if su in prevs {
          prevs := prevs[su := prevs[su] - {base}];
        }
        rest := rest - {su};
      }
      assert to - rest == to;
      var from := prevs[base];
      ghost var prevs' := prevs;
      rest := from;
      assert succs == LoopRounds.Erase(old(succs), from - rest, base);
      while rest != {}
        invariant rest <= from && prevs == prevs'
        invariant succs == LoopRounds.Erase(old(succs), from - rest, base)
      {
        var prev :| prev in rest;
        if prev in succs {
          succs := succs[prev := succs[prev] - {base}];
        }
        rest := rest - {prev};
      }
      assert from - rest == from;
    }

    /** One round: every component becomes a loop and loses its base. */
    method Round(g: Graph, sccs: set<set<Block>>, nodes0: set<Block>, reserved0: set<Block>, ghost loops0: seq<Loop>)
      returns (nodes: set<Block>, reserved: set<Block>, ghost loops: seq<Loop>)
      requires g.WellFormed() && Shrunk(g, succs, prevs, nodes0, reserved0) && nodes0 <= Blocks(g)
      requires Components(g, nodes0, sccs) && Found(g, nodes0, loops0) && sccs != {}
      requires TablesOf(loops0, loopSet, base2loop, loop2base, bb2base)
      modifies this`succs, this`prevs, this`loopSet, this`base2loop, this`loop2base, this`bb2base
      ensures Shrunk(g, succs, prevs, nodes, reserved) && Found(g, nodes, loops) && nodes < nodes0
      ensures TablesOf(loops, loopSet, base2loop, loop2base, bb2base)
    {
      hide *;
      nodes, reserved, loops := nodes0, reserved0, loops0;
      WellFormedInRange(g);
      WorkingBegins(g, nodes0, loops0);
      ComponentsInNodes(g, nodes0, sccs);
      var rest := sccs;
      assert sccs - rest == {};
      while rest != {}
        invariant rest <= sccs && Shrunk(g, succs, prevs, nodes, reserved)
        invariant Working(g, nodes0, loops0, sccs - rest, nodes, loops)
        invariant forall d :: d in rest ==> d <= nodes
        invariant TablesOf(loops, loopSet, base2loop, loop2base, bb2base)
        invariant rest != sccs ==> nodes < nodes0
        invariant nodes <= nodes0
      {
        var scc :| scc in rest;
        ShrunkKeys(g, succs, prevs, nodes, reserved);
        var base := FindLoopBase(scc, reserved);
        ComponentHasEntry(g, nodes0, succs, prevs, nodes, reserved, sccs, scc);
        EntryMakesLoop(g, nodes0, succs, prevs, nodes, reserved, sccs, scc, base.value);
        WorkingStep(g, nodes0, loops0, sccs, sccs - rest, nodes, loops, scc, base.value);
        assert sccs - rest + {scc} == sccs - (rest - {scc});
        OthersKept(g, nodes0, nodes, sccs, rest, scc, base.value);
        Store(scc, base.value, loops);
        loops := loops + [Loop(scc, base.value)];
        reserved := reserved + {base.value};
        RemoveKeeps(g, succs, prevs, nodes, reserved - {base.value}, base.value);
        nodes := nodes - {base.value};
        Erase(base.value);
        rest := rest - {scc};
      }
      assert sccs - rest == sccs;
      WorkingEnds(g, nodes0, loops0, sccs, nodes, loops);
    }

    /** Back to unnumbered. */
    method Clear(nodes: set<Block>)
      requires nodes <= index.Keys && nodes <= onStack.Keys
      modifies this`index, this`lowlink, this`onStack
      ensures Cleared(nodes, index, onStack)
    {
      var rest := nodes;
      while rest != {}
        invariant rest <= nodes <= index.Keys && nodes <= onStack.Keys
        invariant forall x :: x in nodes - rest ==> index[x] == -1 && !onStack[x]
      {
        var n :| n in rest;
        index := index[n := -1];
        lowlink := lowlink[n := -1];
        onStack := onStack[n := false];
        rest := rest - {n};
      }
    }

    /** Finds loops from the outermost inwards, until no cycle is left. */
    method Run(g: Graph) returns (ghost loops: seq<Loop>)
      requires g.WellFormed()
      requires loopSet == {} && base2loop == map[] && loop2base == map[] && bb2base == map[]
      modifies this
      ensures Forest(loops) && AllLoops(g, loops)
      ensures forall w {:trigger IsCycle(SuccEdges(g), w)} :: IsCycle(SuccEdges(g), w) ==> Covered(loops, w)
      ensures TablesOf(loops, loopSet, base2loop, loop2base, bb2base) && Innermost(loops, bb2base)
    {
      hide *;
      loops := [];
      WellFormedInRange(g);
      NoTables();
      FoundNothing(g);
      var nodes := BuildCfg(g);
      var reserved: set<Block> := {};
      ClosedIs(g, succs, prevs, nodes, reserved);
      var any, sccs := StronglyConnectedComponents(nodes);
      SccsAre(g, succs, prevs, nodes, reserved, sccs);
      while any
        invariant Shrunk(g, succs, prevs, nodes, reserved) && nodes <= Blocks(g)
        invariant Components(g, nodes, sccs) && Found(g, nodes, loops) && (any <==> sccs != {})
        invariant TablesOf(loops, loopSet, base2loop, loop2base, bb2base)
        invariant nodes <= index.Keys && nodes <= onStack.Keys
        decreases nodes
      {
        nodes, reserved, loops := Round(g, sccs, nodes, reserved, loops);
        Clear(nodes);
        ClosedIs(g, succs, prevs, nodes, reserved);
        any, sccs := StronglyConnectedComponents(nodes);
        SccsAre(g, succs, prevs, nodes, reserved, sccs);
      }
      FoundIs(g, nodes, loops);
      TablesInnermost(loops, loopSet, base2loop, loop2base, bb2base);
      forall w | IsCycle(SuccEdges(g), w)
        ensures Covered(loops, w)
      {
        NoCycleLeft(g, nodes, loops, w);
      }
    }
  }

  lemma WellFormedInRange(g: Graph)
    requires g.WellFormed()
    ensures g.InRange()
  {
  }

  lemma ComponentsInNodes(g: Graph, nodes: set<Block>, sccs: set<set<Block>>)
    requires g.InRange() && Components(g, nodes, sccs)
    ensures forall c :: c in sccs ==> c <= nodes
  {
    hide IsScc;
  }

  lemma ShrunkKeys(g: Graph, succs: Edges, prevs: Edges, nodes: set<Block>, reserved: set<Block>)
    requires g.InRange() && Shrunk(g, succs, prevs, nodes, reserved)
    ensures nodes <= prevs.Keys && reserved <= succs.Keys && nodes !! reserved
  {
  }

  lemma ClosedIs(g: Graph, succs: Edges, prevs: Edges, nodes: set<Block>, reserved: set<Block>)
    requires g.InRange() && Shrunk(g, succs, prevs, nodes, reserved)
    ensures Closed(succs, nodes)
  {
    ShrunkIsAmong(g, succs, prevs, nodes, reserved);
  }

  lemma SccsAre(g: Graph, succs: Edges, prevs: Edges, nodes: set<Block>, reserved: set<Block>, sccs: set<set<Block>>)
    requires g.InRange() && Shrunk(g, succs, prevs, nodes, reserved) && ExactSccs(succs, nodes, sccs)
    ensures Components(g, nodes, sccs)
  {
    hide Shrunk, IsScc, Components;
    ComponentsOfShrunk(g, succs, prevs, nodes, reserved, sccs);
  }

  lemma FoundIs(g: Graph, nodes: set<Block>, loops: seq<Loop>)
    requires g.InRange() && Found(g, nodes, loops)
    ensures Forest(loops) && AllLoops(g, loops) && CyclesKept(g, nodes, loops)
  {
    hide Forest, AllLoops, CyclesKept, Split;
  }
}
