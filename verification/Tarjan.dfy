/** The three moves of Tarjan's traversal, and why each keeps its invariant. */
module Tarjan {
  import opened Cfg
  import opened Scc

  ghost function EnterState(s: Search, n: Block): Search {
    s.(index := s.index[n := s.count], count := s.count + 1, stack := s.stack + [n], gray := s.gray + {n})
  }

  /** A block is numbered, pushed, and becomes one being visited. */
  lemma EnterKeeps(s: Search, n: Block)
    requires s.Valid() && n in s.nodes && n !in s.index && forall x :: x in s.gray ==> Reach(s.e, x, n)
    ensures EnterState(s, n).Valid() && EnterState(s, n).Done() == s.Done()
  {
    hide Reach, IsScc;
    var t := EnterState(s, n);
    assert t.Done() == s.Done();
    assert t.Ordered() by {
      forall i, j | 0 <= i < j < |t.stack|
        ensures t.Below(i, j)
      {
        if j < |s.stack| {
          assert s.Below(i, j);
        }
      }
      forall x, y | x in t.index && y in t.index && t.SameIndex(x, y)
        ensures x == y
      {
        if x in s.index && y in s.index {
          assert s.SameIndex(x, y);
        }
      }
    }
    assert t.Linked() by {
      forall x, y | x in t.gray && x in t.index && y in t.stack && y in t.index
        ensures t.GrayReach(x, y)
      {
        if y == n {
          ReachRefl(s.e, n);
        } else if x != n {
          assert s.GrayReach(x, y);
        }
      }
      forall y | y in t.stack
        ensures t.ReachesGray(y)
      {
        if y == n {
          ReachRefl(s.e, n);
        } else {
          assert s.ReachesGray(y);
        }
      }
    }
  }

  /** n is the block visited last, and all its edges have been followed. */
  ghost predicate Leaving(s: Search, n: Block) {
    && s.Valid() && n in s.gray && n in s.index
    && (forall x :: x in s.gray && x in s.index ==> s.index[x] <= s.index[n])
    && (forall y :: Step(s.e, n, y) ==> y in s.index)
  }

  /** n leads to something lower on the stack: it stays there. */
  lemma LeaveKeeps(s: Search, n: Block, y: Block)
    requires Leaving(s, n) && y in s.stack && y in s.index && s.index[y] < s.index[n] && Reach(s.e, n, y)
    ensures s.(gray := s.gray - {n}).Valid()
  {
    hide IsScc, Reach, Search.Ordered, Search.Linked;
    LeaveOrdered(s, n);
    LeaveLinked(s, n, y);
    assert s.(gray := s.gray - {n}).Done() == s.Done();
  }

  lemma LeaveOrdered(s: Search, n: Block)
    requires Leaving(s, n)
    ensures s.(gray := s.gray - {n}).Ordered()
  {
    hide IsScc, Reach, Search.Linked;
    var t := s.(gray := s.gray - {n});
    forall i, j | 0 <= i < j < |t.stack|
      ensures t.Below(i, j)
    {
      assert s.Below(i, j);
    }
    forall a, b | a in t.index && b in t.index && t.SameIndex(a, b)
      ensures a == b
    {
      assert s.SameIndex(a, b);
    }
  }

  lemma LeaveLinked(s: Search, n: Block, y: Block)
    requires Leaving(s, n) && y in s.stack && y in s.index && s.index[y] < s.index[n] && Reach(s.e, n, y)
    ensures s.(gray := s.gray - {n}).Linked()
  {
    hide IsScc, Reach, Search.Ordered;
    var t := s.(gray := s.gray - {n});
    assert s.ReachesGray(y);
    var x :| x in s.gray && x in s.index && s.index[x] <= s.index[y] && Reach(s.e, y, x);
    ReachTrans(s.e, n, y, x);
    forall z | z in t.stack
      ensures t.ReachesGray(z)
    {
      assert s.ReachesGray(z);
      var w :| w in s.gray && w in s.index && s.index[w] <= s.index[z] && Reach(s.e, z, w);
      if w == n {
        ReachTrans(s.e, z, n, x);
      }
    }
    forall a, b | a in t.gray && a in t.index && b in t.stack && b in t.index
      ensures t.GrayReach(a, b)
    {
      assert s.GrayReach(a, b);
    }
  }

  /** The part of the stack from position k on. */
  ghost function Top(s: Search, k: nat): set<Block>
    requires k <= |s.stack|
  {
    set x | x in s.stack[k..]
  }

  ghost predicate NoEdgeDown(s: Search, k: nat)
    requires k <= |s.stack|
  {
    forall x, y {:trigger Step(s.e, x, y)} :: x in Top(s, k) && Step(s.e, x, y) ==> y !in s.stack[..k]
  }

  lemma StackParts(s: Search, k: nat)
    requires s.Ordered() && k < |s.stack| && s.stack[k] in s.index
    ensures forall x {:trigger x in s.stack[..k]} :: x in s.stack[..k] ==> x in s.index && s.index[x] < s.index[s.stack[k]] && x in s.stack
    ensures forall x {:trigger x in Top(s, k)} :: x in Top(s, k) ==> x in s.index && s.index[x] >= s.index[s.stack[k]] && x in s.stack
    ensures forall x {:trigger x in s.stack} :: x in s.stack ==> x in s.stack[..k] || x in Top(s, k)
    ensures forall x {:trigger x in Top(s, k)} :: x in Top(s, k) ==> x !in s.stack[..k]
  {
    forall x | x in s.stack[..k]
      ensures x in s.index && s.index[x] < s.index[s.stack[k]] && x in s.stack
    {
      var i :| 0 <= i < k && s.stack[..k][i] == x;
      assert s.Below(i, k);
    }
    forall x | x in Top(s, k)
      ensures x in s.index && s.index[x] >= s.index[s.stack[k]] && x in s.stack
    {
      var i :| 0 <= i < |s.stack| - k && s.stack[k..][i] == x;
      assert s.stack[k + i] == x;
      if i > 0 {
        assert s.Below(k, k + i);
      }
    }
    forall x | x in s.stack
      ensures x in s.stack[..k] || x in Top(s, k)
    {
      var i :| 0 <= i < |s.stack| && s.stack[i] == x;
      if i < k {
        assert s.stack[..k][i] == x;
      } else {
        assert s.stack[k..][i - k] == x;
      }
    }
  }

  /** Of the upper part of the stack only n is being visited. */
  lemma OnlyGray(s: Search, n: Block, k: nat)
    requires Leaving(s, n) && k < |s.stack| && s.stack[k] == n
    ensures forall x {:trigger x in s.gray} :: x in s.gray && x in Top(s, k) ==> x == n
    ensures forall x {:trigger x in s.gray} :: x in s.gray && x != n ==> x in s.stack[..k]
  {
    hide Reach, IsScc;
    StackParts(s, k);
    forall x | x in s.gray
      ensures x in Top(s, k) ==> x == n
      ensures x != n ==> x in s.stack[..k]
    {
      assert x in s.stack;
      if x in Top(s, k) {
        assert s.SameIndex(x, n);
      }
    }
  }

  /** Without an edge down from n and what is above it on the stack, that part of
      the stack is a component. */
  lemma TopIsScc(s: Search, n: Block, k: nat)
    requires Leaving(s, n) && k < |s.stack| && s.stack[k] == n && NoEdgeDown(s, k)
    ensures IsScc(s.e, Top(s, k))
    ensures forall x, y {:trigger Step(s.e, x, y)} :: x in Top(s, k) && Step(s.e, x, y) ==> y in Top(s, k) + s.Done()
  {
    hide Reach;
    StackParts(s, k);
    var c := Top(s, k);
    assert n in c by { assert s.stack[k..][0] == n; }
    OnlyGray(s, n, k);
    forall x, y | x in c && Step(s.e, x, y)
      ensures y in c + s.Done()
    {
      assert y in s.index;
    }
    forall x, y | x in c + s.Done() && Step(s.e, x, y)
      ensures y in c + s.Done()
    {
    }
    forall x | x in c
      ensures Connected(s.e, n, x) && Connected(s.e, x, n)
    {
      assert s.GrayReach(n, x);
      assert s.ReachesGray(x);
      var g :| g in s.gray && g in s.index && s.index[g] <= s.index[x] && Reach(s.e, x, g);
      ClosedReach(s.e, c + s.Done(), x, g);
      assert g in s.stack;
    }
    forall a, b | a in c && b in c
      ensures Connected(s.e, a, b)
    {
      ReachTrans(s.e, a, n, b);
      ReachTrans(s.e, b, n, a);
    }
    forall a, b | a in c && Connected(s.e, a, b)
      ensures b in c
    {
      ClosedReach(s.e, c + s.Done(), a, b);
      if b in s.Done() {
        ClosedReach(s.e, s.Done(), b, a);
      }
    }
  }

  ghost function PopState(s: Search, n: Block, k: nat): Search
    requires k <= |s.stack|
  {
    var c := Top(s, k);
    s.(stack := s.stack[..k], gray := s.gray - {n}, found := if |c| == 1 then s.found else s.found + {c})
  }

  lemma PopKeeps(s: Search, n: Block, k: nat)
    requires Leaving(s, n) && k < |s.stack| && s.stack[k] == n && NoEdgeDown(s, k)
    ensures PopState(s, n, k).Valid() && PopState(s, n, k).Done() == s.Done() + Top(s, k)
  {
    hide Reach;
    var c, t := Top(s, k), PopState(s, n, k);
    StackParts(s, k);
    TopIsScc(s, n, k);
    PopDone(s, n, k);
    PopOrdered(s, n, k);
    PopLinked(s, n, k);
    PopEmitted(s, n, k);
  }

  lemma PopDone(s: Search, n: Block, k: nat)
    requires Leaving(s, n) && k < |s.stack| && s.stack[k] == n
    ensures PopState(s, n, k).Done() == s.Done() + Top(s, k)
  {
    hide Reach, IsScc;
    StackParts(s, k);
  }

  lemma PopOrdered(s: Search, n: Block, k: nat)
    requires Leaving(s, n) && k < |s.stack| && s.stack[k] == n
    ensures PopState(s, n, k).Ordered()
  {
    hide Reach, IsScc;
    var t := PopState(s, n, k);
    StackParts(s, k);
    forall i, j | 0 <= i < j < |t.stack|
      ensures t.Below(i, j)
    {
      assert s.Below(i, j);
    }
    forall a, b | a in t.index && b in t.index && t.SameIndex(a, b)
      ensures a == b
    {
      assert s.SameIndex(a, b);
    }
    OnlyGray(s, n, k);
  }

  lemma PopLinked(s: Search, n: Block, k: nat)
    requires Leaving(s, n) && k < |s.stack| && s.stack[k] == n
    ensures PopState(s, n, k).Linked()
  {
    hide Reach, IsScc;
    var t := PopState(s, n, k);
    StackParts(s, k);
    forall z | z in t.stack
      ensures t.ReachesGray(z)
    {
      assert s.ReachesGray(z);
    }
    forall a, b | a in t.gray && a in t.index && b in t.stack && b in t.index
      ensures t.GrayReach(a, b)
    {
      assert s.GrayReach(a, b);
    }
  }

  lemma PopEmitted(s: Search, n: Block, k: nat)
    requires Leaving(s, n) && k < |s.stack| && s.stack[k] == n && IsScc(s.e, Top(s, k))
    requires PopState(s, n, k).Done() == s.Done() + Top(s, k)
    ensures PopState(s, n, k).Emitted()
  {
    hide Reach;
    var c, t := Top(s, k), PopState(s, n, k);
    StackParts(s, k);
    assert n in c by { assert s.stack[k..][0] == n; }
    NonEmptyCard(c, n);
    forall d
      ensures d in t.found <==> IsScc(s.e, d) && 2 <= |d| && d <= t.Done()
    {
      if IsScc(s.e, d) && d <= t.Done() && !(d <= s.Done()) {
        var x :| x in d && x !in s.Done();
        SccsDisjoint(s.e, d, c, x);
      }
      assert d in s.found <==> IsScc(s.e, d) && 2 <= |d| && d <= s.Done();
    }
  }

  lemma NonEmptyCard(c: set<Block>, n: Block)
    requires n in c
    ensures |c| >= 1
  {
    assert c == (c - {n}) + {n};
  }

  // ---------------------------------------------------------------- what a visit returns

  /** t continues s: more blocks are numbered, and the stack has grown. */
  ghost predicate Grew(s: Search, t: Search) {
    && t.e == s.e && t.nodes == s.nodes && t.gray == s.gray && s.count <= t.count
    && s.stack <= t.stack
    && forall x {:trigger x in s.index} :: x in s.index ==> x in t.index && t.index[x] == s.index[x]
  }

  /** low bounds the edges from the upper part of the stack to the lower. */
  ghost predicate EdgesLow(t: Search, from: nat, k: nat, low: int)
    requires from <= |t.stack| && k <= |t.stack|
  {
    forall x, y {:trigger Step(t.e, x, y)} ::
      x in Top(t, from) && Step(t.e, x, y) && y in t.stack[..k] && y in t.index ==> low <= t.index[y]
  }

  /** low is the number of a block on the stack s that n reaches. */
  ghost predicate LowWitness(s: Search, t: Search, n: Block, low: int) {
    exists y :: y in s.stack && y in t.index && t.index[y] == low && Reach(t.e, n, y)
  }

  /** The outcome of a visit of n begun in s: either its component has been taken
      off the stack, or low names a lower block that n reaches. */
  ghost predicate VisitOk(s: Search, t: Search, n: Block, low: int) {
    && t.Valid() && Grew(s, t) && n in t.index && low <= t.index[n]
    && (if |t.stack| > |s.stack| then LowWitness(s, t, n, low) else s.count <= low)
    && |s.stack| <= |t.stack| && EdgesLow(t, |s.stack|, |s.stack|, low)
  }

  /** In the middle of the visit of n, some of whose edges have been followed. */
  ghost predicate Visiting(s: Search, u: Search, n: Block, low: int, followed: set<Block>) {
    && u.Valid() && n in s.nodes && n !in s.index && s.Valid()
    && Grew(EnterState(s, n), u)
    && low <= u.index[n] && LowWitness(u, u, n, low)
    && |s.stack| < |u.stack| && EdgesLow(u, |s.stack| + 1, |s.stack|, low)
    && (forall y {:trigger y in followed} :: y in followed ==> y in u.index && (y in s.stack ==> low <= u.index[y]))
  }

  lemma VisitBegins(s: Search, n: Block)
    requires s.Valid() && n in s.nodes && n !in s.index && forall x :: x in s.gray ==> Reach(s.e, x, n)
    ensures Visiting(s, EnterState(s, n), n, s.count, {})
  {
    hide Reach, IsScc;
    EnterKeeps(s, n);
    ReachRefl(s.e, n);
    var u := EnterState(s, n);
    assert u.stack[|s.stack|] == n;
    assert n in u.stack && u.index[n] == s.count;
  }

  lemma VisitingReach(s: Search, u: Search, n: Block, low: int, followed: set<Block>, su: Block)
    requires Visiting(s, u, n, low, followed) && Step(u.e, n, su) && forall x :: x in s.gray ==> Reach(s.e, x, n)
    ensures u.Valid() && su in u.nodes && n in u.index && (forall x :: x in u.gray ==> Reach(u.e, x, su))
  {
    hide Reach, IsScc;
    ReachStep(u.e, n, su);
    forall x | x in u.gray
      ensures Reach(u.e, x, su)
    {
      if x != n {
        ReachTrans(u.e, x, n, su);
      }
    }
  }

  /** A successor that had no number has been visited. */
  lemma FollowNew(s: Search, u: Search, v: Search, n: Block, low: int, followed: set<Block>, su: Block, lowSu: int)
    requires Visiting(s, u, n, low, followed) && Step(u.e, n, su) && su !in u.index && VisitOk(u, v, su, lowSu)
    ensures Visiting(s, v, n, if lowSu < low then lowSu else low, followed + {su})
  {
    hide Reach, IsScc;
    FollowNewWitness(s, u, v, n, low, followed, su, lowSu);
    FollowNewEdges(s, u, v, n, low, followed, su, lowSu);
    StackNumbered(s, u, n);
  }

  lemma StackNumbered(s: Search, u: Search, n: Block)
    requires s.Valid() && Grew(EnterState(s, n), u) && n !in s.index
    ensures forall x {:trigger x in s.stack} :: x in s.stack ==> x in u.index && x in s.index && u.index[x] == s.index[x]
    ensures forall x {:trigger x in s.index} :: x in s.index ==> x in u.index && u.index[x] == s.index[x] < s.count
    ensures n in u.index && u.index[n] == s.count
  {
    hide Reach, IsScc;
    assert n in EnterState(s, n).index;
    forall x | x in s.index
      ensures x in u.index && u.index[x] == s.index[x]
    {
      assert x in EnterState(s, n).index;
    }
    forall x | x in s.stack
      ensures x in s.index
    {
      var i :| 0 <= i < |s.stack| && s.stack[i] == x;
    }
  }

  lemma FollowNewWitness(s: Search, u: Search, v: Search, n: Block, low: int, followed: set<Block>, su: Block, lowSu: int)
    requires Visiting(s, u, n, low, followed) && Step(u.e, n, su) && su !in u.index && VisitOk(u, v, su, lowSu)
    ensures LowWitness(v, v, n, if lowSu < low then lowSu else low)
  {
    hide Reach, IsScc, EdgesLow, Search.Valid;
    StackNumbered(s, u, n);
    ValidOrdered(u);
    if lowSu < low {
      var y :| y in u.stack && y in v.index && v.index[y] == lowSu && Reach(v.e, su, y);
      ReachStep(u.e, n, su);
      ReachTrans(u.e, n, su, y);
      assert y in v.stack;
    } else {
      var y :| y in u.stack && y in u.index && u.index[y] == low && Reach(u.e, n, y);
      assert y in v.stack;
    }
  }

  lemma FollowNewEdges(s: Search, u: Search, v: Search, n: Block, low: int, followed: set<Block>, su: Block, lowSu: int)
    requires Visiting(s, u, n, low, followed) && su !in u.index && VisitOk(u, v, su, lowSu)
    ensures |s.stack| < |v.stack| && EdgesLow(v, |s.stack| + 1, |s.stack|, if lowSu < low then lowSu else low)
  {
    hide Reach, IsScc, LowWitness, Search.Valid;
    var k := |s.stack|;
    forall x, y | x in Top(v, k + 1) && Step(v.e, x, y) && y in v.stack[..k] && y in v.index
      ensures (if lowSu < low then lowSu else low) <= v.index[y]
    {
      assert v.stack[..k] == u.stack[..k] == s.stack;
      var i :| 0 <= i < |v.stack| - (k + 1) && v.stack[k + 1..][i] == x;
      var j :| 0 <= j < k && v.stack[..k][j] == y;
      assert s.Ordered() by { ValidOrdered(s); }
      assert y in s.index && y in EnterState(s, n).index;
      if k + 1 + i < |u.stack| {
        assert u.stack[k + 1..][i] == x;
        assert x in Top(u, k + 1);
      } else {
        assert v.stack[|u.stack|..][k + 1 + i - |u.stack|] == x;
        assert x in Top(v, |u.stack|);
        assert v.stack[..|u.stack|][j] == y;
      }
    }
  }

  lemma ValidOrdered(s: Search)
    requires s.Valid()
    ensures s.Ordered()
  {
  }

  /** A successor that has a number: it counts if it is on the stack. */
  lemma FollowOld(s: Search, u: Search, n: Block, low: int, followed: set<Block>, su: Block)
    requires Visiting(s, u, n, low, followed) && Step(u.e, n, su) && su in u.index
    ensures Visiting(s, u, n, if su in u.stack && u.index[su] < low then u.index[su] else low, followed + {su})
  {
    hide Reach, IsScc, Search.Valid;
    ReachStep(u.e, n, su);
    if su in s.stack {
      var i :| 0 <= i < |s.stack| && s.stack[i] == su;
      assert u.stack[i] == su;
    }
  }

  /** All edges of n have been followed. */
  lemma VisitLeaving(s: Search, u: Search, n: Block, low: int)
    requires n in u.e && Visiting(s, u, n, low, u.e[n])
    ensures Leaving(u, n) && |s.stack| < |u.stack| && u.stack[|s.stack|] == n
    ensures u.stack[..|s.stack|] == s.stack
  {
    hide Reach, IsScc;
    assert EnterState(s, n).stack[|s.stack|] == n;
    StackNumbered(s, u, n);
    ValidOrdered(s);
  }

  lemma VisitPops(s: Search, u: Search, n: Block, low: int)
    requires n in u.e && Visiting(s, u, n, low, u.e[n]) && low == u.index[n]
    ensures |s.stack| < |u.stack| && VisitOk(s, PopState(u, n, |s.stack|), n, low)
    ensures PopState(u, n, |s.stack|).stack == s.stack
  {
    hide Reach, IsScc;
    VisitLeaving(s, u, n, low);
    var k := |s.stack|;
    StackParts(u, k);
    forall x, y | x in Top(u, k) && Step(u.e, x, y)
      ensures y !in u.stack[..k]
    {
      TopSplit(u, k, x);
    }
    PopKeeps(u, n, k);
    var t := PopState(u, n, k);
    assert Top(t, k) == {};
    GrewPop(s, u, n, k);
    StackNumbered(s, u, n);
    ValidOrdered(s);
  }

  lemma TopSplit(u: Search, k: nat, x: Block)
    requires k < |u.stack| && x in Top(u, k)
    ensures x == u.stack[k] || x in Top(u, k + 1)
  {
    var i :| 0 <= i < |u.stack| - k && u.stack[k..][i] == x;
    if i > 0 {
      assert u.stack[k + 1..][i - 1] == x;
    }
  }

  lemma GrewPop(s: Search, u: Search, n: Block, k: nat)
    requires Grew(EnterState(s, n), u) && k == |s.stack| < |u.stack| && u.stack[..k] == s.stack
    requires n !in s.index && s.gray <= s.index.Keys
    ensures Grew(s, PopState(u, n, k)) && Grew(s, u.(gray := u.gray - {n}))
  {
    forall x | x in s.index
      ensures x in u.index && u.index[x] == s.index[x]
    {
      assert x in EnterState(s, n).index;
    }
  }

  lemma VisitStays(s: Search, u: Search, n: Block, low: int)
    requires n in u.e && Visiting(s, u, n, low, u.e[n]) && low != u.index[n]
    ensures VisitOk(s, u.(gray := u.gray - {n}), n, low)
  {
    hide Reach, IsScc;
    VisitLeaving(s, u, n, low);
    var k := |s.stack|;
    StackParts(u, k);
    var y :| y in u.stack && y in u.index && u.index[y] == low && Reach(u.e, n, y);
    LeaveKeeps(u, n, y);
    GrewPop(s, u, n, k);
    var t := u.(gray := u.gray - {n});
    assert y in s.stack;
    forall x, z | x in Top(t, k) && Step(t.e, x, z) && z in t.stack[..k] && z in t.index
      ensures low <= t.index[z]
    {
      TopSplit(u, k, x);
      assert Top(t, k + 1) == Top(u, k + 1) && Top(t, k) == Top(u, k);
    }
  }
}
