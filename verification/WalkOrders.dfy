/** The orders a walk over the dominator tree can take. */
module WalkOrders {
  import opened Cfg
  import opened PostOrder
  import opened Arithmetic
  import opened Ir
  import opened Ssa
  import opened SsaValues
  import opened Coverage

  /** All blocks, in an order of the walk. */
  ghost predicate FullWalk(c: Promotion, order: seq<Block>) {
    WalkOrder(c.g, c.idom, order) && Elems(order) == Blocks(c.g)
  }

  /** k is a child of z that has not been walked. */
  ghost predicate OpenChild(c: Promotion, walked: set<Block>, z: Block, k: Block) {
    k < |c.f| && k != ENTRY && k in c.idom && c.idom[k] == z && k !in walked
  }

  ghost predicate Open(c: Promotion, walked: set<Block>, z: Block) {
    exists k: Block :: OpenChild(c, walked, z, k)
  }

  /** Between a walked block and one below it that is not, the walk is open. */
  lemma {:induction false} OpenBetween(c: Promotion, walked: set<Block>, w: Block, y: Block) returns (z: Block)
    requires c.Base() && w < |c.f| && y < |c.f| && Dom(c.g, w, y) && w in walked && y !in walked
    ensures z in walked && z < |c.f| && Dom(c.g, w, z) && Open(c, walked, z)
    decreases if y in c.ids && ENTRY in c.ids && c.ids[y] <= c.ids[ENTRY] then c.ids[ENTRY] - c.ids[y] else 0
  {
    hide Dom, StrictDom;
    c.MakeStrict(w, y);
    if y == ENTRY {
      c.StrictAbove(w, y);
    } else {
      c.Tree(y);
      var e := c.idom[y];
      StrictDomIsDomIdom(c.g, w, y, e);
      if e in walked {
        z := e;
        assert OpenChild(c, walked, z, y);
      } else {
        c.Tree'(e);
        z := OpenBetween(c, walked, w, e);
      }
    }
  }

  /** The last open block of the order. */
  lemma LastOpen(c: Promotion, order: seq<Block>, w: Block) returns (i: nat)
    requires Open(c, Elems(order), w) && w in order
    ensures i < |order| && Open(c, Elems(order), order[i])
    ensures forall m {:trigger order[m]} :: i < m < |order| ==> !Open(c, Elems(order), order[m])
  {
    hide Open;
    i := |order| - 1;
    while !Open(c, Elems(order), order[i])
      invariant i < |order| && w in order[..i + 1]
      invariant forall m {:trigger order[m]} :: i < m < |order| ==> !Open(c, Elems(order), order[m])
      decreases i
    {
      assert order[..i + 1] == order[..i] + [order[i]];
      i := i - 1;
    }
  }

  /** A block of the order that has unwalked blocks below it stands at the last open
      block or above it. */
  lemma UnfinishedAbove(c: Promotion, order: seq<Block>, i: nat, w: Block, y: Block)
    requires c.Base() && WalkOrder(c.g, c.idom, order) && (forall b :: b in order ==> b < |c.f|)
    requires i < |order| && forall m {:trigger order[m]} :: i < m < |order| ==> !Open(c, Elems(order), order[m])
    requires w in order && y in Subtree(c.g, w) && y !in order && y < |c.f|
    ensures Dom(c.g, w, order[i])
  {
    hide Dom, StrictDom, Open, Promotion.Base;
    var z := OpenBetween(c, Elems(order), w, y);
    var m :| 0 <= m < |order| && order[m] == z;
    var j := m;
    if w != z {
      c.MakeStrict(w, z);
      DominatorsFirst(c, order, m, w);
      j :| 0 <= j < m && order[..m][j] == w;
    }
    assert j <= m <= i && order[j] == w;
    if j < i {
      assert order[..i][j] == w;
      assert Descends(c.g, Elems(order[..i]), order[i]);
      assert y !in order[..i];
    } else {
      DomRefl(c.g, w);
    }
  }

  /** An order that does not hold all blocks yet goes on. */
  lemma NextBlock(c: Promotion, order: seq<Block>, y: Block) returns (bb: Block)
    requires c.Base() && WalkOrder(c.g, c.idom, order) && (forall b :: b in order ==> b < |c.f|)
    requires ENTRY in order && y < |c.f| && y !in order
    ensures bb < |c.f| && bb !in order && WalkOrder(c.g, c.idom, order + [bb])
  {
    hide Dom, StrictDom, Promotion.Base, WalkOrder;
    EntryDominates(c.g, y);
    var z := OpenBetween(c, Elems(order), ENTRY, y);
    var i := LastOpen(c, order, z);
    bb :| OpenChild(c, Elems(order), order[i], bb);
    c.Tree(bb);
    assert Dom(c.g, order[i], bb) by { c.StrictIsDom(c.g, order[i], bb); }
    BaseSize(c);
    forall w | w in order
      ensures Dom(c.g, w, bb) || Subtree(c.g, w) <= Elems(order)
    {
      if u: Block :| u in Subtree(c.g, w) && u !in order {
        UnfinishedAbove(c, order, i, w, u);
        DomTrans(c.g, w, order[i], bb);
      }
    }
    OneMore(c.g, c.idom, order, bb);
  }

  /** Until it holds them all. */
  lemma {:induction false} Complete(c: Promotion, order: seq<Block>) returns (full: seq<Block>)
    requires c.Base() && WalkOrder(c.g, c.idom, order) && ENTRY in order && forall b :: b in order ==> b < |c.f|
    ensures FullWalk(c, full) && order <= full
    decreases Blocks(c.g) - Elems(order)
  {
    hide Dom, StrictDom, Promotion.Base, WalkOrder;
    BaseSize(c);
    if y: Block :| y < |c.f| && y !in order {
      var bb := NextBlock(c, order, y);
      assert bb in Blocks(c.g) - Elems(order);
      full := Complete(c, order + [bb]);
    } else {
      full := order;
    }
  }

  /** A walk can go straight down to any block. */
  lemma {:induction false} StraightTo(c: Promotion, b: Block) returns (order: seq<Block>)
    requires c.Base() && b < |c.f|
    ensures WalkOrder(c.g, c.idom, order) && ENTRY in order && b in order
    ensures forall w :: w in order ==> w < |c.f| && Dom(c.g, w, b)
    decreases if b in c.ids && ENTRY in c.ids && c.ids[b] <= c.ids[ENTRY] then c.ids[ENTRY] - c.ids[b] else 0
  {
    hide Dom, StrictDom, Promotion.Base, WalkOrder;
    DomRefl(c.g, b);
    if b == ENTRY {
      NoneWalked(c);
      OneMore(c.g, c.idom, [], ENTRY);
      order := [] + [ENTRY];
    } else {
      c.Tree(b);
      var e := c.idom[b];
      c.Tree'(e);
      var above := StraightTo(c, e);
      c.StrictIsDom(c.g, e, b);
      forall w | w in above
        ensures w != b && Dom(c.g, w, b)
      {
        DomTrans(c.g, w, e, b);
        if w == b {
          c.MakeStrict(b, e);
          c.StrictAbove(b, e);
        }
      }
      c.StrictAbove(e, b);
      assert e in above;
      OneMore(c.g, c.idom, above, b);
      order := above + [b];
    }
  }

  lemma NoneWalked(c: Promotion)
    ensures WalkOrder(c.g, c.idom, [])
  {
  }

  /** Where a look-up can find a stack that some block not below has made, a walk that
      goes to that block first fails. */
  lemma UnsafeFails(c: Promotion, b: Block, x: nat, d: Block) returns (order: seq<Block>)
    requires c.Base() && Misses(c.g, c.f, c.place, b, x) && Defines(c.f, c.place, d, x) && d < |c.f| && !Dom(c.g, b, d)
    ensures FullWalk(c, order) && !NoStale(c.g, c.f, c.place, order)
  {
    hide Dom, StrictDom, Promotion.Base, DefinedAt, Defines, WalkOrder;
    var down := StraightTo(c, d);
    order := Complete(c, down);
    BaseSize(c);
    assert b in Blocks(c.g);
    var k :| 0 <= k < |order| && order[k] == b;
    var j :| 0 <= j < |down| && down[j] == d;
    assert order[j] == d;
    assert order[..|down|] == down;
    assert forall l {:trigger down[l]} :: 0 <= l < |down| ==> order[l] == down[l] && down[l] in down;
    assert j < k;
    assert order[..k][j] == d;
    MissIsStale(c.g, c.f, c.place, Elems(order[..k]), b, x);
  }

  lemma MissIsStale(g: Graph, f: Func, place: set<(Block, nat)>, walked: set<Block>, b: Block, x: nat)
    requires Misses(g, f, place, b, x) && Pushed(f, place, walked, x)
    ensures StaleIn(g, f, place, walked, b)
  {
    hide DefinedAt, Pushed;
    if i :| 0 <= i < |f[b].body| && LoadsSlot(f[b].body[i]) && f[b].body[i].ptr.x == x && !DefinedAt(g, f, place, b, i, x) {
      assert StaleLoad(g, f, place, walked, b, i);
    } else {
      var s: Block :| s in g.succs[b] && (s, x) in place && !DefinedAt(g, f, place, b, |f[b].body|, x);
      assert StaleEdge(g, f, place, walked, b, s, x);
    }
  }

  /** The look-ups are safe iff the pass fails in no order it can take. */
  lemma SafeIsExact(c: Promotion)
    requires c.Base()
    ensures Safe(c.g, c.f, c.place) <==> forall order :: FullWalk(c, order) ==> NoStale(c.g, c.f, c.place, order)
  {
    hide Dom, StrictDom, Promotion.Base, Misses, Defines, WalkOrder, NoStale;
    BaseSize(c);
    if Safe(c.g, c.f, c.place) {
      forall order | FullWalk(c, order)
        ensures NoStale(c.g, c.f, c.place, order)
      {
        forall b | b in order
          ensures b < |c.f|
        {
          assert b in Elems(order);
        }
        SafeNeverStale(c, order);
      }
    } else {
      var b: Block, x: nat, d: Block :| Misses(c.g, c.f, c.place, b, x) && Defines(c.f, c.place, d, x) && d < |c.f| && !Dom(c.g, b, d);
      var order := UnsafeFails(c, b, x, d);
    }
  }
}
