/** Post-order numbers, and the two ways up them: the tree of the traversal and the
    stored immediate dominators. */
module PostOrder {
  import opened Cfg

  function Elems(s: seq<Block>): set<Block> { set b: Block | b in s }

  function Blocks(g: Graph): set<Block> { set b: Block | b < g.Size() && g.Has(b) }

  /** ids numbers the blocks of order by position. */
  ghost predicate Numbers(order: seq<Block>, ids: map<Block, nat>) {
    && (forall i :: 0 <= i < |order| ==> order[i] in ids && ids[order[i]] == i)
    && (forall b {:trigger At(order, ids, b)} :: b in ids ==> At(order, ids, b))
  }

  ghost predicate At(order: seq<Block>, ids: map<Block, nat>, b: Block) {
    b in ids && ids[b] < |order| && order[ids[b]] == b
  }

  /** As Numbers, counted from the end. */
  ghost predicate NumbersDown(order: seq<Block>, ids: map<Block, nat>) {
    && (forall i :: 0 <= i < |order| ==> order[i] in ids && ids[order[i]] == |order| - 1 - i)
    && (forall b {:trigger AtDown(order, ids, b)} :: b in ids ==> AtDown(order, ids, b))
  }

  ghost predicate AtDown(order: seq<Block>, ids: map<Block, nat>, b: Block) {
    b in ids && ids[b] < |order| && order[|order| - 1 - ids[b]] == b
  }

  lemma NumbersPush(order: seq<Block>, ids: map<Block, nat>, b: Block)
    requires Numbers(order, ids) && b !in ids
    ensures Numbers(order + [b], ids[b := |order|])
    ensures forall x :: x in ids ==> ids[x] < |order|
  {
    forall x | x in ids
      ensures ids[x] < |order| && At(order + [b], ids[b := |order|], x)
    {
      assert At(order, ids, x);
    }
  }

  lemma NumbersReverse(order: seq<Block>, ids: map<Block, nat>, back: seq<Block>)
    requires Numbers(order, ids) && |back| == |order|
    requires forall i :: 0 <= i < |order| ==> back[i] == order[|order| - 1 - i]
    ensures NumbersDown(back, ids)
    ensures forall a, b :: Apart(ids, a, b)
  {
    forall b | b in ids
      ensures AtDown(back, ids, b)
    {
      assert At(order, ids, b);
    }
    forall a, b
      ensures Apart(ids, a, b)
    {
      if a in ids && b in ids {
        assert At(order, ids, a) && At(order, ids, b);
      }
    }
  }

  /** Two blocks do not share a number. */
  ghost predicate Apart(ids: map<Block, nat>, a: Block, b: Block) {
    a in ids && b in ids && ids[a] == ids[b] ==> a == b
  }

  ghost predicate HasParent(g: Graph, ids: map<Block, nat>, within: set<Block>, b: Block)
  {
    exists p :: p in within && b < |g.preds| && p in g.preds[b] && b in ids && p in ids && ids[b] < ids[p]
  }

  ghost predicate Extends(ids: map<Block, nat>, ids': map<Block, nat>) {
    forall b :: b in ids ==> b in ids' && ids'[b] == ids[b]
  }

  /** The blocks of left have been left by the traversal: their successors have
      been seen, and all but the roots have a predecessor left after them. */
  ghost predicate Left(g: Graph, ids: map<Block, nat>, left: set<Block>, seen: set<Block>, roots: set<Block>) {
    && (forall a, b :: a in left && a < g.Size() && b in g.succs[a] ==> b in seen)
    && (forall b {:trigger HasParent(g, ids, left, b)} :: b in left ==> b in roots || HasParent(g, ids, left, b))
  }

  lemma LeftAfter(g: Graph, ids: map<Block, nat>, left: set<Block>, seen: set<Block>,
                  ids': map<Block, nat>, more: set<Block>, seen': set<Block>, roots: set<Block>, b: Block)
    requires Left(g, ids, left, seen, roots) && Left(g, ids', more, seen', {b})
    requires Extends(ids, ids') && seen <= seen' && b in roots
    ensures Left(g, ids', left + more, seen', roots)
  {
    forall x | x in left + more && x !in roots
      ensures HasParent(g, ids', left + more, x)
    {
      if x in left {
        assert HasParent(g, ids, left, x);
      } else {
        assert HasParent(g, ids', more, x);
      }
    }
  }

  lemma LeaveBlock(g: Graph, ids: map<Block, nat>, left: set<Block>, seen: set<Block>, bb: Block, top: nat)
    requires g.WellFormed() && bb < g.Size() && left <= Blocks(g) && left <= ids.Keys && bb !in ids
    requires forall b :: b in ids ==> ids[b] < top
    requires Left(g, ids, left, seen, Elems(g.succs[bb])) && Elems(g.succs[bb]) <= seen
    ensures Left(g, ids[bb := top], left + {bb}, seen, {bb})
  {
    forall x | x in left
      ensures HasParent(g, ids[bb := top], left + {bb}, x)
    {
      if x in g.succs[bb] {
        assert bb in g.preds[x];
      } else {
        assert HasParent(g, ids, left, x);
      }
    }
  }

  /** A numbering of all blocks in which the entry is highest and every other
      block has a predecessor above it. */
  ghost predicate Numbering(g: Graph, ids: map<Block, nat>) {
    && g.WellFormed()
    && ids.Keys == Blocks(g)
    && (forall a, b {:trigger Apart(ids, a, b)} :: Apart(ids, a, b))
    && (forall b :: b in ids && b != ENTRY ==> ids[b] < ids[ENTRY])
    && (forall b {:trigger HasParent(g, ids, Blocks(g), b)} ::
          b in ids && b != ENTRY ==> HasParent(g, ids, Blocks(g), b))
  }

  // ------------------------------------------------------------ the tree of the traversal

  ghost function Parent(g: Graph, ids: map<Block, nat>, b: Block): (p: Block)
    requires Numbering(g, ids) && b in ids && b != ENTRY
    ensures p in ids && p in g.preds[b] && ids[b] < ids[p]
  {
    assert HasParent(g, ids, Blocks(g), b);
    var p :| p in Blocks(g) && p in g.preds[b] && ids[b] < ids[p];
    p
  }

  /** c lies on the way from the root of the traversal down to b. */
  ghost predicate OnTree(g: Graph, ids: map<Block, nat>, c: Block, b: Block)
    requires Numbering(g, ids) && b in ids
    decreases ids[ENTRY] - ids[b]
  {
    c == b || (b != ENTRY && OnTree(g, ids, c, Parent(g, ids, b)))
  }

  lemma {:induction false} OnTreeTrans(g: Graph, ids: map<Block, nat>, a: Block, b: Block, c: Block)
    requires Numbering(g, ids) && b in ids && c in ids
    requires OnTree(g, ids, a, b) && OnTree(g, ids, b, c)
    ensures OnTree(g, ids, a, c)
    decreases ids[ENTRY] - ids[c]
  {
    if b != c {
      OnTreeTrans(g, ids, a, b, Parent(g, ids, c));
    }
  }

  lemma {:induction false} OnTreeAbove(g: Graph, ids: map<Block, nat>, c: Block, b: Block)
    requires Numbering(g, ids) && b in ids && OnTree(g, ids, c, b)
    ensures c in ids && ids[b] <= ids[c]
    decreases ids[ENTRY] - ids[b]
  {
    if c != b {
      OnTreeAbove(g, ids, c, Parent(g, ids, b));
    }
  }

  /** A dominator of b that is at or above c in the numbering dominates c too,
      since the tree leads from c down to b below it. */
  lemma {:induction false} DomAlongTree(g: Graph, ids: map<Block, nat>, d: Block, c: Block, b: Block)
    requires Numbering(g, ids) && b in ids && c in ids && d in ids
    requires OnTree(g, ids, c, b) && ids[c] <= ids[d] && Dom(g, d, b)
    ensures Dom(g, d, c)
    decreases ids[ENTRY] - ids[b]
  {
    if c != b {
      var p := Parent(g, ids, b);
      OnTreeAbove(g, ids, c, p);
      DomPred(g, d, b, p);
      DomAlongTree(g, ids, d, c, p);
    }
  }

  // ------------------------------------------------------------ chains of stored dominators

  /** Every stored dominator is itself defined and, below the entry, lies
      strictly higher. A null entry of the original table is an absent key. */
  ghost predicate Climbs(ids: map<Block, nat>, idom: map<Block, Block>) {
    && ENTRY in ids && ENTRY in idom && idom[ENTRY] == ENTRY
    && idom.Keys <= ids.Keys
    && (forall b {:trigger Linked(ids, idom, b)} :: b in idom ==> Linked(ids, idom, b))
    && (forall b :: b in ids && b != ENTRY ==> ids[b] < ids[ENTRY])
  }

  ghost predicate Linked(ids: map<Block, nat>, idom: map<Block, Block>, b: Block)
    requires b in idom && idom.Keys <= ids.Keys
  {
    idom[b] in idom && (b != ENTRY ==> ids[b] < ids[idom[b]])
  }

  /** e is met when following stored dominators from b to the entry. */
  ghost predicate OnChain(ids: map<Block, nat>, idom: map<Block, Block>, e: Block, b: Block)
    requires Climbs(ids, idom) && b in idom
    decreases ids[ENTRY] - ids[b]
  {
    e == b || (b != ENTRY && assert Linked(ids, idom, b); OnChain(ids, idom, e, idom[b]))
  }

  lemma {:induction false} OnChainTrans(ids: map<Block, nat>, idom: map<Block, Block>, a: Block, b: Block, c: Block)
    requires Climbs(ids, idom) && b in idom && c in idom
    requires OnChain(ids, idom, a, b) && OnChain(ids, idom, b, c)
    ensures OnChain(ids, idom, a, c)
    decreases ids[ENTRY] - ids[c]
  {
    if b != c {
      assert Linked(ids, idom, c);
      OnChainTrans(ids, idom, a, b, idom[c]);
    }
  }

  lemma {:induction false} OnChainAbove(ids: map<Block, nat>, idom: map<Block, Block>, e: Block, b: Block)
    requires Climbs(ids, idom) && b in idom && OnChain(ids, idom, e, b)
    ensures e in idom && ids[b] <= ids[e] && (ids[b] == ids[e] ==> e == b)
    decreases ids[ENTRY] - ids[b]
  {
    if e != b {
      assert Linked(ids, idom, b);
      OnChainAbove(ids, idom, e, idom[b]);
    }
  }

  // ------------------------------------------------------------ what every pass keeps

  /** One entry of the table: the stored dominator is on the tree above b, and
      everything that strictly dominates b dominates it. */
  ghost predicate Sound(g: Graph, ids: map<Block, nat>, b: Block, d: Block)
    requires Numbering(g, ids) && b in ids
  {
    && d in ids && ids[b] < ids[d]
    && OnTree(g, ids, d, b)
    && forall e {:trigger StrictDom(g, e, b)} :: e in ids && StrictDom(g, e, b) ==> Dom(g, e, d)
  }

  ghost predicate AllSound(g: Graph, ids: map<Block, nat>, idom: map<Block, Block>) {
    && Numbering(g, ids)
    && Climbs(ids, idom)
    && forall b {:trigger Sound(g, ids, b, idom[b])} :: b in idom && b != ENTRY ==> Sound(g, ids, b, idom[b])
  }

  lemma {:induction false} DominatorsOnChain(g: Graph, ids: map<Block, nat>, idom: map<Block, Block>, d: Block, b: Block)
    requires AllSound(g, ids, idom) && b in idom && d in ids
    requires Dom(g, d, b)
    ensures OnChain(ids, idom, d, b)
    decreases ids[ENTRY] - ids[b]
  {
    if d != b {
      if b == ENTRY {
        assert IsPath(g, [ENTRY], ENTRY);
        assert false;
      } else {
        assert Linked(ids, idom, b) && StrictDom(g, d, b);
        assert Sound(g, ids, b, idom[b]);
        DominatorsOnChain(g, ids, idom, d, idom[b]);
      }
    }
  }

  lemma {:induction false} ChainOnTree(g: Graph, ids: map<Block, nat>, idom: map<Block, Block>, e: Block, b: Block)
    requires AllSound(g, ids, idom) && b in idom && OnChain(ids, idom, e, b)
    ensures OnTree(g, ids, e, b)
    decreases ids[ENTRY] - ids[b]
  {
    if e != b {
      assert Linked(ids, idom, b) && Sound(g, ids, b, idom[b]);
      ChainOnTree(g, ids, idom, e, idom[b]);
      OnTreeTrans(g, ids, e, idom[b], b);
    }
  }

  /** d lies on the chain of every predecessor of b that has one. */
  ghost predicate OnAllChains(g: Graph, ids: map<Block, nat>, idom: map<Block, Block>, d: Block, b: Block)
  {
    Climbs(ids, idom) && b < |g.preds| &&
    forall p :: p in g.preds[b] && p in idom ==> OnChain(ids, idom, d, p)
  }

  /** c is the meeting point of the chains of the defined predecessors of b. */
  ghost predicate IsMeet(g: Graph, ids: map<Block, nat>, idom: map<Block, Block>, c: Block, b: Block)
  {
    Climbs(ids, idom) && c in idom && forall e :: OnChain(ids, idom, e, c) <==> OnAllChains(g, ids, idom, e, b)
  }

  /** Storing the meeting point keeps the table sound. */
  lemma MeetIsSound(g: Graph, ids: map<Block, nat>, idom: map<Block, Block>, c: Block, b: Block)
    requires AllSound(g, ids, idom) && b in ids && b != ENTRY
    requires Parent(g, ids, b) in idom && IsMeet(g, ids, idom, c, b)
    ensures Sound(g, ids, b, c)
  {
    var p := Parent(g, ids, b);
    assert OnChain(ids, idom, c, c);
    assert OnAllChains(g, ids, idom, c, b);
    OnChainAbove(ids, idom, c, p);
    ChainOnTree(g, ids, idom, c, p);
    OnTreeTrans(g, ids, c, p, b);
    forall e | e in ids && StrictDom(g, e, b)
      ensures Dom(g, e, c)
    {
      forall q | q in g.preds[b] && q in idom
        ensures OnChain(ids, idom, e, q)
      {
        DomPred(g, e, b, q);
        DominatorsOnChain(g, ids, idom, e, q);
      }
      assert OnAllChains(g, ids, idom, e, b);
      OnChainAbove(ids, idom, e, c);
      DomAlongTree(g, ids, e, c, b);
    }
  }

  // ------------------------------------------------------------ progress of the passes

  /** The stored dominator of b lies on every path of at most k edges to b. */
  ghost predicate Settled(g: Graph, k: nat, b: Block, d: Block)
  {
    forall p {:trigger IsPath(g, p, b)} :: IsPath(g, p, b) && |p| <= k + 1 ==> d in p
  }

  ghost predicate SettledOn(g: Graph, blocks: set<Block>, k: nat, idom: map<Block, Block>)
  {
    forall b {:trigger Settled(g, k, b, idom[b])} :: b in blocks && b in idom && b != ENTRY ==> Settled(g, k, b, idom[b])
  }

  ghost predicate AllSettled(g: Graph, k: nat, idom: map<Block, Block>)
  {
    SettledOn(g, idom.Keys, k, idom)
  }

  lemma {:induction false} ChainOnShortPaths(g: Graph, ids: map<Block, nat>, idom: map<Block, Block>, k: nat, e: Block, b: Block, p: seq<Block>)
    requires g.InRange() && Climbs(ids, idom) && AllSettled(g, k, idom)
    requires b in idom && OnChain(ids, idom, e, b) && IsPath(g, p, b) && |p| <= k + 1
    ensures e in p
    decreases ids[ENTRY] - ids[b]
  {
    if e != b {
      assert Linked(ids, idom, b) && Settled(g, k, b, idom[b]);
      var i :| 0 <= i < |p| && p[i] == idom[b];
      PathPrefix(g, p, b, i);
      ChainOnShortPaths(g, ids, idom, k, e, idom[b], p[..i + 1]);
    }
  }

  /** One more edge is covered by a visit, provided that only the first pass
      meets undefined predecessors. */
  lemma MeetIsSettled(g: Graph, ids: map<Block, nat>, idom: map<Block, Block>, k: nat, c: Block, b: Block)
    requires AllSound(g, ids, idom) && AllSettled(g, k, idom)
    requires b in ids && b != ENTRY && IsMeet(g, ids, idom, c, b)
    requires k > 0 ==> idom.Keys == ids.Keys
    ensures Settled(g, k + 1, b, c)
  {
    assert OnChain(ids, idom, c, c);
    assert OnAllChains(g, ids, idom, c, b);
    forall p | IsPath(g, p, b) && |p| <= k + 2
      ensures c in p
    {
      PathLastEdge(g, p, b);
      var q := p[..|p| - 1];
      var a := p[|p| - 2];
      assert k == 0 ==> a == ENTRY;
      assert a in idom;
      ChainOnShortPaths(g, ids, idom, k, c, a, q);
      var i :| 0 <= i < |q| && q[i] == c;
      assert p[i] == c;
    }
  }

  lemma SettledIsDom(g: Graph, k: nat, b: Block, d: Block)
    requires g.Size() <= k + 1 && Settled(g, k, b, d)
    ensures Dom(g, d, b)
  {
    forall p | IsPath(g, p, b)
      ensures d in p
    {
      var q := ShortPath(g, p, b);
    }
  }

  /** Sound and on all paths is the immediate dominator. */
  lemma SoundDomIsIdom(g: Graph, ids: map<Block, nat>, b: Block, d: Block)
    requires Numbering(g, ids) && b in ids && Sound(g, ids, b, d) && Dom(g, d, b)
    ensures IsIdom(g, d, b)
  {
    forall e | StrictDom(g, e, b)
      ensures Dom(g, e, d)
    {
      assert Reachable(g, b);
      var p :| IsPath(g, p, b);
      assert e in p;
      assert e in Blocks(g);
    }
  }

  lemma IdomUnique(g: Graph, b: Block, d: Block, e: Block)
    requires g.WellFormed() && b < g.Size() && IsIdom(g, d, b) && IsIdom(g, e, b)
    ensures d == e
  {
    DomAntisym(g, d, e);
  }

  /** When a pass changes nothing, chains hold dominators only. */
  ghost predicate Stable(g: Graph, ids: map<Block, nat>, idom: map<Block, Block>)
  {
    Climbs(ids, idom) &&
    forall b {:trigger OnAllChains(g, ids, idom, idom[b], b)} ::
      b in idom && b != ENTRY ==> OnAllChains(g, ids, idom, idom[b], b)
  }

  ghost predicate StableOn(g: Graph, ids: map<Block, nat>, blocks: set<Block>, idom: map<Block, Block>)
  {
    Climbs(ids, idom) &&
    forall b {:trigger OnAllChains(g, ids, idom, idom[b], b)} ::
      b in blocks && b in idom && b != ENTRY ==> OnAllChains(g, ids, idom, idom[b], b)
  }

  /** The state of pass k + 1 when the blocks of seen have been visited. */
  ghost predicate MidPass(g: Graph, ids: map<Block, nat>, k: nat, seen: set<Block>, idom: map<Block, Block>) {
    && AllSound(g, ids, idom) && AllSettled(g, k, idom)
    && (k > 0 ==> idom.Keys == Blocks(g))
    && seen <= idom.Keys
    && SettledOn(g, seen, k + 1, idom)
  }

  lemma NoLateChange(g: Graph, ids: map<Block, nat>, idom: map<Block, Block>, k: nat, bb: Block, newIdom: Block)
    requires AllSound(g, ids, idom) && AllSettled(g, k, idom)
    requires k >= g.Size() && bb in idom && bb != ENTRY
    requires Sound(g, ids, bb, newIdom) && Settled(g, k + 1, bb, newIdom)
    ensures newIdom == idom[bb]
  {
    assert Sound(g, ids, bb, idom[bb]) && Settled(g, k, bb, idom[bb]);
    SettledIsDom(g, k, bb, idom[bb]);
    SettledIsDom(g, k + 1, bb, newIdom);
    SoundDomIsIdom(g, ids, bb, idom[bb]);
    SoundDomIsIdom(g, ids, bb, newIdom);
    IdomUnique(g, bb, idom[bb], newIdom);
  }

  lemma StoreKeepsSound(g: Graph, ids: map<Block, nat>, idom: map<Block, Block>, bb: Block, d: Block)
    requires AllSound(g, ids, idom) && bb in ids && bb != ENTRY && d in idom
    requires Sound(g, ids, bb, d)
    ensures AllSound(g, ids, idom[bb := d])
  {
    var idom' := idom[bb := d];
    forall b | b in idom'
      ensures Linked(ids, idom', b)
    {
      assert b != bb ==> Linked(ids, idom, b);
    }
    forall b | b in idom' && b != ENTRY
      ensures Sound(g, ids, b, idom'[b])
    {
      assert b != bb ==> Sound(g, ids, b, idom[b]);
    }
  }

  lemma StoreKeepsSettled(g: Graph, idom: map<Block, Block>, k: nat, seen: set<Block>, bb: Block, d: Block)
    requires SettledOn(g, seen, k, idom) && Settled(g, k, bb, d)
    ensures SettledOn(g, seen + {bb}, k, idom[bb := d])
  {
    forall b | b in seen && b in idom && b != bb && b != ENTRY
      ensures Settled(g, k, b, idom[bb := d][b])
    {
      assert Settled(g, k, b, idom[b]);
    }
  }

  lemma StoreKeeps(g: Graph, ids: map<Block, nat>, idom: map<Block, Block>, k: nat, seen: set<Block>, bb: Block, d: Block)
    requires MidPass(g, ids, k, seen, idom) && bb in ids && bb != ENTRY && d in idom
    requires Sound(g, ids, bb, d) && Settled(g, k + 1, bb, d)
    ensures MidPass(g, ids, k, seen + {bb}, idom[bb := d])
  {
    StoreKeepsSound(g, ids, idom, bb, d);
    StoreKeepsSettled(g, idom, k + 1, seen, bb, d);
    assert Settled(g, k, bb, d);
    StoreKeepsSettled(g, idom, k, idom.Keys, bb, d);
    assert idom[bb := d].Keys == idom.Keys + {bb};
  }

  lemma {:induction false} ChainDominates(g: Graph, ids: map<Block, nat>, idom: map<Block, Block>, e: Block, b: Block, p: seq<Block>)
    requires AllSound(g, ids, idom) && idom.Keys == ids.Keys && Stable(g, ids, idom)
    requires b in idom && OnChain(ids, idom, e, b) && IsPath(g, p, b)
    ensures e in p
    decreases |p|
  {
    if e != b {
      PathLastEdge(g, p, b);
      var a := p[|p| - 2];
      assert Linked(ids, idom, b) && OnAllChains(g, ids, idom, idom[b], b);
      OnChainTrans(ids, idom, e, idom[b], a);
      ChainDominates(g, ids, idom, e, a, p[..|p| - 1]);
    }
  }

  /** The finished dominator tree: immediate dominators, and chains that are
      exactly the sets of dominators. */
  ghost predicate DomTree(g: Graph, ids: map<Block, nat>, idom: map<Block, Block>) {
    && AllSound(g, ids, idom)
    && idom.Keys == ids.Keys
    && (forall b {:trigger IsIdom(g, idom[b], b)} :: b in idom && b != ENTRY ==> IsIdom(g, idom[b], b))
    && (forall b, d {:trigger OnChain(ids, idom, d, b)} ::
          b in idom && d in idom ==> (OnChain(ids, idom, d, b) <==> Dom(g, d, b)))
  }

  /** The final table: immediate dominators, and chains that are exactly the
      sets of dominators. */
  lemma StableIsExact(g: Graph, ids: map<Block, nat>, idom: map<Block, Block>)
    requires AllSound(g, ids, idom) && idom.Keys == ids.Keys && Stable(g, ids, idom)
    ensures DomTree(g, ids, idom)
  {
    forall b, d | b in idom && d in ids
      ensures OnChain(ids, idom, d, b) <==> Dom(g, d, b)
    {
      if Dom(g, d, b) {
        DominatorsOnChain(g, ids, idom, d, b);
      }
      if OnChain(ids, idom, d, b) {
        forall p | IsPath(g, p, b)
          ensures d in p
        {
          ChainDominates(g, ids, idom, d, b, p);
        }
      }
    }
    forall b | b in idom && b != ENTRY
      ensures IsIdom(g, idom[b], b)
    {
      assert Linked(ids, idom, b) && OnChain(ids, idom, idom[b], b);
      SoundDomIsIdom(g, ids, b, idom[b]);
    }
  }
}
