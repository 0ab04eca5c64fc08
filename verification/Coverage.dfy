/** When renaming finds a value where it looks for one: at a load of a slot, and on
    an edge into a phi. Where it finds none, what happens depends on the walk: if no
    block walked before defines the slot, its stack has never been made, and the load
    stays or the edge brings no value; otherwise the stack is there and empty, and
    the pass fails. */
module Coverage {
  import opened Cfg
  import opened PostOrder
  import opened Arithmetic
  import opened Ir
  import opened Ssa
  import opened SsaValues

  ghost predicate Defines(f: Func, place: set<(Block, nat)>, d: Block, x: nat) {
    Stores(f, d, x) || (d, x) in place
  }

  /** A phi for x begins block b, or a block strictly above b defines x. */
  ghost predicate DefinedIn(g: Graph, f: Func, place: set<(Block, nat)>, b: Block, x: nat) {
    (b, x) in place || exists d: Block :: d < |f| && StrictDom(g, d, b) && Defines(f, place, d, x)
  }

  ghost predicate StoredBefore(body: seq<Instr>, i: nat, x: nat)
    requires i <= |body|
  {
    exists j :: 0 <= j < i && StoresTo(body[j], x)
  }

  ghost predicate DefinedAt(g: Graph, f: Func, place: set<(Block, nat)>, b: Block, i: nat, x: nat)
    requires b < |f| && i <= |f[b].body|
  {
    DefinedIn(g, f, place, b, x) || StoredBefore(f[b].body, i, x)
  }

  ghost predicate LoadCovered(g: Graph, f: Func, place: set<(Block, nat)>, b: Block, i: nat)
    requires b < |f| && i < |f[b].body|
  {
    LoadsSlot(f[b].body[i]) ==> DefinedAt(g, f, place, b, i, f[b].body[i].ptr.x)
  }

  ghost predicate EdgeCovered(g: Graph, f: Func, place: set<(Block, nat)>, p: Block, b: Block, x: nat)
    requires p < |f|
  {
    (b, x) in place ==> DefinedAt(g, f, place, p, |f[p].body|, x)
  }

  ghost predicate Covered(g: Graph, f: Func, place: set<(Block, nat)>) {
    && (forall b, i {:trigger LoadCovered(g, f, place, b, i)} :: 0 <= b < |f| && 0 <= i < |f[b].body| ==> LoadCovered(g, f, place, b, i))
    && (forall b: Block, p: Block, x: nat {:trigger EdgeCovered(g, f, place, p, b, x)} ::
          b < |g.preds| && p in g.preds[b] && p < |f| ==> EdgeCovered(g, f, place, p, b, x))
  }

  /** The immediate dominator of b has been walked. */
  ghost predicate Rooted(c: Promotion, walked: set<Block>, b: Block) {
    b != ENTRY ==> b in c.idom && c.idom[b] in walked
  }

  lemma BaseSize(c: Promotion)
    requires c.Base()
    ensures |c.f| == c.g.Size() == |c.g.preds| && c.g.WellFormed() && c.idom.Keys == Blocks(c.g)
  {
    hide Dom, StrictDom;
  }

  /** The blocks of walked are consistent and closed upwards. */
  ghost predicate Upper(c: Promotion, walked: set<Block>) {
    && c.Base()
    && walked <= c.ren.inn.Keys && walked <= c.ren.out.Keys && walked <= Blocks(c.g)
    && (forall b {:trigger BlockConsistent(c.f, c.idom, c.place, c.ren, b)} ::
          b in walked ==> BlockConsistent(c.f, c.idom, c.place, c.ren, b))
    && (forall b {:trigger Rooted(c, walked, b)} :: b in walked ==> Rooted(c, walked, b))
  }

  lemma {:induction false} AfterKeys(body: seq<Instr>, cur: Slots, sub: map<Reg, Value>, i: nat, x: nat)
    requires i <= |body|
    ensures x in After(body, cur, sub, i) <==> x in cur || StoredBefore(body, i, x)
  {
    if i > 0 {
      AfterKeys(body, cur, sub, i - 1, x);
      assert StoredBefore(body, i, x) <==> StoredBefore(body, i - 1, x) || StoresTo(body[i - 1], x);
    }
  }

  /** A slot has a value at the beginning of a block iff it is defined there. */
  lemma {:induction false} EntryKeys(c: Promotion, walked: set<Block>, b: Block, inn: Slots, x: nat)
    requires Upper(c, walked) && Rooted(c, walked, b) && b < |c.f|
    requires EntryValue(c.place, inn, Above(c.idom, c.ren, b), b, x)
    ensures x in inn <==> DefinedIn(c.g, c.f, c.place, b, x)
    decreases if b in c.ids && ENTRY in c.ids && c.ids[b] <= c.ids[ENTRY] then c.ids[ENTRY] - c.ids[b] else 0
  {
    hide Dom, StrictDom, Stores;
    if b == ENTRY {
      forall d: Block | d < |c.f|
        ensures !StrictDom(c.g, d, b)
      {
        if StrictDom(c.g, d, b) {
          c.StrictAbove(d, b);
        }
      }
    } else {
      c.Tree(b);
      var e := c.idom[b];
      assert BlockConsistent(c.f, c.idom, c.place, c.ren, e) && Rooted(c, walked, e);
      assert EntryValue(c.place, c.ren.inn[e], Above(c.idom, c.ren, e), e, x);
      EntryKeys(c, walked, e, c.ren.inn[e], x);
      AfterKeys(c.f[e].body, c.ren.inn[e], c.ren.sub, |c.f[e].body|, x);
      assert StoredBefore(c.f[e].body, |c.f[e].body|, x) <==> Stores(c.f, e, x) by { StoresAnywhere(c.f, e, x); }
      DefinedDown(c, e, b, x);
    }
  }

  lemma StoresAnywhere(f: Func, e: Block, x: nat)
    requires e < |f|
    ensures StoredBefore(f[e].body, |f[e].body|, x) <==> Stores(f, e, x)
  {
  }

  /** What is defined strictly above b is what its immediate dominator defines,
      or has from above. */
  lemma DefinedDown(c: Promotion, e: Block, b: Block, x: nat)
    requires c.Base() && b < |c.f| && IsIdom(c.g, e, b)
    ensures (exists d: Block :: d < |c.f| && StrictDom(c.g, d, b) && Defines(c.f, c.place, d, x)) <==>
      (DefinedIn(c.g, c.f, c.place, e, x) || Stores(c.f, e, x))
  {
    hide Dom, StrictDom, Stores;
    BaseSize(c);
    assert StrictDom(c.g, e, b) && e < |c.f|;
    forall d: Block | d < |c.f|
      ensures StrictDom(c.g, d, b) <==> d == e || StrictDom(c.g, d, e)
    {
      StrictDomIsDomIdom(c.g, d, b, e);
      if d != e && Dom(c.g, d, e) {
        c.MakeStrict(d, e);
      }
      if StrictDom(c.g, d, e) {
        c.StrictIsDom(c.g, d, e);
      }
    }
  }

  /** The values a slot has at position i of b. */
  lemma KeysAt(c: Promotion, walked: set<Block>, b: Block, i: nat, x: nat)
    requires Upper(c, walked) && b in walked && b < |c.f| && i <= |c.f[b].body|
    ensures x in c.At(b, i) <==> DefinedAt(c.g, c.f, c.place, b, i, x)
  {
    hide Dom, StrictDom, DefinedIn, StoredBefore;
    assert BlockConsistent(c.f, c.idom, c.place, c.ren, b) && Rooted(c, walked, b);
    assert EntryValue(c.place, c.ren.inn[b], Above(c.idom, c.ren, b), b, x);
    EntryKeys(c, walked, b, c.ren.inn[b], x);
    AfterKeys(c.f[b].body, c.ren.inn[b], c.ren.sub, i, x);
  }

  lemma ValidIsUpper(c: Promotion)
    requires c.Valid()
    ensures Upper(c, Blocks(c.g)) && |c.f| == c.g.Size() == |c.g.preds|
  {
    hide Dom, StrictDom, BlockConsistent;
    BaseSize(c);
    forall b | b in Blocks(c.g)
      ensures Rooted(c, Blocks(c.g), b) && b in c.ren.inn && b in c.ren.out
    {
      assert BlockConsistent(c.f, c.idom, c.place, c.ren, b);
      ConsistentDomain(c, b);
      if b != ENTRY {
        c.Tree(b);
      }
    }
  }

  lemma ConsistentDomain(c: Promotion, b: Block)
    requires BlockConsistent(c.f, c.idom, c.place, c.ren, b)
    ensures b in c.ren.inn && b in c.ren.out && c.ren.out[b] == After(c.f[b].body, c.ren.inn[b], c.ren.sub, |c.f[b].body|)
    ensures forall i {:trigger LoadResolved(c.f[b].body, c.ren.inn[b], c.ren.sub, i)} ::
      0 <= i < |c.f[b].body| ==> LoadResolved(c.f[b].body, c.ren.inn[b], c.ren.sub, i)
  {
  }

  /** A load is replaced iff it finds a value. */
  lemma LoadIsCovered(c: Promotion, b: Block, i: nat)
    requires c.Valid() && b < |c.f| && i < |c.f[b].body| && LoadsSlot(c.f[b].body[i])
    ensures LoadCovered(c.g, c.f, c.place, b, i) <==> c.f[b].body[i].dest in c.ren.sub
  {
    hide Dom, StrictDom, DefinedAt, Upper, BlockConsistent, DomTree, SourceForm, Closed;
    ValidIsUpper(c);
    assert BlockConsistent(c.f, c.idom, c.place, c.ren, b);
    ConsistentDomain(c, b);
    assert LoadResolved(c.f[b].body, c.ren.inn[b], c.ren.sub, i);
    KeysAt(c, Blocks(c.g), b, i, c.f[b].body[i].ptr.x);
  }

  /** A phi has a pair for a predecessor iff the edge finds a value. */
  lemma EdgeIsCovered(c: Promotion, p: Block, b: Block, phi: Phi)
    requires c.Valid() && b < |c.g.preds| && p in c.g.preds[b] && p < |c.f|
    requires Filled(c.g, c.ren, b, phi) && (b, phi.lval) in c.place
    ensures EdgeCovered(c.g, c.f, c.place, p, b, phi.lval) <==> HasPair(phi.pairs, p)
  {
    hide Dom, StrictDom, DefinedAt, Upper, BlockConsistent, DomTree, SourceForm, Closed;
    ValidIsUpper(c);
    assert BlockConsistent(c.f, c.idom, c.place, c.ren, p);
    ConsistentDomain(c, p);
    KeysAt(c, Blocks(c.g), p, |c.f[p].body|, phi.lval);
    if HasPair(phi.pairs, p) {
      var k :| 0 <= k < |phi.pairs| && phi.pairs[k].1 == p;
      assert PairOk(c.g, c.ren, b, phi, k);
    }
  }

  /** No slot load is left, and every phi has a pair for every predecessor. */
  ghost predicate Full(c: Promotion, f': Func)
    requires |f'| == |c.f| == |c.g.preds|
  {
    && (forall b, i {:trigger c.f[b].body[i]} :: 0 <= b < |c.f| && 0 <= i < |c.f[b].body| && LoadsSlot(c.f[b].body[i]) ==> c.f[b].body[i].dest in c.ren.sub)
    && (forall b, k, p {:trigger HasPair(f'[b].phis[k].pairs, p)} ::
          0 <= b < |f'| && 0 <= k < |f'[b].phis| && p in c.g.preds[b] ==> HasPair(f'[b].phis[k].pairs, p))
  }

  /** The promoted function is complete iff every look-up finds a value. */
  lemma FullIffCovered(c: Promotion, f': Func)
    requires c.Valid() && TargetForm(c.g, c.f, c.place, c.ren, f')
    ensures Full(c, f') <==> Covered(c.g, c.f, c.place)
  {
    hide LoadCovered, EdgeCovered, DomTree, SourceForm, Closed, Consistent, Filled, Dom;
    BaseSize(c);
    forall b, i | 0 <= b < |c.f| && 0 <= i < |c.f[b].body|
      ensures LoadCovered(c.g, c.f, c.place, b, i) <==> (LoadsSlot(c.f[b].body[i]) ==> c.f[b].body[i].dest in c.ren.sub)
    {
      if LoadsSlot(c.f[b].body[i]) {
        LoadIsCovered(c, b, i);
      } else {
        OtherCovered(c.g, c.f, c.place, b, i);
      }
    }
    forall b: Block, k: nat, p: Block | b < |f'| && k < |f'[b].phis| && p in c.g.preds[b]
      ensures p < |c.f| && (EdgeCovered(c.g, c.f, c.place, p, b, f'[b].phis[k].lval) <==> HasPair(f'[b].phis[k].pairs, p))
    {
      assert TargetBlock(c.g, c.place, c.ren, b, c.f[b], f'[b]);
      assert p < |c.f|;
      EdgeIsCovered(c, p, b, f'[b].phis[k]);
    }
    forall b: Block, p: Block, x: nat | b < |c.g.preds| && p in c.g.preds[b] && p < |c.f| && Full(c, f')
      ensures EdgeCovered(c.g, c.f, c.place, p, b, x)
    {
      if (b, x) in c.place {
        assert TargetBlock(c.g, c.place, c.ren, b, c.f[b], f'[b]);
        var k :| 0 <= k < |f'[b].phis| && f'[b].phis[k].lval == x;
        assert HasPair(f'[b].phis[k].pairs, p);
      } else {
        NoPhiCovered(c.g, c.f, c.place, p, b, x);
      }
    }
  }

  lemma OtherCovered(g: Graph, f: Func, place: set<(Block, nat)>, b: Block, i: nat)
    requires b < |f| && i < |f[b].body| && !LoadsSlot(f[b].body[i])
    ensures LoadCovered(g, f, place, b, i)
  {
  }

  lemma NoPhiCovered(g: Graph, f: Func, place: set<(Block, nat)>, p: Block, b: Block, x: nat)
    requires p < |f| && (b, x) !in place
    ensures EdgeCovered(g, f, place, p, b, x)
  {
  }

  // ---------------------------------------------------------------- look-ups that fail

  /** A stack for x has been made by the time the blocks of walked have been walked. */
  ghost predicate Pushed(f: Func, place: set<(Block, nat)>, walked: set<Block>, x: nat) {
    exists d: Block :: d in walked && Defines(f, place, d, x)
  }

  /** The load finds the stack of its slot, and finds it empty. */
  ghost predicate StaleLoad(g: Graph, f: Func, place: set<(Block, nat)>, walked: set<Block>, b: Block, i: nat)
    requires b < |f| && i < |f[b].body|
  {
    LoadsSlot(f[b].body[i]) && !DefinedAt(g, f, place, b, i, f[b].body[i].ptr.x) && Pushed(f, place, walked, f[b].body[i].ptr.x)
  }

  /** So does the edge into the phi. */
  ghost predicate StaleEdge(g: Graph, f: Func, place: set<(Block, nat)>, walked: set<Block>, p: Block, s: Block, x: nat)
    requires p < |f|
  {
    (s, x) in place && !DefinedAt(g, f, place, p, |f[p].body|, x) && Pushed(f, place, walked, x)
  }

  /** Walking b behind the blocks of walked, the pass fails. */
  ghost predicate StaleIn(g: Graph, f: Func, place: set<(Block, nat)>, walked: set<Block>, b: Block) {
    b < |f| && b < |g.succs| && (
      || (exists i {:trigger StaleLoad(g, f, place, walked, b, i)} :: 0 <= i < |f[b].body| && StaleLoad(g, f, place, walked, b, i))
      || (exists s: Block, x: nat {:trigger StaleEdge(g, f, place, walked, b, s, x)} :: s in g.succs[b] && StaleEdge(g, f, place, walked, b, s, x)))
  }

  /** The blocks bb dominates. */
  ghost function Subtree(g: Graph, bb: Block): set<Block> {
    set b: Block | b < g.Size() && Dom(g, bb, b)
  }

  /** When the walk comes to b, it has left the subtrees b is not in. */
  ghost predicate Descends(g: Graph, walked: set<Block>, b: Block) {
    forall w {:trigger Subtree(g, w)} :: w in walked ==> Dom(g, w, b) || Subtree(g, w) <= walked
  }

  /** The blocks in an order of the walk: each once, behind its immediate dominator,
      and one subtree after another. */
  ghost predicate WalkOrder(g: Graph, idom: map<Block, Block>, order: seq<Block>) {
    && (forall k {:trigger order[k]} :: 0 <= k < |order| ==> order[k] !in order[..k])
    && (forall k {:trigger order[k]} :: 0 <= k < |order| && order[k] != ENTRY ==> order[k] in idom && idom[order[k]] in order[..k])
    && (forall k {:trigger order[k]} :: 0 <= k < |order| ==> Descends(g, Elems(order[..k]), order[k]))
  }

  /** bb comes next. */
  lemma OneMore(g: Graph, idom: map<Block, Block>, order: seq<Block>, bb: Block)
    requires WalkOrder(g, idom, order) && bb !in order && Descends(g, Elems(order), bb)
    requires bb != ENTRY ==> bb in idom && idom[bb] in order
    ensures WalkOrder(g, idom, order + [bb]) && Elems(order + [bb]) == Elems(order) + {bb}
  {
    hide Descends;
    var now := order + [bb];
    forall k | 0 <= k < |now|
      ensures now[k] !in now[..k] && (now[k] != ENTRY ==> now[k] in idom && idom[now[k]] in now[..k])
      ensures Descends(g, Elems(now[..k]), now[k])
    {
      assert now[..k] == order[..k];
      if k < |order| {
        assert now[k] == order[k];
      } else {
        assert now[..k] == order;
      }
    }
  }

  /** No look-up of the walk fails. */
  ghost predicate NoStale(g: Graph, f: Func, place: set<(Block, nat)>, order: seq<Block>) {
    forall k {:trigger order[k]} :: 0 <= k < |order| ==> !StaleIn(g, f, place, Elems(order[..k]), order[k])
  }

  /** A look-up in b finds no value for x. */
  ghost predicate Misses(g: Graph, f: Func, place: set<(Block, nat)>, b: Block, x: nat) {
    b < |f| && b < |g.succs| && (
      || (exists i {:trigger f[b].body[i]} :: 0 <= i < |f[b].body| && LoadsSlot(f[b].body[i]) && f[b].body[i].ptr.x == x && !DefinedAt(g, f, place, b, i, x))
      || (exists s: Block {:trigger (s, x) in place} :: s in g.succs[b] && (s, x) in place && !DefinedAt(g, f, place, b, |f[b].body|, x)))
  }

  /** Where a look-up finds no value for a slot, only blocks below define it. */
  ghost predicate Safe(g: Graph, f: Func, place: set<(Block, nat)>) {
    forall b: Block, x: nat, d: Block {:trigger Misses(g, f, place, b, x), Defines(f, place, d, x)} ::
      Misses(g, f, place, b, x) && Defines(f, place, d, x) && d < |f| ==> Dom(g, b, d)
  }

  lemma CoveredIsSafe(g: Graph, f: Func, place: set<(Block, nat)>)
    requires g.WellFormed() && |f| == g.Size() && Covered(g, f, place)
    ensures Safe(g, f, place)
  {
    hide Dom, DefinedAt, Reachable;
    forall b: Block, x: nat
      ensures !Misses(g, f, place, b, x)
    {
      if b < |f| {
        forall i | 0 <= i < |f[b].body| && LoadsSlot(f[b].body[i]) && f[b].body[i].ptr.x == x
          ensures DefinedAt(g, f, place, b, i, x)
        {
          assert LoadCovered(g, f, place, b, i);
        }
        forall s: Block | s in g.succs[b] && (s, x) in place
          ensures DefinedAt(g, f, place, b, |f[b].body|, x)
        {
          assert b in g.preds[s];
          assert EdgeCovered(g, f, place, b, s, x);
        }
      }
    }
  }

  /** In an order of the walk a block stands behind all that dominate it. */
  lemma {:induction false} DominatorsFirst(c: Promotion, order: seq<Block>, k: nat, d: Block)
    requires c.Base() && WalkOrder(c.g, c.idom, order) && k < |order| && order[k] < |c.f| && d < |c.f| && StrictDom(c.g, d, order[k])
    ensures d in order[..k]
    decreases k
  {
    hide Dom, StrictDom;
    var b := order[k];
    if b == ENTRY {
      c.StrictAbove(d, b);
    } else {
      c.Tree(b);
      var e := c.idom[b];
      var j :| 0 <= j < k && order[..k][j] == e;
      assert order[j] == e;
      StrictDomIsDomIdom(c.g, d, b, e);
      if d != e {
        c.MakeStrict(d, e);
        DominatorsFirst(c, order, j, d);
        var l :| 0 <= l < j && order[..j][l] == d;
        assert order[..k][l] == d;
      }
    }
  }

  lemma InLonger(order: seq<Block>, j: nat, k: nat, b: Block)
    requires j <= k <= |order| && b in order[..j]
    ensures b in order[..k]
  {
    var l :| 0 <= l < j && order[..j][l] == b;
    assert order[..k][l] == b;
  }

  /** Then no order of the walk makes a look-up fail. */
  lemma SafeNeverStale(c: Promotion, order: seq<Block>)
    requires c.Base() && WalkOrder(c.g, c.idom, order) && Safe(c.g, c.f, c.place) && forall b :: b in order ==> b < |c.f|
    ensures NoStale(c.g, c.f, c.place, order)
  {
    hide Dom, StrictDom, DefinedAt, Defines, DomTree, SourceForm, Closed;
    forall k | 0 <= k < |order|
      ensures !StaleIn(c.g, c.f, c.place, Elems(order[..k]), order[k])
    {
      var b, walked := order[k], Elems(order[..k]);
      if StaleIn(c.g, c.f, c.place, walked, b) {
        var x := StaleMisses(c.g, c.f, c.place, walked, b);
        var d: Block :| d in walked && Defines(c.f, c.place, d, x);
        var j :| 0 <= j < k && order[..k][j] == d;
        assert order[j] == d && d in order;
        assert Dom(c.g, b, d);
        c.MakeStrict(b, d);
        DominatorsFirst(c, order, j, b);
        InLonger(order, j, k, b);
        assert false;
      }
    }
  }

  lemma StaleMisses(g: Graph, f: Func, place: set<(Block, nat)>, walked: set<Block>, b: Block) returns (x: nat)
    requires StaleIn(g, f, place, walked, b)
    ensures Misses(g, f, place, b, x) && Pushed(f, place, walked, x)
  {
    hide DefinedAt, Defines;
    if i :| 0 <= i < |f[b].body| && StaleLoad(g, f, place, walked, b, i) {
      x := f[b].body[i].ptr.x;
    } else {
      var s: Block, y: nat :| s in g.succs[b] && StaleEdge(g, f, place, walked, b, s, y);
      x := y;
    }
  }

  /** Every slot that is used is stored in the entry block, there before it is
      loaded. */
  ghost predicate InitialisedInEntry(f: Func) {
    && 0 < |f|
    && (forall b: Block, x {:trigger Stores(f, b, x)} :: Stores(f, b, x) ==> Stores(f, ENTRY, x))
    && (forall b, i :: 0 <= b < |f| && 0 <= i < |f[b].body| && LoadsSlot(f[b].body[i]) ==> Stores(f, ENTRY, f[b].body[i].ptr.x))
    && (forall i :: 0 <= i < |f[ENTRY].body| && LoadsSlot(f[ENTRY].body[i]) ==> StoredBefore(f[ENTRY].body, i, f[ENTRY].body[i].ptr.x))
  }

  /** That is enough for coverage, wherever the phis are. */
  lemma InitialisedIsCovered(g: Graph, f: Func, place: set<(Block, nat)>)
    requires g.WellFormed() && |f| == g.Size() && InitialisedInEntry(f)
    requires forall b, x :: (b, x) in place ==> exists d: Block :: Stores(f, d, x)
    ensures Covered(g, f, place)
  {
    forall b, i | 0 <= b < |f| && 0 <= i < |f[b].body|
      ensures LoadCovered(g, f, place, b, i)
    {
      if LoadsSlot(f[b].body[i]) && b != ENTRY {
        DefinedBelowEntry(g, f, place, b, f[b].body[i].ptr.x);
      }
    }
    forall b: Block, p: Block, x: nat | b < |g.preds| && p in g.preds[b] && p < |f|
      ensures EdgeCovered(g, f, place, p, b, x)
    {
      if (b, x) in place {
        var d: Block :| Stores(f, d, x);
        if p == ENTRY {
          StoresAnywhere(f, p, x);
        } else {
          DefinedBelowEntry(g, f, place, p, x);
        }
      }
    }
  }

  lemma DefinedBelowEntry(g: Graph, f: Func, place: set<(Block, nat)>, b: Block, x: nat)
    requires 0 < |f| && b != ENTRY && Stores(f, ENTRY, x)
    ensures DefinedIn(g, f, place, b, x)
  {
    EntryDominates(g, b);
    assert StrictDom(g, ENTRY, b) && Defines(f, place, ENTRY, x);
  }
}
