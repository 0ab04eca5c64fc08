/** The state of renaming in the middle of its walk over the dominator tree: which
    blocks have their final values, which loads have been resolved so far, and what
    the slots hold in front of the instruction that comes next. Replacing one more
    load keeps all of it right. */
module Rename {
  import opened Cfg
  import opened PostOrder
  import opened Arithmetic
  import opened Ir
  import opened Ssa
  import opened SsaValues
  import opened Coverage

  ghost predicate IsSlotLoad(f: Func, sites: Sites, r: Reg) {
    r in sites && sites[r].0 < |f| && sites[r].1 < |f[sites[r].0].body| && LoadsSlot(f[sites[r].0].body[sites[r].1])
  }

  /** r is the result of a load that finds a value and is going to be deleted. */
  ghost predicate Goes(c: Promotion, r: Reg) {
    IsSlotLoad(c.f, c.sites, r) && DefinedAt(c.g, c.f, c.place, c.sites[r].0, c.sites[r].1, c.f[c.sites[r].0].body[c.sites[r].1].ptr.x)
  }

  /** v is not the result of a load that is going to be deleted. */
  ghost predicate Solid(c: Promotion, v: Value) {
    !(v.Res? && Goes(c, v.r))
  }

  ghost predicate AllSolid(c: Promotion, cur: Slots) {
    forall x :: x in cur ==> Solid(c, cur[x])
  }

  /** The blocks of walked have their final values. */
  ghost predicate Partial(c: Promotion, walked: set<Block>) {
    && c.Base() && walked <= Blocks(c.g)
    && c.ren.inn.Keys == c.ren.out.Keys == walked
    && (forall b {:trigger BlockConsistent(c.f, c.idom, c.place, c.ren, b)} ::
          b in walked ==> BlockConsistent(c.f, c.idom, c.place, c.ren, b))
    && (forall b {:trigger Rooted(c, walked, b)} :: b in walked ==> Rooted(c, walked, b))
    && (forall b {:trigger AllSolid(c, c.ren.out[b])} :: b in walked ==> AllSolid(c, c.ren.out[b]))
  }

  ghost predicate Reached(walked: set<Block>, bb: Block, i: nat, site: (Block, nat)) {
    site.0 in walked || (site.0 == bb && site.1 < i)
  }

  /** The loads of the walked blocks, and those before position i of bb, are
      replaced, by values that stay. */
  ghost predicate Replaced(c: Promotion, walked: set<Block>, bb: Block, i: nat) {
    forall r {:trigger r in c.ren.sub} :: r in c.ren.sub ==>
      Goes(c, r) && Reached(walked, bb, i, c.sites[r]) && Solid(c, c.ren.sub[r])
  }

  lemma PartialIsUpper(c: Promotion, walked: set<Block>)
    requires Partial(c, walked)
    ensures Upper(c, walked)
  {
    hide BlockConsistent, AllSolid, Rooted, Dom, StrictDom;
  }

  lemma {:induction false} WalkedAbove(c: Promotion, walked: set<Block>, d: Block, b: Block)
    requires Partial(c, walked) && d < |c.f| && b < |c.f| && StrictDom(c.g, d, b) && Rooted(c, walked, b)
    ensures d in walked
    decreases if b in c.ids && ENTRY in c.ids && c.ids[b] <= c.ids[ENTRY] then c.ids[ENTRY] - c.ids[b] else 0
  {
    hide Dom, StrictDom, BlockConsistent, AllSolid;
    if b == ENTRY {
      c.StrictAbove(d, b);
    } else {
      c.Tree(b);
      var e := c.idom[b];
      StrictDomIsDomIdom(c.g, d, b, e);
      if d != e {
        c.MakeStrict(d, e);
        WalkedAbove(c, walked, d, e);
      }
    }
  }

  // ---------------------------------------------------------------- replacing one more load

  /** Replacing a result leaves the values of stores that cannot use it. */
  lemma {:induction false} AfterStable(c: Promotion, b: Block, inn: Slots, sub: map<Reg, Value>, r: Reg, v: Value, k: nat)
    requires c.Base() && b < |c.f| && k <= |c.f[b].body| && r in c.sites
    requires forall j :: 0 <= j < k ==> !Before(c.g, c.sites[r], b, j)
    ensures After(c.f[b].body, inn, sub[r := v], k) == After(c.f[b].body, inn, sub, k)
  {
    hide Dom, StrictDom, DomTree, Closed, Before;
    if k > 0 {
      AfterStable(c, b, inn, sub, r, v, k - 1);
      var w := c.f[b].body[k - 1];
      if w.Store? && w.ptr.Slot? {
        assert UsesAvailable(c.g, c.f, c.sites, b, k - 1) && Uses(w)[0] == w.val;
        assert SiteOf(c.f, c.sites, c.sites[r].0, c.sites[r].1);
        assert w.val != Res(r);
      }
    }
  }

  lemma ResolvedStable(c: Promotion, b: Block, inn: Slots, sub: map<Reg, Value>, r: Reg, v: Value, i: nat)
    requires c.Base() && b < |c.f| && i < |c.f[b].body| && r in c.sites && r !in sub && c.sites[r] != (b, i)
    requires forall j :: 0 <= j < i ==> !Before(c.g, c.sites[r], b, j)
    requires LoadResolved(c.f[b].body, inn, sub, i)
    ensures LoadResolved(c.f[b].body, inn, sub[r := v], i)
  {
    hide Dom, StrictDom, DomTree, Closed, Before;
    AfterStable(c, b, inn, sub, r, v, i);
    assert SiteOf(c.f, c.sites, b, i);
  }

  ghost function WithSub(c: Promotion, r: Reg, v: Value): Promotion {
    c.(ren := c.ren.(sub := c.ren.sub[r := v]))
  }

  lemma NotBeforeWalked(c: Promotion, walked: set<Block>, bb: Block, i: nat, b: Block, j: nat)
    requires Partial(c, walked) && bb < |c.f| && bb !in walked && b in walked
    ensures !Before(c.g, (bb, i), b, j)
  {
    hide Dom, StrictDom, BlockConsistent, AllSolid;
    if StrictDom(c.g, bb, b) {
      assert Rooted(c, walked, b);
      WalkedAbove(c, walked, bb, b);
    }
  }

  lemma ConsistentStable(c: Promotion, walked: set<Block>, bb: Block, i: nat, v: Value, b: Block)
    requires Partial(c, walked) && bb < |c.f| && bb !in walked && i < |c.f[bb].body|
    requires LoadsSlot(c.f[bb].body[i]) && c.f[bb].body[i].dest !in c.ren.sub && b in walked
    ensures var c' := WithSub(c, c.f[bb].body[i].dest, v); BlockConsistent(c'.f, c'.idom, c'.place, c'.ren, b)
  {
    hide Dom, StrictDom, AllSolid, Before, DomTree, Closed;
    var r := c.f[bb].body[i].dest;
    assert SiteOf(c.f, c.sites, bb, i);
    var c' := WithSub(c, r, v);
    assert BlockConsistent(c.f, c.idom, c.place, c.ren, b);
    forall j
      ensures !Before(c.g, (bb, i), b, j)
    {
      NotBeforeWalked(c, walked, bb, i, b, j);
    }
    AfterStable(c, b, c.ren.inn[b], c.ren.sub, r, v, |c.f[b].body|);
    forall k | 0 <= k < |c.f[b].body|
      ensures LoadResolved(c.f[b].body, c.ren.inn[b], c'.ren.sub, k)
    {
      assert LoadResolved(c.f[b].body, c.ren.inn[b], c.ren.sub, k);
      ResolvedStable(c, b, c.ren.inn[b], c.ren.sub, r, v, k);
    }
    forall x
      ensures EntryValue(c.place, c'.ren.inn[b], Above(c'.idom, c'.ren, b), b, x)
    {
      assert EntryValue(c.place, c.ren.inn[b], Above(c.idom, c.ren, b), b, x);
    }
  }

  lemma GoesSame(c: Promotion, c': Promotion)
    requires c' == c.(ren := c'.ren)
    ensures forall r :: Goes(c', r) == Goes(c, r)
    ensures forall cur {:trigger AllSolid(c', cur)} :: AllSolid(c, cur) ==> AllSolid(c', cur)
  {
    hide DefinedAt;
  }

  lemma ReplacedMore(c: Promotion, walked: set<Block>, bb: Block, i: nat, v: Value)
    requires c.Base() && bb < |c.f| && bb !in walked && i < |c.f[bb].body|
    requires Replaced(c, walked, bb, i) && LoadsSlot(c.f[bb].body[i]) && Goes(c, c.f[bb].body[i].dest) && Solid(c, v)
    ensures var r := c.f[bb].body[i].dest;
      r !in c.ren.sub && c.sites[r] == (bb, i) && Replaced(WithSub(c, r, v), walked, bb, i + 1)
  {
    hide Dom, StrictDom, DomTree, Closed, Goes;
    var r := c.f[bb].body[i].dest;
    assert SiteOf(c.f, c.sites, bb, i);
    GoesSame(c, WithSub(c, r, v));
  }

  lemma ReplaceLoad(c: Promotion, walked: set<Block>, bb: Block, i: nat, v: Value)
    requires Partial(c, walked) && bb < |c.f| && bb !in walked && i < |c.f[bb].body|
    requires Replaced(c, walked, bb, i) && LoadsSlot(c.f[bb].body[i]) && Goes(c, c.f[bb].body[i].dest) && Solid(c, v)
    ensures var r := c.f[bb].body[i].dest;
      r !in c.ren.sub && c.sites[r] == (bb, i) &&
      Partial(WithSub(c, r, v), walked) && Replaced(WithSub(c, r, v), walked, bb, i + 1)
  {
    hide Dom, StrictDom, Before, DomTree, Closed, BlockConsistent, Goes, Replaced, AllSolid, SourceForm;
    ReplacedMore(c, walked, bb, i, v);
    var r := c.f[bb].body[i].dest;
    GoesSame(c, WithSub(c, r, v));
    forall b | b in walked
      ensures BlockConsistent(c.f, c.idom, c.place, WithSub(c, r, v).ren, b)
      ensures Rooted(WithSub(c, r, v), walked, b)
      ensures AllSolid(WithSub(c, r, v), WithSub(c, r, v).ren.out[b])
    {
      ConsistentStable(c, walked, bb, i, v, b);
      assert Rooted(c, walked, b) && AllSolid(c, c.ren.out[b]);
    }
  }

  // ---------------------------------------------------------------- the block being walked

  /** inn has values for exactly the slots that are defined where bb begins. */
  ghost predicate EntryExact(c: Promotion, bb: Block, inn: Slots) {
    forall x {:trigger x in inn} {:trigger DefinedIn(c.g, c.f, c.place, bb, x)} :: x in inn <==> DefinedIn(c.g, c.f, c.place, bb, x)
  }

  /** cur are the values before instruction i of bb, which begins with inn. */
  ghost predicate Walking(c: Promotion, bb: Block, inn: Slots, i: nat, cur: Slots) {
    && bb < |c.f| && i <= |c.f[bb].body| && EntryExact(c, bb, inn)
    && cur == After(c.f[bb].body, inn, c.ren.sub, i)
    && AllSolid(c, cur)
    && (forall j {:trigger LoadResolved(c.f[bb].body, inn, c.ren.sub, j)} ::
          0 <= j < i ==> LoadResolved(c.f[bb].body, inn, c.ren.sub, j))
  }

  /** The current values are those of the slots that are defined here. */
  lemma WalkKeys(c: Promotion, bb: Block, inn: Slots, i: nat, cur: Slots, x: nat)
    requires Walking(c, bb, inn, i, cur)
    ensures x in cur <==> DefinedAt(c.g, c.f, c.place, bb, i, x)
  {
    hide DefinedIn, StoredBefore, LoadResolved;
    AfterKeys(c.f[bb].body, inn, c.ren.sub, i, x);
    assert x in inn <==> DefinedIn(c.g, c.f, c.place, bb, x);
  }

  /** A load goes iff its slot has a value. */
  lemma LoadGoes(c: Promotion, bb: Block, inn: Slots, i: nat, cur: Slots)
    requires c.Base() && Walking(c, bb, inn, i, cur) && i < |c.f[bb].body| && LoadsSlot(c.f[bb].body[i])
    ensures Goes(c, c.f[bb].body[i].dest) <==> c.f[bb].body[i].ptr.x in cur
  {
    hide Dom, StrictDom, DefinedAt, DomTree, Closed;
    assert SiteOf(c.f, c.sites, bb, i);
    WalkKeys(c, bb, inn, i, cur, c.f[bb].body[i].ptr.x);
  }

  lemma WalkLoad(c: Promotion, walked: set<Block>, bb: Block, inn: Slots, i: nat, cur: Slots)
    requires Partial(c, walked) && bb !in walked && Replaced(c, walked, bb, i) && Walking(c, bb, inn, i, cur)
    requires i < |c.f[bb].body| && LoadsSlot(c.f[bb].body[i]) && c.f[bb].body[i].ptr.x in cur
    ensures var w := c.f[bb].body[i];
      Walking(WithSub(c, w.dest, cur[w.ptr.x]), bb, inn, i + 1, cur)
  {
    hide Dom, StrictDom, DomTree, Closed, BlockConsistent, DefinedAt, DefinedIn;
    var w := c.f[bb].body[i];
    var c' := WithSub(c, w.dest, cur[w.ptr.x]);
    assert SiteOf(c.f, c.sites, bb, i);
    c.NotStrictSelf(bb);
    AfterStable(c, bb, inn, c.ren.sub, w.dest, cur[w.ptr.x], i);
    forall j | 0 <= j < i
      ensures LoadResolved(c.f[bb].body, inn, c'.ren.sub, j)
    {
      assert LoadResolved(c.f[bb].body, inn, c.ren.sub, j);
      ResolvedStable(c, bb, inn, c.ren.sub, w.dest, cur[w.ptr.x], j);
    }
    assert LoadResolved(c.f[bb].body, inn, c'.ren.sub, i);
  }

  /** A load that finds no value stays. */
  lemma WalkMissing(c: Promotion, walked: set<Block>, bb: Block, inn: Slots, i: nat, cur: Slots)
    requires c.Base() && bb !in walked && Replaced(c, walked, bb, i) && Walking(c, bb, inn, i, cur)
    requires i < |c.f[bb].body| && LoadsSlot(c.f[bb].body[i]) && c.f[bb].body[i].ptr.x !in cur
    ensures Walking(c, bb, inn, i + 1, cur) && Replaced(c, walked, bb, i + 1)
  {
    hide Dom, StrictDom, DomTree, Closed, DefinedAt, DefinedIn;
    assert SiteOf(c.f, c.sites, bb, i);
    assert LoadResolved(c.f[bb].body, inn, c.ren.sub, i);
  }

  /** A stored value has been resolved by the time the store is reached. */
  lemma StoredSolid(c: Promotion, walked: set<Block>, bb: Block, inn: Slots, i: nat, cur: Slots)
    requires Partial(c, walked) && Rooted(c, walked, bb) && Replaced(c, walked, bb, i) && Walking(c, bb, inn, i, cur)
    requires i < |c.f[bb].body| && c.f[bb].body[i].Store?
    ensures Solid(c, Subst(c.ren.sub, c.f[bb].body[i].val))
  {
    hide Dom, StrictDom, DomTree, Closed, DefinedAt, DefinedIn, StoredBefore, EntryValue;
    var v := c.f[bb].body[i].val;
    assert UsesAvailable(c.g, c.f, c.sites, bb, i) && Uses(c.f[bb].body[i])[0] == v;
    if v.Res? && Goes(c, v.r) {
      var (d, j) := c.sites[v.r];
      assert Dest(c.f[d].body[j]) == Some(v.r);
      var x := c.f[d].body[j].ptr.x;
      if d == bb && j < i {
        assert LoadResolved(c.f[bb].body, inn, c.ren.sub, j);
        AfterKeys(c.f[bb].body, inn, c.ren.sub, j, x);
        assert x in inn <==> DefinedIn(c.g, c.f, c.place, bb, x);
        DefinedAtIs(c, bb, j, x);
      } else {
        WalkedAbove(c, walked, d, bb);
        assert BlockConsistent(c.f, c.idom, c.place, c.ren, d);
        assert LoadResolved(c.f[d].body, c.ren.inn[d], c.ren.sub, j);
        PartialIsUpper(c, walked);
        KeysAt(c, walked, d, j, x);
      }
      assert v.r in c.ren.sub;
    }
  }

  lemma DefinedAtIs(c: Promotion, b: Block, i: nat, x: nat)
    requires b < |c.f| && i <= |c.f[b].body|
    ensures DefinedAt(c.g, c.f, c.place, b, i, x) <==> DefinedIn(c.g, c.f, c.place, b, x) || StoredBefore(c.f[b].body, i, x)
  {
  }

  lemma WalkOther(c: Promotion, walked: set<Block>, bb: Block, inn: Slots, i: nat, cur: Slots)
    requires Partial(c, walked) && Rooted(c, walked, bb) && Replaced(c, walked, bb, i) && Walking(c, bb, inn, i, cur)
    requires i < |c.f[bb].body| && !LoadsSlot(c.f[bb].body[i])
    ensures var w := c.f[bb].body[i];
      Walking(c, bb, inn, i + 1, if w.Store? && w.ptr.Slot? then cur[w.ptr.x := Subst(c.ren.sub, w.val)] else cur)
    ensures Replaced(c, walked, bb, i + 1)
  {
    hide Dom, StrictDom, DomTree, Closed, BlockConsistent, Partial, DefinedAt, DefinedIn;
    if c.f[bb].body[i].Store? {
      StoredSolid(c, walked, bb, inn, i, cur);
    }
    assert LoadResolved(c.f[bb].body, inn, c.ren.sub, i);
  }

  ghost function WithBlock(c: Promotion, bb: Block, inn: Slots, out: Slots): Promotion {
    c.(ren := c.ren.(inn := c.ren.inn[bb := inn], out := c.ren.out[bb := out]))
  }

  lemma WalkDone(c: Promotion, walked: set<Block>, bb: Block, inn: Slots, cur: Slots)
    requires Partial(c, walked) && bb !in walked && Rooted(c, walked, bb) && bb < |c.f|
    requires Walking(c, bb, inn, |c.f[bb].body|, cur) && Replaced(c, walked, bb, |c.f[bb].body|)
    requires forall x {:trigger EntryValue(c.place, inn, Above(c.idom, c.ren, bb), bb, x)} ::
      EntryValue(c.place, inn, Above(c.idom, c.ren, bb), bb, x)
    ensures Partial(WithBlock(c, bb, inn, cur), walked + {bb})
    ensures Replaced(WithBlock(c, bb, inn, cur), walked + {bb}, 0, 0)
  {
    hide Dom, StrictDom, DomTree, Closed, SourceForm, BlockConsistent, AllSolid, DefinedAt, DefinedIn;
    var c' := WithBlock(c, bb, inn, cur);
    forall b | b in walked + {bb}
      ensures BlockConsistent(c'.f, c'.idom, c'.place, c'.ren, b)
      ensures Rooted(c', walked + {bb}, b) && AllSolid(c', c'.ren.out[b])
    {
      if b == bb {
        NewBlockConsistent(c, walked, bb, inn, cur);
      } else {
        assert Rooted(c, walked, b) && AllSolid(c, c.ren.out[b]);
        OldBlockConsistent(c, walked, bb, inn, cur, b);
        SolidSame(c, c', c.ren.out[b]);
      }
    }
    BaseSize(c);
    BaseSame(c, c');
  }

  lemma BaseSame(c: Promotion, c': Promotion)
    requires c' == c.(ren := c'.ren) && c.Base()
    ensures c'.Base()
  {
    hide Dom, StrictDom;
  }

  lemma SolidSame(c: Promotion, c': Promotion, cur: Slots)
    requires c' == c.(ren := c'.ren) && AllSolid(c, cur)
    ensures AllSolid(c', cur)
  {
  }

  lemma NewBlockConsistent(c: Promotion, walked: set<Block>, bb: Block, inn: Slots, cur: Slots)
    requires Partial(c, walked) && bb !in walked && Rooted(c, walked, bb) && bb < |c.f|
    requires Walking(c, bb, inn, |c.f[bb].body|, cur)
    requires forall x {:trigger EntryValue(c.place, inn, Above(c.idom, c.ren, bb), bb, x)} ::
      EntryValue(c.place, inn, Above(c.idom, c.ren, bb), bb, x)
    ensures var c' := WithBlock(c, bb, inn, cur);
      BlockConsistent(c'.f, c'.idom, c'.place, c'.ren, bb) && AllSolid(c', c'.ren.out[bb])
  {
    hide Dom, StrictDom, DomTree, Closed, SourceForm;
    var c' := WithBlock(c, bb, inn, cur);
    AboveSame(c, walked, bb, inn, cur, bb);
    forall x
      ensures EntryValue(c'.place, c'.ren.inn[bb], Above(c'.idom, c'.ren, bb), bb, x)
    {
      assert EntryValue(c.place, inn, Above(c.idom, c.ren, bb), bb, x);
    }
    forall i | 0 <= i < |c.f[bb].body|
      ensures LoadResolved(c.f[bb].body, c'.ren.inn[bb], c'.ren.sub, i)
    {
      assert LoadResolved(c.f[bb].body, inn, c.ren.sub, i);
    }
  }

  lemma OldBlockConsistent(c: Promotion, walked: set<Block>, bb: Block, inn: Slots, cur: Slots, b: Block)
    requires Partial(c, walked) && bb !in walked && b in walked
    ensures var c' := WithBlock(c, bb, inn, cur); BlockConsistent(c'.f, c'.idom, c'.place, c'.ren, b)
  {
    hide Dom, StrictDom, DomTree, Closed, SourceForm;
    var c' := WithBlock(c, bb, inn, cur);
    assert BlockConsistent(c.f, c.idom, c.place, c.ren, b) && Rooted(c, walked, b);
    AboveSame(c, walked, bb, inn, cur, b);
    forall x
      ensures EntryValue(c'.place, c'.ren.inn[b], Above(c'.idom, c'.ren, b), b, x)
    {
      assert EntryValue(c.place, c.ren.inn[b], Above(c.idom, c.ren, b), b, x);
    }
    forall i | 0 <= i < |c.f[b].body|
      ensures LoadResolved(c.f[b].body, c'.ren.inn[b], c'.ren.sub, i)
    {
      assert LoadResolved(c.f[b].body, c.ren.inn[b], c.ren.sub, i);
    }
  }

  lemma AboveSame(c: Promotion, walked: set<Block>, bb: Block, inn: Slots, cur: Slots, b: Block)
    requires Partial(c, walked) && bb !in walked && (b in walked || b == bb) && Rooted(c, walked, b)
    ensures Above(c.idom, WithBlock(c, bb, inn, cur).ren, b) == Above(c.idom, c.ren, b)
  {
    hide Dom, StrictDom, DomTree, Closed, SourceForm, BlockConsistent;
  }
}
