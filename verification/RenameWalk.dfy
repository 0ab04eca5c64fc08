/** The steps of the renaming walk: entering a block, its instructions, its
    edges, and the subtrees below it. The walk of a child leaves its siblings,
    the values at the ends of blocks already walked and all stacks alone; when
    the tree is walked, what is left is a promoted function. */
module RenameWalk {
  import opened Cfg
  import opened PostOrder
  import opened Arithmetic
  import opened Ir
  import opened Ssa
  import opened SsaValues
  import opened Rename
  import opened RenameCode
  import opened Coverage

  // ---------------------------------------------------------------- the phis of a block as values

  /** inn after the first k phis of bb have been pushed on the values above. */
  ghost predicate PushedPhi(phis: seq<Phi>, bb: Block, k: nat, above: Slots, inn: Slots, x: nat)
    requires k <= |phis|
  {
    if exists j :: 0 <= j < k && phis[j].lval == x
    then x in inn && exists j :: 0 <= j < k && phis[j].lval == x && inn[x] == Res(phis[j].dest)
    else SameAt(inn, above, x)
  }

  ghost predicate AllPushed(phis: seq<Phi>, bb: Block, k: nat, above: Slots, inn: Slots)
    requires k <= |phis|
  {
    forall x: nat {:trigger PushedPhi(phis, bb, k, above, inn, x)} :: PushedPhi(phis, bb, k, above, inn, x)
  }

  lemma NonePushed(phis: seq<Phi>, bb: Block, above: Slots)
    ensures AllPushed(phis, bb, 0, above, above)
  {
  }

  lemma PushedNext(phis: seq<Phi>, bb: Block, k: nat, above: Slots, inn: Slots)
    requires k < |phis| && AllPushed(phis, bb, k, above, inn)
    ensures AllPushed(phis, bb, k + 1, above, inn[phis[k].lval := Res(phis[k].dest)])
  {
    var inn', n := inn[phis[k].lval := Res(phis[k].dest)], k + 1;
    forall x: nat
      ensures PushedPhi(phis, bb, n, above, inn', x)
    {
      assert PushedPhi(phis, bb, k, above, inn, x);
    }
  }

  lemma EntryFromPhis(c: Promotion, walked: set<Block>, finished: set<Block>, blocks: Func, bb: Block, inn: Slots)
    requires Renamed(c, walked, finished, blocks) && bb < |c.f| == |blocks| && Rooted(c, walked, bb)
    requires AllPushed(blocks[bb].phis, bb, |blocks[bb].phis|, Above(c.idom, c.ren, bb), inn)
    ensures forall x {:trigger EntryValue(c.place, inn, Above(c.idom, c.ren, bb), bb, x)} ::
      EntryValue(c.place, inn, Above(c.idom, c.ren, bb), bb, x)
    ensures AllSolid(c, inn)
  {
    hide Dom, StrictDom, BlockConsistent, Replaced, PartlyFilled;
    var phis, above := blocks[bb].phis, Above(c.idom, c.ren, bb);
    CodeOf(c, walked, finished, blocks, bb);
    forall x: nat
      ensures EntryValue(c.place, inn, above, bb, x)
      ensures x in inn ==> Solid(c, inn[x])
    {
      assert PushedPhi(phis, bb, |phis|, above, inn, x);
      if (bb, x) in c.place {
        var k :| 0 <= k < |phis| && phis[k].lval == x;
        PhiIsSolid(c, bb, x);
      } else if x in inn {
        assert AllSolid(c, c.ren.out[c.idom[bb]]);
      }
    }
  }

  lemma SitesAreTemps(c: Promotion, r: Reg)
    requires c.Base() && r in c.sites
    ensures r.Temp?
  {
    hide Dom, StrictDom;
    assert SiteOf(c.f, c.sites, c.sites[r].0, c.sites[r].1);
  }

  lemma PhiIsSolid(c: Promotion, b: Block, x: nat)
    requires c.Base()
    ensures Solid(c, Res(PhiOf(b, x)))
  {
    hide Dom, StrictDom;
    if PhiOf(b, x) in c.sites {
      SitesAreTemps(c, PhiOf(b, x));
    }
  }

  ghost predicate SamePhis(was: Func, now: Func) {
    |now| == |was| && forall b {:trigger now[b]} :: 0 <= b < |now| ==> now[b].phis == was[b].phis
  }

  lemma SamePhisTrans(a: Func, b: Func, c: Func)
    requires SamePhis(a, b) && SamePhis(b, c)
    ensures SamePhis(a, c)
  {
    forall k | 0 <= k < |c|
      ensures c[k].phis == a[k].phis
    {
      assert c[k].phis == b[k].phis;
    }
  }

  /** The positions below n that a walk has marked for deletion. */
  ghost predicate DeletesSlots(gone: set<Reg>, body: seq<Instr>, n: nat, dead: set<nat>) {
    n <= |body| && forall i: nat :: i in dead <==> i < n && Deleted(gone, body[i])
  }

  lemma EntryIsExact(c: Promotion, walked: set<Block>, bb: Block, inn: Slots)
    requires Partial(c, walked) && bb < |c.f| && Rooted(c, walked, bb)
    requires forall x {:trigger EntryValue(c.place, inn, Above(c.idom, c.ren, bb), bb, x)} ::
      EntryValue(c.place, inn, Above(c.idom, c.ren, bb), bb, x)
    ensures EntryExact(c, bb, inn)
  {
    hide Dom, StrictDom, Partial, DefinedIn;
    PartialIsUpper(c, walked);
    forall x: nat
      ensures x in inn <==> DefinedIn(c.g, c.f, c.place, bb, x)
    {
      assert EntryValue(c.place, inn, Above(c.idom, c.ren, bb), bb, x);
      EntryKeys(c, walked, bb, inn, x);
    }
  }

  /** Before instruction i of block bb: the code, and the stacks, which have grown
      by the definitions of the block so far. */
  ghost predicate InWalk(c: Promotion, walked: set<Block>, finished: set<Block>, blocks: Func, st: Stacks,
                         bb: Block, inn: Slots, saved: Stacks, defs: seq<Option<nat>>, i: nat, cur: Slots)
  {
    && InBlock(c, walked, finished, blocks, bb, inn, i, cur)
    && KeysIn(c, walked, bb, i, st)
    && Tops(st, cur)
    && DefsEnd(defs, c.f[bb].body)
    && Grown(saved, st, defs, 0, |defs| - |c.f[bb].body| + i)
  }

  /** defs ends with the definitions of body. */
  ghost predicate DefsEnd(defs: seq<Option<nat>>, body: seq<Instr>) {
    && |body| <= |defs|
    && forall j :: 0 <= j < |body| ==> defs[|defs| - |body| + j] == if StoresSlot(body[j]) then Some(body[j].ptr.x) else None
  }

  lemma WalkBounds(c: Promotion, walked: set<Block>, finished: set<Block>, blocks: Func, st: Stacks,
                   bb: Block, inn: Slots, saved: Stacks, defs: seq<Option<nat>>, i: nat, cur: Slots)
    requires InWalk(c, walked, finished, blocks, st, bb, inn, saved, defs, i, cur)
    ensures bb < |c.f| == |blocks| && |blocks[bb].body| == |c.f[bb].body|
  {
    hide InBlock, KeysIn;
    BlockAt(c, walked, finished, blocks, bb, inn, i, cur);
  }

  lemma InstrAt(c: Promotion, walked: set<Block>, finished: set<Block>, blocks: Func, st: Stacks,
                bb: Block, inn: Slots, saved: Stacks, defs: seq<Option<nat>>, i: nat, cur: Slots)
    requires InWalk(c, walked, finished, blocks, st, bb, inn, saved, defs, i, cur)
    requires bb < |blocks| && i < |blocks[bb].body|
    ensures bb < |c.f| && i < |c.f[bb].body| && blocks[bb].body[i] == SubstInstr(c.ren.sub, c.f[bb].body[i])
  {
    hide InBlock, KeysIn;
    BlockAt(c, walked, finished, blocks, bb, inn, i, cur);
  }

  /** What a load finds: the value of its slot on top, no stack, or an empty one. */
  lemma LoadLooks(c: Promotion, walked: set<Block>, finished: set<Block>, blocks: Func, st: Stacks,
                   bb: Block, inn: Slots, saved: Stacks, defs: seq<Option<nat>>, i: nat, cur: Slots)
    requires InWalk(c, walked, finished, blocks, st, bb, inn, saved, defs, i, cur)
    requires bb < |blocks| && i < |blocks[bb].body| && LoadsSlot(blocks[bb].body[i])
    ensures bb < |c.f| && i < |c.f[bb].body| && LoadsSlot(c.f[bb].body[i])
    ensures var w := c.f[bb].body[i];
      && blocks[bb].body[i] == w && (w.dest in GoneOf(c) <==> w.ptr.x in cur)
      && (w.ptr.x in cur <==> w.ptr.x in st && st[w.ptr.x] != [])
      && (w.ptr.x in cur ==> cur[w.ptr.x] == st[w.ptr.x][|st[w.ptr.x]| - 1])
      && (w.ptr.x in st && st[w.ptr.x] == [] <==> StaleLoad(c.g, c.f, c.place, walked, bb, i))
  {
    hide InBlock, Pushed, Goes, DefinedAt, KeysIn;
    InstrAt(c, walked, finished, blocks, st, bb, inn, saved, defs, i, cur);
    InBlockParts(c, walked, finished, blocks, bb, inn, i, cur);
    var x := c.f[bb].body[i].ptr.x;
    LoadGoes(c, bb, inn, i, cur);
    LoadIsSite(c, bb, i);
    WalkKeys(c, bb, inn, i, cur, x);
    assert x in cur <==> Stack(st, x) != [];
    if x !in cur {
      LooksIn(c, walked, bb, i, st, x);
    }
  }

  lemma LoadIsSite(c: Promotion, b: Block, i: nat)
    requires c.Base() && b < |c.f| && i < |c.f[b].body| && LoadsSlot(c.f[b].body[i])
    ensures c.f[b].body[i].dest in c.sites
  {
    hide Dom, StrictDom;
    assert SiteOf(c.f, c.sites, b, i);
  }

  /** Of a slot that is not defined here there is a stack iff a block walked before
      has made it. */
  lemma LooksIn(c: Promotion, walked: set<Block>, bb: Block, i: nat, st: Stacks, x: nat)
    requires bb < |c.f| && i <= |c.f[bb].body| && KeysIn(c, walked, bb, i, st) && !DefinedAt(c.g, c.f, c.place, bb, i, x)
    ensures x in st <==> Pushed(c.f, c.place, walked, x)
  {
    hide Pushed;
  }

  lemma LoadStep(c: Promotion, walked: set<Block>, finished: set<Block>, blocks: Func, st: Stacks,
                 bb: Block, inn: Slots, saved: Stacks, defs: seq<Option<nat>>, i: nat, cur: Slots, blocks': Func)
    requires InWalk(c, walked, finished, blocks, st, bb, inn, saved, defs, i, cur)
    requires bb < |c.f| && i < |c.f[bb].body| && LoadsSlot(c.f[bb].body[i]) && c.f[bb].body[i].ptr.x in cur
    requires |blocks'| == |blocks|
    requires var w := c.f[bb].body[i];
      forall b {:trigger blocks'[b]} :: 0 <= b < |blocks| ==> blocks'[b] == ReplaceIn(w.dest, cur[w.ptr.x], blocks[b])
    ensures var w := c.f[bb].body[i];
      InWalk(WithSub(c, w.dest, cur[w.ptr.x]), walked, finished, blocks', st, bb, inn, saved, defs, i + 1, cur)
    ensures SamePhis(blocks, blocks')
  {
    hide InBlock, KeysIn;
    PassLoad(c, walked, finished, blocks, bb, inn, i, cur, blocks');
    GrownSkip(saved, st, defs, |defs| - |c.f[bb].body| + i);
    KeysStep(c, walked, bb, i, st, Const(0));
    KeysSame(c, WithSub(c, c.f[bb].body[i].dest, cur[c.f[bb].body[i].ptr.x]), walked, bb, i + 1, st);
  }

  lemma KeysSame(c: Promotion, c': Promotion, walked: set<Block>, bb: Block, i: nat, st: Stacks)
    requires c' == c.(ren := c'.ren) && bb < |c.f| && i <= |c.f[bb].body| && KeysIn(c, walked, bb, i, st)
    ensures KeysIn(c', walked, bb, i, st)
  {
    hide Pushed;
  }

  /** A load that finds no stack is passed over. */
  lemma LoadStays(c: Promotion, walked: set<Block>, finished: set<Block>, blocks: Func, st: Stacks,
                  bb: Block, inn: Slots, saved: Stacks, defs: seq<Option<nat>>, i: nat, cur: Slots)
    requires InWalk(c, walked, finished, blocks, st, bb, inn, saved, defs, i, cur)
    requires bb < |c.f| && i < |c.f[bb].body| && LoadsSlot(c.f[bb].body[i]) && c.f[bb].body[i].ptr.x !in cur
    ensures InWalk(c, walked, finished, blocks, st, bb, inn, saved, defs, i + 1, cur)
  {
    hide InBlock, KeysIn;
    PassMissing(c, walked, finished, blocks, bb, inn, i, cur);
    GrownSkip(saved, st, defs, |defs| - |c.f[bb].body| + i);
    KeysStep(c, walked, bb, i, st, Const(0));
  }

  lemma OtherStep(c: Promotion, walked: set<Block>, finished: set<Block>, blocks: Func, st: Stacks,
                  bb: Block, inn: Slots, saved: Stacks, defs: seq<Option<nat>>, i: nat, cur: Slots)
    requires InWalk(c, walked, finished, blocks, st, bb, inn, saved, defs, i, cur)
    requires bb < |c.f| && i < |c.f[bb].body| && !LoadsSlot(c.f[bb].body[i])
    ensures var w, v := c.f[bb].body[i], SubstInstr(c.ren.sub, c.f[bb].body[i]);
      if StoresSlot(w)
      then InWalk(c, walked, finished, blocks, Push(st, w.ptr.x, v.val), bb, inn, saved, defs, i + 1, cur[w.ptr.x := v.val])
      else InWalk(c, walked, finished, blocks, st, bb, inn, saved, defs, i + 1, cur)
  {
    hide InBlock, KeysIn;
    KeysStep(c, walked, bb, i, st, Subst(c.ren.sub, if StoresSlot(c.f[bb].body[i]) then c.f[bb].body[i].val else Const(0)));
    PassOther(c, walked, finished, blocks, bb, inn, i, cur);
    var n := |defs| - |c.f[bb].body| + i;
    var w := c.f[bb].body[i];
    if StoresSlot(w) {
      PushGrows(saved, st, defs, n, cur, Subst(c.ren.sub, w.val));
    } else {
      GrownSkip(saved, st, defs, n);
    }
  }

  lemma BlockAt(c: Promotion, walked: set<Block>, finished: set<Block>, blocks: Func, bb: Block, inn: Slots, i: nat, cur: Slots)
    requires InBlock(c, walked, finished, blocks, bb, inn, i, cur)
    ensures |blocks| == |c.f| && bb < |c.f| && blocks[bb].body == MapInstrs(c.ren.sub, c.f[bb].body)
    ensures |blocks[bb].body| == |c.f[bb].body| && i <= |c.f[bb].body|
  {
    hide Partial, Replaced, Rooted;
    CodeOf(c, walked, finished, blocks, bb);
  }

  lemma GrownSkip(saved: Stacks, st: Stacks, defs: seq<Option<nat>>, hi: nat)
    requires hi < |defs| && Grown(saved, st, defs, 0, hi) && defs[hi].None?
    ensures Grown(saved, st, defs, 0, hi + 1)
  {
    forall x: nat
      ensures Stack(saved, x) <= Stack(st, x) && |Stack(st, x)| == |Stack(saved, x)| + Count(defs, 0, hi + 1, x)
    {
      assert Stack(saved, x) <= Stack(st, x);
    }
  }

  // ---------------------------------------------------------------- subtrees

  /** The blocks below some of the children of a block. */
  ghost function Below(g: Graph, kids: set<Block>): set<Block> {
    set b: Block | b < g.Size() && IsBelow(g, kids, b)
  }

  ghost predicate IsBelow(g: Graph, kids: set<Block>, b: Block) {
    exists k :: k in kids && b in Subtree(g, k)
  }

  ghost predicate IsChild(c: Promotion, bb: Block, k: Block) {
    k < |c.f| && k != ENTRY && k in c.idom && c.idom[k] == bb
  }

  /** Different children have disjoint subtrees, not holding the parent. */
  lemma ChildrenApart(c: Promotion, bb: Block, k: Block, l: Block)
    requires c.Base() && bb < |c.f| && IsChild(c, bb, k) && IsChild(c, bb, l) && k != l
    ensures Subtree(c.g, k) !! Subtree(c.g, l)
  {
    hide Dom, StrictDom;
    BaseSize(c);
    if b :| b in Subtree(c.g, k) && b in Subtree(c.g, l) {
      DomChain(c.g, k, l, b);
      if Dom(c.g, k, l) {
        NoDomSibling(c, bb, k, l);
      } else {
        NoDomSibling(c, bb, l, k);
      }
    }
  }

  lemma NoDomSibling(c: Promotion, bb: Block, k: Block, l: Block)
    requires c.Base() && bb < |c.f| && IsChild(c, bb, k) && IsChild(c, bb, l) && k != l
    ensures !Dom(c.g, k, l)
  {
    hide Dom, StrictDom;
    BaseSize(c);
    c.Tree(k);
    c.Tree(l);
    if Dom(c.g, k, l) {
      c.MakeStrict(k, l);
      StrictDomIsDomIdom(c.g, k, l, bb);
      StrictDomIsDomIdom(c.g, bb, k, bb);
      DomRefl(c.g, bb);
      c.StrictIsDom(c.g, bb, k);
      DomAntisym(c.g, k, bb);
    }
  }

  lemma ChildBelow(c: Promotion, bb: Block, k: Block)
    requires c.Base() && bb < |c.f| && IsChild(c, bb, k)
    ensures Subtree(c.g, k) <= Subtree(c.g, bb) && bb !in Subtree(c.g, k) && k in Subtree(c.g, k)
  {
    hide Dom, StrictDom;
    BaseSize(c);
    c.Tree(k);
    DomRefl(c.g, bb);
    DomRefl(c.g, k);
    StrictDomIsDomIdom(c.g, bb, k, bb);
    c.StrictIsDom(c.g, bb, k);
    forall b | b in Subtree(c.g, k)
      ensures Dom(c.g, bb, b)
    {
      DomTrans(c.g, bb, k, b);
    }
    if Dom(c.g, k, bb) {
      DomAntisym(c.g, bb, k);
    }
  }

  lemma {:induction false} ChildAbove(c: Promotion, bb: Block, b: Block) returns (k: Block)
    requires c.Base() && bb < |c.f| && b in Subtree(c.g, bb) && b != bb
    ensures IsChild(c, bb, k) && b in Subtree(c.g, k)
    decreases if b in c.ids && ENTRY in c.ids && c.ids[b] <= c.ids[ENTRY] then c.ids[ENTRY] - c.ids[b] else 0
  {
    hide Dom, StrictDom;
    BaseSize(c);
    if b == ENTRY {
      EntryDominates(c.g, bb);
      DomAntisym(c.g, bb, ENTRY);
    }
    c.Tree(b);
    c.MakeStrict(bb, b);
    StrictDomIsDomIdom(c.g, bb, b, c.idom[b]);
    if c.idom[b] == bb {
      k := b;
      DomRefl(c.g, b);
    } else {
      k := ChildAbove(c, bb, c.idom[b]);
      StrictDomIsDomIdom(c.g, k, b, c.idom[b]);
      c.StrictIsDom(c.g, k, b);
    }
  }

  /** A subtree is its root and the subtrees of the root's children. */
  lemma SubtreeIsChildren(c: Promotion, bb: Block, kids: set<Block>)
    requires c.Base() && bb < |c.f| && forall k :: k in kids <==> IsChild(c, bb, k)
    ensures Subtree(c.g, bb) == {bb} + Below(c.g, kids)
  {
    hide Dom, StrictDom;
    BaseSize(c);
    DomRefl(c.g, bb);
    forall b | b in Subtree(c.g, bb) && b != bb
      ensures b in Below(c.g, kids)
    {
      var k := ChildAbove(c, bb, b);
    }
    forall b | b in Below(c.g, kids)
      ensures b in Subtree(c.g, bb)
    {
      var k :| k in kids && b in Subtree(c.g, k);
      ChildBelow(c, bb, k);
    }
  }

  /** Behind the walks of some children, another child can come. */
  lemma ChildDescends(c: Promotion, w0: set<Block>, bb: Block, kids: set<Block>, k: Block)
    requires c.Base() && bb < |c.f| && bb in w0 && Descends(c.g, w0 - {bb}, bb)
    requires IsChild(c, bb, k) && forall l :: l in kids ==> IsChild(c, bb, l)
    ensures Descends(c.g, w0 + Below(c.g, kids), k)
  {
    hide Dom, StrictDom, Promotion.Base;
    ChildBelow(c, bb, k);
    forall w | w in w0 + Below(c.g, kids)
      ensures Dom(c.g, w, k) || Subtree(c.g, w) <= w0 + Below(c.g, kids)
    {
      if w in Below(c.g, kids) {
        var l :| l in kids && w in Subtree(c.g, l);
        forall b | b in Subtree(c.g, w)
          ensures b in Below(c.g, kids)
        {
          DomTrans(c.g, l, w, b);
          assert b in Subtree(c.g, l);
        }
      } else if w != bb && Dom(c.g, w, bb) {
        DomTrans(c.g, w, bb, k);
      } else if w != bb {
        assert Subtree(c.g, w) <= w0 - {bb};
      }
    }
  }

  // ---------------------------------------------------------------- what a walk leaves alone

  /** The values at the ends of the blocks of done stay. */
  ghost predicate KeepsValues(c: Promotion, c': Promotion, done: set<Block>) {
    && c' == c.(ren := c'.ren)
    && forall b {:trigger KeptAt(c, c', b)} :: b in done ==> KeptAt(c, c', b)
  }

  ghost predicate KeptAt(c: Promotion, c': Promotion, b: Block) {
    b in c.ren.out && b in c'.ren.out && c'.ren.out[b] == c.ren.out[b]
  }

  lemma KeepsRefl(c: Promotion, done: set<Block>)
    requires done <= c.ren.out.Keys
    ensures KeepsValues(c, c, done)
  {
  }

  lemma KeepsTrans(c0: Promotion, c: Promotion, c': Promotion, done: set<Block>, more: set<Block>)
    requires KeepsValues(c0, c, done) && KeepsValues(c, c', done + more)
    ensures KeepsValues(c0, c', done)
  {
    forall b | b in done
      ensures KeptAt(c0, c', b)
    {
      assert KeptAt(c0, c, b) && KeptAt(c, c', b);
    }
  }

  ghost predicate SameLvals(was: Func, now: Func) {
    |now| == |was| && forall b {:trigger now[b]} :: 0 <= b < |now| ==> Lvals(now[b].phis) == Lvals(was[b].phis)
  }

  lemma {:induction false} NoSlotsMap(gone: set<Reg>, sub: map<Reg, Value>, body: seq<Instr>)
    ensures NoSlots(gone, MapInstrs(sub, body)) == MapInstrs(sub, NoSlots(gone, body))
  {
    if body != [] {
      var n := |body| - 1;
      NoSlotsMap(gone, sub, body[..n]);
      assert MapInstrs(sub, body)[..n] == MapInstrs(sub, body[..n]);
      var w := body[n];
      var last := if Deleted(gone, w) then [] else [w];
      MapAppend(sub, NoSlots(gone, body[..n]), last);
      assert MapInstrs(sub, last) == if Deleted(gone, w) then [] else [SubstInstr(sub, w)];
    }
  }

  lemma SuccsDistinct(c: Promotion, bb: Block)
    requires c.Base() && bb < |c.f|
    ensures Distinct(c.g.succs[bb])
  {
    hide Dom, StrictDom, DomTree, Closed, SingleSites;
    assert c.g.succs[bb] == Targets(c.f[bb].term);
  }

  /** What the phis behind bb find at its end. */
  lemma EdgesLook(c: Promotion, walked: set<Block>, finished: set<Block>, blocks: Func, st: Stacks,
                  bb: Block, inn: Slots, saved: Stacks, defs: seq<Option<nat>>, cur: Slots)
    requires bb < |c.f| && InWalk(c, walked, finished, blocks, st, bb, inn, saved, defs, |c.f[bb].body|, cur)
    ensures c.g.WellFormed() && bb < c.g.Size() == |blocks| == |c.g.preds| == |c.f|
    ensures forall s, k :: s in c.g.succs[bb] && s < |blocks| && 0 <= k < |blocks[s].phis| ==>
              EmptyIsStale(c, walked, bb, s, st, blocks[s].phis[k].lval)
    ensures forall s, x :: s in c.g.succs[bb] && StaleEdge(c.g, c.f, c.place, walked, bb, s, x) ==>
              s < |blocks| && x in Lvals(blocks[s].phis)
  {
    hide Dom, StrictDom, DefinedAt, InBlock, Pushed, KeysIn;
    InBlockParts(c, walked, finished, blocks, bb, inn, |c.f[bb].body|, cur);
    BaseSize(c);
    BlockAt(c, walked, finished, blocks, bb, inn, |c.f[bb].body|, cur);
    forall s, k | s in c.g.succs[bb] && s < |blocks| && 0 <= k < |blocks[s].phis|
      ensures EmptyIsStale(c, walked, bb, s, st, blocks[s].phis[k].lval)
    {
      CodeOf(c, walked, finished, blocks, s);
      var x := blocks[s].phis[k].lval;
      WalkKeys(c, bb, inn, |c.f[bb].body|, cur, x);
      assert x in cur <==> Stack(st, x) != [];
      if x !in cur {
        LooksIn(c, walked, bb, |c.f[bb].body|, st, x);
      }
    }
    forall s, x | s in c.g.succs[bb] && StaleEdge(c.g, c.f, c.place, walked, bb, s, x)
      ensures s < |blocks| && x in Lvals(blocks[s].phis)
    {
      CodeOf(c, walked, finished, blocks, s);
      var k :| 0 <= k < |blocks[s].phis| && blocks[s].phis[k].lval == x;
      assert Lvals(blocks[s].phis)[k] == x;
    }
  }

  /** The stack of x is there and empty iff the edge to s fails. */
  ghost predicate EmptyIsStale(c: Promotion, walked: set<Block>, bb: Block, s: Block, st: Stacks, x: nat)
    requires bb < |c.f|
  {
    x in st && st[x] == [] <==> StaleEdge(c.g, c.f, c.place, walked, bb, s, x)
  }

  lemma PartialKeys(c: Promotion, walked: set<Block>)
    requires Partial(c, walked)
    ensures c.ren.out.Keys == walked && c.Base() && walked <= Blocks(c.g)
  {
    hide BlockConsistent, AllSolid, Rooted, Dom, StrictDom;
  }

  /** The state in front of the first instruction. */
  lemma StartWalk(c: Promotion, walked: set<Block>, finished: set<Block>, blocks: Func, st: Stacks,
                  bb: Block, inn: Slots, saved: Stacks, defs: seq<Option<nat>>)
    requires Renamed(c, walked, finished, blocks)
    requires bb < |c.f| == |blocks| && bb !in walked && Rooted(c, walked, bb) && AllSolid(c, inn)
    requires forall x {:trigger EntryValue(c.place, inn, Above(c.idom, c.ren, bb), bb, x)} ::
      EntryValue(c.place, inn, Above(c.idom, c.ren, bb), bb, x)
    requires defs == Defs(Lvals(blocks[bb].phis), c.f[bb].body)
    requires Tops(st, inn) && Grown(saved, st, defs, 0, |blocks[bb].phis|) && KeysIn(c, walked, bb, 0, st)
    ensures InWalk(c, walked, finished, blocks, st, bb, inn, saved, defs, 0, inn)
    ensures |blocks[bb].body| == |c.f[bb].body|
  {
    hide Partial, Replaced, Code, Tops, Grown, KeysIn, EntryExact;
    EntryIsExact(c, walked, bb, inn);
    EnterBlock(c, walked, finished, blocks, bb, inn);
    BlockAt(c, walked, finished, blocks, bb, inn, 0, inn);
  }

  /** Only the block that has been walked has new values. */
  lemma KeepsOthers(c0: Promotion, c: Promotion, w0: set<Block>, bb: Block, inn: Slots, cur: Slots)
    requires c0.ren.out.Keys == w0 && bb !in w0 && c == c0.(ren := c0.ren.(sub := c.ren.sub))
    ensures KeepsValues(c0, WithBlock(c, bb, inn, cur), w0)
  {
  }

  lemma EndWalk(c: Promotion, walked: set<Block>, finished: set<Block>, blocks: Func, st: Stacks,
                bb: Block, inn: Slots, saved: Stacks, defs: seq<Option<nat>>, cur: Slots)
    requires bb < |c.f| && InWalk(c, walked, finished, blocks, st, bb, inn, saved, defs, |c.f[bb].body|, cur)
    ensures InBlock(c, walked, finished, blocks, bb, inn, |c.f[bb].body|, cur)
    ensures Tops(st, cur) && Grown(saved, st, defs, 0, |defs|) && c.Base() && bb !in walked && KeysExact(c, walked + {bb}, st)
  {
    hide Partial, Replaced, Code, Tops, Grown, KeysIn, KeysExact;
    InBlockParts(c, walked, finished, blocks, bb, inn, |c.f[bb].body|, cur);
    KeysLeave(c, walked, bb, st);
  }

  // ---------------------------------------------------------------- children

  /** What the walk of child k of bb needs, when the children kids are done. */
  lemma BeforeChild(c0: Promotion, c: Promotion, w0: set<Block>, bb: Block, kids: set<Block>, k: Block, st0: Stacks, st: Stacks)
    requires c.Base() && KeepsValues(c0, c, w0) && bb < |c.f| && bb in w0 && bb in c0.ren.out
    requires Subtree(c.g, bb) !! w0 - {bb}
    requires IsChild(c, bb, k) && k !in kids && forall j :: j in kids ==> IsChild(c, bb, j)
    requires Tops(st0, c0.ren.out[bb]) && SameStacks(st0, st)
    ensures var w := w0 + Below(c.g, kids);
      k !in w && Rooted(c, w, k) && Subtree(c.g, k) !! w
    ensures Tops(st, Above(c.idom, c.ren, k))
  {
    hide Dom, StrictDom, Promotion.Base;
    var w := w0 + Below(c.g, kids);
    ChildBelow(c, bb, k);
    forall b | b in Subtree(c.g, k)
      ensures b !in w
    {
      if b in Below(c.g, kids) {
        var j :| j in kids && b in Subtree(c.g, j);
        ChildrenApart(c, bb, k, j);
      }
    }
    assert KeptAt(c0, c, bb);
    TopsSame(st0, st, c.ren.out[bb]);
  }

  lemma TopsSame(st: Stacks, st': Stacks, cur: Slots)
    requires Tops(st, cur) && SameStacks(st, st')
    ensures Tops(st', cur)
  {
  }

  lemma AfterChild(c0: Promotion, c: Promotion, c': Promotion, w0: set<Block>, bb: Block, kids: set<Block>, k: Block,
                   st0: Stacks, st: Stacks, st': Stacks)
    requires KeepsValues(c0, c, w0) && KeepsValues(c, c', w0 + Below(c.g, kids))
    requires SameStacks(st0, st) && SameStacks(st, st')
    ensures KeepsValues(c0, c', w0) && SameStacks(st0, st')
    ensures Below(c.g, kids + {k}) == Below(c.g, kids) + Subtree(c.g, k)
  {
    hide Dom;
    KeepsTrans(c0, c, c', w0, Below(c.g, kids));
    forall b: Block | b < c.g.Size()
      ensures IsBelow(c.g, kids + {k}, b) <==> IsBelow(c.g, kids, b) || b in Subtree(c.g, k)
    {
      if b in Subtree(c.g, k) {
        assert k in kids + {k};
      }
      if IsBelow(c.g, kids, b) {
        var j :| j in kids && b in Subtree(c.g, j);
        assert j in kids + {k};
      }
    }
    forall x: nat
      ensures Stack(st0, x) == Stack(st', x)
    {
      assert Stack(st0, x) == Stack(st, x);
    }
  }

  lemma MappedKinds(gone: set<Reg>, sub: map<Reg, Value>, body: seq<Instr>, defs: seq<Option<nat>>, dead: set<nat>)
    requires DefsEnd(defs, body) && DeletesSlots(gone, body, |body|, dead)
    ensures DefsEnd(defs, MapInstrs(sub, body)) && DeletesSlots(gone, MapInstrs(sub, body), |body|, dead)
  {
  }

  lemma LvalsTrans(a: Func, b: Func, c: Func)
    requires SameLvals(a, b) && SameLvals(b, c)
    ensures SameLvals(a, c)
  {
  }

  lemma SameStacksRefl(st: Stacks)
    ensures SameStacks(st, st)
  {
  }

  lemma InSubtree(g: Graph, bb: Block)
    requires bb < g.Size()
    ensures bb in Subtree(g, bb)
  {
    DomRefl(g, bb);
  }

  lemma NotBelow(c: Promotion, bb: Block, kids: set<Block>)
    requires c.Base() && bb < |c.f| && forall k :: k in kids ==> IsChild(c, bb, k)
    ensures bb !in Below(c.g, kids)
  {
    hide Dom, StrictDom, Promotion.Base;
    if bb in Below(c.g, kids) {
      var k :| k in kids && bb in Subtree(c.g, k);
      ChildBelow(c, bb, k);
    }
  }

  lemma KeepsParts(c: Promotion, c': Promotion, done: set<Block>)
    requires KeepsValues(c, c', done)
    ensures c' == c.(ren := c'.ren)
  {
  }

  lemma WithBlockIs(c: Promotion, bb: Block, inn: Slots, cur: Slots)
    ensures var c' := WithBlock(c, bb, inn, cur); c' == c.(ren := c'.ren) && bb in c'.ren.out && c'.ren.out[bb] == cur
  {
  }

  lemma LvalsAt(was: Func, now: Func, bb: Block)
    requires SameLvals(was, now) && bb < |was|
    ensures |now| == |was| && Lvals(now[bb].phis) == Lvals(was[bb].phis)
  {
  }

  lemma EndLvals(b0: Func, b1: Func, b2: Func)
    requires SamePhis(b0, b1) && |b2| == |b1|
    requires forall b {:trigger b2[b]} :: 0 <= b < |b1| ==> Lvals(b2[b].phis) == Lvals(b1[b].phis)
    ensures SameLvals(b0, b2)
  {
    forall b | 0 <= b < |b2|
      ensures Lvals(b2[b].phis) == Lvals(b0[b].phis)
    {
      assert b1[b] == b1[b];
    }
  }

  lemma BodyLvals(blocks: Func, bb: Block, body: seq<Instr>)
    requires bb < |blocks|
    ensures SameLvals(blocks, blocks[bb := blocks[bb].(body := body)])
  {
  }

  lemma DefsShape(phis: seq<Phi>, body: seq<Instr>, defs: seq<Option<nat>>)
    requires defs == Defs(Lvals(phis), body)
    ensures |defs| == |phis| + |body| && DefsEnd(defs, body)
    ensures forall k :: 0 <= k < |phis| ==> defs[k] == Some(phis[k].lval)
  {
  }

  lemma EntrySame(c0: Promotion, c: Promotion, bb: Block, inn: Slots)
    requires c == c0.(ren := c0.ren.(sub := c.ren.sub))
    requires forall x {:trigger EntryValue(c0.place, inn, Above(c0.idom, c0.ren, bb), bb, x)} ::
      EntryValue(c0.place, inn, Above(c0.idom, c0.ren, bb), bb, x)
    ensures forall x {:trigger EntryValue(c.place, inn, Above(c.idom, c.ren, bb), bb, x)} ::
      EntryValue(c.place, inn, Above(c.idom, c.ren, bb), bb, x)
  {
    hide EntryValue;
    assert Above(c0.idom, c0.ren, bb) == Above(c.idom, c.ren, bb);
  }

  lemma LvalsRefl(f: Func)
    ensures SameLvals(f, f)
  {
  }

  lemma NoneBelow(g: Graph)
    ensures Below(g, {}) == {}
  {
  }

  lemma SmallerRest(g: Graph, w0: set<Block>, w: set<Block>)
    requires w0 <= w
    ensures Blocks(g) - w <= Blocks(g) - w0
  {
  }

  lemma SameChildren(c: Promotion, c': Promotion, bb: Block)
    requires c' == c.(ren := c'.ren)
    ensures forall k {:trigger IsChild(c', bb, k)} :: IsChild(c', bb, k) <==> IsChild(c, bb, k)
    ensures |c'.f| == |c.f|
  {
  }

  lemma ChildBounds(c: Promotion, bb: Block, k: Block)
    requires IsChild(c, bb, k)
    ensures k < |c.f|
  {
  }

  // ---------------------------------------------------------------- the beginning and the end

  /** The bodies and terminators of f, with the phis of place in front, empty. */
  ghost predicate WithPhis(f: Func, place: set<(Block, nat)>, now: Func) {
    && |now| == |f|
    && forall b {:trigger now[b]} :: 0 <= b < |f| ==>
         now[b].body == f[b].body && now[b].term == f[b].term && PhisFor(place, b, now[b].phis) && NoPairs(now[b].phis)
  }

  ghost predicate NoPairs(phis: seq<Phi>) {
    forall k :: 0 <= k < |phis| ==> phis[k].pairs == []
  }

  lemma NothingReplaced(body: seq<Instr>, t: Term)
    ensures MapInstrs(map[], body) == body && SubstTerm(map[], t) == t
  {
    forall i | 0 <= i < |body|
      ensures SubstInstr(map[], body[i]) == body[i]
    {
      if body[i].Call? {
        assert SubstAll(map[], body[i].args) == body[i].args;
      }
    }
  }

  lemma StartCode(c: Promotion, blocks: Func)
    requires c.Base() && WithPhis(c.f, c.place, blocks) && c.ren == Renaming(map[], map[], map[])
    ensures Renamed(c, {}, {}, blocks) && Rooted(c, {}, ENTRY) && ENTRY < |c.f|
  {
    hide Dom, StrictDom, Promotion.Base, PhisFor;
    BaseSize(c);
    forall b | 0 <= b < |c.f|
      ensures BlockCode(c, {}, b, blocks[b]) && BlockPhis(c, {}, b, blocks[b].phis)
    {
      NothingReplaced(c.f[b].body, c.f[b].term);
      assert blocks[b].body == c.f[b].body;
      forall k | 0 <= k < |blocks[b].phis|
        ensures PartlyFilled(c, {}, b, blocks[b].phis[k])
      {
        assert blocks[b].phis[k].pairs == [];
      }
    }
  }

  lemma StartTops(c: Promotion, st: Stacks)
    requires SameStacks(map[], st)
    ensures Tops(st, Above(c.idom, c.ren, ENTRY))
  {
    forall x: nat
      ensures Stack(st, x) == []
    {
      assert Stack(map[], x) == Stack(st, x);
    }
  }

  lemma StacksTrans(a: Stacks, b: Stacks, c: Stacks)
    requires SameStacks(a, b) && SameStacks(b, c)
    ensures SameStacks(a, c)
  {
    forall x: nat
      ensures Stack(a, x) == Stack(c, x)
    {
      assert Stack(a, x) == Stack(b, x);
    }
  }

  lemma EntryIsAll(g: Graph)
    ensures Subtree(g, ENTRY) == Blocks(g)
  {
    forall b | b in Blocks(g)
      ensures Dom(g, ENTRY, b)
    {
      EntryDominates(g, b);
    }
  }

  lemma {:induction false} NoAllocasMap(sub: map<Reg, Value>, body: seq<Instr>)
    ensures NoAllocas(MapInstrs(sub, body)) == MapInstrs(sub, NoAllocas(body))
  {
    if body != [] {
      var n := |body| - 1;
      NoAllocasMap(sub, body[..n]);
      assert MapInstrs(sub, body)[..n] == MapInstrs(sub, body[..n]);
      var last := if body[n].Alloca? then [] else [body[n]];
      MapAppend(sub, NoAllocas(body[..n]), last);
      assert MapInstrs(sub, last) == if body[n].Alloca? then [] else [SubstInstr(sub, body[n])];
    }
  }

  lemma TargetBlockDone(c: Promotion, b: Block, was: BasicBlock, now: BasicBlock)
    requires EdgesOf(c.g, c.f) && b < |c.f|
    requires BlockCode(c, Blocks(c.g), b, was) && BlockPhis(c, Blocks(c.g), b, was.phis)
    requires now == was.(body := NoAllocas(was.body)) && GoneAre(GoneOf(c), c.ren.sub, c.f[b].body)
    ensures TargetBlock(c.g, c.place, c.ren, b, c.f[b], now)
  {
    hide PartlyFilled, Filled, GoneOf, GoneAre;
    NoAllocasMap(c.ren.sub, NoSlots(GoneOf(c), c.f[b].body));
    KeptIs(GoneOf(c), c.ren.sub, c.f[b].body, |c.f[b].body|);
    assert c.f[b].body[..|c.f[b].body|] == c.f[b].body;
    forall k | 0 <= k < |now.phis|
      ensures Filled(c.g, c.ren, b, now.phis[k])
    {
      assert PartlyFilled(c, Blocks(c.g), b, was.phis[k]);
      AllFilled(c, b, was.phis[k]);
    }
  }

  lemma GoneAreReplaced(c: Promotion, b: Block)
    requires c.Valid() && b < |c.f|
    ensures GoneAre(GoneOf(c), c.ren.sub, c.f[b].body)
  {
    hide Dom, StrictDom, DefinedAt, DomTree, Closed, Consistent;
    forall j | 0 <= j < |c.f[b].body| && LoadsSlot(c.f[b].body[j])
      ensures c.f[b].body[j].dest in GoneOf(c) <==> c.f[b].body[j].dest in c.ren.sub
    {
      assert SiteOf(c.f, c.sites, b, j);
      LoadIsCovered(c, b, j);
    }
  }

  /** v is the result of a load that has been replaced. */
  predicate Named(sub: map<Reg, Value>, v: Value) { v.Res? && v.r in sub }

  lemma NoneNamed(c: Promotion, walked: set<Block>, finished: set<Block>, was: Func, now: Func)
    requires Renamed(c, walked, finished, was)
    requires |now| == |was| && forall b {:trigger now[b]} :: 0 <= b < |was| ==> now[b] == was[b].(body := NoAllocas(was[b].body))
    ensures forall v :: !Named(c.ren.sub, Subst(c.ren.sub, v))
    ensures forall b, k, j {:trigger now[b].phis[k].pairs[j]} ::
              0 <= b < |now| && 0 <= k < |now[b].phis| && 0 <= j < |now[b].phis[k].pairs| ==> !Named(c.ren.sub, now[b].phis[k].pairs[j].0)
  {
    hide Partial, BlockCode, PairOk, HasPair, PhisFor, DefinedAt, IsSlotLoad;
    forall b, k, j | 0 <= b < |now| && 0 <= k < |now[b].phis| && 0 <= j < |now[b].phis[k].pairs|
      ensures !Named(c.ren.sub, now[b].phis[k].pairs[j].0)
    {
      assert now[b].phis == was[b].phis && BlockPhis(c, walked, b, was[b].phis);
      assert PartlyFilled(c, walked, b, was[b].phis[k]);
      assert Solid(c, was[b].phis[k].pairs[j].0);
    }
  }

  /** The whole tree has been walked: the function is promoted, and no operand names
      a load that is gone. */
  lemma PromotionDone(c: Promotion, walked: set<Block>, finished: set<Block>, was: Func, now: Func)
    requires Renamed(c, walked, finished, was) && walked == finished == Blocks(c.g)
    requires |now| == |was| && forall b {:trigger now[b]} :: 0 <= b < |was| ==> now[b] == was[b].(body := NoAllocas(was[b].body))
    ensures c.Valid() && TargetForm(c.g, c.f, c.place, c.ren, now)
    ensures forall v :: !Named(c.ren.sub, Subst(c.ren.sub, v))
    ensures forall b, k, j {:trigger now[b].phis[k].pairs[j]} ::
              0 <= b < |now| && 0 <= k < |now[b].phis| && 0 <= j < |now[b].phis[k].pairs| ==> !Named(c.ren.sub, now[b].phis[k].pairs[j].0)
  {
    NoneNamed(c, walked, finished, was, now);
    hide Dom, StrictDom, BlockConsistent, AllSolid, Rooted, BlockCode, BlockPhis, DomTree, Closed, SingleSites, TargetBlock;
    BaseSize(c);
    assert c.Base();
    forall b | 0 <= b < |c.f|
      ensures TargetBlock(c.g, c.place, c.ren, b, c.f[b], now[b])
    {
      assert now[b] == was[b].(body := NoAllocas(was[b].body));
      GoneAreReplaced(c, b);
      TargetBlockDone(c, b, was[b], now[b]);
    }
  }

  // ---------------------------------------------------------------- when every look-up succeeds

  /** place only holds what every closed placement holds. */
  ghost predicate Least(g: Graph, f: Func, place: set<(Block, nat)>) {
    forall q {:trigger Closed(g, f, q)} :: Closed(g, f, q) ==> place <= q
  }

  /** With the phis where placement puts them, every look-up finds a value. */
  ghost predicate Coverable(g: Graph, f: Func) {
    forall place {:trigger Closed(g, f, place)} :: Closed(g, f, place) && Least(g, f, place) ==> Covered(g, f, place)
  }

  /** With the phis where placement puts them, no order of the walk makes a look-up
      fail. */
  ghost predicate Promotable(g: Graph, f: Func) {
    forall place {:trigger Closed(g, f, place)} :: Closed(g, f, place) && Least(g, f, place) ==> Safe(g, f, place)
  }

  lemma CoverableIsPromotable(g: Graph, f: Func)
    requires g.WellFormed() && |f| == g.Size() && Coverable(g, f)
    ensures Promotable(g, f)
  {
    hide Covered, Safe, Closed, Least, Reachable;
    forall place | Closed(g, f, place) && Least(g, f, place)
      ensures Safe(g, f, place)
    {
      CoveredIsSafe(g, f, place);
    }
  }

  lemma PromotablePlace(g: Graph, f: Func, place: set<(Block, nat)>)
    requires Promotable(g, f) && Closed(g, f, place) && Least(g, f, place)
    ensures Safe(g, f, place)
  {
  }

  /** In a function that stores all its slots in the entry block all look-ups find a
      value. */
  lemma InitialisedIsCoverable(g: Graph, f: Func)
    requires g.WellFormed() && |f| == g.Size() && InitialisedInEntry(f)
    ensures Coverable(g, f)
  {
    hide Dom, StrictDom, Covered, InitialisedInEntry;
    forall place | Closed(g, f, place) && Least(g, f, place)
      ensures Covered(g, f, place)
    {
      var q := set p: (Block, nat) | p in place && Stored(f, p.1);
      forall b: Block, x: nat, y: Block | (Stores(f, b, x) || (b, x) in q) && InFrontier(g, b, y)
        ensures (y, x) in q
      {
        assert (y, x) in place;
      }
      assert Closed(g, f, q);
      forall b, x | (b, x) in place
        ensures exists d: Block :: Stores(f, d, x)
      {
        assert (b, x) in q;
      }
      InitialisedIsCovered(g, f, place);
    }
  }

  ghost predicate Stored(f: Func, x: nat) { exists d: Block :: Stores(f, d, x) }
}
