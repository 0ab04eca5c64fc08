/** The pass that promotes stack slots: phi placement by a growing work list,
    renaming by a walk over the dominator tree, removal of the allocas. */
module Mem2Reg {
  import opened Cfg
  import opened PostOrder
  import opened Arithmetic
  import opened Ir
  import opened Ssa
  import opened SsaValues
  import opened Rename
  import opened RenameCode
  import opened Coverage
  import opened RenameWalk
  import opened SsaMeaning
  import D = Dominators

  /** An operand of a store, as the liveness scan compares them. */
  datatype Operand = OfValue(v: Value) | OfSlot(x: nat)

  lemma PhiInserted(f: Func, place: set<(Block, nat)>, now: Func, y: Block, x: nat)
    requires WithPhis(f, place, now) && y < |f| && (y, x) !in place
    ensures WithPhis(f, place + {(y, x)}, now[y := now[y].(phis := [Phi(PhiOf(y, x), x, [])] + now[y].phis)])
  {
    var phi := Phi(PhiOf(y, x), x, []);
    var now' := now[y := now[y].(phis := [phi] + now[y].phis)];
    forall b | 0 <= b < |f|
      ensures PhisFor(place + {(y, x)}, b, now'[b].phis) && NoPairs(now'[b].phis)
    {
      var was, phis := now[b].phis, now'[b].phis;
      forall z: nat | (b, z) in place + {(y, x)}
        ensures exists k :: 0 <= k < |phis| && phis[k].lval == z
      {
        if (b, z) == (y, x) {
          assert phis[0].lval == z;
        } else {
          assert (b, z) in place;
          var k :| 0 <= k < |was| && was[k].lval == z;
          assert phis[if b == y then k + 1 else k].lval == z;
        }
      }
      if b == y {
        forall i, j | 0 <= i < j < |phis|
          ensures Differ(Lvals(phis), i, j)
        {
          if i > 0 {
            assert Differ(Lvals(was), i - 1, j - 1);
          } else {
            assert phis[j] == was[j - 1] && (y, was[j - 1].lval) in place;
          }
        }
      }
    }
  }

  /** The work list for x covers exactly the blocks that store x or have a phi
      for it. */
  ghost predicate Listed(f: Func, place: set<(Block, nat)>, x: nat, work: seq<Block>) {
    && (forall k :: 0 <= k < |work| ==> work[k] < |f| && (Stores(f, work[k], x) || (work[k], x) in place))
    && (forall b: Block {:trigger b in work} :: Stores(f, b, x) || (b, x) in place ==> b in work)
  }

  /** The frontiers of the blocks of done have their phis for x. */
  ghost predicate Spread(g: Graph, place: set<(Block, nat)>, x: nat, done: set<Block>) {
    forall b: Block, y: Block {:trigger InFrontier(g, b, y)} :: b in done && InFrontier(g, b, y) ==> (y, x) in place
  }

  /** Closed, for one slot. */
  ghost predicate ClosedFor(g: Graph, f: Func, place: set<(Block, nat)>, x: nat) {
    forall b: Block, y: Block {:trigger InFrontier(g, b, y)} ::
      (Stores(f, b, x) || (b, x) in place) && InFrontier(g, b, y) ==> (y, x) in place
  }

  /** The blocks below n, and the first i instructions of block n, as a scan has
      seen them. */
  ghost predicate StoresUpTo(f: Func, n: nat, i: nat, b: Block, x: nat) {
    (b < n && Stores(f, b, x)) || (b == n < |f| && i <= |f[b].body| && exists j :: 0 <= j < i && StoresTo(f[b].body[j], x))
  }

  ghost predicate Known(storesOf: map<nat, set<Block>>, b: Block, x: nat) {
    x in storesOf && b in storesOf[x]
  }

  ghost predicate Found(f: Func, n: nat, i: nat, storesOf: map<nat, set<Block>>) {
    forall b, x {:trigger Known(storesOf, b, x)} {:trigger StoresUpTo(f, n, i, b, x)} ::
      Known(storesOf, b, x) <==> StoresUpTo(f, n, i, b, x)
  }

  lemma FoundStep(f: Func, n: nat, i: nat, storesOf: map<nat, set<Block>>)
    requires n < |f| && i < |f[n].body| && Found(f, n, i, storesOf)
    ensures var w := f[n].body[i];
      Found(f, n, i + 1, if w.Store? && w.ptr.Slot?
        then storesOf[w.ptr.x := (if w.ptr.x in storesOf then storesOf[w.ptr.x] else {}) + {n}] else storesOf)
  {
    var w := f[n].body[i];
    var now := if w.Store? && w.ptr.Slot?
      then storesOf[w.ptr.x := (if w.ptr.x in storesOf then storesOf[w.ptr.x] else {}) + {n}] else storesOf;
    forall b, x
      ensures Known(now, b, x) <==> StoresUpTo(f, n, i + 1, b, x)
    {
      assert StoresUpTo(f, n, i + 1, b, x) <==> StoresUpTo(f, n, i, b, x) || (b == n && StoresTo(w, x));
      assert Known(storesOf, b, x) <==> StoresUpTo(f, n, i, b, x);
    }
  }

  lemma FoundBlock(f: Func, n: nat, storesOf: map<nat, set<Block>>)
    requires n < |f| && Found(f, n, |f[n].body|, storesOf)
    ensures Found(f, n + 1, 0, storesOf)
  {
    forall b, x
      ensures Known(storesOf, b, x) <==> StoresUpTo(f, n + 1, 0, b, x)
    {
      assert Known(storesOf, b, x) <==> StoresUpTo(f, n, |f[n].body|, b, x);
    }
  }

  /** The blocks walked, in an order of the walk, without a look-up that fails. */
  ghost predicate OrderOk(c: Promotion, walked: set<Block>, order: seq<Block>) {
    Elems(order) == walked && WalkOrder(c.g, c.idom, order) && NoStale(c.g, c.f, c.place, order) && forall b :: b in order ==> b < |c.f|
  }

  lemma OrderParts(c: Promotion, walked: set<Block>, order: seq<Block>)
    requires OrderOk(c, walked, order)
    ensures Elems(order) == walked && WalkOrder(c.g, c.idom, order) && NoStale(c.g, c.f, c.place, order)
  {
  }

  /** bb comes next. */
  lemma OrderMore(c: Promotion, walked: set<Block>, order: seq<Block>, bb: Block)
    requires OrderOk(c, walked, order) && bb !in walked && bb < |c.f| && Rooted(c, walked, bb) && Descends(c.g, walked, bb)
    ensures (order + [bb])[..|order|] == order && WalkOrder(c.g, c.idom, order + [bb])
    ensures !StaleIn(c.g, c.f, c.place, walked, bb) ==> OrderOk(c, walked + {bb}, order + [bb])
  {
    hide StaleIn, Descends, WalkOrder;
    OneMore(c.g, c.idom, order, bb);
    var now := order + [bb];
    forall k | 0 <= k < |now|
      ensures !StaleIn(c.g, c.f, c.place, walked, bb) ==> !StaleIn(c.g, c.f, c.place, Elems(now[..k]), now[k])
    {
      assert now[..k] == order[..k];
      if k < |order| {
        assert now[k] == order[k];
      } else {
        assert now[..k] == order;
      }
    }
  }

  lemma OrderSame(c: Promotion, c': Promotion, walked: set<Block>, order: seq<Block>)
    requires OrderOk(c, walked, order) && c' == c.(ren := c'.ren)
    ensures OrderOk(c', walked, order)
  {
    hide StaleIn;
  }

  lemma KeysOther(c: Promotion, c': Promotion, walked: set<Block>, st: Stacks)
    requires KeysExact(c, walked, st) && c' == c.(ren := c'.ren)
    ensures KeysExact(c', walked, st)
  {
    hide Pushed;
  }

  lemma LoadStops(c: Promotion, walked: set<Block>, bb: Block, i: nat)
    requires bb < |c.f| == c.g.Size() && i < |c.f[bb].body| && StaleLoad(c.g, c.f, c.place, walked, bb, i)
    ensures StaleIn(c.g, c.f, c.place, walked, bb)
  {
    hide StaleLoad;
  }

  class Mem2Reg {
    const g: Graph
    const dominators: D.Dominators
    var blocks: Func
    var varValStack: Stacks
    // What the walk over the dominator tree has established: the values of the
    // slots, the blocks entered, in their order, and the blocks left.
    ghost var c: Promotion
    ghost var walked: set<Block>
    ghost var order: seq<Block>
    ghost var finished: set<Block>

    constructor (g: Graph, f: Func)
      requires g.WellFormed()
      ensures Ready() && fresh(dominators) && this.g == g && blocks == f && varValStack == map[]
    {
      this.g := g;
      blocks := f;
      varValStack := map[];
      var d := new D.Dominators(g);
      dominators := d;
      new;
      d.Run();
    }

    /** The dominator pass has run. */
    ghost predicate Ready()
      reads dominators
    {
      && dominators.g == g
      && dominators.Done() && dominators.FrontiersUpTo(g.Size()) && dominators.TreeUpTo(g.Size())
    }

    /** The slots that are stored to, and where: all of them, since a stored value
        is never the address of a slot stored to before it. */
    method FindStores() returns (live: set<nat>, storesOf: map<nat, set<Block>>)
      ensures live == storesOf.Keys
      ensures forall b, x {:trigger Known(storesOf, b, x)} {:trigger Stores(blocks, b, x)} ::
        Known(storesOf, b, x) <==> Stores(blocks, b, x)
    {
      live, storesOf := {}, map[];
      var b := 0;
      while b < |blocks|
        invariant b <= |blocks| && live == storesOf.Keys && Found(blocks, b, 0, storesOf)
      {
        var varIsKilled: set<Operand> := {};
        var i := 0;
        while i < |blocks[b].body|
          invariant i <= |blocks[b].body| && live == storesOf.Keys && Found(blocks, b, i, storesOf)
          invariant forall o :: o in varIsKilled ==> o.OfSlot? && o.x in live
        {
          var instr := blocks[b].body[i];
          FoundStep(blocks, b, i, storesOf);
          if instr.Store? && instr.ptr.Slot? {
            var x := instr.ptr.x;
            if OfValue(instr.val) !in varIsKilled {
              live := live + {x};
            }
            varIsKilled := varIsKilled + {OfSlot(x)};
            storesOf := storesOf[x := (if x in storesOf then storesOf[x] else {}) + {b}];
          }
          i := i + 1;
        }
        FoundBlock(blocks, b, storesOf);
        b := b + 1;
      }
      forall b, x
        ensures Known(storesOf, b, x) <==> Stores(blocks, b, x)
      {
        assert Known(storesOf, b, x) <==> StoresUpTo(blocks, |blocks|, 0, b, x);
      }
    }

    method GeneratePhi(ghost f: Func, ghost sites: Sites) returns (ghost place: set<(Block, nat)>)
      requires Ready() && SourceForm(g, f, sites) && blocks == f
      modifies this`blocks
      ensures Closed(g, f, place) && Least(g, f, place) && WithPhis(f, place, blocks)
      ensures forall b, x :: (b, x) in place ==> b < g.Size()
    {
      var live, storesOf := FindStores();
      var hasPhi: set<(Block, nat)> := {};
      while live != {}
        invariant WithPhis(f, hasPhi, blocks) && Least(g, f, hasPhi)
        invariant live <= storesOf.Keys
        invariant forall b, x :: (b, x) in hasPhi ==> b < g.Size() && x !in live
        invariant forall x {:trigger ClosedFor(g, f, hasPhi, x)} :: x in storesOf && x !in live ==> ClosedFor(g, f, hasPhi, x)
      {
        var x :| x in live;
        ghost var was := hasPhi;
        forall b
          ensures b in storesOf[x] <==> Stores(f, b, x)
        {
          assert Known(storesOf, b, x) <==> Stores(f, b, x);
        }
        hasPhi := PlacePhis(f, x, storesOf[x], hasPhi);
        forall z | z in storesOf && z !in live
          ensures ClosedFor(g, f, hasPhi, z)
        {
          assert ClosedFor(g, f, was, z);
        }
        live := live - {x};
      }
      place := hasPhi;
      assert forall b, x {:trigger Stores(f, b, x)} :: Stores(f, b, x) ==> Known(storesOf, b, x);
      ClosedBySlot(f, place, storesOf.Keys);
    }

    lemma ClosedBySlot(f: Func, place: set<(Block, nat)>, stored: set<nat>)
      requires forall x {:trigger ClosedFor(g, f, place, x)} :: x in stored ==> ClosedFor(g, f, place, x)
      requires forall b, x {:trigger Stores(f, b, x)} :: Stores(f, b, x) ==> x in stored
      requires Least(g, f, place)
      ensures Closed(g, f, place)
    {
      var q := set p | p in place && p.1 in stored;
      forall b: Block, x: nat, y: Block | (Stores(f, b, x) || (b, x) in q) && InFrontier(g, b, y)
        ensures (y, x) in q
      {
        assert ClosedFor(g, f, place, x);
      }
      assert Closed(g, f, q);
      assert place <= q;
    }

    /** The phis for one slot. The work list grows while it is scanned. */
    method PlacePhis(ghost f: Func, x: nat, stores: set<Block>, hasPhi: set<(Block, nat)>) returns (hasPhi': set<(Block, nat)>)
      requires Ready() && WithPhis(f, hasPhi, blocks) && Least(g, f, hasPhi) && |f| == g.Size()
      requires forall b :: b in stores <==> Stores(f, b, x)
      requires forall b: Block {:trigger (b, x) in hasPhi} :: (b, x) !in hasPhi
      modifies this`blocks
      ensures WithPhis(f, hasPhi', blocks) && Least(g, f, hasPhi') && ClosedFor(g, f, hasPhi', x)
      ensures hasPhi <= hasPhi' && forall b, z :: (b, z) in hasPhi' && (b, z) !in hasPhi ==> z == x && b < g.Size()
    {
      var workList := Enumerate(stores);
      assert forall k :: 0 <= k < |workList| ==> workList[k] in workList;
      hasPhi' := hasPhi;
      ghost var done: set<Block> := {};
      var i := 0;
      while i < |workList|
        invariant i <= |workList| && Listed(f, hasPhi', x, workList)
        invariant forall k :: 0 <= k < i ==> workList[k] in done
        invariant Spread(g, hasPhi', x, done)
        invariant WithPhis(f, hasPhi', blocks) && Least(g, f, hasPhi')
        invariant hasPhi <= hasPhi' && forall b, z :: (b, z) in hasPhi' && (b, z) !in hasPhi ==> z == x && b < g.Size()
        decreases Without(hasPhi', x), |workList| - i
      {
        var b := workList[i];
        ghost var had, added := hasPhi', None;
        workList, hasPhi', added := SpreadFrom(f, x, b, workList, hasPhi');
        if added.Some? {
          WithoutShrinks(had, hasPhi', x, added.value);
        }
        done := done + {b};
        i := i + 1;
      }
      forall b: Block, y: Block | (Stores(f, b, x) || (b, x) in hasPhi') && InFrontier(g, b, y)
        ensures (y, x) in hasPhi'
      {
        assert b in workList;
      }
    }

    /** The blocks that have no phi for x yet. */
    ghost function Without(hasPhi: set<(Block, nat)>, x: nat): set<Block> {
      set b: Block | b < g.Size() && (b, x) !in hasPhi
    }

    lemma WithoutShrinks(had: set<(Block, nat)>, has: set<(Block, nat)>, x: nat, y: Block)
      requires had <= has && y < g.Size() && (y, x) in has && (y, x) !in had
      ensures Without(has, x) < Without(had, x)
    {
      assert y in Without(had, x) && y !in Without(has, x);
    }

    method Enumerate(s: set<Block>) returns (r: seq<Block>)
      ensures forall b :: b in r <==> b in s
    {
      r := [];
      var rest := s;
      while rest != {}
        invariant rest <= s && forall b :: b in r <==> b in s - rest
      {
        var b :| b in rest;
        r, rest := r + [b], rest - {b};
      }
    }

    /** The step of the work list at block b: a phi in each block of its frontier
        that has none, and that block onto the list. */
    method SpreadFrom(ghost f: Func, x: nat, b: Block, workList: seq<Block>, hasPhi: set<(Block, nat)>)
      returns (workList': seq<Block>, hasPhi': set<(Block, nat)>, ghost added: Option<Block>)
      requires Ready() && WithPhis(f, hasPhi, blocks) && Least(g, f, hasPhi) && |f| == g.Size()
      requires Listed(f, hasPhi, x, workList) && b in workList
      modifies this`blocks
      ensures WithPhis(f, hasPhi', blocks) && Least(g, f, hasPhi') && Listed(f, hasPhi', x, workList')
      ensures workList <= workList'
      ensures hasPhi <= hasPhi' && forall c, z :: (c, z) in hasPhi' && (c, z) !in hasPhi ==> z == x && c < g.Size()
      ensures added.None? ==> hasPhi' == hasPhi && workList' == workList
      ensures added.Some? ==> added.value < g.Size() && (added.value, x) in hasPhi' && (added.value, x) !in hasPhi
      ensures Spread(g, hasPhi', x, {b})
    {
      workList', hasPhi', added := workList, hasPhi, None;
      var rest := dominators.domFrontier[b];
      while rest != {}
        invariant rest <= dominators.domFrontier[b]
        invariant WithPhis(f, hasPhi', blocks) && Least(g, f, hasPhi') && Listed(f, hasPhi', x, workList')
        invariant workList <= workList'
        invariant hasPhi <= hasPhi' && forall c, z :: (c, z) in hasPhi' && (c, z) !in hasPhi ==> z == x && c < g.Size()
        invariant added.None? ==> hasPhi' == hasPhi && workList' == workList
        invariant added.Some? ==> added.value < g.Size() && (added.value, x) in hasPhi' && (added.value, x) !in hasPhi
        invariant forall y :: y in dominators.domFrontier[b] - rest ==> (y, x) in hasPhi'
      {
        var y :| y in rest;
        assert InFrontier(g, b, y);
        if (y, x) !in hasPhi' {
          PhiInserted(f, hasPhi', blocks, y, x);
          LeastGrows(f, hasPhi', b, x, y);
          var phi := Phi(PhiOf(y, x), x, []);
          blocks := blocks[y := blocks[y].(phis := [phi] + blocks[y].phis)];
          workList' := workList' + [y];
          hasPhi' := hasPhi' + {(y, x)};
          added := Some(y);
        }
        rest := rest - {y};
      }
    }

    lemma LeastGrows(f: Func, place: set<(Block, nat)>, b: Block, x: nat, y: Block)
      requires Least(g, f, place) && (Stores(f, b, x) || (b, x) in place) && InFrontier(g, b, y)
      ensures Least(g, f, place + {(y, x)})
    {
    }

    // ------------------------------------------------------------ renaming

    /** Before and after the walk of a subtree. */
    ghost predicate Inv()
      reads this, dominators
    {
      && Ready() && c.g == g && c.ids == dominators.postOrderId && c.idom == dominators.idom
      && Renamed(c, walked, finished, blocks)
      && KeysExact(c, walked, varValStack) && OrderOk(c, walked, order)
    }

    /** The walk has failed in the last block of the order, and not before. */
    ghost predicate Stopped()
      reads this
    {
      && order != [] && WalkOrder(c.g, c.idom, order) && (forall b :: b in order ==> b < |c.f|)
      && NoStale(c.g, c.f, c.place, order[..|order| - 1])
      && StaleIn(c.g, c.f, c.place, Elems(order[..|order| - 1]), order[|order| - 1])
    }

    /** Every operand that names r names v from now on. */
    method ReplaceAllUseWith(r: Reg, v: Value)
      modifies this`blocks
      ensures |blocks| == |old(blocks)|
      ensures forall b {:trigger blocks[b]} :: 0 <= b < |blocks| ==> blocks[b] == ReplaceIn(r, v, old(blocks)[b])
    {
      var n := 0;
      while n < |blocks|
        invariant n <= |blocks| == |old(blocks)|
        invariant forall b {:trigger blocks[b]} :: 0 <= b < |blocks| ==>
          blocks[b] == if b < n then ReplaceIn(r, v, old(blocks)[b]) else old(blocks)[b]
      {
        blocks := blocks[n := ReplaceIn(r, v, blocks[n])];
        n := n + 1;
      }
    }

    /** The definitions made by block bb. */
    ghost function DefsOf(bb: Block): seq<Option<nat>>
      reads this`blocks, this`c
      requires bb < |blocks| && bb < |c.f|
    {
      Defs(Lvals(blocks[bb].phis), c.f[bb].body)
    }

    /** The phis of bb become the values of their slots. */
    method PushPhis(bb: Block) returns (ghost inn: Slots)
      requires Inv() && bb < |c.f| && bb !in walked && Rooted(c, walked, bb) && |blocks| == |c.f|
      requires Tops(varValStack, Above(c.idom, c.ren, bb))
      modifies this`varValStack
      ensures forall x {:trigger EntryValue(c.place, inn, Above(c.idom, c.ren, bb), bb, x)} ::
        EntryValue(c.place, inn, Above(c.idom, c.ren, bb), bb, x)
      ensures AllSolid(c, inn) && Tops(varValStack, inn) && KeysIn(c, walked, bb, 0, varValStack)
      ensures Grown(old(varValStack), varValStack, DefsOf(bb), 0, |blocks[bb].phis|)
    {
      hide Tops, Grown, AllPushed, Renamed, OrderOk, KeysExact, KeysPhis, KeysIn, Promotion.Valid;
      var phis := blocks[bb].phis;
      ghost var above := Above(c.idom, c.ren, bb);
      ghost var defs := DefsOf(bb);
      inn := above;
      NonePushed(phis, bb, above);
      GrownStart(varValStack, defs);
      KeysNoPhi(c, walked, phis, varValStack);
      var k := 0;
      while k < |phis|
        invariant k <= |phis|
        invariant Tops(varValStack, inn) && Grown(old(varValStack), varValStack, defs, 0, k)
        invariant AllPushed(phis, bb, k, above, inn) && KeysPhis(c, walked, phis, k, varValStack)
      {
        KeysPhi(c, walked, phis, k, varValStack, Res(phis[k].dest));
        PushGrows(old(varValStack), varValStack, defs, k, inn, Res(phis[k].dest));
        PushedNext(phis, bb, k, above, inn);
        varValStack := Push(varValStack, phis[k].lval, Res(phis[k].dest));
        inn := inn[phis[k].lval := Res(phis[k].dest)];
        k := k + 1;
      }
      EntryFromPhis(c, walked, finished, blocks, bb, inn);
      PhisAt(bb);
      KeysEnter(c, walked, bb, phis, varValStack);
    }

    lemma PhisAt(bb: Block)
      requires Renamed(c, walked, finished, blocks) && bb < |c.f| == |blocks|
      ensures PhisFor(c.place, bb, blocks[bb].phis)
    {
      hide Partial, Replaced;
      CodeOf(c, walked, finished, blocks, bb);
    }

    /** A load is replaced by the top of the stack of its slot. Without a stack it
        stays; an empty stack is a failure. */
    method WalkLoadInstr(bb: Block, ghost inn: Slots, ghost saved: Stacks, ghost defs: seq<Option<nat>>, i: nat, ghost cur: Slots)
      returns (ok: bool, delete: bool)
      requires InWalk(c, walked, finished, blocks, varValStack, bb, inn, saved, defs, i, cur)
      requires bb < |c.f| == |blocks| && i < |blocks[bb].body| && LoadsSlot(blocks[bb].body[i])
      modifies this`blocks, this`c
      ensures c == old(c).(ren := old(c).ren.(sub := c.ren.sub)) && i < |c.f[bb].body|
      ensures ok <==> !StaleLoad(c.g, c.f, c.place, walked, bb, i)
      ensures ok ==> InWalk(c, walked, finished, blocks, varValStack, bb, inn, saved, defs, i + 1, cur) && SamePhis(old(blocks), blocks)
      ensures ok ==> (delete <==> Deleted(GoneOf(c), c.f[bb].body[i]))
    {
      hide InWalk, StaleLoad, GoneOf;
      LoadLooks(c, walked, finished, blocks, varValStack, bb, inn, saved, defs, i, cur);
      var instr := blocks[bb].body[i];
      ok, delete := true, false;
      if instr.ptr.x in varValStack {
        var top := varValStack[instr.ptr.x];
        if |top| == 0 {
          ok := false;
          return;
        }
        ghost var was := blocks;
        ReplaceAllUseWith(instr.dest, top[|top| - 1]);
        LoadStep(c, walked, finished, was, varValStack, bb, inn, saved, defs, i, cur, blocks);
        GoneSame(c, WithSub(c, instr.dest, top[|top| - 1]));
        c := WithSub(c, instr.dest, top[|top| - 1]);
        delete := true;
      } else {
        LoadStays(c, walked, finished, blocks, varValStack, bb, inn, saved, defs, i, cur);
      }
    }

    method WalkInstr(bb: Block, ghost inn: Slots, ghost saved: Stacks, ghost defs: seq<Option<nat>>, i: nat, ghost cur: Slots)
      returns (ok: bool, ghost cur': Slots, delete: bool)
      requires InWalk(c, walked, finished, blocks, varValStack, bb, inn, saved, defs, i, cur)
      requires bb < |c.f| == |blocks| && i < |blocks[bb].body|
      modifies this`blocks, this`varValStack, this`c
      ensures c == old(c).(ren := old(c).ren.(sub := c.ren.sub)) && i < |c.f[bb].body|
      ensures ok <==> !StaleLoad(c.g, c.f, c.place, walked, bb, i)
      ensures ok ==> InWalk(c, walked, finished, blocks, varValStack, bb, inn, saved, defs, i + 1, cur') && SamePhis(old(blocks), blocks)
      ensures ok ==> (delete <==> Deleted(GoneOf(c), c.f[bb].body[i]))
    {
      hide InWalk, GoneOf, DefinedAt, Pushed;
      InstrAt(c, walked, finished, blocks, varValStack, bb, inn, saved, defs, i, cur);
      var instr := blocks[bb].body[i];
      ok, cur', delete := true, cur, false;
      if LoadsSlot(instr) {
        ok, delete := WalkLoadInstr(bb, inn, saved, defs, i, cur);
      } else {
        OtherStep(c, walked, finished, blocks, varValStack, bb, inn, saved, defs, i, cur);
        if StoresSlot(instr) {
          varValStack := Push(varValStack, instr.ptr.x, instr.val);
          cur' := cur[instr.ptr.x := instr.val];
          delete := true;
        }
      }
    }

    /** The scan of the body. */
    method WalkBody(bb: Block, ghost inn: Slots, ghost saved: Stacks, ghost defs: seq<Option<nat>>)
      returns (ok: bool, ghost cur: Slots, waitDelete: set<nat>)
      requires InWalk(c, walked, finished, blocks, varValStack, bb, inn, saved, defs, 0, inn)
      requires bb < |c.f| == |blocks| && |blocks[bb].body| == |c.f[bb].body|
      modifies this`blocks, this`varValStack, this`c
      ensures c == old(c).(ren := old(c).ren.(sub := c.ren.sub))
      ensures ok <==> forall i {:trigger StaleLoad(c.g, c.f, c.place, walked, bb, i)} :: 0 <= i < |c.f[bb].body| ==> !StaleLoad(c.g, c.f, c.place, walked, bb, i)
      ensures ok ==> InWalk(c, walked, finished, blocks, varValStack, bb, inn, saved, defs, |c.f[bb].body|, cur) && SamePhis(old(blocks), blocks)
      ensures ok ==> DeletesSlots(GoneOf(c), c.f[bb].body, |c.f[bb].body|, waitDelete)
    {
      hide InWalk, GoneOf, Deleted, DefinedAt, Pushed;
      ok, cur, waitDelete := true, inn, {};
      var i := 0;
      var n := |blocks[bb].body|;
      while i < n
        invariant c == old(c).(ren := old(c).ren.(sub := c.ren.sub))
        invariant ok && i <= n == |c.f[bb].body|
        invariant forall j {:trigger StaleLoad(c.g, c.f, c.place, walked, bb, j)} :: 0 <= j < i ==> !StaleLoad(c.g, c.f, c.place, walked, bb, j)
        invariant InWalk(c, walked, finished, blocks, varValStack, bb, inn, saved, defs, i, cur) && SamePhis(old(blocks), blocks)
        invariant DeletesSlots(GoneOf(c), c.f[bb].body, i, waitDelete)
      {
        WalkBounds(c, walked, finished, blocks, varValStack, bb, inn, saved, defs, i, cur);
        ghost var c1, b1 := c, blocks;
        var delete: bool;
        ok, cur, delete := WalkInstr(bb, inn, saved, defs, i, cur);
        if !ok {
          return;
        }
        GoneSame(c1, c);
        SamePhisTrans(old(blocks), b1, blocks);
        if delete {
          waitDelete := waitDelete + {i};
        }
        i := i + 1;
      }
    }

    /** A stack that is there is not empty. */
    ghost predicate TopThere(x: nat)
      reads this`varValStack
    {
      x in varValStack ==> varValStack[x] != []
    }

    /** A pair for bb in every phi of block s whose slot has a stack; an empty one
        violates the assertion. */
    method AddPairs(s: Block, bb: Block, ghost cur: Slots) returns (ok: bool)
      requires s < |blocks| && Tops(varValStack, cur)
      modifies this`blocks
      ensures |blocks| == |old(blocks)|
      ensures ok <==> forall x :: x in Lvals(blocks[s].phis) ==> TopThere(x)
      ensures Lvals(blocks[s].phis) == Lvals(old(blocks)[s].phis)
      ensures blocks == old(blocks)[s := blocks[s]]
      ensures ok ==> blocks == old(blocks)[s := old(blocks)[s].(phis := LinkPhis(old(blocks)[s].phis, cur, bb))]
    {
      ok := true;
      var phis := blocks[s].phis;
      var k := 0;
      while k < |phis|
        invariant k <= |phis| == |blocks[s].phis|
        invariant forall j :: 0 <= j < |phis| ==>
          phis[j] == if j < k then LinkPhis(blocks[s].phis, cur, bb)[j] else blocks[s].phis[j]
        invariant forall j :: 0 <= j < k ==> TopThere(Lvals(blocks[s].phis)[j])
      {
        var x := phis[k].lval;
        assert Lvals(blocks[s].phis)[k] == x;
        assert x in cur <==> Stack(varValStack, x) != [];
        if x in varValStack {
          var top := varValStack[x];
          if |top| == 0 {
            assert !TopThere(x) && x in Lvals(blocks[s].phis);
            return false;
          }
          phis := phis[k := phis[k].(pairs := phis[k].pairs + [(top[|top| - 1], bb)])];
        }
        assert phis[k] == LinkPhis(blocks[s].phis, cur, bb)[k];
        k := k + 1;
      }
      assert phis == LinkPhis(blocks[s].phis, cur, bb);
      assert Lvals(phis) == Lvals(blocks[s].phis);
      blocks := blocks[s := blocks[s].(phis := phis)];
    }

    /** The phis of the successors get the values the slots have at the end of
        bb. */
    method LinkSuccessors(bb: Block, ghost cur: Slots) returns (ok: bool)
      requires g.WellFormed() && |blocks| == g.Size() && bb < g.Size() && Distinct(g.succs[bb]) && Tops(varValStack, cur)
      modifies this`blocks
      ensures ok <==> forall s, x :: s in g.succs[bb] && s < |old(blocks)| && x in Lvals(old(blocks)[s].phis) ==> TopThere(x)
      ensures ok ==> |blocks| == |old(blocks)|
      ensures ok ==> forall b {:trigger blocks[b]} :: 0 <= b < |blocks| ==> LinkedTo(g, cur, bb, b, old(blocks)[b], blocks[b])
    {
      hide Tops, TopThere, Reachable, Lvals;
      ok := true;
      var n := 0;
      while n < |g.succs[bb]|
        invariant n <= |g.succs[bb]| && |blocks| == |old(blocks)| && ok
        invariant forall b {:trigger blocks[b]} :: 0 <= b < |blocks| && b in g.succs[bb][..n] ==>
          LinkedTo(g, cur, bb, b, old(blocks)[b], blocks[b])
        invariant forall b {:trigger blocks[b]} :: 0 <= b < |blocks| && b !in g.succs[bb][..n] ==> blocks[b] == old(blocks)[b]
        invariant forall s, x :: s in g.succs[bb][..n] && s < |old(blocks)| && x in Lvals(old(blocks)[s].phis) ==> TopThere(x)
      {
        var s := g.succs[bb][n];
        NotYetLinked(bb, n);
        assert g.succs[bb][..n + 1] == g.succs[bb][..n] + [s];
        ok := AddPairs(s, bb, cur);
        if !ok {
          assert s in g.succs[bb];
          return;
        }
        n := n + 1;
      }
      assert g.succs[bb][..n] == g.succs[bb];
    }

    lemma NotYetLinked(bb: Block, n: nat)
      requires bb < |g.succs| && n < |g.succs[bb]| && Distinct(g.succs[bb])
      ensures g.succs[bb][n] !in g.succs[bb][..n]
    {
      forall j | 0 <= j < n
        ensures g.succs[bb][j] != g.succs[bb][n]
      {
        assert Differ(g.succs[bb], j, n);
      }
    }

    /** The definitions of bb are taken off the stacks again. */
    method PopAll(bb: Block, ghost saved: Stacks, ghost defs: seq<Option<nat>>)
      requires bb < |blocks| && |defs| == |blocks[bb].phis| + |blocks[bb].body|
      requires forall k :: 0 <= k < |blocks[bb].phis| ==> defs[k] == Some(blocks[bb].phis[k].lval)
      requires DefsEnd(defs, blocks[bb].body) && Grown(saved, varValStack, defs, 0, |defs|) && KeysExact(c, walked, varValStack)
      modifies this`varValStack
      ensures SameStacks(saved, varValStack) && KeysExact(c, walked, varValStack)
    {
      hide KeysExact;
      var phis, body := blocks[bb].phis, blocks[bb].body;
      var k := 0;
      while k < |phis|
        invariant k <= |phis| && Grown(saved, varValStack, defs, k, |defs|) && KeysExact(c, walked, varValStack)
      {
        PopShrinks(saved, varValStack, defs, k);
        KeysPop(c, walked, varValStack, phis[k].lval);
        varValStack := Pop(varValStack, phis[k].lval);
        k := k + 1;
      }
      var i := 0;
      while i < |body|
        invariant i <= |body| && Grown(saved, varValStack, defs, |phis| + i, |defs|) && KeysExact(c, walked, varValStack)
      {
        assert defs[|defs| - |body| + i] == defs[|phis| + i];
        PopShrinks(saved, varValStack, defs, |phis| + i);
        if StoresSlot(body[i]) {
          KeysPop(c, walked, varValStack, body[i].ptr.x);
          varValStack := Pop(varValStack, body[i].ptr.x);
        }
        i := i + 1;
      }
      GrownEnd(saved, varValStack, defs);
    }

    /** Removes the instructions at the given positions of bb. */
    method DeleteInstrs(bb: Block, dead: set<nat>, ghost gone: set<Reg>) returns (kept: seq<Instr>)
      requires bb < |blocks| && DeletesSlots(gone, blocks[bb].body, |blocks[bb].body|, dead)
      ensures kept == NoSlots(gone, blocks[bb].body)
    {
      var body := blocks[bb].body;
      kept := [];
      var i := 0;
      while i < |body|
        invariant i <= |body| && kept == NoSlots(gone, body[..i])
      {
        assert body[..i + 1][..i] == body[..i];
        if i !in dead {
          kept := kept + [body[i]];
        }
        i := i + 1;
      }
      assert body[..i] == body;
    }

    lemma InvParts()
      requires Inv()
      ensures Ready() && c.g == g && c.ids == dominators.postOrderId && c.idom == dominators.idom
      ensures Renamed(c, walked, finished, blocks) && KeysExact(c, walked, varValStack) && OrderOk(c, walked, order)
      ensures Partial(c, walked) && Code(c, walked, finished, blocks)
    {
      hide Ready, Partial, Code, Replaced, KeysExact, OrderOk;
    }

    lemma MakeInv()
      requires Ready() && c.g == g && c.ids == dominators.postOrderId && c.idom == dominators.idom
      requires Renamed(c, walked, finished, blocks) && KeysExact(c, walked, varValStack) && OrderOk(c, walked, order)
      ensures Inv()
    {
      hide Ready, Renamed, KeysExact, OrderOk;
    }

    lemma InvFacts()
      requires Inv()
      ensures c.Base() && finished <= walked <= Blocks(g) && c.ren.out.Keys == walked
      ensures |blocks| == |c.f| == g.Size() && g.WellFormed()
    {
      hide Dom, StrictDom, BlockConsistent, Rooted, AllSolid, KeysExact, OrderOk;
      PartialKeys(c, walked);
      BaseSize(c);
    }

    lemma ChildrenOf(bb: Block)
      requires Inv() && bb < |c.f|
      ensures bb in dominators.domTreeSuccs
      ensures forall k :: k in dominators.domTreeSuccs[bb] <==> IsChild(c, bb, k)
    {
      hide Dom, StrictDom, Renamed, KeysExact, OrderOk;
      InvFacts();
    }

    /** Steps up to the recursion: the block's own definitions and its edges. */
    method EnterWalk(bb: Block) returns (ok: bool, waitDelete: set<nat>, ghost defs: seq<Option<nat>>)
      requires Inv() && bb < |c.f| && bb !in walked && Rooted(c, walked, bb) && Descends(c.g, walked, bb)
      requires Tops(varValStack, Above(c.idom, c.ren, bb))
      modifies this`blocks, this`varValStack, this`c, this`walked, this`order
      ensures c == old(c).(ren := c.ren)
      ensures !ok ==> Stopped()
      ensures ok ==> Inv() && KeepsValues(old(c), c, old(walked)) && SameLvals(old(blocks), blocks)
      ensures ok ==> walked == old(walked) + {bb} && bb in c.ren.out && Tops(varValStack, c.ren.out[bb])
      ensures ok ==> Grown(old(varValStack), varValStack, defs, 0, |defs|)
      ensures ok ==> |blocks| == |c.f| == |old(blocks)| && defs == Defs(Lvals(old(blocks)[bb].phis), c.f[bb].body)
      ensures ok ==> DeletesSlots(GoneOf(c), c.f[bb].body, |c.f[bb].body|, waitDelete)
    {
      hide *;
      ghost var saved, c0, w0, b0 := varValStack, c, walked, blocks;
      InvParts();
      InvFacts();
      OrderMore(c, walked, order, bb);
      defs := DefsOf(bb);
      DefsAre(bb);
      ghost var inn := PushPhis(bb);
      StartWalk(c, walked, finished, blocks, varValStack, bb, inn, saved, defs);
      ghost var cur;
      ok, cur, waitDelete := WalkBody(bb, inn, saved, defs);
      if !ok {
        ghost var i :| 0 <= i < |c.f[bb].body| && StaleLoad(c.g, c.f, c.place, walked, bb, i);
        LoadStops(c, walked, bb, i);
        order := order + [bb];
        StopAt(c0, walked, bb);
        return;
      }
      EdgesLook(c, walked, finished, blocks, varValStack, bb, inn, saved, defs, cur);
      EndWalk(c, walked, finished, blocks, varValStack, bb, inn, saved, defs, cur);
      SuccsDistinct(c, bb);
      ghost var was := blocks;
      ok := LinkSuccessors(bb, cur);
      EdgesStop(bb, was, ok);
      if !ok {
        order := order + [bb];
        StopAt(c0, walked, bb);
        return;
      }
      EntrySame(c0, c, bb, inn);
      PassEnd(c, walked, finished, was, bb, inn, cur, blocks);
      EndLvals(b0, was, blocks);
      WithBlockIs(c, bb, inn, cur);
      KeepsOthers(c0, c, w0, bb, inn, cur);
      GoneSame(c, WithBlock(c, bb, inn, cur));
      KeysOther(c, WithBlock(c, bb, inn, cur), walked + {bb}, varValStack);
      OrderSame(c0, WithBlock(c, bb, inn, cur), walked + {bb}, order + [bb]);
      c := WithBlock(c, bb, inn, cur);
      walked := walked + {bb};
      order := order + [bb];
      MakeInv();
    }

    /** The order after a step that fails in bb. */
    lemma StopAt(c0: Promotion, walked: set<Block>, bb: Block)
      requires order != [] && order[|order| - 1] == bb && c == c0.(ren := c.ren) && StaleIn(c.g, c.f, c.place, walked, bb) && bb < |c.f|
      requires OrderOk(c0, walked, order[..|order| - 1]) && WalkOrder(c0.g, c0.idom, order[..|order| - 1] + [bb])
      ensures Stopped()
    {
      hide StaleIn;
      assert order == order[..|order| - 1] + [bb];
    }

    /** Linking fails iff an edge out of bb does. */
    lemma EdgesStop(bb: Block, was: Func, ok: bool)
      requires c.g == g && g.WellFormed() && bb < g.Size() == |was| == |c.f|
      requires forall s, k :: s in g.succs[bb] && s < |was| && 0 <= k < |was[s].phis| ==> EmptyIsStale(c, walked, bb, s, varValStack, was[s].phis[k].lval)
      requires forall s, x :: s in g.succs[bb] && StaleEdge(g, c.f, c.place, walked, bb, s, x) ==> s < |was| && x in Lvals(was[s].phis)
      requires ok <==> forall s, x :: s in g.succs[bb] && s < |was| && x in Lvals(was[s].phis) ==> TopThere(x)
      requires forall i {:trigger StaleLoad(c.g, c.f, c.place, walked, bb, i)} :: 0 <= i < |c.f[bb].body| ==> !StaleLoad(c.g, c.f, c.place, walked, bb, i)
      ensures ok <==> !StaleIn(c.g, c.f, c.place, walked, bb)
    {
      hide StaleEdge, StaleLoad, Reachable;
      forall s, x | s in g.succs[bb] && s < |was| && x in Lvals(was[s].phis)
        ensures TopThere(x) <==> !StaleEdge(g, c.f, c.place, walked, bb, s, x)
      {
        var k :| 0 <= k < |was[s].phis| && Lvals(was[s].phis)[k] == x;
        assert EmptyIsStale(c, walked, bb, s, varValStack, was[s].phis[k].lval);
      }
    }

    lemma DefsAre(bb: Block)
      requires bb < |blocks| && bb < |c.f|
      ensures DefsOf(bb) == Defs(Lvals(blocks[bb].phis), c.f[bb].body)
    {
    }

    /** The walks of the children, in any order. */
    method WalkChildren(bb: Block) returns (ok: bool)
      requires Inv() && bb < |c.f| && bb in walked && bb in c.ren.out && Subtree(g, bb) !! walked - {bb}
      requires Descends(c.g, walked - {bb}, bb)
      requires Tops(varValStack, c.ren.out[bb])
      modifies this`blocks, this`varValStack, this`c, this`walked, this`order, this`finished
      ensures c == old(c).(ren := c.ren)
      ensures !ok ==> Stopped()
      ensures ok ==> Inv() && KeepsValues(old(c), c, old(walked)) && SameLvals(old(blocks), blocks)
      ensures ok ==> walked == old(walked) + (Subtree(g, bb) - {bb}) && finished == old(finished) + (Subtree(g, bb) - {bb})
      ensures ok ==> SameStacks(old(varValStack), varValStack)
      decreases Blocks(g) - walked, 1
    {
      hide *;
      ok := true;
      InvFacts();
      ChildrenOf(bb);
      SameStacksRefl(varValStack);
      KeepsRefl(c, walked);
      LvalsRefl(blocks);
      NoneBelow(g);
      var rest := dominators.domTreeSuccs[bb];
      ghost var kids: set<Block> := {};
      ghost var c0, w0, f0, st0, b0 := c, walked, finished, varValStack, blocks;
      while rest != {}
        invariant Inv() && KeepsValues(c0, c, w0) && SameLvals(b0, blocks)
        invariant walked == w0 + Below(g, kids) && finished == f0 + Below(g, kids)
        invariant SameStacks(st0, varValStack)
        invariant |c.f| == |c0.f| && c == c0.(ren := c.ren)
        invariant forall k :: k in rest || k in kids <==> IsChild(c, bb, k)
        invariant rest !! kids
        decreases rest
      {
        var k :| k in rest;
        InvFacts();
        InvParts();
        BeforeChild(c0, c, w0, bb, kids, k, st0, varValStack);
        ghost var st1, c1, b1, w1 := varValStack, c, blocks, walked;
        ChildBounds(c, bb, k);
        ChildDescends(c, w0, bb, kids, k);
        SmallerRest(g, w0, walked);
        ok := ReName(k);
        if !ok {
          return;
        }
        AfterChild(c0, c1, c, w0, bb, kids, k, st0, st1, varValStack);
        LvalsTrans(b0, b1, blocks);
        KeepsParts(c1, c, w1);
        SameChildren(c1, c, bb);
        rest, kids := rest - {k}, kids + {k};
      }
      ok := true;
      InvFacts();
      InvParts();
      NotBelow(c, bb, kids);
      SubtreeIsChildren(c, bb, kids);
    }

    /** Steps behind the recursion: the definitions of bb are popped and what was
        marked is deleted. */
    method LeaveWalk(bb: Block, waitDelete: set<nat>, ghost saved: Stacks, ghost defs: seq<Option<nat>>)
      requires Inv() && bb < |c.f| == |blocks| && bb in walked && bb !in finished
      requires Grown(saved, varValStack, defs, 0, |defs|) && defs == Defs(Lvals(blocks[bb].phis), c.f[bb].body)
      requires DeletesSlots(GoneOf(c), c.f[bb].body, |c.f[bb].body|, waitDelete)
      modifies this`blocks, this`varValStack, this`finished
      ensures Inv() && SameLvals(old(blocks), blocks) && finished == old(finished) + {bb}
      ensures SameStacks(saved, varValStack)
    {
      hide *;
      InvParts();
      CodeOf(c, walked, finished, blocks, bb);
      DefsShape(blocks[bb].phis, c.f[bb].body, defs);
      MappedKinds(GoneOf(c), c.ren.sub, c.f[bb].body, defs, waitDelete);
      PopAll(bb, saved, defs);
      var kept := DeleteInstrs(bb, waitDelete, GoneOf(c));
      NoSlotsMap(GoneOf(c), c.ren.sub, c.f[bb].body);
      FinishBlock(c, walked, finished, blocks, bb, kept);
      BodyLvals(blocks, bb, kept);
      blocks := blocks[bb := blocks[bb].(body := kept)];
      finished := finished + {bb};
      MakeInv();
    }

    /** The walk of one block and, below it, of its children in the tree. It fails in
        the first block, in the order of the walk, with a look-up that fails. */
    method ReName(bb: Block) returns (ok: bool)
      requires Inv() && bb < |c.f| && bb !in walked && Rooted(c, walked, bb) && Subtree(g, bb) !! walked && Descends(c.g, walked, bb)
      requires Tops(varValStack, Above(c.idom, c.ren, bb))
      modifies this`blocks, this`varValStack, this`c, this`walked, this`order, this`finished
      ensures c == old(c).(ren := c.ren)
      ensures !ok ==> Stopped()
      ensures ok ==> Inv() && KeepsValues(old(c), c, old(walked)) && SameLvals(old(blocks), blocks)
      ensures ok ==> walked == old(walked) + Subtree(g, bb) && finished == old(finished) + Subtree(g, bb)
      ensures ok ==> SameStacks(old(varValStack), varValStack)
      decreases Blocks(g) - walked, 0
    {
      hide *;
      InvFacts();
      InSubtree(g, bb);
      ghost var saved, c0, w0, b0 := varValStack, c, walked, blocks;
      var waitDelete;
      ghost var defs;
      ok, waitDelete, defs := EnterWalk(bb);
      if !ok {
        return;
      }
      ghost var st, c1, b1 := varValStack, c, blocks;
      KeepsParts(c0, c1, w0);
      LvalsAt(b0, b1, bb);
      assert walked - {bb} == w0;
      InvFacts();
      ok := WalkChildren(bb);
      if !ok {
        return;
      }
      InvFacts();
      KeepsParts(c1, c, w0 + {bb});
      GoneSame(c1, c);
      KeepsTrans(c0, c1, c, w0, {bb});
      LvalsAt(b1, blocks, bb);
      GrownSame(saved, st, varValStack, defs, 0, |defs|);
      ghost var b2 := blocks;
      LeaveWalk(bb, waitDelete, saved, defs);
      LvalsTrans(b0, b1, b2);
      LvalsTrans(b0, b2, blocks);
    }

    method RemoveAlloca()
      modifies this`blocks
      ensures |blocks| == |old(blocks)|
      ensures forall b {:trigger blocks[b]} :: 0 <= b < |blocks| ==>
        blocks[b] == old(blocks)[b].(body := NoAllocas(old(blocks)[b].body))
    {
      var n := 0;
      while n < |blocks|
        invariant n <= |blocks| == |old(blocks)|
        invariant forall b {:trigger blocks[b]} :: 0 <= b < |blocks| ==>
          blocks[b] == if b < n then old(blocks)[b].(body := NoAllocas(old(blocks)[b].body)) else old(blocks)[b]
      {
        var kept: seq<Instr> := [];
        var i := 0;
        while i < |blocks[n].body|
          invariant i <= |blocks[n].body| && kept == NoAllocas(blocks[n].body[..i])
        {
          assert blocks[n].body[..i + 1][..i] == blocks[n].body[..i];
          if !blocks[n].body[i].Alloca? {
            kept := kept + [blocks[n].body[i]];
          }
          i := i + 1;
        }
        assert blocks[n].body[..i] == blocks[n].body;
        blocks := blocks[n := blocks[n].(body := kept)];
        n := n + 1;
      }
    }

    /** The state in which the walk begins. */
    lemma StartPromotion(f: Func, sites: Sites, place: set<(Block, nat)>)
      requires Ready() && SourceForm(g, f, sites) && WithPhis(f, place, blocks)
      requires Closed(g, f, place) && varValStack == map[]
      requires c == Promotion(g, dominators.postOrderId, dominators.idom, f, sites, place, Renaming(map[], map[], map[]))
      requires walked == finished == {} && order == []
      ensures Inv() && Rooted(c, walked, ENTRY) && Descends(c.g, walked, ENTRY) && Tops(varValStack, Above(c.idom, c.ren, ENTRY)) && ENTRY < |c.f|
    {
      hide Dom, StrictDom, Closed, SourceForm, DomTree, StaleIn;
      StartCode(c, blocks);
      StartTops(c, varValStack);
    }

    /** The pass on one function. It fails iff a look-up fails in the order of its
        walk, never where look-ups without a value are safe. Otherwise the promoted
        function behaves as the original, from any memory, for any arguments and
        callees, after any number of blocks. */
    method Run(ghost f: Func, ghost sites: Sites) returns (ok: bool)
      requires Ready() && SourceForm(g, f, sites) && blocks == f && varValStack == map[]
      modifies this
      ensures c.g == g && c.f == f && c.idom == dominators.idom && Closed(g, f, c.place) && Least(g, f, c.place)
      ensures WalkOrder(g, c.idom, order) && (ok <==> NoStale(g, f, c.place, order))
      ensures Safe(g, f, c.place) ==> ok
      ensures ok ==> Elems(order) == Blocks(g) && c.Valid() && TargetForm(g, f, c.place, c.ren, blocks)
      ensures ok ==> SameStacks(map[], varValStack)
      ensures ok ==> forall m, mem, fuel :: SameOutcome(Execute(m, f, mem, fuel), Execute(m, blocks, mem, fuel))
    {
      hide *;
      ghost var place := GeneratePhi(f, sites);
      ghost var none: Slots := map[];
      c := Promotion(g, dominators.postOrderId, dominators.idom, f, sites, place, Renaming(map[], map[], map[]));
      walked, finished, order := {}, {}, [];
      ghost var c0 := c;
      StartPromotion(f, sites, place);
      InvFacts();
      EntryIsAll(g);
      ok := ReName(ENTRY);
      if !ok {
        StoppedFails();
        StaysBase(c0, c);
        return;
      }
      InvParts();
      InvFacts();
      OrderParts(c, walked, order);
      StacksTrans(map[], old(varValStack), varValStack);
      ghost var was := blocks;
      RemoveAlloca();
      PromotionDone(c, walked, finished, was, blocks);
      forall m, mem, fuel
        ensures SameOutcome(Execute(m, f, mem, fuel), Execute(m, blocks, mem, fuel))
      {
        PromotionPreservesRuns(c, m, blocks, mem, fuel);
      }
    }

    lemma StaysBase(c0: Promotion, c: Promotion)
      requires c0.Base() && c == c0.(ren := c.ren)
      ensures c.Base()
    {
      BaseSame(c0, c);
    }

    lemma StoppedFails()
      requires Stopped()
      ensures WalkOrder(c.g, c.idom, order) && !NoStale(c.g, c.f, c.place, order)
      ensures c.Base() ==> !Safe(c.g, c.f, c.place)
    {
      hide StaleIn, Promotion.Base, Safe;
      var n := |order| - 1;
      assert order[n] == order[n];
      if c.Base() && Safe(c.g, c.f, c.place) {
        SafeNeverStale(c, order);
      }
    }
  }
}
