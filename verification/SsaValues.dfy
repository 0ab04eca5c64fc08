/** Two facts about the values of promoted slots that follow from where phis
    stand: a value is available wherever it is current, and without a phi all
    predecessors agree. */
module SsaValues {
  import opened Cfg
  import opened PostOrder
  import opened Arithmetic
  import opened Ir
  import opened Ssa

  /** A function, its dominator tree, the phis placed in it and the values of its
      slots. */
  datatype Promotion = Promotion(
    g: Graph, ids: map<Block, nat>, idom: map<Block, Block>,
    f: Func, sites: Sites, place: set<(Block, nat)>, ren: Renaming)
  {
    /** All but the values. */
    ghost predicate Base() {
      && DomTree(g, ids, idom)
      && SourceForm(g, f, sites)
      && Closed(g, f, place)
    }

    ghost predicate Valid() {
      && Base()
      && Consistent(f, idom, place, ren)
      && ReplacesLoads(f, sites, ren.sub)
    }

    /** The values of the slots before instruction i of block b. */
    ghost function At(b: Block, i: nat): Slots
      requires b < |f| && b in ren.inn && i <= |f[b].body|
    {
      After(f[b].body, ren.inn[b], ren.sub, i)
    }

    ghost predicate Avail(v: Value, b: Block, i: nat) { Available(g, sites, v, b, i) }

    lemma Tree(b: Block)
      requires Base() && b < |f| && b != ENTRY
      ensures b in idom && idom[b] in idom && idom[b] < |f| && IsIdom(g, idom[b], b) && ids[b] < ids[idom[b]]
      ensures b in ids && idom[b] in ids && ids[idom[b]] <= ids[ENTRY] && ENTRY in ids
    {
      hide Dom, StrictDom;
      assert Linked(ids, idom, b);
    }

    lemma StrictAbove(d: Block, b: Block)
      requires Base() && d < |f| && b < |f| && StrictDom(g, d, b)
      ensures d in ids && b in ids && ENTRY in ids && ids[b] < ids[d] <= ids[ENTRY]
    {
      assert OnChain(ids, idom, d, b);
      OnChainAbove(ids, idom, d, b);
    }

    lemma StrictDomTrans(a: Block, b: Block, c: Block)
      requires Base() && a < |f| && b < |f| && c < |f|
      requires (Dom(g, a, b) && StrictDom(g, b, c)) || (StrictDom(g, a, b) && Dom(g, b, c))
      ensures StrictDom(g, a, c)
    {
      DomTrans(g, a, b, c);
      if a == c {
        DomAntisym(g, a, b);
      }
    }

    /** Availability only grows along a run. */
    lemma AvailLater(v: Value, d: Block, j: nat, b: Block, i: nat)
      requires Valid() && d < |f| && b < |f| && Avail(v, d, j)
      requires (d == b && j <= i) || StrictDom(g, d, b)
      ensures Avail(v, b, i)
    {
      hide Dom, StrictDom;
      if d != b {
        match v
        case Const(_) =>
        case Param(_) =>
        case Res(Temp(t)) =>
          if sites[Temp(t)].0 != d {
            StrictIsDom(g, d, b);
            StrictDomTrans(sites[Temp(t)].0, d, b);
          }
        case Res(PhiOf(c, _)) =>
          StrictDomTrans(c, d, b);
          assert Dom(g, c, b) by { StrictIsDom(g, c, b); }
      }
    }

    lemma StrictIsDom(g: Graph, a: Block, b: Block)
      requires StrictDom(g, a, b)
      ensures Dom(g, a, b)
    {
    }

    /** The current value of a slot is available. */
    lemma {:induction false} CurrentAvailable(b: Block, i: nat, x: nat)
      requires Valid() && b < |f| && b in ren.inn && i <= |f[b].body| && x in At(b, i)
      ensures Avail(At(b, i)[x], b, i)
      decreases if b in ids && ENTRY in ids && ids[b] <= ids[ENTRY] then ids[ENTRY] - ids[b] else 0, i, 0
    {
      hide Dom, StrictDom;
      if i == 0 {
        assert BlockConsistent(f, idom, place, ren, b);
        assert EntryValue(place, ren.inn[b], Above(idom, ren, b), b, x);
        if (b, x) in place {
          DomRefl(g, b);
        } else {
          Tree(b);
          var d := idom[b];
          assert BlockConsistent(f, idom, place, ren, d);
          CurrentAvailable(d, |f[d].body|, x);
          AvailLater(ren.out[d][x], d, |f[d].body|, b, 0);
        }
      } else {
        var w := f[b].body[i - 1];
        if StoresTo(w, x) {
          assert UsesAvailable(g, f, sites, b, i - 1) && Uses(w)[0] == w.val;
          SubstAvailable(w.val, b, i - 1);
          AvailLater(At(b, i)[x], b, i - 1, b, i);
        } else {
          CurrentAvailable(b, i - 1, x);
          AvailLater(At(b, i)[x], b, i - 1, b, i);
        }
      }
    }

    /** What an available operand is replaced by is available. */
    lemma {:induction false} SubstAvailable(v: Value, b: Block, i: nat)
      requires Valid() && b < |f| && i <= |f[b].body| && Avail(v, b, i)
      ensures Avail(Subst(ren.sub, v), b, i)
      decreases if b in ids && ENTRY in ids && ids[b] <= ids[ENTRY] then ids[ENTRY] - ids[b] else 0, i, 1
    {
      hide Dom, StrictDom;
      if v.Res? && v.r in ren.sub {
        var (d, j) := sites[v.r];
        assert SiteOf(f, sites, d, j) && v.r.Temp?;
        if d != b {
          StrictAbove(d, b);
        } else {
          NotStrictSelf(b);
        }
        Tree'(b);
        LoadValue(v.r);
        CurrentAvailable(d, j, f[d].body[j].ptr.x);
        AvailLater(ren.sub[v.r], d, j, b, i);
      }
    }

    lemma Tree'(b: Block)
      requires Base() && b < |f|
      ensures b in ids && ENTRY in ids && ids[b] <= ids[ENTRY]
    {
      hide Dom, StrictDom;
      if b != ENTRY {
        Tree(b);
      }
    }

    /** A replaced result stands for the value of its slot where it was loaded. */
    lemma LoadValue(r: Reg)
      requires Valid() && r in ren.sub
      ensures r in sites && sites[r].0 < |f| && sites[r].0 in ren.inn && sites[r].1 < |f[sites[r].0].body|
      ensures LoadsSlot(f[sites[r].0].body[sites[r].1])
      ensures var x := f[sites[r].0].body[sites[r].1].ptr.x;
        x in At(sites[r].0, sites[r].1) && ren.sub[r] == At(sites[r].0, sites[r].1)[x]
    {
      hide Dom, StrictDom;
      var (d, j) := sites[r];
      assert BlockConsistent(f, idom, place, ren, d);
      assert LoadResolved(f[d].body, ren.inn[d], ren.sub, j);
      assert Dest(f[d].body[j]) == Some(r);
    }

    // ---------------------------------------------------------------- joins

    lemma {:induction false} UntouchedSlot(b: Block, i: nat, x: nat)
      requires b < |f| && b in ren.inn && i <= |f[b].body| && !Stores(f, b, x)
      ensures SameAt(At(b, i), ren.inn[b], x)
    {
      if i > 0 {
        assert !StoresTo(f[b].body[i - 1], x);
        UntouchedSlot(b, i - 1, x);
      }
    }

    /** At a block without a phi for x, every predecessor ends with the value of
        x that the immediate dominator ends with. */
    lemma JoinAgrees(p: Block, b: Block, x: nat)
      requires Valid() && b < |f| && b != ENTRY && p in g.preds[b] && (b, x) !in place
      ensures b in ren.inn && p in ren.out && SameAt(ren.out[p], ren.inn[b], x)
    {
      hide Dom, StrictDom;
      Tree(b);
      assert p < |f|;
      DomPred(g, idom[b], b, p);
      DomRefl(g, p);
      ClimbAgrees(p, p, b, x);
      assert BlockConsistent(f, idom, place, ren, b);
      assert EntryValue(place, ren.inn[b], Above(idom, ren, b), b, x);
    }

    lemma {:induction false} ClimbAgrees(m: Block, p: Block, b: Block, x: nat)
      requires Valid() && m < |f| && b < |f| && b != ENTRY && p in g.preds[b] && (b, x) !in place
      requires Dom(g, m, p) && b in idom && Dom(g, idom[b], m)
      ensures m in ren.out && idom[b] in ren.out && SameAt(ren.out[m], ren.out[idom[b]], x)
      decreases if m in ids && ENTRY in ids && ids[m] <= ids[ENTRY] then ids[ENTRY] - ids[m] else 0
    {
      hide Dom, StrictDom;
      Tree(b);
      assert BlockConsistent(f, idom, place, ren, m);
      assert BlockConsistent(f, idom, place, ren, idom[b]);
      if m != idom[b] {
        StrictDomIsDomIdom(g, m, b, idom[b]);
        if Dom(g, m, idom[b]) {
          DomAntisym(g, m, idom[b]);
        }
        assert InFrontier(g, m, b);
        assert !Stores(f, m, x) && (m, x) !in place;
        UntouchedSlot(m, |f[m].body|, x);
        if m == ENTRY {
          EntryDominates(g, idom[b]);
        }
        Tree(m);
        assert EntryValue(place, ren.inn[m], Above(idom, ren, m), m, x);
        StrictDomIsDomIdom(g, idom[b], m, idom[m]);
        assert StrictDom(g, idom[b], m) by { MakeStrict(idom[b], m); }
        StrictIsDom(g, idom[m], m);
        DomTrans(g, idom[m], m, p);
        ClimbAgrees(idom[m], p, b, x);
      }
    }

    lemma NotStrictSelf(b: Block)
      ensures !StrictDom(g, b, b)
    {
    }

    lemma MakeStrict(a: Block, b: Block)
      requires a != b && Dom(g, a, b)
      ensures StrictDom(g, a, b)
    {
    }
  }
}
