/** Why a stored dominator only ever climbs: each new one lies on the chain of the
    one it replaces. This needs passes in reverse post-order. */
module Climb {
  import opened Cfg
  import opened PostOrder

  /** All chains have become parts of what they were. */
  ghost predicate Higher(ids: map<Block, nat>, was: map<Block, Block>, now: map<Block, Block>) {
    && Climbs(ids, was) && Climbs(ids, now) && was.Keys <= now.Keys
    && forall e, x {:trigger OnChain(ids, now, e, x)} :: x in was && OnChain(ids, now, e, x) ==> OnChain(ids, was, e, x)
  }

  lemma HigherTrans(ids: map<Block, nat>, a: map<Block, Block>, b: map<Block, Block>, c: map<Block, Block>)
    requires Higher(ids, a, b) && Higher(ids, b, c)
    ensures Higher(ids, a, c)
  {
  }

  lemma SameIsHigher(ids: map<Block, nat>, idom: map<Block, Block>)
    requires Climbs(ids, idom)
    ensures Higher(ids, idom, idom)
  {
  }

  /** What lies on the chains of all defined predecessors lies above the stored dominator. */
  ghost predicate Meets(g: Graph, ids: map<Block, nat>, idom: map<Block, Block>, y: Block) {
    && Climbs(ids, idom) && y in idom && idom[y] in idom
    && forall e {:trigger OnAllChains(g, ids, idom, e, y)} :: OnAllChains(g, ids, idom, e, y) ==> OnChain(ids, idom, e, idom[y])
  }

  /** Up to the bound the chain above y is part of the chain of its parent. */
  ghost predicate Follows(g: Graph, ids: map<Block, nat>, idom: map<Block, Block>, y: Block, bound: nat)
    requires Numbering(g, ids) && Climbs(ids, idom) && y in idom && y != ENTRY
  {
    && idom[y] in idom && Parent(g, ids, y) in idom
    && forall c {:trigger OnChain(ids, idom, c, idom[y])} ::
         c in ids && ids[c] < bound && OnChain(ids, idom, c, idom[y]) ==> OnChain(ids, idom, c, Parent(g, ids, y))
  }

  /** A pass has come down to the number b: the blocks from there on are visited. */
  ghost predicate Turn(g: Graph, ids: map<Block, nat>, idom: map<Block, Block>, b: nat) {
    && Numbering(g, ids) && Climbs(ids, idom)
    && (forall y {:trigger Meets(g, ids, idom, y)} :: y in idom && y != ENTRY ==> Meets(g, ids, idom, y))
    && forall y {:trigger idom[y]} :: y in idom && y != ENTRY ==> Follows(g, ids, idom, y, if ids[y] < b then b else ids[ENTRY] + 1)
  }

  lemma TurnBegins(g: Graph, ids: map<Block, nat>, b: nat)
    requires Numbering(g, ids) && ENTRY in ids
    ensures Turn(g, ids, map[ENTRY := ENTRY], b)
  {
    var idom: map<Block, Block> := map[ENTRY := ENTRY];
    assert Linked(ids, idom, ENTRY);
  }

  /** The end of a pass is the beginning of the next. */
  lemma TurnAgain(g: Graph, ids: map<Block, nat>, idom: map<Block, Block>, b: nat)
    requires Turn(g, ids, idom, 0)
    ensures Turn(g, ids, idom, b)
  {
    forall y | y in idom && y != ENTRY
      ensures Follows(g, ids, idom, y, b)
    {
      assert Follows(g, ids, idom, y, ids[ENTRY] + 1);
    }
  }

  /** The entry is passed over. */
  lemma TurnEntry(g: Graph, ids: map<Block, nat>, idom: map<Block, Block>)
    requires Numbering(g, ids) && ENTRY in ids && Turn(g, ids, idom, ids[ENTRY] + 1)
    ensures Turn(g, ids, idom, ids[ENTRY])
  {
    forall y | y in idom && y != ENTRY
      ensures Follows(g, ids, idom, y, ids[ENTRY])
    {
      assert Follows(g, ids, idom, y, ids[ENTRY] + 1);
    }
  }

  /** The new dominator lies on the old chain. */
  lemma MeetMovesUp(g: Graph, ids: map<Block, nat>, idom: map<Block, Block>, m: Block, bb: Block, b: nat)
    requires Turn(g, ids, idom, b) && bb in idom && bb != ENTRY && IsMeet(g, ids, idom, m, bb)
    ensures idom[bb] in idom && OnChain(ids, idom, m, idom[bb]) && OnChain(ids, idom, m, bb)
  {
    assert Meets(g, ids, idom, bb) && Linked(ids, idom, bb);
    assert OnChain(ids, idom, m, m);
    assert OnAllChains(g, ids, idom, m, bb);
  }

  /** Storing m above bb takes from each chain through bb what lies between the two. */
  lemma {:induction false} ChainAfter(ids: map<Block, nat>, idom: map<Block, Block>, m: Block, bb: Block, e: Block, x: Block)
    requires Climbs(ids, idom) && Climbs(ids, idom[bb := m]) && x in idom && m in idom && bb in ids && bb != ENTRY && ids[bb] < ids[m]
    requires bb in idom ==> OnChain(ids, idom, m, bb)
    ensures OnChain(ids, idom[bb := m], e, x) <==>
              OnChain(ids, idom, e, x) && (OnChain(ids, idom, bb, x) ==> (e in ids && ids[e] <= ids[bb]) || OnChain(ids, idom, e, m))
    decreases ids[ENTRY] - ids[x]
  {
    assert Linked(ids, idom, x) && Linked(ids, idom[bb := m], x);
    if OnChain(ids, idom, bb, x) {
      OnChainAbove(ids, idom, bb, x);
    }
    if x == bb {
      ChainAfter(ids, idom, m, bb, e, m);
      if OnChain(ids, idom, bb, m) {
        OnChainAbove(ids, idom, bb, m);
      }
      if OnChain(ids, idom, e, m) {
        OnChainTrans(ids, idom, e, m, bb);
      }
      if OnChain(ids, idom, e, bb) {
        OnChainAbove(ids, idom, e, bb);
      }
    } else if x != ENTRY {
      ChainAfter(ids, idom, m, bb, e, idom[x]);
    }
  }

  /** Chains of blocks numbered above bb stay as they are. */
  lemma ChainAboveStays(ids: map<Block, nat>, idom: map<Block, Block>, m: Block, bb: Block, e: Block, x: Block)
    requires Climbs(ids, idom) && Climbs(ids, idom[bb := m]) && x in idom && m in idom && bb in ids && bb != ENTRY && ids[bb] < ids[m]
    requires (bb in idom ==> OnChain(ids, idom, m, bb)) && ids[bb] < ids[x]
    ensures OnChain(ids, idom[bb := m], e, x) <==> OnChain(ids, idom, e, x)
  {
    ChainAfter(ids, idom, m, bb, e, x);
    if OnChain(ids, idom, bb, x) {
      OnChainAbove(ids, idom, bb, x);
    }
  }

  /** The visit of one block, as a step of the table. */
  ghost predicate Stored(g: Graph, ids: map<Block, nat>, idom: map<Block, Block>, m: Block, bb: Block) {
    && Climbs(ids, idom[bb := m]) && bb in ids && bb != ENTRY && m in ids && ids[bb] < ids[m]
    && Turn(g, ids, idom, ids[bb] + 1) && IsMeet(g, ids, idom, m, bb) && Parent(g, ids, bb) in idom
  }

  lemma StoredHigher(g: Graph, ids: map<Block, nat>, idom: map<Block, Block>, m: Block, bb: Block)
    requires Stored(g, ids, idom, m, bb)
    ensures Higher(ids, idom, idom[bb := m])
  {
    if bb in idom {
      MeetMovesUp(g, ids, idom, m, bb, ids[bb] + 1);
    }
    forall e, x | x in idom && OnChain(ids, idom[bb := m], e, x)
      ensures OnChain(ids, idom, e, x)
    {
      ChainAfter(ids, idom, m, bb, e, x);
    }
  }

  lemma OnAllBefore(g: Graph, ids: map<Block, nat>, idom: map<Block, Block>, now: map<Block, Block>, e: Block, y: Block)
    requires Higher(ids, idom, now) && OnAllChains(g, ids, now, e, y)
    ensures OnAllChains(g, ids, idom, e, y)
  {
  }

  lemma MeetsAfter(g: Graph, ids: map<Block, nat>, idom: map<Block, Block>, m: Block, bb: Block, y: Block)
    requires Stored(g, ids, idom, m, bb) && y in idom[bb := m] && y != ENTRY
    ensures Meets(g, ids, idom[bb := m], y)
  {
    var now := idom[bb := m];
    if bb in idom {
      MeetMovesUp(g, ids, idom, m, bb, ids[bb] + 1);
    }
    StoredHigher(g, ids, idom, m, bb);
    assert Linked(ids, now, y);
    forall e | OnAllChains(g, ids, now, e, y)
      ensures OnChain(ids, now, e, now[y])
    {
      OnAllBefore(g, ids, idom, now, e, y);
      if y == bb {
        ChainAboveStays(ids, idom, m, bb, e, m);
      } else {
        assert Meets(g, ids, idom, y) && Linked(ids, idom, y) && Follows(g, ids, idom, y, if ids[y] < ids[bb] + 1 then ids[bb] + 1 else ids[ENTRY] + 1);
        ChainAfter(ids, idom, m, bb, e, idom[y]);
        if OnChain(ids, idom, bb, idom[y]) {
          OnChainAbove(ids, idom, bb, idom[y]);
          var p := Parent(g, ids, y);
          assert OnChain(ids, now, e, p);
          ChainAfter(ids, idom, m, bb, e, p);
        }
      }
    }
  }

  lemma FollowsAfter(g: Graph, ids: map<Block, nat>, idom: map<Block, Block>, m: Block, bb: Block, y: Block)
    requires Stored(g, ids, idom, m, bb) && y in idom[bb := m] && y != ENTRY
    ensures Follows(g, ids, idom[bb := m], y, if ids[y] < ids[bb] then ids[bb] else ids[ENTRY] + 1)
  {
    var now, p := idom[bb := m], Parent(g, ids, y);
    if bb in idom {
      MeetMovesUp(g, ids, idom, m, bb, ids[bb] + 1);
    }
    assert Linked(ids, now, y) && Apart(ids, y, bb);
    if y != bb {
      assert Linked(ids, idom, y) && Follows(g, ids, idom, y, if ids[y] < ids[bb] + 1 then ids[bb] + 1 else ids[ENTRY] + 1);
    }
    forall c | c in ids && (ids[y] < ids[bb] ==> ids[c] < ids[bb]) && OnChain(ids, now, c, now[y])
      ensures OnChain(ids, now, c, p)
    {
      if y == bb {
        ChainAboveStays(ids, idom, m, bb, c, m);
        assert OnAllChains(g, ids, idom, c, bb);
        ChainAboveStays(ids, idom, m, bb, c, p);
      } else {
        ChainAfter(ids, idom, m, bb, c, idom[y]);
        assert ids[c] <= ids[ENTRY];
        ChainAfter(ids, idom, m, bb, c, p);
        if ids[bb] < ids[y] {
          ChainAboveStays(ids, idom, m, bb, c, p);
        }
      }
    }
  }

  /** A visit keeps what makes the next ones climb. */
  lemma TurnStep(g: Graph, ids: map<Block, nat>, idom: map<Block, Block>, m: Block, bb: Block)
    requires Stored(g, ids, idom, m, bb)
    ensures Turn(g, ids, idom[bb := m], ids[bb])
  {
    forall y | y in idom[bb := m] && y != ENTRY
      ensures Meets(g, ids, idom[bb := m], y)
      ensures Follows(g, ids, idom[bb := m], y, if ids[y] < ids[bb] then ids[bb] else ids[ENTRY] + 1)
    {
      MeetsAfter(g, ids, idom, m, bb, y);
      FollowsAfter(g, ids, idom, m, bb, y);
    }
  }

  /** What a visit does to the chains. */
  lemma VisitClimbs(g: Graph, ids: map<Block, nat>, idom: map<Block, Block>, m: Block, bb: Block)
    requires AllSound(g, ids, idom) && bb in ids && bb != ENTRY && Sound(g, ids, bb, m) && Parent(g, ids, bb) in idom
    requires Turn(g, ids, idom, ids[bb] + 1) && IsMeet(g, ids, idom, m, bb)
    ensures Higher(ids, idom, idom[bb := m]) && Turn(g, ids, idom[bb := m], ids[bb])
    ensures bb in idom ==> idom[bb] in idom && OnChain(ids, idom, m, idom[bb])
  {
    hide OnChain, Sound;
    assert m in ids && ids[bb] < ids[m] by { SoundAbove(g, ids, bb, m); }
    StoreKeepsSound(g, ids, idom, bb, m);
    StoredHigher(g, ids, idom, m, bb);
    TurnStep(g, ids, idom, m, bb);
    if bb in idom {
      MeetMovesUp(g, ids, idom, m, bb, ids[bb] + 1);
    }
  }

  lemma SoundAbove(g: Graph, ids: map<Block, nat>, b: Block, d: Block)
    requires Numbering(g, ids) && b in ids && Sound(g, ids, b, d)
    ensures d in ids && ids[b] < ids[d]
  {
  }
}
