/** The shape of the code under construction: block lists, where results are
    computed, and which blocks are still open. Two steps change it, an instruction
    and a terminator at the end of the insert block. Both keep the lists mirrored,
    every result computed once and every use behind what it uses. */
module CodeShape {
  import opened Cfg
  import opened Arithmetic
  import opened Ir
  import opened Ssa
  import opened ExprMeaning
  import opened StmtMeaning

  /** The blocks so far with their predecessor and successor lists, the block that
      code is added to, and the results so far. */
  datatype Gen = Gen(code: Code, insert: Block, preds: seq<seq<Block>>, succs: seq<seq<Block>>, sites: Sites, temps: nat)

  // ---------------------------------------------------------------- the steps

  function DefSites(sites: Sites, i: Instr, b: Block, k: nat): Sites {
    var d := Dest(i);
    if d.Some? then sites[d.value := (b, k)] else sites
  }

  /** An instruction at the end of the block. */
  ghost function Emit(g: Gen, i: Instr): Gen
    requires g.insert < |g.code|
  {
    var d := g.code[g.insert];
    g.(code := g.code[g.insert := Draft(d.body + [i], d.term)], sites := DefSites(g.sites, i, g.insert, |d.body|),
       temps := if Dest(i).Some? then g.temps + 1 else g.temps)
  }

  ghost function NewBlock(g: Gen): Gen {
    g.(code := g.code + [Draft([], None)], preds := g.preds + [[]], succs := g.succs + [[]])
  }

  function AddPred(preds: seq<seq<Block>>, t: Block, b: Block): seq<seq<Block>> {
    if t < |preds| then preds[t := preds[t] + [b]] else preds
  }

  function AddPreds(preds: seq<seq<Block>>, t: Term, b: Block): seq<seq<Block>> {
    match t
    case Br(c) => AddPred(preds, c, b)
    case CondBr(_, c, d) => AddPred(AddPred(preds, c, b), d, b)
    case Ret(_) => preds
    case RetVoid => preds
  }

  /** A terminator, which enters its edges in both lists. */
  ghost function Terminate(g: Gen, t: Term): Gen
    requires g.insert < |g.code| && g.insert < |g.succs|
  {
    var d := g.code[g.insert];
    g.(code := g.code[g.insert := Draft(d.body, Some(t))], succs := g.succs[g.insert := Targets(t)],
       preds := AddPreds(g.preds, t, g.insert))
  }

  ghost predicate Open(g: Gen) { g.insert < |g.code| && g.code[g.insert].term.None? }

  ghost function Here(g: Gen): Place
    requires g.insert < |g.code|
  {
    Place(g.insert, |g.code[g.insert].body|)
  }

  // ---------------------------------------------------------------- what holds all the time

  ghost predicate SuccsAt(g: Gen, b: Block) {
    b < |g.code| && b < |g.succs| ==>
      && g.succs[b] == (if g.code[b].term.Some? then Targets(g.code[b].term.value) else [])
      && (forall t :: t in g.succs[b] ==> 0 < t < |g.code|)
      && (g.code[b].term.Some? && g.code[b].term.value.CondBr? ==> g.code[b].term.value.ifTrue != g.code[b].term.value.ifFalse)
  }

  ghost predicate PredsAt(g: Gen, b: Block) {
    b < |g.preds| ==> Distinct(g.preds[b]) && forall a :: a in g.preds[b] ==> a < |g.code|
  }

  ghost predicate Mirrors(g: Gen, a: Block, b: Block) {
    a < |g.succs| && b < |g.preds| ==> (b in g.succs[a] <==> a in g.preds[b])
  }

  ghost predicate ListsOk(g: Gen) {
    && g.insert < |g.code| == |g.preds| == |g.succs|
    && (forall b: Block {:trigger SuccsAt(g, b)} :: SuccsAt(g, b))
    && (forall b: Block {:trigger PredsAt(g, b)} :: PredsAt(g, b))
    && (forall a: Block, b: Block {:trigger Mirrors(g, a, b)} :: Mirrors(g, a, b))
  }

  ghost predicate DestAt(g: Gen, b: Block, i: nat) {
    b < |g.code| && i < |g.code[b].body| ==>
      var d := Dest(g.code[b].body[i]);
      d.Some? ==> d.value.Temp? && d.value.id < g.temps && d.value in g.sites && g.sites[d.value] == (b, i)
  }

  ghost predicate SiteAt(g: Gen, r: Reg) {
    r in g.sites ==>
      && r.Temp? && r.id < g.temps
      && g.sites[r].0 < |g.code| && g.sites[r].1 < |g.code[g.sites[r].0].body|
      && Dest(g.code[g.sites[r].0].body[g.sites[r].1]) == Some(r)
  }

  /** Computed in the same block, before position i. */
  ghost predicate LocalAt(sites: Sites, v: Value, b: Block, i: nat) {
    v.Res? ==> v.r.Temp? && v.r in sites && sites[v.r].0 == b && sites[v.r].1 < i
  }

  ghost predicate AllLocal(sites: Sites, vs: seq<Value>, b: Block, i: nat) {
    forall k {:trigger vs[k]} :: 0 <= k < |vs| ==> LocalAt(sites, vs[k], b, i)
  }

  ghost predicate UsesAt(g: Gen, b: Block, i: nat) {
    b < |g.code| && i < |g.code[b].body| ==> AllLocal(g.sites, Uses(g.code[b].body[i]), b, i)
  }

  ghost predicate TermAt(g: Gen, b: Block) {
    b < |g.code| && g.code[b].term.Some? ==> AllLocal(g.sites, TermUses(g.code[b].term.value), b, |g.code[b].body|)
  }

  ghost predicate ResultsOk(g: Gen) {
    && (forall b: Block, i: nat {:trigger DestAt(g, b, i)} :: DestAt(g, b, i))
    && (forall r {:trigger SiteAt(g, r)} :: SiteAt(g, r))
    && (forall b: Block, i: nat {:trigger UsesAt(g, b, i)} :: UsesAt(g, b, i))
    && (forall b: Block {:trigger TermAt(g, b)} :: TermAt(g, b))
  }

  ghost predicate Ok(g: Gen) { ListsOk(g) && ResultsOk(g) }

  // ---------------------------------------------------------------- the steps keep it

  /** The instruction computes the next result, or none, from results of its block. */
  ghost predicate Fits(g: Gen, i: Instr) {
    && Open(g) && (Dest(i).Some? ==> Dest(i).value == Temp(g.temps))
    && AllLocal(g.sites, Uses(i), g.insert, |g.code[g.insert].body|)
  }

  lemma LocalGrows(sites: Sites, sites': Sites, vs: seq<Value>, b: Block, i: nat)
    requires AllLocal(sites, vs, b, i) && forall r :: r in sites ==> r in sites' && sites'[r] == sites[r]
    ensures AllLocal(sites', vs, b, i)
  {
  }

  lemma EmitKeeps(g: Gen, i: Instr)
    requires Ok(g) && Fits(g, i)
    ensures Ok(Emit(g, i))
  {
    EmitLists(g, i);
    EmitResults(g, i);
  }

  lemma EmitLists(g: Gen, i: Instr)
    requires ListsOk(g) && Fits(g, i)
    ensures ListsOk(Emit(g, i))
  {
    var h := Emit(g, i);
    forall b: Block
      ensures SuccsAt(h, b) && PredsAt(h, b)
    {
      assert SuccsAt(g, b) && PredsAt(g, b);
    }
    forall a: Block, b: Block
      ensures Mirrors(h, a, b)
    {
      assert Mirrors(g, a, b);
    }
  }

  lemma EmitSites(g: Gen, i: Instr)
    requires ResultsOk(g) && Fits(g, i)
    ensures forall r :: r in g.sites ==> r in Emit(g, i).sites && Emit(g, i).sites[r] == g.sites[r]
  {
    forall r | r in g.sites
      ensures r in Emit(g, i).sites && Emit(g, i).sites[r] == g.sites[r]
    {
      assert SiteAt(g, r);
    }
  }

  lemma EmitResults(g: Gen, i: Instr)
    requires ResultsOk(g) && Fits(g, i)
    ensures ResultsOk(Emit(g, i))
  {
    hide AllLocal;
    var h := Emit(g, i);
    EmitSites(g, i);
    forall b: Block, k: nat
      ensures DestAt(h, b, k) && UsesAt(h, b, k)
    {
      assert DestAt(g, b, k) && UsesAt(g, b, k);
      if b < |h.code| && k < |h.code[b].body| {
        if b < |g.code| && k < |g.code[b].body| {
          LocalGrows(g.sites, h.sites, Uses(g.code[b].body[k]), b, k);
        } else {
          LocalGrows(g.sites, h.sites, Uses(i), b, k);
        }
      }
    }
    forall r
      ensures SiteAt(h, r)
    {
      assert SiteAt(g, r);
    }
    forall b: Block
      ensures TermAt(h, b)
    {
      assert TermAt(g, b);
      if b < |g.code| && b != g.insert && g.code[b].term.Some? {
        LocalGrows(g.sites, h.sites, TermUses(g.code[b].term.value), b, |g.code[b].body|);
      }
    }
  }

  lemma NewBlockKeeps(g: Gen)
    requires Ok(g)
    ensures Ok(NewBlock(g))
  {
    hide AllLocal;
    var h := NewBlock(g);
    forall b: Block
      ensures SuccsAt(h, b) && PredsAt(h, b) && TermAt(h, b)
    {
      assert SuccsAt(g, b) && PredsAt(g, b) && TermAt(g, b);
    }
    forall a: Block, b: Block
      ensures Mirrors(h, a, b)
    {
      assert Mirrors(g, a, b) && SuccsAt(g, a) && PredsAt(g, b);
    }
    forall b: Block, k: nat
      ensures DestAt(h, b, k) && UsesAt(h, b, k)
    {
      assert DestAt(g, b, k) && UsesAt(g, b, k);
    }
    forall r
      ensures SiteAt(h, r)
    {
      assert SiteAt(g, r);
    }
  }

  /** A terminator of its block's results, with different targets other than the
      entry. */
  ghost predicate Ends(g: Gen, t: Term) {
    && Open(g) && g.insert < |g.succs| && AllLocal(g.sites, TermUses(t), g.insert, |g.code[g.insert].body|)
    && (forall c :: c in Targets(t) ==> 0 < c < |g.code|)
    && (t.CondBr? ==> t.ifTrue != t.ifFalse)
  }

  lemma AddPredsAt(preds: seq<seq<Block>>, t: Term, b: Block, c: Block)
    requires c < |preds| && (t.CondBr? ==> t.ifTrue != t.ifFalse)
    ensures |AddPreds(preds, t, b)| == |preds|
    ensures AddPreds(preds, t, b)[c] == if c in Targets(t) then preds[c] + [b] else preds[c]
  {
  }

  lemma AddPredsLength(preds: seq<seq<Block>>, t: Term, b: Block)
    ensures |AddPreds(preds, t, b)| == |preds|
  {
  }

  lemma TerminateKeeps(g: Gen, t: Term)
    requires Ok(g) && Ends(g, t)
    ensures Ok(Terminate(g, t))
  {
    TerminateLists(g, t);
    TerminateResults(g, t);
  }

  lemma TerminateLists(g: Gen, t: Term)
    requires ListsOk(g) && Ends(g, t)
    ensures ListsOk(Terminate(g, t))
  {
    hide AddPreds, AllLocal;
    var h := Terminate(g, t);
    AddPredsLength(g.preds, t, g.insert);
    assert SuccsAt(g, g.insert);
    forall b: Block
      ensures SuccsAt(h, b)
    {
      assert SuccsAt(g, b);
    }
    forall b: Block
      ensures PredsAt(h, b)
    {
      assert PredsAt(g, b);
      if b < |g.preds| {
        AddPredsAt(g.preds, t, g.insert, b);
        assert Mirrors(g, g.insert, b);
        if b in Targets(t) {
          DistinctSnoc(g.preds[b], g.insert);
        }
      }
    }
    forall a: Block, b: Block
      ensures Mirrors(h, a, b)
    {
      assert Mirrors(g, a, b);
      if b < |g.preds| {
        AddPredsAt(g.preds, t, g.insert, b);
      }
    }
  }

  lemma DistinctSnoc(s: seq<Block>, b: Block)
    requires Distinct(s) && b !in s
    ensures Distinct(s + [b])
  {
    forall i, j
      ensures Differ(s + [b], i, j)
    {
      assert Differ(s, i, j);
    }
  }

  lemma TerminateResults(g: Gen, t: Term)
    requires ResultsOk(g) && Ends(g, t)
    ensures ResultsOk(Terminate(g, t))
  {
    hide AllLocal, AddPreds;
    var h := Terminate(g, t);
    forall b: Block
      ensures TermAt(h, b)
    {
      assert TermAt(g, b);
    }
    forall b: Block, k: nat
      ensures DestAt(h, b, k) && UsesAt(h, b, k)
    {
      assert DestAt(g, b, k) && UsesAt(g, b, k);
    }
    forall r
      ensures SiteAt(h, r)
    {
      assert SiteAt(g, r);
    }
  }

  lemma MoveKeeps(g: Gen, b: Block)
    requires Ok(g) && b < |g.code|
    ensures Ok(g.(insert := b))
  {
    var h := g.(insert := b);
    forall b: Block
      ensures SuccsAt(h, b) && PredsAt(h, b) && TermAt(h, b)
    {
      assert SuccsAt(g, b) && PredsAt(g, b) && TermAt(g, b);
    }
    forall a: Block, b: Block
      ensures Mirrors(h, a, b)
    {
      assert Mirrors(g, a, b);
    }
    forall b: Block, k: nat
      ensures DestAt(h, b, k) && UsesAt(h, b, k)
    {
      assert DestAt(g, b, k) && UsesAt(g, b, k);
    }
    forall r
      ensures SiteAt(h, r)
    {
      assert SiteAt(g, r);
    }
  }

  // ---------------------------------------------------------------- straight code

  ghost predicate SitesGrow(g: Gen, h: Gen) { forall r :: r in g.sites ==> r in h.sites && h.sites[r] == g.sites[r] }

  /** From g to h nothing happened but code at the end of the block. */
  ghost predicate Emitted(g: Gen, h: Gen) {
    && Open(g) && Open(h) && h.insert == g.insert && h.preds == g.preds && h.succs == g.succs
    && |h.code| == |g.code| && h.code == g.code[g.insert := h.code[g.insert]]
    && g.code[g.insert].body <= h.code[g.insert].body
    && g.temps <= h.temps && SitesGrow(g, h)
  }

  ghost function Added(g: Gen, h: Gen): seq<Instr>
    requires Emitted(g, h)
  {
    h.code[g.insert].body[|g.code[g.insert].body|..]
  }

  lemma EmittedNothing(g: Gen)
    requires Open(g)
    ensures Emitted(g, g) && Added(g, g) == []
  {
  }

  lemma EmittedOne(g: Gen, h: Gen, i: Instr)
    requires Emitted(g, h) && Ok(h) && Fits(h, i)
    ensures Emitted(g, Emit(h, i)) && Added(g, Emit(h, i)) == Added(g, h) + [i]
  {
    hide ListsOk, AllLocal;
    EmitSites(h, i);
  }

  lemma EmittedTrans(g: Gen, h: Gen, k: Gen)
    requires Emitted(g, h) && Emitted(h, k)
    ensures Emitted(g, k) && Added(g, k) == Added(g, h) + Added(h, k)
  {
    var a, b, c := g.code[g.insert].body, h.code[g.insert].body, k.code[g.insert].body;
    assert b == a + b[|a|..] && c == b + c[|b|..];
    assert c == a + (b[|a|..] + c[|b|..]);
  }

  /** A value of the block that code is added to. */
  ghost predicate LocalOperand(g: Gen, o: Operand)
    requires g.insert < |g.code|
  {
    && OperandBelow(o, g.temps)
    && (!o.Pointer? ==> LocalAt(g.sites, o.v, g.insert, |g.code[g.insert].body|))
  }

  lemma LocalStays(g: Gen, h: Gen, o: Operand)
    requires Emitted(g, h) && LocalOperand(g, o)
    ensures LocalOperand(h, o)
  {
  }

  /** The result of an instruction just emitted. */
  lemma LocalResult(g: Gen, i: Instr)
    requires Open(g) && Dest(i) == Some(Temp(g.temps))
    ensures LocalOperand(Emit(g, i), Int32(Res(Temp(g.temps)))) && LocalOperand(Emit(g, i), Int1(Res(Temp(g.temps))))
  {
  }

  lemma AddedIsThere(g: Gen, h: Gen)
    requires Emitted(g, h)
    ensures CodeAt(h.code, Here(g), Added(g, h)) && Here(h) == Place(g.insert, Here(g).i + |Added(g, h)|)
    ensures Grows(g.code, h.code)
  {
  }

  // ---------------------------------------------------------------- blocks

  /** p comes earlier than b and leads to it. */
  ghost predicate Rooted(g: Gen, b: Block) {
    b < |g.preds| && exists p :: p in g.preds[b] && p < b
  }

  ghost predicate SameBlock(g: Gen, h: Gen, b: Block) {
    b < |g.code| && b < |h.code| && b < |g.preds| && b < |h.preds| && h.preds[b] == g.preds[b] && (b != g.insert ==> h.code[b] == g.code[b])
  }

  ghost predicate NewOk(g: Gen, h: Gen, pending: set<Block>, loose: set<Block>, b: Block) {
    b < |h.code| && b < |h.preds| ==>
      && (b == g.insert || |g.code| <= b ==> b in pending || h.code[b].term.Some?)
      && (|g.code| <= b ==> (b in loose || Rooted(h, b)) && |h.preds[b]| <= 2)
  }

  /** From g to h only the block code is added to and new blocks have changed; of
      these all but the pending ones are terminated, and all but the loose ones have
      an earlier predecessor. */
  ghost predicate Built(g: Gen, h: Gen, pending: set<Block>, loose: set<Block>) {
    && |g.code| <= |h.code| && |g.preds| == |g.code| && |h.preds| == |h.code| && g.temps <= h.temps
    && Grows(g.code, h.code)
    && (forall b: Block {:trigger SameBlock(g, h, b)} :: b < |g.code| ==> SameBlock(g, h, b))
    && (forall b: Block {:trigger NewOk(g, h, pending, loose, b)} :: NewOk(g, h, pending, loose, b))
  }

  ghost predicate Mine(g: Gen, b: Block) { b == g.insert || |g.code| <= b }

  /** All new blocks are finished but the one that code goes on in. */
  ghost predicate Grew(g: Gen, h: Gen) {
    Built(g, h, {h.insert}, {}) && Mine(g, h.insert)
  }

  lemma GrewNothing(g: Gen)
    requires Ok(g)
    ensures Grew(g, g) && Built(g, g, {g.insert}, {})
  {
    forall b: Block
      ensures NewOk(g, g, {g.insert}, {}, b)
    {
    }
  }

  lemma BuiltEmitted(g: Gen, h: Gen, k: Gen, pending: set<Block>, loose: set<Block>)
    requires Built(g, h, pending, loose) && Emitted(h, k) && Mine(g, h.insert)
    ensures Built(g, k, pending, loose) && Grows(h.code, k.code)
  {
    AddedIsThere(h, k);
    GrowsTrans(g.code, h.code, k.code);
    forall b: Block | b < |g.code|
      ensures SameBlock(g, k, b)
    {
      assert SameBlock(g, h, b);
    }
    forall b: Block
      ensures NewOk(g, k, pending, loose, b)
    {
      assert NewOk(g, h, pending, loose, b);
    }
  }

  lemma BuiltBlock(g: Gen, h: Gen, pending: set<Block>, loose: set<Block>)
    requires Built(g, h, pending, loose)
    ensures Built(g, NewBlock(h), pending + {|h.code|}, loose + {|h.code|}) && Grows(h.code, NewBlock(h).code)
  {
    var k := NewBlock(h);
    GrowsTrans(g.code, h.code, k.code);
    forall b: Block | b < |g.code|
      ensures SameBlock(g, k, b)
    {
      assert SameBlock(g, h, b);
    }
    forall b: Block
      ensures NewOk(g, k, pending + {|h.code|}, loose + {|h.code|}, b)
    {
      assert NewOk(g, h, pending, loose, b);
    }
  }

  /** The targets are new and have one predecessor at most. */
  ghost predicate NewTargets(g: Gen, h: Gen, t: Term) {
    forall c :: c in Targets(t) ==> |g.code| <= c < |h.preds| && |h.preds[c]| <= 1
  }

  ghost function Later(t: Term, b: Block): set<Block> { set c | c in Targets(t) && b < c }

  lemma BuiltTerm(g: Gen, h: Gen, t: Term, pending: set<Block>, loose: set<Block>)
    requires Built(g, h, pending, loose) && ListsOk(h) && Ends(h, t) && Mine(g, h.insert) && NewTargets(g, h, t)
    ensures Built(g, Terminate(h, t), pending - {h.insert}, loose - Later(t, h.insert)) && Grows(h.code, Terminate(h, t).code)
  {
    hide ListsOk, AllLocal, AddPreds;
    var k := Terminate(h, t);
    AddPredsLength(h.preds, t, h.insert);
    assert forall b {:trigger h.code[b]} :: 0 <= b < |h.code| ==> BlockGrows(h.code[b], k.code[b]);
    GrowsTrans(g.code, h.code, k.code);
    forall b: Block | b < |g.code|
      ensures SameBlock(g, k, b)
    {
      assert SameBlock(g, h, b);
      AddPredsAt(h.preds, t, h.insert, b);
    }
    forall b: Block
      ensures NewOk(g, k, pending - {h.insert}, loose - Later(t, h.insert), b)
    {
      assert NewOk(g, h, pending, loose, b);
      if b < |h.preds| {
        AddPredsAt(h.preds, t, h.insert, b);
        if b in Targets(t) && h.insert < b {
          assert h.insert in k.preds[b];
        } else if Rooted(h, b) {
          var p :| p in h.preds[b] && p < b;
          assert p in k.preds[b];
        }
      }
    }
  }

  /** A statement visited on the way. */
  lemma BuiltVisit(g: Gen, h: Gen, k: Gen, pending: set<Block>, loose: set<Block>)
    requires Built(g, h, pending, loose) && Grew(h, k) && Mine(g, h.insert)
    ensures Built(g, k, pending - {h.insert} + {k.insert}, loose) && Grows(h.code, k.code) && Mine(g, k.insert)
  {
    GrowsTrans(g.code, h.code, k.code);
    forall b: Block | b < |g.code|
      ensures SameBlock(g, k, b)
    {
      assert SameBlock(g, h, b) && SameBlock(h, k, b);
    }
    forall b: Block
      ensures NewOk(g, k, pending - {h.insert} + {k.insert}, loose, b)
    {
      assert NewOk(g, h, pending, loose, b) && NewOk(h, k, {k.insert}, {}, b);
      if b < |h.code| {
        assert SameBlock(h, k, b);
      }
    }
  }

  lemma GrewTrans(g: Gen, h: Gen, k: Gen)
    requires Grew(g, h) && Grew(h, k)
    ensures Grew(g, k)
  {
    BuiltVisit(g, h, k, {h.insert}, {});
    assert {h.insert} - {h.insert} + {k.insert} == {k.insert};
  }
}
