/** The code, the phi operands and the value stacks in the middle of renaming. A
    block is in its original form, under the replacements made so far, until the
    walk leaves it; then its slot loads and stores are gone. A phi has one pair for
    each predecessor that has been walked. A stack has one value on top for each
    definition passed on the way down. */
module RenameCode {
  import opened Cfg
  import opened PostOrder
  import opened Arithmetic
  import opened Ir
  import opened Ssa
  import opened SsaValues
  import opened Coverage
  import opened Rename

  // ---------------------------------------------------------------- code

  predicate StoresSlot(i: Instr) { i.Store? && i.ptr.Slot? }

  function MapInstrs(sub: map<Reg, Value>, body: seq<Instr>): (r: seq<Instr>)
    ensures |r| == |body|
  {
    seq(|body|, i requires 0 <= i < |body| => SubstInstr(sub, body[i]))
  }

  /** Renaming deletes the slot stores, and the loads with these results. */
  predicate Deleted(gone: set<Reg>, w: Instr) { (LoadsSlot(w) && w.dest in gone) || StoresSlot(w) }

  /** The instructions renaming leaves in place. */
  function NoSlots(gone: set<Reg>, body: seq<Instr>): seq<Instr> {
    if body == [] then []
    else
      var w := body[|body| - 1];
      NoSlots(gone, body[..|body| - 1]) + (if Deleted(gone, w) then [] else [w])
  }

  /** The results of the loads that go. */
  ghost function GoneOf(c: Promotion): set<Reg> { set r | r in c.sites && Goes(c, r) }

  function NoAllocas(body: seq<Instr>): seq<Instr> {
    if body == [] then []
    else
      var w := body[|body| - 1];
      NoAllocas(body[..|body| - 1]) + (if w.Alloca? then [] else [w])
  }

  lemma {:induction false} NoAllocasAppend(a: seq<Instr>, w: seq<Instr>)
    requires |w| <= 1
    ensures NoAllocas(a + w) == NoAllocas(a) + (if w == [] || w[0].Alloca? then [] else w)
  {
    if w == [] {
      assert a + w == a;
    } else {
      assert (a + w)[..|a + w| - 1] == a;
    }
  }

  lemma MapAppend(sub: map<Reg, Value>, a: seq<Instr>, w: seq<Instr>)
    ensures MapInstrs(sub, a + w) == MapInstrs(sub, a) + MapInstrs(sub, w)
  {
  }

  ghost function KeepOne(sub: map<Reg, Value>, w: Instr): seq<Instr> { if Promoted(sub, w) then [] else [w] }

  /** The loads of the body that go are those that are replaced. */
  ghost predicate GoneAre(gone: set<Reg>, sub: map<Reg, Value>, body: seq<Instr>) {
    forall j {:trigger body[j]} :: 0 <= j < |body| && LoadsSlot(body[j]) ==> (body[j].dest in gone <==> body[j].dest in sub)
  }

  lemma NoneLeftAppend(gone: set<Reg>, sub: map<Reg, Value>, body: seq<Instr>, i: nat)
    requires 0 < i <= |body| && GoneAre(gone, sub, body)
    ensures NoAllocas(NoSlots(gone, body[..i])) == NoAllocas(NoSlots(gone, body[..i - 1])) + KeepOne(sub, body[i - 1])
  {
    var w := body[i - 1];
    assert body[..i][..i - 1] == body[..i - 1] && body[..i][i - 1] == w;
    NoAllocasAppend(NoSlots(gone, body[..i - 1]), if Deleted(gone, w) then [] else [w]);
  }

  /** What is left when both are gone is what promotion keeps. */
  lemma {:induction false} KeptIs(gone: set<Reg>, sub: map<Reg, Value>, body: seq<Instr>, i: nat)
    requires i <= |body| && GoneAre(gone, sub, body)
    ensures MapInstrs(sub, NoAllocas(NoSlots(gone, body[..i]))) + Kept(sub, body, i) == Kept(sub, body, 0)
  {
    hide NoAllocas, NoSlots, MapInstrs, Kept, GoneAre;
    if i > 0 {
      KeptIs(gone, sub, body, i - 1);
      NoneLeftAppend(gone, sub, body, i);
      var a, w := NoAllocas(NoSlots(gone, body[..i - 1])), KeepOne(sub, body[i - 1]);
      MapAppend(sub, a, w);
      KeptFrom(sub, body, i);
      Reassociate(MapInstrs(sub, a), MapInstrs(sub, w), Kept(sub, body, i));
    } else {
      assert body[..0] == [];
      KeptNothing(gone, sub);
    }
  }

  lemma KeptFrom(sub: map<Reg, Value>, body: seq<Instr>, i: nat)
    requires 0 < i <= |body|
    ensures Kept(sub, body, i - 1) == MapInstrs(sub, KeepOne(sub, body[i - 1])) + Kept(sub, body, i)
  {
  }

  lemma KeptNothing(gone: set<Reg>, sub: map<Reg, Value>)
    ensures MapInstrs(sub, NoAllocas(NoSlots(gone, []))) == []
  {
  }

  lemma Reassociate(a: seq<Instr>, b: seq<Instr>, c: seq<Instr>)
    ensures (a + b) + c == a + (b + c)
  {
  }

  function SubstPairs(sub: map<Reg, Value>, pairs: seq<(Value, Block)>): (r: seq<(Value, Block)>)
    ensures |r| == |pairs|
  {
    seq(|pairs|, k requires 0 <= k < |pairs| => (Subst(sub, pairs[k].0), pairs[k].1))
  }

  function SubstPhis(sub: map<Reg, Value>, phis: seq<Phi>): (r: seq<Phi>)
    ensures |r| == |phis|
  {
    seq(|phis|, k requires 0 <= k < |phis| => phis[k].(pairs := SubstPairs(sub, phis[k].pairs)))
  }

  /** Every operand of the block that names r names v instead. */
  function ReplaceIn(r: Reg, v: Value, b: BasicBlock): BasicBlock {
    BasicBlock(SubstPhis(map[r := v], b.phis), MapInstrs(map[r := v], b.body), SubstTerm(map[r := v], b.term))
  }

  lemma ReplaceInstr(sub: map<Reg, Value>, r: Reg, v: Value, w: Instr)
    requires r !in sub && forall q :: q in sub ==> sub[q] != Res(r)
    ensures SubstInstr(map[r := v], SubstInstr(sub, w)) == SubstInstr(sub[r := v], w)
  {
    if w.Call? {
      assert SubstAll(map[r := v], SubstAll(sub, w.args)) == SubstAll(sub[r := v], w.args);
    }
  }

  lemma ReplaceInstrs(sub: map<Reg, Value>, r: Reg, v: Value, body: seq<Instr>)
    requires r !in sub && forall q :: q in sub ==> sub[q] != Res(r)
    ensures MapInstrs(map[r := v], MapInstrs(sub, body)) == MapInstrs(sub[r := v], body)
  {
    forall i | 0 <= i < |body|
      ensures SubstInstr(map[r := v], SubstInstr(sub, body[i])) == SubstInstr(sub[r := v], body[i])
    {
      ReplaceInstr(sub, r, v, body[i]);
    }
  }

  /** The instructions of b so far: all of them, or what is left once the walk
      below b is over. */
  ghost function Shape(c: Promotion, finished: set<Block>, b: Block): seq<Instr>
    requires b < |c.f|
  {
    if b in finished then NoSlots(GoneOf(c), c.f[b].body) else c.f[b].body
  }

  ghost predicate BlockCode(c: Promotion, finished: set<Block>, b: Block, now: BasicBlock) {
    && b < |c.f|
    && now.body == MapInstrs(c.ren.sub, Shape(c, finished, b))
    && now.term == SubstTerm(c.ren.sub, c.f[b].term)
  }

  /** The phi has a pair for each predecessor that has been walked and has a value. */
  ghost predicate PartlyFilled(c: Promotion, walked: set<Block>, b: Block, phi: Phi) {
    && b < |c.g.preds|
    && (forall k :: 0 <= k < |phi.pairs| ==>
          PairOk(c.g, c.ren, b, phi, k) && phi.pairs[k].1 in walked && Solid(c, phi.pairs[k].0))
    && Distinct(PairBlocks(phi))
    && (forall p {:trigger HasPair(phi.pairs, p)} ::
          p in c.g.preds[b] && p in walked && p in c.ren.out && phi.lval in c.ren.out[p] ==> HasPair(phi.pairs, p))
  }

  ghost predicate BlockPhis(c: Promotion, walked: set<Block>, b: Block, phis: seq<Phi>) {
    && PhisFor(c.place, b, phis)
    && forall k {:trigger PartlyFilled(c, walked, b, phis[k])} :: 0 <= k < |phis| ==> PartlyFilled(c, walked, b, phis[k])
  }

  /** The function in the middle of renaming. */
  ghost predicate Code(c: Promotion, walked: set<Block>, finished: set<Block>, blocks: Func) {
    && |blocks| == |c.f|
    && forall b {:trigger blocks[b]} :: 0 <= b < |c.f| ==>
         BlockCode(c, finished, b, blocks[b]) && BlockPhis(c, walked, b, blocks[b].phis)
  }

  lemma SamePairs(c: Promotion, walked: set<Block>, b: Block, phi: Phi, r: Reg, v: Value)
    requires PartlyFilled(c, walked, b, phi) && Goes(c, r)
    ensures SubstPairs(map[r := v], phi.pairs) == phi.pairs
    ensures PartlyFilled(WithSub(c, r, v), walked, b, phi)
  {
    hide DefinedAt;
    var c' := WithSub(c, r, v);
    forall k | 0 <= k < |phi.pairs|
      ensures Subst(map[r := v], phi.pairs[k].0) == phi.pairs[k].0
      ensures PairOk(c'.g, c'.ren, b, phi, k) && Solid(c', phi.pairs[k].0)
    {
      assert PairOk(c.g, c.ren, b, phi, k);
    }
  }

  lemma GoneSame(c: Promotion, c': Promotion)
    requires c' == c.(ren := c'.ren)
    ensures GoneOf(c') == GoneOf(c)
  {
    hide DefinedAt;
  }

  /** Replacing a deleted load everywhere. */
  lemma ReplaceKeepsBlock(c: Promotion, walked: set<Block>, finished: set<Block>, b: Block, now: BasicBlock, r: Reg, v: Value)
    requires BlockCode(c, finished, b, now) && BlockPhis(c, walked, b, now.phis)
    requires r !in c.ren.sub && Goes(c, r) && forall q :: q in c.ren.sub ==> c.ren.sub[q] != Res(r)
    ensures var c' := WithSub(c, r, v); var now' := ReplaceIn(r, v, now);
      BlockCode(c', finished, b, now') && BlockPhis(c', walked, b, now'.phis) && now'.phis == now.phis
  {
    hide PartlyFilled, DefinedAt;
    GoneSame(c, WithSub(c, r, v));
    ReplaceInstrs(c.ren.sub, r, v, Shape(c, finished, b));
    var now' := ReplaceIn(r, v, now);
    forall k | 0 <= k < |now.phis|
      ensures now'.phis[k] == now.phis[k] && PartlyFilled(WithSub(c, r, v), walked, b, now.phis[k])
    {
      assert PartlyFilled(c, walked, b, now.phis[k]);
      SamePairs(c, walked, b, now.phis[k], r, v);
    }
    assert now'.phis == now.phis;
  }

  // ---------------------------------------------------------------- phi operands

  /** The pair an edge from bb brings, if the slot has a value there. */
  function LinkPair(x: nat, cur: Slots, bb: Block): seq<(Value, Block)> { if x in cur then [(cur[x], bb)] else [] }

  /** The pairs from bb are added to the phis. */
  function LinkPhis(phis: seq<Phi>, cur: Slots, bb: Block): (r: seq<Phi>)
    ensures |r| == |phis|
  {
    seq(|phis|, k requires 0 <= k < |phis| => phis[k].(pairs := phis[k].pairs + LinkPair(phis[k].lval, cur, bb)))
  }

  lemma FilledWith(c: Promotion, walked: set<Block>, b: Block, phi: Phi, bb: Block, inn: Slots, cur: Slots)
    requires PartlyFilled(c, walked, b, phi) && bb !in walked && c.ren.out.Keys == walked && AllSolid(c, cur)
    ensures bb !in c.g.preds[b] ==> PartlyFilled(WithBlock(c, bb, inn, cur), walked + {bb}, b, phi)
    ensures bb in c.g.preds[b] ==>
      PartlyFilled(WithBlock(c, bb, inn, cur), walked + {bb}, b, phi.(pairs := phi.pairs + LinkPair(phi.lval, cur, bb)))
  {
    hide DefinedAt;
    var c' := WithBlock(c, bb, inn, cur);
    var phi' := if bb in c.g.preds[b] then phi.(pairs := phi.pairs + LinkPair(phi.lval, cur, bb)) else phi;
    forall k | 0 <= k < |phi'.pairs|
      ensures PairOk(c'.g, c'.ren, b, phi', k) && phi'.pairs[k].1 in walked + {bb} && Solid(c', phi'.pairs[k].0)
    {
      if k < |phi.pairs| {
        assert PairOk(c.g, c.ren, b, phi, k);
      }
    }
    forall i, j | 0 <= i < j < |PairBlocks(phi')|
      ensures Differ(PairBlocks(phi'), i, j)
    {
      assert Differ(PairBlocks(phi), i, j);
    }
    forall p | p in c.g.preds[b] && p in walked + {bb} && p in c'.ren.out && phi.lval in c'.ren.out[p]
      ensures HasPair(phi'.pairs, p)
    {
      if p == bb {
        assert phi'.pairs[|phi.pairs|].1 == bb;
      } else {
        assert HasPair(phi.pairs, p);
        var k :| 0 <= k < |phi.pairs| && phi.pairs[k].1 == p;
        assert phi'.pairs[k].1 == p;
      }
    }
  }

  lemma LinkKeepsBlock(c: Promotion, walked: set<Block>, b: Block, phis: seq<Phi>, bb: Block, inn: Slots, cur: Slots)
    requires BlockPhis(c, walked, b, phis) && bb !in walked && c.ren.out.Keys == walked && AllSolid(c, cur) && b < |c.g.preds|
    ensures BlockPhis(WithBlock(c, bb, inn, cur), walked + {bb}, b, if bb in c.g.preds[b] then LinkPhis(phis, cur, bb) else phis)
    ensures bb in c.g.preds[b] ==> Lvals(LinkPhis(phis, cur, bb)) == Lvals(phis)
  {
    hide PartlyFilled;
    var c' := WithBlock(c, bb, inn, cur);
    var phis' := if bb in c.g.preds[b] then LinkPhis(phis, cur, bb) else phis;
    forall k | 0 <= k < |phis|
      ensures PartlyFilled(c', walked + {bb}, b, phis'[k])
    {
      assert PartlyFilled(c, walked, b, phis[k]);
      FilledWith(c, walked, b, phis[k], bb, inn, cur);
    }
    assert Lvals(phis') == Lvals(phis);
    LvalsPhisFor(c.place, b, phis, phis');
  }

  lemma LvalsPhisFor(place: set<(Block, nat)>, b: Block, phis: seq<Phi>, phis': seq<Phi>)
    requires PhisFor(place, b, phis) && Lvals(phis') == Lvals(phis) && |phis'| == |phis|
    requires forall k :: 0 <= k < |phis| ==> phis'[k].dest == phis[k].dest && phis'[k].lval == phis[k].lval
    ensures PhisFor(place, b, phis')
  {
    forall x: nat | (b, x) in place
      ensures exists k :: 0 <= k < |phis'| && phis'[k].lval == x
    {
      var k :| 0 <= k < |phis| && phis[k].lval == x;
      assert phis'[k].lval == x;
    }
  }

  /** Once every block has been walked each phi has its pairs. */
  lemma AllFilled(c: Promotion, b: Block, phi: Phi)
    requires PartlyFilled(c, Blocks(c.g), b, phi) && EdgesOf(c.g, c.f)
    ensures Filled(c.g, c.ren, b, phi)
  {
    forall p | p in c.g.preds[b] && p in c.ren.out && phi.lval in c.ren.out[p]
      ensures HasPair(phi.pairs, p)
    {
      assert p in Blocks(c.g);
    }
  }

  /** A phi with a pair for every predecessor has exactly one for each. */
  lemma OnePairEach(g: Graph, f: Func, ren: Renaming, b: Block, phi: Phi)
    requires EdgesOf(g, f) && b < |g.preds| && Filled(g, ren, b, phi)
    requires forall p {:trigger HasPair(phi.pairs, p)} :: p in g.preds[b] ==> HasPair(phi.pairs, p)
    ensures |phi.pairs| == |g.preds[b]| && Elems(PairBlocks(phi)) == Elems(g.preds[b])
  {
    var s := Elems(g.preds[b]);
    forall p | p in g.preds[b]
      ensures p in PairBlocks(phi)
    {
      assert HasPair(phi.pairs, p);
      var k :| 0 <= k < |phi.pairs| && phi.pairs[k].1 == p;
      assert PairBlocks(phi)[k] == p;
    }
    forall k | 0 <= k < |phi.pairs|
      ensures PairBlocks(phi)[k] in g.preds[b]
    {
      assert PairOk(g, ren, b, phi, k);
    }
    assert Elems(PairBlocks(phi)) == s;
    assert Distinct(g.preds[b]);
    DistinctSize(g.preds[b]);
    DistinctSize(PairBlocks(phi));
  }

  lemma DistinctSize(s: seq<Block>)
    requires Distinct(s)
    ensures |s| == |Elems(s)|
  {
    forall i, j | 0 <= i < j < |s|
      ensures s[i] != s[j]
    {
      assert Differ(s, i, j);
    }
    DistinctCard(s, Elems(s));
  }

  // ---------------------------------------------------------------- value stacks

  type Stacks = map<nat, seq<Value>>

  function Stack(st: Stacks, x: nat): seq<Value> { if x in st then st[x] else [] }

  function Push(st: Stacks, x: nat, v: Value): Stacks { st[x := Stack(st, x) + [v]] }

  function Pop(st: Stacks, x: nat): Stacks
    requires Stack(st, x) != []
  {
    st[x := Stack(st, x)[..|Stack(st, x)| - 1]]
  }

  /** The same values on every stack; a stack that is empty may or may not be
      there. */
  ghost predicate SameStacks(a: Stacks, b: Stacks) {
    forall x: nat {:trigger Stack(a, x)} {:trigger Stack(b, x)} :: Stack(a, x) == Stack(b, x)
  }

  /** The top of each stack is the current value of its slot. */
  ghost predicate Tops(st: Stacks, cur: Slots) {
    forall x: nat {:trigger Stack(st, x)} {:trigger x in cur} ::
      (x in cur <==> Stack(st, x) != []) && (x in cur ==> Stack(st, x)[|Stack(st, x)| - 1] == cur[x])
  }

  /** What the phis and the instructions of a block define, in order. */
  ghost function Defs(lvals: seq<nat>, body: seq<Instr>): seq<Option<nat>> {
    seq(|lvals| + |body|, k requires 0 <= k < |lvals| + |body| =>
      if k < |lvals| then Some(lvals[k])
      else if StoresSlot(body[k - |lvals|]) then Some(body[k - |lvals|].ptr.x) else None)
  }

  ghost function Count(defs: seq<Option<nat>>, lo: nat, hi: nat, x: nat): nat
    requires lo <= hi <= |defs|
    decreases hi - lo
  {
    if lo == hi then 0 else Count(defs, lo, hi - 1, x) + (if defs[hi - 1] == Some(x) then 1 else 0)
  }

  lemma {:induction false} CountFirst(defs: seq<Option<nat>>, lo: nat, hi: nat, x: nat)
    requires lo < hi <= |defs|
    ensures Count(defs, lo, hi, x) == Count(defs, lo + 1, hi, x) + (if defs[lo] == Some(x) then 1 else 0)
    decreases hi - lo
  {
    if lo + 1 < hi {
      CountFirst(defs, lo, hi - 1, x);
    }
  }

  /** st is saved with one value on top for each definition in the range. */
  ghost predicate Grown(saved: Stacks, st: Stacks, defs: seq<Option<nat>>, lo: nat, hi: nat)
    requires lo <= hi <= |defs|
  {
    forall x: nat {:trigger Stack(st, x)} ::
      Stack(saved, x) <= Stack(st, x) && |Stack(st, x)| == |Stack(saved, x)| + Count(defs, lo, hi, x)
  }

  lemma GrownStart(saved: Stacks, defs: seq<Option<nat>>)
    ensures Grown(saved, saved, defs, 0, 0)
  {
  }

  lemma PushAt(st: Stacks, x: nat, v: Value, y: nat)
    ensures Stack(Push(st, x, v), y) == if y == x then Stack(st, y) + [v] else Stack(st, y)
  {
  }

  lemma PushGrows(saved: Stacks, st: Stacks, defs: seq<Option<nat>>, hi: nat, cur: Slots, v: Value)
    requires hi < |defs| && Grown(saved, st, defs, 0, hi) && Tops(st, cur) && defs[hi].Some?
    ensures Grown(saved, Push(st, defs[hi].value, v), defs, 0, hi + 1)
    ensures Tops(Push(st, defs[hi].value, v), cur[defs[hi].value := v])
  {
    hide Push, Stack;
    var x := defs[hi].value;
    forall y: nat
      ensures Stack(saved, y) <= Stack(Push(st, x, v), y)
      ensures |Stack(Push(st, x, v), y)| == |Stack(saved, y)| + Count(defs, 0, hi + 1, y)
    {
      assert Stack(saved, y) <= Stack(st, y);
      PushAt(st, x, v, y);
    }
    forall y: nat
      ensures y in cur[x := v] <==> Stack(Push(st, x, v), y) != []
      ensures y in cur[x := v] ==> Stack(Push(st, x, v), y)[|Stack(Push(st, x, v), y)| - 1] == cur[x := v][y]
    {
      assert y in cur <==> Stack(st, y) != [];
      PushAt(st, x, v, y);
    }
  }

  lemma PopShrinks(saved: Stacks, st: Stacks, defs: seq<Option<nat>>, lo: nat)
    requires lo < |defs| && Grown(saved, st, defs, lo, |defs|)
    ensures defs[lo].Some? ==> Stack(st, defs[lo].value) != [] && Grown(saved, Pop(st, defs[lo].value), defs, lo + 1, |defs|)
    ensures defs[lo].None? ==> Grown(saved, st, defs, lo + 1, |defs|)
  {
    forall y: nat
      ensures Count(defs, lo, |defs|, y) == Count(defs, lo + 1, |defs|, y) + (if defs[lo] == Some(y) then 1 else 0)
      ensures Stack(saved, y) <= Stack(st, y) && |Stack(st, y)| == |Stack(saved, y)| + Count(defs, lo, |defs|, y)
    {
      CountFirst(defs, lo, |defs|, y);
    }
    if defs[lo].Some? {
      var x := defs[lo].value;
      assert Stack(st, x) != [];
      forall y: nat
        ensures Stack(saved, y) <= Stack(Pop(st, x), y)
      {
      }
    }
  }

  lemma GrownEnd(saved: Stacks, st: Stacks, defs: seq<Option<nat>>)
    requires Grown(saved, st, defs, |defs|, |defs|)
    ensures SameStacks(saved, st)
  {
    forall x: nat
      ensures Stack(saved, x) == Stack(st, x)
    {
      assert Stack(saved, x) <= Stack(st, x);
    }
  }

  lemma GrownSame(saved: Stacks, st: Stacks, st': Stacks, defs: seq<Option<nat>>, lo: nat, hi: nat)
    requires lo <= hi <= |defs| && Grown(saved, st, defs, lo, hi) && SameStacks(st, st')
    ensures Grown(saved, st', defs, lo, hi)
  {
    forall x: nat
      ensures Stack(saved, x) <= Stack(st', x) && |Stack(st', x)| == |Stack(saved, x)| + Count(defs, lo, hi, x)
    {
      assert Stack(saved, x) <= Stack(st, x);
    }
  }

  // ---------------------------------------------------------------- which stacks there are

  /** There is a stack for exactly the slots defined in the blocks walked, and in
      bb up to its instruction i. */
  ghost predicate KeysIn(c: Promotion, walked: set<Block>, bb: Block, i: nat, st: Stacks)
    requires bb < |c.f| && i <= |c.f[bb].body|
  {
    forall x: nat {:trigger x in st} {:trigger Pushed(c.f, c.place, walked, x)} ::
      x in st <==> Pushed(c.f, c.place, walked, x) || (bb, x) in c.place || StoredBefore(c.f[bb].body, i, x)
  }

  ghost predicate KeysExact(c: Promotion, walked: set<Block>, st: Stacks) {
    forall x: nat {:trigger x in st} {:trigger Pushed(c.f, c.place, walked, x)} :: x in st <==> Pushed(c.f, c.place, walked, x)
  }

  /** The first k phis of bb have been pushed. */
  ghost predicate KeysPhis(c: Promotion, walked: set<Block>, phis: seq<Phi>, k: nat, st: Stacks)
    requires k <= |phis|
  {
    forall x: nat {:trigger x in st} {:trigger Pushed(c.f, c.place, walked, x)} ::
      x in st <==> Pushed(c.f, c.place, walked, x) || exists j :: 0 <= j < k && phis[j].lval == x
  }

  lemma KeysNoPhi(c: Promotion, walked: set<Block>, phis: seq<Phi>, st: Stacks)
    requires KeysExact(c, walked, st)
    ensures KeysPhis(c, walked, phis, 0, st)
  {
  }

  lemma KeysPhi(c: Promotion, walked: set<Block>, phis: seq<Phi>, k: nat, st: Stacks, v: Value)
    requires k < |phis| && KeysPhis(c, walked, phis, k, st)
    ensures KeysPhis(c, walked, phis, k + 1, Push(st, phis[k].lval, v))
  {
    hide Pushed;
    var now := Push(st, phis[k].lval, v);
    forall x: nat
      ensures x in now <==> Pushed(c.f, c.place, walked, x) || exists j :: 0 <= j < k + 1 && phis[j].lval == x
    {
      assert x in now <==> x in st || x == phis[k].lval;
    }
  }

  lemma KeysEnter(c: Promotion, walked: set<Block>, bb: Block, phis: seq<Phi>, st: Stacks)
    requires bb < |c.f| && PhisFor(c.place, bb, phis) && KeysPhis(c, walked, phis, |phis|, st)
    ensures KeysIn(c, walked, bb, 0, st)
  {
    hide Pushed;
  }

  lemma KeysStep(c: Promotion, walked: set<Block>, bb: Block, i: nat, st: Stacks, v: Value)
    requires bb < |c.f| && i < |c.f[bb].body| && KeysIn(c, walked, bb, i, st)
    ensures var w := c.f[bb].body[i]; KeysIn(c, walked, bb, i + 1, if StoresSlot(w) then Push(st, w.ptr.x, v) else st)
  {
    hide Pushed;
    forall x: nat
      ensures StoredBefore(c.f[bb].body, i + 1, x) <==> StoredBefore(c.f[bb].body, i, x) || StoresTo(c.f[bb].body[i], x)
    {
    }
  }

  lemma KeysLeave(c: Promotion, walked: set<Block>, bb: Block, st: Stacks)
    requires bb < |c.f| && KeysIn(c, walked, bb, |c.f[bb].body|, st)
    ensures KeysExact(c, walked + {bb}, st)
  {
    hide Stores, StoredBefore;
    forall x: nat
      ensures Pushed(c.f, c.place, walked + {bb}, x) <==> Pushed(c.f, c.place, walked, x) || Defines(c.f, c.place, bb, x)
      ensures StoredBefore(c.f[bb].body, |c.f[bb].body|, x) <==> Stores(c.f, bb, x)
    {
      PushedMore(c.f, c.place, walked, bb, x);
      StoresAnywhere(c.f, bb, x);
    }
  }

  lemma PushedMore(f: Func, place: set<(Block, nat)>, walked: set<Block>, bb: Block, x: nat)
    ensures Pushed(f, place, walked + {bb}, x) <==> Pushed(f, place, walked, x) || Defines(f, place, bb, x)
  {
    hide Defines;
    if Pushed(f, place, walked, x) {
      var d: Block :| d in walked && Defines(f, place, d, x);
      assert d in walked + {bb};
    }
    if Defines(f, place, bb, x) {
      assert bb in walked + {bb};
    }
  }

  /** Popping leaves the stacks in place. */
  lemma KeysPop(c: Promotion, walked: set<Block>, st: Stacks, x: nat)
    requires KeysExact(c, walked, st) && Stack(st, x) != []
    ensures KeysExact(c, walked, Pop(st, x))
  {
    hide Pushed;
  }

  // ---------------------------------------------------------------- the whole state

  /** Between the walks of two blocks. */
  ghost predicate Renamed(c: Promotion, walked: set<Block>, finished: set<Block>, blocks: Func) {
    && Partial(c, walked) && Replaced(c, walked, 0, 0) && Code(c, walked, finished, blocks) && finished <= walked
  }

  /** While block bb is walked, before its instruction i; cur are the values
      there. */
  ghost predicate InBlock(c: Promotion, walked: set<Block>, finished: set<Block>, blocks: Func,
                          bb: Block, inn: Slots, i: nat, cur: Slots)
  {
    && Partial(c, walked) && Replaced(c, walked, bb, i) && Code(c, walked, finished, blocks) && finished <= walked
    && bb < |c.f| && bb !in walked && Rooted(c, walked, bb) && Walking(c, bb, inn, i, cur)
  }

  lemma EnterBlock(c: Promotion, walked: set<Block>, finished: set<Block>, blocks: Func, bb: Block, inn: Slots)
    requires Renamed(c, walked, finished, blocks) && bb < |c.f| && bb !in walked && Rooted(c, walked, bb) && AllSolid(c, inn)
    requires EntryExact(c, bb, inn)
    ensures InBlock(c, walked, finished, blocks, bb, inn, 0, inn)
  {
    hide Partial, Code, Rooted, AllSolid, EntryExact, DefinedAt;
  }

  lemma CodeOf(c: Promotion, walked: set<Block>, finished: set<Block>, blocks: Func, b: Block)
    requires Code(c, walked, finished, blocks) && b < |c.f|
    ensures |blocks| == |c.f| && PhisFor(c.place, b, blocks[b].phis)
    ensures b !in finished ==> blocks[b].body == MapInstrs(c.ren.sub, c.f[b].body)
  {
    hide PartlyFilled, PhisFor;
  }

  /** Passing a load: its slot has a value, and every use of the load gets it. */
  lemma PassLoad(c: Promotion, walked: set<Block>, finished: set<Block>, blocks: Func,
                 bb: Block, inn: Slots, i: nat, cur: Slots, blocks': Func)
    requires InBlock(c, walked, finished, blocks, bb, inn, i, cur) && i < |c.f[bb].body| && LoadsSlot(c.f[bb].body[i])
    requires c.f[bb].body[i].ptr.x in cur && |blocks'| == |blocks|
    requires var w := c.f[bb].body[i];
      forall b {:trigger blocks'[b]} :: 0 <= b < |blocks| ==> blocks'[b] == ReplaceIn(w.dest, cur[w.ptr.x], blocks[b])
    ensures var w := c.f[bb].body[i];
      InBlock(WithSub(c, w.dest, cur[w.ptr.x]), walked, finished, blocks', bb, inn, i + 1, cur)
    ensures forall b {:trigger blocks'[b]} :: 0 <= b < |blocks| ==> blocks'[b].phis == blocks[b].phis
  {
    hide Goes, DefinedAt, EntryExact;
    var w := c.f[bb].body[i];
    var v := cur[w.ptr.x];
    assert Solid(c, v);
    LoadGoes(c, bb, inn, i, cur);
    PassLoadCode(c, walked, finished, blocks, bb, i, v, blocks');
    hide Partial, Replaced, Code, Walking, Rooted;
    ReplaceLoad(c, walked, bb, i, v);
    WalkLoad(c, walked, bb, inn, i, cur);
    RootedSame(c, WithSub(c, w.dest, v), walked, bb);
  }

  /** Passing a load that finds no value. */
  lemma PassMissing(c: Promotion, walked: set<Block>, finished: set<Block>, blocks: Func, bb: Block, inn: Slots, i: nat, cur: Slots)
    requires InBlock(c, walked, finished, blocks, bb, inn, i, cur) && i < |c.f[bb].body| && LoadsSlot(c.f[bb].body[i])
    requires c.f[bb].body[i].ptr.x !in cur
    ensures InBlock(c, walked, finished, blocks, bb, inn, i + 1, cur)
  {
    InBlockParts(c, walked, finished, blocks, bb, inn, i, cur);
    hide Partial, Replaced, Code, Walking, Rooted;
    WalkMissing(c, walked, bb, inn, i, cur);
    WalkingBounds(c, bb, inn, i, cur);
  }

  lemma RootedSame(c: Promotion, c': Promotion, walked: set<Block>, b: Block)
    requires Rooted(c, walked, b) && c'.idom == c.idom
    ensures Rooted(c', walked, b)
  {
  }

  lemma PassLoadCode(c: Promotion, walked: set<Block>, finished: set<Block>, blocks: Func,
                     bb: Block, i: nat, v: Value, blocks': Func)
    requires Partial(c, walked) && Replaced(c, walked, bb, i) && Code(c, walked, finished, blocks)
    requires bb < |c.f| && bb !in walked && i < |c.f[bb].body| && LoadsSlot(c.f[bb].body[i]) && Goes(c, c.f[bb].body[i].dest) && Solid(c, v)
    requires |blocks'| == |blocks|
    requires forall b {:trigger blocks'[b]} :: 0 <= b < |blocks| ==> blocks'[b] == ReplaceIn(c.f[bb].body[i].dest, v, blocks[b])
    ensures Code(WithSub(c, c.f[bb].body[i].dest, v), walked, finished, blocks')
    ensures forall b {:trigger blocks'[b]} :: 0 <= b < |blocks| ==> blocks'[b].phis == blocks[b].phis
  {
    hide Partial, BlockCode, BlockPhis, Goes;
    var r := c.f[bb].body[i].dest;
    ReplaceLoad(c, walked, bb, i, v);
    forall q | q in c.ren.sub
      ensures c.ren.sub[q] != Res(r)
    {
      assert Solid(c, c.ren.sub[q]);
    }
    forall b | 0 <= b < |c.f|
      ensures BlockCode(WithSub(c, r, v), finished, b, blocks'[b]) && BlockPhis(WithSub(c, r, v), walked, b, blocks'[b].phis)
      ensures blocks'[b].phis == blocks[b].phis
    {
      assert blocks[b] == blocks[b];
      ReplaceKeepsBlock(c, walked, finished, b, blocks[b], r, v);
    }
  }

  /** Passing any other instruction; a slot store defines its slot. */
  lemma PassOther(c: Promotion, walked: set<Block>, finished: set<Block>, blocks: Func,
                  bb: Block, inn: Slots, i: nat, cur: Slots)
    requires InBlock(c, walked, finished, blocks, bb, inn, i, cur) && i < |c.f[bb].body| && !LoadsSlot(c.f[bb].body[i])
    ensures var w := c.f[bb].body[i];
      InBlock(c, walked, finished, blocks, bb, inn, i + 1, if StoresSlot(w) then cur[w.ptr.x := Subst(c.ren.sub, w.val)] else cur)
  {
    hide Partial, Replaced, Code, Walking, Rooted;
    WalkOther(c, walked, bb, inn, i, cur);
    WalkingBounds(c, bb, inn, i, cur);
  }

  lemma WalkingBounds(c: Promotion, bb: Block, inn: Slots, i: nat, cur: Slots)
    requires Walking(c, bb, inn, i, cur)
    ensures bb < |c.f| && i <= |c.f[bb].body| && cur == After(c.f[bb].body, inn, c.ren.sub, i) && AllSolid(c, cur)
  {
  }

  /** At the end of the block its successors' phis get their operands. */
  lemma PassEnd(c: Promotion, walked: set<Block>, finished: set<Block>, blocks: Func,
                bb: Block, inn: Slots, cur: Slots, blocks': Func)
    requires bb < |c.f| && InBlock(c, walked, finished, blocks, bb, inn, |c.f[bb].body|, cur)
    requires forall x {:trigger EntryValue(c.place, inn, Above(c.idom, c.ren, bb), bb, x)} ::
      EntryValue(c.place, inn, Above(c.idom, c.ren, bb), bb, x)
    requires |blocks'| == |blocks| == |c.g.preds|
    requires forall b {:trigger blocks'[b]} :: 0 <= b < |blocks| ==> LinkedTo(c.g, cur, bb, b, blocks[b], blocks'[b])
    ensures Renamed(WithBlock(c, bb, inn, cur), walked + {bb}, finished, blocks')
    ensures forall b {:trigger blocks'[b]} :: 0 <= b < |blocks| ==> Lvals(blocks'[b].phis) == Lvals(blocks[b].phis)
  {
    hide *;
    InBlockParts(c, walked, finished, blocks, bb, inn, |c.f[bb].body|, cur);
    WalkDone(c, walked, bb, inn, cur);
    WalkingBounds(c, bb, inn, |c.f[bb].body|, cur);
    PassEndCode(c, walked, finished, blocks, bb, inn, cur, blocks');
    MakeRenamed(WithBlock(c, bb, inn, cur), walked + {bb}, finished, blocks');
  }

  lemma MakeRenamed(c: Promotion, walked: set<Block>, finished: set<Block>, blocks: Func)
    requires Partial(c, walked) && Replaced(c, walked, 0, 0) && Code(c, walked, finished, blocks) && finished <= walked
    ensures Renamed(c, walked, finished, blocks)
  {
  }

  lemma InBlockParts(c: Promotion, walked: set<Block>, finished: set<Block>, blocks: Func, bb: Block, inn: Slots, i: nat, cur: Slots)
    requires InBlock(c, walked, finished, blocks, bb, inn, i, cur)
    ensures Partial(c, walked) && Replaced(c, walked, bb, i) && Code(c, walked, finished, blocks) && finished <= walked
    ensures bb < |c.f| && bb !in walked && Rooted(c, walked, bb) && Walking(c, bb, inn, i, cur)
    ensures c.Base()
  {
  }

  /** What linking does to block b when bb ends with cur. */
  ghost predicate LinkedTo(g: Graph, cur: Slots, bb: Block, b: Block, was: BasicBlock, now: BasicBlock) {
    && b < |g.preds| && now.body == was.body && now.term == was.term
    && (bb in g.preds[b] ==> now.phis == LinkPhis(was.phis, cur, bb))
    && (bb !in g.preds[b] ==> now.phis == was.phis)
  }

  lemma PassEndCode(c: Promotion, walked: set<Block>, finished: set<Block>, blocks: Func,
                    bb: Block, inn: Slots, cur: Slots, blocks': Func)
    requires Partial(c, walked) && Code(c, walked, finished, blocks) && bb !in walked && AllSolid(c, cur)
    requires |blocks'| == |blocks| == |c.g.preds|
    requires forall b {:trigger blocks'[b]} :: 0 <= b < |blocks| ==> LinkedTo(c.g, cur, bb, b, blocks[b], blocks'[b])
    ensures Code(WithBlock(c, bb, inn, cur), walked + {bb}, finished, blocks')
    ensures forall b {:trigger blocks'[b]} :: 0 <= b < |blocks| ==> Lvals(blocks'[b].phis) == Lvals(blocks[b].phis)
  {
    hide BlockPhis, PartlyFilled, AllSolid, Goes;
    var c' := WithBlock(c, bb, inn, cur);
    GoneSame(c, c');
    forall b | 0 <= b < |c.f|
      ensures BlockCode(c', finished, b, blocks'[b]) && BlockPhis(c', walked + {bb}, b, blocks'[b].phis)
      ensures Lvals(blocks'[b].phis) == Lvals(blocks[b].phis)
    {
      assert BlockCode(c, finished, b, blocks[b]) && LinkedTo(c.g, cur, bb, b, blocks[b], blocks'[b]);
      LinkKeepsBlock(c, walked, b, blocks[b].phis, bb, inn, cur);
    }
  }

  /** Deleting the slot loads and stores of a walked block. */
  lemma FinishBlock(c: Promotion, walked: set<Block>, finished: set<Block>, blocks: Func, bb: Block, body: seq<Instr>)
    requires Renamed(c, walked, finished, blocks) && bb in walked && bb !in finished && bb < |c.f|
    requires body == MapInstrs(c.ren.sub, NoSlots(GoneOf(c), c.f[bb].body))
    ensures |blocks| == |c.f| && Renamed(c, walked, finished + {bb}, blocks[bb := blocks[bb].(body := body)])
  {
    hide BlockPhis, Partial, Replaced;
    var blocks' := blocks[bb := blocks[bb].(body := body)];
    forall b | 0 <= b < |c.f|
      ensures BlockCode(c, finished + {bb}, b, blocks'[b]) && BlockPhis(c, walked, b, blocks'[b].phis)
    {
      assert BlockCode(c, finished, b, blocks[b]);
    }
  }
}
