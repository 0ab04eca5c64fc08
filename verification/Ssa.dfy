/** What promoting stack slots to SSA values means, independently of how it is
    done: the form expected of the function before, where phis have to stand,
    the value every slot has at every point, and the function afterwards. */
module Ssa {
  import opened Cfg
  import opened PostOrder
  import opened Arithmetic
  import opened Ir

  /** Where each result is computed: block and position. */
  type Sites = map<Reg, (Block, nat)>

  ghost predicate SiteOf(f: Func, sites: Sites, b: Block, i: nat)
    requires b < |f| && i < |f[b].body|
  {
    var d := Dest(f[b].body[i]);
    d.Some? ==> d.value.Temp? && d.value in sites && sites[d.value] == (b, i)
  }

  /** Every result is computed once. */
  ghost predicate SingleSites(f: Func, sites: Sites) {
    && (forall b, i {:trigger SiteOf(f, sites, b, i)} :: 0 <= b < |f| && 0 <= i < |f[b].body| ==> SiteOf(f, sites, b, i))
    && (forall r :: r in sites ==> sites[r].0 < |f| && sites[r].1 < |f[sites[r].0].body|)
    && (forall r :: r in sites ==> Dest(f[sites[r].0].body[sites[r].1]) == Some(r))
  }

  /** The site is passed on every way to position i of block b. */
  ghost predicate Before(g: Graph, site: (Block, nat), b: Block, i: nat) {
    (site.0 == b && site.1 < i) || StrictDom(g, site.0, b)
  }

  /** v has a value at position i of block b: its definition comes before. */
  ghost predicate Available(g: Graph, sites: Sites, v: Value, b: Block, i: nat) {
    match v
    case Const(_) => true
    case Param(_) => true
    case Res(Temp(t)) => Temp(t) in sites && Before(g, sites[Temp(t)], b, i)
    case Res(PhiOf(c, _)) => c < g.Size() && Dom(g, c, b)
  }

  ghost predicate UsesAvailable(g: Graph, f: Func, sites: Sites, b: Block, i: nat)
    requires b < |f| && i < |f[b].body|
  {
    forall k :: 0 <= k < |Uses(f[b].body[i])| ==>
      !IsPhiResult(Uses(f[b].body[i])[k]) && Available(g, sites, Uses(f[b].body[i])[k], b, i)
  }

  ghost predicate TermAvailable(g: Graph, f: Func, sites: Sites, b: Block)
    requires b < |f|
  {
    forall k :: 0 <= k < |TermUses(f[b].term)| ==>
      !IsPhiResult(TermUses(f[b].term)[k]) && Available(g, sites, TermUses(f[b].term)[k], b, |f[b].body|)
  }

  predicate IsPhiResult(v: Value) { v.Res? && v.r.PhiOf? }

  /** The edges of g are those of the terminators, without repetition. */
  ghost predicate EdgesOf(g: Graph, f: Func) {
    && g.WellFormed() && |f| == g.Size()
    && (forall b :: 0 <= b < |f| ==> g.succs[b] == Targets(f[b].term))
    && (forall b :: 0 <= b < |f| && f[b].term.CondBr? ==> f[b].term.ifTrue != f[b].term.ifFalse)
    && (forall b {:trigger Distinct(g.preds[b])} :: 0 <= b < |g.preds| ==> Distinct(g.preds[b]))
  }

  /** A function as the generator leaves it: no phis, every result computed once
      and used only where it is available. */
  ghost predicate SourceForm(g: Graph, f: Func, sites: Sites) {
    && EdgesOf(g, f)
    && (forall b :: 0 <= b < |f| ==> f[b].phis == [])
    && SingleSites(f, sites)
    && (forall b, i {:trigger UsesAvailable(g, f, sites, b, i)} ::
          0 <= b < |f| && 0 <= i < |f[b].body| ==> UsesAvailable(g, f, sites, b, i))
    && (forall b {:trigger TermAvailable(g, f, sites, b)} :: 0 <= b < |f| ==> TermAvailable(g, f, sites, b))
  }

  // ---------------------------------------------------------------- phi placement

  predicate StoresTo(i: Instr, x: nat) { i.Store? && i.ptr == Slot(x) }

  predicate LoadsSlot(i: Instr) { i.Load? && i.ptr.Slot? }

  ghost predicate Stores(f: Func, b: Block, x: nat) {
    b < |f| && exists i :: 0 <= i < |f[b].body| && StoresTo(f[b].body[i], x)
  }

  /** place holds the frontier of every block that stores x or is in place for
      x. */
  ghost predicate Closed(g: Graph, f: Func, place: set<(Block, nat)>) {
    forall b: Block, x: nat, y: Block {:trigger InFrontier(g, b, y), (y, x) in place} {:trigger InFrontier(g, b, y), Stores(f, b, x)} ::
      (Stores(f, b, x) || (b, x) in place) && InFrontier(g, b, y) ==> (y, x) in place
  }

  // ---------------------------------------------------------------- values of slots

  type Slots = map<nat, Value>

  function Subst(sub: map<Reg, Value>, v: Value): Value {
    if v.Res? && v.r in sub then sub[v.r] else v
  }

  /** The values of the slots after the first i instructions of a block. */
  ghost function After(body: seq<Instr>, cur: Slots, sub: map<Reg, Value>, i: nat): Slots
    requires i <= |body|
  {
    if i == 0 then cur
    else
      var c := After(body, cur, sub, i - 1);
      if body[i - 1].Store? && body[i - 1].ptr.Slot? then c[body[i - 1].ptr.x := Subst(sub, body[i - 1].val)] else c
  }

  /** The load at i stands for the value its slot has there; where it has none, the
      load stays. */
  ghost predicate LoadResolved(body: seq<Instr>, cur: Slots, sub: map<Reg, Value>, i: nat)
    requires i < |body|
  {
    LoadsSlot(body[i]) ==>
      var c := After(body, cur, sub, i);
      && (body[i].ptr.x in c <==> body[i].dest in sub)
      && (body[i].ptr.x in c ==> sub[body[i].dest] == c[body[i].ptr.x])
  }

  /** The values of the slots where a block begins, behind its phis, and where it
      ends, and the value every deleted load stands for. */
  datatype Renaming = Renaming(inn: map<Block, Slots>, out: map<Block, Slots>, sub: map<Reg, Value>)

  ghost predicate SameAt(a: Slots, b: Slots, x: nat) {
    (x in a <==> x in b) && (x in a ==> a[x] == b[x])
  }

  /** A phi gives its slot a new value; any other slot keeps the value it has at
      the end of the immediate dominator, which above the entry is none. */
  ghost predicate EntryValue(place: set<(Block, nat)>, inn: Slots, above: Slots, b: Block, x: nat) {
    if (b, x) in place then x in inn && inn[x] == Res(PhiOf(b, x)) else SameAt(inn, above, x)
  }

  ghost function Above(idom: map<Block, Block>, ren: Renaming, b: Block): Slots {
    if b != ENTRY && b in idom && idom[b] in ren.out then ren.out[idom[b]] else map[]
  }

  /** The values at the beginning of block b, at its end, and of its loads. */
  ghost predicate BlockConsistent(f: Func, idom: map<Block, Block>, place: set<(Block, nat)>, ren: Renaming, b: Block) {
    && b < |f| && b in ren.inn && b in ren.out
    && (forall x {:trigger EntryValue(place, ren.inn[b], Above(idom, ren, b), b, x)} ::
          EntryValue(place, ren.inn[b], Above(idom, ren, b), b, x))
    && ren.out[b] == After(f[b].body, ren.inn[b], ren.sub, |f[b].body|)
    && (forall i {:trigger LoadResolved(f[b].body, ren.inn[b], ren.sub, i)} ::
          0 <= i < |f[b].body| ==> LoadResolved(f[b].body, ren.inn[b], ren.sub, i))
  }

  ghost predicate Consistent(f: Func, idom: map<Block, Block>, place: set<(Block, nat)>, ren: Renaming) {
    forall b {:trigger BlockConsistent(f, idom, place, ren, b)} :: 0 <= b < |f| ==> BlockConsistent(f, idom, place, ren, b)
  }

  /** Only results of slot loads are replaced. */
  ghost predicate ReplacesLoads(f: Func, sites: Sites, sub: map<Reg, Value>) {
    forall r :: r in sub ==>
      (r in sites && sites[r].0 < |f| && sites[r].1 < |f[sites[r].0].body| && LoadsSlot(f[sites[r].0].body[sites[r].1]))
  }

  // ---------------------------------------------------------------- the function afterwards

  /** Allocas and slot stores go, and the loads that are replaced. */
  predicate Promoted(sub: map<Reg, Value>, i: Instr) {
    i.Alloca? || (LoadsSlot(i) && i.dest in sub) || (i.Store? && i.ptr.Slot?)
  }

  function SubstAll(sub: map<Reg, Value>, vs: seq<Value>): (r: seq<Value>)
    ensures |r| == |vs|
  {
    seq(|vs|, k requires 0 <= k < |vs| => Subst(sub, vs[k]))
  }

  function SubstAddress(sub: map<Reg, Value>, a: Address): Address {
    match a
    case Slot(_) => a
    case Cell(g, v) => Cell(g, Subst(sub, v))
  }

  function SubstInstr(sub: map<Reg, Value>, i: Instr): Instr {
    match i
    case Alloca(_) => i
    case Load(d, p) => Load(d, SubstAddress(sub, p))
    case Store(v, p) => Store(Subst(sub, v), SubstAddress(sub, p))
    case Binary(d, op, v, w) => Binary(d, op, Subst(sub, v), Subst(sub, w))
    case Compare(d, op, v, w) => Compare(d, op, Subst(sub, v), Subst(sub, w))
    case Zext(d, v) => Zext(d, Subst(sub, v))
    case Call(d, c, vs) => Call(d, c, SubstAll(sub, vs))
  }

  function SubstTerm(sub: map<Reg, Value>, t: Term): Term {
    match t
    case Br(_) => t
    case CondBr(v, a, b) => CondBr(Subst(sub, v), a, b)
    case Ret(v) => Ret(Subst(sub, v))
    case RetVoid => t
  }

  /** What is left of a block body from position i on. */
  ghost function Kept(sub: map<Reg, Value>, body: seq<Instr>, i: nat): seq<Instr>
    requires i <= |body|
    decreases |body| - i
  {
    if i == |body| then []
    else if Promoted(sub, body[i]) then Kept(sub, body, i + 1)
    else [SubstInstr(sub, body[i])] + Kept(sub, body, i + 1)
  }

  /** One pair for each predecessor at whose end the slot has a value, holding that
      value; the other predecessors bring no value. */
  ghost predicate Filled(g: Graph, ren: Renaming, b: Block, phi: Phi)
    requires b < |g.preds|
  {
    && (forall k :: 0 <= k < |phi.pairs| ==> PairOk(g, ren, b, phi, k))
    && Distinct(PairBlocks(phi))
    && (forall p {:trigger HasPair(phi.pairs, p)} :: p in g.preds[b] && p in ren.out && phi.lval in ren.out[p] ==> HasPair(phi.pairs, p))
  }

  ghost predicate PairOk(g: Graph, ren: Renaming, b: Block, phi: Phi, k: nat)
    requires b < |g.preds| && k < |phi.pairs|
  {
    var p := phi.pairs[k].1;
    p in g.preds[b] && p in ren.out && phi.lval in ren.out[p] && phi.pairs[k].0 == ren.out[p][phi.lval]
  }

  ghost predicate HasPair(pairs: seq<(Value, Block)>, p: Block) {
    exists k :: 0 <= k < |pairs| && pairs[k].1 == p
  }

  function Lvals(phis: seq<Phi>): seq<nat> { seq(|phis|, k requires 0 <= k < |phis| => phis[k].lval) }

  function PairBlocks(phi: Phi): seq<Block> { seq(|phi.pairs|, k requires 0 <= k < |phi.pairs| => phi.pairs[k].1) }

  /** The phis of block b: one for each slot place asks for. */
  ghost predicate PhisFor(place: set<(Block, nat)>, b: Block, phis: seq<Phi>) {
    && (forall k :: 0 <= k < |phis| ==> phis[k].dest == PhiOf(b, phis[k].lval) && (b, phis[k].lval) in place)
    && Distinct(Lvals(phis))
    && (forall x: nat {:trigger (b, x) in place} :: (b, x) in place ==> exists k :: 0 <= k < |phis| && phis[k].lval == x)
  }

  ghost predicate TargetBlock(g: Graph, place: set<(Block, nat)>, ren: Renaming, b: Block, was: BasicBlock, now: BasicBlock)
    requires b < |g.preds|
  {
    && PhisFor(place, b, now.phis)
    && (forall k :: 0 <= k < |now.phis| ==> Filled(g, ren, b, now.phis[k]))
    && now.body == Kept(ren.sub, was.body, 0)
    && now.term == SubstTerm(ren.sub, was.term)
  }

  /** f' is f with its slots promoted. */
  ghost predicate TargetForm(g: Graph, f: Func, place: set<(Block, nat)>, ren: Renaming, f': Func) {
    && |f'| == |f| == |g.preds|
    && forall b {:trigger TargetBlock(g, place, ren, b, f[b], f'[b])} :: 0 <= b < |f| ==> TargetBlock(g, place, ren, b, f[b], f'[b])
  }
}
