/** The tables of common subexpressions, the aliases a store can have, and what the
    pass makes of a function: block after block in the order of the list, with the
    tables a block takes over from the one in front of it. */
module CseTables {
  import opened Arithmetic
  import opened Cfg
  import opened ArrayIr
  import opened ArraySsa

  // ---------------------------------------------------------------- aliases

  /** What makes each result; phis are not in it. */
  type Makers = map<Reg, Instr>

  function MakersOf(c: SsaFunc): Makers { map r | r in c.sites && c.IsMade(r) :: c.Maker(r) }

  predicate IsGep(made: Makers, v: Value) { v.Res? && v.r in made && made[v.r].Gep? }

  predicate IsAlloca(made: Makers, v: Value) { v.Res? && v.r in made && made[v.r].Alloca? }

  /** An element of an array that came as an argument. */
  predicate IsArgArrayPtr(made: Makers, v: Value) {
    IsGep(made, v) && var base := made[v.r].base; !base.Global? && !IsAlloca(made, base)
  }

  /** An element of a global array, or of one that came as an argument. */
  predicate IsGlobalArgArrayPtr(made: Makers, v: Value) {
    IsGep(made, v) && var base := made[v.r].base; base.Global? || !IsAlloca(made, base)
  }

  predicate IsEqualFirstPtr(made: Makers, a: Value, b: Value) {
    a == b || (IsGep(made, a) && IsGep(made, b) && made[a.r].base == made[b.r].base)
  }

  /** A store through base makes the load through ptr stale. */
  predicate Kills(made: Makers, base: Value, ptr: Value) {
    if !IsGlobalArgArrayPtr(made, base) then IsEqualFirstPtr(made, ptr, base)
    else if IsArgArrayPtr(made, base) then IsGlobalArgArrayPtr(made, ptr)
    else IsArgArrayPtr(made, ptr) || IsEqualFirstPtr(made, ptr, base)
  }

  // ---------------------------------------------------------------- the tables

  /** What an instruction computes, as it is looked up: the maps of the pass in one. A
      constant counts by its value where it is the one looked at. */
  datatype Key =
    | Op(a: Value, op: BinOp, b: Value) | OpInt(a: Value, op: BinOp, n: int) | IntOp(n: int, op: BinOp, b: Value)
    | Elem(base: Value, off: Value) | ElemInt(base: Value, n: int)
    | Cell(ptr: Value)

  type Table = map<Key, Reg>

  function KeyOf(w: Instr): Option<Key> {
    match w
    case Binary(_, op, a, b) => Some(if a.Const? then IntOp(a.n, op, b) else if b.Const? then OpInt(a, op, b.n) else Op(a, op, b))
    case Gep(_, base, off) => Some(if off.Const? then ElemInt(base, off.n) else Elem(base, off))
    case Load(_, p) => Some(Cell(p))
    case _ => None
  }

  /** The table behind an instruction that stays. */
  function Enter(made: Makers, impure: set<nat>, t: Table, w: Instr): Table {
    match w
    case Store(_, base) => map k | k in t && !(k.Cell? && Kills(made, base, k.ptr)) :: t[k]
    case Call(_, f, _) => if f in impure then map k | k in t && !k.Cell? :: t[k] else t
    case _ => if KeyOf(w).Some? then t[KeyOf(w).value := w.d] else t
  }

  // ---------------------------------------------------------------- replacing results

  type Sub = map<Reg, Reg>

  function SubVal(sub: Sub, v: Value): Value { if v.Res? && v.r in sub then Res(sub[v.r]) else v }

  function SubAll(sub: Sub, vs: seq<Value>): seq<Value> { seq(|vs|, k requires 0 <= k < |vs| => SubVal(sub, vs[k])) }

  function SubInstr(sub: Sub, w: Instr): Instr {
    match w
    case Alloca(d) => w
    case Gep(d, b, o) => Instr.Gep(d, SubVal(sub, b), SubVal(sub, o))
    case Load(d, p) => Load(d, SubVal(sub, p))
    case Store(v, p) => Store(SubVal(sub, v), SubVal(sub, p))
    case Binary(d, op, a, b) => Binary(d, op, SubVal(sub, a), SubVal(sub, b))
    case Compare(d, op, a, b) => Compare(d, op, SubVal(sub, a), SubVal(sub, b))
    case Zext(d, v) => Zext(d, SubVal(sub, v))
    case Call(d, f, args) => Call(d, f, SubAll(sub, args))
  }

  function SubPairs(sub: Sub, pairs: seq<(Value, Block)>): seq<(Value, Block)> {
    seq(|pairs|, k requires 0 <= k < |pairs| => (SubVal(sub, pairs[k].0), pairs[k].1))
  }

  function SubPhi(sub: Sub, phi: Phi): Phi { Phi(phi.dest, SubPairs(sub, phi.pairs)) }

  function SubPhis(sub: Sub, phis: seq<Phi>): seq<Phi> { seq(|phis|, k requires 0 <= k < |phis| => SubPhi(sub, phis[k])) }

  function SubTerm(sub: Sub, t: Term): Term {
    match t
    case Br(_) => t
    case CondBr(v, a, b) => CondBr(SubVal(sub, v), a, b)
    case Ret(v) => Ret(SubVal(sub, v))
    case RetVoid => t
  }

  function SubBody(sub: Sub, body: seq<Instr>): seq<Instr> { seq(|body|, k requires 0 <= k < |body| => SubInstr(sub, body[k])) }

  /** Without the instructions to delete. */
  function Keep(gone: set<Reg>, body: seq<Instr>): seq<Instr> {
    if body == [] then []
    else
      var w := body[|body| - 1];
      Keep(gone, body[..|body| - 1]) + if !w.Store? && w.d in gone then [] else [w]
  }

  function SubBlock(gone: set<Reg>, sub: Sub, bb: BasicBlock): BasicBlock {
    BasicBlock(SubPhis(sub, bb.phis), SubBody(sub, Keep(gone, bb.body)), SubTerm(sub, bb.term))
  }

  // ---------------------------------------------------------------- the pass

  datatype Pass = Pass(sub: Sub, table: Table)

  /** An instruction, with the replacements made so far, that is in the table is
      replaced too; any other enters it. */
  function Step(made: Makers, impure: set<nat>, s: Pass, w: Instr): Pass {
    var j := SubInstr(s.sub, w);
    var k := KeyOf(j);
    if k.Some? && k.value in s.table then s.(sub := s.sub[j.d := s.table[k.value]])
    else s.(table := Enter(made, impure, s.table, j))
  }

  function InBlock(made: Makers, impure: set<nat>, s: Pass, body: seq<Instr>): Pass {
    if body == [] then s else Step(made, impure, InBlock(made, impure, s, body[..|body| - 1]), body[|body| - 1])
  }

  /** p leads to b and has been dealt with before it. */
  ghost predicate InFront(preds: seq<Block>, b: Block, p: Block) { p in preds && p < b }

  /** There is no second one. */
  ghost predicate OneInFront(preds: seq<Block>, b: Block) {
    forall p: Block, q: Block {:trigger InFront(preds, b, p), InFront(preds, b, q)} :: InFront(preds, b, p) && InFront(preds, b, q) ==> p == q
  }

  /** Where two tables would have to be merged the pass does not come back. It finishes
      on graphs without such a block. */
  ghost predicate Finishes(g: Graph) { forall b: Block {:trigger OneInFront(g.preds[b], b)} :: b < |g.preds| ==> OneInFront(g.preds[b], b) }

  /** The predecessor in front of b has the entry; a load counts only if no other leads
      to b. */
  ghost predicate Inherits(preds: seq<Block>, ends: seq<Table>, b: Block, k: Key, r: Reg)
    requires b <= |ends|
  {
    && (exists p: Block {:trigger InFront(preds, b, p)} :: InFront(preds, b, p) && k in ends[p] && ends[p][k] == r)
    && (k.Cell? ==> forall p :: p in preds ==> p < b)
  }

  /** The table a block begins with. */
  ghost function Start(preds: seq<Block>, ends: seq<Table>, b: Block): (t: Table)
    requires b <= |ends| && OneInFront(preds, b)
    ensures forall k, r :: (k in t && t[k] == r) <==> Inherits(preds, ends, b, k, r)
  {
    if p: Block :| InFront(preds, b, p) then map k | k in ends[p] && Inherits(preds, ends, b, k, ends[p][k]) :: ends[p][k]
    else map[]
  }

  /** Behind the first k blocks: the replacements, and the table at the end of each. */
  datatype Ends = Ends(sub: Sub, ends: seq<Table>)

  ghost function UpTo(c: SsaFunc, impure: set<nat>, k: nat): (e: Ends)
    requires k <= |c.f| == |c.g.preds| && Finishes(c.g)
    ensures |e.ends| == k
  {
    if k == 0 then Ends(map[], [])
    else
      var e := UpTo(c, impure, k - 1);
      var s := InBlock(MakersOf(c), impure, Pass(e.sub, Start(c.g.preds[k - 1], e.ends, k - 1)), c.f[k - 1].body);
      Ends(s.sub, e.ends + [s.table])
  }

  /** All replacements the pass makes. */
  ghost function Replaced(c: SsaFunc, impure: set<nat>): Sub
    requires |c.f| == |c.g.preds| && Finishes(c.g)
  {
    UpTo(c, impure, |c.f|).sub
  }

  /** The function with them made, and without what they replace. */
  ghost predicate Rewritten(f: Func, sub: Sub, f': Func) {
    |f'| == |f| && forall b {:trigger f'[b]} {:trigger f[b]} :: 0 <= b < |f| ==> f'[b] == SubBlock(sub.Keys, sub, f[b])
  }

  // ---------------------------------------------------------------- where an entry can come to

  /** What block x has entered can be in the table block b begins with, or ends with if
      x is b. */
  ghost predicate Flows(g: Graph, x: Block, b: Block)
    requires b < |g.preds|
    decreases b
  {
    x == b || exists p: Block {:trigger InFront(g.preds[b], b, p)} :: InFront(g.preds[b], b, p) && Flows(g, x, p)
  }

  /** Entries come only to blocks that cannot be reached round where they were made. */
  ghost predicate FlowsDown(g: Graph) {
    forall x: Block, b: Block {:trigger Flows(g, x, b)} :: b < |g.preds| && Flows(g, x, b) ==> Dom(g, x, b)
  }
}
