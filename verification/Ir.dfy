/** The intermediate representation shared by the passes, for functions over
    32-bit integers, and its meaning: runs that end in an outcome, counted in
    blocks. */
module Ir {
  import opened Arithmetic
  import opened Cfg

  /** A result is named by the instruction that computes it; a phi is named by
      the block that holds it and the slot it stands for. */
  datatype Reg = Temp(id: nat) | PhiOf(block: Block, slot: nat)

  datatype Value = Const(n: int) | Param(k: nat) | Res(r: Reg)

  /** A stack slot made by an alloca, or a cell of global memory. */
  datatype Address = Slot(x: nat) | Cell(base: nat, index: Value)

  datatype Instr =
    | Alloca(slot: nat)
    | Load(dest: Reg, ptr: Address)
    | Store(val: Value, ptr: Address)
    | Binary(dest: Reg, op: BinOp, lhs: Value, rhs: Value)
    | Compare(dest: Reg, cmp: CmpOp, lhs: Value, rhs: Value)
    | Zext(dest: Reg, val: Value)
    | Call(dest: Reg, callee: nat, args: seq<Value>)

  datatype Phi = Phi(dest: Reg, lval: nat, pairs: seq<(Value, Block)>)

  datatype Term = Br(target: Block) | CondBr(cond: Value, ifTrue: Block, ifFalse: Block) | Ret(val: Value) | RetVoid

  datatype BasicBlock = BasicBlock(phis: seq<Phi>, body: seq<Instr>, term: Term)

  type Func = seq<BasicBlock>

  /** The successor list a terminator leaves: the false side is entered first. */
  function Targets(t: Term): seq<Block> {
    match t
    case Br(b) => [b]
    case CondBr(_, a, b) => [b, a]
    case Ret(_) => []
    case RetVoid => []
  }

  function Dest(i: Instr): Option<Reg> {
    match i
    case Alloca(_) => None
    case Store(_, _) => None
    case Load(d, _) => Some(d)
    case Binary(d, _, _, _) => Some(d)
    case Compare(d, _, _, _) => Some(d)
    case Zext(d, _) => Some(d)
    case Call(d, _, _) => Some(d)
  }

  function AddressUses(a: Address): seq<Value> {
    match a
    case Slot(_) => []
    case Cell(_, i) => [i]
  }

  function Uses(i: Instr): seq<Value> {
    match i
    case Alloca(_) => []
    case Load(_, p) => AddressUses(p)
    case Store(v, p) => [v] + AddressUses(p)
    case Binary(_, _, a, b) => [a, b]
    case Compare(_, _, a, b) => [a, b]
    case Zext(_, v) => [v]
    case Call(_, _, args) => args
  }

  function TermUses(t: Term): seq<Value> {
    match t
    case Br(_) => []
    case CondBr(c, _, _) => [c]
    case Ret(v) => [v]
    case RetVoid => []
  }

  // ---------------------------------------------------------------- machine states

  type Env = map<Reg, int>

  type Memory = map<(nat, int), int>

  /** What a called function does: it computes a value, may change global memory
      and may print; or it does not come back. */
  datatype Reply = Reply(value: int, mem: Memory, out: seq<int>) | NoReply

  /** What a run does not change: the arguments, and the called functions, whose
      reply may depend on everything exchanged with the outside so far. */
  datatype Machine = Machine(args: seq<int>, callees: (nat, seq<int>, Memory, seq<int>) -> Reply)

  datatype State = State(env: Env, slots: map<nat, int>, mem: Memory, out: seq<int>)

  datatype Result = Next(s: State) | Halt(why: Reason, mem: Memory, out: seq<int>)

  function Eval(m: Machine, env: Env, v: Value): Option<int> {
    match v
    case Const(n) => Some(n)
    case Param(k) => if k < |m.args| then Some(m.args[k]) else None
    case Res(r) => if r in env then Some(env[r]) else None
  }

  function EvalAll(m: Machine, env: Env, vs: seq<Value>): Option<seq<int>> {
    if vs == [] then Some([])
    else
      var a, rest := Eval(m, env, vs[0]), EvalAll(m, env, vs[1..]);
      if a.None? || rest.None? then None else Some([a.value] + rest.value)
  }

  function Read(mem: Memory, a: (nat, int)): int { if a in mem then mem[a] else 0 }

  function Stop(why: Reason, s: State): Result { Halt(why, s.mem, s.out) }

  function Define(s: State, d: Reg, v: Option<int>, why: Reason): Result {
    if v.None? then Stop(why, s) else Next(s.(env := s.env[d := v.value]))
  }

  function Exec(m: Machine, i: Instr, s: State): Result {
    match i
    case Alloca(x) => Next(s.(slots := s.slots - {x}))
    case Load(d, Slot(x)) => Define(s, d, if x in s.slots then Some(s.slots[x]) else None, Undefined)
    case Load(d, Cell(g, v)) =>
      var a := Eval(m, s.env, v);
      Define(s, d, if a.None? then None else Some(Read(s.mem, (g, a.value))), Undefined)
    case Store(v, Slot(x)) =>
      var a := Eval(m, s.env, v);
      if a.None? then Stop(Undefined, s) else Next(s.(slots := s.slots[x := a.value]))
    case Store(v, Cell(g, w)) =>
      var a, b := Eval(m, s.env, v), Eval(m, s.env, w);
      if a.None? || b.None? then Stop(Undefined, s) else Next(s.(mem := s.mem[(g, b.value) := a.value]))
    case Binary(d, op, v, w) =>
      var a, b := Eval(m, s.env, v), Eval(m, s.env, w);
      if a.None? || b.None? then Stop(Undefined, s) else Define(s, d, Arith(op, a.value, b.value), Trap)
    case Compare(d, op, v, w) =>
      var a, b := Eval(m, s.env, v), Eval(m, s.env, w);
      if a.None? || b.None? then Stop(Undefined, s) else Define(s, d, Some(Bit(Test(op, a.value, b.value))), Trap)
    case Zext(d, v) => Define(s, d, Eval(m, s.env, v), Undefined)
    case Call(d, f, vs) =>
      var a := EvalAll(m, s.env, vs);
      if a.None? then Stop(Undefined, s)
      else
        match m.callees(f, a.value, s.mem, s.out)
        case NoReply => Stop(Lost, s)
        case Reply(n, mem, out) => Next(State(s.env[d := n], s.slots, mem, s.out + out))
  }

  function ExecBody(m: Machine, body: seq<Instr>, s: State): Result {
    if body == [] then Next(s)
    else
      var r := Exec(m, body[0], s);
      if r.Halt? then r else ExecBody(m, body[1..], r.s)
  }

  /** What a phi receives when its block is entered from b; a predecessor
      without a pair gives no value. */
  function Incoming(m: Machine, env: Env, pairs: seq<(Value, Block)>, b: Block): Option<int> {
    if pairs == [] then None
    else if pairs[0].1 == b then Eval(m, env, pairs[0].0)
    else Incoming(m, env, pairs[1..], b)
  }

  /** All phis of a block read the environment of the edge. */
  function EnterPhis(m: Machine, old_: Env, phis: seq<Phi>, b: Block, env: Env): Env {
    if phis == [] then env
    else
      var v := Incoming(m, old_, phis[0].pairs, b);
      var env' := if v.None? then env - {phis[0].dest} else env[phis[0].dest := v.value];
      EnterPhis(m, old_, phis[1..], b, env')
  }

  datatype Outcome =
    | Returned(value: Option<int>, mem: Memory, out: seq<int>)
    | Halted(why: Reason, mem: Memory, out: seq<int>)
    | Unfinished(mem: Memory, out: seq<int>)

  /** Leaves a block: either an outcome or the block that follows. */
  datatype Leave = Goto(b: Block) | Done(o: Outcome)

  function ExecTerm(m: Machine, t: Term, s: State): Leave {
    match t
    case Br(b) => Goto(b)
    case CondBr(v, a, b) =>
      var c := Eval(m, s.env, v);
      if c.None? then Done(Halted(Undefined, s.mem, s.out)) else Goto(if c.value != 0 then a else b)
    case Ret(v) =>
      var c := Eval(m, s.env, v);
      Done(if c.None? then Halted(Undefined, s.mem, s.out) else Returned(c, s.mem, s.out))
    case RetVoid => Done(Returned(None, s.mem, s.out))
  }

  /** Runs from the body of block b, for at most fuel blocks. */
  function RunFrom(m: Machine, f: Func, b: Block, s: State, fuel: nat): Outcome
    decreases fuel, 0
  {
    if fuel == 0 || b >= |f| then Unfinished(s.mem, s.out)
    else
      var r := ExecBody(m, f[b].body, s);
      if r.Halt? then Halted(r.why, r.mem, r.out)
      else
        match ExecTerm(m, f[b].term, r.s)
        case Done(o) => o
        case Goto(c) => Enter(m, f, b, c, r.s, fuel - 1)
  }

  /** Follows the edge from b to c. */
  function Enter(m: Machine, f: Func, b: Block, c: Block, s: State, fuel: nat): Outcome
    decreases fuel, 1
  {
    if c >= |f| then Unfinished(s.mem, s.out)
    else RunFrom(m, f, c, s.(env := EnterPhis(m, s.env, f[c].phis, b, s.env)), fuel)
  }

  /** A run of the function from its entry block, in the given memory. */
  function Execute(m: Machine, f: Func, mem: Memory, fuel: nat): Outcome {
    RunFrom(m, f, ENTRY, State(map[], map[], mem, []), fuel)
  }
}
