/** The intermediate representation with arrays: pointers to elements of global and
    local arrays, which calls pass on. Scalars are arrays of one element. */
module ArrayIr {
  import opened Arithmetic
  import opened Cfg

  type Reg = nat

  /** A constant is an object of its own, with a value. */
  datatype Value = Const(n: int, id: nat) | Param(k: nat) | Global(g: nat) | Res(r: Reg)

  datatype Instr =
    | Alloca(d: Reg)
    | Gep(d: Reg, base: Value, off: Value)
    | Load(d: Reg, ptr: Value)
    | Store(val: Value, ptr: Value)
    | Binary(d: Reg, op: BinOp, lhs: Value, rhs: Value)
    | Compare(d: Reg, cmp: CmpOp, lhs: Value, rhs: Value)
    | Zext(d: Reg, val: Value)
    | Call(d: Reg, callee: nat, args: seq<Value>)

  datatype Phi = Phi(dest: Reg, pairs: seq<(Value, Block)>)

  datatype Term = Br(target: Block) | CondBr(cond: Value, ifTrue: Block, ifFalse: Block) | Ret(val: Value) | RetVoid

  datatype BasicBlock = BasicBlock(phis: seq<Phi>, body: seq<Instr>, term: Term)

  type Func = seq<BasicBlock>

  function TermUses(t: Term): seq<Value> {
    match t
    case Br(_) => []
    case CondBr(c, _, _) => [c]
    case Ret(v) => [v]
    case RetVoid => []
  }

  function Targets(t: Term): seq<Block> {
    match t
    case Br(b) => [b]
    case CondBr(_, a, b) => [b, a]
    case Ret(_) => []
    case RetVoid => []
  }

  function ValueRegs(v: Value): set<Reg> { if v.Res? then {v.r} else {} }

  function ListRegs(vs: seq<Value>): set<Reg> { set v | v in vs && v.Res? :: v.r }

  /** The results an instruction uses. */
  function Operands(i: Instr): set<Reg> {
    match i
    case Alloca(_) => {}
    case Gep(_, v, w) => ValueRegs(v) + ValueRegs(w)
    case Load(_, p) => ValueRegs(p)
    case Store(v, p) => ValueRegs(v) + ValueRegs(p)
    case Binary(_, _, a, b) => ValueRegs(a) + ValueRegs(b)
    case Compare(_, _, a, b) => ValueRegs(a) + ValueRegs(b)
    case Zext(_, v) => ValueRegs(v)
    case Call(_, _, args) => ListRegs(args)
  }

  function Made(i: Instr): set<Reg> { if i.Store? then {} else {i.d} }

  function PhiOperands(phi: Phi): set<Reg> { set p | p in phi.pairs && p.0.Res? :: p.0.r }

  // ---------------------------------------------------------------- machine states

  /** A global, or what an alloca makes in one activation of its function. */
  datatype Obj = GlobalObj(g: nat) | Local(frame: nat, r: Reg)

  datatype Datum = N(n: int) | P(o: Obj, k: int)

  type Env = map<Reg, Datum>

  type Mem = map<(Obj, int), int>

  datatype Reply = Reply(value: int, mem: Mem, out: seq<int>) | NoReply

  /** The activation, its arguments, and the called functions. */
  datatype Machine = Machine(frame: nat, args: seq<Datum>, callees: (nat, seq<Datum>, Mem, seq<int>) -> Reply)

  datatype State = State(env: Env, mem: Mem, out: seq<int>)

  datatype Result = Next(s: State) | Halt(why: Reason, mem: Mem, out: seq<int>)

  function Eval(m: Machine, env: Env, v: Value): Option<Datum> {
    match v
    case Const(n, _) => Some(N(n))
    case Param(k) => if k < |m.args| then Some(m.args[k]) else None
    case Global(g) => Some(P(GlobalObj(g), 0))
    case Res(r) => if r in env then Some(env[r]) else None
  }

  /** The value, if it is a number. */
  function Num(m: Machine, env: Env, v: Value): Option<int> {
    var a := Eval(m, env, v);
    if a.Some? && a.value.N? then Some(a.value.n) else None
  }

  /** The element, if it is a pointer. */
  function Ptr(m: Machine, env: Env, v: Value): Option<(Obj, int)> {
    var a := Eval(m, env, v);
    if a.Some? && a.value.P? then Some((a.value.o, a.value.k)) else None
  }

  function EvalAll(m: Machine, env: Env, vs: seq<Value>): Option<seq<Datum>> {
    if vs == [] then Some([])
    else
      var a, rest := Eval(m, env, vs[0]), EvalAll(m, env, vs[1..]);
      if a.None? || rest.None? then None else Some([a.value] + rest.value)
  }

  function Fetch(mem: Mem, a: (Obj, int)): int { if a in mem then mem[a] else 0 }

  function Stop(why: Reason, s: State): Result { Halt(why, s.mem, s.out) }

  function Define(s: State, d: Reg, v: Option<Datum>, why: Reason): Result {
    if v.None? then Stop(why, s) else Next(s.(env := s.env[d := v.value]))
  }

  function AsNum(n: Option<int>): Option<Datum> { if n.Some? then Some(N(n.value)) else None }

  function Exec(m: Machine, i: Instr, s: State): Result {
    match i
    case Alloca(d) => Define(s, d, Some(P(Local(m.frame, d), 0)), Undefined)
    case Gep(d, v, w) =>
      var a, b := Ptr(m, s.env, v), Num(m, s.env, w);
      Define(s, d, if a.None? || b.None? then None else Some(P(a.value.0, a.value.1 + b.value)), Undefined)
    case Load(d, v) =>
      var a := Ptr(m, s.env, v);
      Define(s, d, if a.None? then None else Some(N(Fetch(s.mem, a.value))), Undefined)
    case Store(v, w) =>
      var a, b := Num(m, s.env, v), Ptr(m, s.env, w);
      if a.None? || b.None? then Stop(Undefined, s) else Next(s.(mem := s.mem[b.value := a.value]))
    case Binary(d, op, v, w) =>
      var a, b := Num(m, s.env, v), Num(m, s.env, w);
      if a.None? || b.None? then Stop(Undefined, s) else Define(s, d, AsNum(Arith(op, a.value, b.value)), Trap)
    case Compare(d, op, v, w) =>
      var a, b := Num(m, s.env, v), Num(m, s.env, w);
      if a.None? || b.None? then Stop(Undefined, s) else Define(s, d, Some(N(Bit(Test(op, a.value, b.value)))), Trap)
    case Zext(d, v) => Define(s, d, AsNum(Num(m, s.env, v)), Undefined)
    case Call(d, f, vs) =>
      var a := EvalAll(m, s.env, vs);
      if a.None? then Stop(Undefined, s)
      else
        match m.callees(f, a.value, s.mem, s.out)
        case NoReply => Stop(Lost, s)
        case Reply(n, mem, out) => Next(State(s.env[d := N(n)], mem, s.out + out))
  }

  function ExecBody(m: Machine, body: seq<Instr>, s: State): Result {
    if body == [] then Next(s)
    else
      var r := Exec(m, body[0], s);
      if r.Halt? then r else ExecBody(m, body[1..], r.s)
  }

  function Incoming(m: Machine, env: Env, pairs: seq<(Value, Block)>, b: Block): Option<Datum> {
    if pairs == [] then None
    else if pairs[0].1 == b then Eval(m, env, pairs[0].0)
    else Incoming(m, env, pairs[1..], b)
  }

  function EnterPhis(m: Machine, old_: Env, phis: seq<Phi>, b: Block, env: Env): Env {
    if phis == [] then env
    else
      var v := Incoming(m, old_, phis[0].pairs, b);
      EnterPhis(m, old_, phis[1..], b, if v.None? then env - {phis[0].dest} else env[phis[0].dest := v.value])
  }

  datatype Outcome =
    | Returned(value: Option<int>, mem: Mem, out: seq<int>)
    | Halted(why: Reason, mem: Mem, out: seq<int>)
    | Unfinished(mem: Mem, out: seq<int>)

  datatype Leave = Goto(b: Block) | Done(o: Outcome)

  function ExecTerm(m: Machine, t: Term, s: State): Leave {
    match t
    case Br(b) => Goto(b)
    case CondBr(v, a, b) =>
      var c := Num(m, s.env, v);
      if c.None? then Done(Halted(Undefined, s.mem, s.out)) else Goto(if c.value != 0 then a else b)
    case Ret(v) =>
      var c := Num(m, s.env, v);
      Done(if c.None? then Halted(Undefined, s.mem, s.out) else Returned(c, s.mem, s.out))
    case RetVoid => Done(Returned(None, s.mem, s.out))
  }

  /** Runs from the body of block b, for at most fuel blocks. */
  function RunFrom(m: Machine, f: Func, b: Block, s: State, fuel: nat): Outcome
    decreases fuel
  {
    if fuel == 0 || b >= |f| then Unfinished(s.mem, s.out)
    else
      var r := ExecBody(m, f[b].body, s);
      if r.Halt? then Halted(r.why, r.mem, r.out)
      else
        match ExecTerm(m, f[b].term, r.s)
        case Done(o) => o
        case Goto(c) => if c < |f| then RunFrom(m, f, c, Entered(m, f[c].phis, b, r.s), fuel - 1) else Unfinished(r.s.mem, r.s.out)
  }

  /** The state behind the phis of a block that is entered from b. */
  function Entered(m: Machine, phis: seq<Phi>, b: Block, s: State): State {
    s.(env := EnterPhis(m, s.env, phis, b, s.env))
  }

  function Execute(m: Machine, f: Func, mem: Mem, fuel: nat): Outcome {
    RunFrom(m, f, ENTRY, State(map[], mem, []), fuel)
  }
}
