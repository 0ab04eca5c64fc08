/** C-minus functions over int variables, and what they mean. */
module Ast {
  import opened Arithmetic
  import opened Ir

  datatype RelOp = OpLe | OpLt | OpGt | OpGe | OpEq | OpNeq

  datatype AddOp = OpPlus | OpMinus

  datatype MulOp = OpMul | OpDiv

  /** Layers of the grammar that only forward to the next one have no node. */
  datatype Expr =
    | Num(n: int)
    | Var(id: string)
    | Assign(id: string, e: Expr)
    | Relational(rel: RelOp, l: Expr, r: Expr)
    | Additive(add: AddOp, l: Expr, r: Expr)
    | Multiplicative(mul: MulOp, l: Expr, r: Expr)
    | Invoke(id: string, args: seq<Expr>)

  datatype Stmt =
    | Compound(locals: seq<string>, body: seq<Stmt>)
    | Expression(e: Option<Expr>)
    | Selection(cond: Expr, yes: Stmt, no: Option<Stmt>)
    | Iteration(cond: Expr, loop: Stmt)
    | Return(e: Option<Expr>)

  datatype FunDecl = FunDecl(params: seq<string>, isVoid: bool, body: Stmt)

  /** What a global name stands for: an int variable or a function. */
  datatype Global = IntVar(cell: nat) | Function(f: nat, arity: nat, noValue: bool)

  type Globals = map<string, Global>

  // ---------------------------------------------------------------- values

  function Relates(op: RelOp, a: int, b: int): bool {
    match op
    case OpLe => a <= b
    case OpLt => a < b
    case OpGt => b < a
    case OpGe => b <= a
    case OpEq => a == b
    case OpNeq => a != b
  }

  function Sum(op: AddOp, a: int, b: int): int {
    match op
    case OpPlus => Wrap(a + b)
    case OpMinus => Wrap(a - b)
  }

  /** Division by zero, and the quotient that does not fit, trap. */
  function Product(op: MulOp, a: int, b: int): Option<int> {
    match op
    case OpMul => Some(Wrap(a * b))
    case OpDiv => if b == 0 || (a == MIN && b == -1) then None else Some(Quotient(a, b))
  }

  /** The values of the local names, innermost scope last; None before the first
      assignment. */
  type Frames = seq<map<string, Option<int>>>

  datatype SourceState = SourceState(frames: Frames, mem: Memory, out: seq<int>)

  /** The innermost scope that holds the name. */
  function Level(frames: Frames, id: string): (r: Option<nat>)
    ensures r.Some? ==> r.value < |frames| && id in frames[r.value]
  {
    if frames == [] then None
    else if id in frames[|frames| - 1] then Some(|frames| - 1)
    else Level(frames[..|frames| - 1], id)
  }

  function ReadName(gl: Globals, st: SourceState, id: string): Option<int> {
    match Level(st.frames, id)
    case Some(i) => st.frames[i][id]
    case None => if id in gl && gl[id].IntVar? then Some(Read(st.mem, (gl[id].cell, 0))) else None
  }

  function WriteName(gl: Globals, st: SourceState, id: string, v: int): Option<SourceState> {
    match Level(st.frames, id)
    case Some(i) => Some(st.(frames := st.frames[i := st.frames[i][id := Some(v)]]))
    case None =>
      if id in gl && gl[id].IntVar? then Some(st.(mem := st.mem[(gl[id].cell, 0) := v])) else None
  }

  // ---------------------------------------------------------------- expressions

  datatype ExprResult = Val(v: int, st: SourceState) | Fail(why: Reason, mem: Memory, out: seq<int>)

  datatype TwoResult = Both(a: int, b: int, st: SourceState) | Neither(why: Reason, mem: Memory, out: seq<int>)

  datatype ListResult = Vals(vs: seq<int>, st: SourceState) | Fails(why: Reason, mem: Memory, out: seq<int>)

  function Bad(why: Reason, st: SourceState): ExprResult { Fail(why, st.mem, st.out) }

  function EvalExpr(m: Machine, gl: Globals, e: Expr, st: SourceState): ExprResult
    decreases e, 1
  {
    match e
    case Num(n) => Val(n, st)
    case Var(id) =>
      var v := ReadName(gl, st, id);
      if v.None? then Bad(Undefined, st) else Val(v.value, st)
    case Assign(id, r) =>
      (match EvalExpr(m, gl, r, st)
       case Fail(why, mem, out) => Fail(why, mem, out)
       case Val(v, st') =>
         var st2 := WriteName(gl, st', id, v);
         if st2.None? then Bad(Undefined, st') else Val(v, st2.value))
    case Relational(op, _, _) =>
      (match EvalTwo(m, gl, e, st)
       case Neither(why, mem, out) => Fail(why, mem, out)
       case Both(a, b, st') => Val(Bit(Relates(op, a, b)), st'))
    case Additive(op, _, _) =>
      (match EvalTwo(m, gl, e, st)
       case Neither(why, mem, out) => Fail(why, mem, out)
       case Both(a, b, st') => Val(Sum(op, a, b), st'))
    case Multiplicative(op, _, _) =>
      (match EvalTwo(m, gl, e, st)
       case Neither(why, mem, out) => Fail(why, mem, out)
       case Both(a, b, st') =>
         var v := Product(op, a, b);
         if v.None? then Bad(Trap, st') else Val(v.value, st'))
    case Invoke(id, args) =>
      (match EvalList(m, gl, args, st)
       case Fails(why, mem, out) => Fail(why, mem, out)
       case Vals(vs, st') =>
         if Level(st.frames, id).Some? || id !in gl || gl[id].IntVar? then Bad(Undefined, st')
         else
           match m.callees(gl[id].f, vs, st'.mem, st'.out)
           case NoReply => Bad(Lost, st')
           case Reply(v, mem, out) => Val(v, SourceState(st'.frames, mem, st'.out + out)))
  }

  predicate TwoSided(e: Expr) { e.Relational? || e.Additive? || e.Multiplicative? }

  /** The left operand first. */
  function EvalTwo(m: Machine, gl: Globals, e: Expr, st: SourceState): TwoResult
    requires TwoSided(e)
    decreases e, 0
  {
    match EvalExpr(m, gl, e.l, st)
    case Fail(why, mem, out) => Neither(why, mem, out)
    case Val(a, st') =>
      match EvalExpr(m, gl, e.r, st')
      case Fail(why, mem, out) => Neither(why, mem, out)
      case Val(b, st2) => Both(a, b, st2)
  }

  /** From left to right. */
  function EvalList(m: Machine, gl: Globals, es: seq<Expr>, st: SourceState): (r: ListResult)
    ensures r.Vals? ==> |r.vs| == |es|
    decreases es, |es|
  {
    if es == [] then Vals([], st)
    else
      match EvalList(m, gl, es[..|es| - 1], st)
      case Fails(why, mem, out) => Fails(why, mem, out)
      case Vals(vs, st') =>
        match EvalExpr(m, gl, es[|es| - 1], st')
        case Fail(why, mem, out) => Fails(why, mem, out)
        case Val(v, st2) => Vals(vs + [v], st2)
  }

  // ---------------------------------------------------------------- statements

  /** Timeout: the fuel did not suffice; this is how far it came. */
  datatype Completion =
    | Normal(st: SourceState)
    | Answer(value: Option<int>, mem: Memory, out: seq<int>)
    | Broken(why: Reason, mem: Memory, out: seq<int>)
    | Timeout(mem: Memory, out: seq<int>)

  function Locals(names: seq<string>): map<string, Option<int>> { map id | id in names :: None }

  /** fuel bounds the iterations of every loop. */
  function EvalStmt(m: Machine, gl: Globals, s: Stmt, st: SourceState, fuel: nat): Completion
    decreases fuel, s, 0
  {
    match s
    case Compound(locals, body) =>
      var c := EvalStmts(m, gl, body, st.(frames := st.frames + [Locals(locals)]), fuel);
      if c.Normal? && |st.frames| <= |c.st.frames| then Normal(c.st.(frames := c.st.frames[..|st.frames|])) else c
    case Expression(None) => Normal(st)
    case Expression(Some(e)) =>
      (match EvalExpr(m, gl, e, st)
       case Fail(why, mem, out) => Broken(why, mem, out)
       case Val(_, st') => Normal(st'))
    case Selection(cond, yes, no) =>
      (match EvalExpr(m, gl, cond, st)
       case Fail(why, mem, out) => Broken(why, mem, out)
       case Val(v, st') =>
         if v != 0 then EvalStmt(m, gl, yes, st', fuel)
         else if no.Some? then EvalStmt(m, gl, no.value, st', fuel)
         else Normal(st'))
    case Iteration(cond, loop) =>
      if fuel == 0 then Timeout(st.mem, st.out)
      else
        (match EvalExpr(m, gl, cond, st)
         case Fail(why, mem, out) => Broken(why, mem, out)
         case Val(v, st') =>
           if v == 0 then Normal(st')
           else
             var c := EvalStmt(m, gl, loop, st', fuel);
             if c.Normal? then EvalStmt(m, gl, s, c.st, fuel - 1) else c)
    case Return(None) => Answer(None, st.mem, st.out)
    case Return(Some(e)) =>
      match EvalExpr(m, gl, e, st)
      case Fail(why, mem, out) => Broken(why, mem, out)
      case Val(v, st') => Answer(Some(v), st'.mem, st'.out)
  }

  function EvalStmts(m: Machine, gl: Globals, ss: seq<Stmt>, st: SourceState, fuel: nat): Completion
    decreases fuel, ss, |ss|
  {
    if ss == [] then Normal(st)
    else
      var c := EvalStmts(m, gl, ss[..|ss| - 1], st, fuel);
      if c.Normal? then EvalStmt(m, gl, ss[|ss| - 1], c.st, fuel) else c
  }

  /** The parameters take the arguments in order; of two with one name, the later
      argument stays. */
  function Bind(params: seq<string>, args: seq<int>): map<string, Option<int>>
    requires |params| == |args|
  {
    if params == [] then map[]
    else Bind(params[..|params| - 1], args[..|args| - 1])[params[|params| - 1] := Some(args[|args| - 1])]
  }

  /** Falling off the end gives 0, or nothing from a void function. */
  function CallFunction(m: Machine, gl: Globals, d: FunDecl, mem: Memory, fuel: nat): Completion
    requires |d.params| == |m.args|
  {
    var c := EvalStmt(m, gl, d.body, SourceState([Bind(d.params, m.args)], mem, []), fuel);
    if c.Normal? then Answer(if d.isVoid then None else Some(0), c.st.mem, c.st.out) else c
  }

  // ---------------------------------------------------------------- declared names

  /** Variables and functions are declared and used as such; locals holds the
      local names in scope. */
  predicate ExprOk(gl: Globals, locals: set<string>, e: Expr, asValue: bool)
    decreases e, 0
  {
    match e
    case Num(_) => true
    case Var(id) => VarOk(gl, locals, id)
    case Assign(id, r) => VarOk(gl, locals, id) && ExprOk(gl, locals, r, true)
    case Relational(_, l, r) => ExprOk(gl, locals, l, true) && ExprOk(gl, locals, r, true)
    case Additive(_, l, r) => ExprOk(gl, locals, l, true) && ExprOk(gl, locals, r, true)
    case Multiplicative(_, l, r) => ExprOk(gl, locals, l, true) && ExprOk(gl, locals, r, true)
    case Invoke(id, args) =>
      && id !in locals && id in gl && gl[id].Function? && gl[id].arity == |args| && (asValue ==> !gl[id].noValue)
      && forall i :: 0 <= i < |args| ==> ExprOk(gl, locals, args[i], true)
  }

  function NamesOf(ids: seq<string>): set<string> { set id | id in ids }

  predicate VarOk(gl: Globals, locals: set<string>, id: string) {
    id in locals || (id in gl && gl[id].IntVar?)
  }

  /** A void function returns no value. */
  predicate StmtOk(gl: Globals, locals: set<string>, isVoid: bool, s: Stmt)
    decreases s
  {
    match s
    case Compound(ls, body) =>
      forall i :: 0 <= i < |body| ==> StmtOk(gl, locals + NamesOf(ls), isVoid, body[i])
    case Expression(e) => e.Some? ==> ExprOk(gl, locals, e.value, false)
    case Selection(cond, yes, no) =>
      ExprOk(gl, locals, cond, true) && StmtOk(gl, locals, isVoid, yes) && (no.Some? ==> StmtOk(gl, locals, isVoid, no.value))
    case Iteration(cond, loop) => ExprOk(gl, locals, cond, true) && StmtOk(gl, locals, isVoid, loop)
    case Return(e) => e.Some? ==> !isVoid && ExprOk(gl, locals, e.value, true)
  }

  predicate DeclOk(gl: Globals, d: FunDecl) {
    StmtOk(gl, NamesOf(d.params), d.isVoid, d.body)
  }
}
