/** What straight code for an expression has to do: from every state that holds the
    variables of the source, go through to one that holds them after the expression,
    with its value in the operand returned, or halt where the expression has no
    value. */
module ExprMeaning {
  import opened Cfg
  import opened Arithmetic
  import opened Ir
  import opened Ast
  import opened Runs

  /** What the generator's scope stack binds a name to. */
  datatype Entity = Variable(addr: Address) | Routine(f: nat, arity: nat, noValue: bool)

  /** The global scope first, the innermost last. */
  type Scope = seq<map<string, Entity>>

  function EntityOf(g: Global): Entity {
    match g
    case IntVar(c) => Variable(Cell(c, Const(0)))
    case Function(f, n, v) => Routine(f, n, v)
  }

  function GlobalScope(gl: Globals): map<string, Entity> { map id | id in gl :: EntityOf(gl[id]) }

  function Find(scope: Scope, id: string): Option<Entity> {
    if scope == [] then None
    else if id in scope[|scope| - 1] then Some(scope[|scope| - 1][id])
    else Find(scope[..|scope| - 1], id)
  }

  /** The slot of a name declared at a level. */
  ghost predicate SlotOf(scope: Scope, i: nat, id: string, x: nat) {
    0 < i < |scope| && id in scope[i] && scope[i][id] == Variable(Slot(x))
  }

  ghost predicate HasSlot(scope: Scope, slots: nat, i: nat, id: string) {
    0 < i < |scope| && id in scope[i] ==> scope[i][id].Variable? && scope[i][id].addr.Slot? && scope[i][id].addr.x < slots
  }

  ghost predicate SameName(i: nat, id: string, j: nat, jd: string) { i == j && id == jd }

  /** Every local name has a slot of its own. */
  ghost predicate ScopeOk(gl: Globals, scope: Scope, slots: nat) {
    && 0 < |scope| && scope[0] == GlobalScope(gl)
    && (forall i: nat, id {:trigger HasSlot(scope, slots, i, id)} :: HasSlot(scope, slots, i, id))
    && (forall i: nat, id, j: nat, jd, x: nat {:trigger SlotOf(scope, i, id, x), SlotOf(scope, j, jd, x)} ::
          SlotOf(scope, i, id, x) && SlotOf(scope, j, jd, x) ==> SameName(i, id, j, jd))
  }

  /** The value of a local name is in its slot. */
  ghost predicate InSlot(scope: Scope, frames: Frames, slots: map<nat, int>, i: nat, id: string)
    requires i < |frames| && i + 1 < |scope|
  {
    && (id in frames[i] <==> id in scope[i + 1])
    && (id in frames[i] && frames[i][id].Some? ==>
          scope[i + 1][id].Variable? && scope[i + 1][id].addr.Slot? && scope[i + 1][id].addr.x in slots &&
          slots[scope[i + 1][id].addr.x] == frames[i][id].value)
  }

  /** A machine state holds what the source state holds. */
  ghost predicate Matches(scope: Scope, st: SourceState, s: State) {
    && st.mem == s.mem && st.out == s.out && |scope| == |st.frames| + 1
    && forall i: nat, id {:trigger InSlot(scope, st.frames, s.slots, i, id)} :: i < |st.frames| ==> InSlot(scope, st.frames, s.slots, i, id)
  }

  /** What a visitor leaves in ret: the address of a variable, or a value of 32
      bits or of one bit. */
  datatype Operand = Pointer(a: Address) | Int32(v: Value) | Int1(v: Value)

  function ReadAt(m: Machine, a: Address, s: State): Option<int> {
    match a
    case Slot(x) => if x in s.slots then Some(s.slots[x]) else None
    case Cell(g, v) =>
      var i := Eval(m, s.env, v);
      if i.None? then None else Some(Read(s.mem, (g, i.value)))
  }

  ghost predicate Denotes(m: Machine, o: Operand, s: State, v: int) {
    match o
    case Pointer(a) => ReadAt(m, a, s) == Some(v)
    case Int32(w) => Eval(m, s.env, w) == Some(v)
    case Int1(w) => Eval(m, s.env, w) == Some(v)
  }

  /** Results numbered below lo are untouched. */
  ghost predicate Keeps(was: Env, now: Env, lo: nat) {
    forall t: nat {:trigger Temp(t) in now} {:trigger Temp(t) in was} ::
      t < lo ==> (Temp(t) in was <==> Temp(t) in now) && (Temp(t) in was ==> was[Temp(t)] == now[Temp(t)])
  }

  ghost predicate BelowTemp(v: Value, t: nat) {
    match v
    case Const(_) => true
    case Param(_) => false
    case Res(r) => r.Temp? && r.id < t
  }

  ghost predicate OperandBelow(o: Operand, t: nat) {
    match o
    case Pointer(a) => a.Slot? || (a.Cell? && a.index.Const?)
    case Int32(v) => BelowTemp(v, t)
    case Int1(v) => BelowTemp(v, t)
  }

  lemma DenotesStays(m: Machine, o: Operand, s: State, s': State, v: int, lo: nat)
    requires Denotes(m, o, s, v) && !o.Pointer? && OperandBelow(o, lo) && Keeps(s.env, s'.env, lo)
    ensures Denotes(m, o, s', v)
  {
  }

  lemma KeepsTrans(a: Env, b: Env, c: Env, lo: nat, mid: nat)
    requires Keeps(a, b, lo) && Keeps(b, c, mid) && lo <= mid
    ensures Keeps(a, c, lo)
  {
    forall t: nat | t < lo
      ensures (Temp(t) in a <==> Temp(t) in c) && (Temp(t) in a ==> a[Temp(t)] == c[Temp(t)])
    {
      assert Temp(t) in a <==> Temp(t) in b;
    }
  }

  /** The code goes the way of the evaluation; behind a use of an undefined value
      nothing is promised. */
  ghost predicate ExprRuns(m: Machine, gl: Globals, scope: Scope, e: Expr, code: seq<Instr>, o: Operand, lo: nat,
                           st: SourceState, s: State)
  {
    var r := ExecBody(m, code, s);
    match EvalExpr(m, gl, e, st)
    case Val(v, st') => r.Next? && Matches(scope, st', r.s) && Keeps(s.env, r.s.env, lo) && Denotes(m, o, r.s, v)
    case Fail(why, mem, out) => why.Undefined? || r == Halt(why, mem, out)
  }

  ghost predicate ExprMeans(gl: Globals, scope: Scope, e: Expr, code: seq<Instr>, o: Operand, lo: nat) {
    forall m, st, s {:trigger ExprRuns(m, gl, scope, e, code, o, lo, st, s)} ::
      Matches(scope, st, s) ==> ExprRuns(m, gl, scope, e, code, o, lo, st, s)
  }

  // ---------------------------------------------------------------- names

  ghost predicate BoundAlike(scope: Scope, frames: Frames, i: nat, id: string) {
    i < |frames| && i + 1 < |scope| ==> (id in frames[i] <==> id in scope[i + 1])
  }

  /** The innermost binding of a name is at the level the evaluation finds. */
  lemma {:induction false} FindLevel(gl: Globals, scope: Scope, frames: Frames, id: string)
    requires |scope| == |frames| + 1 && scope[0] == GlobalScope(gl)
    requires forall i: nat {:trigger BoundAlike(scope, frames, i, id)} :: BoundAlike(scope, frames, i, id)
    ensures var l := Level(frames, id);
      if l.Some? then id in scope[l.value + 1] && Find(scope, id) == Some(scope[l.value + 1][id])
      else Find(scope, id) == if id in gl then Some(EntityOf(gl[id])) else None
  {
    var n := |frames|;
    if n == 0 {
      assert scope[..0] == [];
    } else {
      var j: nat := n - 1;
      assert BoundAlike(scope, frames, j, id);
    }
    if n > 0 && id !in frames[n - 1] {
      var few, lower := scope[..n], frames[..n - 1];
      forall i: nat
        ensures BoundAlike(few, lower, i, id)
      {
        assert BoundAlike(scope, frames, i, id);
      }
      FindLevel(gl, few, lower, id);
    }
  }

  lemma MatchesNames(scope: Scope, st: SourceState, s: State, id: string)
    requires Matches(scope, st, s)
    ensures forall i: nat {:trigger BoundAlike(scope, st.frames, i, id)} :: BoundAlike(scope, st.frames, i, id)
  {
    forall i: nat
      ensures BoundAlike(scope, st.frames, i, id)
    {
      if i < |st.frames| {
        assert InSlot(scope, st.frames, s.slots, i, id);
      }
    }
  }

  /** Reading a variable: its address holds its value. */
  lemma ReadMatches(m: Machine, gl: Globals, scope: Scope, slots: nat, st: SourceState, s: State, id: string)
    requires ScopeOk(gl, scope, slots) && Matches(scope, st, s) && ReadName(gl, st, id).Some?
    ensures Find(scope, id).Some? && Find(scope, id).value.Variable?
    ensures ReadAt(m, Find(scope, id).value.addr, s) == ReadName(gl, st, id)
  {
    MatchesNames(scope, st, s, id);
    FindLevel(gl, scope, st.frames, id);
    var l := Level(st.frames, id);
    if l.Some? {
      assert InSlot(scope, st.frames, s.slots, l.value, id);
    }
  }

  /** Writing a variable: its address takes the value and nothing else changes. */
  lemma WriteMatches(m: Machine, gl: Globals, scope: Scope, slots: nat, st: SourceState, s: State, id: string, w: Value, v: int)
    requires ScopeOk(gl, scope, slots) && Matches(scope, st, s) && Eval(m, s.env, w) == Some(v)
    requires WriteName(gl, st, id, v).Some?
    ensures Find(scope, id).Some? && Find(scope, id).value.Variable?
    ensures var r := Exec(m, Store(w, Find(scope, id).value.addr), s);
      r.Next? && r.s.env == s.env && Matches(scope, WriteName(gl, st, id, v).value, r.s)
  {
    MatchesNames(scope, st, s, id);
    FindLevel(gl, scope, st.frames, id);
    var l := Level(st.frames, id);
    if l.Some? {
      var k: nat := l.value + 1;
      assert HasSlot(scope, slots, k, id);
      var x := scope[k][id].addr.x;
      assert SlotOf(scope, k, id, x);
      var st', slots' := WriteName(gl, st, id, v).value, s.slots[x := v];
      forall i: nat, jd | i < |st.frames|
        ensures InSlot(scope, st'.frames, slots', i, jd)
      {
        assert InSlot(scope, st.frames, s.slots, i, jd);
        var j := i + 1;
        if jd in scope[j] {
          assert HasSlot(scope, slots, j, jd);
          if scope[j][jd].addr.x == x {
            assert SlotOf(scope, j, jd, x);
            assert SameName(k, id, j, jd);
          }
        }
      }
    }
  }

  // ---------------------------------------------------------------- single steps

  lemma NumMeans(gl: Globals, scope: Scope, n: int, lo: nat)
    ensures ExprMeans(gl, scope, Num(n), [], Int32(Const(n)), lo)
  {
  }

  lemma VarMeans(gl: Globals, scope: Scope, slots: nat, id: string, lo: nat)
    requires ScopeOk(gl, scope, slots) && Find(scope, id).Some? && Find(scope, id).value.Variable?
    ensures ExprMeans(gl, scope, Var(id), [], Pointer(Find(scope, id).value.addr), lo)
  {
    forall m, st, s | Matches(scope, st, s)
      ensures ExprRuns(m, gl, scope, Var(id), [], Pointer(Find(scope, id).value.addr), lo, st, s)
    {
      if ReadName(gl, st, id).Some? {
        ReadMatches(m, gl, scope, slots, st, s, id);
      }
    }
  }

  /** Defining a new result leaves everything in its place. */
  lemma DefineMatches(scope: Scope, st: SourceState, s: State, t: nat, v: int, lo: nat)
    requires Matches(scope, st, s) && lo <= t
    ensures var s' := s.(env := s.env[Temp(t) := v]); Matches(scope, st, s') && Keeps(s.env, s'.env, t) && Keeps(s.env, s'.env, lo)
  {
    var s' := s.(env := s.env[Temp(t) := v]);
    forall i: nat, id | i < |st.frames|
      ensures InSlot(scope, st.frames, s'.slots, i, id)
    {
      assert InSlot(scope, st.frames, s.slots, i, id);
    }
  }

  lemma LoadMeans(gl: Globals, scope: Scope, e: Expr, code: seq<Instr>, a: Address, lo: nat, t: nat)
    requires ExprMeans(gl, scope, e, code, Pointer(a), lo) && lo <= t
    ensures ExprMeans(gl, scope, e, code + [Load(Temp(t), a)], Int32(Res(Temp(t))), lo)
  {
    hide EvalExpr, Matches;
    forall m, st, s | Matches(scope, st, s)
      ensures ExprRuns(m, gl, scope, e, code + [Load(Temp(t), a)], Int32(Res(Temp(t))), lo, st, s)
    {
      assert ExprRuns(m, gl, scope, e, code, Pointer(a), lo, st, s);
      ExecSnoc(m, code, Load(Temp(t), a), s);
      var r, x := ExecBody(m, code, s), EvalExpr(m, gl, e, st);
      if x.Val? {
        DefineMatches(scope, x.st, r.s, t, x.v, lo);
        KeepsTrans(s.env, r.s.env, r.s.env[Temp(t) := x.v], lo, lo);
      }
    }
  }

  lemma ZextMeans(gl: Globals, scope: Scope, e: Expr, code: seq<Instr>, v: Value, lo: nat, t: nat)
    requires ExprMeans(gl, scope, e, code, Int1(v), lo) && lo <= t
    ensures ExprMeans(gl, scope, e, code + [Zext(Temp(t), v)], Int32(Res(Temp(t))), lo)
  {
    hide EvalExpr, Matches;
    forall m, st, s | Matches(scope, st, s)
      ensures ExprRuns(m, gl, scope, e, code + [Zext(Temp(t), v)], Int32(Res(Temp(t))), lo, st, s)
    {
      assert ExprRuns(m, gl, scope, e, code, Int1(v), lo, st, s);
      ExecSnoc(m, code, Zext(Temp(t), v), s);
      var r, x := ExecBody(m, code, s), EvalExpr(m, gl, e, st);
      if x.Val? {
        DefineMatches(scope, x.st, r.s, t, x.v, lo);
        KeepsTrans(s.env, r.s.env, r.s.env[Temp(t) := x.v], lo, lo);
      }
    }
  }

  lemma AssignMeans(gl: Globals, scope: Scope, slots: nat, id: string, e: Expr, code: seq<Instr>, v: Value, lo: nat)
    requires ScopeOk(gl, scope, slots) && Find(scope, id).Some? && Find(scope, id).value.Variable?
    requires ExprMeans(gl, scope, e, code, Int32(v), lo)
    ensures ExprMeans(gl, scope, Assign(id, e), code + [Store(v, Find(scope, id).value.addr)], Int32(v), lo)
  {
    hide Matches;
    var i := Store(v, Find(scope, id).value.addr);
    forall m, st, s | Matches(scope, st, s)
      ensures ExprRuns(m, gl, scope, Assign(id, e), code + [i], Int32(v), lo, st, s)
    {
      assert ExprRuns(m, gl, scope, e, code, Int32(v), lo, st, s);
      ExecSnoc(m, code, i, s);
      var r, x := ExecBody(m, code, s), EvalExpr(m, gl, e, st);
      if x.Val? && WriteName(gl, x.st, id, x.v).Some? {
        WriteMatches(m, gl, scope, slots, x.st, r.s, id, v, x.v);
      }
    }
  }

  // ---------------------------------------------------------------- two operands

  ghost predicate TwoRun(m: Machine, gl: Globals, scope: Scope, e: Expr, code: seq<Instr>, a: Operand, b: Operand, lo: nat,
                         st: SourceState, s: State)
    requires TwoSided(e)
  {
    var r := ExecBody(m, code, s);
    match EvalTwo(m, gl, e, st)
    case Both(v, w, st') =>
      r.Next? && Matches(scope, st', r.s) && Keeps(s.env, r.s.env, lo) && Denotes(m, a, r.s, v) && Denotes(m, b, r.s, w)
    case Neither(why, mem, out) => why.Undefined? || r == Halt(why, mem, out)
  }

  ghost predicate TwoMean(gl: Globals, scope: Scope, e: Expr, code: seq<Instr>, a: Operand, b: Operand, lo: nat)
    requires TwoSided(e)
  {
    forall m, st, s {:trigger TwoRun(m, gl, scope, e, code, a, b, lo, st, s)} ::
      Matches(scope, st, s) ==> TwoRun(m, gl, scope, e, code, a, b, lo, st, s)
  }

  /** The left operand is loaded before the right one is computed. */
  lemma TwoInOrder(gl: Globals, scope: Scope, e: Expr, c: seq<Instr>, d: seq<Instr>, a: Operand, b: Operand, lo: nat, mid: nat)
    requires TwoSided(e) && !a.Pointer? && OperandBelow(a, mid) && lo <= mid
    requires ExprMeans(gl, scope, e.l, c, a, lo) && ExprMeans(gl, scope, e.r, d, b, mid)
    ensures TwoMean(gl, scope, e, c + d, a, b, lo)
  {
    hide EvalExpr, Matches;
    forall m, st, s | Matches(scope, st, s)
      ensures TwoRun(m, gl, scope, e, c + d, a, b, lo, st, s)
    {
      assert ExprRuns(m, gl, scope, e.l, c, a, lo, st, s);
      ExecAppend(m, c, d, s);
      var r, x := ExecBody(m, c, s), EvalExpr(m, gl, e.l, st);
      if x.Val? {
        assert ExprRuns(m, gl, scope, e.r, d, b, mid, x.st, r.s);
        var r2, y := ExecBody(m, d, r.s), EvalExpr(m, gl, e.r, x.st);
        if y.Val? {
          KeepsTrans(s.env, r.s.env, r2.s.env, lo, mid);
          DenotesStays(m, a, r.s, r2.s, x.v, mid);
        }
      }
    }
  }

  /** Widening one of the operands. */
  lemma TwoZextLeft(gl: Globals, scope: Scope, e: Expr, code: seq<Instr>, v: Value, b: Operand, lo: nat, t: nat)
    requires TwoSided(e) && TwoMean(gl, scope, e, code, Int1(v), b, lo) && !b.Pointer? && OperandBelow(b, t) && lo <= t
    ensures TwoMean(gl, scope, e, code + [Zext(Temp(t), v)], Int32(Res(Temp(t))), b, lo)
  {
    hide EvalTwo, Matches;
    forall m, st, s | Matches(scope, st, s)
      ensures TwoRun(m, gl, scope, e, code + [Zext(Temp(t), v)], Int32(Res(Temp(t))), b, lo, st, s)
    {
      assert TwoRun(m, gl, scope, e, code, Int1(v), b, lo, st, s);
      ExecSnoc(m, code, Zext(Temp(t), v), s);
      var r, x := ExecBody(m, code, s), EvalTwo(m, gl, e, st);
      if x.Both? {
        DefineMatches(scope, x.st, r.s, t, x.a, lo);
        KeepsTrans(s.env, r.s.env, r.s.env[Temp(t) := x.a], lo, lo);
        DenotesStays(m, b, r.s, r.s.(env := r.s.env[Temp(t) := x.a]), x.b, t);
      }
    }
  }

  lemma TwoZextRight(gl: Globals, scope: Scope, e: Expr, code: seq<Instr>, a: Operand, v: Value, lo: nat, t: nat)
    requires TwoSided(e) && TwoMean(gl, scope, e, code, a, Int1(v), lo) && !a.Pointer? && OperandBelow(a, t) && lo <= t
    ensures TwoMean(gl, scope, e, code + [Zext(Temp(t), v)], a, Int32(Res(Temp(t))), lo)
  {
    hide EvalTwo, Matches;
    forall m, st, s | Matches(scope, st, s)
      ensures TwoRun(m, gl, scope, e, code + [Zext(Temp(t), v)], a, Int32(Res(Temp(t))), lo, st, s)
    {
      assert TwoRun(m, gl, scope, e, code, a, Int1(v), lo, st, s);
      ExecSnoc(m, code, Zext(Temp(t), v), s);
      var r, x := ExecBody(m, code, s), EvalTwo(m, gl, e, st);
      if x.Both? {
        DefineMatches(scope, x.st, r.s, t, x.b, lo);
        KeepsTrans(s.env, r.s.env, r.s.env[Temp(t) := x.b], lo, lo);
        DenotesStays(m, a, r.s, r.s.(env := r.s.env[Temp(t) := x.b]), x.a, t);
      }
    }
  }

  function CmpOf(op: RelOp): CmpOp {
    match op
    case OpLe => Le
    case OpLt => Lt
    case OpGt => Gt
    case OpGe => Ge
    case OpEq => Eq
    case OpNeq => Ne
  }

  function AddOf(op: AddOp): BinOp { if op.OpPlus? then Add else Sub }

  function MulOf(op: MulOp): BinOp { if op.OpMul? then Mul else SDiv }

  /** The last instruction of a two-sided expression. */
  function Combine(e: Expr, t: nat, a: Value, b: Value): Instr
    requires TwoSided(e)
  {
    match e
    case Relational(op, _, _) => Compare(Temp(t), CmpOf(op), a, b)
    case Additive(op, _, _) => Binary(Temp(t), AddOf(op), a, b)
    case Multiplicative(op, _, _) => Binary(Temp(t), MulOf(op), a, b)
  }

  function CombineType(e: Expr, t: nat): Operand {
    if e.Relational? then Int1(Res(Temp(t))) else Int32(Res(Temp(t)))
  }

  /** The instruction computes what the operator means. */
  lemma CombineMeans(gl: Globals, scope: Scope, e: Expr, code: seq<Instr>, a: Value, b: Value, lo: nat, t: nat)
    requires TwoSided(e) && TwoMean(gl, scope, e, code, Int32(a), Int32(b), lo) && lo <= t
    ensures ExprMeans(gl, scope, e, code + [Combine(e, t, a, b)], CombineType(e, t), lo)
  {
    hide EvalTwo, Matches, Wrap, Quotient;
    forall m, st, s | Matches(scope, st, s)
      ensures ExprRuns(m, gl, scope, e, code + [Combine(e, t, a, b)], CombineType(e, t), lo, st, s)
    {
      assert TwoRun(m, gl, scope, e, code, Int32(a), Int32(b), lo, st, s);
      ExecSnoc(m, code, Combine(e, t, a, b), s);
      var r, x := ExecBody(m, code, s), EvalTwo(m, gl, e, st);
      if x.Both? {
        var y := EvalExpr(m, gl, e, st);
        if y.Val? {
          DefineMatches(scope, x.st, r.s, t, y.v, lo);
          KeepsTrans(s.env, r.s.env, r.s.env[Temp(t) := y.v], lo, lo);
        } else {
          MatchesOut(scope, x.st, r.s);
        }
      }
    }
  }

  lemma MatchesOut(scope: Scope, st: SourceState, s: State)
    requires Matches(scope, st, s)
    ensures st.mem == s.mem && st.out == s.out && |scope| == |st.frames| + 1
  {
  }

  // ---------------------------------------------------------------- calls

  ghost predicate ListRuns(m: Machine, gl: Globals, scope: Scope, es: seq<Expr>, code: seq<Instr>, vs: seq<Value>, lo: nat,
                           st: SourceState, s: State)
  {
    var r := ExecBody(m, code, s);
    match EvalList(m, gl, es, st)
    case Vals(ns, st') => r.Next? && Matches(scope, st', r.s) && Keeps(s.env, r.s.env, lo) && EvalAll(m, r.s.env, vs) == Some(ns)
    case Fails(why, mem, out) => why.Undefined? || r == Halt(why, mem, out)
  }

  ghost predicate ListMeans(gl: Globals, scope: Scope, es: seq<Expr>, code: seq<Instr>, vs: seq<Value>, lo: nat) {
    forall m, st, s {:trigger ListRuns(m, gl, scope, es, code, vs, lo, st, s)} ::
      Matches(scope, st, s) ==> ListRuns(m, gl, scope, es, code, vs, lo, st, s)
  }

  lemma NoneMeans(gl: Globals, scope: Scope, lo: nat)
    ensures ListMeans(gl, scope, [], [], [], lo)
  {
  }

  lemma {:induction false} EvalAllSnoc(m: Machine, env: Env, vs: seq<Value>, v: Value)
    ensures var a, b := EvalAll(m, env, vs), Eval(m, env, v);
      EvalAll(m, env, vs + [v]) == if a.None? || b.None? then None else Some(a.value + [b.value])
  {
    if vs == [] {
      assert vs + [v] == [v] && [v][1..] == [];
      assert EvalAll(m, env, []) == Some([]);
      var b := Eval(m, env, v);
      if b.Some? {
        assert [b.value] + [] == [] + [b.value];
      }
    } else {
      assert (vs + [v])[1..] == vs[1..] + [v];
      EvalAllSnoc(m, env, vs[1..], v);
      var a, b, rest := Eval(m, env, vs[0]), Eval(m, env, v), EvalAll(m, env, vs[1..]);
      if a.Some? && b.Some? && rest.Some? {
        assert [a.value] + (rest.value + [b.value]) == ([a.value] + rest.value) + [b.value];
      }
    }
  }

  lemma {:induction false} EvalAllStays(m: Machine, was: Env, now: Env, vs: seq<Value>, t: nat)
    requires Keeps(was, now, t) && forall i :: 0 <= i < |vs| ==> BelowTemp(vs[i], t)
    ensures EvalAll(m, was, vs) == EvalAll(m, now, vs)
  {
    if vs != [] {
      assert BelowTemp(vs[0], t);
      EvalAllStays(m, was, now, vs[1..], t);
    }
  }

  lemma ArgumentMeans(gl: Globals, scope: Scope, es: seq<Expr>, c: seq<Instr>, vs: seq<Value>, e: Expr, d: seq<Instr>, v: Value, lo: nat, mid: nat)
    requires ListMeans(gl, scope, es, c, vs, lo) && ExprMeans(gl, scope, e, d, Int32(v), mid) && lo <= mid
    requires forall i :: 0 <= i < |vs| ==> BelowTemp(vs[i], mid)
    ensures ListMeans(gl, scope, es + [e], c + d, vs + [v], lo)
  {
    hide EvalExpr, Matches;
    assert (es + [e])[..|es + [e]| - 1] == es;
    forall m, st, s | Matches(scope, st, s)
      ensures ListRuns(m, gl, scope, es + [e], c + d, vs + [v], lo, st, s)
    {
      assert ListRuns(m, gl, scope, es, c, vs, lo, st, s);
      ExecAppend(m, c, d, s);
      var r, x := ExecBody(m, c, s), EvalList(m, gl, es, st);
      if x.Vals? {
        assert ExprRuns(m, gl, scope, e, d, Int32(v), mid, x.st, r.s);
        var r2, y := ExecBody(m, d, r.s), EvalExpr(m, gl, e, x.st);
        if y.Val? {
          KeepsTrans(s.env, r.s.env, r2.s.env, lo, mid);
          EvalAllStays(m, r.s.env, r2.s.env, vs, mid);
          EvalAllSnoc(m, r2.s.env, vs, v);
        }
      }
    }
  }

  lemma InvokeMeans(gl: Globals, scope: Scope, id: string, es: seq<Expr>, code: seq<Instr>, vs: seq<Value>, lo: nat, t: nat)
    requires ListMeans(gl, scope, es, code, vs, lo) && lo <= t && id in gl && gl[id].Function?
    ensures ExprMeans(gl, scope, Invoke(id, es), code + [Call(Temp(t), gl[id].f, vs)], Int32(Res(Temp(t))), lo)
  {
    hide Matches;
    var i := Instr.Call(Temp(t), gl[id].f, vs);
    forall m, st, s | Matches(scope, st, s)
      ensures ExprRuns(m, gl, scope, Invoke(id, es), code + [i], Int32(Res(Temp(t))), lo, st, s)
    {
      assert ListRuns(m, gl, scope, es, code, vs, lo, st, s);
      ExecSnoc(m, code, i, s);
      var r, x := ExecBody(m, code, s), EvalList(m, gl, es, st);
      if x.Vals? {
        MatchesOut(scope, x.st, r.s);
        var y := EvalExpr(m, gl, Invoke(id, es), st);
        if y.Val? {
          ReplyMatches(scope, x.st, r.s, y.st.mem, y.st.out);
          DefineMatches(scope, y.st, r.s.(mem := y.st.mem, out := y.st.out), t, y.v, lo);
          KeepsTrans(s.env, r.s.env, r.s.env[Temp(t) := y.v], lo, lo);
        }
      }
    }
  }

  lemma ReplyMatches(scope: Scope, st: SourceState, s: State, mem: Memory, out: seq<int>)
    requires Matches(scope, st, s)
    ensures Matches(scope, SourceState(st.frames, mem, out), s.(mem := mem, out := out))
  {
    var s' := s.(mem := mem, out := out);
    forall i: nat, id | i < |st.frames|
      ensures InSlot(scope, st.frames, s'.slots, i, id)
    {
      assert InSlot(scope, st.frames, s.slots, i, id);
    }
  }
}
