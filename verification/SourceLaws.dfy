/** What expressions, statements and instructions compute, written out. */
module SourceLaws {
  import opened Arithmetic
  import opened Ir
  import opened Ast
  import A = ArrayIr

  // ---------------------------------------------------------------- numbers

  /** x is the 32-bit number congruent to n. */
  ghost predicate Fits32(x: int, n: int) { -0x8000_0000 <= x < 0x8000_0000 && (x - n) % 0x1_0000_0000 == 0 }

  /** q is a / b without its fraction: the rest is smaller than b and has the sign of a. */
  ghost predicate Divides(a: int, b: int, q: int) {
    var r, p := a - b * q, if b < 0 then -b else b;
    -p < r < p && (r == 0 || (r < 0 <==> a < 0))
  }

  /** x is 1 if a and b are so related, and otherwise 0. */
  ghost predicate Compares(op: RelOp, a: int, b: int, x: int) {
    && (op.OpLe? ==> x == if a <= b then 1 else 0)
    && (op.OpLt? ==> x == if a < b then 1 else 0)
    && (op.OpGt? ==> x == if a > b then 1 else 0)
    && (op.OpGe? ==> x == if a >= b then 1 else 0)
    && (op.OpEq? ==> x == if a == b then 1 else 0)
    && (op.OpNeq? ==> x == if a == b then 0 else 1)
  }

  lemma WrapFits(n: int)
    ensures Fits32(Wrap(n), n)
  {
    var d := (n - MIN) / 0x1_0000_0000;
    assert n - MIN == d * 0x1_0000_0000 + (n - MIN) % 0x1_0000_0000;
    assert Wrap(n) - n == -d * 0x1_0000_0000;
    Multiple(-d);
  }

  lemma Multiple(k: int)
    ensures (k * 0x1_0000_0000) % 0x1_0000_0000 == 0
  {
  }

  /** There is only one such number. */
  lemma FitsOnce(x: int, y: int, n: int)
    requires Fits32(x, n) && Fits32(y, n)
    ensures x == y
  {
    var p, q := (x - n) / 0x1_0000_0000, (y - n) / 0x1_0000_0000;
    assert x - n == p * 0x1_0000_0000 && y - n == q * 0x1_0000_0000;
    assert x - y == (p - q) * 0x1_0000_0000;
  }

  lemma QuotientDivides(a: int, b: int)
    requires b != 0
    ensures Divides(a, b, Quotient(a, b))
  {
    var p, q: int := Abs(a), Abs(b);
    var k := p / q;
    assert p == q * k + p % q;
    if (a < 0) == (b < 0) {
      assert b * k == if b < 0 then -(q * k) else q * k;
    } else {
      assert b * -k == if b < 0 then q * k else -(q * k);
    }
  }

  /** And only one such quotient. */
  lemma DividesOnce(a: int, b: int, p: int, q: int)
    requires b != 0 && Divides(a, b, p) && Divides(a, b, q)
    ensures p == q
  {
    var r, s := a - b * p, a - b * q;
    assert b * (p - q) == s - r;
    if p > q {
      Large(b, p - q);
    } else if q > p {
      Large(b, q - p);
    }
  }

  lemma {:induction false} Large(b: int, k: int)
    requires k > 0
    ensures if b < 0 then b * k <= b else b * k >= b
    ensures b * -k == -(b * k)
  {
    if k > 1 {
      Large(b, k - 1);
      assert b * k == b * (k - 1) + b;
    }
  }

  // ---------------------------------------------------------------- expressions

  /** The left operand gives a; the right one, in the state behind that, b and st'. */
  ghost predicate Gives(m: Machine, gl: Globals, l: Expr, r: Expr, st: SourceState, a: int, b: int, st': SourceState) {
    var x := EvalExpr(m, gl, l, st);
    x.Val? && x.v == a && EvalExpr(m, gl, r, x.st) == Val(b, st')
  }

  lemma RelationMeans(m: Machine, gl: Globals, op: RelOp, l: Expr, r: Expr, st: SourceState, a: int, b: int, st': SourceState)
    requires Gives(m, gl, l, r, st, a, b, st')
    ensures var x := EvalExpr(m, gl, Relational(op, l, r), st); x.Val? && x.st == st' && Compares(op, a, b, x.v)
  {
  }

  lemma SumMeans(m: Machine, gl: Globals, l: Expr, r: Expr, st: SourceState, a: int, b: int, st': SourceState)
    requires Gives(m, gl, l, r, st, a, b, st')
    ensures var x := EvalExpr(m, gl, Additive(OpPlus, l, r), st); x.Val? && x.st == st' && Fits32(x.v, a + b)
    ensures var x := EvalExpr(m, gl, Additive(OpMinus, l, r), st); x.Val? && x.st == st' && Fits32(x.v, a - b)
  {
    hide Fits32, Wrap;
    WrapFits(a + b);
    WrapFits(a - b);
  }

  lemma ProductMeans(m: Machine, gl: Globals, l: Expr, r: Expr, st: SourceState, a: int, b: int, st': SourceState)
    requires Gives(m, gl, l, r, st, a, b, st')
    ensures var x := EvalExpr(m, gl, Multiplicative(OpMul, l, r), st); x.Val? && x.st == st' && Fits32(x.v, a * b)
  {
    hide Fits32, Wrap;
    WrapFits(a * b);
  }

  /** A division traps iff the quotient does not exist or does not fit. */
  lemma DivisionMeans(m: Machine, gl: Globals, l: Expr, r: Expr, st: SourceState, a: int, b: int, st': SourceState)
    requires Gives(m, gl, l, r, st, a, b, st')
    ensures var x := EvalExpr(m, gl, Multiplicative(OpDiv, l, r), st);
      if b == 0 || (a == -0x8000_0000 && b == -1) then x == Fail(Trap, st'.mem, st'.out) else x.Val? && x.st == st' && Divides(a, b, x.v)
  {
    hide Divides, Quotient;
    if b != 0 {
      QuotientDivides(a, b);
    }
  }

  /** The first operand that fails decides; the right one is not looked at before. */
  lemma OperandFails(m: Machine, gl: Globals, e: Expr, st: SourceState, why: Reason, mem: Memory, out: seq<int>)
    requires e.Relational? || e.Additive? || e.Multiplicative?
    requires var x := EvalExpr(m, gl, e.l, st); x == Fail(why, mem, out) || (x.Val? && EvalExpr(m, gl, e.r, x.st) == Fail(why, mem, out))
    ensures EvalExpr(m, gl, e, st) == Fail(why, mem, out)
  {
  }

  // ---------------------------------------------------------------- names

  /** Scope i is the innermost one with the name. */
  ghost predicate Innermost(frames: Frames, id: string, i: nat) {
    i < |frames| && id in frames[i] && forall j {:trigger frames[j]} :: i < j < |frames| ==> id !in frames[j]
  }

  ghost predicate NotLocal(frames: Frames, id: string) { forall j {:trigger frames[j]} :: 0 <= j < |frames| ==> id !in frames[j] }

  lemma {:induction false} LevelIs(frames: Frames, id: string)
    ensures match Level(frames, id) case Some(i) => Innermost(frames, id, i) case None => NotLocal(frames, id)
  {
    if frames != [] && id !in frames[|frames| - 1] {
      var rest := frames[..|frames| - 1];
      LevelIs(rest, id);
      assert forall j :: 0 <= j < |rest| ==> rest[j] == frames[j];
    }
  }

  lemma LocalRead(m: Machine, gl: Globals, id: string, st: SourceState, i: nat)
    requires Innermost(st.frames, id, i)
    ensures EvalExpr(m, gl, Var(id), st) == match st.frames[i][id] case Some(v) => Val(v, st) case None => Fail(Undefined, st.mem, st.out)
  {
    LevelIs(st.frames, id);
  }

  lemma GlobalRead(m: Machine, gl: Globals, id: string, st: SourceState)
    requires NotLocal(st.frames, id) && id in gl && gl[id].IntVar?
    ensures var c := (gl[id].cell, 0); EvalExpr(m, gl, Var(id), st) == Val(if c in st.mem then st.mem[c] else 0, st)
  {
    LevelIs(st.frames, id);
  }

  /** The innermost variable of the name takes the value, and nothing else changes. */
  lemma LocalAssign(m: Machine, gl: Globals, id: string, e: Expr, st: SourceState, i: nat, v: int, st': SourceState)
    requires EvalExpr(m, gl, e, st) == Val(v, st') && Innermost(st'.frames, id, i)
    ensures EvalExpr(m, gl, Assign(id, e), st) == Val(v, st'.(frames := st'.frames[i := st'.frames[i][id := Some(v)]]))
  {
    LevelIs(st'.frames, id);
  }

  lemma GlobalAssign(m: Machine, gl: Globals, id: string, e: Expr, st: SourceState, v: int, st': SourceState)
    requires EvalExpr(m, gl, e, st) == Val(v, st') && NotLocal(st'.frames, id) && id in gl && gl[id].IntVar?
    ensures EvalExpr(m, gl, Assign(id, e), st) == Val(v, st'.(mem := st'.mem[(gl[id].cell, 0) := v]))
  {
    LevelIs(st'.frames, id);
  }

  // ---------------------------------------------------------------- statements

  /** An if runs its first side iff the condition is not zero. */
  lemma IfMeans(m: Machine, gl: Globals, cond: Expr, yes: Stmt, no: Option<Stmt>, st: SourceState, fuel: nat, v: int, st': SourceState)
    requires EvalExpr(m, gl, cond, st) == Val(v, st')
    ensures var c := EvalStmt(m, gl, Selection(cond, yes, no), st, fuel);
      && (v != 0 ==> c == EvalStmt(m, gl, yes, st', fuel))
      && (v == 0 && no.Some? ==> c == EvalStmt(m, gl, no.value, st', fuel))
      && (v == 0 && no.None? ==> c == Normal(st'))
  {
  }

  /** A loop does what an if does whose first side is the body and the loop again. */
  lemma LoopMeans(m: Machine, gl: Globals, cond: Expr, loop: Stmt, st: SourceState, fuel: nat, v: int, st': SourceState)
    requires EvalExpr(m, gl, cond, st) == Val(v, st') && fuel > 0
    ensures var c, once := EvalStmt(m, gl, Iteration(cond, loop), st, fuel), EvalStmt(m, gl, loop, st', fuel);
      && (v == 0 ==> c == Normal(st'))
      && (v != 0 && once.Normal? ==> c == EvalStmt(m, gl, Iteration(cond, loop), once.st, fuel - 1))
      && (v != 0 && !once.Normal? ==> c == once)
  {
  }

  /** The first statement comes first; behind one that leaves, none does. */
  lemma {:induction false} FirstStatement(m: Machine, gl: Globals, ss: seq<Stmt>, st: SourceState, fuel: nat)
    requires ss != []
    ensures var c := EvalStmt(m, gl, ss[0], st, fuel); EvalStmts(m, gl, ss, st, fuel) == if c.Normal? then EvalStmts(m, gl, ss[1..], c.st, fuel) else c
    decreases |ss|
  {
    hide EvalStmt;
    var n := |ss| - 1;
    if n == 0 {
      assert ss[..0] == [] && ss[1..] == [];
    } else {
      FirstStatement(m, gl, ss[..n], st, fuel);
      assert ss[..n][0] == ss[0] && ss[..n][1..] == ss[1..][..n - 1] && ss[1..][n - 1] == ss[n];
    }
  }

  /** A block runs with its own names, none of which has a value yet, and they are gone
      behind it. */
  lemma BlockMeans(m: Machine, gl: Globals, locals: seq<string>, body: seq<Stmt>, st: SourceState, fuel: nat, own: map<string, Option<int>>)
    requires forall id :: (id in own <==> id in locals) && (id in own ==> own[id] == None)
    ensures var c, inside := EvalStmt(m, gl, Compound(locals, body), st, fuel), EvalStmts(m, gl, body, st.(frames := st.frames + [own]), fuel);
      if inside.Normal? && |st.frames| <= |inside.st.frames| then c == Normal(inside.st.(frames := inside.st.frames[..|st.frames|])) else c == inside
  {
    assert own == Locals(locals);
  }

  lemma ReturnMeans(m: Machine, gl: Globals, e: Expr, st: SourceState, fuel: nat, v: int, st': SourceState)
    requires EvalExpr(m, gl, e, st) == Val(v, st')
    ensures EvalStmt(m, gl, Return(Some(e)), st, fuel) == Answer(Some(v), st'.mem, st'.out)
  {
  }

  /** The first argument comes first. */
  lemma {:induction false} FirstArgument(m: Machine, gl: Globals, es: seq<Expr>, st: SourceState)
    requires es != []
    ensures var x := EvalExpr(m, gl, es[0], st);
      && (x.Fail? ==> EvalList(m, gl, es, st) == Fails(x.why, x.mem, x.out))
      && (x.Val? ==> var rest := EvalList(m, gl, es[1..], x.st); EvalList(m, gl, es, st) == if rest.Vals? then Vals([x.v] + rest.vs, rest.st) else rest)
    decreases |es|
  {
    hide EvalExpr;
    var n := |es| - 1;
    if n == 0 {
      assert es[..0] == [] && es[1..] == [];
      assert EvalList(m, gl, es[..0], st) == Vals([], st);
    } else {
      FirstArgument(m, gl, es[..n], st);
      assert es[..n][0] == es[0] && es[..n][1..] == es[1..][..n - 1] && es[1..][n - 1] == es[n];
    }
  }

  /** A call passes the values, in the memory they leave; its output comes behind theirs. */
  lemma InvokeMeans(m: Machine, gl: Globals, id: string, es: seq<Expr>, st: SourceState, vs: seq<int>, st': SourceState, v: int, mem: Memory, out: seq<int>)
    requires EvalList(m, gl, es, st) == Vals(vs, st') && NotLocal(st.frames, id) && id in gl && gl[id].Function?
    requires m.callees(gl[id].f, vs, st'.mem, st'.out) == Reply(v, mem, out)
    ensures EvalExpr(m, gl, Invoke(id, es), st) == Val(v, SourceState(st'.frames, mem, st'.out + out))
  {
    LevelIs(st.frames, id);
  }

  lemma {:induction false} BindHolds(params: seq<string>, args: seq<int>, k: nat)
    requires |params| == |args| && k < |params| && forall j :: k < j < |params| ==> params[j] != params[k]
    ensures params[k] in Bind(params, args) && Bind(params, args)[params[k]] == Some(args[k])
  {
    var n := |params| - 1;
    if k < n {
      assert params[..n][k] == params[k] && args[..n][k] == args[k];
      BindHolds(params[..n], args[..n], k);
    }
  }

  /** A function that returns its k-th parameter, the last of that name, returns its
      k-th argument. */
  lemma ParameterMeans(m: Machine, gl: Globals, params: seq<string>, mem: Memory, fuel: nat, k: nat)
    requires |params| == |m.args| && k < |params| && forall j :: k < j < |params| ==> params[j] != params[k]
    ensures CallFunction(m, gl, FunDecl(params, false, Return(Some(Var(params[k])))), mem, fuel) == Answer(Some(m.args[k]), mem, [])
  {
    var frames := [Bind(params, m.args)];
    BindHolds(params, m.args, k);
    LocalRead(m, gl, params[k], SourceState(frames, mem, []), 0);
  }

  /** A body that runs to its end returns 0, or nothing from a void function. */
  lemma FallsOff(m: Machine, gl: Globals, d: FunDecl, mem: Memory, fuel: nat, st: SourceState)
    requires |d.params| == |m.args| && EvalStmt(m, gl, d.body, SourceState([Bind(d.params, m.args)], mem, []), fuel) == Normal(st)
    ensures CallFunction(m, gl, d, mem, fuel) == Answer(if d.isVoid then None else Some(0), st.mem, st.out)
  {
  }

  // ---------------------------------------------------------------- instructions

  ghost predicate Tests(op: CmpOp, a: int, b: int, x: int) {
    && (op.Eq? ==> x == if a == b then 1 else 0)
    && (op.Ne? ==> x == if a == b then 0 else 1)
    && (op.Gt? ==> x == if a > b then 1 else 0)
    && (op.Ge? ==> x == if a >= b then 1 else 0)
    && (op.Lt? ==> x == if a < b then 1 else 0)
    && (op.Le? ==> x == if a <= b then 1 else 0)
  }

  /** The register defined, or a trap. */
  ghost predicate Computes(op: BinOp, a: int, b: int, trap: bool, x: int) {
    && (op.SDiv? ==> (trap <==> b == 0 || (a == -0x8000_0000 && b == -1)) && (!trap ==> Divides(a, b, x)))
    && (!op.SDiv? ==> !trap && Fits32(x, if op.Add? then a + b else if op.Sub? then a - b else a * b))
  }

  lemma ArithComputes(op: BinOp, a: int, b: int)
    ensures var r := Arith(op, a, b); Computes(op, a, b, r.None?, if r.None? then 0 else r.value)
  {
    hide Fits32, Wrap, Divides, Quotient;
    WrapFits(a + b);
    WrapFits(a - b);
    WrapFits(a * b);
    if b != 0 {
      QuotientDivides(a, b);
    }
  }

  /** The comparison an instruction names. */
  lemma CompareExec(m: Machine, d: Reg, op: CmpOp, v: Value, w: Value, s: State, a: int, b: int)
    requires Eval(m, s.env, v) == Some(a) && Eval(m, s.env, w) == Some(b)
    ensures var r := Exec(m, Compare(d, op, v, w), s); r.Next? && d in r.s.env && r.s == s.(env := s.env[d := r.s.env[d]]) && Tests(op, a, b, r.s.env[d])
  {
  }

  lemma BinaryExec(m: Machine, d: Reg, op: BinOp, v: Value, w: Value, s: State, a: int, b: int)
    requires Eval(m, s.env, v) == Some(a) && Eval(m, s.env, w) == Some(b)
    ensures var r := Exec(m, Binary(d, op, v, w), s);
      if r.Halt? then r == Halt(Trap, s.mem, s.out) && Computes(op, a, b, true, 0)
      else d in r.s.env && r.s == s.(env := s.env[d := r.s.env[d]]) && Computes(op, a, b, false, r.s.env[d])
  {
    hide Computes, Arith;
    ArithComputes(op, a, b);
  }

  /** A conditional branch goes to its first target iff the value is not zero. */
  lemma BranchExec(m: Machine, v: Value, yes: nat, no: nat, s: State, a: int)
    requires Eval(m, s.env, v) == Some(a)
    ensures a != 0 ==> ExecTerm(m, CondBr(v, yes, no), s) == Goto(yes)
    ensures a == 0 ==> ExecTerm(m, CondBr(v, yes, no), s) == Goto(no)
  {
  }

  /** Phi k, the last one of its result, takes what the edge brings: the first value
      labelled with the block in front, as it was there. */
  lemma {:induction false} PhiExec(m: Machine, was: Env, phis: seq<Phi>, b: nat, env: Env, k: nat, i: nat, x: int)
    requires k < |phis| && forall j :: k < j < |phis| ==> phis[j].dest != phis[k].dest
    requires i < |phis[k].pairs| && phis[k].pairs[i].1 == b && forall j :: 0 <= j < i ==> phis[k].pairs[j].1 != b
    requires Eval(m, was, phis[k].pairs[i].0) == Some(x)
    ensures var after := EnterPhis(m, was, phis, b, env); phis[k].dest in after && after[phis[k].dest] == x
    decreases |phis|
  {
    var v := Incoming(m, was, phis[0].pairs, b);
    var env' := if v.None? then env - {phis[0].dest} else env[phis[0].dest := v.value];
    if k == 0 {
      FirstPair(m, was, phis[0].pairs, b, i, x);
      OtherPhis(m, was, phis[1..], b, env', phis[0].dest);
    } else {
      PhiExec(m, was, phis[1..], b, env', k - 1, i, x);
    }
  }

  lemma {:induction false} FirstPair(m: Machine, was: Env, pairs: seq<(Value, nat)>, b: nat, i: nat, x: int)
    requires i < |pairs| && pairs[i].1 == b && (forall j :: 0 <= j < i ==> pairs[j].1 != b) && Eval(m, was, pairs[i].0) == Some(x)
    ensures Incoming(m, was, pairs, b) == Some(x)
  {
    if i > 0 {
      assert pairs[0].1 != b;
      FirstPair(m, was, pairs[1..], b, i - 1, x);
    }
  }

  lemma {:induction false} OtherPhis(m: Machine, was: Env, phis: seq<Phi>, b: nat, env: Env, r: Reg)
    requires forall j :: 0 <= j < |phis| ==> phis[j].dest != r
    ensures var after := EnterPhis(m, was, phis, b, env); (r in after <==> r in env) && (r in env ==> after[r] == env[r])
  {
    if phis != [] {
      var v := Incoming(m, was, phis[0].pairs, b);
      assert phis[0].dest != r;
      OtherPhis(m, was, phis[1..], b, if v.None? then env - {phis[0].dest} else env[phis[0].dest := v.value], r);
    }
  }

  /** So it is with arrays. */
  lemma ArrayCompareExec(m: A.Machine, d: A.Reg, op: CmpOp, v: A.Value, w: A.Value, s: A.State, a: int, b: int)
    requires A.Eval(m, s.env, v) == Some(A.N(a)) && A.Eval(m, s.env, w) == Some(A.N(b))
    ensures exists x :: A.Exec(m, A.Compare(d, op, v, w), s) == A.Next(s.(env := s.env[d := A.N(x)])) && Tests(op, a, b, x)
  {
    var x := Bit(Test(op, a, b));
    assert A.Exec(m, A.Compare(d, op, v, w), s) == A.Next(s.(env := s.env[d := A.N(x)])) && Tests(op, a, b, x);
  }

  lemma ArrayBinaryExec(m: A.Machine, d: A.Reg, op: BinOp, v: A.Value, w: A.Value, s: A.State, a: int, b: int)
    requires A.Eval(m, s.env, v) == Some(A.N(a)) && A.Eval(m, s.env, w) == Some(A.N(b))
    ensures var r := A.Exec(m, A.Binary(d, op, v, w), s);
      if r.Halt? then r == A.Halt(Trap, s.mem, s.out) && Computes(op, a, b, true, 0)
      else d in r.s.env && r.s.env[d].N? && r.s == s.(env := s.env[d := r.s.env[d]]) && Computes(op, a, b, false, r.s.env[d].n)
  {
    hide Computes, Arith;
    ArithComputes(op, a, b);
  }

  /** What is stored through a pointer is loaded through it, and other elements stay. */
  lemma ArrayStoreExec(m: A.Machine, v: A.Value, p: A.Value, q: A.Value, d: A.Reg, s: A.State, a: int, o: A.Obj, k: int, o': A.Obj, k': int)
    requires A.Eval(m, s.env, v) == Some(A.N(a)) && A.Eval(m, s.env, p) == Some(A.P(o, k)) && A.Eval(m, s.env, q) == Some(A.P(o', k'))
    ensures var r := A.Exec(m, A.Store(v, p), s);
      && r.Next? && r.s.env == s.env && r.s.out == s.out
      && ((o', k') == (o, k) ==> A.Exec(m, A.Load(d, q), r.s) == A.Next(r.s.(env := s.env[d := A.N(a)])))
      && ((o', k') != (o, k) ==> (A.Exec(m, A.Load(d, q), r.s).s.env == A.Exec(m, A.Load(d, q), s).s.env))
  {
  }

  /** A gep moves on in the same object. */
  lemma ArrayGepExec(m: A.Machine, d: A.Reg, p: A.Value, w: A.Value, s: A.State, o: A.Obj, k: int, n: int)
    requires A.Eval(m, s.env, p) == Some(A.P(o, k)) && A.Eval(m, s.env, w) == Some(A.N(n))
    ensures A.Exec(m, A.Gep(d, p, w), s) == A.Next(s.(env := s.env[d := A.P(o, k + n)]))
  {
  }
}
