/** Whole programs: what a call returns in the source and in the code. */
module Linked {
  import opened Cfg
  import opened Arithmetic
  import opened Ir
  import opened Ssa
  import opened Ast
  import opened FunMeaning
  import opened RenameWalk
  import opened Pipeline

  type Outside = (nat, seq<int>, Memory, seq<int>) -> Reply

  type Decls = map<nat, FunDecl>

  /** A function of the code, with the number of its arguments. */
  datatype Routine = Routine(params: nat, blocks: Func)

  type Program = map<nat, Routine>

  // ---------------------------------------------------------------- calls of the source

  /** Calls to this depth; what is not declared here is outside. */
  function SourceCall(gl: Globals, decls: Decls, ext: Outside, fuel: nat, depth: nat, f: nat, args: seq<int>, mem: Memory, out: seq<int>): Reply
    decreases depth, 0
  {
    if f !in decls then ext(f, args, mem, out)
    else if depth == 0 || |args| != |decls[f].params| then NoReply
    else
      match CallFunction(SourceInside(gl, decls, ext, fuel, depth, args, out), gl, decls[f], mem, fuel)
      case Answer(v, mem', out') => Reply(if v.Some? then v.value else 0, mem', out')
      case _ => NoReply
  }

  function SourceInside(gl: Globals, decls: Decls, ext: Outside, fuel: nat, depth: nat, args: seq<int>, out: seq<int>): Machine
    requires depth > 0
    decreases depth - 1, 1
  {
    Machine(args, (g: nat, a: seq<int>, mm: Memory, oo: seq<int>) => SourceCall(gl, decls, ext, fuel, depth - 1, g, a, mm, out + oo))
  }

  // ---------------------------------------------------------------- calls of the code

  /** fuel bounds the blocks of every activation. */
  function CodeCall(p: Program, ext: Outside, fuel: nat, depth: nat, f: nat, args: seq<int>, mem: Memory, out: seq<int>): Reply
    decreases depth, 0
  {
    if f !in p then ext(f, args, mem, out)
    else if depth == 0 || |args| != p[f].params then NoReply
    else
      match Execute(CodeInside(p, ext, fuel, depth, args, out), p[f].blocks, mem, fuel)
      case Returned(v, mem', out') => Reply(if v.Some? then v.value else 0, mem', out')
      case _ => NoReply
  }

  function CodeInside(p: Program, ext: Outside, fuel: nat, depth: nat, args: seq<int>, out: seq<int>): Machine
    requires depth > 0
    decreases depth - 1, 1
  {
    Machine(args, (g: nat, a: seq<int>, mm: Memory, oo: seq<int>) => CodeCall(p, ext, fuel, depth - 1, g, a, mm, out + oo))
  }

  // ---------------------------------------------------------------- machines that come to agree

  /** From n on the machine ms(n) makes the call as m does. */
  ghost predicate AgreesFrom(m: Machine, ms: nat -> Machine, f: nat, args: seq<int>, mem: Memory, out: seq<int>, n: nat) {
    forall k: nat {:trigger ms(k)} :: n <= k ==> ms(k).callees(f, args, mem, out) == m.callees(f, args, mem, out)
  }

  /** Whatever comes back on m comes back on the machines in the end. */
  ghost predicate Approach(m: Machine, ms: nat -> Machine) {
    && (forall k: nat {:trigger ms(k)} :: ms(k).args == m.args)
    && forall f, args, mem, out {:trigger m.callees(f, args, mem, out)} :: m.callees(f, args, mem, out).Reply? ==>
         exists n :: AgreesFrom(m, ms, f, args, mem, out, n)
  }

  function Max(a: nat, b: nat): nat { if a < b then b else a }

  ghost predicate LostAt(r: Result) { r.Halt? && r.why == Lost }

  lemma EvalOther(m: Machine, m': Machine, env: Env, v: Value)
    requires m'.args == m.args
    ensures Eval(m', env, v) == Eval(m, env, v)
  {
  }

  lemma {:induction false} EvalAllOther(m: Machine, m': Machine, env: Env, vs: seq<Value>)
    requires m'.args == m.args
    ensures EvalAll(m', env, vs) == EvalAll(m, env, vs)
  {
    if vs != [] {
      EvalAllOther(m, m', env, vs[1..]);
    }
  }

  /** Everything but calls depends on the arguments only. */
  lemma ExecOther(m: Machine, m': Machine, i: Instr, s: State)
    requires m'.args == m.args
    requires i.Call? && EvalAll(m, s.env, i.args).Some? ==> m'.callees(i.callee, EvalAll(m, s.env, i.args).value, s.mem, s.out) == m.callees(i.callee, EvalAll(m, s.env, i.args).value, s.mem, s.out)
    ensures Exec(m', i, s) == Exec(m, i, s)
  {
    hide Arith, Test, EvalAll;
    if i.Call? {
      EvalAllOther(m, m', s.env, i.args);
    }
  }

  lemma StepApproach(m: Machine, ms: nat -> Machine, i: Instr, s: State) returns (n: nat)
    requires Approach(m, ms) && !LostAt(Exec(m, i, s))
    ensures forall k: nat {:trigger ms(k)} :: n <= k ==> Exec(ms(k), i, s) == Exec(m, i, s)
  {
    hide Arith, Test, Eval, EvalAll;
    n := 0;
    if i.Call? {
      var a := EvalAll(m, s.env, i.args);
      if a.Some? {
        assert m.callees(i.callee, a.value, s.mem, s.out).Reply?;
        n :| AgreesFrom(m, ms, i.callee, a.value, s.mem, s.out, n);
      }
    }
    forall k: nat | n <= k
      ensures Exec(ms(k), i, s) == Exec(m, i, s)
    {
      ExecOther(m, ms(k), i, s);
    }
  }

  lemma {:induction false} BodyApproach(m: Machine, ms: nat -> Machine, body: seq<Instr>, s: State) returns (n: nat)
    requires Approach(m, ms) && !LostAt(ExecBody(m, body, s))
    ensures forall k: nat {:trigger ms(k)} :: n <= k ==> ExecBody(ms(k), body, s) == ExecBody(m, body, s)
  {
    hide Approach, Exec;
    n := 0;
    if body != [] {
      var a := StepApproach(m, ms, body[0], s);
      var r := Exec(m, body[0], s);
      n := a;
      if r.Next? {
        var b := BodyApproach(m, ms, body[1..], r.s);
        n := Max(a, b);
      }
    }
  }

  lemma {:induction false} IncomingOther(m: Machine, m': Machine, env: Env, pairs: seq<(Value, Block)>, b: Block)
    requires m'.args == m.args
    ensures Incoming(m', env, pairs, b) == Incoming(m, env, pairs, b)
  {
    if pairs != [] {
      IncomingOther(m, m', env, pairs[1..], b);
    }
  }

  lemma {:induction false} PhisOther(m: Machine, m': Machine, was: Env, phis: seq<Phi>, b: Block, env: Env)
    requires m'.args == m.args
    ensures EnterPhis(m', was, phis, b, env) == EnterPhis(m, was, phis, b, env)
  {
    if phis != [] {
      IncomingOther(m, m', was, phis[0].pairs, b);
      var v := Incoming(m, was, phis[0].pairs, b);
      PhisOther(m, m', was, phis[1..], b, if v.None? then env - {phis[0].dest} else env[phis[0].dest := v.value]);
    }
  }

  lemma TermOther(m: Machine, m': Machine, t: Term, s: State)
    requires m'.args == m.args
    ensures ExecTerm(m', t, s) == ExecTerm(m, t, s)
  {
  }

  lemma ArgsOf(m: Machine, ms: nat -> Machine, k: nat)
    requires Approach(m, ms)
    ensures ms(k).args == m.args
  {
  }

  lemma {:induction false} RunApproach(m: Machine, ms: nat -> Machine, f: Func, b: Block, s: State, fuel: nat) returns (n: nat)
    requires Approach(m, ms) && RunFrom(m, f, b, s, fuel).Returned?
    ensures forall k: nat {:trigger ms(k)} :: n <= k ==> RunFrom(ms(k), f, b, s, fuel) == RunFrom(m, f, b, s, fuel)
    decreases fuel
  {
    hide Approach, ExecBody, EnterPhis, ExecTerm;
    var r := ExecBody(m, f[b].body, s);
    n := BodyApproach(m, ms, f[b].body, s);
    var t := ExecTerm(m, f[b].term, r.s);
    if t.Goto? {
      var s' := r.s.(env := EnterPhis(m, r.s.env, f[t.b].phis, b, r.s.env));
      var later := RunApproach(m, ms, f, t.b, s', fuel - 1);
      n := Max(n, later);
    }
    forall k: nat | n <= k
      ensures RunFrom(ms(k), f, b, s, fuel) == RunFrom(m, f, b, s, fuel)
    {
      ArgsOf(m, ms, k);
      TermOther(m, ms(k), f[b].term, r.s);
      if t.Goto? {
        PhisOther(m, ms(k), r.s.env, f[t.b].phis, b, r.s.env);
      }
    }
  }

  lemma {:induction false} MoreFuel(m: Machine, f: Func, b: Block, s: State, k: nat, n: nat)
    requires k <= n && RunFrom(m, f, b, s, k).Returned?
    ensures RunFrom(m, f, b, s, n) == RunFrom(m, f, b, s, k)
    decreases k
  {
    hide ExecBody, EnterPhis, ExecTerm;
    var r := ExecBody(m, f[b].body, s);
    var t := ExecTerm(m, f[b].term, r.s);
    if t.Goto? {
      MoreFuel(m, f, t.b, r.s.(env := EnterPhis(m, r.s.env, f[t.b].phis, b, r.s.env)), k - 1, n - 1);
    }
  }

  // ---------------------------------------------------------------- linked programs

  /** The code of every declaration means what it means. */
  ghost predicate AllCorrect(gl: Globals, decls: Decls, p: Program) {
    p.Keys == decls.Keys && forall f {:trigger p[f]} :: f in decls ==> p[f].params == |decls[f].params| && Correct(gl, decls[f], p[f].blocks)
  }

  lemma CorrectAt(gl: Globals, decls: Decls, p: Program, f: nat, m: Machine, mem: Memory, k: nat)
    requires AllCorrect(gl, decls, p) && f in decls && |m.args| == |decls[f].params|
    ensures f in p && p[f].params == |decls[f].params| && SameRuns(m, gl, decls[f], p[f].blocks, mem, k)
  {
    hide SameRuns;
    assert Correct(gl, decls[f], p[f].blocks);
  }

  /** From some amount of fuel on, the compiled program's call gives this. */
  ghost predicate Gives(p: Program, ext: Outside, depth: nat, f: nat, args: seq<int>, mem: Memory, out: seq<int>, r: Reply, n: nat) {
    forall k: nat {:trigger CodeCall(p, ext, k, depth, f, args, mem, out)} :: n <= k ==> CodeCall(p, ext, k, depth, f, args, mem, out) == r
  }

  /** A call that returns in the source returns in the compiled program, with the same
      value, memory and output. */
  lemma {:induction false} CallsCompiled(gl: Globals, decls: Decls, p: Program, ext: Outside, fuel: nat, depth: nat, f: nat, args: seq<int>, mem: Memory,
                                         out: seq<int>) returns (n: nat)
    requires AllCorrect(gl, decls, p) && SourceCall(gl, decls, ext, fuel, depth, f, args, mem, out).Reply?
    ensures Gives(p, ext, depth, f, args, mem, out, SourceCall(gl, decls, ext, fuel, depth, f, args, mem, out), n)
    decreases depth
  {
    hide AllCorrect, Execute, CallFunction;
    SameNames(gl, decls, p);
    n := 0;
    if f in decls {
      var m := SourceInside(gl, decls, ext, fuel, depth, args, out);
      var ms := (k: nat) => CodeInside(p, ext, k, depth, args, out);
      forall c, a, mm, oo | m.callees(c, a, mm, oo).Reply?
        ensures exists n :: AgreesFrom(m, ms, c, a, mm, oo, n)
      {
        var n := CallsCompiled(gl, decls, p, ext, fuel, depth - 1, c, a, mm, out + oo);
        var r := SourceCall(gl, decls, ext, fuel, depth - 1, c, a, mm, out + oo);
        assert m.callees(c, a, mm, oo) == r;
        forall k: nat | n <= k
          ensures ms(k).callees(c, a, mm, oo) == r
        {
          assert CodeCall(p, ext, k, depth - 1, c, a, mm, out + oo) == r;
        }
        assert AgreesFrom(m, ms, c, a, mm, oo, n);
      }
      CorrectAt(gl, decls, p, f, m, mem, fuel);
      n := ReturnsCompiled(gl, decls[f], p[f].blocks, m, ms, mem, fuel);
      forall k: nat | n <= k
        ensures CodeCall(p, ext, k, depth, f, args, mem, out) == SourceCall(gl, decls, ext, fuel, depth, f, args, mem, out)
      {
        assert ms(k) == CodeInside(p, ext, k, depth, args, out);
      }
    }
  }

  lemma ArityIs(gl: Globals, decls: Decls, p: Program, f: nat)
    requires AllCorrect(gl, decls, p) && f in decls
    ensures f in p && p[f].params == |decls[f].params|
  {
    hide Correct;
    assert p[f] == p[f];
  }

  lemma SameNames(gl: Globals, decls: Decls, p: Program)
    requires AllCorrect(gl, decls, p)
    ensures p.Keys == decls.Keys
  {
    hide Correct;
  }

  lemma ReturnsCompiled(gl: Globals, d: FunDecl, f: Func, m: Machine, ms: nat -> Machine, mem: Memory, fuel: nat) returns (n: nat)
    requires |m.args| == |d.params| && SameRuns(m, gl, d, f, mem, fuel) && Approach(m, ms) && CallFunction(m, gl, d, mem, fuel).Answer?
    ensures var c := CallFunction(m, gl, d, mem, fuel); forall k: nat {:trigger ms(k)} :: n <= k ==> Execute(ms(k), f, mem, k) == Returned(c.value, c.mem, c.out)
  {
    hide Approach, RunFrom, CallFunction;
    var c := CallFunction(m, gl, d, mem, fuel);
    var o := Returned(c.value, c.mem, c.out);
    var j: nat :| EndsBehind(m, f, mem, o, j);
    var blocks := j + 1;
    assert Execute(m, f, mem, blocks) == o;
    var s := State(map[], map[], mem, []);
    var from := RunApproach(m, ms, f, ENTRY, s, blocks);
    n := Max(from, blocks);
    forall k: nat | n <= k
      ensures Execute(ms(k), f, mem, k) == o
    {
      assert RunFrom(ms(k), f, ENTRY, s, blocks) == RunFrom(m, f, ENTRY, s, blocks);
      MoreFuel(ms(k), f, ENTRY, s, blocks, k);
    }
  }

  // ---------------------------------------------------------------- the other way round

  /** No call of a declared function, however it is made, uses an undefined variable. */
  ghost predicate AllDefined(gl: Globals, decls: Decls, ext: Outside) {
    forall fuel: nat, depth: nat, f, args, mem, out {:trigger DefinedAt(gl, decls, ext, fuel, depth, f, args, mem, out)} ::
      DefinedAt(gl, decls, ext, fuel, depth, f, args, mem, out)
  }

  ghost predicate DefinedAt(gl: Globals, decls: Decls, ext: Outside, fuel: nat, depth: nat, f: nat, args: seq<int>, mem: Memory, out: seq<int>) {
    f in decls && depth > 0 && |args| == |decls[f].params| ==>
      var c := CallFunction(SourceInside(gl, decls, ext, fuel, depth, args, out), gl, decls[f], mem, fuel);
      c.Broken? ==> !c.why.Undefined?
  }

  /** From some amount of fuel on, the source's call gives this. */
  ghost predicate Means(gl: Globals, decls: Decls, ext: Outside, depth: nat, f: nat, args: seq<int>, mem: Memory, out: seq<int>, r: Reply, n: nat) {
    forall k: nat {:trigger SourceCall(gl, decls, ext, k, depth, f, args, mem, out)} :: n <= k ==> SourceCall(gl, decls, ext, k, depth, f, args, mem, out) == r
  }

  lemma ReturnsInSource(gl: Globals, d: FunDecl, f: Func, m: Machine, ms: nat -> Machine, mem: Memory, fuel: nat) returns (n: nat)
    requires |m.args| == |d.params| && Approach(m, ms) && Execute(m, f, mem, fuel).Returned?
    requires forall k: nat {:trigger ms(k)} :: |ms(k).args| == |d.params| && SameRuns(ms(k), gl, d, f, mem, k)
    requires forall k: nat {:trigger ms(k)} :: var c := CallFunction(ms(k), gl, d, mem, k); c.Broken? ==> !c.why.Undefined?
    ensures var o := Execute(m, f, mem, fuel); forall k: nat {:trigger ms(k)} :: n <= k ==> CallFunction(ms(k), gl, d, mem, k) == Answer(o.value, o.mem, o.out)
  {
    hide Approach, RunFrom, CallFunction, SameRuns;
    var o := Execute(m, f, mem, fuel);
    var s := State(map[], map[], mem, []);
    var from := RunApproach(m, ms, f, ENTRY, s, fuel);
    n := Max(from, fuel);
    forall k: nat | n <= k
      ensures CallFunction(ms(k), gl, d, mem, k) == Answer(o.value, o.mem, o.out)
    {
      assert RunFrom(ms(k), f, ENTRY, s, fuel) == o;
      ReturnedIs(ms(k), gl, d, f, mem, fuel, k);
    }
  }

  /** Where the code returns, with that much fuel the source returns the same. */
  lemma ReturnedIs(m: Machine, gl: Globals, d: FunDecl, f: Func, mem: Memory, fuel: nat, k: nat)
    requires |m.args| == |d.params| && SameRuns(m, gl, d, f, mem, k) && fuel <= k && Execute(m, f, mem, fuel).Returned?
    requires var c := CallFunction(m, gl, d, mem, k); c.Broken? ==> !c.why.Undefined?
    ensures var o := Execute(m, f, mem, fuel); CallFunction(m, gl, d, mem, k) == Answer(o.value, o.mem, o.out)
  {
    hide RunFrom, CallFunction;
    var s := State(map[], map[], mem, []);
    match CallFunction(m, gl, d, mem, k)
    case Normal(_) =>
    case Answer(v, mem', out) =>
      var n := EndsLate(m, f, mem, Returned(v, mem', out), fuel);
      MoreFuel(m, f, ENTRY, s, fuel, n);
    case Broken(why, mem', out) =>
      var n := EndsLate(m, f, mem, Halted(why, mem', out), fuel);
      MoreFuel(m, f, ENTRY, s, fuel, n);
    case Timeout(_, _) =>
  }

  /** A call that returns in the compiled program returns in the source, with the same
      value, memory and output. */
  lemma {:induction false} CallsReturn(gl: Globals, decls: Decls, p: Program, ext: Outside, fuel: nat, depth: nat, f: nat, args: seq<int>, mem: Memory,
                                       out: seq<int>) returns (n: nat)
    requires AllCorrect(gl, decls, p) && AllDefined(gl, decls, ext) && CodeCall(p, ext, fuel, depth, f, args, mem, out).Reply?
    ensures Means(gl, decls, ext, depth, f, args, mem, out, CodeCall(p, ext, fuel, depth, f, args, mem, out), n)
    decreases depth
  {
    hide AllCorrect, AllDefined, Execute, CallFunction, SameRuns;
    SameNames(gl, decls, p);
    n := 0;
    if f in decls {
      var m := CodeInside(p, ext, fuel, depth, args, out);
      var ms := (k: nat) => SourceInside(gl, decls, ext, k, depth, args, out);
      forall c, a, mm, oo | m.callees(c, a, mm, oo).Reply?
        ensures exists n :: AgreesFrom(m, ms, c, a, mm, oo, n)
      {
        var n := CallsReturn(gl, decls, p, ext, fuel, depth - 1, c, a, mm, out + oo);
        var r := CodeCall(p, ext, fuel, depth - 1, c, a, mm, out + oo);
        assert m.callees(c, a, mm, oo) == r;
        forall k: nat | n <= k
          ensures ms(k).callees(c, a, mm, oo) == r
        {
          assert SourceCall(gl, decls, ext, k, depth - 1, c, a, mm, out + oo) == r;
        }
        assert AgreesFrom(m, ms, c, a, mm, oo, n);
      }
      ArityIs(gl, decls, p, f);
      forall k: nat
        ensures SameRuns(ms(k), gl, decls[f], p[f].blocks, mem, k)
        ensures var c := CallFunction(ms(k), gl, decls[f], mem, k); c.Broken? ==> !c.why.Undefined?
      {
        CorrectAt(gl, decls, p, f, ms(k), mem, k);
        DefinedHere(gl, decls, ext, k, depth, f, args, mem, out);
      }
      n := ReturnsInSource(gl, decls[f], p[f].blocks, m, ms, mem, fuel);
      forall k: nat | n <= k
        ensures SourceCall(gl, decls, ext, k, depth, f, args, mem, out) == CodeCall(p, ext, fuel, depth, f, args, mem, out)
      {
        assert ms(k) == SourceInside(gl, decls, ext, k, depth, args, out);
      }
    }
  }

  lemma DefinedHere(gl: Globals, decls: Decls, ext: Outside, fuel: nat, depth: nat, f: nat, args: seq<int>, mem: Memory, out: seq<int>)
    requires AllDefined(gl, decls, ext) && f in decls && depth > 0 && |args| == |decls[f].params|
    ensures var c := CallFunction(SourceInside(gl, decls, ext, fuel, depth, args, out), gl, decls[f], mem, fuel); c.Broken? ==> !c.why.Undefined?
  {
    hide CallFunction;
    assert DefinedAt(gl, decls, ext, fuel, depth, f, args, mem, out);
  }

  /** Where no variable is used undefined, a call returns in the compiled program iff it
      does in the source, and with the same. */
  lemma CallsMatch(gl: Globals, decls: Decls, p: Program, ext: Outside, depth: nat, f: nat, args: seq<int>, mem: Memory, out: seq<int>, r: Reply)
    requires AllCorrect(gl, decls, p) && AllDefined(gl, decls, ext) && r.Reply?
    ensures (exists n: nat :: Gives(p, ext, depth, f, args, mem, out, r, n)) <==> exists n: nat :: Means(gl, decls, ext, depth, f, args, mem, out, r, n)
  {
    hide AllCorrect, AllDefined, SourceCall, CodeCall;
    if n: nat :| Gives(p, ext, depth, f, args, mem, out, r, n) {
      assert CodeCall(p, ext, n, depth, f, args, mem, out) == r;
      var k := CallsReturn(gl, decls, p, ext, n, depth, f, args, mem, out);
      assert Means(gl, decls, ext, depth, f, args, mem, out, r, k);
    }
    if n: nat :| Means(gl, decls, ext, depth, f, args, mem, out, r, n) {
      assert SourceCall(gl, decls, ext, n, depth, f, args, mem, out) == r;
      var k := CallsCompiled(gl, decls, p, ext, n, depth, f, args, mem, out);
      assert Gives(p, ext, depth, f, args, mem, out, r, k);
    }
  }

  // ---------------------------------------------------------------- the compiler on a program

  /** Generates and promotes all functions. That fails only if some look-up can fail;
      otherwise calls that return in the source return the same in the code. */
  method Compile(gl: Globals, decls: Decls) returns (ok: bool, p: Program)
    requires forall f {:trigger decls[f]} :: f in decls ==> DeclOk(gl, decls[f])
    ensures ok ==> AllCorrect(gl, decls, p)
    ensures ok ==> forall ext, fuel, depth, f, args, mem, out {:trigger SourceCall(gl, decls, ext, fuel, depth, f, args, mem, out)} ::
              var r := SourceCall(gl, decls, ext, fuel, depth, f, args, mem, out);
              r.Reply? ==> exists n :: Gives(p, ext, depth, f, args, mem, out, r, n)
  {
    hide Correct, DeclOk, SourceForm, Graph.WellFormed, Promotable, SourceCall, Gives;
    ok, p := true, map[];
    var rest := decls.Keys;
    while rest != {}
      invariant rest <= decls.Keys && p.Keys == decls.Keys - rest
      invariant forall f {:trigger p[f]} :: f in p ==> p[f].params == |decls[f].params| && Correct(gl, decls[f], p[f].blocks)
      decreases rest
    {
      var f :| f in rest;
      var g, code;
      ghost var sites;
      g, code, sites := Generate(gl, decls[f]);
      ok, code := Promote(gl, decls[f], g, code, sites);
      if !ok {
        return;
      }
      p := p[f := Routine(|decls[f].params|, code)];
      rest := rest - {f};
    }
    forall ext, fuel, depth, f, args, mem, out | SourceCall(gl, decls, ext, fuel, depth, f, args, mem, out).Reply?
      ensures exists n :: Gives(p, ext, depth, f, args, mem, out, SourceCall(gl, decls, ext, fuel, depth, f, args, mem, out), n)
    {
      var n := CallsCompiled(gl, decls, p, ext, fuel, depth, f, args, mem, out);
    }
  }
}
