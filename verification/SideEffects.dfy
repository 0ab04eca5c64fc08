/** Functions that may write memory their callers see, or print: found through the
    call graph, and what calls of the others do. */
module SideEffects {
  import opened Arithmetic
  import opened Cfg
  import opened ArrayIr
  import opened DeadCode

  /** The functions with a body; any other name is a declaration. */
  type Program = map<nat, Func>

  // ---------------------------------------------------------------- stores that only the function sees

  predicate In(f: Func, b: int, i: int) { 0 <= b < |f| && 0 <= i < |f[b].body| }

  /** r is made by an alloca. */
  predicate MadeByAlloca(f: Func, r: Reg) {
    exists b, i {:trigger In(f, b, i)} :: 0 <= b < |f| && 0 <= i < |f[b].body| && In(f, b, i) && f[b].body[i].Alloca? && f[b].body[i].d == r
  }

  /** r is made by a gep on what an alloca makes. */
  predicate MadeByLocalGep(f: Func, r: Reg) {
    exists b, i {:trigger In(f, b, i)} :: 0 <= b < |f| && 0 <= i < |f[b].body| && In(f, b, i) && LocalGep(f, f[b].body[i]) && f[b].body[i].d == r
  }

  predicate LocalGep(f: Func, i: Instr) { i.Gep? && i.base.Res? && MadeByAlloca(f, i.base.r) }

  /** The address is an element of an array of the function itself. */
  predicate IsLocalStore(f: Func, i: Instr) { i.Store? && i.ptr.Res? && MadeByLocalGep(f, i.ptr.r) }

  predicate OuterStore(f: Func, i: Instr) { i.Store? && !IsLocalStore(f, i) }

  ghost predicate HasStore(f: Func) { exists b, i {:trigger In(f, b, i)} :: In(f, b, i) && OuterStore(f, f[b].body[i]) }

  ghost predicate SameMade(f: Func, b: int, i: int, c: int, j: int) {
    In(f, b, i) && In(f, c, j) && !f[b].body[i].Store? && !f[c].body[j].Store? && f[b].body[i].d == f[c].body[j].d ==> b == c && i == j
  }

  ghost predicate PhiApart(f: Func, b: int, i: int, c: int, k: int) {
    In(f, b, i) && 0 <= c < |f| && 0 <= k < |f[c].phis| && !f[b].body[i].Store? ==> f[b].body[i].d != f[c].phis[k].dest
  }

  /** Every result is made in one place. */
  ghost predicate OneMaker(f: Func) {
    && (forall b, i, c, j {:trigger SameMade(f, b, i, c, j)} :: SameMade(f, b, i, c, j))
    && (forall b, i, c, k {:trigger PhiApart(f, b, i, c, k)} :: PhiApart(f, b, i, c, k))
  }

  // ---------------------------------------------------------------- the call graph

  ghost predicate CallsOf(f: Func, c: nat) {
    exists b, i {:trigger In(f, b, i)} :: In(f, b, i) && f[b].body[i].Call? && f[b].body[i].callee == c
  }

  /** Side effects of its own: a declaration or main, if not exempt, or a store that
      others see. */
  ghost predicate Root(p: Program, main: nat, exempt: set<nat>, f: nat) {
    if f !in p || f == main then f !in exempt else HasStore(p[f])
  }

  ghost predicate CallChain(p: Program, main: nat, exempt: set<nat>, w: seq<nat>, f: nat) {
    && 0 < |w| && w[0] == f && Root(p, main, exempt, w[|w| - 1])
    && forall i {:trigger w[i]} :: 0 <= i < |w| - 1 ==> w[i] in p && w[i] != main && CallsOf(p[w[i]], w[i + 1])
  }

  /** A chain of calls leads from f to a function with side effects of its own. */
  ghost predicate Effects(p: Program, main: nat, exempt: set<nat>, f: nat) { exists w :: CallChain(p, main, exempt, w, f) }

  lemma RootEffects(p: Program, main: nat, exempt: set<nat>, f: nat)
    requires Root(p, main, exempt, f)
    ensures Effects(p, main, exempt, f)
  {
    assert CallChain(p, main, exempt, [f], f);
  }

  lemma CallerEffects(p: Program, main: nat, exempt: set<nat>, f: nat, c: nat)
    requires f in p && f != main && CallsOf(p[f], c) && Effects(p, main, exempt, c)
    ensures Effects(p, main, exempt, f)
  {
    var w :| CallChain(p, main, exempt, w, c);
    assert CallChain(p, main, exempt, [f] + w, f);
  }

  /** A set that holds the roots and the callers of its members holds every
      function with effects. */
  lemma {:induction false} ClosedHolds(p: Program, main: nat, exempt: set<nat>, all: set<nat>, s: set<nat>, w: seq<nat>, f: nat)
    requires CallChain(p, main, exempt, w, f) && f in all
    requires forall g {:trigger g in all} :: g in all && Root(p, main, exempt, g) ==> g in s
    requires forall g, c {:trigger CallsOf(p[g], c)} :: g in all && g in p && g != main && CallsOf(p[g], c) ==> c in all && (c in s ==> g in s)
    ensures f in s
    decreases |w|
  {
    if |w| > 1 {
      assert w[0] in p && CallsOf(p[w[0]], w[0 + 1]);
      var v := w[1..];
      assert CallChain(p, main, exempt, v, w[1]) by {
        assert forall i :: 0 <= i < |v| ==> v[i] == w[i + 1];
      }
      ClosedHolds(p, main, exempt, all, s, v, w[1]);
    }
  }

  /** A chain of calls leads from f to main. */
  ghost predicate LeadsTo(p: Program, main: nat, w: seq<nat>, f: nat) {
    && 0 < |w| && w[0] == f && w[|w| - 1] == main
    && forall i {:trigger w[i]} :: 0 <= i < |w| - 1 ==> w[i] in p && w[i] != main && CallsOf(p[w[i]], w[i + 1])
  }

  /** What exempting main leaves out: the functions from which calls lead to main,
      and only main is to blame. */
  lemma ExemptMain(p: Program, main: nat, exempt: set<nat>, f: nat)
    ensures Effects(p, main, exempt - {main}, f) <==> Effects(p, main, exempt, f) || exists w :: LeadsTo(p, main, w, f)
  {
    hide HasStore, CallsOf;
    var less := exempt - {main};
    if Effects(p, main, exempt, f) {
      var w :| CallChain(p, main, exempt, w, f);
      assert CallChain(p, main, less, w, f);
    }
    if w :| LeadsTo(p, main, w, f) {
      assert CallChain(p, main, less, w, f);
    }
    if Effects(p, main, less, f) {
      var w :| CallChain(p, main, less, w, f);
      if w[|w| - 1] == main {
        assert LeadsTo(p, main, w, f);
      } else {
        assert CallChain(p, main, exempt, w, f);
      }
    }
  }

  // ---------------------------------------------------------------- what calls do

  /** The objects of an activation go when it returns: outside of them the memory is
      the new one, and there what it was. */
  function Back(mem: Mem, mem': Mem, frame: nat): Mem {
    (map a | a in mem' && !IsOwn(a.0, frame) :: mem'[a]) + (map a | a in mem && IsOwn(a.0, frame) :: mem[a])
  }

  predicate IsOwn(o: Obj, frame: nat) { o.Local? && o.frame == frame }

  type Outside = (nat, seq<Datum>, Mem, seq<int>) -> Reply

  /** Calls run the program's functions, to a depth; declarations are outside. */
  function CallIn(p: Program, ext: Outside, fuel: nat, depth: nat, frame: nat, f: nat, args: seq<Datum>, mem: Mem, out: seq<int>): Reply
    decreases depth, 0
  {
    if f !in p then ext(f, args, mem, out)
    else if depth == 0 then NoReply
    else Answer(Execute(Inside(p, ext, fuel, depth, frame, args, out), p[f], mem, fuel), mem, frame)
  }

  /** The machine that runs a function called at this depth. */
  function Inside(p: Program, ext: Outside, fuel: nat, depth: nat, frame: nat, args: seq<Datum>, out: seq<int>): Machine
    requires depth > 0
    decreases depth - 1, 1
  {
    Machine(frame, args, (g: nat, a: seq<Datum>, mm: Mem, oo: seq<int>) => CallIn(p, ext, fuel, depth - 1, frame + 1, g, a, mm, out + oo))
  }

  function Answer(o: Outcome, mem: Mem, frame: nat): Reply {
    match o
    case Returned(v, mem', out') => Reply(if v.Some? then v.value else 0, Back(mem, mem', frame), out')
    case Halted(_, _, _) => NoReply
    case Unfinished(_, _) => NoReply
  }

  // ---------------------------------------------------------------- runs of functions without effects

  /** The calls that f makes write nothing; if strict, they print nothing either. */
  ghost predicate QuietCalls(m: Machine, f: Func, strict: bool) {
    forall c, args, mem, out {:trigger m.callees(c, args, mem, out)} ::
      CallsOf(f, c) && m.callees(c, args, mem, out).Reply? ==>
        m.callees(c, args, mem, out).mem == mem && (strict ==> m.callees(c, args, mem, out).out == [])
  }

  /** Outside the activation's own objects the two agree. */
  ghost predicate SameOutside(a: Mem, b: Mem, frame: nat) {
    forall x: (Obj, int) {:trigger x in a} {:trigger x in b} :: !IsOwn(x.0, frame) ==> (x in a <==> x in b) && (x in a ==> a[x] == b[x])
  }

  /** Results of allocas, and of geps on them, point to the activation's own objects. */
  ghost predicate OwnPointers(f: Func, frame: nat, env: Env) {
    forall r {:trigger r in env} :: r in env ==>
      (MadeByAlloca(f, r) || MadeByLocalGep(f, r) ==> env[r].P? && IsOwn(env[r].o, frame))
  }

  ghost predicate Tame(f: Func, frame: nat, strict: bool, mem: Mem, s: State) {
    OwnPointers(f, frame, s.env) && SameOutside(mem, s.mem, frame) && (strict ==> s.out == [])
  }

  ghost predicate TameResult(f: Func, frame: nat, strict: bool, mem: Mem, r: Result) {
    if r.Next? then Tame(f, frame, strict, mem, r.s) else SameOutside(mem, r.mem, frame) && (strict ==> r.out == [])
  }

  /** A result made here is made nowhere else. */
  lemma MakerIs(f: Func, b: Block, i: nat)
    requires OneMaker(f) && In(f, b, i) && !f[b].body[i].Store?
    ensures MadeByAlloca(f, f[b].body[i].d) <==> f[b].body[i].Alloca?
    ensures MadeByLocalGep(f, f[b].body[i].d) <==> LocalGep(f, f[b].body[i])
  {
    var w := f[b].body[i];
    forall c, j | In(f, c, j) && !f[c].body[j].Store? && f[c].body[j].d == w.d
      ensures c == b && j == i
    {
      assert SameMade(f, c, j, b, i);
    }
  }

  lemma DefineTame(f: Func, frame: nat, strict: bool, mem: Mem, s: State, b: Block, i: nat, v: Option<Datum>, why: Reason)
    requires OneMaker(f) && In(f, b, i) && !f[b].body[i].Store? && Tame(f, frame, strict, mem, s)
    requires v.Some? && (f[b].body[i].Alloca? || LocalGep(f, f[b].body[i])) ==> v.value.P? && IsOwn(v.value.o, frame)
    ensures TameResult(f, frame, strict, mem, Define(s, f[b].body[i].d, v, why))
  {
    hide MadeByAlloca, MadeByLocalGep, LocalGep, OneMaker;
    MakerIs(f, b, i);
  }

  lemma TameStep(m: Machine, f: Func, strict: bool, mem: Mem, b: Block, i: nat, s: State)
    requires In(f, b, i) && OneMaker(f) && !HasStore(f) && QuietCalls(m, f, strict) && Tame(f, m.frame, strict, mem, s)
    ensures TameResult(f, m.frame, strict, mem, Exec(m, f[b].body[i], s))
  {
    hide OneMaker, MadeByAlloca, MadeByLocalGep, Arith, Test, QuietCalls;
    var w := f[b].body[i];
    match w
    case Alloca(d) => DefineTame(f, m.frame, strict, mem, s, b, i, Some(P(Local(m.frame, d), 0)), Undefined);
    case Gep(d, v, o) =>
      var p, n := Ptr(m, s.env, v), Num(m, s.env, o);
      var x := if p.None? || n.None? then None else Some(P(p.value.0, p.value.1 + n.value));
      DefineTame(f, m.frame, strict, mem, s, b, i, x, Undefined);
    case Store(v, p) => assert !OuterStore(f, w);
    case Load(d, v) =>
      var p := Ptr(m, s.env, v);
      DefineTame(f, m.frame, strict, mem, s, b, i, if p.None? then None else Some(N(Fetch(s.mem, p.value))), Undefined);
    case Binary(d, op, v, o) =>
      var x, y := Num(m, s.env, v), Num(m, s.env, o);
      if x.Some? && y.Some? {
        DefineTame(f, m.frame, strict, mem, s, b, i, AsNum(Arith(op, x.value, y.value)), Trap);
      }
    case Compare(d, op, v, o) =>
      var x, y := Num(m, s.env, v), Num(m, s.env, o);
      if x.Some? && y.Some? {
        DefineTame(f, m.frame, strict, mem, s, b, i, Some(N(Bit(Test(op, x.value, y.value)))), Trap);
      }
    case Zext(d, v) => DefineTame(f, m.frame, strict, mem, s, b, i, AsNum(Num(m, s.env, v)), Undefined);
    case Call(d, c, vs) =>
      var a := EvalAll(m, s.env, vs);
      if a.Some? {
        CallTame(m, f, strict, b, i, a.value, s);
        match m.callees(c, a.value, s.mem, s.out)
        case NoReply =>
        case Reply(n, mem', out') => DefineTame(f, m.frame, strict, mem, s.(out := s.out + out'), b, i, Some(N(n)), Undefined);
      }
  }

  lemma CallTame(m: Machine, f: Func, strict: bool, b: Block, i: nat, args: seq<Datum>, s: State)
    requires In(f, b, i) && f[b].body[i].Call? && QuietCalls(m, f, strict)
    ensures var r := m.callees(f[b].body[i].callee, args, s.mem, s.out); r.Reply? ==> r.mem == s.mem && (strict ==> r.out == [])
  {
    assert CallsOf(f, f[b].body[i].callee);
  }

  lemma {:induction false} TameBody(m: Machine, f: Func, strict: bool, mem: Mem, b: Block, i: nat, s: State)
    requires b < |f| && i <= |f[b].body| && OneMaker(f) && !HasStore(f) && QuietCalls(m, f, strict) && Tame(f, m.frame, strict, mem, s)
    ensures TameResult(f, m.frame, strict, mem, ExecBody(m, f[b].body[i..], s))
    decreases |f[b].body| - i
  {
    hide HasStore, QuietCalls, OneMaker, Exec, OwnPointers;
    if i < |f[b].body| {
      TameStep(m, f, strict, mem, b, i, s);
      assert f[b].body[i..][1..] == f[b].body[i + 1..];
      var r := Exec(m, f[b].body[i], s);
      if r.Next? {
        TameBody(m, f, strict, mem, b, i + 1, r.s);
      }
    }
  }

  lemma {:induction false} TamePhis(m: Machine, f: Func, frame: nat, c: Block, k: nat, p: Block, was: Env, env: Env)
    requires c < |f| && k <= |f[c].phis| && OneMaker(f) && OwnPointers(f, frame, env)
    ensures OwnPointers(f, frame, EnterPhis(m, was, f[c].phis[k..], p, env))
    decreases |f[c].phis| - k
  {
    hide MadeByAlloca, MadeByLocalGep, OneMaker;
    if k < |f[c].phis| {
      var phi := f[c].phis[k];
      var v := Incoming(m, was, phi.pairs, p);
      var env' := if v.None? then env - {phi.dest} else env[phi.dest := v.value];
      PhiIsOther(f, c, k);
      assert f[c].phis[k..][0] == phi && f[c].phis[k..][1..] == f[c].phis[k + 1..];
      TamePhis(m, f, frame, c, k + 1, p, was, env');
    } else {
      assert f[c].phis[k..] == [];
    }
  }

  lemma PhiIsOther(f: Func, c: Block, k: nat)
    requires c < |f| && k < |f[c].phis| && OneMaker(f)
    ensures !MadeByAlloca(f, f[c].phis[k].dest) && !MadeByLocalGep(f, f[c].phis[k].dest)
  {
    forall b, i | In(f, b, i) && !f[b].body[i].Store?
      ensures f[b].body[i].d != f[c].phis[k].dest
    {
      assert PhiApart(f, b, i, c, k);
    }
  }

  lemma {:induction false} TameRun(m: Machine, f: Func, strict: bool, mem: Mem, b: Block, s: State, k: nat)
    requires OneMaker(f) && !HasStore(f) && QuietCalls(m, f, strict) && Tame(f, m.frame, strict, mem, s)
    ensures var o := RunFrom(m, f, b, s, k); SameOutside(mem, o.mem, m.frame) && (strict ==> o.out == [])
    decreases k
  {
    hide HasStore, QuietCalls, OneMaker, OwnPointers, SameOutside, EnterPhis;
    if k > 0 && b < |f| {
      TameBody(m, f, strict, mem, b, 0, s);
      assert f[b].body[0..] == f[b].body;
      var r := ExecBody(m, f[b].body, s);
      if r.Next? {
        match ExecTerm(m, f[b].term, r.s)
        case Done(o) =>
        case Goto(c) =>
          if c < |f| {
            assert f[c].phis[0..] == f[c].phis;
            TamePhis(m, f, m.frame, c, 0, b, r.s.env, r.s.env);
            TameRun(m, f, strict, mem, c, Entered(m, f[c].phis, b, r.s), k - 1);
          }
      }
    }
  }

  lemma BackSame(mem: Mem, mem': Mem, frame: nat)
    requires SameOutside(mem, mem', frame)
    ensures Back(mem, mem', frame) == mem
  {
  }

  ghost predicate AllOneMaker(p: Program) { forall f {:trigger p[f]} :: f in p ==> OneMaker(p[f]) }

  /** The exempt declarations leave memory alone. */
  ghost predicate ExemptQuiet(ext: Outside, exempt: set<nat>) {
    forall f, args, mem, out {:trigger ext(f, args, mem, out)} :: f in exempt && ext(f, args, mem, out).Reply? ==> ext(f, args, mem, out).mem == mem
  }

  /** A function without effects leaves the memory of its callers alone, their arrays
      included, and prints nothing if nothing is exempt, however deep its calls go. */
  lemma {:induction false} NoEffects(p: Program, main: nat, exempt: set<nat>, ext: Outside, fuel: nat, depth: nat, frame: nat,
                                     f: nat, args: seq<Datum>, mem: Mem, out: seq<int>)
    requires AllOneMaker(p) && !Effects(p, main, exempt, f) && main !in exempt && ExemptQuiet(ext, exempt)
    ensures var r := CallIn(p, ext, fuel, depth, frame, f, args, mem, out); r.Reply? ==> r.mem == mem && (exempt == {} ==> r.out == [])
    decreases depth
  {
    hide Effects, OneMaker, HasStore, CallsOf, Execute;
    var strict := exempt == {};
    if Root(p, main, exempt, f) {
      RootEffects(p, main, exempt, f);
    }
    if f in p && depth > 0 {
      var m := Inside(p, ext, fuel, depth, frame, args, out);
      forall c, a, mm, oo | CallsOf(p[f], c) && m.callees(c, a, mm, oo).Reply?
        ensures m.callees(c, a, mm, oo).mem == mm && (strict ==> m.callees(c, a, mm, oo).out == [])
      {
        if Effects(p, main, exempt, c) {
          CallerEffects(p, main, exempt, f, c);
        }
        NoEffects(p, main, exempt, ext, fuel, depth - 1, frame + 1, c, a, mm, out + oo);
      }
      TameExecute(m, p[f], strict, mem, fuel);
      var o := Execute(m, p[f], mem, fuel);
      BackSame(mem, o.mem, frame);
    }
  }

  lemma TameExecute(m: Machine, f: Func, strict: bool, mem: Mem, fuel: nat)
    requires OneMaker(f) && !HasStore(f) && QuietCalls(m, f, strict)
    ensures var o := Execute(m, f, mem, fuel); SameOutside(mem, o.mem, m.frame) && (strict ==> o.out == [])
  {
    hide OneMaker, HasStore, QuietCalls;
    TameRun(m, f, strict, mem, ENTRY, State(map[], mem, []), fuel);
  }

  /** So the machine that runs a function of the program is quiet about all functions
      without effects. */
  lemma InsideQuiet(p: Program, main: nat, ext: Outside, fuel: nat, depth: nat, frame: nat, args: seq<Datum>, out: seq<int>, pure: set<nat>)
    requires depth > 0 && AllOneMaker(p) && forall f :: f in pure ==> !Effects(p, main, {}, f)
    ensures Quiet(Inside(p, ext, fuel, depth, frame, args, out), pure)
  {
    hide Effects, OneMaker;
    var m := Inside(p, ext, fuel, depth, frame, args, out);
    forall f, a, mm, oo | f in pure && m.callees(f, a, mm, oo).Reply?
      ensures m.callees(f, a, mm, oo).mem == mm && m.callees(f, a, mm, oo).out == []
    {
      NoEffects(p, main, {}, ext, fuel, depth - 1, frame + 1, f, a, mm, out + oo);
    }
  }
}
