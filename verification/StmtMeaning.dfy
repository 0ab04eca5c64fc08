/** What the blocks emitted for a statement do, in any function they become part
    of, against what the statement means. */
module StmtMeaning {
  import opened Cfg
  import opened Arithmetic
  import opened Ir
  import opened Ast
  import opened Runs
  import opened ExprMeaning

  /** A block under construction: it has no terminator while code may be added. */
  datatype Draft = Draft(body: seq<Instr>, term: Option<Term>)

  type Code = seq<Draft>

  datatype Place = Place(b: Block, i: nat)

  ghost predicate BlockCompletes(d: Draft, bb: BasicBlock) {
    bb.phis == [] && d.body <= bb.body && (d.term.Some? ==> bb.body == d.body && bb.term == d.term.value)
  }

  /** f is what the code may still become. */
  ghost predicate Completes(code: Code, f: Func) {
    && |code| <= |f|
    && (forall b {:trigger f[b]} :: 0 <= b < |f| ==> f[b].phis == [])
    && forall b {:trigger f[b]} {:trigger code[b]} :: 0 <= b < |code| ==> BlockCompletes(code[b], f[b])
  }

  /** The run from a place with s ends where the evaluation ends: at another place
      with the same state, or in the same outcome; or both go on, and the run comes
      after k blocks or more to what the evaluation had then. */
  ghost predicate Simulates(m: Machine, f: Func, scope: Scope, from: Place, s: State, to: Place, ended: bool, c: Completion, k: nat) {
    match c
    case Normal(st) => !ended && exists t :: Arrives(m, f, scope, from, s, to, st, t)
    case Answer(v, mem, out) => Finishes(m, f, from.b, from.i, s, Returned(v, mem, out))
    case Broken(why, mem, out) => why.Undefined? || Finishes(m, f, from.b, from.i, s, Halted(why, mem, out))
    case Timeout(mem, out) => StillRunning(m, f, from.b, from.i, s, mem, out, k)
  }

  /** Fuel counts iterations; the run gets to the loop in one block or more. */
  function Least(fuel: nat): nat { if fuel == 0 then 1 else fuel }

  ghost predicate Arrives(m: Machine, f: Func, scope: Scope, from: Place, s: State, to: Place, st: SourceState, t: State) {
    Reaches(m, f, from.b, from.i, s, to.b, to.i, t) && Matches(scope, st, t)
  }

  ghost predicate StmtRuns(m: Machine, gl: Globals, scope: Scope, f: Func, stmt: Stmt, from: Place, to: Place, ended: bool,
                           st: SourceState, s: State, k: nat)
  {
    Simulates(m, f, scope, from, s, to, ended, EvalStmt(m, gl, stmt, st, k), Least(k))
  }

  ghost predicate StmtMeans(gl: Globals, scope: Scope, code: Code, stmt: Stmt, from: Place, to: Place, ended: bool) {
    forall m, f, st, s, k: nat {:trigger StmtRuns(m, gl, scope, f, stmt, from, to, ended, st, s, k)} ::
      Completes(code, f) && Matches(scope, st, s) ==> StmtRuns(m, gl, scope, f, stmt, from, to, ended, st, s, k)
  }

  ghost predicate StmtsRun(m: Machine, gl: Globals, scope: Scope, f: Func, ss: seq<Stmt>, from: Place, to: Place, ended: bool,
                           st: SourceState, s: State, k: nat)
  {
    Simulates(m, f, scope, from, s, to, ended, EvalStmts(m, gl, ss, st, k), Least(k))
  }

  ghost predicate StmtsMean(gl: Globals, scope: Scope, code: Code, ss: seq<Stmt>, from: Place, to: Place, ended: bool) {
    forall m, f, st, s, k: nat {:trigger StmtsRun(m, gl, scope, f, ss, from, to, ended, st, s, k)} ::
      Completes(code, f) && Matches(scope, st, s) ==> StmtsRun(m, gl, scope, f, ss, from, to, ended, st, s, k)
  }

  // ---------------------------------------------------------------- growing code

  ghost predicate BlockGrows(d: Draft, d': Draft) { d.body <= d'.body && (d.term.Some? ==> d' == d) }

  ghost predicate Grows(code: Code, code': Code) {
    |code| <= |code'| && forall b {:trigger code[b]} {:trigger code'[b]} :: 0 <= b < |code| ==> BlockGrows(code[b], code'[b])
  }

  lemma GrowsTrans(a: Code, b: Code, c: Code)
    requires Grows(a, b) && Grows(b, c)
    ensures Grows(a, c)
  {
    forall i | 0 <= i < |a|
      ensures BlockGrows(a[i], c[i])
    {
      assert BlockGrows(a[i], b[i]) && BlockGrows(b[i], c[i]);
    }
  }

  lemma CompletesLess(code: Code, code': Code, f: Func)
    requires Grows(code, code') && Completes(code', f)
    ensures Completes(code, f)
  {
    forall b | 0 <= b < |code|
      ensures BlockCompletes(code[b], f[b])
    {
      assert BlockGrows(code[b], code'[b]) && BlockCompletes(code'[b], f[b]);
    }
  }

  /** What is said of all completions stays true while the code grows. */
  lemma StmtMeansLater(gl: Globals, scope: Scope, code: Code, code': Code, stmt: Stmt, from: Place, to: Place, ended: bool)
    requires StmtMeans(gl, scope, code, stmt, from, to, ended) && Grows(code, code')
    ensures StmtMeans(gl, scope, code', stmt, from, to, ended)
  {
    hide StmtRuns, Matches, Completes;
    forall m, f, st, s, k: nat | Completes(code', f) && Matches(scope, st, s)
      ensures StmtRuns(m, gl, scope, f, stmt, from, to, ended, st, s, k)
    {
      CompletesLess(code, code', f);
    }
  }

  lemma StmtsMeanLater(gl: Globals, scope: Scope, code: Code, code': Code, ss: seq<Stmt>, from: Place, to: Place, ended: bool)
    requires StmtsMean(gl, scope, code, ss, from, to, ended) && Grows(code, code')
    ensures StmtsMean(gl, scope, code', ss, from, to, ended)
  {
    hide StmtsRun, Matches, Completes;
    forall m, f, st, s, k: nat | Completes(code', f) && Matches(scope, st, s)
      ensures StmtsRun(m, gl, scope, f, ss, from, to, ended, st, s, k)
    {
      CompletesLess(code, code', f);
    }
  }

  // ---------------------------------------------------------------- joining runs

  /** A stretch in front. */
  lemma SimPrefix(m: Machine, f: Func, scope: Scope, from: Place, s: State, mid: Place, t: State, to: Place, ended: bool, c: Completion, k: nat)
    requires Reaches(m, f, from.b, from.i, s, mid.b, mid.i, t) && Simulates(m, f, scope, mid, t, to, ended, c, k) && (c.Timeout? ==> k > 0)
    ensures Simulates(m, f, scope, from, s, to, ended, c, k)
  {
    hide Reaches, Finishes, StillRunning, Matches;
    match c
    case Normal(st) =>
      var u :| Arrives(m, f, scope, mid, t, to, st, u);
      ReachesTrans(m, f, from.b, from.i, s, mid.b, mid.i, t, to.b, to.i, u);
      assert Arrives(m, f, scope, from, s, to, st, u);
    case Answer(v, mem, out) => ReachesFinishes(m, f, from.b, from.i, s, mid.b, mid.i, t, Returned(v, mem, out));
    case Broken(why, mem, out) =>
      if !why.Undefined? {
        ReachesFinishes(m, f, from.b, from.i, s, mid.b, mid.i, t, Halted(why, mem, out));
      }
    case Timeout(mem, out) => ReachesRunning(m, f, from.b, from.i, s, mid.b, mid.i, t, mem, out, k);
  }

  /** An edge behind: the end of a branch leads to the block that follows. */
  lemma SimJoins(m: Machine, f: Func, scope: Scope, from: Place, s: State, mid: Place, endedMid: bool, next: Block, ended: bool, c: Completion, k: nat)
    requires Simulates(m, f, scope, from, s, mid, endedMid, c, k) && (ended ==> endedMid)
    requires !endedMid ==> LeadsTo(f, mid, next)
    ensures Simulates(m, f, scope, from, s, Place(next, 0), ended, c, k)
  {
    hide Reaches, Finishes, StillRunning, Matches;
    if c.Normal? {
      var t :| Arrives(m, f, scope, from, s, mid, c.st, t);
      EdgeReaches(m, f, mid.b, t, next);
      ReachesTrans(m, f, from.b, from.i, s, mid.b, mid.i, t, next, 0, t);
      assert Arrives(m, f, scope, from, s, Place(next, 0), c.st, t);
    }
  }

  ghost predicate LeadsTo(f: Func, at: Place, next: Block) {
    && at.b < |f| && next < |f| && at.i == |f[at.b].body| && f[at.b].term == Br(next) && f[next].phis == []
  }

  ghost predicate CodeLeadsTo(code: Code, at: Place, next: Block) {
    && at.b < |code| && next < |code| && at.i == |code[at.b].body| && code[at.b].term == Some(Br(next))
  }

  lemma LeadsInCompletion(code: Code, f: Func, at: Place, next: Block)
    requires Completes(code, f) && CodeLeadsTo(code, at, next)
    ensures LeadsTo(f, at, next)
  {
    assert BlockCompletes(code[at.b], f[at.b]);
  }

  /** Code inside a block. */
  ghost predicate CodeAt(code: Code, at: Place, ins: seq<Instr>) {
    at.b < |code| && at.i + |ins| <= |code[at.b].body| && code[at.b].body[at.i..at.i + |ins|] == ins
  }

  lemma CodeInCompletion(code: Code, f: Func, at: Place, ins: seq<Instr>)
    requires Completes(code, f) && CodeAt(code, at, ins)
    ensures at.b < |f| && at.i + |ins| <= |f[at.b].body| && f[at.b].body[at.i..at.i + |ins|] == ins
  {
    assert BlockCompletes(code[at.b], f[at.b]);
    var d, bb := code[at.b].body, f[at.b].body;
    assert d == bb[..|d|];
  }

  lemma TermInCompletion(code: Code, f: Func, b: Block)
    requires Completes(code, f) && b < |code| && code[b].term.Some?
    ensures b < |f| && f[b].term == code[b].term.value && f[b].body == code[b].body
  {
    assert BlockCompletes(code[b], f[b]);
  }

  /** The code of an expression runs through, or stops the run. */
  lemma ExprStretch(m: Machine, gl: Globals, scope: Scope, f: Func, code: Code, e: Expr, ins: seq<Instr>, o: Operand, lo: nat,
                    at: Place, st: SourceState, s: State)
    returns (t: State)
    requires ExprMeans(gl, scope, e, ins, o, lo) && Matches(scope, st, s) && Completes(code, f) && CodeAt(code, at, ins)
    ensures var r := EvalExpr(m, gl, e, st);
      if r.Val? then Reaches(m, f, at.b, at.i, s, at.b, at.i + |ins|, t) && Matches(scope, r.st, t) && Denotes(m, o, t, r.v)
      else r.why.Undefined? || Finishes(m, f, at.b, at.i, s, Halted(r.why, r.mem, r.out))
  {
    hide Matches, EvalExpr, Completes;
    assert ExprRuns(m, gl, scope, e, ins, o, lo, st, s);
    CodeInCompletion(code, f, at, ins);
    var r := ExecBody(m, ins, s);
    if r.Next? {
      t := r.s;
      StretchReaches(m, f, at.b, at.i, s, ins, t);
    } else {
      t := s;
      StretchHalts(m, f, at.b, at.i, s, ins);
    }
  }

  // ---------------------------------------------------------------- simple statements

  lemma EmptyMeans(gl: Globals, scope: Scope, code: Code, at: Place)
    ensures StmtMeans(gl, scope, code, Expression(None), at, at, false)
    ensures StmtsMean(gl, scope, code, [], at, at, false)
  {
    forall m, f, st, s, k: nat | Completes(code, f) && Matches(scope, st, s)
      ensures StmtRuns(m, gl, scope, f, Expression(None), at, at, false, st, s, k)
      ensures StmtsRun(m, gl, scope, f, [], at, at, false, st, s, k)
    {
      ReachesRefl(m, f, at.b, at.i, s);
      assert Arrives(m, f, scope, at, s, at, st, s);
    }
  }

  lemma ExpressionMeans(gl: Globals, scope: Scope, code: Code, e: Expr, ins: seq<Instr>, o: Operand, lo: nat, at: Place)
    requires ExprMeans(gl, scope, e, ins, o, lo) && CodeAt(code, at, ins)
    ensures StmtMeans(gl, scope, code, Expression(Some(e)), at, Place(at.b, at.i + |ins|), false)
  {
    hide Matches, EvalExpr, Completes, ExprMeans, CodeAt, Reaches, Finishes;
    var to := Place(at.b, at.i + |ins|);
    forall m, f, st, s, k: nat | Completes(code, f) && Matches(scope, st, s)
      ensures StmtRuns(m, gl, scope, f, Expression(Some(e)), at, to, false, st, s, k)
    {
      var t := ExprStretch(m, gl, scope, f, code, e, ins, o, lo, at, st, s);
      var r := EvalExpr(m, gl, e, st);
      if r.Val? {
        assert Arrives(m, f, scope, at, s, to, r.st, t);
      }
    }
  }

  lemma ReturnNothingMeans(gl: Globals, scope: Scope, code: Code, at: Place, to: Place)
    requires at.b < |code| && at.i == |code[at.b].body| && code[at.b].term == Some(RetVoid)
    ensures StmtMeans(gl, scope, code, Return(None), at, to, true)
  {
    hide Completes, Finishes;
    forall m, f, st, s, k: nat | Completes(code, f) && Matches(scope, st, s)
      ensures StmtRuns(m, gl, scope, f, Return(None), at, to, true, st, s, k)
    {
      TermInCompletion(code, f, at.b);
      EndFinishes(m, f, at.b, s, Returned(None, s.mem, s.out));
    }
  }

  lemma ReturnMeans(gl: Globals, scope: Scope, code: Code, e: Expr, ins: seq<Instr>, v: Value, lo: nat, at: Place, to: Place)
    requires ExprMeans(gl, scope, e, ins, Int32(v), lo) && CodeAt(code, at, ins)
    requires at.i + |ins| == |code[at.b].body| && code[at.b].term == Some(Ret(v))
    ensures StmtMeans(gl, scope, code, Return(Some(e)), at, to, true)
  {
    hide Matches, EvalExpr, Completes, ExprMeans, CodeAt, Reaches, Finishes;
    CodeAtIs(code, at, ins);
    forall m, f, st, s, k: nat | Completes(code, f) && Matches(scope, st, s)
      ensures StmtRuns(m, gl, scope, f, Return(Some(e)), at, to, true, st, s, k)
    {
      var t := ExprStretch(m, gl, scope, f, code, e, ins, Int32(v), lo, at, st, s);
      var r := EvalExpr(m, gl, e, st);
      if r.Val? {
        MatchesOut(scope, r.st, t);
        TermInCompletion(code, f, at.b);
        EndFinishes(m, f, at.b, t, Returned(Some(r.v), t.mem, t.out));
        ReachesFinishes(m, f, at.b, at.i, s, at.b, at.i + |ins|, t, Returned(Some(r.v), t.mem, t.out));
      }
    }
  }

  lemma CodeAtIs(code: Code, at: Place, ins: seq<Instr>)
    requires CodeAt(code, at, ins)
    ensures at.b < |code| && at.i + |ins| <= |code[at.b].body|
  {
  }

  // ---------------------------------------------------------------- sequences

  /** One more statement; behind one that always leaves, none is emitted. */
  lemma SequenceMeans(gl: Globals, scope: Scope, code: Code, ss: seq<Stmt>, stmt: Stmt, from: Place, mid: Place, to: Place, ended: bool)
    requires StmtsMean(gl, scope, code, ss, from, mid, false) && StmtMeans(gl, scope, code, stmt, mid, to, ended)
    ensures StmtsMean(gl, scope, code, ss + [stmt], from, to, ended)
  {
    hide Matches, EvalStmt, Completes, Reaches, Finishes, StillRunning;
    assert (ss + [stmt])[..|ss + [stmt]| - 1] == ss;
    forall m, f, st, s, k: nat | Completes(code, f) && Matches(scope, st, s)
      ensures StmtsRun(m, gl, scope, f, ss + [stmt], from, to, ended, st, s, k)
    {
      assert StmtsRun(m, gl, scope, f, ss, from, mid, false, st, s, k);
      var c := EvalStmts(m, gl, ss, st, k);
      if c.Normal? {
        var t :| Arrives(m, f, scope, from, s, mid, c.st, t);
        assert StmtRuns(m, gl, scope, f, stmt, mid, to, ended, c.st, t, k);
        SimPrefix(m, f, scope, from, s, mid, t, to, ended, EvalStmt(m, gl, stmt, c.st, k), Least(k));
      }
    }
  }

  lemma SequenceEnded(gl: Globals, scope: Scope, code: Code, ss: seq<Stmt>, stmt: Stmt, from: Place, to: Place)
    requires StmtsMean(gl, scope, code, ss, from, to, true)
    ensures StmtsMean(gl, scope, code, ss + [stmt], from, to, true)
  {
    hide Matches, EvalStmt, Completes, Reaches, Finishes, StillRunning;
    assert (ss + [stmt])[..|ss + [stmt]| - 1] == ss;
    forall m, f, st, s, k: nat | Completes(code, f) && Matches(scope, st, s)
      ensures StmtsRun(m, gl, scope, f, ss + [stmt], from, to, true, st, s, k)
    {
      assert StmtsRun(m, gl, scope, f, ss, from, to, true, st, s, k);
    }
  }

  // ---------------------------------------------------------------- declarations

  ghost predicate DeclRuns(m: Machine, scope: Scope, inner: Scope, names: seq<string>, ins: seq<Instr>, st: SourceState, s: State) {
    var r := ExecBody(m, ins, s);
    r.Next? && Matches(inner, st.(frames := st.frames + [Locals(names)]), r.s)
  }

  /** The allocas of a scope's names. */
  ghost predicate DeclsMean(scope: Scope, inner: Scope, names: seq<string>, ins: seq<Instr>) {
    forall m, st, s {:trigger DeclRuns(m, scope, inner, names, ins, st, s)} ::
      Matches(scope, st, s) ==> DeclRuns(m, scope, inner, names, ins, st, s)
  }

  lemma NoDecls(scope: Scope)
    requires 0 < |scope|
    ensures DeclsMean(scope, scope + [map[]], [], [])
  {
    var inner := scope + [map[]];
    forall m: Machine, st, s | Matches(scope, st, s)
      ensures DeclRuns(m, scope, inner, [], [], st, s)
    {
      var frames := st.frames + [Locals([])];
      forall i: nat, id | i < |frames|
        ensures InSlot(inner, frames, s.slots, i, id)
      {
        if i < |st.frames| {
          assert InSlot(scope, st.frames, s.slots, i, id);
        }
      }
    }
  }

  /** The first declaration of a name in a scope stays; a later one only has its
      alloca emitted. */
  function Declare(scope: Scope, id: string, x: nat): Scope
    requires 0 < |scope|
  {
    var top := scope[|scope| - 1];
    if id in top then scope else scope[|scope| - 1 := top[id := Variable(Slot(x))]]
  }

  lemma DeclareOk(gl: Globals, scope: Scope, id: string, x: nat)
    requires ScopeOk(gl, scope, x) && 1 < |scope|
    ensures ScopeOk(gl, Declare(scope, id, x), x + 1)
  {
    var scope', slots := Declare(scope, id, x), x + 1;
    forall i: nat, jd
      ensures HasSlot(scope', slots, i, jd)
    {
      assert HasSlot(scope, x, i, jd);
    }
    forall i: nat, d, j: nat, jd, y: nat | SlotOf(scope', i, d, y) && SlotOf(scope', j, jd, y)
      ensures SameName(i, d, j, jd)
    {
      SlotBefore(gl, scope, id, x, i, d, y);
      SlotBefore(gl, scope, id, x, j, jd, y);
    }
  }

  lemma SlotBefore(gl: Globals, scope: Scope, id: string, x: nat, i: nat, d: string, y: nat)
    requires ScopeOk(gl, scope, x) && 1 < |scope| && SlotOf(Declare(scope, id, x), i, d, y)
    ensures (SlotOf(scope, i, d, y) && y < x) || (y == x && SameName(i, d, |scope| - 1, id))
  {
    assert HasSlot(scope, x, i, d);
  }

  lemma DeclMeans(gl: Globals, scope: Scope, inner: Scope, names: seq<string>, ins: seq<Instr>, id: string, x: nat)
    requires DeclsMean(scope, inner, names, ins) && ScopeOk(gl, inner, x) && |inner| == |scope| + 1 && 0 < |scope|
    ensures DeclsMean(scope, Declare(inner, id, x), names + [id], ins + [Alloca(x)])
  {
    var inner' := Declare(inner, id, x);
    forall m, st, s | Matches(scope, st, s)
      ensures DeclRuns(m, scope, inner', names + [id], ins + [Alloca(x)], st, s)
    {
      assert DeclRuns(m, scope, inner, names, ins, st, s);
      ExecSnoc(m, ins, Alloca(x), s);
      var t := ExecBody(m, ins, s).s;
      AllocaMatches(gl, inner, st.frames, names, id, x, st, t);
    }
  }

  lemma AllocaMatches(gl: Globals, inner: Scope, frames: Frames, names: seq<string>, id: string, x: nat, st: SourceState, t: State)
    requires ScopeOk(gl, inner, x) && 1 < |inner| && Matches(inner, st.(frames := frames + [Locals(names)]), t)
    ensures Matches(Declare(inner, id, x), st.(frames := frames + [Locals(names + [id])]), t.(slots := t.slots - {x}))
  {
    var was, now, slots := frames + [Locals(names)], frames + [Locals(names + [id])], t.slots - {x};
    var inner' := Declare(inner, id, x);
    forall i: nat, jd | i < |now|
      ensures InSlot(inner', now, slots, i, jd)
    {
      assert InSlot(inner, was, t.slots, i, jd);
      var j := i + 1;
      assert HasSlot(inner, x, j, jd);
    }
  }

  /** A block of statements with its own names. */
  lemma CompoundMeans(gl: Globals, scope: Scope, inner: Scope, code: Code, names: seq<string>, body: seq<Stmt>, ins: seq<Instr>,
                      from: Place, to: Place, ended: bool)
    requires DeclsMean(scope, inner, names, ins) && CodeAt(code, from, ins)
    requires |inner| == |scope| + 1 && inner[..|scope|] == scope
    requires StmtsMean(gl, inner, code, body, Place(from.b, from.i + |ins|), to, ended)
    ensures StmtMeans(gl, scope, code, Compound(names, body), from, to, ended)
  {
    hide Matches, Completes, Reaches, Finishes, StillRunning, CodeAt, EvalStmts;
    var mid := Place(from.b, from.i + |ins|);
    forall m, f, st, s, k: nat | Completes(code, f) && Matches(scope, st, s)
      ensures StmtRuns(m, gl, scope, f, Compound(names, body), from, to, ended, st, s, k)
    {
      assert DeclRuns(m, scope, inner, names, ins, st, s);
      CodeInCompletion(code, f, from, ins);
      var t := ExecBody(m, ins, s).s;
      StretchReaches(m, f, from.b, from.i, s, ins, t);
      var st1 := st.(frames := st.frames + [Locals(names)]);
      assert StmtsRun(m, gl, inner, f, body, mid, to, ended, st1, t, k);
      var c := EvalStmts(m, gl, body, st1, k);
      SimPrefix(m, f, inner, from, s, mid, t, to, ended, c, Least(k));
      if c.Normal? {
        MatchesOut(scope, st, s);
        var u :| Arrives(m, f, inner, from, s, to, c.st, u);
        MatchesOut(inner, c.st, u);
        MatchesOuter(scope, inner, c.st, u);
        assert Arrives(m, f, scope, from, s, to, c.st.(frames := c.st.frames[..|st.frames|]), u);
      }
    }
  }

  lemma MatchesOuter(scope: Scope, inner: Scope, st: SourceState, s: State)
    requires Matches(inner, st, s) && |inner| == |scope| + 1 && inner[..|scope|] == scope && 0 < |scope|
    ensures Matches(scope, st.(frames := st.frames[..|scope| - 1]), s)
  {
    var frames := st.frames[..|scope| - 1];
    forall i: nat, id | i < |frames|
      ensures InSlot(scope, frames, s.slots, i, id)
    {
      assert InSlot(inner, st.frames, s.slots, i, id);
      assert scope[i + 1] == inner[i + 1];
    }
  }

  // ---------------------------------------------------------------- branches

  ghost predicate TestRuns(m: Machine, gl: Globals, scope: Scope, e: Expr, code: seq<Instr>, w: Value, st: SourceState, s: State) {
    var r := ExecBody(m, code, s);
    match EvalExpr(m, gl, e, st)
    case Val(v, st') =>
      var b := if r.Next? then Eval(m, r.s.env, w) else None;
      r.Next? && Matches(scope, st', r.s) && b.Some? && (b.value != 0 <==> v != 0)
    case Fail(why, mem, out) => why.Undefined? || r == Halt(why, mem, out)
  }

  /** w is not zero if the condition is not. */
  ghost predicate TestMeans(gl: Globals, scope: Scope, e: Expr, code: seq<Instr>, w: Value) {
    forall m, st, s {:trigger TestRuns(m, gl, scope, e, code, w, st, s)} ::
      Matches(scope, st, s) ==> TestRuns(m, gl, scope, e, code, w, st, s)
  }

  lemma BitTests(gl: Globals, scope: Scope, e: Expr, code: seq<Instr>, w: Value, lo: nat)
    requires ExprMeans(gl, scope, e, code, Int1(w), lo)
    ensures TestMeans(gl, scope, e, code, w)
  {
    hide Matches, EvalExpr;
    forall m, st, s | Matches(scope, st, s)
      ensures TestRuns(m, gl, scope, e, code, w, st, s)
    {
      assert ExprRuns(m, gl, scope, e, code, Int1(w), lo, st, s);
    }
  }

  lemma NotZeroTests(gl: Globals, scope: Scope, e: Expr, code: seq<Instr>, v: Value, lo: nat, t: nat)
    requires ExprMeans(gl, scope, e, code, Int32(v), lo) && lo <= t
    ensures TestMeans(gl, scope, e, code + [Compare(Temp(t), Ne, v, Const(0))], Res(Temp(t)))
  {
    hide Matches, EvalExpr;
    var i := Compare(Temp(t), Ne, v, Const(0));
    forall m, st, s | Matches(scope, st, s)
      ensures TestRuns(m, gl, scope, e, code + [i], Res(Temp(t)), st, s)
    {
      assert ExprRuns(m, gl, scope, e, code, Int32(v), lo, st, s);
      ExecSnoc(m, code, i, s);
      var r, x := ExecBody(m, code, s), EvalExpr(m, gl, e, st);
      if x.Val? {
        DefineMatches(scope, x.st, r.s, t, Bit(x.v != 0), lo);
      }
    }
  }

  /** A block that tests a condition and branches on it. */
  ghost predicate Branches(gl: Globals, scope: Scope, code: Code, e: Expr, at: Place, ins: seq<Instr>, w: Value, yes: Block, no: Block) {
    && TestMeans(gl, scope, e, ins, w) && CodeAt(code, at, ins) && at.i + |ins| == |code[at.b].body|
    && code[at.b].term == Some(CondBr(w, yes, no)) && yes < |code| && no < |code|
  }

  /** The run comes to the beginning of the right block. */
  lemma BranchTaken(m: Machine, gl: Globals, scope: Scope, f: Func, code: Code, e: Expr, at: Place, ins: seq<Instr>, w: Value, yes: Block, no: Block,
                    st: SourceState, s: State)
    returns (t: State)
    requires Branches(gl, scope, code, e, at, ins, w, yes, no) && Matches(scope, st, s) && Completes(code, f)
    ensures var r := EvalExpr(m, gl, e, st);
      if r.Val? then
        && Matches(scope, r.st, t) && Reaches(m, f, at.b, at.i, s, if r.v != 0 then yes else no, 0, t)
      else r.why.Undefined? || Finishes(m, f, at.b, at.i, s, Halted(r.why, r.mem, r.out))
  {
    hide Matches, EvalExpr, Reaches, Finishes;
    assert TestRuns(m, gl, scope, e, ins, w, st, s);
    CodeInCompletion(code, f, at, ins);
    TermInCompletion(code, f, at.b);
    var r, x := ExecBody(m, ins, s), EvalExpr(m, gl, e, st);
    t := s;
    if r.Next? {
      t := r.s;
      StretchReaches(m, f, at.b, at.i, s, ins, t);
      if x.Val? {
        var c := if x.v != 0 then yes else no;
        EdgeReaches(m, f, at.b, t, c);
        ReachesTrans(m, f, at.b, at.i, s, at.b, at.i + |ins|, t, c, 0, t);
      }
    } else {
      StretchHalts(m, f, at.b, at.i, s, ins);
    }
  }

  /** if without else: the false side goes straight to the block that follows. */
  lemma SelectionMeans(gl: Globals, scope: Scope, code: Code, cond: Expr, stmt: Stmt, at: Place, ins: seq<Instr>, w: Value, yes: Block, next: Block,
                       end: Place, ended: bool)
    requires Branches(gl, scope, code, cond, at, ins, w, yes, next)
    requires StmtMeans(gl, scope, code, stmt, Place(yes, 0), end, ended) && (ended || CodeLeadsTo(code, end, next))
    ensures StmtMeans(gl, scope, code, Selection(cond, stmt, None), at, Place(next, 0), false)
  {
    hide Matches, Completes, Reaches, Finishes, StillRunning, EvalExpr, Branches, CodeLeadsTo, LeadsTo;
    var to := Place(next, 0);
    forall m, f, st, s, k: nat | Completes(code, f) && Matches(scope, st, s)
      ensures StmtRuns(m, gl, scope, f, Selection(cond, stmt, None), at, to, false, st, s, k)
    {
      var t := BranchTaken(m, gl, scope, f, code, cond, at, ins, w, yes, next, st, s);
      var r := EvalExpr(m, gl, cond, st);
      if r.Val? && r.v != 0 {
        if !ended {
          LeadsInCompletion(code, f, end, next);
        }
        assert StmtRuns(m, gl, scope, f, stmt, Place(yes, 0), end, ended, r.st, t, k);
        var c := EvalStmt(m, gl, stmt, r.st, k);
        SimJoins(m, f, scope, Place(yes, 0), t, end, ended, next, false, c, Least(k));
        SimPrefix(m, f, scope, at, s, Place(yes, 0), t, to, false, c, Least(k));
      } else if r.Val? {
        assert Arrives(m, f, scope, at, s, to, r.st, t);
      }
    }
  }

  /** if with else: when both sides leave, nothing follows. */
  lemma SelectionElseMeans(gl: Globals, scope: Scope, code: Code, cond: Expr, stmt: Stmt, other: Stmt, at: Place, ins: seq<Instr>, w: Value,
                           yes: Block, no: Block, end1: Place, ended1: bool, end2: Place, ended2: bool, next: Block)
    requires Branches(gl, scope, code, cond, at, ins, w, yes, no)
    requires StmtMeans(gl, scope, code, stmt, Place(yes, 0), end1, ended1) && (ended1 || CodeLeadsTo(code, end1, next))
    requires StmtMeans(gl, scope, code, other, Place(no, 0), end2, ended2) && (ended2 || CodeLeadsTo(code, end2, next))
    ensures StmtMeans(gl, scope, code, Selection(cond, stmt, Some(other)), at, Place(next, 0), ended1 && ended2)
  {
    hide Matches, Completes, Reaches, Finishes, StillRunning, EvalExpr, Branches, CodeLeadsTo, LeadsTo;
    var to, ended := Place(next, 0), ended1 && ended2;
    forall m, f, st, s, k: nat | Completes(code, f) && Matches(scope, st, s)
      ensures StmtRuns(m, gl, scope, f, Selection(cond, stmt, Some(other)), at, to, ended, st, s, k)
    {
      var t := BranchTaken(m, gl, scope, f, code, cond, at, ins, w, yes, no, st, s);
      var r := EvalExpr(m, gl, cond, st);
      if !ended1 {
        LeadsInCompletion(code, f, end1, next);
      }
      if !ended2 {
        LeadsInCompletion(code, f, end2, next);
      }
      if r.Val? && r.v != 0 {
        assert StmtRuns(m, gl, scope, f, stmt, Place(yes, 0), end1, ended1, r.st, t, k);
        var c := EvalStmt(m, gl, stmt, r.st, k);
        SimJoins(m, f, scope, Place(yes, 0), t, end1, ended1, next, ended, c, Least(k));
        SimPrefix(m, f, scope, at, s, Place(yes, 0), t, to, ended, c, Least(k));
      } else if r.Val? {
        assert StmtRuns(m, gl, scope, f, other, Place(no, 0), end2, ended2, r.st, t, k);
        var c := EvalStmt(m, gl, other, r.st, k);
        SimJoins(m, f, scope, Place(no, 0), t, end2, ended2, next, ended, c, Least(k));
        SimPrefix(m, f, scope, at, s, Place(no, 0), t, to, ended, c, Least(k));
      }
    }
  }

  // ---------------------------------------------------------------- loops

  ghost predicate LoopCode(gl: Globals, scope: Scope, code: Code, cond: Expr, loop: Stmt, judge: Block, ins: seq<Instr>, w: Value,
                           body: Block, out: Block, end: Place, ended: bool)
  {
    && Branches(gl, scope, code, cond, Place(judge, 0), ins, w, body, out)
    && StmtMeans(gl, scope, code, loop, Place(body, 0), end, ended) && (ended || CodeLeadsTo(code, end, judge))
  }

  /** From the head of the loop on, by the number of iterations. */
  lemma {:induction false} LoopRuns(m: Machine, gl: Globals, scope: Scope, f: Func, code: Code, cond: Expr, loop: Stmt, judge: Block, ins: seq<Instr>,
                                    w: Value, body: Block, out: Block, end: Place, ended: bool, st: SourceState, s: State, k: nat)
    requires LoopCode(gl, scope, code, cond, loop, judge, ins, w, body, out, end, ended)
    requires Completes(code, f) && Matches(scope, st, s)
    ensures Simulates(m, f, scope, Place(judge, 0), s, Place(out, 0), false, EvalStmt(m, gl, Iteration(cond, loop), st, k), k)
    decreases k
  {
    hide Matches, Completes, Reaches, Finishes, StillRunning, EvalExpr, Branches, CodeLeadsTo, LeadsTo, ReachesIn;
    var head, to := Place(judge, 0), Place(out, 0);
    if k == 0 {
      MatchesOut(scope, st, s);
      PausesHere(m, f, judge, s);
    } else {
      var t := BranchTaken(m, gl, scope, f, code, cond, head, ins, w, body, out, st, s);
      var r := EvalExpr(m, gl, cond, st);
      if r.Val? && r.v == 0 {
        assert Arrives(m, f, scope, head, s, to, r.st, t);
      } else if r.Val? {
        assert StmtRuns(m, gl, scope, f, loop, Place(body, 0), end, ended, r.st, t, k);
        var c := EvalStmt(m, gl, loop, r.st, k);
        if c.Normal? {
          var u :| Arrives(m, f, scope, Place(body, 0), t, end, c.st, u);
          LeadsInCompletion(code, f, end, judge);
          LoopRuns(m, gl, scope, f, code, cond, loop, judge, ins, w, body, out, end, ended, c.st, u, k - 1);
          var c2 := EvalStmt(m, gl, Iteration(cond, loop), c.st, k - 1);
          AroundAgain(m, f, scope, end, u, judge, to, c2, k - 1);
          SimPrefix(m, f, scope, Place(body, 0), t, end, u, to, false, c2, k);
          SimPrefix(m, f, scope, head, s, Place(body, 0), t, to, false, c2, k);
        } else {
          SimPrefix(m, f, scope, head, s, Place(body, 0), t, to, false, c, k);
        }
      }
    }
  }

  lemma PausesHere(m: Machine, f: Func, b: Block, s: State)
    ensures StillRunning(m, f, b, 0, s, s.mem, s.out, 0)
  {
    var n := 0;
    assert PausedAt(m, f, b, 0, s, s.mem, s.out, n);
  }

  /** The edge to the head counts one. */
  lemma AroundAgain(m: Machine, f: Func, scope: Scope, end: Place, u: State, judge: Block, to: Place, c: Completion, k: nat)
    requires LeadsTo(f, end, judge) && Simulates(m, f, scope, Place(judge, 0), u, to, false, c, k)
    ensures Simulates(m, f, scope, end, u, to, false, c, k + 1)
  {
    hide Reaches, ReachesIn, Finishes, StillRunning, Matches, RunAt;
    EdgeReaches(m, f, end.b, u, judge);
    match c
    case Timeout(mem, out) => EdgeRunning(m, f, end.b, end.i, u, judge, 0, u, mem, out, k);
    case _ => SimPrefix(m, f, scope, end, u, Place(judge, 0), u, to, false, c, k);
  }

  lemma IterationMeans(gl: Globals, scope: Scope, code: Code, cond: Expr, loop: Stmt, at: Place, judge: Block, ins: seq<Instr>, w: Value,
                       body: Block, out: Block, end: Place, ended: bool)
    requires LoopCode(gl, scope, code, cond, loop, judge, ins, w, body, out, end, ended) && CodeLeadsTo(code, at, judge)
    ensures StmtMeans(gl, scope, code, Iteration(cond, loop), at, Place(out, 0), false)
  {
    hide Matches, Completes, Reaches, Finishes, StillRunning, EvalStmt, LoopCode, CodeLeadsTo, ReachesIn;
    forall m, f, st, s, k: nat | Completes(code, f) && Matches(scope, st, s)
      ensures StmtRuns(m, gl, scope, f, Iteration(cond, loop), at, Place(out, 0), false, st, s, k)
    {
      LoopRuns(m, gl, scope, f, code, cond, loop, judge, ins, w, body, out, end, ended, st, s, k);
      LeadsInCompletion(code, f, at, judge);
      var c := EvalStmt(m, gl, Iteration(cond, loop), st, k);
      AroundAgain(m, f, scope, at, s, judge, Place(out, 0), c, k);
      FewerToo(m, f, scope, at, s, Place(out, 0), c, k);
    }
  }

  lemma FewerToo(m: Machine, f: Func, scope: Scope, from: Place, s: State, to: Place, c: Completion, k: nat)
    requires Simulates(m, f, scope, from, s, to, false, c, k + 1)
    ensures Simulates(m, f, scope, from, s, to, false, c, Least(k))
  {
    hide Matches, Reaches, Finishes, PausedAt;
  }
}
