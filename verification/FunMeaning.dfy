/** A finished function: what its prologue does, what all of it does, and the form
    it has. */
module FunMeaning {
  import opened Cfg
  import opened Arithmetic
  import opened Ir
  import opened Ssa
  import opened Ast
  import opened Runs
  import opened ExprMeaning
  import opened StmtMeaning
  import opened CodeShape

  // ---------------------------------------------------------------- parameters

  /** The frame after the first k parameters have their arguments. */
  ghost function Partial(params: seq<string>, args: seq<int>, k: nat): map<string, Option<int>>
    requires |params| == |args| && k <= |params|
  {
    Locals(params) + Bind(params[..k], args[..k])
  }

  ghost predicate ParamRuns(m: Machine, inner: Scope, params: seq<string>, k: nat, ins: seq<Instr>, mem: Memory)
    requires |m.args| == |params| && k <= |params|
  {
    var r := ExecBody(m, ins, State(map[], map[], mem, []));
    r.Next? && Matches(inner, SourceState([Partial(params, m.args, k)], mem, []), r.s)
  }

  ghost predicate ParamsMean(inner: Scope, params: seq<string>, k: nat, ins: seq<Instr>)
    requires k <= |params|
  {
    forall m: Machine, mem {:trigger ParamRuns(m, inner, params, k, ins, mem)} ::
      |m.args| == |params| ==> ParamRuns(m, inner, params, k, ins, mem)
  }

  lemma ParamsDeclared(gl: Globals, inner: Scope, params: seq<string>, ins: seq<Instr>)
    requires DeclsMean([GlobalScope(gl)], inner, params, ins)
    ensures ParamsMean(inner, params, 0, ins)
  {
    hide Matches;
    var outer := [GlobalScope(gl)];
    forall m: Machine, mem | |m.args| == |params|
      ensures ParamRuns(m, inner, params, 0, ins, mem)
    {
      var st, s := SourceState([], mem, []), State(map[], map[], mem, []);
      NothingMatches(outer, mem);
      assert DeclRuns(m, outer, inner, params, ins, st, s);
      assert params[..0] == [] && m.args[..0] == [];
      assert Partial(params, m.args, 0) == Locals(params);
      assert [] + [Locals(params)] == [Partial(params, m.args, 0)];
    }
  }

  lemma NothingMatches(outer: Scope, mem: Memory)
    requires |outer| == 1
    ensures Matches(outer, SourceState([], mem, []), State(map[], map[], mem, []))
  {
  }

  lemma PartialStep(params: seq<string>, args: seq<int>, k: nat)
    requires |params| == |args| && k < |params|
    ensures Partial(params, args, k + 1) == Partial(params, args, k)[params[k] := Some(args[k])]
  {
    assert params[..k + 1][..k] == params[..k] && args[..k + 1][..k] == args[..k];
  }

  /** An argument is stored in the slot of its parameter. */
  lemma ParamStored(gl: Globals, inner: Scope, slots: nat, params: seq<string>, k: nat, ins: seq<Instr>)
    requires ScopeOk(gl, inner, slots) && k < |params| && ParamsMean(inner, params, k, ins)
    requires Find(inner, params[k]).Some? && Find(inner, params[k]).value.Variable?
    ensures ParamsMean(inner, params, k + 1, ins + [Store(Param(k), Find(inner, params[k]).value.addr)])
  {
    hide Matches;
    var i := Store(Param(k), Find(inner, params[k]).value.addr);
    var j := k + 1;
    forall m: Machine, mem | |m.args| == |params|
      ensures ParamRuns(m, inner, params, j, ins + [i], mem)
    {
      assert ParamRuns(m, inner, params, k, ins, mem);
      var s := State(map[], map[], mem, []);
      ExecSnoc(m, ins, i, s);
      PartialStep(params, m.args, k);
      var st := SourceState([Partial(params, m.args, k)], mem, []);
      assert st.frames[..0] == [];
      WriteMatches(m, gl, inner, slots, st, ExecBody(m, ins, s).s, params[k], Param(k), m.args[k]);
      assert st.frames[0 := st.frames[0][params[k] := Some(m.args[k])]] == [Partial(params, m.args, k + 1)];
    }
  }

  // ---------------------------------------------------------------- the whole function

  /** The runs of f in a memory end as the call does; or where the call has not ended
      yet, f comes to the same memory and output after as many blocks or more. */
  ghost predicate SameRuns(m: Machine, gl: Globals, d: FunDecl, f: Func, mem: Memory, k: nat)
    requires |m.args| == |d.params|
  {
    match CallFunction(m, gl, d, mem, k)
    case Normal(_) => false
    case Answer(v, mem', out) => EndsIn(m, f, mem, Returned(v, mem', out))
    case Broken(why, mem', out) => why.Undefined? || EndsIn(m, f, mem, Halted(why, mem', out))
    case Timeout(mem', out) => exists n: nat :: k <= n && Pauses(m, f, mem, mem', out, n)
  }

  /** After n blocks the run has not ended, and this is how far it came. */
  ghost predicate Pauses(m: Machine, f: Func, mem: Memory, mem': Memory, out: seq<int>, n: nat) {
    && Execute(m, f, mem, n) == Unfinished(mem', out)
    && forall fuel: nat {:trigger Execute(m, f, mem, fuel)} :: fuel <= n ==> Execute(m, f, mem, fuel).Unfinished?
  }

  /** There is an amount of fuel from which on the outcome is o; with less the run
      is unfinished. */
  ghost predicate EndsIn(m: Machine, f: Func, mem: Memory, o: Outcome) {
    exists n: nat :: EndsBehind(m, f, mem, o, n)
  }

  ghost predicate EndsBehind(m: Machine, f: Func, mem: Memory, o: Outcome, n: nat) {
    forall fuel: nat :: if fuel > n then Execute(m, f, mem, fuel) == o else Execute(m, f, mem, fuel).Unfinished?
  }

  lemma FinishesEnds(m: Machine, f: Func, mem: Memory, o: Outcome)
    requires Finishes(m, f, ENTRY, 0, State(map[], map[], mem, []), o)
    ensures EndsIn(m, f, mem, o)
  {
    hide RunAt, RunFrom;
    var s := State(map[], map[], mem, []);
    var n: nat :| FinishesIn(m, f, ENTRY, 0, s, o, n);
    forall fuel: nat
      ensures if fuel > n then Execute(m, f, mem, fuel) == o else Execute(m, f, mem, fuel).Unfinished?
    {
      RunAtStart(m, f, ENTRY, s, fuel);
    }
    assert EndsBehind(m, f, mem, o, n);
  }

  /** The last block falls off the end, or nothing gets there. */
  ghost predicate Sealed(code: Code, isVoid: bool, at: Place, ended: bool) {
    !ended ==> at.b < |code| && at.i == |code[at.b].body| && code[at.b].term == Some(if isVoid then RetVoid else Ret(Const(0)))
  }

  lemma BodyFinishes(m: Machine, f: Func, scope: Scope, code: Code, isVoid: bool, from: Place, s: State, to: Place, ended: bool, c: Completion, k: nat)
    requires Simulates(m, f, scope, from, s, to, ended, c, k) && c.Normal? && Completes(code, f) && Sealed(code, isVoid, to, ended)
    ensures Finishes(m, f, from.b, from.i, s, Returned(if isVoid then None else Some(0), c.st.mem, c.st.out))
  {
    hide Matches, Completes, Finishes, Reaches;
    var t :| Arrives(m, f, scope, from, s, to, c.st, t);
    MatchesOut(scope, c.st, t);
    TermInCompletion(code, f, to.b);
    var o := Returned(if isVoid then None else Some(0), t.mem, t.out);
    EndFinishes(m, f, to.b, t, o);
    ReachesFinishes(m, f, from.b, from.i, s, to.b, to.i, t, o);
  }

  lemma FunctionMeans(gl: Globals, d: FunDecl, inner: Scope, code: Code, f: Func, ins: seq<Instr>, to: Place, ended: bool)
    requires ParamsMean(inner, d.params, |d.params|, ins) && CodeAt(code, Place(ENTRY, 0), ins) && Completes(code, f)
    requires StmtMeans(gl, inner, code, d.body, Place(ENTRY, |ins|), to, ended) && Sealed(code, d.isVoid, to, ended)
    ensures forall m: Machine, mem, k: nat {:trigger SameRuns(m, gl, d, f, mem, k)} ::
              |m.args| == |d.params| ==> SameRuns(m, gl, d, f, mem, k)
  {
    forall m: Machine, mem, k: nat | |m.args| == |d.params|
      ensures SameRuns(m, gl, d, f, mem, k)
    {
      CallMeans(m, gl, d, inner, code, f, ins, to, ended, mem, k);
    }
  }

  lemma CallMeans(m: Machine, gl: Globals, d: FunDecl, inner: Scope, code: Code, f: Func, ins: seq<Instr>, to: Place, ended: bool, mem: Memory, k: nat)
    requires ParamsMean(inner, d.params, |d.params|, ins) && CodeAt(code, Place(ENTRY, 0), ins) && Completes(code, f)
    requires StmtMeans(gl, inner, code, d.body, Place(ENTRY, |ins|), to, ended) && Sealed(code, d.isVoid, to, ended)
    requires |m.args| == |d.params|
    ensures SameRuns(m, gl, d, f, mem, k)
  {
    hide Matches, Completes, Finishes, Reaches, EvalStmt, RunAt, RunFrom, CodeAt, Sealed;
    var start, mid, s := Place(ENTRY, 0), Place(ENTRY, |ins|), State(map[], map[], mem, []);
    assert ParamRuns(m, inner, d.params, |d.params|, ins, mem);
    BoundAll(d.params, m.args);
    CodeInCompletion(code, f, start, ins);
    var t := ExecBody(m, ins, s).s;
    StretchReaches(m, f, ENTRY, 0, s, ins, t);
    var st := SourceState([Bind(d.params, m.args)], mem, []);
    assert StmtRuns(m, gl, inner, f, d.body, mid, to, ended, st, t, k);
    var c := EvalStmt(m, gl, d.body, st, k);
    SimPrefix(m, f, inner, start, s, mid, t, to, ended, c, Least(k));
    match c
    case Normal(st') =>
      var o := Returned(if d.isVoid then None else Some(0), st'.mem, st'.out);
      BodyFinishes(m, f, inner, code, d.isVoid, start, s, to, ended, c, Least(k));
      FinishesEnds(m, f, mem, o);
    case Answer(v, mem', out) => FinishesEnds(m, f, mem, Returned(v, mem', out));
    case Broken(why, mem', out) =>
      if !why.Undefined? {
        FinishesEnds(m, f, mem, Halted(why, mem', out));
      }
    case Timeout(mem', out) =>
      var n: nat :| Least(k) <= n && PausedAt(m, f, ENTRY, 0, s, mem', out, n);
      StartPauses(m, f, mem, mem', out, n);
  }

  lemma StartPauses(m: Machine, f: Func, mem: Memory, mem': Memory, out: seq<int>, n: nat)
    requires PausedAt(m, f, ENTRY, 0, State(map[], map[], mem, []), mem', out, n)
    ensures Pauses(m, f, mem, mem', out, n)
  {
    hide RunAt, RunFrom;
    var s := State(map[], map[], mem, []);
    forall fuel: nat
      ensures Execute(m, f, mem, fuel) == RunAt(m, f, ENTRY, 0, s, fuel)
    {
      RunAtStart(m, f, ENTRY, s, fuel);
    }
  }

  lemma {:induction false} BindKeys(params: seq<string>, args: seq<int>)
    requires |params| == |args|
    ensures Bind(params, args).Keys == NamesOf(params)
  {
    if params != [] {
      var n := |params| - 1;
      BindKeys(params[..n], args[..n]);
      assert params == params[..n] + [params[n]];
    }
  }

  lemma BoundAll(params: seq<string>, args: seq<int>)
    requires |params| == |args|
    ensures Partial(params, args, |params|) == Bind(params, args)
  {
    assert params[..|params|] == params && args[..|args|] == args;
    BindKeys(params, args);
    assert Locals(params).Keys == NamesOf(params);
  }

  // ---------------------------------------------------------------- the form

  function Finish(code: Code): Func
    requires forall b :: 0 <= b < |code| ==> code[b].term.Some?
  {
    seq(|code|, b requires 0 <= b < |code| => BasicBlock([], code[b].body, code[b].term.value))
  }

  lemma FinishCompletes(code: Code)
    requires forall b :: 0 <= b < |code| ==> code[b].term.Some?
    ensures Completes(code, Finish(code))
  {
  }

  /** Every block has a terminator, and all but the entry an earlier predecessor. */
  ghost predicate Finished(g: Gen) {
    && (forall b :: 0 <= b < |g.code| ==> g.code[b].term.Some?)
    && (forall b: Block {:trigger Rooted(g, b)} :: 0 < b < |g.code| ==> Rooted(g, b))
  }

  ghost function GraphOf(g: Gen): Graph { Graph(g.succs, g.preds) }

  lemma {:induction false} RootedReachable(g: Gen, b: Block)
    requires Ok(g) && Finished(g) && b < |g.code|
    ensures Reachable(GraphOf(g), b)
  {
    hide ResultsOk;
    var gr := GraphOf(g);
    if b == ENTRY {
      assert IsPath(gr, [ENTRY], ENTRY);
    } else {
      assert Rooted(g, b);
      var p :| p in g.preds[b] && p < b;
      RootedReachable(g, p);
      var w :| IsPath(gr, w, p);
      assert Mirrors(g, p, b);
      PathExtend(gr, w, p, b);
    }
  }

  lemma GraphOk(g: Gen)
    requires Ok(g) && Finished(g)
    ensures GraphOf(g).WellFormed()
  {
    hide ResultsOk, Reachable;
    var gr := GraphOf(g);
    assert gr.InRange() by {
      forall b, i | 0 <= b < |gr.succs| && 0 <= i < |gr.succs[b]|
        ensures gr.succs[b][i] < |gr.succs|
      {
        assert SuccsAt(g, b) && gr.succs[b][i] in gr.succs[b];
      }
      forall b, i | 0 <= b < |gr.preds| && 0 <= i < |gr.preds[b]|
        ensures gr.preds[b][i] < |gr.succs|
      {
        assert PredsAt(g, b) && gr.preds[b][i] in gr.preds[b];
      }
    }
    forall a, b | 0 <= a < |gr.succs| && 0 <= b < |gr.succs|
      ensures b in gr.succs[a] <==> a in gr.preds[b]
    {
      assert Mirrors(g, a, b);
    }
    NoWayToEntry(g);
    forall b | 0 <= b < |gr.succs|
      ensures Reachable(gr, b)
    {
      RootedReachable(g, b);
    }
  }

  lemma SomeElement(s: seq<Block>)
    ensures s == [] || exists a :: a in s
  {
    if s != [] {
      assert s[0] in s;
    }
  }

  lemma NoWayToEntry(g: Gen)
    requires ListsOk(g)
    ensures g.preds[ENTRY] == []
  {
    forall a: Block
      ensures a !in g.preds[ENTRY]
    {
      assert PredsAt(g, ENTRY) && Mirrors(g, a, ENTRY) && SuccsAt(g, a);
    }
    SomeElement(g.preds[ENTRY]);
  }

  /** A finished function is what the middle end expects. */
  lemma FinishedIsSource(g: Gen)
    requires Ok(g) && Finished(g)
    ensures SourceForm(GraphOf(g), Finish(g.code), g.sites)
  {
    hide Reachable, Graph.WellFormed, AllLocal;
    var gr, f := GraphOf(g), Finish(g.code);
    GraphOk(g);
    forall b | 0 <= b < |f|
      ensures gr.succs[b] == Targets(f[b].term) && (f[b].term.CondBr? ==> f[b].term.ifTrue != f[b].term.ifFalse) && Distinct(gr.preds[b])
    {
      assert SuccsAt(g, b) && PredsAt(g, b);
    }
    FinishedSites(g);
    forall b: Block, i | 0 <= b < |f| && 0 <= i < |f[b].body|
      ensures UsesAvailable(gr, f, g.sites, b, i)
    {
      assert UsesAt(g, b, i);
      LocalAvailable(gr, g.sites, Uses(f[b].body[i]), b, i);
    }
    forall b: Block | 0 <= b < |f|
      ensures TermAvailable(gr, f, g.sites, b)
    {
      assert TermAt(g, b);
      LocalAvailable(gr, g.sites, TermUses(f[b].term), b, |f[b].body|);
    }
  }

  lemma LocalAvailable(gr: Graph, sites: Sites, vs: seq<Value>, b: Block, i: nat)
    requires AllLocal(sites, vs, b, i)
    ensures forall k :: 0 <= k < |vs| ==> !IsPhiResult(vs[k]) && Available(gr, sites, vs[k], b, i)
  {
    forall k | 0 <= k < |vs|
      ensures !IsPhiResult(vs[k]) && Available(gr, sites, vs[k], b, i)
    {
      assert LocalAt(sites, vs[k], b, i);
    }
  }

  lemma FinishedSites(g: Gen)
    requires Ok(g) && Finished(g)
    ensures SingleSites(Finish(g.code), g.sites)
  {
    hide AllLocal, ListsOk;
    var f := Finish(g.code);
    forall b, i | 0 <= b < |f| && 0 <= i < |f[b].body|
      ensures SiteOf(f, g.sites, b, i)
    {
      assert DestAt(g, b, i);
    }
    forall r | r in g.sites
      ensures g.sites[r].0 < |f| && g.sites[r].1 < |f[g.sites[r].0].body| && Dest(f[g.sites[r].0].body[g.sites[r].1]) == Some(r)
    {
      assert SiteAt(g, r);
    }
  }
}
