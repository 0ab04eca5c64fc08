/** The part of the compiler that always runs: code is generated, then its slots
    are promoted. */
module Pipeline {
  import opened Cfg
  import opened Arithmetic
  import opened Ir
  import opened Ssa
  import opened Ast
  import opened CodeShape
  import opened FunMeaning
  import opened Printing
  import opened Coverage
  import opened RenameCode
  import opened RenameWalk
  import opened SsaMeaning
  import C = Codegen
  import M = Mem2Reg

  /** What holds of the outcomes of a function holds of one with the same outcomes. */
  lemma SameRunsAlso(m: Machine, gl: Globals, d: FunDecl, f: Func, f': Func, mem: Memory, k: nat)
    requires |m.args| == |d.params| && SameRuns(m, gl, d, f, mem, k)
    requires forall fuel: nat {:trigger Execute(m, f', mem, fuel)} :: SameOutcome(Execute(m, f, mem, fuel), Execute(m, f', mem, fuel))
    ensures SameRuns(m, gl, d, f', mem, k)
  {
    hide Execute, CallFunction;
    match CallFunction(m, gl, d, mem, k)
    case Normal(_) =>
    case Answer(v, mem', out) => EndsAlso(m, f, f', mem, Returned(v, mem', out));
    case Broken(why, mem', out) =>
      if !why.Undefined? {
        EndsAlso(m, f, f', mem, Halted(why, mem', out));
      }
    case Timeout(mem', out) =>
      var n: nat :| k <= n && Pauses(m, f, mem, mem', out, n);
      assert SameOutcome(Execute(m, f, mem, n), Execute(m, f', mem, n));
      assert forall fuel: nat {:trigger Execute(m, f', mem, fuel)} :: fuel <= n ==> Execute(m, f, mem, fuel).Unfinished?;
      assert Pauses(m, f', mem, mem', out, n);
  }

  lemma EndsAlso(m: Machine, f: Func, f': Func, mem: Memory, o: Outcome)
    requires EndsIn(m, f, mem, o) && !(o.Halted? && o.why.Undefined?)
    requires forall fuel: nat {:trigger Execute(m, f', mem, fuel)} :: SameOutcome(Execute(m, f, mem, fuel), Execute(m, f', mem, fuel))
    ensures EndsIn(m, f', mem, o)
  {
    hide Execute;
    var n: nat :| EndsBehind(m, f, mem, o, n);
    forall fuel: nat
      ensures if fuel > n then Execute(m, f', mem, fuel) == o else Execute(m, f', mem, fuel).Unfinished?
    {
      assert if fuel > n then Execute(m, f, mem, fuel) == o else Execute(m, f, mem, fuel).Unfinished?;
    }
    assert EndsBehind(m, f', mem, o, n);
  }

  /** The calls of a declared function mean what the source means, whatever is
      done to their slots. */
  ghost predicate Correct(gl: Globals, d: FunDecl, f: Func) {
    forall m: Machine, mem, k: nat {:trigger SameRuns(m, gl, d, f, mem, k)} ::
      |m.args| == |d.params| ==> SameRuns(m, gl, d, f, mem, k)
  }

  /** What an evaluation has put out. */
  function PutOut(c: Completion): seq<int> {
    match c
    case Normal(st) => st.out
    case Answer(_, _, out) => out
    case Broken(_, _, out) => out
    case Timeout(_, out) => out
  }

  /** Some number of iterations puts out at least this. */
  ghost predicate SourcePrints(m: Machine, gl: Globals, d: FunDecl, mem: Memory, out: seq<int>)
    requires |m.args| == |d.params|
  {
    exists k: nat :: Prefix(out, PutOut(CallFunction(m, gl, d, mem, k)))
  }

  /** No number of iterations brings the call to an undefined variable. */
  ghost predicate NeverUndefined(m: Machine, gl: Globals, d: FunDecl, mem: Memory)
    requires |m.args| == |d.params|
  {
    forall k: nat {:trigger CallFunction(m, gl, d, mem, k)} :: var c := CallFunction(m, gl, d, mem, k); c.Broken? ==> !c.why.Undefined?
  }

  /** After as many blocks or more the run has put out what the evaluation has. */
  lemma ReachesOut(m: Machine, gl: Globals, d: FunDecl, f: Func, mem: Memory, k: nat) returns (n: nat)
    requires |m.args| == |d.params| && SameRuns(m, gl, d, f, mem, k) && NeverUndefined(m, gl, d, mem)
    ensures k <= n && Execute(m, f, mem, n).out == PutOut(CallFunction(m, gl, d, mem, k))
  {
    hide Execute, CallFunction;
    match CallFunction(m, gl, d, mem, k)
    case Normal(_) =>
    case Answer(v, mem', out) => n := EndsLate(m, f, mem, Returned(v, mem', out), k);
    case Broken(why, mem', out) => n := EndsLate(m, f, mem, Halted(why, mem', out), k);
    case Timeout(mem', out) =>
      var j: nat :| k <= j && Pauses(m, f, mem, mem', out, j);
      n := j;
  }

  lemma EndsLate(m: Machine, f: Func, mem: Memory, o: Outcome, k: nat) returns (n: nat)
    requires EndsIn(m, f, mem, o)
    ensures k <= n && Execute(m, f, mem, n) == o
  {
    hide Execute;
    var j: nat :| EndsBehind(m, f, mem, o, j);
    n := j + k + 1;
  }

  /** A call that never gets to an undefined variable puts out the same, whether it
      ends or not. */
  lemma CorrectPrints(m: Machine, gl: Globals, d: FunDecl, f: Func, mem: Memory, out: seq<int>)
    requires Correct(gl, d, f) && |m.args| == |d.params| && NeverUndefined(m, gl, d, mem)
    ensures SourcePrints(m, gl, d, mem, out) <==> Prints(m, f, mem, out)
  {
    hide SameRuns, CallFunction, RunFrom, NeverUndefined, Prefix;
    if SourcePrints(m, gl, d, mem, out) {
      var k: nat :| Prefix(out, PutOut(CallFunction(m, gl, d, mem, k)));
      assert SameRuns(m, gl, d, f, mem, k);
      var n := ReachesOut(m, gl, d, f, mem, k);
      assert Prefix(out, Execute(m, f, mem, n).out);
    }
    if Prints(m, f, mem, out) {
      var k: nat :| Prefix(out, Execute(m, f, mem, k).out);
      assert SameRuns(m, gl, d, f, mem, k);
      var n := ReachesOut(m, gl, d, f, mem, k);
      MorePrints(m, f, ENTRY, State(map[], map[], mem, []), k, n);
      PrefixTrans(out, Execute(m, f, mem, k).out, Execute(m, f, mem, n).out);
      assert Prefix(out, PutOut(CallFunction(m, gl, d, mem, k)));
    }
  }

  lemma CompiledParts(gl: Globals, d: FunDecl, g: Gen, f: Func)
    requires C.Compiled(gl, d, g, f)
    ensures SourceForm(GraphOf(g), f, g.sites) && GraphOf(g).WellFormed() && Correct(gl, d, f)
  {
    hide SameRuns, Graph.WellFormed;
  }

  /** Generates the function. */
  method Generate(gl: Globals, d: FunDecl) returns (g: Graph, f: Func, ghost sites: Sites)
    requires DeclOk(gl, d)
    ensures SourceForm(g, f, sites) && g.WellFormed() && Correct(gl, d, f)
  {
    hide *;
    var builder := new C.CminusfBuilder(gl, d.isVoid);
    f := builder.VisitFunDeclaration(d);
    CompiledParts(gl, d, builder.Now(), f);
    g := Graph(builder.succs, builder.preds);
    sites := builder.sites;
    builder.NowIs();
    GraphIs(builder.Now());
  }

  lemma GraphIs(g: Gen)
    ensures GraphOf(g) == Graph(g.succs, g.preds)
  {
  }

  /** Promotes its slots. That fails only if a look-up can fail. */
  method Promote(gl: Globals, d: FunDecl, g: Graph, f: Func, ghost sites: Sites) returns (ok: bool, f': Func)
    requires SourceForm(g, f, sites) && g.WellFormed() && Correct(gl, d, f)
    ensures Promotable(g, f) ==> ok
    ensures ok ==> Correct(gl, d, f')
  {
    hide SourceForm, Graph.WellFormed, Promotable, SameRuns, SameOutcome, Execute, SameStacks, Safe, WalkOrder, NoStale, Closed, Least, TargetForm;
    var pass := new M.Mem2Reg(g, f);
    ok := pass.Run(f, sites);
    f' := pass.blocks;
    if Promotable(g, f) {
      PromotablePlace(g, f, pass.c.place);
    }
    if !ok {
      return;
    }
    forall m: Machine, mem, k: nat | |m.args| == |d.params|
      ensures SameRuns(m, gl, d, f', mem, k)
    {
      assert SameRuns(m, gl, d, f, mem, k);
      SameRunsAlso(m, gl, d, f, f', mem, k);
    }
  }
}
