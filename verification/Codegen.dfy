/** The generator: visitors over the syntax tree of one function that build its
    blocks through an insert point. The visitors share the blocks, the insert
    point, the scopes, the value of the last expression and the flag that tells
    that a return was met. Each leaves code that does what its part of the tree
    means in every function the code may still become, and a shape the next
    visitor can go on from. */
module Codegen {
  import opened Cfg
  import opened Arithmetic
  import opened Ir
  import opened Ssa
  import opened Ast
  import opened ExprMeaning
  import opened StmtMeaning
  import opened CodeShape
  import opened FunMeaning
  import opened Visits

  // ---------------------------------------------------------------- names

  ghost function LocalNames(scope: Scope): set<string> {
    set i, id | 0 < i < |scope| && id in scope[i] :: id
  }

  ghost predicate NowhereLocal(scope: Scope, id: string) { forall i :: 0 < i < |scope| ==> id !in scope[i] }

  lemma {:induction false} FindLocal(gl: Globals, scope: Scope, slots: nat, i: nat, id: string)
    requires ScopeOk(gl, scope, slots) && 0 < i < |scope| && id in scope[i]
    ensures Find(scope, id).Some? && Find(scope, id).value.Variable? && OperandBelow(Pointer(Find(scope, id).value.addr), 0)
  {
    FindFrom(gl, scope, slots, i, id, |scope|);
    assert scope[..|scope|] == scope;
  }

  lemma {:induction false} FindFrom(gl: Globals, scope: Scope, slots: nat, i: nat, id: string, n: nat)
    requires ScopeOk(gl, scope, slots) && 0 < i < n <= |scope| && id in scope[i]
    ensures var r := Find(scope[..n], id); r.Some? && r.value.Variable? && r.value.addr.Slot?
  {
    assert HasSlot(scope, slots, n - 1, id);
    assert scope[..n][..n - 1] == scope[..n - 1];
    if id !in scope[n - 1] {
      FindFrom(gl, scope, slots, i, id, n - 1);
    }
  }

  lemma {:induction false} FindGlobal(scope: Scope, id: string, n: nat)
    requires 0 < n <= |scope| && NowhereLocal(scope, id) && id in scope[0]
    ensures Find(scope[..n], id) == Some(scope[0][id])
  {
    assert scope[..n][..n - 1] == scope[..n - 1];
    if n > 1 {
      FindGlobal(scope, id, n - 1);
    }
  }

  lemma VarFound(gl: Globals, scope: Scope, slots: nat, id: string)
    requires ScopeOk(gl, scope, slots) && VarOk(gl, LocalNames(scope), id)
    ensures Find(scope, id).Some? && Find(scope, id).value.Variable? && OperandBelow(Pointer(Find(scope, id).value.addr), 0)
  {
    if id in LocalNames(scope) {
      var i :| 0 < i < |scope| && id in scope[i];
      FindLocal(gl, scope, slots, i, id);
    } else {
      FindGlobal(scope, id, |scope|);
      assert scope[..|scope|] == scope;
    }
  }

  lemma FunFound(gl: Globals, scope: Scope, slots: nat, id: string)
    requires ScopeOk(gl, scope, slots) && id !in LocalNames(scope) && id in gl
    ensures Find(scope, id) == Some(EntityOf(gl[id]))
  {
    FindGlobal(scope, id, |scope|);
    assert scope[..|scope|] == scope;
  }

  lemma DeclareNames(scope: Scope, id: string, x: nat)
    requires 1 < |scope|
    ensures LocalNames(Declare(scope, id, x)) == LocalNames(scope) + {id}
  {
    var scope', top := Declare(scope, id, x), |scope| - 1;
    assert id in scope'[top];
    forall n | n in LocalNames(scope)
      ensures n in LocalNames(scope')
    {
      var i :| 0 < i < |scope| && n in scope[i];
      assert n in scope'[i];
    }
    forall n | n in LocalNames(scope')
      ensures n in LocalNames(scope) + {id}
    {
      var i :| 0 < i < |scope'| && n in scope'[i];
      assert n == id || n in scope[i];
    }
  }

  lemma EnterNames(scope: Scope)
    requires 0 < |scope|
    ensures LocalNames(scope + [map[]]) == LocalNames(scope)
  {
    var scope' := scope + [map[]];
    forall n | n in LocalNames(scope)
      ensures n in LocalNames(scope')
    {
      var i :| 0 < i < |scope| && n in scope[i];
      assert n in scope'[i];
    }
  }

  lemma EnterOk(gl: Globals, scope: Scope, slots: nat)
    requires ScopeOk(gl, scope, slots)
    ensures ScopeOk(gl, scope + [map[]], slots) && LocalNames(scope + [map[]]) == LocalNames(scope)
  {
    EnterNames(scope);
    var inner := scope + [map[]];
    forall i: nat, id
      ensures HasSlot(inner, slots, i, id)
    {
      assert HasSlot(scope, slots, i, id);
    }
    forall i: nat, id, j: nat, jd, x: nat | SlotOf(inner, i, id, x) && SlotOf(inner, j, jd, x)
      ensures SameName(i, id, j, jd)
    {
      assert SlotOf(scope, i, id, x) && SlotOf(scope, j, jd, x);
    }
  }

  /** Leaving a scope. */
  lemma LeaveOk(gl: Globals, outer: Scope, inner: Scope, slots: nat)
    requires ScopeOk(gl, inner, slots) && 1 < |inner| && inner[..|inner| - 1] == outer
    ensures ScopeOk(gl, outer, slots)
  {
    forall i: nat, id
      ensures HasSlot(outer, slots, i, id)
    {
      assert HasSlot(inner, slots, i, id);
    }
    forall i: nat, id, j: nat, jd, x: nat | SlotOf(outer, i, id, x) && SlotOf(outer, j, jd, x)
      ensures SameName(i, id, j, jd)
    {
      assert SlotOf(inner, i, id, x) && SlotOf(inner, j, jd, x);
    }
  }

  lemma ScopeIs(gl: Globals, scope: Scope, slots: nat)
    requires ScopeOk(gl, scope, slots)
    ensures 0 < |scope| && scope[0] == GlobalScope(gl)
  {
  }

  // ---------------------------------------------------------------- declarations

  ghost predicate DeclsDone(gl: Globals, scope: Scope, inner: Scope, slots: nat, g: Gen, h: Gen, names: seq<string>) {
    && Ok(h) && Emitted(g, h) && DeclsMean(scope, inner, names, Added(g, h)) && ScopeOk(gl, inner, slots)
    && 0 < |scope| && |inner| == |scope| + 1 && inner[..|scope|] == scope
    && LocalNames(inner) == LocalNames(scope) + NamesOf(names)
  }

  lemma DeclsDoneIs(gl: Globals, scope: Scope, inner: Scope, slots: nat, g: Gen, h: Gen, names: seq<string>)
    requires DeclsDone(gl, scope, inner, slots, g, h, names)
    ensures Ok(h) && Open(h) && ScopeOk(gl, inner, slots) && LocalNames(inner) == LocalNames(scope) + NamesOf(names)
    ensures 1 < |inner| && inner[..|inner| - 1] == scope && Emitted(g, h)
  {
    hide Ok, ScopeOk, DeclsMean;
  }

  lemma DeclsBegin(gl: Globals, scope: Scope, slots: nat, g: Gen)
    requires Ok(g) && Open(g) && ScopeOk(gl, scope, slots)
    ensures DeclsDone(gl, scope, scope + [map[]], slots, g, g, [])
  {
    hide Ok, ScopeOk, DeclsMean;
    EmittedNothing(g);
    ScopeIs(gl, scope, slots);
    NoDecls(scope);
    EnterOk(gl, scope, slots);
  }

  lemma AllocaFits(g: Gen, x: nat)
    requires Open(g)
    ensures Fits(g, Alloca(x))
  {
  }

  lemma DeclDone(gl: Globals, scope: Scope, inner: Scope, slots: nat, g: Gen, h: Gen, names: seq<string>, id: string)
    requires DeclsDone(gl, scope, inner, slots, g, h, names)
    ensures DeclsDone(gl, scope, Declare(inner, id, slots), slots + 1, g, Emit(h, Alloca(slots)), names + [id])
  {
    hide Ok, ScopeOk, DeclsMean, Fits;
    AllocaFits(h, slots);
    EmitKeeps(h, Alloca(slots));
    EmittedOne(g, h, Alloca(slots));
    DeclareOk(gl, inner, id, slots);
    DeclareNames(inner, id, slots);
    DeclMeans(gl, scope, inner, names, Added(g, h), id, slots);
    assert NamesOf(names + [id]) == NamesOf(names) + {id};
  }

  // ---------------------------------------------------------------- the prologue

  ghost predicate StoredDone(inner: Scope, g: Gen, h: Gen, params: seq<string>, k: nat) {
    k <= |params| && Ok(h) && Emitted(g, h) && ParamsMean(inner, params, k, Added(g, h))
  }

  lemma StoredDoneIs(inner: Scope, g: Gen, h: Gen, params: seq<string>, k: nat)
    requires StoredDone(inner, g, h, params, k)
    ensures Ok(h) && Open(h) && Emitted(g, h)
  {
    hide Ok, ParamsMean;
  }

  lemma StoresBegin(gl: Globals, inner: Scope, slots: nat, g: Gen, h: Gen, params: seq<string>)
    requires DeclsDone(gl, [GlobalScope(gl)], inner, slots, g, h, params)
    ensures StoredDone(inner, g, h, params, 0)
  {
    hide Ok, ScopeOk, DeclsMean;
    ParamsDeclared(gl, inner, params, Added(g, h));
  }

  lemma ParamFits(g: Gen, k: nat, a: Address)
    requires Open(g) && OperandBelow(Pointer(a), 0)
    ensures Fits(g, Store(Param(k), a))
  {
  }

  lemma StoredStep(gl: Globals, inner: Scope, slots: nat, g: Gen, h: Gen, params: seq<string>, k: nat)
    requires StoredDone(inner, g, h, params, k) && k < |params| && ScopeOk(gl, inner, slots)
    requires Find(inner, params[k]).Some? && Find(inner, params[k]).value.Variable?
    requires OperandBelow(Pointer(Find(inner, params[k]).value.addr), 0)
    ensures StoredDone(inner, g, Emit(h, Store(Param(k), Find(inner, params[k]).value.addr)), params, k + 1)
  {
    hide Ok, ScopeOk, ParamsMean, Fits;
    var i := Store(Param(k), Find(inner, params[k]).value.addr);
    ParamFits(h, k, Find(inner, params[k]).value.addr);
    EmitKeeps(h, i);
    EmittedOne(g, h, i);
    ParamStored(gl, inner, slots, params, k, Added(g, h));
  }

  // ---------------------------------------------------------------- the function

  ghost function Start(): Gen { Gen([Draft([], None)], ENTRY, [[]], [[]], map[], 0) }

  lemma StartOk()
    ensures Ok(Start()) && Open(Start())
  {
    var g := Start();
    forall b: Block
      ensures SuccsAt(g, b) && PredsAt(g, b) && TermAt(g, b)
    {
    }
  }

  /** The body may fall off its end: then the function returns there. */
  ghost function Closing(g: Gen, flag: bool, isVoid: bool): Gen
    requires g.insert < |g.code| && g.insert < |g.succs|
  {
    if flag then g else Terminate(g, if isVoid then RetVoid else Ret(Const(0)))
  }

  lemma ClosingEnds(g: Gen, isVoid: bool)
    requires Ok(g) && Open(g)
    ensures g.insert < |g.succs| && Ends(g, if isVoid then RetVoid else Ret(Const(0)))
  {
    OkLists(g);
    RetEnds(g, if isVoid then RetVoid else Ret(Const(0)), Int32(Const(0)));
  }

  lemma ClosingDone(gl: Globals, scope: Scope, g: Gen, h: Gen, s: Stmt, flag: bool, isVoid: bool)
    requires Ok(g) && StmtDone(gl, scope, g, false, h, s, flag) && Built(Start(), g, {g.insert}, {}) && g.insert == ENTRY
    ensures h.insert < |h.code| && h.insert < |h.succs|
    ensures var k := Closing(h, flag, isVoid);
      && Ok(k) && Built(Start(), k, {}, {}) && Grows(g.code, k.code)
      && StmtMeans(gl, scope, k.code, s, Here(g), Here(h), flag) && Sealed(k.code, isVoid, Here(h), flag)
  {
    hide Ok, StmtMeans, Built, Grows, ListsOk;
    OkLists(h);
    BuiltVisit(Start(), g, h, {g.insert}, {});
    assert {g.insert} - {g.insert} + {h.insert} == {h.insert} && {h.insert} - {h.insert} == {};
    GrewGrows(g, h);
    if flag {
      BuiltClosed(Start(), h, {h.insert}, {}, h.insert);
    } else {
      var t := if isVoid then RetVoid else Ret(Const(0));
      ClosingEnds(h, isVoid);
      TerminateKeeps(h, t);
      BuiltTerm(Start(), h, t, {h.insert}, {});
      var none: set<Block> := {};
      assert Later(t, h.insert) == {} && none - Later(t, h.insert) == none;
      GrowsTrans(g.code, h.code, Terminate(h, t).code);
      StmtMeansLater(gl, scope, h.code, Terminate(h, t).code, s, Here(g), Here(h), flag);
    }
  }

  lemma PrologueBuilt(g: Gen)
    requires Ok(g) && Emitted(Start(), g)
    ensures Built(Start(), g, {g.insert}, {}) && g.insert == ENTRY
  {
    hide Ok;
    StartOk();
    GrewNothing(Start());
    BuiltEmitted(Start(), Start(), g, {ENTRY}, {});
  }

  lemma AllFinished(g: Gen)
    requires Ok(g) && Built(Start(), g, {}, {})
    ensures Finished(g) && forall b: Block {:trigger g.preds[b]} :: b < |g.preds| ==> |g.preds[b]| <= 2
  {
    hide Grows, Rooted, ResultsOk;
    forall b: Block | b < |g.code|
      ensures g.code[b].term.Some? && (0 < b ==> Rooted(g, b)) && |g.preds[b]| <= 2
    {
      assert NewOk(Start(), g, {}, {}, b);
      if b == 0 {
        assert SameBlock(Start(), g, 0);
      }
    }
  }

  /** All of it: the form of the function and its meaning. */
  ghost predicate Compiled(gl: Globals, d: FunDecl, g: Gen, f: Func) {
    && SourceForm(GraphOf(g), f, g.sites)
    && (forall b: Block {:trigger g.preds[b]} :: b < |g.preds| ==> |g.preds[b]| <= 2)
    && forall m: Machine, mem, k: nat {:trigger SameRuns(m, gl, d, f, mem, k)} ::
         |m.args| == |d.params| ==> SameRuns(m, gl, d, f, mem, k)
  }

  lemma CompiledIs(gl: Globals, d: FunDecl, inner: Scope, p: Gen, h: Gen, flag: bool)
    requires StoredDone(inner, Start(), p, d.params, |d.params|) && StmtDone(gl, inner, p, false, h, d.body, flag)
    ensures h.insert < |h.code| && h.insert < |h.succs|
    ensures var g := Closing(h, flag, d.isVoid);
      (forall b :: 0 <= b < |g.code| ==> g.code[b].term.Some?) && Compiled(gl, d, g, Finish(g.code))
  {
    hide Ok, Built, Grows, StmtMeans, ParamsMean, Completes, CodeAt, Sealed, SourceForm, SameRuns, Finish;
    PrologueBuilt(p);
    ClosingDone(gl, inner, p, h, d.body, flag, d.isVoid);
    var g := Closing(h, flag, d.isVoid);
    AllFinished(g);
    FinishedIsSource(g);
    FinishCompletes(g.code);
    AddedIsThere(Start(), p);
    GrowsAt(p.code, g.code, ENTRY);
    CodeAtLater(p.code, g.code, Place(ENTRY, 0), Added(Start(), p));
    FunctionMeans(gl, d, inner, g.code, Finish(g.code), Added(Start(), p), Here(h), flag);
  }

  // ---------------------------------------------------------------- facts for the visitors

  lemma TwoSidedIs(e: Expr)
    requires TwoSided(e)
    ensures e.Relational? || e.Additive? || e.Multiplicative?
  {
  }

  lemma TwoDoneIs(gl: Globals, scope: Scope, g: Gen, h: Gen, e: Expr, a: Operand, b: Operand)
    requires TwoDone(gl, scope, g, h, e, a, b)
    ensures TwoSided(e) && Ok(h) && h.insert < |h.code| && !a.Pointer? && !b.Pointer?
  {
    hide Ok, TwoMean;
  }

  lemma CombineTypeIs(e: Expr, t: nat)
    ensures !CombineType(e, t).Pointer?
  {
  }

  predicate CallOk(gl: Globals, locals: set<string>, e: Expr)
    requires e.Invoke?
  {
    && e.id !in locals && e.id in gl && gl[e.id].Function?
    && forall i :: 0 <= i < |e.args| ==> ExprOk(gl, locals, e.args[i], true)
  }

  lemma CallOkIs(gl: Globals, locals: set<string>, e: Expr)
    requires e.Invoke? && CallOk(gl, locals, e)
    ensures e.id !in locals && e.id in gl && gl[e.id].Function?
    ensures forall i :: 0 <= i < |e.args| ==> ExprOk(gl, locals, e.args[i], true)
  {
  }

  lemma EntityIs(gl: Globals, id: string)
    requires id in gl && gl[id].Function?
    ensures EntityOf(gl[id]).Routine? && EntityOf(gl[id]).f == gl[id].f
  {
  }

  lemma ExprOkIs(gl: Globals, locals: set<string>, e: Expr, asValue: bool)
    requires ExprOk(gl, locals, e, asValue)
    ensures e.Var? ==> VarOk(gl, locals, e.id)
    ensures e.Assign? ==> VarOk(gl, locals, e.id) && ExprOk(gl, locals, e.e, true)
    ensures e.Relational? || e.Additive? || e.Multiplicative? ==> TwoSided(e) && ExprOk(gl, locals, e.l, true) && ExprOk(gl, locals, e.r, true)
    ensures e.Invoke? ==> CallOk(gl, locals, e)
  {
  }

  lemma StmtOkIs(gl: Globals, locals: set<string>, isVoid: bool, s: Stmt)
    requires StmtOk(gl, locals, isVoid, s)
    ensures s.Compound? ==> forall i :: 0 <= i < |s.body| ==> StmtOk(gl, locals + NamesOf(s.locals), isVoid, s.body[i])
    ensures s.Expression? && s.e.Some? ==> ExprOk(gl, locals, s.e.value, false)
    ensures s.Selection? ==> ExprOk(gl, locals, s.cond, true) && StmtOk(gl, locals, isVoid, s.yes)
    ensures s.Selection? && s.no.Some? ==> StmtOk(gl, locals, isVoid, s.no.value)
    ensures s.Iteration? ==> ExprOk(gl, locals, s.cond, true) && StmtOk(gl, locals, isVoid, s.loop)
    ensures s.Return? && s.e.Some? ==> !isVoid && ExprOk(gl, locals, s.e.value, true)
  {
  }

  lemma OpenFlag(g: Gen)
    requires Open(g)
    ensures FlagOk(g, false)
  {
  }

  lemma ClosedFlag(g: Gen, flag: bool)
    requires FlagOk(g, flag)
    ensures g.insert < |g.code| && (flag <==> g.code[g.insert].term.Some?)
  {
  }

  lemma DeclsMeaning(gl: Globals, scope: Scope, inner: Scope, slots: nat, g: Gen, h: Gen, names: seq<string>)
    requires DeclsDone(gl, scope, inner, slots, g, h, names)
    ensures Emitted(g, h) && DeclsMean(scope, inner, names, Added(g, h)) && |inner| == |scope| + 1 && inner[..|scope|] == scope
  {
    hide Ok, ScopeOk, DeclsMean;
  }

  /** The condition of an if is done and its branch is made. */
  lemma BranchOpened(gl: Globals, scope: Scope, g: Gen, h: Gen, cond: Expr, w: Value)
    requires Ok(g) && TestDone(gl, scope, g, h, cond, w)
    ensures |h.code| == |h.succs| == |g.code| && h.insert < |h.code|
    ensures NewBlock(NewBlock(h)).insert < |NewBlock(NewBlock(h)).code| && NewBlock(NewBlock(h)).insert < |NewBlock(NewBlock(h)).succs|
    ensures Branched(h, w) == Terminate(NewBlock(NewBlock(h)), CondBr(w, |g.code|, |g.code| + 1))
    ensures |NewBlock(h).code| == |g.code| + 1
    ensures var s := Branched(h, w).(insert := |g.code|); Ok(s) && FlagOk(s, false)
    ensures var s := Branched(h, w).(insert := |g.code| + 1); Ok(s) && FlagOk(s, false)
  {
    hide Ok, TestMeans, LocalOperand;
    OkLists(h);
    OkLists(g);
    TestLocal(gl, scope, g, h, cond, w);
    BranchEnds(h, w);
    BranchedEmpty(h, w);
    MoveKeeps(Branched(h, w), |g.code|);
    MoveKeeps(Branched(h, w), |g.code| + 1);
  }

  lemma JoinedIs(v: Gen, flag: bool, next: Block)
    requires v.insert < |v.code| == |v.succs|
    ensures Joined(v, flag, next) == if flag then v else Terminate(v, Br(next))
  {
  }

  lemma LinkedIs(v: Gen, flag: bool)
    requires v.insert < |v.code| == |v.succs|
    ensures NewBlock(v).insert < |NewBlock(v).code| && NewBlock(v).insert < |NewBlock(v).succs|
    ensures Linked(v, flag) == if flag then v else Terminate(NewBlock(v), Br(|v.code|))
  {
  }

  lemma BothJoinedIs(v1: Gen, flag1: bool, flag2: bool, next: Block)
    requires v1.insert < |v1.code| == |v1.succs|
    ensures BothJoined(v1, flag1, flag2, next) == if flag2 then Linked(v1, flag1) else Joined(v1, flag1, next)
  {
  }

  /** The else side is done, and the other side is where code goes next. */
  lemma ElseOpened(gl: Globals, scope: Scope, g: Gen, h: Gen, cond: Expr, w: Value, v2: Gen, other: Stmt, flag2: bool)
    requires Ok(g) && TestDone(gl, scope, g, h, cond, w) && |h.code| == |h.succs| == |g.code|
    requires StmtDone(gl, scope, Branched(h, w).(insert := |g.code| + 1), false, v2, other, flag2)
    ensures v2.insert < |v2.code| == |v2.succs|
    ensures var s := Linked(v2, flag2).(insert := |g.code|); Ok(s) && FlagOk(s, false)
  {
    hide Ok, TestMeans, LocalOperand, Linked, Branched, StmtDone, Built, Grows;
    TestLocal(gl, scope, g, h, cond, w);
    ElseVisited(gl, scope, g, h, w, v2, other, flag2);
    MoveKeeps(Linked(v2, flag2), |g.code|);
  }

  lemma LoopOpened(g: Gen)
    requires Ok(g) && FlagOk(g, false)
    ensures |g.succs| == |g.code| && g.insert < |g.code|
    ensures var a := NewBlock(NewBlock(NewBlock(g))); a.insert < |a.code| && a.insert < |a.succs| && LoopBegun(g) == Terminate(a, Br(|g.code|))
    ensures |NewBlock(g).code| == |g.code| + 1 && |NewBlock(NewBlock(g)).code| == |g.code| + 2
    ensures var s := LoopBegun(g).(insert := |g.code|); Ok(s) && Open(s) && FlagOk(s, false) && |LoopBegun(g).code| == |g.code| + 3
  {
    hide Ok, Built;
    OkLists(g);
    LoopBegins(g);
    MoveKeeps(LoopBegun(g), |g.code|);
  }

  lemma BodyOpened(gl: Globals, scope: Scope, g: Gen, h: Gen, cond: Expr, w: Value)
    requires Ok(g) && FlagOk(g, false) && |g.succs| == |g.code|
    requires TestDone(gl, scope, LoopBegun(g).(insert := |g.code|), h, cond, w)
    ensures h.insert < |h.code| == |h.succs| && LoopTested(h, w, |g.code|) == Terminate(h, CondBr(w, |g.code| + 1, |g.code| + 2))
    ensures var s := LoopTested(h, w, |g.code|).(insert := |g.code| + 1); Ok(s) && FlagOk(s, false)
  {
    hide Ok, Built, TestMeans, LocalOperand, LoopBegun, Grows;
    var c := LoopBegun(g);
    TestLocal(gl, scope, c.(insert := |g.code|), h, cond, w);
    LoopTests(g, c, h, w);
    MoveKeeps(LoopTested(h, w, |g.code|), |g.code| + 1);
  }

  class CminusfBuilder {
    const gl: Globals
    const isVoid: bool
    // The function under construction.
    var code: Code
    var preds: seq<seq<Block>>
    var succs: seq<seq<Block>>
    var insert: Block
    var temps: nat
    var slots: nat
    ghost var sites: Sites
    // The state of the visitors.
    var scope: Scope
    var ret: Operand
    var argload: bool
    var returnFlag: bool

    constructor (gl: Globals, isVoid: bool)
      ensures this.gl == gl && this.isVoid == isVoid && Now() == Start() && scope == [GlobalScope(gl)] && slots == 0 && !returnFlag
    {
      this.gl, this.isVoid := gl, isVoid;
      code, preds, succs, insert, temps, slots, sites := [Draft([], None)], [[]], [[]], ENTRY, 0, 0, map[];
      scope, ret, argload, returnFlag := [GlobalScope(gl)], Int32(Const(0)), false, false;
    }

    ghost function Now(): Gen
      reads this`code, this`insert, this`preds, this`succs, this`sites, this`temps
    {
      Gen(code, insert, preds, succs, sites, temps)
    }

    /** Between two visits. */
    ghost predicate Ready()
      reads this
    {
      Ok(Now()) && ScopeOk(gl, scope, slots) && FlagOk(Now(), returnFlag)
    }

    ghost predicate Names(locals: set<string>)
      reads this`scope
    {
      LocalNames(scope) == locals
    }

    lemma ReadyIs()
      requires Ready()
      ensures Ok(Now()) && ScopeOk(gl, scope, slots) && FlagOk(Now(), returnFlag) && insert < |code|
      ensures !returnFlag ==> Open(Now())
    {
      hide Ok, ScopeOk;
    }

    lemma ReadyAgain()
      requires Ok(Now()) && ScopeOk(gl, scope, slots) && FlagOk(Now(), returnFlag)
      ensures Ready()
    {
      hide Ok, ScopeOk, FlagOk;
    }

    lemma NowIs()
      ensures Now() == Gen(code, insert, preds, succs, sites, temps)
    {
    }

    // -------------------------------------------------------------- the builder

    /** An instruction at the insert point. */
    method Append(i: Instr)
      requires insert < |code|
      modifies this`code, this`temps, this`sites
      ensures Now() == Emit(old(Now()), i)
    {
      var d := code[insert];
      sites := DefSites(sites, i, insert, |d.body|);
      code := code[insert := Draft(d.body + [i], d.term)];
      if Dest(i).Some? {
        temps := temps + 1;
      }
    }

    method CreateBlock() returns (b: Block)
      modifies this`code, this`preds, this`succs
      ensures b == |old(code)| && Now() == NewBlock(old(Now()))
    {
      b := |code|;
      code := code + [Draft([], None)];
      preds := preds + [[]];
      succs := succs + [[]];
    }

    /** A branch or return at the insert point: both edge lists are kept. */
    method CreateTerminator(t: Term)
      requires insert < |code| && insert < |succs|
      modifies this`code, this`preds, this`succs
      ensures Now() == Terminate(old(Now()), t)
    {
      var d := code[insert];
      preds := AddPreds(preds, t, insert);
      succs := succs[insert := Targets(t)];
      code := code[insert := Draft(d.body, Some(t))];
    }

    method SetInsertPoint(b: Block)
      modifies this`insert
      ensures Now() == old(Now()).(insert := b)
    {
      insert := b;
    }

    // -------------------------------------------------------------- expressions

    /** A variable in ret is replaced by its value. */
    method LoadRet(e: Expr, ghost g: Gen)
      requires ExprDone(gl, scope, g, Now(), e, ret)
      modifies this`code, this`temps, this`sites, this`ret
      ensures ExprDone(gl, scope, g, Now(), e, ret) && !ret.Pointer?
    {
      hide *;
      ghost var h := Now();
      NowIs();
      ExprDoneIs(gl, scope, g, h, e, ret);
      OkLists(h);
      if ret.Pointer? {
        LoadDone(gl, scope, g, h, e, ret.a);
        var t := Temp(temps);
        Append(Load(t, ret.a));
        ret := Int32(Res(t));
      }
    }

    /** One bit in ret is widened. */
    method ZextRet(e: Expr, ghost g: Gen)
      requires ExprDone(gl, scope, g, Now(), e, ret) && !ret.Pointer?
      modifies this`code, this`temps, this`sites, this`ret
      ensures ExprDone(gl, scope, g, Now(), e, ret) && ret.Int32?
    {
      hide *;
      ghost var h := Now();
      NowIs();
      ExprDoneIs(gl, scope, g, h, e, ret);
      OkLists(h);
      if ret.Int1? {
        ZextDone(gl, scope, g, h, e, ret.v);
        var t := Temp(temps);
        Append(Zext(t, ret.v));
        ret := Int32(Res(t));
      }
    }

    /** The code of an expression goes to the insert point; ret tells where its
        value is. */
    method VisitExpr(e: Expr, asValue: bool, ghost locals: set<string>)
      requires Ok(Now()) && Open(Now()) && ScopeOk(gl, scope, slots) && Names(locals) && ExprOk(gl, locals, e, asValue)
      modifies this`code, this`temps, this`sites, this`ret, this`argload
      ensures ExprDone(gl, scope, old(Now()), Now(), e, ret)
      ensures ret.Pointer? ==> argload
      decreases e, 1
    {
      hide *;
      ghost var g := Now();
      ExprOkIs(gl, locals, e, asValue);
      match e
      case Num(n) =>
        NumDone(gl, scope, g, n);
        ret := Int32(Const(n));
      case Var(id) =>
        NamesIs(locals);
        VarFound(gl, scope, slots, id);
        VarDone(gl, scope, slots, g, id);
        argload := true;
        ret := Pointer(Find(scope, id).value.addr);
      case Assign(id, r) =>
        NamesIs(locals);
        VarFound(gl, scope, slots, id);
        var a := Find(scope, id).value.addr;
        VisitExpr(r, true, locals);
        LoadRet(r, g);
        ZextRet(r, g);
        ghost var h := Now();
        NowIs();
        ExprDoneIs(gl, scope, g, h, r, ret);
        OkLists(h);
        AssignDone(gl, scope, slots, g, h, id, r, ret.v);
        Append(Store(ret.v, a));
      case Relational(_, _, _) => VisitTwo(e, locals);
      case Additive(_, _, _) => VisitTwo(e, locals);
      case Multiplicative(_, _, _) => VisitTwo(e, locals);
      case Invoke(id, args) => VisitCall(e, locals);
    }

    lemma NamesIs(locals: set<string>)
      requires Names(locals)
      ensures LocalNames(scope) == locals
    {
    }

    /** Left operand, load, right operand, load, then the widenings: a term widens
        its right operand first. */
    method VisitTwo(e: Expr, ghost locals: set<string>)
      requires Ok(Now()) && Open(Now()) && ScopeOk(gl, scope, slots) && Names(locals)
      requires TwoSided(e) && ExprOk(gl, locals, e.l, true) && ExprOk(gl, locals, e.r, true)
      modifies this`code, this`temps, this`sites, this`ret, this`argload
      ensures ExprDone(gl, scope, old(Now()), Now(), e, ret) && !ret.Pointer?
      decreases e, 0
    {
      hide *;
      ghost var g := Now();
      TwoSidedIs(e);
      VisitExpr(e.l, true, locals);
      LoadRet(e.l, g);
      var left := ret;
      ghost var h := Now();
      ExprDoneIs(gl, scope, g, h, e.l, left);
      VisitExpr(e.r, true, locals);
      LoadRet(e.r, h);
      BothDone(gl, scope, g, h, Now(), e, left, ret);
      var right := ret;
      if e.Multiplicative? {
        right := ZextRight(e, g, left, right);
        left := ZextLeft(e, g, left, right);
      } else {
        left := ZextLeft(e, g, left, right);
        right := ZextRight(e, g, left, right);
      }
      NowIs();
      TwoDoneIs(gl, scope, g, Now(), e, left, right);
      CombineDone(gl, scope, g, Now(), e, left.v, right.v);
      CombineTypeIs(e, temps);
      ret := CombineType(e, temps);
      Append(Combine(e, temps, left.v, right.v));
    }

    method ZextLeft(e: Expr, ghost g: Gen, a: Operand, ghost b: Operand) returns (a': Operand)
      requires TwoDone(gl, scope, g, Now(), e, a, b)
      modifies this`code, this`temps, this`sites
      ensures TwoDone(gl, scope, g, Now(), e, a', b) && a'.Int32?
    {
      hide *;
      NowIs();
      TwoDoneIs(gl, scope, g, Now(), e, a, b);
      a' := a;
      if a.Int1? {
        ZextLeftDone(gl, scope, g, Now(), e, a.v, b);
        a' := Int32(Res(Temp(temps)));
        Append(Zext(Temp(temps), a.v));
      }
    }

    method ZextRight(e: Expr, ghost g: Gen, ghost a: Operand, b: Operand) returns (b': Operand)
      requires TwoDone(gl, scope, g, Now(), e, a, b)
      modifies this`code, this`temps, this`sites
      ensures TwoDone(gl, scope, g, Now(), e, a, b') && b'.Int32?
    {
      hide *;
      NowIs();
      TwoDoneIs(gl, scope, g, Now(), e, a, b);
      b' := b;
      if b.Int1? {
        ZextRightDone(gl, scope, g, Now(), e, a, b.v);
        b' := Int32(Res(Temp(temps)));
        Append(Zext(Temp(temps), b.v));
      }
    }

    /** Arguments from left to right, each loaded before the next is computed. */
    method VisitCall(e: Expr, ghost locals: set<string>)
      requires Ok(Now()) && Open(Now()) && ScopeOk(gl, scope, slots) && Names(locals)
      requires e.Invoke? && CallOk(gl, locals, e)
      modifies this`code, this`temps, this`sites, this`ret, this`argload
      ensures ExprDone(gl, scope, old(Now()), Now(), e, ret) && !ret.Pointer?
      decreases e, 0
    {
      hide *;
      ghost var g := Now();
      CallOkIs(gl, locals, e);
      NamesIs(locals);
      FunFound(gl, scope, slots, e.id);
      EntityIs(gl, e.id);
      var fun := Find(scope, e.id).value;
      NoneDone(gl, scope, g);
      var vs: seq<Value> := [];
      var i := 0;
      while i < |e.args|
        invariant i <= |e.args|
        invariant ListDone(gl, scope, g, Now(), e.args[..i], vs)
      {
        ghost var h := Now();
        ListDoneIs(gl, scope, g, h, e.args[..i], vs);
        VisitExpr(e.args[i], true, locals);
        if argload && ret.Pointer? {
          LoadRet(e.args[i], h);
        }
        ZextRet(e.args[i], h);
        ArgumentDone(gl, scope, g, h, Now(), e.args[..i], vs, e.args[i], ret.v);
        assert e.args[..i] + [e.args[i]] == e.args[..i + 1];
        vs := vs + [ret.v];
        i := i + 1;
      }
      assert e.args[..i] == e.args;
      NowIs();
      ListDoneIs(gl, scope, g, Now(), e.args, vs);
      OkLists(Now());
      InvokeDone(gl, scope, g, Now(), e.id, e.args, vs);
      ret := Int32(Res(Temp(temps)));
      Append(Instr.Call(Temp(temps), fun.f, vs));
    }

    /** A condition ends in one bit, or in a word compared with zero. */
    method VisitCondition(cond: Expr, ghost locals: set<string>) returns (w: Value)
      requires Ok(Now()) && Open(Now()) && ScopeOk(gl, scope, slots) && Names(locals) && ExprOk(gl, locals, cond, true)
      modifies this`code, this`temps, this`sites, this`ret, this`argload
      ensures TestDone(gl, scope, old(Now()), Now(), cond, w)
    {
      hide *;
      ghost var g := Now();
      VisitExpr(cond, true, locals);
      LoadRet(cond, g);
      NowIs();
      ghost var h := Now();
      ExprDoneIs(gl, scope, g, h, cond, ret);
      OkLists(h);
      if ret.Int32? {
        NotZeroDone(gl, scope, g, h, cond, ret.v);
        var t := Temp(temps);
        Append(Compare(t, Ne, ret.v, Const(0)));
        ret := Int1(Res(t));
      } else {
        BitDone(gl, scope, g, h, cond, ret.v);
      }
      w := ret.v;
    }

    // -------------------------------------------------------------- statements

    /** A statement; behind a return nothing is emitted. */
    method VisitStmt(s: Stmt, ghost locals: set<string>)
      requires Ready() && Names(locals) && StmtOk(gl, locals, isVoid, s)
      modifies this
      ensures Ready() && scope == old(scope)
      ensures StmtDone(gl, scope, old(Now()), old(returnFlag), Now(), s, returnFlag)
      decreases s, 1
    {
      hide *;
      ghost var g := Now();
      ReadyIs();
      NowIs();
      if returnFlag {
        SkippedDone(gl, scope, g, s);
        return;
      }
      StmtOkIs(gl, locals, isVoid, s);
      match s
      case Compound(_, _) => VisitCompound(s, locals);
      case Expression(None) => EmptyDone(gl, scope, g);
      case Expression(Some(e)) =>
        VisitExpr(e, false, locals);
        ExpressionDone(gl, scope, g, Now(), e, ret);
        StmtDoneIs(gl, scope, g, false, Now(), s, false);
        ReadyAgain();
      case Selection(_, _, None) => VisitIf(s, locals);
      case Selection(_, _, Some(_)) => VisitIfElse(s, locals);
      case Iteration(_, _) => VisitIteration(s, locals);
      case Return(_) => VisitReturn(s, locals);
    }

    /** Declarations and statements in a scope of their own. */
    method VisitCompound(s: Stmt, ghost locals: set<string>)
      requires Ready() && !returnFlag && Names(locals) && s.Compound?
      requires forall i :: 0 <= i < |s.body| ==> StmtOk(gl, locals + NamesOf(s.locals), isVoid, s.body[i])
      modifies this
      ensures Ready() && scope == old(scope)
      ensures StmtDone(gl, scope, old(Now()), false, Now(), s, returnFlag)
      decreases s, 0
    {
      hide *;
      ghost var g, outer := Now(), scope;
      ReadyIs();
      NamesIs(locals);
      ScopeIs(gl, scope, slots);
      DeclsBegin(gl, scope, slots, g);
      scope := scope + [map[]];
      var i := 0;
      while i < |s.locals|
        invariant i <= |s.locals| && !returnFlag
        invariant DeclsDone(gl, outer, scope, slots, g, Now(), s.locals[..i])
      {
        DeclsDoneIs(gl, outer, scope, slots, g, Now(), s.locals[..i]);
        ClosedIs(Now());
        NowIs();
        VisitVarDeclaration(s.locals[i], outer, g, s.locals[..i]);
        assert s.locals[..i] + [s.locals[i]] == s.locals[..i + 1];
        i := i + 1;
      }
      assert s.locals[..i] == s.locals;
      ghost var h, inner := Now(), scope;
      DeclsDoneIs(gl, outer, inner, slots, g, h, s.locals);
      DeclsMeaning(gl, outer, inner, slots, g, h, s.locals);
      OpenFlag(h);
      ReadyAgain();
      EmptyDone(gl, inner, h);
      NamesAre(locals + NamesOf(s.locals));
      i := 0;
      while i < |s.body|
        invariant i <= |s.body| && Ready() && scope == inner
        invariant StmtsDone(gl, inner, h, Now(), s.body[..i], returnFlag)
      {
        ghost var k, flag := Now(), returnFlag;
        NamesAre(locals + NamesOf(s.locals));
        VisitStmt(s.body[i], locals + NamesOf(s.locals));
        SequenceDone(gl, inner, h, k, Now(), s.body[..i], s.body[i], flag, returnFlag);
        assert s.body[..i] + [s.body[i]] == s.body[..i + 1];
        i := i + 1;
      }
      assert s.body[..i] == s.body;
      ReadyIs();
      CompoundDone(gl, outer, inner, g, h, Now(), s.locals, s.body, returnFlag);
      scope := scope[..|scope| - 1];
      LeaveOk(gl, outer, inner, slots);
      ReadyAgain();
    }

    /** A local int variable: its slot, and its name in the innermost scope. */
    method VisitVarDeclaration(id: string, ghost outer: Scope, ghost g: Gen, ghost names: seq<string>)
      requires DeclsDone(gl, outer, scope, slots, g, Now(), names) && insert < |code| && 0 < |scope|
      modifies this`code, this`temps, this`sites, this`slots, this`scope
      ensures DeclsDone(gl, outer, scope, slots, g, Now(), names + [id]) && slots == old(slots) + 1
    {
      hide *;
      DeclDone(gl, outer, scope, slots, g, Now(), names, id);
      Append(Alloca(slots));
      scope := Declare(scope, id, slots);
      slots := slots + 1;
    }

    /** if without else. */
    method VisitIf(s: Stmt, ghost locals: set<string>)
      requires Ready() && !returnFlag && Names(locals) && s.Selection? && s.no.None?
      requires ExprOk(gl, locals, s.cond, true) && StmtOk(gl, locals, isVoid, s.yes)
      modifies this
      ensures Ready() && scope == old(scope)
      ensures StmtDone(gl, scope, old(Now()), false, Now(), s, returnFlag)
      decreases s, 0
    {
      hide *;
      ghost var g := Now();
      ReadyIs();
      NamesIs(locals);
      var w := VisitCondition(s.cond, locals);
      ghost var h := Now();
      NowIs();
      BranchOpened(gl, scope, g, h, s.cond, w);
      var trueBB := CreateBlock();
      NowIs();
      var nextBB := CreateBlock();
      NowIs();
      CreateTerminator(CondBr(w, trueBB, nextBB));
      SetInsertPoint(trueBB);
      NowIs();
      ReadyAgain();
      NamesAre(locals);
      VisitStmt(s.yes, locals);
      ghost var v, flag := Now(), returnFlag;
      ReadyIs();
      SelectionDone(gl, scope, g, h, s.cond, w, v, s.yes, flag);
      StmtDoneIs(gl, scope, Branched(h, w).(insert := |g.code|), false, v, s.yes, flag);
      ClosedFlag(v, flag);
      NowIs();
      JoinedIs(v, flag, nextBB);
      if !returnFlag {
        CreateTerminator(Br(nextBB));
      }
      returnFlag := false;
      SetInsertPoint(nextBB);
      NowIs();
      StmtDoneIs(gl, scope, g, false, Now(), s, false);
      ReadyAgain();
    }

    lemma NamesAre(locals: set<string>)
      requires LocalNames(scope) == locals
      ensures Names(locals)
    {
    }

    /** if with else: the else side first. */
    method VisitIfElse(s: Stmt, ghost locals: set<string>)
      requires Ready() && !returnFlag && Names(locals) && s.Selection? && s.no.Some?
      requires ExprOk(gl, locals, s.cond, true) && StmtOk(gl, locals, isVoid, s.yes) && StmtOk(gl, locals, isVoid, s.no.value)
      modifies this
      ensures Ready() && scope == old(scope)
      ensures StmtDone(gl, scope, old(Now()), false, Now(), s, returnFlag)
      decreases s, 0
    {
      hide *;
      ghost var g := Now();
      ReadyIs();
      NamesIs(locals);
      var w := VisitCondition(s.cond, locals);
      ghost var h := Now();
      NowIs();
      BranchOpened(gl, scope, g, h, s.cond, w);
      var trueBB := CreateBlock();
      NowIs();
      var falseBB := CreateBlock();
      NowIs();
      CreateTerminator(CondBr(w, trueBB, falseBB));
      SetInsertPoint(falseBB);
      NowIs();
      ReadyAgain();
      NamesAre(locals);
      VisitStmt(s.no.value, locals);
      ghost var v2, flag2 := Now(), returnFlag;
      ElseOpened(gl, scope, g, h, s.cond, w, v2, s.no.value, flag2);
      StmtDoneIs(gl, scope, Branched(h, w).(insert := |g.code| + 1), false, v2, s.no.value, flag2);
      ClosedFlag(v2, flag2);
      ReadyIs();
      LinkedIs(v2, flag2);
      NowIs();
      var inserted, nextBB := false, 0;
      if code[insert].term.None? {
        inserted := true;
        nextBB := CreateBlock();
        NowIs();
        CreateTerminator(Br(nextBB));
      }
      returnFlag := false;
      SetInsertPoint(trueBB);
      NowIs();
      ReadyAgain();
      NamesAre(locals);
      VisitStmt(s.yes, locals);
      ghost var v1, flag1 := Now(), returnFlag;
      StmtDoneIs(gl, scope, Linked(v2, flag2).(insert := |g.code|), false, v1, s.yes, flag1);
      ClosedFlag(v1, flag1);
      ReadyIs();
      NowIs();
      ghost var next := if flag2 then |v1.code| else |v2.code|;
      SelectionElseDone(gl, scope, g, h, s.cond, w, v2, s.no.value, flag2, v1, s.yes, flag1, next);
      LinkedIs(v1, flag1);
      JoinedIs(v1, flag1, next);
      BothJoinedIs(v1, flag1, flag2, next);
      if code[insert].term.None? {
        if !inserted {
          inserted := true;
          nextBB := CreateBlock();
          NowIs();
        }
        CreateTerminator(Br(nextBB));
        NowIs();
      }
      returnFlag := !inserted;
      if inserted {
        SetInsertPoint(nextBB);
      }
      NowIs();
      StmtDoneIs(gl, scope, g, false, Now(), s, returnFlag);
      ReadyAgain();
    }

    /** The three blocks of a loop; code goes on in the first. */
    method CreateLoopBlocks() returns (loopJudge: Block, loopBody: Block, out: Block)
      requires Ok(Now()) && FlagOk(Now(), false)
      modifies this`code, this`preds, this`succs, this`insert
      ensures loopJudge == |old(code)| && loopBody == loopJudge + 1 && out == loopJudge + 2
      ensures |old(succs)| == |old(code)| && old(insert) < |old(code)| && Now() == LoopBegun(old(Now())).(insert := loopJudge)
    {
      hide *;
      LoopOpened(Now());
      NowIs();
      loopJudge := CreateBlock();
      NowIs();
      loopBody := CreateBlock();
      NowIs();
      out := CreateBlock();
      NowIs();
      CreateTerminator(Br(loopJudge));
      SetInsertPoint(loopJudge);
    }

    /** while: the condition has a block of its own. */
    method VisitIteration(s: Stmt, ghost locals: set<string>)
      requires Ready() && !returnFlag && Names(locals) && s.Iteration?
      requires ExprOk(gl, locals, s.cond, true) && StmtOk(gl, locals, isVoid, s.loop)
      modifies this
      ensures Ready() && scope == old(scope)
      ensures StmtDone(gl, scope, old(Now()), false, Now(), s, returnFlag)
      decreases s, 0
    {
      hide *;
      ghost var g := Now();
      ReadyIs();
      NamesIs(locals);
      LoopOpened(g);
      NowIs();
      var loopJudge, loopBody, out := CreateLoopBlocks();
      NowIs();
      NamesAre(locals);
      var w := VisitCondition(s.cond, locals);
      ghost var h := Now();
      BodyOpened(gl, scope, g, h, s.cond, w);
      NowIs();
      CreateTerminator(CondBr(w, loopBody, out));
      SetInsertPoint(loopBody);
      NowIs();
      ReadyAgain();
      NamesAre(locals);
      VisitStmt(s.loop, locals);
      ghost var v, flag := Now(), returnFlag;
      IterationDone(gl, scope, g, LoopBegun(g), h, s.cond, w, v, s.loop, flag);
      StmtDoneIs(gl, scope, LoopTested(h, w, |g.code|).(insert := |g.code| + 1), false, v, s.loop, flag);
      ClosedFlag(v, flag);
      ReadyIs();
      NowIs();
      JoinedIs(v, flag, loopJudge);
      if code[insert].term.None? {
        CreateTerminator(Br(loopJudge));
      }
      returnFlag := false;
      SetInsertPoint(out);
      NowIs();
      StmtDoneIs(gl, scope, g, false, Now(), s, false);
      ReadyAgain();
    }

    method VisitReturn(s: Stmt, ghost locals: set<string>)
      requires Ready() && !returnFlag && Names(locals) && s.Return?
      requires s.e.Some? ==> !isVoid && ExprOk(gl, locals, s.e.value, true)
      modifies this
      ensures Ready() && scope == old(scope)
      ensures StmtDone(gl, scope, old(Now()), false, Now(), s, returnFlag)
      decreases s, 0
    {
      hide *;
      ghost var g := Now();
      ReadyIs();
      OkLists(g);
      NowIs();
      if s.e.None? {
        ReturnNothingDone(gl, scope, g);
        CreateTerminator(RetVoid);
      } else {
        NamesIs(locals);
        VisitExpr(s.e.value, true, locals);
        LoadRet(s.e.value, g);
        ZextRet(s.e.value, g);
        ghost var h := Now();
        NowIs();
        ExprDoneIs(gl, scope, g, h, s.e.value, ret);
        OkLists(h);
        ReturnDone(gl, scope, g, h, s.e.value, ret.v);
        CreateTerminator(Ret(ret.v));
      }
      returnFlag := true;
      StmtDoneIs(gl, scope, g, false, Now(), s, true);
      NowIs();
      ReadyAgain();
    }

    // -------------------------------------------------------------- the function

    /** Slots for the parameters, the arguments stored in them, the body, and a
        return where the body falls off its end. */
    method VisitFunDeclaration(d: FunDecl) returns (f: Func)
      requires Now() == Start() && scope == [GlobalScope(gl)] && slots == 0 && !returnFlag
      requires d.isVoid == isVoid && DeclOk(gl, d)
      modifies this
      ensures Compiled(gl, d, Now(), f)
    {
      hide *;
      ghost var outer := scope;
      StartOk();
      OuterIs(gl);
      DeclsBegin(gl, outer, slots, Start());
      scope := scope + [map[]];
      var i := 0;
      while i < |d.params|
        invariant i <= |d.params| && !returnFlag
        invariant DeclsDone(gl, outer, scope, slots, Start(), Now(), d.params[..i])
      {
        DeclsDoneIs(gl, outer, scope, slots, Start(), Now(), d.params[..i]);
        ClosedIs(Now());
        NowIs();
        VisitVarDeclaration(d.params[i], outer, Start(), d.params[..i]);
        assert d.params[..i] + [d.params[i]] == d.params[..i + 1];
        i := i + 1;
      }
      assert d.params[..i] == d.params;
      ghost var inner := scope;
      DeclsDoneIs(gl, outer, inner, slots, Start(), Now(), d.params);
      OuterNames(gl);
      StoresBegin(gl, inner, slots, Start(), Now(), d.params);
      i := 0;
      while i < |d.params|
        invariant i <= |d.params| && !returnFlag && scope == inner && ScopeOk(gl, inner, slots)
        invariant StoredDone(inner, Start(), Now(), d.params, i)
      {
        StoredDoneIs(inner, Start(), Now(), d.params, i);
        ClosedIs(Now());
        NowIs();
        ParamOk(gl, d.params, i, LocalNames(inner));
        VarFound(gl, inner, slots, d.params[i]);
        StoredStep(gl, inner, slots, Start(), Now(), d.params, i);
        Append(Store(Param(i), Find(scope, d.params[i]).value.addr));
        i := i + 1;
      }
      ghost var p := Now();
      StoredDoneIs(inner, Start(), p, d.params, |d.params|);
      OpenFlag(p);
      ReadyAgain();
      NamesAre(NamesOf(d.params));
      DeclOkIs(gl, d);
      VisitStmt(d.body, NamesOf(d.params));
      ghost var h := Now();
      CompiledIs(gl, d, inner, p, h, returnFlag);
      NowIs();
      ClosingIs(h, returnFlag, isVoid);
      if !returnFlag {
        CreateTerminator(if isVoid then RetVoid else Ret(Const(0)));
      }
      returnFlag := false;
      scope := scope[..1];
      NowIs();
      f := Finish(code);
    }
  }

  lemma OuterIs(gl: Globals)
    ensures ScopeOk(gl, [GlobalScope(gl)], 0)
  {
    forall i: nat, id
      ensures HasSlot([GlobalScope(gl)], 0, i, id)
    {
    }
  }

  lemma OuterNames(gl: Globals)
    ensures LocalNames([GlobalScope(gl)]) == {}
  {
  }

  lemma ClosedIs(g: Gen)
    requires Open(g)
    ensures g.insert < |g.code|
  {
  }

  lemma ParamOk(gl: Globals, params: seq<string>, i: nat, locals: set<string>)
    requires i < |params| && locals == NamesOf(params)
    ensures VarOk(gl, locals, params[i])
  {
  }

  lemma DeclOkIs(gl: Globals, d: FunDecl)
    requires DeclOk(gl, d)
    ensures StmtOk(gl, NamesOf(d.params), d.isVoid, d.body)
  {
  }

  lemma ClosingIs(g: Gen, flag: bool, isVoid: bool)
    requires g.insert < |g.code| && g.insert < |g.succs|
    ensures Closing(g, flag, isVoid) == if flag then g else Terminate(g, if isVoid then RetVoid else Ret(Const(0)))
  {
  }
}
