/** What one visit of the generator leaves, put together from what its parts
    leave: for expressions code in the current block, for statements blocks. A
    visit of an expression is done when the code added is straight and computes
    it; a visit of a statement, when the blocks added are finished but the one code
    goes on in, and every run through them does what the statement means. One lemma
    for each way a visitor combines its parts. */
module Visits {
  import opened Cfg
  import opened Arithmetic
  import opened Ir
  import opened Ast
  import opened ExprMeaning
  import opened StmtMeaning
  import opened CodeShape

  // ---------------------------------------------------------------- expressions

  ghost predicate ExprDone(gl: Globals, scope: Scope, g: Gen, h: Gen, e: Expr, o: Operand) {
    Ok(h) && Emitted(g, h) && LocalOperand(h, o) && ExprMeans(gl, scope, e, Added(g, h), o, g.temps)
  }

  ghost predicate TwoDone(gl: Globals, scope: Scope, g: Gen, h: Gen, e: Expr, a: Operand, b: Operand) {
    && TwoSided(e) && Ok(h) && Emitted(g, h) && !a.Pointer? && !b.Pointer? && LocalOperand(h, a) && LocalOperand(h, b)
    && TwoMean(gl, scope, e, Added(g, h), a, b, g.temps)
  }

  ghost predicate LocalValues(g: Gen, vs: seq<Value>)
    requires g.insert < |g.code|
  {
    forall i {:trigger vs[i]} :: 0 <= i < |vs| ==> LocalOperand(g, Int32(vs[i]))
  }

  ghost predicate ListDone(gl: Globals, scope: Scope, g: Gen, h: Gen, es: seq<Expr>, vs: seq<Value>) {
    Ok(h) && Emitted(g, h) && LocalValues(h, vs) && ListMeans(gl, scope, es, Added(g, h), vs, g.temps)
  }

  ghost predicate TestDone(gl: Globals, scope: Scope, g: Gen, h: Gen, e: Expr, w: Value) {
    Ok(h) && Emitted(g, h) && LocalOperand(h, Int1(w)) && TestMeans(gl, scope, e, Added(g, h), w)
  }

  lemma ExprDoneIs(gl: Globals, scope: Scope, g: Gen, h: Gen, e: Expr, o: Operand)
    requires ExprDone(gl, scope, g, h, e, o)
    ensures Ok(h) && Emitted(g, h) && Open(h) && LocalOperand(h, o)
  {
    hide Ok, ExprMeans;
  }

  lemma NumDone(gl: Globals, scope: Scope, g: Gen, n: int)
    requires Ok(g) && Open(g)
    ensures ExprDone(gl, scope, g, g, Num(n), Int32(Const(n)))
  {
    hide Ok, ExprMeans;
    EmittedNothing(g);
    NumMeans(gl, scope, n, g.temps);
  }

  lemma VarDone(gl: Globals, scope: Scope, slots: nat, g: Gen, id: string)
    requires Ok(g) && Open(g) && ScopeOk(gl, scope, slots) && Find(scope, id).Some? && Find(scope, id).value.Variable?
    requires OperandBelow(Pointer(Find(scope, id).value.addr), 0)
    ensures ExprDone(gl, scope, g, g, Var(id), Pointer(Find(scope, id).value.addr))
  {
    hide Ok, ExprMeans, ScopeOk;
    EmittedNothing(g);
    VarMeans(gl, scope, slots, id, g.temps);
  }

  lemma LoadFits(g: Gen, a: Address)
    requires Ok(g) && Open(g) && LocalOperand(g, Pointer(a))
    ensures Fits(g, Load(Temp(g.temps), a))
  {
    hide Ok;
  }

  lemma LoadDone(gl: Globals, scope: Scope, g: Gen, h: Gen, e: Expr, a: Address)
    requires ExprDone(gl, scope, g, h, e, Pointer(a))
    ensures ExprDone(gl, scope, g, Emit(h, Load(Temp(h.temps), a)), e, Int32(Res(Temp(h.temps))))
  {
    hide Ok, ExprMeans, Fits, LocalOperand;
    var i := Load(Temp(h.temps), a);
    LoadFits(h, a);
    EmitKeeps(h, i);
    EmittedOne(g, h, i);
    LocalResult(h, i);
    LoadMeans(gl, scope, e, Added(g, h), a, g.temps, h.temps);
  }

  lemma ValueFits(g: Gen, i: Instr, o: Operand)
    requires Ok(g) && Open(g) && LocalOperand(g, o) && !o.Pointer? && Dest(i) == Some(Temp(g.temps)) && Uses(i) == [o.v]
    ensures Fits(g, i)
  {
    hide Ok;
  }

  lemma TwoFit(g: Gen, i: Instr, a: Operand, b: Operand)
    requires Ok(g) && Open(g) && LocalOperand(g, a) && LocalOperand(g, b) && !a.Pointer? && !b.Pointer?
    requires Dest(i) == Some(Temp(g.temps)) && Uses(i) == [a.v, b.v]
    ensures Fits(g, i)
  {
    hide Ok;
  }

  lemma ZextDone(gl: Globals, scope: Scope, g: Gen, h: Gen, e: Expr, v: Value)
    requires ExprDone(gl, scope, g, h, e, Int1(v))
    ensures ExprDone(gl, scope, g, Emit(h, Zext(Temp(h.temps), v)), e, Int32(Res(Temp(h.temps))))
  {
    hide Ok, ExprMeans, Fits, LocalOperand;
    var i := Zext(Temp(h.temps), v);
    ValueFits(h, i, Int1(v));
    EmitKeeps(h, i);
    EmittedOne(g, h, i);
    LocalResult(h, i);
    ZextMeans(gl, scope, e, Added(g, h), v, g.temps, h.temps);
  }

  lemma StoreFits(g: Gen, v: Value, a: Address)
    requires Ok(g) && Open(g) && LocalOperand(g, Int32(v)) && OperandBelow(Pointer(a), 0)
    ensures Fits(g, Store(v, a))
  {
    hide Ok;
  }

  lemma AssignDone(gl: Globals, scope: Scope, slots: nat, g: Gen, h: Gen, id: string, e: Expr, v: Value)
    requires ScopeOk(gl, scope, slots) && Find(scope, id).Some? && Find(scope, id).value.Variable?
    requires OperandBelow(Pointer(Find(scope, id).value.addr), 0)
    requires ExprDone(gl, scope, g, h, e, Int32(v))
    ensures ExprDone(gl, scope, g, Emit(h, Store(v, Find(scope, id).value.addr)), Assign(id, e), Int32(v))
  {
    hide Ok, ExprMeans, ScopeOk, Fits;
    var i := Store(v, Find(scope, id).value.addr);
    StoreFits(h, v, Find(scope, id).value.addr);
    EmitKeeps(h, i);
    EmittedOne(g, h, i);
    AssignMeans(gl, scope, slots, id, e, Added(g, h), v, g.temps);
    EmittedNothing(h);
    EmittedOne(h, h, i);
    LocalStays(h, Emit(h, i), Int32(v));
  }

  lemma BothDone(gl: Globals, scope: Scope, g: Gen, h: Gen, k: Gen, e: Expr, a: Operand, b: Operand)
    requires TwoSided(e) && !a.Pointer? && !b.Pointer?
    requires ExprDone(gl, scope, g, h, e.l, a) && ExprDone(gl, scope, h, k, e.r, b)
    ensures TwoDone(gl, scope, g, k, e, a, b)
  {
    hide Ok, ExprMeans, TwoMean;
    EmittedTrans(g, h, k);
    LocalStays(h, k, a);
    TwoInOrder(gl, scope, e, Added(g, h), Added(h, k), a, b, g.temps, h.temps);
  }

  lemma ZextLeftDone(gl: Globals, scope: Scope, g: Gen, h: Gen, e: Expr, v: Value, b: Operand)
    requires TwoDone(gl, scope, g, h, e, Int1(v), b)
    ensures TwoDone(gl, scope, g, Emit(h, Zext(Temp(h.temps), v)), e, Int32(Res(Temp(h.temps))), b)
  {
    hide Ok, TwoMean, Fits;
    var i := Zext(Temp(h.temps), v);
    ValueFits(h, i, Int1(v));
    EmitKeeps(h, i);
    EmittedOne(g, h, i);
    LocalResult(h, i);
    EmittedNothing(h);
    EmittedOne(h, h, i);
    LocalStays(h, Emit(h, i), b);
    TwoZextLeft(gl, scope, e, Added(g, h), v, b, g.temps, h.temps);
  }

  lemma ZextRightDone(gl: Globals, scope: Scope, g: Gen, h: Gen, e: Expr, a: Operand, v: Value)
    requires TwoDone(gl, scope, g, h, e, a, Int1(v))
    ensures TwoDone(gl, scope, g, Emit(h, Zext(Temp(h.temps), v)), e, a, Int32(Res(Temp(h.temps))))
  {
    hide Ok, TwoMean, Fits;
    var i := Zext(Temp(h.temps), v);
    ValueFits(h, i, Int1(v));
    EmitKeeps(h, i);
    EmittedOne(g, h, i);
    LocalResult(h, i);
    EmittedNothing(h);
    EmittedOne(h, h, i);
    LocalStays(h, Emit(h, i), a);
    TwoZextRight(gl, scope, e, Added(g, h), a, v, g.temps, h.temps);
  }

  lemma CombineDone(gl: Globals, scope: Scope, g: Gen, h: Gen, e: Expr, a: Value, b: Value)
    requires TwoDone(gl, scope, g, h, e, Int32(a), Int32(b))
    ensures ExprDone(gl, scope, g, Emit(h, Combine(e, h.temps, a, b)), e, CombineType(e, h.temps))
  {
    hide Ok, TwoMean, ExprMeans, Fits;
    var i := Combine(e, h.temps, a, b);
    TwoFit(h, i, Int32(a), Int32(b));
    EmitKeeps(h, i);
    EmittedOne(g, h, i);
    LocalResult(h, i);
    CombineMeans(gl, scope, e, Added(g, h), a, b, g.temps, h.temps);
  }

  lemma NoneDone(gl: Globals, scope: Scope, g: Gen)
    requires Ok(g) && Open(g)
    ensures ListDone(gl, scope, g, g, [], [])
  {
    hide Ok, ListMeans;
    EmittedNothing(g);
    NoneMeans(gl, scope, g.temps);
  }

  lemma ListDoneIs(gl: Globals, scope: Scope, g: Gen, h: Gen, es: seq<Expr>, vs: seq<Value>)
    requires ListDone(gl, scope, g, h, es, vs)
    ensures Ok(h) && Emitted(g, h) && Open(h)
  {
    hide Ok, ListMeans;
  }

  lemma ValuesStay(g: Gen, h: Gen, vs: seq<Value>)
    requires Emitted(g, h) && LocalValues(g, vs)
    ensures LocalValues(h, vs)
  {
    hide LocalOperand;
    forall i | 0 <= i < |vs|
      ensures LocalOperand(h, Int32(vs[i]))
    {
      LocalStays(g, h, Int32(vs[i]));
    }
  }

  lemma ValuesBelow(g: Gen, vs: seq<Value>)
    requires g.insert < |g.code| && LocalValues(g, vs)
    ensures forall i :: 0 <= i < |vs| ==> BelowTemp(vs[i], g.temps)
  {
  }

  lemma ArgumentDone(gl: Globals, scope: Scope, g: Gen, h: Gen, k: Gen, es: seq<Expr>, vs: seq<Value>, e: Expr, v: Value)
    requires ListDone(gl, scope, g, h, es, vs) && ExprDone(gl, scope, h, k, e, Int32(v))
    ensures ListDone(gl, scope, g, k, es + [e], vs + [v])
  {
    hide Ok, ListMeans, ExprMeans, LocalOperand;
    EmittedTrans(g, h, k);
    ValuesStay(h, k, vs);
    ValuesBelow(h, vs);
    ArgumentMeans(gl, scope, es, Added(g, h), vs, e, Added(h, k), v, g.temps, h.temps);
  }

  lemma CallFits(g: Gen, f: nat, vs: seq<Value>)
    requires Open(g) && LocalValues(g, vs)
    ensures Fits(g, Instr.Call(Temp(g.temps), f, vs))
  {
    forall i | 0 <= i < |vs|
      ensures LocalAt(g.sites, vs[i], g.insert, |g.code[g.insert].body|)
    {
      assert LocalOperand(g, Int32(vs[i]));
    }
  }

  lemma InvokeDone(gl: Globals, scope: Scope, g: Gen, h: Gen, id: string, es: seq<Expr>, vs: seq<Value>)
    requires ListDone(gl, scope, g, h, es, vs) && id in gl && gl[id].Function?
    ensures ExprDone(gl, scope, g, Emit(h, Instr.Call(Temp(h.temps), gl[id].f, vs)), Invoke(id, es), Int32(Res(Temp(h.temps))))
  {
    hide Ok, ListMeans, ExprMeans, Fits;
    var i := Instr.Call(Temp(h.temps), gl[id].f, vs);
    CallFits(h, gl[id].f, vs);
    EmitKeeps(h, i);
    EmittedOne(g, h, i);
    LocalResult(h, i);
    InvokeMeans(gl, scope, id, es, Added(g, h), vs, g.temps, h.temps);
  }

  lemma BitDone(gl: Globals, scope: Scope, g: Gen, h: Gen, e: Expr, w: Value)
    requires ExprDone(gl, scope, g, h, e, Int1(w))
    ensures TestDone(gl, scope, g, h, e, w)
  {
    hide Ok, ExprMeans, TestMeans;
    BitTests(gl, scope, e, Added(g, h), w, g.temps);
  }

  lemma NotZeroDone(gl: Globals, scope: Scope, g: Gen, h: Gen, e: Expr, v: Value)
    requires ExprDone(gl, scope, g, h, e, Int32(v))
    ensures TestDone(gl, scope, g, Emit(h, Compare(Temp(h.temps), Ne, v, Const(0))), e, Res(Temp(h.temps)))
  {
    hide Ok, ExprMeans, TestMeans, Fits;
    var i := Compare(Temp(h.temps), Ne, v, Const(0));
    TwoFit(h, i, Int32(v), Int32(Const(0)));
    EmitKeeps(h, i);
    EmittedOne(g, h, i);
    LocalResult(h, i);
    NotZeroTests(gl, scope, e, Added(g, h), v, g.temps, h.temps);
  }

  lemma TestDoneIs(gl: Globals, scope: Scope, g: Gen, h: Gen, e: Expr, w: Value)
    requires TestDone(gl, scope, g, h, e, w)
    ensures Ok(h) && Emitted(g, h) && Open(h)
  {
    hide Ok, TestMeans;
  }

  // ---------------------------------------------------------------- statements

  /** The flag is set if and only if the block has its terminator. */
  ghost predicate FlagOk(g: Gen, flag: bool) { g.insert < |g.code| && (flag <==> !Open(g)) }

  /** A statement behind one that always leaves emits nothing. */
  ghost predicate StmtDone(gl: Globals, scope: Scope, g: Gen, flag: bool, h: Gen, s: Stmt, flag': bool) {
    && Ok(h) && g.insert < |g.code| && Grew(g, h) && FlagOk(h, flag')
    && if flag then h == g && flag' else StmtMeans(gl, scope, h.code, s, Here(g), Here(h), flag')
  }

  ghost predicate StmtsDone(gl: Globals, scope: Scope, g: Gen, h: Gen, ss: seq<Stmt>, flag': bool) {
    && Ok(h) && g.insert < |g.code| && Grew(g, h) && FlagOk(h, flag')
    && StmtsMean(gl, scope, h.code, ss, Here(g), Here(h), flag')
  }

  lemma StmtDoneIs(gl: Globals, scope: Scope, g: Gen, flag: bool, h: Gen, s: Stmt, flag': bool)
    requires StmtDone(gl, scope, g, flag, h, s, flag')
    ensures Ok(h) && FlagOk(h, flag') && Grew(g, h)
  {
    hide Ok, StmtMeans, Grew, FlagOk;
  }

  lemma SkippedDone(gl: Globals, scope: Scope, g: Gen, s: Stmt)
    requires Ok(g) && FlagOk(g, true)
    ensures StmtDone(gl, scope, g, true, g, s, true)
  {
    hide Ok;
    GrewNothing(g);
  }

  lemma EmittedGrew(g: Gen, h: Gen)
    requires Ok(g) && Emitted(g, h)
    ensures Grew(g, h)
  {
    hide Ok;
    GrewNothing(g);
    BuiltEmitted(g, g, h, {g.insert}, {});
  }

  lemma EmptyDone(gl: Globals, scope: Scope, g: Gen)
    requires Ok(g) && FlagOk(g, false)
    ensures StmtDone(gl, scope, g, false, g, Expression(None), false) && StmtsDone(gl, scope, g, g, [], false)
  {
    hide Ok, StmtMeans, StmtsMean;
    GrewNothing(g);
    EmptyMeans(gl, scope, g.code, Here(g));
  }

  lemma ExpressionDone(gl: Globals, scope: Scope, g: Gen, h: Gen, e: Expr, o: Operand)
    requires Ok(g) && ExprDone(gl, scope, g, h, e, o)
    ensures StmtDone(gl, scope, g, false, h, Expression(Some(e)), false)
  {
    hide Ok, ExprMeans, StmtMeans, Grew;
    AddedIsThere(g, h);
    EmittedGrew(g, h);
    ExpressionMeans(gl, scope, h.code, e, Added(g, h), o, g.temps, Here(g));
  }

  lemma RetEnds(g: Gen, t: Term, o: Operand)
    requires Ok(g) && Open(g) && (t == RetVoid || (!o.Pointer? && LocalOperand(g, o) && t == Ret(o.v)))
    ensures Ends(g, t)
  {
  }

  lemma TermGrew(g: Gen, h: Gen, t: Term)
    requires Ok(g) && Ok(h) && Emitted(g, h) && Ends(h, t) && Targets(t) == []
    ensures Grew(g, Terminate(h, t))
  {
    hide Ok, Built;
    GrewNothing(g);
    BuiltEmitted(g, g, h, {g.insert}, {});
    OkLists(h);
    BuiltTerm(g, h, t, {g.insert}, {});
    assert Later(t, h.insert) == {} && {} - Later(t, h.insert) == {};
    BuiltWeaker(g, Terminate(h, t), {g.insert} - {h.insert}, {}, {h.insert}, {});
  }

  lemma OkLists(g: Gen)
    requires Ok(g)
    ensures ListsOk(g) && g.insert < |g.code| == |g.preds| == |g.succs|
  {
  }

  lemma BuiltWeaker(g: Gen, h: Gen, pending: set<Block>, loose: set<Block>, pending': set<Block>, loose': set<Block>)
    requires Built(g, h, pending, loose) && pending <= pending' && loose <= loose'
    ensures Built(g, h, pending', loose')
  {
    hide Grows;
    forall b: Block
      ensures NewOk(g, h, pending', loose', b)
    {
      assert NewOk(g, h, pending, loose, b);
    }
  }

  lemma ReturnNothingDone(gl: Globals, scope: Scope, g: Gen)
    requires Ok(g) && FlagOk(g, false)
    ensures Ends(g, RetVoid) && StmtDone(gl, scope, g, false, Terminate(g, RetVoid), Return(None), true)
  {
    hide Ok, StmtMeans, Grew;
    EmittedNothing(g);
    RetEnds(g, RetVoid, Int32(Const(0)));
    OkLists(g);
    TermGrew(g, g, RetVoid);
    TerminateKeeps(g, RetVoid);
    var h := Terminate(g, RetVoid);
    ReturnNothingMeans(gl, scope, h.code, Here(g), Here(h));
  }

  lemma ReturnDone(gl: Globals, scope: Scope, g: Gen, h: Gen, e: Expr, v: Value)
    requires Ok(g) && ExprDone(gl, scope, g, h, e, Int32(v))
    ensures Ends(h, Ret(v)) && StmtDone(gl, scope, g, false, Terminate(h, Ret(v)), Return(Some(e)), true)
  {
    hide Ok, StmtMeans, ExprMeans, Grew;
    RetEnds(h, Ret(v), Int32(v));
    OkLists(h);
    TermGrew(g, h, Ret(v));
    TerminateKeeps(h, Ret(v));
    var k := Terminate(h, Ret(v));
    AddedIsThere(g, h);
    CodeAtLater(h.code, k.code, Here(g), Added(g, h));
    ReturnMeans(gl, scope, k.code, e, Added(g, h), v, g.temps, Here(g), Here(k));
  }

  lemma CodeAtLater(code: Code, code': Code, at: Place, ins: seq<Instr>)
    requires CodeAt(code, at, ins) && at.b < |code'| && code[at.b].body <= code'[at.b].body
    ensures CodeAt(code', at, ins)
  {
    var d, d' := code[at.b].body, code'[at.b].body;
    assert d == d'[..|d|];
  }

  lemma GrowsAt(code: Code, code': Code, b: Block)
    requires Grows(code, code') && b < |code|
    ensures b < |code'| && code[b].body <= code'[b].body && (code[b].term.Some? ==> code'[b] == code[b])
  {
    assert BlockGrows(code[b], code'[b]);
  }

  lemma SequenceDone(gl: Globals, scope: Scope, g: Gen, h: Gen, k: Gen, ss: seq<Stmt>, s: Stmt, flag: bool, flag': bool)
    requires StmtsDone(gl, scope, g, h, ss, flag) && StmtDone(gl, scope, h, flag, k, s, flag')
    ensures StmtsDone(gl, scope, g, k, ss + [s], flag')
  {
    hide Ok, StmtMeans, StmtsMean, Built;
    GrewTrans(g, h, k);
    if flag {
      SequenceEnded(gl, scope, k.code, ss, s, Here(g), Here(k));
    } else {
      GrewGrows(h, k);
      StmtsMeanLater(gl, scope, h.code, k.code, ss, Here(g), Here(h), false);
      SequenceMeans(gl, scope, k.code, ss, s, Here(g), Here(h), Here(k), flag');
    }
  }

  lemma GrewGrows(g: Gen, h: Gen)
    requires Grew(g, h)
    ensures Grows(g.code, h.code) && Mine(g, h.insert)
  {
  }

  lemma CompoundDone(gl: Globals, scope: Scope, inner: Scope, g: Gen, h: Gen, k: Gen, names: seq<string>, body: seq<Stmt>, flag': bool)
    requires Ok(g) && Emitted(g, h) && DeclsMean(scope, inner, names, Added(g, h)) && |inner| == |scope| + 1 && inner[..|scope|] == scope
    requires StmtsDone(gl, inner, h, k, body, flag')
    ensures StmtDone(gl, scope, g, false, k, Compound(names, body), flag')
  {
    hide Ok, StmtMeans, StmtsMean, Built, DeclsMean;
    EmittedGrew(g, h);
    GrewTrans(g, h, k);
    AddedIsThere(g, h);
    GrewGrows(h, k);
    GrowsAt(h.code, k.code, g.insert);
    CodeAtLater(h.code, k.code, Here(g), Added(g, h));
    CompoundMeans(gl, scope, inner, k.code, names, body, Added(g, h), Here(g), Here(k), flag');
  }

  // ---------------------------------------------------------------- branches

  lemma BuiltMove(g: Gen, h: Gen, b: Block, pending: set<Block>, loose: set<Block>)
    requires Built(g, h, pending, loose)
    ensures Built(g, h.(insert := b), pending, loose)
  {
    hide Grows;
    var k := h.(insert := b);
    forall b: Block | b < |g.code|
      ensures SameBlock(g, k, b)
    {
      assert SameBlock(g, h, b);
    }
    forall b: Block
      ensures NewOk(g, k, pending, loose, b)
    {
      assert NewOk(g, h, pending, loose, b);
      assert Rooted(h, b) ==> Rooted(k, b);
    }
  }

  lemma BuiltClosed(g: Gen, h: Gen, pending: set<Block>, loose: set<Block>, x: Block)
    requires Built(g, h, pending, loose) && x < |h.code| && h.code[x].term.Some?
    ensures Built(g, h, pending - {x}, loose)
  {
    hide Grows;
    forall b: Block
      ensures NewOk(g, h, pending - {x}, loose, b)
    {
      assert NewOk(g, h, pending, loose, b);
    }
  }

  /** Behind the condition: two new blocks and the branch to them. */
  ghost function Branched(h: Gen, w: Value): Gen
    requires h.insert < |h.code| && h.insert < |h.succs|
  {
    Terminate(NewBlock(NewBlock(h)), CondBr(w, |h.code|, |h.code| + 1))
  }

  lemma BranchEnds(h: Gen, w: Value)
    requires Ok(h) && Open(h) && LocalOperand(h, Int1(w))
    ensures |h.succs| == |h.code| && Ok(NewBlock(NewBlock(h))) && Ends(NewBlock(NewBlock(h)), CondBr(w, |h.code|, |h.code| + 1))
    ensures Ok(Branched(h, w))
  {
    hide ResultsOk, ListsOk;
    OkLists(h);
    NewBlockKeeps(h);
    NewBlockKeeps(NewBlock(h));
    TerminateKeeps(NewBlock(NewBlock(h)), CondBr(w, |h.code|, |h.code| + 1));
  }

  lemma BranchedBuilt(g: Gen, h: Gen, w: Value)
    requires Ok(g) && Ok(h) && Emitted(g, h) && LocalOperand(h, Int1(w))
    ensures |h.succs| == |h.code| == |g.code|
    ensures Built(g, Branched(h, w), {|g.code|, |g.code| + 1}, {})
    ensures Branched(h, w).preds[|g.code|] == [g.insert] == Branched(h, w).preds[|g.code| + 1]
    ensures |Branched(h, w).code| == |Branched(h, w).preds| == |g.code| + 2
  {
    hide Ok, Built, AddPreds;
    OkLists(h);
    BranchEnds(h, w);
    var a, b := NewBlock(h), NewBlock(NewBlock(h));
    var n, t := |g.code|, CondBr(w, |h.code|, |h.code| + 1);
    GrewNothing(g);
    BuiltEmitted(g, g, h, {g.insert}, {});
    BuiltBlock(g, h, {g.insert}, {});
    assert {g.insert} + {n} == {g.insert, n} && {} + {n} == {n};
    BuiltBlock(g, a, {g.insert, n}, {n});
    assert {g.insert, n} + {n + 1} == {g.insert, n, n + 1} && {n} + {n + 1} == {n, n + 1};
    OkLists(b);
    BuiltTerm(g, b, t, {g.insert, n, n + 1}, {n, n + 1});
    assert {g.insert, n, n + 1} - {g.insert} == {n, n + 1};
    assert {n, n + 1} - Later(t, h.insert) == {};
    AddPredsAt(b.preds, t, h.insert, n);
    AddPredsAt(b.preds, t, h.insert, n + 1);
    AddPredsLength(b.preds, t, h.insert);
  }

  lemma BranchedCode(gl: Globals, scope: Scope, g: Gen, h: Gen, e: Expr, w: Value)
    requires Ok(g) && TestDone(gl, scope, g, h, e, w)
    ensures |h.succs| == |h.code| == |g.code|
    ensures Branches(gl, scope, Branched(h, w).code, e, Here(g), Added(g, h), w, |g.code|, |g.code| + 1)
  {
    hide Ok, TestMeans;
    OkLists(h);
    AddedIsThere(g, h);
    CodeAtLater(h.code, Branched(h, w).code, Here(g), Added(g, h));
  }

  lemma BranchesLater(gl: Globals, scope: Scope, code: Code, code': Code, e: Expr, at: Place, ins: seq<Instr>, w: Value, yes: Block, no: Block)
    requires Branches(gl, scope, code, e, at, ins, w, yes, no) && Grows(code, code')
    ensures Branches(gl, scope, code', e, at, ins, w, yes, no)
  {
    hide TestMeans;
    GrowsAt(code, code', at.b);
  }

  lemma LeadsLater(code: Code, code': Code, at: Place, next: Block)
    requires CodeLeadsTo(code, at, next) && Grows(code, code')
    ensures CodeLeadsTo(code', at, next)
  {
    GrowsAt(code, code', at.b);
  }

  /** The end of a branch, unless the branch has left: an edge to the next block. */
  ghost function Joined(v: Gen, flag: bool, next: Block): Gen
    requires v.insert < |v.code| && v.insert < |v.succs|
  {
    if flag then v else Terminate(v, Br(next))
  }

  lemma BrEnds(v: Gen, next: Block)
    requires Ok(v) && Open(v) && 0 < next < |v.code|
    ensures |v.succs| == |v.code| && Ends(v, Br(next)) && Ok(Terminate(v, Br(next)))
  {
    hide ResultsOk, ListsOk;
    OkLists(v);
    TerminateKeeps(v, Br(next));
  }

  lemma JoinBuilt(g: Gen, v: Gen, flag: bool, next: Block, pending: set<Block>, loose: set<Block>)
    requires Built(g, v, pending, loose) && Ok(v) && FlagOk(v, flag) && Mine(g, v.insert) && Ok(g)
    requires |g.code| <= next < |v.preds| && |v.preds[next]| <= 1
    ensures |v.succs| == |v.code| && Ok(Joined(v, flag, next)) && Grows(v.code, Joined(v, flag, next).code)
    ensures Built(g, Joined(v, flag, next), pending - {v.insert}, if !flag && v.insert < next then loose - {next} else loose)
    ensures !flag ==> CodeLeadsTo(Joined(v, flag, next).code, Here(v), next)
  {
    hide Ok, Built, Grows, AddPreds;
    OkLists(v);
    OkLists(g);
    if flag {
      BuiltClosed(g, v, pending, loose, v.insert);
      GrowsRefl(v.code);
    } else {
      var t := Br(next);
      BrEnds(v, next);
      BuiltTerm(g, v, t, pending, loose);
      assert Later(t, v.insert) == if v.insert < next then {next} else {};
      assert v.insert >= next ==> loose - Later(t, v.insert) == loose;
    }
  }

  lemma GrowsRefl(code: Code)
    ensures Grows(code, code)
  {
  }

  /** The visit of a branch that begins in a new block. */
  lemma SideVisited(gl: Globals, scope: Scope, g: Gen, c: Gen, side: Block, v: Gen, s: Stmt, flag: bool, pending: set<Block>, loose: set<Block>)
    requires Built(g, c, pending, loose) && Ok(g) && |g.code| <= side < |c.code|
    requires StmtDone(gl, scope, c.(insert := side), false, v, s, flag)
    ensures Built(g, v, pending - {side} + {v.insert}, loose) && Grows(c.code, v.code) && Mine(g, v.insert)
    ensures Mine(c.(insert := side), v.insert) && |v.code| == |v.preds|
    ensures forall b: Block :: b < |c.code| ==> SameBlock(c.(insert := side), v, b)
  {
    hide Ok, Grows, StmtMeans;
    BuiltMove(g, c, side, pending, loose);
    BuiltVisit(g, c.(insert := side), v, pending, loose);
    OkLists(g);
  }

  lemma SelectionDone(gl: Globals, scope: Scope, g: Gen, h: Gen, cond: Expr, w: Value, v: Gen, s: Stmt, flag: bool)
    requires Ok(g) && TestDone(gl, scope, g, h, cond, w)
    requires |h.code| == |h.succs| == |g.code| && StmtDone(gl, scope, Branched(h, w).(insert := |g.code|), false, v, s, flag)
    ensures |v.succs| == |v.code|
    ensures StmtDone(gl, scope, g, false, Joined(v, flag, |g.code| + 1).(insert := |g.code| + 1), Selection(cond, s, None), false)
  {
    hide Ok, Built, Grows, StmtMeans, Branches, TestMeans, Branched, CodeLeadsTo, LocalOperand;
    var yes, next := |g.code|, |g.code| + 1;
    var c := Branched(h, w);
    BranchedBuilt(g, h, w);
    BranchedCode(gl, scope, g, h, cond, w);
    BranchedEmpty(h, w);
    SideVisited(gl, scope, g, c, yes, v, s, flag, {yes, next}, {});
    assert SameBlock(c.(insert := yes), v, next);
    JoinBuilt(g, v, flag, next, {yes, next} - {yes} + {v.insert}, {});
    var k := Joined(v, flag, next);
    var e := k.(insert := next);
    var left := {yes, next} - {yes} + {v.insert} - {v.insert};
    var none: set<Block> := {};
    assert left <= {next} && none - {next} == none;
    BuiltWeaker(g, k, left, {}, {next}, {});
    BuiltMove(g, k, next, {next}, {});
    NextOpen(c, yes, v, next, flag);
    MoveKeeps(k, next);
    GrowsTrans(c.code, v.code, k.code);
    BranchesLater(gl, scope, c.code, e.code, cond, Here(g), Added(g, h), w, yes, next);
    StmtMeansLater(gl, scope, v.code, e.code, s, Place(yes, 0), Here(v), flag);
    SelectionMeans(gl, scope, e.code, cond, s, Here(g), Added(g, h), w, yes, next, Here(v), flag);
  }

  lemma BranchedEmpty(h: Gen, w: Value)
    requires h.insert < |h.code| && h.insert < |h.succs|
    ensures |Branched(h, w).code| == |h.code| + 2
    ensures Branched(h, w).code[|h.code|] == Draft([], None) == Branched(h, w).code[|h.code| + 1]
  {
  }

  /** The block that follows is untouched by a side. */
  lemma NextOpen(c: Gen, side: Block, v: Gen, next: Block, flag: bool)
    requires side < |c.code| && next < |c.code| && side != next && SameBlock(c.(insert := side), v, next)
    requires Mine(c.(insert := side), v.insert) && v.insert < |v.code| && v.insert < |v.succs| && next < |v.code|
    ensures v.insert != next && Joined(v, flag, next).code[next] == c.code[next]
  {
  }

  // ---------------------------------------------------------------- if with else

  /** The end of a branch, unless the branch has left: an edge to a new block. */
  ghost function Linked(v: Gen, flag: bool): Gen
    requires v.insert < |v.code| == |v.succs|
  {
    if flag then v else Terminate(NewBlock(v), Br(|v.code|))
  }

  lemma LinkedBuilt(g: Gen, v: Gen, flag: bool, pending: set<Block>)
    requires Built(g, v, pending, {}) && Ok(v) && FlagOk(v, flag) && Mine(g, v.insert) && Ok(g)
    ensures |v.succs| == |v.code| && Ok(Linked(v, flag)) && Grows(v.code, Linked(v, flag).code)
    ensures Built(g, Linked(v, flag), pending - {v.insert} + (if flag then {} else {|v.code|}), {})
    ensures |Linked(v, flag).code| == |Linked(v, flag).preds| == |v.code| + (if flag then 0 else 1)
    ensures !flag ==>
              var k := Linked(v, flag);
              k.preds[|v.code|] == [v.insert] && k.code[|v.code|] == Draft([], None) && CodeLeadsTo(k.code, Here(v), |v.code|)
  {
    hide Ok, Built, Grows, AddPreds, ListsOk;
    OkLists(v);
    OkLists(g);
    if flag {
      BuiltClosed(g, v, pending, {}, v.insert);
      GrowsRefl(v.code);
      assert pending - {v.insert} + {} == pending - {v.insert};
    } else {
      var n := |v.code|;
      var b, t := NewBlock(v), Br(n);
      BuiltGrows(g, v, pending, {});
      BuiltBlock(g, v, pending, {});
      NewBlockKeeps(v);
      BrEnds(b, n);
      OkLists(b);
      assert {} + {n} == {n};
      BuiltTerm(g, b, t, pending + {n}, {n});
      assert {n} - Later(t, v.insert) == {};
      assert pending + {n} - {v.insert} == pending - {v.insert} + {n};
      GrowsTrans(v.code, b.code, Terminate(b, t).code);
      AddPredsAt(b.preds, t, v.insert, n);
      AddPredsLength(b.preds, t, v.insert);
    }
  }

  lemma BuiltGrows(g: Gen, h: Gen, pending: set<Block>, loose: set<Block>)
    requires Built(g, h, pending, loose)
    ensures |g.code| <= |h.code| == |h.preds| && Grows(g.code, h.code)
  {
  }

  /** The else side is visited first; the block that follows comes with the first
      side that does not leave. */
  ghost function BothJoined(v1: Gen, flag1: bool, flag2: bool, next: Block): Gen
    requires v1.insert < |v1.code| == |v1.succs|
  {
    if flag2 then Linked(v1, flag1) else Joined(v1, flag1, next)
  }

  lemma BothBuilt(g: Gen, k2: Gen, yes: Block, v1: Gen, flag1: bool, flag2: bool, next: Block)
    requires Ok(g) && Ok(v1) && FlagOk(v1, flag1) && Mine(g, v1.insert) && |g.code| <= yes
    requires Built(g, v1, {yes} + (if flag2 then {} else {next}) - {yes} + {v1.insert}, {})
    requires if flag2 then next == |v1.code| else |g.code| <= next < |v1.preds| && |v1.preds[next]| <= 1 && next != yes && v1.insert != next
    ensures |v1.succs| == |v1.code|
    ensures var k := BothJoined(v1, flag1, flag2, next);
      && Ok(k) && Grows(v1.code, k.code)
      && (if flag1 && flag2 then k == v1 && Built(g, k, {v1.insert}, {}) else Built(g, k, {next}, {}) && next < |k.code|)
      && (!flag1 ==> CodeLeadsTo(k.code, Here(v1), next))
      && (!flag1 && flag2 ==> k.code[next] == Draft([], None))
      && (!flag2 ==> k.code[next] == v1.code[next])
  {
    hide Ok, Built, Grows, ListsOk;
    OkLists(v1);
    OkLists(g);
    var pending := {yes} + (if flag2 then {} else {next}) - {yes} + {v1.insert};
    BuiltGrows(g, v1, pending, {});
    assert flag2 ==> pending == {v1.insert} && pending - {v1.insert} == {};
    assert !flag2 ==> pending - {v1.insert} == {next};
    var none: set<Block> := {};
    assert none - {next} == none && none + {next} == {next};
    if flag2 {
      LinkedBuilt(g, v1, flag1, pending);
      GrowsRefl(v1.code);
    } else {
      JoinBuilt(g, v1, flag1, next, pending, {});
    }
  }

  /** Where the visit of the else side leaves things. */
  lemma ElseVisited(gl: Globals, scope: Scope, g: Gen, h: Gen, w: Value, v2: Gen, other: Stmt, flag2: bool)
    requires Ok(g) && Ok(h) && Emitted(g, h) && LocalOperand(h, Int1(w))
    requires |h.code| == |h.succs| == |g.code| && StmtDone(gl, scope, Branched(h, w).(insert := |g.code| + 1), false, v2, other, flag2)
    ensures |v2.succs| == |v2.code| && Ok(v2) && v2.insert < |v2.code|
    ensures var k2 := Linked(v2, flag2);
      && Ok(k2) && Built(g, k2, {|g.code|} + (if flag2 then {} else {|v2.code|}), {})
      && Grows(Branched(h, w).code, v2.code) && Grows(v2.code, k2.code)
      && |g.code| + 2 <= |v2.code| && |k2.code| == |k2.preds| == |v2.code| + (if flag2 then 0 else 1)
      && k2.code[|g.code|] == Draft([], None)
      && (!flag2 ==> |k2.preds[|v2.code|]| == 1 && k2.code[|v2.code|] == Draft([], None) && CodeLeadsTo(k2.code, Here(v2), |v2.code|))
  {
    hide Ok, Built, Grows, StmtMeans, CodeLeadsTo, LocalOperand, AddPreds, ListsOk;
    var yes, no := |g.code|, |g.code| + 1;
    var c := Branched(h, w);
    BranchedBuilt(g, h, w);
    BranchedEmpty(h, w);
    SideVisited(gl, scope, g, c, no, v2, other, flag2, {yes, no}, {});
    assert SameBlock(c.(insert := no), v2, yes);
    assert {yes, no} - {no} + {v2.insert} == {yes, v2.insert};
    assert v2.insert != yes;
    assert {yes, v2.insert} - {v2.insert} == {yes};
    OkLists(v2);
    LinkedBuilt(g, v2, flag2, {yes, v2.insert});
  }

  lemma SelectionElseDone(gl: Globals, scope: Scope, g: Gen, h: Gen, cond: Expr, w: Value, v2: Gen, other: Stmt, flag2: bool,
                          v1: Gen, s: Stmt, flag1: bool, next: Block)
    requires Ok(g) && TestDone(gl, scope, g, h, cond, w)
    requires |h.code| == |h.succs| == |g.code| && StmtDone(gl, scope, Branched(h, w).(insert := |g.code| + 1), false, v2, other, flag2)
    requires |v2.succs| == |v2.code| && v2.insert < |v2.code| && StmtDone(gl, scope, Linked(v2, flag2).(insert := |g.code|), false, v1, s, flag1)
    requires next == if flag2 then |v1.code| else |v2.code|
    ensures |v1.succs| == |v1.code| && v1.insert < |v1.code|
    ensures var k := BothJoined(v1, flag1, flag2, next);
      var e := if flag1 && flag2 then k else k.(insert := next);
      StmtDone(gl, scope, g, false, e, Selection(cond, s, Some(other)), flag1 && flag2)
  {
    hide *;
    TestDoneIs(gl, scope, g, h, cond, w);
    TestLocal(gl, scope, g, h, cond, w);
    ElseVisited(gl, scope, g, h, w, v2, other, flag2);
    ElseGrew(gl, scope, g, h, w, v2, other, flag2, v1, s, flag1, next);
    ElseMeans(gl, scope, g, h, cond, w, v2, other, flag2, v1, s, flag1, next);
    ElseIs(gl, scope, g, v1, flag1, flag2, next, Selection(cond, s, Some(other)));
  }

  lemma TestLocal(gl: Globals, scope: Scope, g: Gen, h: Gen, e: Expr, w: Value)
    requires TestDone(gl, scope, g, h, e, w)
    ensures h.insert < |h.code| && LocalOperand(h, Int1(w))
  {
    hide Ok, TestMeans;
  }

  ghost function ElseEnd(v1: Gen, flag1: bool, flag2: bool, next: Block): Gen
    requires v1.insert < |v1.code| == |v1.succs|
  {
    var k := BothJoined(v1, flag1, flag2, next);
    if flag1 && flag2 then k else k.(insert := next)
  }

  lemma ElseIs(gl: Globals, scope: Scope, g: Gen, v1: Gen, flag1: bool, flag2: bool, next: Block, s: Stmt)
    requires v1.insert < |v1.code| == |v1.succs|
    requires StmtDone(gl, scope, g, false, ElseEnd(v1, flag1, flag2, next), s, flag1 && flag2)
    ensures var k := BothJoined(v1, flag1, flag2, next);
      StmtDone(gl, scope, g, false, if flag1 && flag2 then k else k.(insert := next), s, flag1 && flag2)
  {
    hide StmtDone, BothJoined;
  }

  /** The shape of it. */
  lemma ElseGrew(gl: Globals, scope: Scope, g: Gen, h: Gen, w: Value, v2: Gen, other: Stmt, flag2: bool, v1: Gen, s: Stmt, flag1: bool, next: Block)
    requires Ok(g) && Ok(h) && Emitted(g, h) && LocalOperand(h, Int1(w))
    requires |h.code| == |h.succs| == |g.code| && StmtDone(gl, scope, Branched(h, w).(insert := |g.code| + 1), false, v2, other, flag2)
    requires |v2.succs| == |v2.code| && v2.insert < |v2.code| && StmtDone(gl, scope, Linked(v2, flag2).(insert := |g.code|), false, v1, s, flag1)
    requires next == if flag2 then |v1.code| else |v2.code|
    ensures v1.insert < |v1.code| == |v1.succs|
    ensures var e := ElseEnd(v1, flag1, flag2, next);
      && Ok(e) && Grew(g, e) && FlagOk(e, flag1 && flag2)
      && Grows(Linked(v2, flag2).code, v1.code) && Grows(v1.code, e.code)
      && (!flag1 ==> CodeLeadsTo(e.code, Here(v1), next))
      && (!(flag1 && flag2) ==> Here(e) == Place(next, 0))
  {
    hide Ok, Built, Grows, StmtMeans, CodeLeadsTo, LocalOperand, ListsOk;
    var yes := |g.code|;
    var k2 := Linked(v2, flag2);
    ElseVisited(gl, scope, g, h, w, v2, other, flag2);
    var pending := {yes} + (if flag2 then {} else {|v2.code|});
    SideVisited(gl, scope, g, k2, yes, v1, s, flag1, pending, {});
    OkLists(v1);
    if !flag2 {
      assert SameBlock(k2.(insert := yes), v1, next);
    }
    BothBuilt(g, k2, yes, v1, flag1, flag2, next);
    var k := BothJoined(v1, flag1, flag2, next);
    if !(flag1 && flag2) {
      MoveKeeps(k, next);
      BuiltMove(g, k, next, {next}, {});
    }
  }

  /** What it does. */
  lemma ElseMeans(gl: Globals, scope: Scope, g: Gen, h: Gen, cond: Expr, w: Value, v2: Gen, other: Stmt, flag2: bool,
                  v1: Gen, s: Stmt, flag1: bool, next: Block)
    requires Ok(g) && TestDone(gl, scope, g, h, cond, w)
    requires |h.code| == |h.succs| == |g.code| && StmtDone(gl, scope, Branched(h, w).(insert := |g.code| + 1), false, v2, other, flag2)
    requires |v2.succs| == |v2.code| && v2.insert < |v2.code| && StmtDone(gl, scope, Linked(v2, flag2).(insert := |g.code|), false, v1, s, flag1)
    requires next == if flag2 then |v1.code| else |v2.code|
    requires v1.insert < |v1.code| == |v1.succs|
    requires var e := ElseEnd(v1, flag1, flag2, next);
      && Ok(e) && Grew(g, e) && FlagOk(e, flag1 && flag2) && Grows(Linked(v2, flag2).code, v1.code) && Grows(v1.code, e.code)
      && (!flag1 ==> CodeLeadsTo(e.code, Here(v1), next)) && (!(flag1 && flag2) ==> Here(e) == Place(next, 0))
    ensures StmtDone(gl, scope, g, false, ElseEnd(v1, flag1, flag2, next), Selection(cond, s, Some(other)), flag1 && flag2)
  {
    hide Ok, Built, Grew, Grows, StmtMeans, CodeLeadsTo, LocalOperand, ListsOk, Branched, Branches, TestMeans, Linked, ElseEnd, Here;
    var yes, no := |g.code|, |g.code| + 1;
    var c, k2, e := Branched(h, w), Linked(v2, flag2), ElseEnd(v1, flag1, flag2, next);
    TestLocal(gl, scope, g, h, cond, w);
    ElseVisited(gl, scope, g, h, w, v2, other, flag2);
    BranchedCode(gl, scope, g, h, cond, w);
    BranchedEmpty(h, w);
    HereAt(c.(insert := no));
    HereAt(k2.(insert := yes));
    GrowsTrans(k2.code, v1.code, e.code);
    GrowsTrans(v2.code, k2.code, e.code);
    GrowsTrans(c.code, v2.code, e.code);
    BranchesLater(gl, scope, c.code, e.code, cond, Here(g), Added(g, h), w, yes, no);
    StmtMeansLater(gl, scope, v2.code, e.code, other, Place(no, 0), Here(v2), flag2);
    StmtMeansLater(gl, scope, v1.code, e.code, s, Place(yes, 0), Here(v1), flag1);
    if !flag2 {
      LeadsLater(k2.code, e.code, Here(v2), next);
    }
    SelectionElseMeans(gl, scope, e.code, cond, s, other, Here(g), Added(g, h), w, yes, no, Here(v1), flag1, Here(v2), flag2, next);
    if flag1 && flag2 {
      EndedAnywhere(gl, scope, e.code, Selection(cond, s, Some(other)), Here(g), Place(next, 0), Here(e));
    }
  }

  lemma HereAt(g: Gen)
    requires g.insert < |g.code|
    ensures Here(g) == Place(g.insert, |g.code[g.insert].body|)
  {
  }

  lemma EndedAnywhere(gl: Globals, scope: Scope, code: Code, s: Stmt, from: Place, to: Place, to': Place)
    requires StmtMeans(gl, scope, code, s, from, to, true)
    ensures StmtMeans(gl, scope, code, s, from, to', true)
  {
    hide Completes, Matches, EvalStmt;
    forall m, f, st, t, k: nat | Completes(code, f) && Matches(scope, st, t)
      ensures StmtRuns(m, gl, scope, f, s, from, to', true, st, t, k)
    {
      assert StmtRuns(m, gl, scope, f, s, from, to, true, st, t, k);
    }
  }

  // ---------------------------------------------------------------- while

  /** In front of the condition: three new blocks and the edge to the first. */
  ghost function LoopBegun(g: Gen): Gen
    requires g.insert < |g.code| == |g.succs|
  {
    Terminate(NewBlock(NewBlock(NewBlock(g))), Br(|g.code|))
  }

  lemma LoopBlocks(g: Gen)
    requires Ok(g) && FlagOk(g, false)
    ensures |g.succs| == |g.code| == |g.preds|
    ensures var d := NewBlock(NewBlock(NewBlock(g))); var n := |g.code|;
      && Ok(d) && Built(g, d, {g.insert, n, n + 1, n + 2}, {n, n + 1, n + 2}) && |d.code| == |d.preds| == |d.succs| == n + 3
      && d.code == g.code + [Draft([], None), Draft([], None), Draft([], None)] && d.preds == g.preds + [[], [], []]
  {
    hide Ok, Built, ListsOk;
    OkLists(g);
    var n := |g.code|;
    var a := NewBlock(g);
    var b := NewBlock(a);
    GrewNothing(g);
    BuiltBlock(g, g, {g.insert}, {});
    assert {g.insert} + {n} == {g.insert, n} && {} + {n} == {n};
    BuiltBlock(g, a, {g.insert, n}, {n});
    assert {g.insert, n} + {n + 1} == {g.insert, n, n + 1} && {n} + {n + 1} == {n, n + 1};
    BuiltBlock(g, b, {g.insert, n, n + 1}, {n, n + 1});
    assert {g.insert, n, n + 1} + {n + 2} == {g.insert, n, n + 1, n + 2} && {n, n + 1} + {n + 2} == {n, n + 1, n + 2};
    NewBlockKeeps(g);
    NewBlockKeeps(a);
    NewBlockKeeps(b);
    assert g.code + [Draft([], None)] + [Draft([], None)] + [Draft([], None)] == g.code + [Draft([], None), Draft([], None), Draft([], None)];
    assert g.preds + [[]] + [[]] + [[]] == g.preds + [[], [], []];
  }

  lemma LoopBegins(g: Gen)
    requires Ok(g) && FlagOk(g, false)
    ensures |g.succs| == |g.code|
    ensures var c := LoopBegun(g);
      var n := |g.code|;
      && Ok(c) && Built(g, c, {n, n + 1, n + 2}, {n + 1, n + 2}) && |c.code| == |c.preds| == |c.succs| == n + 3
      && c.code[n] == c.code[n + 1] == c.code[n + 2] == Draft([], None)
      && c.preds[n] == [g.insert] && c.preds[n + 1] == [] == c.preds[n + 2] && CodeLeadsTo(c.code, Here(g), n)
    ensures Ends(NewBlock(NewBlock(NewBlock(g))), Br(|g.code|))
  {
    hide Ok, Built, ListsOk, AddPreds, NewBlock;
    var n := |g.code|;
    var d := NewBlock(NewBlock(NewBlock(g)));
    LoopBlocks(g);
    LoopStays(g);
    BrEnds(d, n);
    OkLists(d);
    BuiltTerm(g, d, Br(n), {g.insert, n, n + 1, n + 2}, {n, n + 1, n + 2});
    assert {g.insert, n, n + 1, n + 2} - {g.insert} == {n, n + 1, n + 2};
    assert {n, n + 1, n + 2} - Later(Br(n), g.insert) == {n + 1, n + 2};
    AddPredsAt(d.preds, Br(n), g.insert, n);
    AddPredsAt(d.preds, Br(n), g.insert, n + 1);
    AddPredsAt(d.preds, Br(n), g.insert, n + 2);
    AddPredsLength(d.preds, Br(n), g.insert);
  }

  lemma LoopStays(g: Gen)
    ensures NewBlock(NewBlock(NewBlock(g))).insert == g.insert
  {
  }

  /** Behind the condition: the branch to the body or out. */
  ghost function LoopTested(h: Gen, w: Value, n: Block): Gen
    requires h.insert < |h.code| == |h.succs|
  {
    Terminate(h, CondBr(w, n + 1, n + 2))
  }

  lemma LoopTests(g: Gen, c: Gen, h: Gen, w: Value)
    requires Ok(g) && FlagOk(g, false) && |g.succs| == |g.code| && c == LoopBegun(g)
    requires Ok(h) && Emitted(c.(insert := |g.code|), h) && LocalOperand(h, Int1(w))
    ensures |h.succs| == |h.code| == |g.code| + 3 && Ends(h, CondBr(w, |g.code| + 1, |g.code| + 2))
    ensures var n := |g.code|;
      var d := LoopTested(h, w, n);
      && Ok(d) && Built(g, d, {n + 1, n + 2}, {}) && Grows(c.code, d.code)
      && |d.code| == |d.preds| == n + 3
      && d.code[n + 1] == d.code[n + 2] == Draft([], None) && d.preds[n] == [g.insert]
  {
    hide Ok, Built, ListsOk, AddPreds, LoopBegun;
    LoopBegins(g);
    OkLists(g);
    OkLists(h);
    var n := |g.code|;
    var t := CondBr(w, n + 1, n + 2);
    BuiltMove(g, c, n, {n, n + 1, n + 2}, {n + 1, n + 2});
    BuiltEmitted(g, c.(insert := n), h, {n, n + 1, n + 2}, {n + 1, n + 2});
    TerminateKeeps(h, t);
    BuiltTerm(g, h, t, {n, n + 1, n + 2}, {n + 1, n + 2});
    assert {n, n + 1, n + 2} - {n} == {n + 1, n + 2};
    assert {n + 1, n + 2} - Later(t, n) == {};
    AddPredsAt(h.preds, t, n, n);
    AddPredsLength(h.preds, t, n);
    GrowsTrans(c.code, h.code, LoopTested(h, w, n).code);
  }

  lemma LoopTestCode(gl: Globals, scope: Scope, g: Gen, c: Gen, h: Gen, cond: Expr, w: Value)
    requires Ok(g) && FlagOk(g, false) && |g.succs| == |g.code| && c == LoopBegun(g)
    requires |g.code| < |c.code| && TestDone(gl, scope, c.(insert := |g.code|), h, cond, w)
    requires |h.succs| == |h.code| == |g.code| + 3 && c.code[|g.code|] == Draft([], None)
    ensures Branches(gl, scope, LoopTested(h, w, |g.code|).code, cond, Place(|g.code|, 0), Added(c.(insert := |g.code|), h), w, |g.code| + 1, |g.code| + 2)
  {
    hide Ok, TestMeans, LoopBegun;
    var s := c.(insert := |g.code|);
    AddedIsThere(s, h);
    CodeAtLater(h.code, LoopTested(h, w, |g.code|).code, Here(s), Added(s, h));
  }

  lemma IterationDone(gl: Globals, scope: Scope, g: Gen, c: Gen, h: Gen, cond: Expr, w: Value, v: Gen, s: Stmt, flag: bool)
    requires Ok(g) && FlagOk(g, false) && |g.succs| == |g.code| && c == LoopBegun(g)
    requires TestDone(gl, scope, c.(insert := |g.code|), h, cond, w) && |h.succs| == |h.code|
    requires StmtDone(gl, scope, LoopTested(h, w, |g.code|).(insert := |g.code| + 1), false, v, s, flag)
    ensures |v.succs| == |v.code| && v.insert < |v.code|
    ensures StmtDone(gl, scope, g, false, Joined(v, flag, |g.code|).(insert := |g.code| + 2), Iteration(cond, s), false)
  {
    hide Ok, Built, Grows, StmtMeans, Branches, TestMeans, LoopBegun, LoopTested, CodeLeadsTo, LocalOperand, Joined;
    var n := |g.code|;
    LoopBegins(g);
    TestDoneIs(gl, scope, c.(insert := n), h, cond, w);
    TestLocal(gl, scope, c.(insert := n), h, cond, w);
    LoopTests(g, c, h, w);
    LoopTestCode(gl, scope, g, c, h, cond, w);
    var d := LoopTested(h, w, n);
    SideVisited(gl, scope, g, d, n + 1, v, s, flag, {n + 1, n + 2}, {});
    assert SameBlock(d.(insert := n + 1), v, n) && SameBlock(d.(insert := n + 1), v, n + 2);
    JoinBuilt(g, v, flag, n, {n + 1, n + 2} - {n + 1} + {v.insert}, {});
    var k := Joined(v, flag, n);
    var e := k.(insert := n + 2);
    var left := {n + 1, n + 2} - {n + 1} + {v.insert} - {v.insert};
    var none: set<Block> := {};
    assert left <= {n + 2} && none - {n} == none;
    BuiltWeaker(g, k, left, {}, {n + 2}, {});
    BuiltMove(g, k, n + 2, {n + 2}, {});
    OutOpen(d, n + 1, v, n, n + 2, flag);
    MoveKeeps(k, n + 2);
    GrowsTrans(d.code, v.code, k.code);
    GrowsTrans(c.code, d.code, k.code);
    BranchesLater(gl, scope, d.code, e.code, cond, Place(n, 0), Added(c.(insert := n), h), w, n + 1, n + 2);
    StmtMeansLater(gl, scope, v.code, e.code, s, Place(n + 1, 0), Here(v), flag);
    LeadsLater(c.code, e.code, Here(g), n);
    IterationMeans(gl, scope, e.code, cond, s, Here(g), n, Added(c.(insert := n), h), w, n + 1, n + 2, Here(v), flag);
  }

  lemma OutOpen(d: Gen, body: Block, v: Gen, judge: Block, out: Block, flag: bool)
    requires body < |d.code| && out < |d.code| && body != out && SameBlock(d.(insert := body), v, out)
    requires Mine(d.(insert := body), v.insert) && v.insert < |v.code| && v.insert < |v.succs| && out < |v.code|
    ensures v.insert != out && Joined(v, flag, judge).code[out] == d.code[out] && |Joined(v, flag, judge).code| == |v.code|
  {
  }
}
