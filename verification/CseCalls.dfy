/** The reuse of expressions in a whole program, and the calls of main. */
module CseCalls {
  import opened Arithmetic
  import opened Cfg
  import opened ArrayIr
  import opened ArraySsa
  import opened SideEffects
  import opened SideEffectFuncs
  import opened EffectCode
  import opened CseTables
  import opened CseFacts
  import opened CseSteps
  import opened CseMeaning
  import opened CseFinds
  import C = CommonSubExper

  // ---------------------------------------------------------------- who calls main

  ghost predicate MainCalled(p: Program, main: nat) { exists f :: f in p && CallsOf(p[f], main) }

  /** A call of c in f relies on c having no effects, and only main's being exempt
      hides one. */
  ghost predicate Relies(p: Program, main: nat, noArgs: set<nat>, f: nat, c: nat) {
    f in p && CallsOf(p[f], c) && !Effects(p, main, noArgs, c) && Effects(p, main, noArgs - {main}, c)
  }

  lemma MainNoEffects(p: Program, main: nat, noArgs: set<nat>)
    requires main in noArgs
    ensures !Effects(p, main, noArgs, main)
  {
    forall w
      ensures !CallChain(p, main, noArgs, w, main)
    {
    }
  }

  /** For a main without parameters: some function calls it iff some call relies on
      what its exemption hides. */
  lemma MainMatters(p: Program, main: nat, noArgs: set<nat>)
    requires main in noArgs
    ensures MainCalled(p, main) <==> exists f, c :: Relies(p, main, noArgs, f, c)
  {
    hide Effects, CallsOf, LeadsTo;
    if MainCalled(p, main) {
      var f :| f in p && CallsOf(p[f], main);
      MainNoEffects(p, main, noArgs);
      RootEffects(p, main, noArgs - {main}, main);
      assert Relies(p, main, noArgs, f, main);
    }
    if f, c :| Relies(p, main, noArgs, f, c) {
      ExemptMain(p, main, noArgs, c);
      var w :| LeadsTo(p, main, w, c);
      LastCalls(p, main, w, c, f);
    }
  }

  lemma LastCalls(p: Program, main: nat, w: seq<nat>, c: nat, f: nat)
    requires LeadsTo(p, main, w, c) && f in p && CallsOf(p[f], c)
    ensures MainCalled(p, main)
  {
    hide CallsOf;
    if |w| > 1 {
      assert w[|w| - 2] in p && CallsOf(p[w[|w| - 2]], w[|w| - 1]);
    }
  }

  /** Calls of functions outside the set leave memory alone where no calls lead from
      them to main: cached loads may stay. */
  lemma SetIsQuiet(p: Program, main: nat, noArgs: set<nat>, ext: Outside, fuel: nat, depth: nat, frame: nat, args: seq<Datum>, out: seq<int>, c: nat)
    requires depth > 0 && AllOneMaker(p) && ExemptQuiet(ext, noArgs - {main})
    requires !Effects(p, main, noArgs, c) && forall w :: !LeadsTo(p, main, w, c)
    ensures QuietAt(Inside(p, ext, fuel, depth, frame, args, out), c)
  {
    hide Effects, OneMaker, LeadsTo;
    var m := Inside(p, ext, fuel, depth, frame, args, out);
    ExemptMain(p, main, noArgs, c);
    forall a, mem, oo | m.callees(c, a, mem, oo).Reply?
      ensures m.callees(c, a, mem, oo).mem == mem
    {
      assert m.callees(c, a, mem, oo) == CallIn(p, ext, fuel, depth - 1, frame + 1, c, a, mem, out + oo);
      NoEffects(p, main, noArgs - {main}, ext, fuel, depth - 1, frame + 1, c, a, mem, out + oo);
    }
  }

  /** If no function calls main, all calls that keep the loads are quiet. */
  lemma CallsAreQuiet(p: Program, main: nat, noArgs: set<nat>, side: set<nat>, ext: Outside, fuel: nat, depth: nat, frame: nat, args: seq<Datum>,
                      out: seq<int>, f: nat)
    requires depth > 0 && AllOneMaker(p) && ExemptQuiet(ext, noArgs - {main}) && !MainCalled(p, main) && f in p
    requires forall c :: CallsOf(p[f], c) && c !in side ==> !Effects(p, main, noArgs, c)
    ensures CallsQuiet(Inside(p, ext, fuel, depth, frame, args, out), p[f], side)
  {
    hide Effects, OneMaker, LeadsTo, QuietAt, CallsOf, MainCalled;
    forall b: nat, i: nat | b < |p[f]| && i < |p[f][b].body| && p[f][b].body[i].Call? && p[f][b].body[i].callee !in side
      ensures QuietAt(Inside(p, ext, fuel, depth, frame, args, out), p[f][b].body[i].callee)
    {
      var c := p[f][b].body[i].callee;
      CallsHere(p[f], b, i);
      forall w
        ensures !LeadsTo(p, main, w, c)
      {
        if LeadsTo(p, main, w, c) {
          LastCalls(p, main, w, c, f);
        }
      }
      SetIsQuiet(p, main, noArgs, ext, fuel, depth, frame, args, out, c);
    }
  }

  // ---------------------------------------------------------------- the program afterwards

  /** Every function has a form the pass can rely on. */
  ghost predicate Formed(p: Program, forms: map<nat, SsaFunc>, arrays: set<nat>) {
    p.Keys == forms.Keys && forall f {:trigger p[f]} {:trigger forms[f]} :: f in p ==>
      forms[f].f == p[f] && |p[f]| == |forms[f].g.preds| && Fit(forms[f], arrays) && FlowsDown(forms[f].g) && PassesOn(p[f], arrays)
  }

  /** The pass comes back from every function. */
  ghost predicate AllFinish(forms: map<nat, SsaFunc>) { forall f {:trigger forms[f]} :: f in forms ==> Finishes(forms[f].g) }

  /** The pass has been over every function. */
  ghost predicate AllRewritten(p: Program, forms: map<nat, SsaFunc>, side: set<nat>, p': Program) {
    p'.Keys == p.Keys == forms.Keys && forall f {:trigger p[f]} {:trigger p'[f]} :: f in p ==>
      |forms[f].f| == |forms[f].g.preds| && Finishes(forms[f].g) && Rewritten(p[f], Replaced(forms[f], side), p'[f])
  }

  lemma FormedAt(p: Program, forms: map<nat, SsaFunc>, arrays: set<nat>, f: nat)
    requires Formed(p, forms, arrays) && f in p
    ensures f in forms && forms[f].f == p[f] && |p[f]| == |forms[f].g.preds| && Fit(forms[f], arrays) && FlowsDown(forms[f].g) && PassesOn(p[f], arrays) && forms[f].Valid()
  {
    hide FlowsDown, PassesOn, SsaFunc.Valid, PointersOk;
  }

  lemma RewrittenAt(p: Program, forms: map<nat, SsaFunc>, side: set<nat>, p': Program, f: nat)
    requires AllRewritten(p, forms, side, p') && f in p
    ensures f in p' && f in forms && |forms[f].f| == |forms[f].g.preds| && Finishes(forms[f].g) && Rewritten(p[f], Replaced(forms[f], side), p'[f])
  {
    hide Rewritten;
  }

  lemma FormIsOneMaker(c: SsaFunc)
    requires c.Valid()
    ensures OneMaker(c.f)
  {
    hide SsaFunc.Edges, Dom;
    forall b, i, x, j
      ensures SameMade(c.f, b, i, x, j)
    {
      if In(c.f, b, i) && In(c.f, x, j) {
        assert c.InstrOk(b, i) && c.InstrOk(x, j);
      }
    }
    forall b, i, x, k
      ensures PhiApart(c.f, b, i, x, k)
    {
      if In(c.f, b, i) && 0 <= x < |c.f| && 0 <= k < |c.f[x].phis| {
        assert c.InstrOk(b, i) && c.PhiOk(x, k);
      }
    }
  }

  lemma AllFormsOneMaker(p: Program, forms: map<nat, SsaFunc>, arrays: set<nat>)
    requires Formed(p, forms, arrays)
    ensures AllOneMaker(p)
  {
    hide OneMaker, Formed;
    forall f | f in p
      ensures OneMaker(p[f])
    {
      FormedAt(p, forms, arrays, f);
      FormIsOneMaker(forms[f]);
    }
  }

  /** All calls that are made are of functions of the set or without effects. */
  ghost predicate SideOk(p: Program, main: nat, noArgs: set<nat>, side: set<nat>) {
    forall f, c {:trigger CallsOf(p[f], c)} :: f in p && CallsOf(p[f], c) && c !in side ==> !Effects(p, main, noArgs, c)
  }

  /** If no function calls main, every call does what it did, at any depth. */
  lemma {:induction false} CallsStay(p: Program, main: nat, noArgs: set<nat>, side: set<nat>, forms: map<nat, SsaFunc>, arrays: set<nat>, p': Program,
                                     ext: Outside, fuel: nat, depth: nat, frame: nat, f: nat, args: seq<Datum>, mem: Mem, out: seq<int>)
    requires Formed(p, forms, arrays) && AllRewritten(p, forms, side, p') && SideOk(p, main, noArgs, side)
    requires ExemptQuiet(ext, noArgs - {main}) && !MainCalled(p, main) && AllForeign(frame, arrays, args)
    ensures CallIn(p', ext, fuel, depth, frame, f, args, mem, out) == CallIn(p, ext, fuel, depth, frame, f, args, mem, out)
    decreases depth
  {
    hide Formed, AllRewritten, Effects, CallsOf, MainCalled, AllForeign, Execute, ExemptQuiet, AllOneMaker;
    KeysStay(p, forms, side, p');
    if f in p && depth > 0 {
      var m, m' := Inside(p, ext, fuel, depth, frame, args, out), Inside(p', ext, fuel, depth, frame, args, out);
      AllFormsOneMaker(p, forms, arrays);
      FormedAt(p, forms, arrays, f);
      RewrittenAt(p, forms, side, p', f);
      forall c, a, mm, oo | AllForeign(frame + 1, arrays, a)
        ensures m'.callees(c, a, mm, oo) == m.callees(c, a, mm, oo)
      {
        CallsStay(p, main, noArgs, side, forms, arrays, p', ext, fuel, depth - 1, frame + 1, c, a, mm, out + oo);
      }
      SideAt(p, main, noArgs, side, f);
      CallsAreQuiet(p, main, noArgs, side, ext, fuel, depth, frame, args, out, f);
      FunctionStays(forms[f], arrays, side, m, m', p'[f], mem, fuel);
    }
  }

  lemma KeysStay(p: Program, forms: map<nat, SsaFunc>, side: set<nat>, p': Program)
    requires AllRewritten(p, forms, side, p')
    ensures p'.Keys == p.Keys
  {
  }

  lemma SideAt(p: Program, main: nat, noArgs: set<nat>, side: set<nat>, f: nat)
    requires SideOk(p, main, noArgs, side) && f in p
    ensures forall c :: CallsOf(p[f], c) && c !in side ==> !Effects(p, main, noArgs, c)
  {
    hide Effects, CallsOf;
  }

  lemma FunctionStays(c: SsaFunc, arrays: set<nat>, side: set<nat>, m: Machine, m': Machine, f': Func, mem: Mem, fuel: nat)
    requires Fit(c, arrays) && FlowsDown(c.g) && PassesOn(c.f, arrays) && AllForeign(m.frame, arrays, m.args) && CallsQuiet(m, c.f, side)
    requires m'.frame == m.frame && m'.args == m.args && |c.f| == |c.g.preds| && Finishes(c.g) && Rewritten(c.f, Replaced(c, side), f')
    requires forall f, a, mm, oo {:trigger m.callees(f, a, mm, oo)} {:trigger m'.callees(f, a, mm, oo)} ::
      AllForeign(m.frame + 1, arrays, a) ==> m'.callees(f, a, mm, oo) == m.callees(f, a, mm, oo)
    ensures Execute(m', f', mem, fuel) == Execute(m, c.f, mem, fuel)
  {
    hide Fit, FlowsDown, Finishes, PassesOn, AllForeign, CallsQuiet, Execute, Rewritten;
    PassPreservesRuns(c, arrays, side, m, m', f', mem, fuel);
  }

  // ---------------------------------------------------------------- the pass on a program

  /** The functions with side effects, where main and declarations are left out if
      they take no arguments. */
  method InitSideEffectFunc(p: Program, main: nat, noArgs: set<nat>, funcs: set<nat>) returns (sideEffectFunc: set<nat>)
    requires AllCallsIn(p, main, funcs)
    ensures sideEffectFunc == set f | f in funcs && Effects(p, main, noArgs, f)
    ensures HarmfulOnly(p, main, noArgs, funcs, sideEffectFunc)
  {
    hide Effects, HarmfulOnly;
    var scan := new SideEffectScan();
    scan.Init(p, main, noArgs, funcs);
    sideEffectFunc := scan.sideEffectFunc;
  }

  lemma ScanIsOk(p: Program, main: nat, noArgs: set<nat>, funcs: set<nat>, side: set<nat>)
    requires AllCallsIn(p, main, funcs) && (main in p ==> forall c: nat {:trigger CallsOf(p[main], c)} :: CallsOf(p[main], c) ==> c in funcs)
    requires side == set f | f in funcs && Effects(p, main, noArgs, f)
    ensures SideOk(p, main, noArgs, side)
  {
    hide Effects, CallsOf;
  }

  /** All functions. The pass finishes iff it does on each of them. Then what becomes of
      each is what its tables give; and if no function calls main, no call can tell the
      difference. */
  method Run(turns: nat, p: Program, main: nat, noArgs: set<nat>, funcs: set<nat>, forms: map<nat, SsaFunc>, ghost arrays: set<nat>)
    returns (ended: bool, p': Program, ghost side: set<nat>)
    requires AllCallsIn(p, main, funcs) && (main in p ==> forall c: nat {:trigger CallsOf(p[main], c)} :: CallsOf(p[main], c) ==> c in funcs)
    requires Formed(p, forms, arrays)
    ensures side == (set f | f in funcs && Effects(p, main, noArgs, f)) && HarmfulOnly(p, main, noArgs, funcs, side)
    ensures ended <==> AllFinish(forms)
    ensures ended ==> AllRewritten(p, forms, side, p')
    ensures ended ==> forall f {:trigger p'[f]} :: f in p' ==> f in forms && NothingMissed(forms[f], side, p'[f])
    ensures ended && !MainCalled(p, main) ==>
      forall ext, fuel, depth, frame, f, args, mem, out {:trigger CallIn(p', ext, fuel, depth, frame, f, args, mem, out)} ::
        ExemptQuiet(ext, noArgs - {main}) && AllForeign(frame, arrays, args) ==>
          CallIn(p', ext, fuel, depth, frame, f, args, mem, out) == CallIn(p, ext, fuel, depth, frame, f, args, mem, out)
  {
    hide Effects, HarmfulOnly, CallsOf, Formed, AllRewritten, MainCalled, AllForeign, ExemptQuiet, CallIn, Ready, PassesOn, Agree, Execute, SsaFunc.Valid, Fit, FlowsDown, Finishes,
      MakersOf, Rewritten, NothingMissed;
    var sideEffectFunc := InitSideEffectFunc(p, main, noArgs, funcs);
    side := sideEffectFunc;
    p' := map[];
    FormedKeys(p, forms, arrays);
    var rest := p.Keys;
    while rest != {}
      invariant rest <= p.Keys && p'.Keys == p.Keys - rest
      invariant forall f {:trigger f in p'} :: f in p' ==>
        f in forms && |forms[f].f| == |forms[f].g.preds| && Finishes(forms[f].g) && Rewritten(p[f], Replaced(forms[f], side), p'[f])
      invariant forall f {:trigger p'[f]} :: f in p' ==> f in forms && NothingMissed(forms[f], side, p'[f])
      decreases rest
    {
      var f :| f in rest;
      FormedAt(p, forms, arrays, f);
      var pass := new C.CommonSubExper(forms[f].g.preds, MakersOf(forms[f]), sideEffectFunc, p[f]);
      ended := pass.Run(turns, forms[f]);
      if !ended {
        return;
      }
      p' := p'[f := pass.blocks];
      rest := rest - {f};
    }
    ended := true;
    MakeRewritten(p, forms, side, p', arrays);
    ScanIsOk(p, main, noArgs, funcs, side);
    if !MainCalled(p, main) {
      forall ext, fuel, depth, frame, f, args, mem, out | ExemptQuiet(ext, noArgs - {main}) && AllForeign(frame, arrays, args)
        ensures CallIn(p', ext, fuel, depth, frame, f, args, mem, out) == CallIn(p, ext, fuel, depth, frame, f, args, mem, out)
      {
        CallsStay(p, main, noArgs, side, forms, arrays, p', ext, fuel, depth, frame, f, args, mem, out);
      }
    }
  }

  lemma FormedKeys(p: Program, forms: map<nat, SsaFunc>, arrays: set<nat>)
    requires Formed(p, forms, arrays)
    ensures p.Keys == forms.Keys
  {
  }

  lemma MakeRewritten(p: Program, forms: map<nat, SsaFunc>, side: set<nat>, p': Program, arrays: set<nat>)
    requires Formed(p, forms, arrays) && p'.Keys == p.Keys
    requires forall f {:trigger f in p'} :: f in p' ==>
      f in forms && |forms[f].f| == |forms[f].g.preds| && Finishes(forms[f].g) && Rewritten(p[f], Replaced(forms[f], side), p'[f])
    ensures AllRewritten(p, forms, side, p') && AllFinish(forms)
  {
    hide Rewritten, Fit, FlowsDown, PassesOn, Finishes;
  }
}
