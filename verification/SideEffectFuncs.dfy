/** The scan for functions with side effects, as two passes make it: dead code removal
    of all functions, and reuse of expressions with the functions exempt that take no
    arguments. */
module SideEffectFuncs {
  import opened Arithmetic
  import opened Cfg
  import opened ArrayIr
  import opened SideEffects
  import opened EffectCode

  // ---------------------------------------------------------------- the call graph

  ghost predicate AllCallsIn(p: Program, main: nat, funcs: set<nat>) {
    p.Keys <= funcs && forall f: nat, c: nat {:trigger CallsOf(p[f], c)} :: f in p && f != main && CallsOf(p[f], c) ==> c in funcs
  }

  /** What the scan of all functions has found. */
  ghost predicate Scanned(p: Program, main: nat, exempt: set<nat>, funcs: set<nat>, done: set<nat>, side: set<nat>, callList: set<(nat, nat)>) {
    && (forall f {:trigger f in side} :: f in side ==> f in funcs && Effects(p, main, exempt, f))
    && (forall f {:trigger f in done} :: f in done && Root(p, main, exempt, f) ==> f in side)
    && (forall x {:trigger x in callList} :: x in callList ==> x.1 in p && x.1 != main && CallsOf(p[x.1], x.0))
    && (forall f: nat, c: nat {:trigger CallsOf(p[f], c)} :: f in done && f in p && f != main && CallsOf(p[f], c) ==> (c, f) in callList || f in side)
  }

  /** No call leads from outside the set into it. */
  ghost predicate NoCallIn(side: set<nat>, callList: set<(nat, nat)>) {
    forall x {:trigger x in callList} :: x in callList ==> x.1 !in side && x.0 !in side
  }

  lemma ScannedExact(p: Program, main: nat, exempt: set<nat>, funcs: set<nat>, side: set<nat>, callList: set<(nat, nat)>)
    requires AllCallsIn(p, main, funcs) && Scanned(p, main, exempt, funcs, funcs, side, callList) && NoCallIn(side, callList)
    ensures side == set f | f in funcs && Effects(p, main, exempt, f)
  {
    hide Root, CallsOf;
    forall f | f in funcs && Effects(p, main, exempt, f)
      ensures f in side
    {
      var w :| CallChain(p, main, exempt, w, f);
      forall g, c | g in funcs && g in p && g != main && CallsOf(p[g], c)
        ensures c in funcs && (c in side ==> g in side)
      {
        if g !in side {
          assert (c, g) in callList;
        }
      }
      ClosedHolds(p, main, exempt, funcs, side, w, f);
    }
  }

  lemma CallsHere(f: Func, b: Block, i: nat)
    requires b < |f| && i < |f[b].body| && f[b].body[i].Call?
    ensures CallsOf(f, f[b].body[i].callee)
  {
    assert In(f, b, i);
  }

  ghost predicate CallBefore(f: Func, b: nat, i: nat, c: nat) {
    exists d, j {:trigger In(f, d, j)} :: In(f, d, j) && (d < b || (d == b && j < i)) && f[d].body[j].Call? && f[d].body[j].callee == c
  }

  ghost predicate StoreBefore(f: Func, b: nat, i: nat) {
    exists d, j {:trigger In(f, d, j)} :: In(f, d, j) && (d < b || (d == b && j < i)) && OuterStore(f, f[d].body[j])
  }

  class SideEffectScan {
    var sideEffectFunc: set<nat>

    constructor ()
      ensures sideEffectFunc == {}
    {
      sideEffectFunc := {};
    }

    /** Looks for a store; the calls before it are collected. */
    method ScanFunction(f: Func) returns (sideEffect: bool, calls: set<nat>)
      ensures sideEffect <==> HasStore(f)
      ensures forall c :: c in calls ==> CallsOf(f, c)
      ensures !sideEffect ==> forall c {:trigger CallsOf(f, c)} :: CallsOf(f, c) ==> c in calls
    {
      sideEffect, calls := false, {};
      var b := 0;
      while b < |f| && !sideEffect
        invariant b <= |f| && (sideEffect ==> HasStore(f)) && (!sideEffect ==> !StoreBefore(f, b, 0))
        invariant forall c :: c in calls ==> CallsOf(f, c)
        invariant !sideEffect ==> forall c {:trigger CallBefore(f, b, 0, c)} :: CallBefore(f, b, 0, c) ==> c in calls
      {
        var i := 0;
        while i < |f[b].body| && !sideEffect
          invariant i <= |f[b].body| && (sideEffect ==> HasStore(f)) && (!sideEffect ==> !StoreBefore(f, b, i))
          invariant forall c :: c in calls ==> CallsOf(f, c)
          invariant !sideEffect ==> forall c {:trigger CallBefore(f, b, i, c)} :: CallBefore(f, b, i, c) ==> c in calls
        {
          var inst := f[b].body[i];
          ScanStep(f, b, i);
          if OuterStore(f, inst) {
            sideEffect := true;
          } else if inst.Call? {
            CallsHere(f, b, i);
            calls := calls + {inst.callee};
          }
          i := i + 1;
        }
        if !sideEffect {
          ScanBlock(f, b);
        }
        b := b + 1;
      }
      if !sideEffect {
        ScanAll(f);
      }
    }

    static lemma ScanStep(f: Func, b: nat, i: nat)
      requires In(f, b, i)
      ensures StoreBefore(f, b, i + 1) <==> StoreBefore(f, b, i) || OuterStore(f, f[b].body[i])
      ensures forall c {:trigger CallBefore(f, b, i + 1, c)} ::
                CallBefore(f, b, i + 1, c) <==> CallBefore(f, b, i, c) || (f[b].body[i].Call? && f[b].body[i].callee == c)
    {
    }

    static lemma ScanBlock(f: Func, b: nat)
      requires b < |f|
      ensures StoreBefore(f, b + 1, 0) <==> StoreBefore(f, b, |f[b].body|)
      ensures forall c {:trigger CallBefore(f, b + 1, 0, c)} :: CallBefore(f, b + 1, 0, c) <==> CallBefore(f, b, |f[b].body|, c)
    {
    }

    static lemma ScanAll(f: Func)
      ensures StoreBefore(f, |f|, 0) <==> HasStore(f)
      ensures forall c {:trigger CallsOf(f, c)} :: CallBefore(f, |f|, 0, c) <==> CallsOf(f, c)
    {
    }

    /** One pass over the calls that are left. */
    method Spread(callList: set<(nat, nat)>, ghost p: Program, ghost main: nat, ghost exempt: set<nat>, ghost funcs: set<nat>) returns (changed: bool, left: set<(nat, nat)>)
      requires AllCallsIn(p, main, funcs) && Scanned(p, main, exempt, funcs, funcs, sideEffectFunc, callList)
      modifies this`sideEffectFunc
      ensures Scanned(p, main, exempt, funcs, funcs, sideEffectFunc, left) && left <= callList
      ensures if changed then left < callList else NoCallIn(sideEffectFunc, left)
    {
      hide Effects, CallsOf, Root;
      changed := false;
      var removeCalls: set<(nat, nat)> := {};
      var rest := callList;
      ghost var first := sideEffectFunc;
      while rest != {}
        invariant rest <= callList && removeCalls <= callList - rest
        invariant Scanned(p, main, exempt, funcs, funcs, sideEffectFunc, callList)
        invariant forall x :: x in removeCalls ==> x.1 in sideEffectFunc
        invariant first <= sideEffectFunc && (changed ==> removeCalls != {}) && (!changed ==> first == sideEffectFunc)
        invariant forall x :: x in callList - rest - removeCalls ==> x.1 !in first && x.0 !in first
      {
        var curCall :| curCall in rest;
        if curCall.1 in sideEffectFunc {
          removeCalls := removeCalls + {curCall};
        } else if curCall.0 in sideEffectFunc {
          CallerEffects(p, main, exempt, curCall.1, curCall.0);
          removeCalls := removeCalls + {curCall};
          sideEffectFunc := sideEffectFunc + {curCall.1};
          changed := true;
        }
        rest := rest - {curCall};
      }
      left := callList - removeCalls;
      if changed {
        var x :| x in removeCalls;
        assert x in callList && x !in left;
      }
    }

    static function Calls(calls: set<nat>, func: nat): set<(nat, nat)> { set c | c in calls :: (c, func) }

    /** One more function is scanned. */
    static lemma ScannedOne(p: Program, main: nat, exempt: set<nat>, funcs: set<nat>, done: set<nat>, side: set<nat>, callList: set<(nat, nat)>, func: nat,
                            side': set<nat>, callList': set<(nat, nat)>)
      requires Scanned(p, main, exempt, funcs, done, side, callList) && func in funcs
      requires side <= side' <= side + {func} && callList <= callList' && (func in side' ==> Effects(p, main, exempt, func)) && (Root(p, main, exempt, func) ==> func in side')
      requires forall x :: x in callList' - callList ==> x.1 == func && func in p && func != main && CallsOf(p[func], x.0)
      requires func in p && func != main && func !in side' ==> forall c: nat {:trigger CallsOf(p[func], c)} :: CallsOf(p[func], c) ==> (c, func) in callList'
      ensures Scanned(p, main, exempt, funcs, done + {func}, side', callList')
    {
      hide Effects, CallsOf, Root;
      forall x | x in callList'
        ensures x.1 in p && x.1 != main && CallsOf(p[x.1], x.0)
      {
        assert x in callList || x in callList' - callList;
      }
    }

    /** Exactly the functions from which calls lead to an effect. */
    method Init(p: Program, main: nat, exempt: set<nat>, funcs: set<nat>)
      requires AllCallsIn(p, main, funcs) && sideEffectFunc == {}
      modifies this`sideEffectFunc
      ensures sideEffectFunc == set f | f in funcs && Effects(p, main, exempt, f)
      ensures HarmfulOnly(p, main, exempt, funcs, sideEffectFunc)
    {
      hide Effects, CallsOf, HarmfulOnly;
      var callList: set<(nat, nat)> := {};
      var rest := funcs;
      while rest != {}
        invariant rest <= funcs && Scanned(p, main, exempt, funcs, funcs - rest, sideEffectFunc, callList)
      {
        var func :| func in rest;
        ghost var side0, list0 := sideEffectFunc, callList;
        if func !in p || func == main {
          if func !in exempt {
            RootEffects(p, main, exempt, func);
            sideEffectFunc := sideEffectFunc + {func};
          }
        } else {
          var sideEffect, calls := ScanFunction(p[func]);
          if sideEffect {
            RootEffects(p, main, exempt, func);
            sideEffectFunc := sideEffectFunc + {func};
          }
          callList := callList + Calls(calls, func);
        }
        ScannedOne(p, main, exempt, funcs, funcs - rest, side0, list0, func, sideEffectFunc, callList);
        assert funcs - rest + {func} == funcs - (rest - {func});
        rest := rest - {func};
      }
      assert funcs - rest == funcs;
      var changed := true;
      while changed
        invariant Scanned(p, main, exempt, funcs, funcs, sideEffectFunc, callList)
        invariant !changed ==> NoCallIn(sideEffectFunc, callList)
        decreases callList, changed
      {
        changed, callList := Spread(callList, p, main, exempt, funcs);
      }
      ScannedExact(p, main, exempt, funcs, sideEffectFunc, callList);
      EffectsAreHarmful(p, main, exempt, funcs, sideEffectFunc);
    }
  }
}
