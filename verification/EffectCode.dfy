/** Which functions have effects, told from their instructions. */
module EffectCode {
  import opened Cfg
  import opened ArrayIr
  import opened SideEffects

  ghost predicate Occurs(f: Func, w: Instr) { exists b, i {:trigger In(f, b, i)} :: In(f, b, i) && f[b].body[i] == w }

  /** The address is what a gep makes, with any offset, from what an alloca makes. */
  ghost predicate ToOwnArray(f: Func, w: Instr) {
    w.Store? && exists r, x, off {:trigger Instr.Gep(r, Res(x), off)} :: w.ptr == Res(r) && Occurs(f, Instr.Gep(r, Res(x), off)) && Occurs(f, Alloca(x))
  }

  /** All stores are to arrays of the function itself, and all calls of functions of s. */
  ghost predicate HarmlessCode(f: Func, s: set<nat>) {
    forall b, i {:trigger In(f, b, i)} :: In(f, b, i) ==>
      && (f[b].body[i].Store? ==> ToOwnArray(f, f[b].body[i]))
      && (f[b].body[i].Call? ==> f[b].body[i].callee in s)
  }

  /** So it is for all functions of s that are defined and not main; the others are
      exempt. */
  ghost predicate Harmless(p: Program, main: nat, exempt: set<nat>, s: set<nat>) {
    forall g {:trigger g in s} :: g in s ==> if g in p && g != main then HarmlessCode(p[g], s) else g in exempt
  }

  /** Without the functions of side all others are harmless together, and no harmless
      functions are in it. */
  ghost predicate HarmfulOnly(p: Program, main: nat, exempt: set<nat>, funcs: set<nat>, side: set<nat>) {
    && side <= funcs && Harmless(p, main, exempt, funcs - side)
    && forall s {:trigger Harmless(p, main, exempt, s)} :: Harmless(p, main, exempt, s) ==> s !! side
  }

  lemma StoreCounts(f: Func, w: Instr)
    ensures OuterStore(f, w) <==> w.Store? && !ToOwnArray(f, w)
  {
    if IsLocalStore(f, w) {
      var b, i :| 0 <= b < |f| && 0 <= i < |f[b].body| && In(f, b, i) && LocalGep(f, f[b].body[i]) && f[b].body[i].d == w.ptr.r;
      var g := f[b].body[i];
      AllocaOccurs(f, g.base.r);
      assert g == Instr.Gep(w.ptr.r, Res(g.base.r), g.off) && Occurs(f, g);
    }
    if ToOwnArray(f, w) {
      var r, x, off :| w.ptr == Res(r) && Occurs(f, Instr.Gep(r, Res(x), off)) && Occurs(f, Alloca(x));
      AllocaOccurs(f, x);
      var b, i :| In(f, b, i) && f[b].body[i] == Instr.Gep(r, Res(x), off);
      assert LocalGep(f, f[b].body[i]);
    }
  }

  lemma AllocaOccurs(f: Func, x: Reg)
    ensures MadeByAlloca(f, x) <==> Occurs(f, Alloca(x))
  {
    if MadeByAlloca(f, x) {
      var b, i :| 0 <= b < |f| && 0 <= i < |f[b].body| && In(f, b, i) && f[b].body[i].Alloca? && f[b].body[i].d == x;
      assert f[b].body[i] == Alloca(x);
    }
  }

  lemma TailChain(p: Program, main: nat, exempt: set<nat>, w: seq<nat>, f: nat)
    requires CallChain(p, main, exempt, w, f) && |w| > 1
    ensures CallChain(p, main, exempt, w[1..], w[1])
  {
    hide Root, CallsOf;
    var v := w[1..];
    assert forall i :: 0 <= i < |v| ==> v[i] == w[i + 1];
  }

  /** Nothing leads out of a harmless set to an effect. */
  lemma {:induction false} StaysHarmless(p: Program, main: nat, exempt: set<nat>, s: set<nat>, w: seq<nat>, f: nat)
    requires Harmless(p, main, exempt, s) && f in s
    ensures !CallChain(p, main, exempt, w, f)
    decreases |w|
  {
    hide OuterStore, ToOwnArray;
    if CallChain(p, main, exempt, w, f) {
      if |w| == 1 {
        var b, i :| In(p[f], b, i) && OuterStore(p[f], p[f][b].body[i]);
        StoreCounts(p[f], p[f][b].body[i]);
      } else {
        assert w[0] in p && w[0] != main && CallsOf(p[w[0]], w[0 + 1]);
        var b, i :| In(p[f], b, i) && p[f][b].body[i].Call? && p[f][b].body[i].callee == w[1];
        TailChain(p, main, exempt, w, f);
        StaysHarmless(p, main, exempt, s, w[1..], w[1]);
      }
    }
  }

  /** The functions with effects are told by the code alone. */
  lemma EffectsAreHarmful(p: Program, main: nat, exempt: set<nat>, funcs: set<nat>, side: set<nat>)
    requires p.Keys <= funcs && forall f: nat, c: nat {:trigger CallsOf(p[f], c)} :: f in p && f != main && CallsOf(p[f], c) ==> c in funcs
    requires side == set f | f in funcs && Effects(p, main, exempt, f)
    ensures HarmfulOnly(p, main, exempt, funcs, side)
  {
    hide CallChain, HarmlessCode;
    forall g | g in funcs - side
      ensures if g in p && g != main then HarmlessCode(p[g], funcs - side) else g in exempt
    {
      if g in p && g != main {
        HarmlessIs(p, main, exempt, funcs, side, g);
      } else if g !in exempt {
        RootEffects(p, main, exempt, g);
      }
    }
    forall s | Harmless(p, main, exempt, s)
      ensures s !! side
    {
      forall f | f in s
        ensures f !in side
      {
        forall w
          ensures !CallChain(p, main, exempt, w, f)
        {
          StaysHarmless(p, main, exempt, s, w, f);
        }
      }
    }
  }

  lemma HarmlessIs(p: Program, main: nat, exempt: set<nat>, funcs: set<nat>, side: set<nat>, g: nat)
    requires forall f: nat, c: nat {:trigger CallsOf(p[f], c)} :: f in p && f != main && CallsOf(p[f], c) ==> c in funcs
    requires side == (set f | f in funcs && Effects(p, main, exempt, f)) && g in p && g != main && g in funcs - side
    ensures HarmlessCode(p[g], funcs - side)
  {
    hide CallChain, OuterStore, ToOwnArray;
    forall b, i | In(p[g], b, i)
      ensures p[g][b].body[i].Store? ==> ToOwnArray(p[g], p[g][b].body[i])
      ensures p[g][b].body[i].Call? ==> p[g][b].body[i].callee in funcs - side
    {
      var w := p[g][b].body[i];
      if w.Store? && !ToOwnArray(p[g], w) {
        StoreCounts(p[g], w);
        RootEffects(p, main, exempt, g);
      }
      if w.Call? {
        assert CallsOf(p[g], w.callee);
        if Effects(p, main, exempt, w.callee) {
          CallerEffects(p, main, exempt, g, w.callee);
        }
      }
    }
  }
}
