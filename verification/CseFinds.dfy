/** What the reuse of expressions does not miss. */
module CseFinds {
  import opened Arithmetic
  import opened Cfg
  import opened ArrayIr
  import opened ArraySsa
  import opened CseTables
  import opened CseFacts

  // ---------------------------------------------------------------- repetitions, told from the code

  predicate SameConst(v: Value, w: Value) { v.Const? && w.Const? && v.n == w.n }

  /** The same operation on the same operands; a constant looked at counts by its value. */
  predicate SameOperation(v: Instr, w: Instr) {
    if v.Binary? && w.Binary? then
      && v.op == w.op
      && ((v.lhs == w.lhs && v.rhs == w.rhs) || (SameConst(v.lhs, w.lhs) && v.rhs == w.rhs) || (!v.lhs.Const? && v.lhs == w.lhs && SameConst(v.rhs, w.rhs)))
    else
      v.Gep? && w.Gep? && v.base == w.base && (v.off == w.off || SameConst(v.off, w.off))
  }

  /** A gep with this base makes r. */
  ghost predicate ElementOf(c: SsaFunc, p: Value, base: Value) { p.Res? && c.IsMade(p.r) && c.Maker(p.r).Gep? && c.Maker(p.r).base == base }

  /** An array of the function. */
  ghost predicate OwnArray(c: SsaFunc, base: Value) { base.Res? && c.IsMade(base.r) && c.Maker(base.r).Alloca? }

  /** A global variable and another, or any array element; or elements of two arrays, of
      which one is the function's own or both are global. */
  ghost predicate ElsewhereThan(c: SsaFunc, p: Value, q: Value) {
    || (p.Global? && q.Global? && p != q)
    || (p.Global? && exists x :: ElementOf(c, q, x))
    || (q.Global? && exists x :: ElementOf(c, p, x))
    || exists x, y {:trigger ElementOf(c, p, x), ElementOf(c, q, y)} :: ElementOf(c, p, x) && ElementOf(c, q, y) && x != y && (OwnArray(c, x) || OwnArray(c, y) || (x.Global? && y.Global?))
  }

  /** Stores that go elsewhere, calls outside the set, and anything else. */
  ghost predicate Spared(c: SsaFunc, impure: set<nat>, p: Value, w: Instr) {
    && (w.Store? ==> ElsewhereThan(c, p, w.ptr))
    && (w.Call? ==> w.callee !in impure)
  }

  /** Instruction j of block b does what instruction i has done. */
  ghost predicate Repetition(c: SsaFunc, impure: set<nat>, b: Block, i: nat, j: nat) {
    && b < |c.f| && i < j < |c.f[b].body|
    && var v, w := c.f[b].body[i], c.f[b].body[j];
       || SameOperation(v, w)
       || (v.Load? && w.Load? && v.ptr == w.ptr && (exists arrays :: Fit(c, arrays)) &&
             forall k {:trigger c.f[b].body[k]} :: i < k < j ==> Spared(c, impure, v.ptr, c.f[b].body[k]))
  }

  /** From position from up to position end of block b nothing makes a load of p stale. */
  ghost predicate SparedIn(c: SsaFunc, impure: set<nat>, p: Value, b: Block, from: nat, end: nat)
    requires b < |c.f|
  {
    forall k {:trigger c.f[b].body[k]} :: from <= k < end && k < |c.f[b].body| ==> Spared(c, impure, p, c.f[b].body[k])
  }

  /** What instruction i of block a has done is still known where block b begins: the
      predecessor in front of b is a, or one where it is known; and for a load, no other
      leads to b from behind, and nothing on the way makes it stale. */
  ghost predicate Carried(c: SsaFunc, impure: set<nat>, a: Block, i: nat, b: Block)
    requires a < |c.f| && i < |c.f[a].body| && b < |c.f| == |c.g.preds|
    decreases b
  {
    var v := c.f[a].body[i];
    exists q: Block {:trigger InFront(c.g.preds[b], b, q)} :: InFront(c.g.preds[b], b, q)
      && (q == a || Carried(c, impure, a, i, q))
      && (v.Load? ==> (forall x :: x in c.g.preds[b] ==> x < b) && SparedIn(c, impure, v.ptr, q, if q == a then i + 1 else 0, |c.f[q].body|))
  }

  /** Instruction j of block b does what instruction i of block a, in front of it, has
      done; the operands were made in blocks up to a. */
  ghost predicate FarRepetition(c: SsaFunc, impure: set<nat>, a: Block, i: nat, b: Block, j: nat) {
    && a < b < |c.f| == |c.g.preds| && i < |c.f[a].body| && j < |c.f[b].body| && Carried(c, impure, a, i, b)
    && var v, w := c.f[a].body[i], c.f[b].body[j];
       && (forall r {:trigger c.sites[r]} :: r in Operands(v) && r in c.sites ==> c.sites[r].0 <= a)
       && (SameOperation(v, w) || (v.Load? && w.Load? && v.ptr == w.ptr && (exists arrays :: Fit(c, arrays)) && SparedIn(c, impure, v.ptr, b, 0, j)))
  }

  /** No instruction makes d. */
  ghost predicate NotMade(f: Func, d: Reg) {
    forall b, i {:trigger f[b].body[i]} :: 0 <= b < |f| && 0 <= i < |f[b].body| && !f[b].body[i].Store? ==> f[b].body[i].d != d
  }

  /** Nothing that repeats another is left. */
  ghost predicate NothingMissed(c: SsaFunc, impure: set<nat>, f': Func) {
    && (forall b: Block, i: nat, j: nat {:trigger Repetition(c, impure, b, i, j)} :: Repetition(c, impure, b, i, j) ==> NotMade(f', c.f[b].body[j].d))
    && forall a: Block, i: nat, b: Block, j: nat {:trigger FarRepetition(c, impure, a, i, b, j)} ::
         FarRepetition(c, impure, a, i, b, j) ==> NotMade(f', c.f[b].body[j].d)
  }

  // ---------------------------------------------------------------- inside a block

  /** Behind the first k instructions of the block. */
  ghost function Behind(c: SsaFunc, impure: set<nat>, s: Pass, b: Block, k: nat): Pass
    requires b < |c.f| && k <= |c.f[b].body|
  {
    InBlock(MakersOf(c), impure, s, c.f[b].body[..k])
  }

  lemma BehindNext(c: SsaFunc, impure: set<nat>, s: Pass, b: Block, k: nat)
    requires b < |c.f| && k < |c.f[b].body|
    ensures Behind(c, impure, s, b, k + 1) == Step(MakersOf(c), impure, Behind(c, impure, s, b, k), c.f[b].body[k])
  {
    hide Step, MakersOf;
    var body := c.f[b].body;
    assert body[..k + 1][..k] == body[..k];
  }

  lemma StepSub(made: Makers, impure: set<nat>, s: Pass, w: Instr)
    ensures var t := Step(made, impure, s, w);
      s.sub.Keys <= t.sub.Keys && (forall x {:trigger x in t.sub} :: x in t.sub && (w.Store? || x != w.d) ==> x in s.sub) &&
      forall x {:trigger x in s.sub} :: x in s.sub && (w.Store? || x != w.d) ==> t.sub[x] == s.sub[x]
  {
    hide Enter;
  }

  /** Replacements made from position i on do not touch what is made before. */
  lemma {:induction false} SubStays(c: SsaFunc, impure: set<nat>, s: Pass, b: Block, i: nat, j: nat, u: Value)
    requires c.Valid() && b < |c.f| && i <= j <= |c.f[b].body| && c.Available(ValueRegs(u), b, i)
    ensures SubVal(Behind(c, impure, s, b, j).sub, u) == SubVal(Behind(c, impure, s, b, i).sub, u)
    decreases j
  {
    hide SsaFunc.Valid, Behind, Step, MakersOf, StrictDom;
    if i < j {
      var k := j - 1;
      SubStays(c, impure, s, b, i, k, u);
      BehindNext(c, impure, s, b, k);
      StepSub(MakersOf(c), impure, Behind(c, impure, s, b, k), c.f[b].body[k]);
      if u.Res? {
        assert c.Before(u.r, b, i);
        OtherMade(c, b, i, k, u.r);
      }
    }
  }

  lemma OtherMade(c: SsaFunc, b: Block, i: nat, k: nat, r: Reg)
    requires c.Valid() && b < |c.f| && i <= k < |c.f[b].body| && c.Before(r, b, i)
    ensures !c.f[b].body[k].Store? ==> c.f[b].body[k].d != r
  {
    hide Dom, SsaFunc.Edges;
    assert c.InstrOk(b, k);
  }

  lemma {:induction false} KeysStay(c: SsaFunc, impure: set<nat>, s: Pass, b: Block, i: nat, j: nat)
    requires b < |c.f| && i <= j <= |c.f[b].body|
    ensures Behind(c, impure, s, b, i).sub.Keys <= Behind(c, impure, s, b, j).sub.Keys
    decreases j
  {
    hide Behind, Step, MakersOf;
    if i < j {
      KeysStay(c, impure, s, b, i, j - 1);
      BehindNext(c, impure, s, b, j - 1);
      StepSub(MakersOf(c), impure, Behind(c, impure, s, b, j - 1), c.f[b].body[j - 1]);
    }
  }

  /** An instruction with a key is in the table afterwards, or was. */
  lemma KeyThere(made: Makers, impure: set<nat>, s: Pass, w: Instr)
    requires KeyOf(SubInstr(s.sub, w)).Some?
    ensures KeyOf(SubInstr(s.sub, w)).value in Step(made, impure, s, w).table
    ensures !w.Store? && (KeyOf(SubInstr(s.sub, w)).value in s.table ==> w.d in Step(made, impure, s, w).sub)
  {
  }

  /** An entry that is no load never leaves. */
  lemma EntryStays(made: Makers, impure: set<nat>, s: Pass, w: Instr, k: Key)
    requires k in s.table && !k.Cell?
    ensures k in Step(made, impure, s, w).table
  {
    hide Kills;
  }

  lemma LoadStays(made: Makers, impure: set<nat>, s: Pass, w: Instr, p: Value)
    requires Cell(p) in s.table && (w.Store? ==> !Kills(made, SubVal(s.sub, w.ptr), p)) && (w.Call? ==> w.callee !in impure)
    ensures Cell(p) in Step(made, impure, s, w).table
  {
    hide Kills;
  }

  lemma {:induction false} EntryRemains(c: SsaFunc, impure: set<nat>, s: Pass, b: Block, i: nat, j: nat, k: Key)
    requires b < |c.f| && i <= j <= |c.f[b].body| && k in Behind(c, impure, s, b, i).table && !k.Cell?
    ensures k in Behind(c, impure, s, b, j).table
    decreases j
  {
    hide Behind, Step, MakersOf;
    if i < j {
      EntryRemains(c, impure, s, b, i, j - 1, k);
      BehindNext(c, impure, s, b, j - 1);
      EntryStays(MakersOf(c), impure, Behind(c, impure, s, b, j - 1), c.f[b].body[j - 1], k);
    }
  }

  // ---------------------------------------------------------------- operations

  lemma SameKeys(sub: Sub, sub': Sub, v: Instr, w: Instr)
    requires SameOperation(v, w)
    requires forall u: Value {:trigger SubVal(sub', u)} :: ValueRegs(u) <= Operands(v) ==> SubVal(sub', u) == SubVal(sub, u)
    ensures KeyOf(SubInstr(sub, v)).Some? && !KeyOf(SubInstr(sub, v)).value.Cell? && KeyOf(SubInstr(sub', w)) == KeyOf(SubInstr(sub, v))
  {
  }

  /** The second of two equal operations is replaced. */
  lemma OperationFound(c: SsaFunc, impure: set<nat>, s: Pass, b: Block, i: nat, j: nat)
    requires c.Valid() && b < |c.f| && i < j < |c.f[b].body| && SameOperation(c.f[b].body[i], c.f[b].body[j])
    ensures !c.f[b].body[j].Store? && c.f[b].body[j].d in Behind(c, impure, s, b, j + 1).sub
  {
    hide SsaFunc.Valid, Behind, Step, MakersOf, SubVal, SubInstr, KeyOf, SsaFunc.Before, Operands, SameOperation;
    var v, w, sub, sub' := c.f[b].body[i], c.f[b].body[j], Behind(c, impure, s, b, i).sub, Behind(c, impure, s, b, j).sub;
    OperandsThere(c, b, i);
    forall u: Value | ValueRegs(u) <= Operands(v)
      ensures SubVal(sub', u) == SubVal(sub, u)
    {
      FewerAvailable(c, Operands(v), ValueRegs(u), b, i);
      SubStays(c, impure, s, b, i, j, u);
    }
    SameKeys(sub, sub', v, w);
    KeyThere(MakersOf(c), impure, Behind(c, impure, s, b, i), v);
    BehindNext(c, impure, s, b, i);
    EntryRemains(c, impure, s, b, i + 1, j, KeyOf(SubInstr(sub, v)).value);
    KeyThere(MakersOf(c), impure, Behind(c, impure, s, b, j), w);
    BehindNext(c, impure, s, b, j);
  }

  lemma OperandsThere(c: SsaFunc, b: Block, i: nat)
    requires c.Valid() && b < |c.f| && i < |c.f[b].body|
    ensures c.Available(Operands(c.f[b].body[i]), b, i)
  {
    hide SsaFunc.Edges, Dom;
    assert c.InstrOk(b, i);
  }

  // ---------------------------------------------------------------- loads

  /** What stands for a result is of the same kind, and so is what a table holds. */
  ghost predicate KindsOk(c: SsaFunc, s: Pass) {
    && (forall d {:trigger d in s.sub} :: d in s.sub ==> c.IsMade(d) && c.IsMade(s.sub[d]) && SameKind(c.Maker(d), c.Maker(s.sub[d])))
    && forall k {:trigger k in s.table} :: k in s.table ==> c.IsMade(s.table[k]) && SameKind(KeyInstr(k, s.table[k]), c.Maker(s.table[k]))
  }

  lemma KindsStep(c: SsaFunc, arrays: set<nat>, impure: set<nat>, s: Pass, b: Block, i: nat)
    requires Fit(c, arrays) && KindsOk(c, s) && b < |c.f| && i < |c.f[b].body|
    ensures KindsOk(c, Step(MakersOf(c), impure, s, c.f[b].body[i]))
  {
    hide SsaFunc.Valid, MakersOf, Enter, SubInstr, KeyOf, KeyInstr, SameKind, PointersOk;
    var w := c.f[b].body[i];
    var j := SubInstr(s.sub, w);
    assert PointersOk(MakersOf(c), arrays, w);
    if !w.Store? {
      c.MadeIs(b, i);
    }
    KeyKind(c, arrays, s, w);
    EnterFrom(MakersOf(c), impure, s.table, j);
  }

  /** The key of an instruction stands for one of its kind. */
  lemma KeyKind(c: SsaFunc, arrays: set<nat>, s: Pass, w: Instr)
    requires KindsOk(c, s) && PointersOk(MakersOf(c), arrays, w)
    ensures var j := SubInstr(s.sub, w);
      && (j.Store? <==> w.Store?) && (!w.Store? ==> j.d == w.d) && (KeyOf(j).Some? ==> !w.Store?)
      && (KeyOf(j).Some? ==> forall r, v :: SameKind(KeyInstr(KeyOf(j).value, r), v) <==> SameKind(w, v))
      && (KeyOf(j).Some? ==> forall r :: SameKind(KeyInstr(KeyOf(j).value, r), w))
  {
    hide KindsOk, MakersOf;
    if w.Gep? {
      BaseStays(c, arrays, s, w.base);
    }
  }

  lemma EnterFrom(made: Makers, impure: set<nat>, t: Table, w: Instr)
    ensures forall k {:trigger k in Enter(made, impure, t, w)} :: k in Enter(made, impure, t, w) ==>
      (k in t && Enter(made, impure, t, w)[k] == t[k]) || (!w.Store? && KeyOf(w) == Some(k) && Enter(made, impure, t, w)[k] == w.d)
  {
    hide Kills;
  }

  lemma BaseStays(c: SsaFunc, arrays: set<nat>, s: Pass, base: Value)
    requires KindsOk(c, s) && BaseOk(MakersOf(c), arrays, base)
    ensures SubVal(s.sub, base) == base
  {
    if base.Res? {
      MakersAre(c, base.r);
    }
  }

  lemma {:induction false} KindsBehind(c: SsaFunc, arrays: set<nat>, impure: set<nat>, s: Pass, b: Block, k: nat)
    requires Fit(c, arrays) && KindsOk(c, s) && b < |c.f| && k <= |c.f[b].body|
    ensures KindsOk(c, Behind(c, impure, s, b, k))
  {
    hide Fit, KindsOk, Behind, Step, MakersOf;
    if k == 0 {
      BehindNothing(c, impure, s, b);
    } else {
      KindsBehind(c, arrays, impure, s, b, k - 1);
      BehindNext(c, impure, s, b, k - 1);
      KindsStep(c, arrays, impure, Behind(c, impure, s, b, k - 1), b, k - 1);
    }
  }

  lemma BehindNothing(c: SsaFunc, impure: set<nat>, s: Pass, b: Block)
    requires b < |c.f|
    ensures Behind(c, impure, s, b, 0) == s
  {
  }

  lemma ElementStays(c: SsaFunc, s: Pass, p: Value, base: Value)
    requires KindsOk(c, s) && ElementOf(c, p, base)
    ensures ElementOf(c, SubVal(s.sub, p), base)
  {
  }

  /** A store elsewhere does not make the load stale. */
  lemma NoKill(c: SsaFunc, s: Pass, p: Value, q: Value)
    requires KindsOk(c, s) && ElsewhereThan(c, p, q)
    ensures !Kills(MakersOf(c), SubVal(s.sub, q), SubVal(s.sub, p))
  {
    hide KindsOk, MakersOf;
    var p', q' := SubVal(s.sub, p), SubVal(s.sub, q);
    if p.Global? && q.Global? && p != q {
    } else if p.Global? && exists x :: ElementOf(c, q, x) {
      var x :| ElementOf(c, q, x);
      ElementStays(c, s, q, x);
      MakersAre(c, q'.r);
    } else if q.Global? && exists x :: ElementOf(c, p, x) {
      var x :| ElementOf(c, p, x);
      ElementStays(c, s, p, x);
      MakersAre(c, p'.r);
    } else {
      var x, y :| ElementOf(c, p, x) && ElementOf(c, q, y) && x != y && (OwnArray(c, x) || OwnArray(c, y) || (x.Global? && y.Global?));
      ElementStays(c, s, p, x);
      ElementStays(c, s, q, y);
      MakersAre(c, p'.r);
      MakersAre(c, q'.r);
      OwnIs(c, x);
      OwnIs(c, y);
    }
  }

  lemma OwnIs(c: SsaFunc, base: Value)
    ensures OwnArray(c, base) <==> IsAlloca(MakersOf(c), base)
  {
    if base.Res? {
      MakersAre(c, base.r);
    }
  }

  lemma {:induction false} LoadRemains(c: SsaFunc, arrays: set<nat>, impure: set<nat>, s: Pass, b: Block, i: nat, j: nat)
    requires Fit(c, arrays) && KindsOk(c, s) && b < |c.f| && i < j < |c.f[b].body| && c.f[b].body[i].Load?
    requires forall k {:trigger c.f[b].body[k]} :: i < k < j ==> Spared(c, impure, c.f[b].body[i].ptr, c.f[b].body[k])
    ensures Cell(SubVal(Behind(c, impure, s, b, i).sub, c.f[b].body[i].ptr)) in Behind(c, impure, s, b, j).table
    decreases j
  {
    hide Fit, KindsOk, Behind, Step, MakersOf, SubVal, Kills, ElsewhereThan, SsaFunc.Valid, SsaFunc.Before;
    var v := c.f[b].body[i];
    if j == i + 1 {
      BehindNext(c, impure, s, b, i);
      KeyThere(MakersOf(c), impure, Behind(c, impure, s, b, i), v);
    } else {
      var k := j - 1;
      LoadRemains(c, arrays, impure, s, b, i, k);
      FitIsValid(c, arrays);
      OperandsThere(c, b, i);
      SubStays(c, impure, s, b, i, k, v.ptr);
      var w, t := c.f[b].body[k], Behind(c, impure, s, b, k);
      assert Spared(c, impure, v.ptr, c.f[b].body[k]);
      if w.Store? {
        KindsBehind(c, arrays, impure, s, b, k);
        NoKill(c, t, v.ptr, w.ptr);
      }
      LoadStays(MakersOf(c), impure, t, w, SubVal(t.sub, v.ptr));
      BehindNext(c, impure, s, b, k);
    }
  }

  lemma FitIsValid(c: SsaFunc, arrays: set<nat>)
    requires Fit(c, arrays)
    ensures c.Valid()
  {
    hide SsaFunc.Valid;
  }

  /** The second of two loads is replaced if all between them goes elsewhere. */
  lemma LoadFound(c: SsaFunc, arrays: set<nat>, impure: set<nat>, s: Pass, b: Block, i: nat, j: nat)
    requires Fit(c, arrays) && KindsOk(c, s) && b < |c.f| && i < j < |c.f[b].body|
    requires c.f[b].body[i].Load? && c.f[b].body[j].Load? && c.f[b].body[i].ptr == c.f[b].body[j].ptr
    requires forall k {:trigger c.f[b].body[k]} :: i < k < j ==> Spared(c, impure, c.f[b].body[i].ptr, c.f[b].body[k])
    ensures c.f[b].body[j].d in Behind(c, impure, s, b, j + 1).sub
  {
    hide Fit, KindsOk, Behind, Step, MakersOf, SubVal, Spared, SsaFunc.Valid, SsaFunc.Before;
    LoadRemains(c, arrays, impure, s, b, i, j);
    FitIsValid(c, arrays);
    OperandsThere(c, b, i);
    SubStays(c, impure, s, b, i, j, c.f[b].body[i].ptr);
    KeyThere(MakersOf(c), impure, Behind(c, impure, s, b, j), c.f[b].body[j]);
    BehindNext(c, impure, s, b, j);
  }

  // ---------------------------------------------------------------- the whole function

  /** How the pass begins block b. */
  ghost function AtBlock(c: SsaFunc, impure: set<nat>, b: Block): Pass
    requires b < |c.f| == |c.g.preds| && Finishes(c.g)
  {
    var e := UpTo(c, impure, b);
    Pass(e.sub, Start(c.g.preds[b], e.ends, b))
  }

  lemma UpToNext(c: SsaFunc, impure: set<nat>, b: Block)
    requires b < |c.f| == |c.g.preds| && Finishes(c.g)
    ensures var s := Behind(c, impure, AtBlock(c, impure, b), b, |c.f[b].body|);
      UpTo(c, impure, b + 1) == Ends(s.sub, UpTo(c, impure, b).ends + [s.table])
  {
    hide InBlock, Start, Finishes, MakersOf;
    assert c.f[b].body[..|c.f[b].body|] == c.f[b].body;
  }

  lemma {:induction false} ReplacedStays(c: SsaFunc, impure: set<nat>, b: Block, k: nat)
    requires b <= k <= |c.f| == |c.g.preds| && Finishes(c.g)
    ensures UpTo(c, impure, b).sub.Keys <= UpTo(c, impure, k).sub.Keys
    decreases k
  {
    hide Behind, UpTo, Finishes, Start;
    if b < k {
      ReplacedStays(c, impure, b, k - 1);
      UpToNext(c, impure, k - 1);
      KeysStay(c, impure, AtBlock(c, impure, k - 1), k - 1, 0, |c.f[k - 1].body|);
      BehindNothing(c, impure, AtBlock(c, impure, k - 1), k - 1);
    }
  }

  ghost predicate AllKinds(c: SsaFunc, e: Ends) {
    KindsOk(c, Pass(e.sub, map[])) && forall p: Block {:trigger e.ends[p]} :: p < |e.ends| ==> KindsOk(c, Pass(map[], e.ends[p]))
  }

  lemma {:induction false} KindsUpTo(c: SsaFunc, arrays: set<nat>, impure: set<nat>, b: Block)
    requires Fit(c, arrays) && b <= |c.f| == |c.g.preds| && Finishes(c.g)
    ensures AllKinds(c, UpTo(c, impure, b))
  {
    hide Fit, KindsOk, Behind, Finishes, Start;
    if b == 0 {
      NoKinds(c);
    } else {
      KindsUpTo(c, arrays, impure, b - 1);
      KindsStart(c, impure, b - 1);
      var s := AtBlock(c, impure, b - 1);
      KindsBehind(c, arrays, impure, s, b - 1, |c.f[b - 1].body|);
      UpToNext(c, impure, b - 1);
      KindsParts(c, Behind(c, impure, s, b - 1, |c.f[b - 1].body|));
    }
  }

  lemma NoKinds(c: SsaFunc)
    ensures KindsOk(c, Pass(map[], map[]))
  {
  }

  lemma KindsParts(c: SsaFunc, s: Pass)
    ensures KindsOk(c, s) <==> KindsOk(c, Pass(s.sub, map[])) && KindsOk(c, Pass(map[], s.table))
  {
  }

  /** Tables are handed on as they are. */
  lemma KindsStart(c: SsaFunc, impure: set<nat>, b: Block)
    requires b < |c.f| == |c.g.preds| && Finishes(c.g) && AllKinds(c, UpTo(c, impure, b))
    ensures KindsOk(c, AtBlock(c, impure, b))
  {
    hide UpTo, SameKind, KeyInstr;
    var e := UpTo(c, impure, b);
    assert OneInFront(c.g.preds[b], b);
    var t := Start(c.g.preds[b], e.ends, b);
    forall k | k in t
      ensures c.IsMade(t[k]) && SameKind(KeyInstr(k, t[k]), c.Maker(t[k]))
    {
      assert Inherits(c.g.preds[b], e.ends, b, k, t[k]);
      var p: Block :| InFront(c.g.preds[b], b, p) && k in e.ends[p] && e.ends[p][k] == t[k];
      assert KindsOk(c, Pass(map[], e.ends[p]));
    }
  }

  /** Every repetition is replaced. */
  lemma RepetitionReplaced(c: SsaFunc, impure: set<nat>, b: Block, i: nat, j: nat)
    requires c.Valid() && |c.f| == |c.g.preds| && Finishes(c.g) && Repetition(c, impure, b, i, j)
    ensures !c.f[b].body[j].Store? && c.f[b].body[j].d in Replaced(c, impure)
  {
    hide SsaFunc.Valid, Fit, KindsOk, Behind, UpTo, Finishes, Start, SameOperation, Spared;
    var s := AtBlock(c, impure, b);
    if SameOperation(c.f[b].body[i], c.f[b].body[j]) {
      OperationFound(c, impure, s, b, i, j);
    } else {
      var arrays :| Fit(c, arrays);
      KindsUpTo(c, arrays, impure, b);
      KindsStart(c, impure, b);
      LoadFound(c, arrays, impure, s, b, i, j);
    }
    KeysStay(c, impure, s, b, j + 1, |c.f[b].body|);
    UpToNext(c, impure, b);
    ReplacedStays(c, impure, b + 1, |c.f|);
  }

  lemma {:induction false} KeepDrops(gone: set<Reg>, body: seq<Instr>, i: nat)
    requires i < |Keep(gone, body)|
    ensures Keep(gone, body)[i].Store? || Keep(gone, body)[i].d !in gone
  {
    if body != [] {
      var n := |body| - 1;
      if i < |Keep(gone, body[..n])| {
        KeepDrops(gone, body[..n], i);
      }
    }
  }

  lemma ReplacedGone(f: Func, sub: Sub, f': Func, d: Reg)
    requires Rewritten(f, sub, f') && d in sub
    ensures NotMade(f', d)
  {
    hide Keep;
    forall b, i | 0 <= b < |f'| && 0 <= i < |f'[b].body| && !f'[b].body[i].Store?
      ensures f'[b].body[i].d != d
    {
      assert f'[b] == SubBlock(sub.Keys, sub, f[b]);
      var left := Keep(sub.Keys, f[b].body);
      KeepDrops(sub.Keys, f[b].body, i);
      assert f'[b].body[i] == SubInstr(sub, left[i]);
    }
  }

  // ---------------------------------------------------------------- from block to block

  /** Behind the first j instructions of block b. */
  ghost function At(c: SsaFunc, impure: set<nat>, b: Block, j: nat): Pass
    requires b < |c.f| == |c.g.preds| && Finishes(c.g) && j <= |c.f[b].body|
  {
    Behind(c, impure, AtBlock(c, impure, b), b, j)
  }

  ghost predicate Earlier(c: SsaFunc, v: Value, b: Block, i: nat) {
    v.Res? ==> v.r in c.sites && (c.sites[v.r].0 < b || (c.sites[v.r].0 == b && c.sites[v.r].1 < i))
  }

  lemma EarlierOther(c: SsaFunc, u: Value, a: Block, i: nat, b: Block, k: nat)
    requires c.Valid() && Earlier(c, u, a, i) && b < |c.f| && k < |c.f[b].body| && (a < b || (a == b && i <= k))
    ensures u.Res? && !c.f[b].body[k].Store? ==> c.f[b].body[k].d != u.r
  {
    hide Dom, SsaFunc.Edges;
    assert c.InstrOk(b, k);
  }

  /** What has been dealt with is never replaced again. */
  lemma {:induction false} SubLate(c: SsaFunc, impure: set<nat>, a: Block, i: nat, b: Block, j: nat, u: Value)
    requires c.Valid() && a <= b < |c.f| == |c.g.preds| && Finishes(c.g) && i <= |c.f[a].body| && j <= |c.f[b].body| && (a == b ==> i <= j)
    requires Earlier(c, u, a, i)
    ensures SubVal(At(c, impure, b, j).sub, u) == SubVal(At(c, impure, a, i).sub, u)
    decreases b, j
  {
    hide SsaFunc.Valid, Behind, Step, MakersOf, UpTo, Finishes, Start, Earlier;
    if j > 0 && (a < b || i < j) {
      SubLate(c, impure, a, i, b, j - 1, u);
      var s := AtBlock(c, impure, b);
      BehindNext(c, impure, s, b, j - 1);
      StepSub(MakersOf(c), impure, Behind(c, impure, s, b, j - 1), c.f[b].body[j - 1]);
      EarlierOther(c, u, a, i, b, j - 1);
    } else if a < b {
      SubLate(c, impure, a, i, b - 1, |c.f[b - 1].body|, u);
      UpToNext(c, impure, b - 1);
      BehindNothing(c, impure, AtBlock(c, impure, b), b);
    }
  }

  lemma {:induction false} EndsAre(c: SsaFunc, impure: set<nat>, k: Block, q: Block)
    requires q < k <= |c.f| == |c.g.preds| && Finishes(c.g)
    ensures UpTo(c, impure, k).ends[q] == At(c, impure, q, |c.f[q].body|).table
    decreases k
  {
    hide Behind, UpTo, Finishes, Start;
    UpToNext(c, impure, k - 1);
    if q < k - 1 {
      EndsAre(c, impure, k - 1, q);
    }
  }

  /** A block takes over what the predecessor in front ends with. */
  lemma HandedOn(c: SsaFunc, impure: set<nat>, b: Block, q: Block, k: Key)
    requires b < |c.f| == |c.g.preds| && Finishes(c.g) && InFront(c.g.preds[b], b, q) && (k.Cell? ==> forall x :: x in c.g.preds[b] ==> x < b)
    requires k in At(c, impure, q, |c.f[q].body|).table
    ensures k in AtBlock(c, impure, b).table
  {
    hide Behind, UpTo;
    EndsAre(c, impure, b, q);
    var e := UpTo(c, impure, b);
    assert OneInFront(c.g.preds[b], b);
    assert Inherits(c.g.preds[b], e.ends, b, k, e.ends[q][k]);
  }

  /** The key of instruction i of block a, and what the pass needs to keep it. */
  ghost predicate KeyAt(c: SsaFunc, impure: set<nat>, a: Block, i: nat, k: Key)
    requires a < |c.f| == |c.g.preds| && Finishes(c.g) && i < |c.f[a].body|
  {
    var v := c.f[a].body[i];
    && KeyOf(SubInstr(At(c, impure, a, i).sub, v)) == Some(k)
    && (k.Cell? <==> v.Load?) && (v.Load? ==> Earlier(c, v.ptr, a, i) && exists arrays :: Fit(c, arrays))
  }

  /** The entry goes through a stretch of a block. */
  lemma {:induction false} Through(c: SsaFunc, impure: set<nat>, a: Block, i: nat, k: Key, b: Block, from: nat, end: nat)
    requires c.Valid() && a <= b < |c.f| == |c.g.preds| && Finishes(c.g) && i < |c.f[a].body| && from <= end <= |c.f[b].body| && (a == b ==> i < from)
    requires KeyAt(c, impure, a, i, k) && k in At(c, impure, b, from).table
    requires c.f[a].body[i].Load? ==> SparedIn(c, impure, c.f[a].body[i].ptr, b, from, end)
    ensures k in At(c, impure, b, end).table
    decreases end
  {
    hide SsaFunc.Valid, Fit, KindsOk, Behind, Step, MakersOf, UpTo, Finishes, Start, Earlier, Spared, KeyOf, SubInstr;
    if from < end {
      var n, s := end - 1, AtBlock(c, impure, b);
      Through(c, impure, a, i, k, b, from, n);
      BehindNext(c, impure, s, b, n);
      if k.Cell? {
        var arrays :| Fit(c, arrays);
        KindsUpTo(c, arrays, impure, b);
        KindsStart(c, impure, b);
        KindsBehind(c, arrays, impure, s, b, n);
        SubLate(c, impure, a, i, b, n, c.f[a].body[i].ptr);
        CellAt(At(c, impure, a, i).sub, c.f[a].body[i]);
        assert Spared(c, impure, c.f[a].body[i].ptr, c.f[b].body[n]);
        OneMore(c, impure, At(c, impure, b, n), c.f[a].body[i].ptr, c.f[b].body[n]);
      } else {
        EntryStays(MakersOf(c), impure, At(c, impure, b, n), c.f[b].body[n], k);
      }
    }
  }

  lemma CellAt(sub: Sub, v: Instr)
    requires v.Load?
    ensures KeyOf(SubInstr(sub, v)) == Some(Cell(SubVal(sub, v.ptr)))
  {
  }

  lemma OneMore(c: SsaFunc, impure: set<nat>, s: Pass, p: Value, w: Instr)
    requires KindsOk(c, s) && Spared(c, impure, p, w) && Cell(SubVal(s.sub, p)) in s.table
    ensures Cell(SubVal(s.sub, p)) in Step(MakersOf(c), impure, s, w).table
  {
    hide KindsOk, MakersOf, SubVal, ElsewhereThan, Step;
    if w.Store? {
      NoKill(c, s, p, w.ptr);
    }
    LoadStays(MakersOf(c), impure, s, w, SubVal(s.sub, p));
  }

  lemma {:induction false} CarriedIn(c: SsaFunc, impure: set<nat>, a: Block, i: nat, k: Key, b: Block)
    requires c.Valid() && a < b < |c.f| == |c.g.preds| && Finishes(c.g) && i < |c.f[a].body| && KeyAt(c, impure, a, i, k) && Carried(c, impure, a, i, b)
    ensures k in AtBlock(c, impure, b).table
    decreases b
  {
    hide SsaFunc.Valid, KeyAt, Behind, UpTo, Start, Spared, Step, Finishes, AtBlock;
    var v := c.f[a].body[i];
    var q: Block :| InFront(c.g.preds[b], b, q) && (q == a || Carried(c, impure, a, i, q)) &&
      (v.Load? ==> (forall x :: x in c.g.preds[b] ==> x < b) && SparedIn(c, impure, v.ptr, q, if q == a then i + 1 else 0, |c.f[q].body|));
    var from := if q == a then i + 1 else 0;
    if q == a {
      KeyEntered(c, impure, a, i, k);
    } else {
      CarriedBehind(c, impure, a, i, q);
      CarriedIn(c, impure, a, i, k, q);
      BehindNothing(c, impure, AtBlock(c, impure, q), q);
    }
    Through(c, impure, a, i, k, q, from, |c.f[q].body|);
    KeyIsCell(c, impure, a, i, k);
    HandedOn(c, impure, b, q, k);
  }

  lemma KeyIsCell(c: SsaFunc, impure: set<nat>, a: Block, i: nat, k: Key)
    requires a < |c.f| == |c.g.preds| && Finishes(c.g) && i < |c.f[a].body| && KeyAt(c, impure, a, i, k)
    ensures k.Cell? <==> c.f[a].body[i].Load?
  {
    hide At, KeyOf, SubInstr, Earlier;
  }

  lemma {:induction false} CarriedBehind(c: SsaFunc, impure: set<nat>, a: Block, i: nat, b: Block)
    requires a < |c.f| && i < |c.f[a].body| && b < |c.f| == |c.g.preds| && Carried(c, impure, a, i, b)
    ensures a < b
    decreases b
  {
    hide SparedIn;
    var q: Block :| InFront(c.g.preds[b], b, q) && (q == a || Carried(c, impure, a, i, q));
    if q != a {
      CarriedBehind(c, impure, a, i, q);
    }
  }

  lemma KeyEntered(c: SsaFunc, impure: set<nat>, a: Block, i: nat, k: Key)
    requires a < |c.f| == |c.g.preds| && Finishes(c.g) && i < |c.f[a].body| && KeyAt(c, impure, a, i, k)
    ensures k in At(c, impure, a, i + 1).table
  {
    hide Behind, Step, MakersOf, KeyOf, SubInstr, AtBlock, Finishes;
    KeyThere(MakersOf(c), impure, At(c, impure, a, i), c.f[a].body[i]);
    BehindNext(c, impure, AtBlock(c, impure, a), a, i);
  }

  lemma OperandsEarlier(c: SsaFunc, a: Block, i: nat)
    requires c.Valid() && a < |c.f| && i < |c.f[a].body|
    requires forall r {:trigger c.sites[r]} :: r in Operands(c.f[a].body[i]) && r in c.sites ==> c.sites[r].0 <= a
    ensures forall u: Value {:trigger ValueRegs(u)} :: ValueRegs(u) <= Operands(c.f[a].body[i]) ==> Earlier(c, u, a, i)
  {
    hide Dom, SsaFunc.Edges, Operands;
    assert c.InstrOk(a, i);
    forall u: Value | ValueRegs(u) <= Operands(c.f[a].body[i])
      ensures Earlier(c, u, a, i)
    {
      if u.Res? {
        assert u.r in ValueRegs(u);
        assert c.Before(u.r, a, i);
      }
    }
  }

  /** A repetition in another block is replaced too. */
  lemma FarReplaced(c: SsaFunc, impure: set<nat>, a: Block, i: nat, b: Block, j: nat)
    requires c.Valid() && Finishes(c.g) && FarRepetition(c, impure, a, i, b, j)
    ensures !c.f[b].body[j].Store? && c.f[b].body[j].d in Replaced(c, impure)
  {
    hide SsaFunc.Valid, Fit, Behind, UpTo, Finishes, Start, SameOperation, Spared, Carried, Step, MakersOf, KeyOf, SubInstr, SubVal, Earlier, Operands, AtBlock;
    var v, w, sub, sub' := c.f[a].body[i], c.f[b].body[j], At(c, impure, a, i).sub, At(c, impure, b, j).sub;
    OperandsEarlier(c, a, i);
    forall u: Value | ValueRegs(u) <= Operands(v)
      ensures SubVal(sub', u) == SubVal(sub, u)
    {
      SubLate(c, impure, a, i, b, j, u);
    }
    FarKeys(sub, sub', v, w);
    var k := KeyOf(SubInstr(sub, v)).value;
    LoadOperand(v);
    assert KeyAt(c, impure, a, i, k);
    CarriedIn(c, impure, a, i, k, b);
    BehindNothing(c, impure, AtBlock(c, impure, b), b);
    Through(c, impure, a, i, k, b, 0, j);
    KeyThere(MakersOf(c), impure, At(c, impure, b, j), w);
    BehindNext(c, impure, AtBlock(c, impure, b), b, j);
    KeysStay(c, impure, AtBlock(c, impure, b), b, j + 1, |c.f[b].body|);
    UpToNext(c, impure, b);
    ReplacedStays(c, impure, b + 1, |c.f|);
  }

  lemma LoadOperand(v: Instr)
    ensures v.Load? ==> ValueRegs(v.ptr) <= Operands(v)
  {
  }

  lemma FarKeys(sub: Sub, sub': Sub, v: Instr, w: Instr)
    requires SameOperation(v, w) || (v.Load? && w.Load? && v.ptr == w.ptr)
    requires forall u: Value {:trigger SubVal(sub', u)} :: ValueRegs(u) <= Operands(v) ==> SubVal(sub', u) == SubVal(sub, u)
    ensures KeyOf(SubInstr(sub, v)).Some? && (KeyOf(SubInstr(sub, v)).value.Cell? <==> v.Load?) && KeyOf(SubInstr(sub', w)) == KeyOf(SubInstr(sub, v))
    ensures SameOperation(v, w) ==> !v.Load?
  {
    if v.Load? {
      LoadOperand(v);
    } else {
      SameKeys(sub, sub', v, w);
    }
  }

  /** The pass misses no repetition. */
  lemma NothingIsMissed(c: SsaFunc, impure: set<nat>, f': Func)
    requires c.Valid() && |c.f| == |c.g.preds| && Finishes(c.g) && Rewritten(c.f, Replaced(c, impure), f')
    ensures NothingMissed(c, impure, f')
  {
    hide SsaFunc.Valid, Repetition, FarRepetition, Replaced, Rewritten, Finishes, NotMade;
    forall b: Block, i: nat, j: nat | Repetition(c, impure, b, i, j)
      ensures b < |c.f| && j < |c.f[b].body| && !c.f[b].body[j].Store? && NotMade(f', c.f[b].body[j].d)
    {
      InRange(c, impure, b, i, j);
      RepetitionReplaced(c, impure, b, i, j);
      ReplacedGone(c.f, Replaced(c, impure), f', c.f[b].body[j].d);
    }
    forall a: Block, i: nat, b: Block, j: nat | FarRepetition(c, impure, a, i, b, j)
      ensures b < |c.f| && j < |c.f[b].body| && !c.f[b].body[j].Store? && NotMade(f', c.f[b].body[j].d)
    {
      FarInRange(c, impure, a, i, b, j);
      FarReplaced(c, impure, a, i, b, j);
      ReplacedGone(c.f, Replaced(c, impure), f', c.f[b].body[j].d);
    }
  }

  lemma FarInRange(c: SsaFunc, impure: set<nat>, a: Block, i: nat, b: Block, j: nat)
    requires FarRepetition(c, impure, a, i, b, j)
    ensures b < |c.f| && j < |c.f[b].body|
  {
    hide SameOperation, SparedIn, Fit, Carried;
  }

  lemma InRange(c: SsaFunc, impure: set<nat>, b: Block, i: nat, j: nat)
    requires Repetition(c, impure, b, i, j)
    ensures b < |c.f| && j < |c.f[b].body|
  {
    hide SameOperation, Spared, Fit;
  }
}
