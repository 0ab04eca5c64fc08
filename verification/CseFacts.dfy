/** What the tables of common subexpressions say while the pass goes through a
    function, about all states of all its runs. */
module CseFacts {
  import opened Arithmetic
  import opened Cfg
  import opened ArrayIr
  import opened ArraySsa
  import opened CseTables

  // ---------------------------------------------------------------- pointers

  /** Arrays are reached through geps on the array, on an argument, or on an array of
      the function; variables directly. */
  predicate BaseOk(made: Makers, arrays: set<nat>, base: Value) {
    match base
    case Global(g) => g in arrays
    case Param(_) => true
    case Res(_) => IsAlloca(made, base)
    case Const(_, _) => false
  }

  predicate PtrOk(made: Makers, arrays: set<nat>, p: Value) {
    (p.Global? && p.g !in arrays) || (IsGep(made, p) && BaseOk(made, arrays, made[p.r].base))
  }

  predicate PointersOk(made: Makers, arrays: set<nat>, w: Instr) {
    match w
    case Gep(_, base, _) => BaseOk(made, arrays, base)
    case Load(_, p) => PtrOk(made, arrays, p)
    case Store(_, p) => PtrOk(made, arrays, p)
    case _ => true
  }

  /** An array of an earlier activation, or a global array. */
  ghost predicate Foreign(frame: nat, arrays: set<nat>, x: Datum) {
    x.P? ==> (x.o.Local? ==> x.o.frame < frame) && (x.o.GlobalObj? ==> x.o.g in arrays)
  }

  ghost predicate AllForeign(frame: nat, arrays: set<nat>, xs: seq<Datum>) {
    forall k {:trigger xs[k]} :: 0 <= k < |xs| ==> Foreign(frame, arrays, xs[k])
  }

  /** The array a base stands for. */
  predicate StandsFor(m: Machine, base: Value, o: Obj) {
    match base
    case Global(g) => o == GlobalObj(g)
    case Res(r) => o == Local(m.frame, r)
    case Param(k) => k < |m.args| && m.args[k].P? && m.args[k].o == o
    case Const(_, _) => false
  }

  /** A function in SSA form whose pointers are of that kind. */
  ghost predicate Fit(c: SsaFunc, arrays: set<nat>) {
    c.Valid() && forall b, i {:trigger c.f[b].body[i]} :: 0 <= b < |c.f| && 0 <= i < |c.f[b].body| ==> PointersOk(MakersOf(c), arrays, c.f[b].body[i])
  }

  lemma MakersAre(c: SsaFunc, r: Reg)
    ensures r in MakersOf(c) <==> c.IsMade(r)
    ensures c.IsMade(r) ==> MakersOf(c)[r] == c.Maker(r)
  {
  }

  /** What a pointer points into. */
  lemma PointsInto(c: SsaFunc, arrays: set<nat>, m: Machine, b: Block, i: nat, s: State, p: Value)
    requires Fit(c, arrays) && c.Equations(m, b, i, s) && c.Available(ValueRegs(p), b, i) && b < |c.f|
    requires PtrOk(MakersOf(c), arrays, p) && Ptr(m, s.env, p).Some?
    ensures p.Global? ==> Ptr(m, s.env, p).value.0 == GlobalObj(p.g)
    ensures !p.Global? ==> StandsFor(m, MakersOf(c)[p.r].base, Ptr(m, s.env, p).value.0)
  {
    hide Dom, StrictDom, SsaFunc.Valid, SsaFunc.Before;
    if !p.Global? {
      var w := c.Maker(p.r);
      MakersAre(c, p.r);
      assert c.Before(p.r, b, i);
      assert c.Equation(m, s, p.r);
      if w.base.Res? {
        MakersAre(c, w.base.r);
        c.OperandsBefore(p.r, b, i);
        assert c.Before(w.base.r, b, i);
        assert c.Equation(m, s, w.base.r);
      }
    }
  }

  /** If two pointers meet, a store through one is seen as killing the other. */
  lemma KillsAliases(c: SsaFunc, arrays: set<nat>, m: Machine, b: Block, i: nat, s: State, base: Value, ptr: Value)
    requires Fit(c, arrays) && c.Equations(m, b, i, s) && b < |c.f| && AllForeign(m.frame, arrays, m.args)
    requires c.Available(ValueRegs(base), b, i) && c.Available(ValueRegs(ptr), b, i)
    requires PtrOk(MakersOf(c), arrays, base) && PtrOk(MakersOf(c), arrays, ptr)
    requires Ptr(m, s.env, base).Some? && Ptr(m, s.env, ptr).Some? && Ptr(m, s.env, base).value.0 == Ptr(m, s.env, ptr).value.0
    ensures Kills(MakersOf(c), base, ptr)
  {
    hide Fit, SsaFunc.Equations, MakersOf, Ptr, Dom;
    PointsInto(c, arrays, m, b, i, s, base);
    PointsInto(c, arrays, m, b, i, s, ptr);
  }

  // ---------------------------------------------------------------- looked-up instructions

  /** An instruction that computes what the key stands for. */
  function KeyInstr(k: Key, r: Reg): Instr {
    match k
    case Op(a, op, b) => Binary(r, op, a, b)
    case OpInt(a, op, n) => Binary(r, op, a, Const(n, 0))
    case IntOp(n, op, b) => Binary(r, op, Const(n, 0), b)
    case Elem(base, off) => Instr.Gep(r, base, off)
    case ElemInt(base, n) => Instr.Gep(r, base, Const(n, 0))
    case Cell(p) => Load(r, p)
  }

  lemma KeyComputes(m: Machine, w: Instr, r: Reg, s: State)
    requires KeyOf(w).Some?
    ensures var j := KeyInstr(KeyOf(w).value, r);
      Plain(w) && Plain(j) && Operands(j) == Operands(w) && Computed(m, j, s) == Computed(m, w, s) && (j.Load? <==> w.Load?)
  {
    hide Arith;
  }

  // ---------------------------------------------------------------- what replacements and entries say

  /** Dealt with in front of position i of block b. */
  ghost predicate Walked(c: SsaFunc, r: Reg, b: Block, i: int) {
    c.IsMade(r) && (c.sites[r].0 < b || (c.sites[r].0 == b && c.sites[r].1 < i))
  }

  ghost predicate SameKind(v: Instr, w: Instr) {
    && (v.Gep? <==> w.Gep?) && (v.Gep? ==> v.base == w.base) && !v.Alloca?
  }

  /** Where d is computed, r holds what it computes. */
  ghost predicate Copies(c: SsaFunc, m: Machine, mem: Mem, d: Reg, r: Reg)
    requires c.IsMade(d)
  {
    Plain(c.Maker(d)) && forall n: nat, s {:trigger c.Reached(m, mem, n, c.sites[d].0, c.sites[d].1, s)} ::
      c.Reached(m, mem, n, c.sites[d].0, c.sites[d].1, s) ==> r in s.env && Computed(m, c.Maker(d), s) == Some(s.env[r])
  }

  ghost predicate PairOk(c: SsaFunc, m: Machine, mem: Mem, d: Reg, r: Reg) {
    && c.IsMade(d) && c.IsMade(r) && c.Before(r, c.sites[d].0, c.sites[d].1)
    && SameKind(c.Maker(d), c.Maker(r)) && Copies(c, m, mem, d, r)
  }

  ghost predicate SubOk(c: SsaFunc, m: Machine, mem: Mem, sub: Sub, b: Block, i: int) {
    forall d {:trigger d in sub} :: d in sub ==> PairOk(c, m, mem, d, sub[d]) && Walked(c, d, b, i) && Walked(c, sub[d], b, i) && sub[d] !in sub
  }

  /** The part of an entry that does not depend on runs. */
  ghost predicate EntryOk(c: SsaFunc, arrays: set<nat>, sub: Sub, b: Block, i: nat, k: Key, r: Reg) {
    && Walked(c, r, b, i) && b < |c.g.preds| && Flows(c.g, c.sites[r].0, b) && r !in sub
    && c.Available(Operands(KeyInstr(k, r)), c.sites[r].0, c.sites[r].1)
    && (k.Cell? ==> PtrOk(MakersOf(c), arrays, k.ptr)) && SameKind(KeyInstr(k, r), c.Maker(r))
  }

  /** The result holds what the key stands for, wherever it is available. */
  ghost predicate Stands(c: SsaFunc, m: Machine, mem: Mem, k: Key, r: Reg) {
    forall n: nat, b: Block, i: nat, s {:trigger c.Reached(m, mem, n, b, i, s)} :: c.Reached(m, mem, n, b, i, s) && c.Before(r, b, i) ==> Holds(m, KeyInstr(k, r), s)
  }

  /** The result of a load holds what is in memory, here. */
  ghost predicate Cached(c: SsaFunc, m: Machine, mem: Mem, b: Block, i: nat, k: Key, r: Reg) {
    forall n: nat, s {:trigger c.Reached(m, mem, n, b, i, s)} :: c.Reached(m, mem, n, b, i, s) ==> Holds(m, KeyInstr(k, r), s)
  }

  ghost predicate EntryHolds(c: SsaFunc, m: Machine, mem: Mem, b: Block, i: nat, k: Key, r: Reg) {
    if k.Cell? then Cached(c, m, mem, b, i, k, r) else Stands(c, m, mem, k, r)
  }

  ghost predicate TableOk(c: SsaFunc, arrays: set<nat>, m: Machine, mem: Mem, sub: Sub, t: Table, b: Block, i: nat) {
    forall k {:trigger k in t} :: k in t ==> EntryOk(c, arrays, sub, b, i, k, t[k]) && EntryHolds(c, m, mem, b, i, k, t[k])
  }

  /** An entry's result is available where the entry is. */
  lemma EntryBefore(c: SsaFunc, arrays: set<nat>, sub: Sub, b: Block, i: nat, k: Key, r: Reg)
    requires c.Valid() && FlowsDown(c.g) && EntryOk(c, arrays, sub, b, i, k, r) && b < |c.f|
    ensures c.Before(r, b, i) && c.Available(Operands(KeyInstr(k, r)), b, i)
  {
    hide Dom, KeyInstr;
    forall x | x in Operands(KeyInstr(k, r))
      ensures c.Before(x, b, i)
    {
      assert c.Before(x, c.sites[r].0, c.sites[r].1);
      c.BeforeTrans(x, r, b, i);
    }
  }

  // ---------------------------------------------------------------- operands under replacement

  lemma PairMeets(c: SsaFunc, m: Machine, mem: Mem, d: Reg, r: Reg)
    requires c.Valid() && PairOk(c, m, mem, d, r)
    ensures c.MeetsAt(m, mem, d, r)
  {
    hide SsaFunc.Valid, SsaFunc.Reached, SsaFunc.Before, Exec, SameKind;
    var b, i, j := c.sites[d].0, c.sites[d].1, c.sites[d].1 + 1;
    forall n: nat, s | c.Reached(m, mem, n, b, j, s)
      ensures d in s.env && r in s.env && s.env[d] == s.env[r]
    {
      var s0 := c.ReachedBack(m, mem, n, b, i, s);
      c.ExecOther(m, b, i, s0, r);
      ExecPlain(m, c.Maker(d), s0);
    }
  }

  /** A replaced result holds what its replacement holds. */
  lemma PairEqual(c: SsaFunc, m: Machine, mem: Mem, sub: Sub, d: Reg, n: nat, b: Block, i: nat, s: State)
    requires c.Valid() && d in sub && PairOk(c, m, mem, d, sub[d]) && c.Reached(m, mem, n, b, i, s) && c.Before(d, b, i) && b < |c.f|
    ensures d in s.env && sub[d] in s.env && s.env[d] == s.env[sub[d]] && c.Before(sub[d], b, i)
  {
    hide SsaFunc.Valid, SsaFunc.Reached, SsaFunc.Before, SsaFunc.MeetsAt, Copies, SameKind;
    PairMeets(c, m, mem, d, sub[d]);
    c.MeetsLater(m, mem, d, sub[d], n, b, i, s);
    c.BeforeTrans(sub[d], d, b, i);
  }

  lemma EvalSub(c: SsaFunc, m: Machine, mem: Mem, sub: Sub, eb: Block, ei: int, n: nat, b: Block, i: nat, s: State, v: Value)
    requires c.Valid() && SubOk(c, m, mem, sub, eb, ei) && c.Reached(m, mem, n, b, i, s) && b < |c.f| && c.Available(ValueRegs(v), b, i)
    ensures Eval(m, s.env, SubVal(sub, v)) == Eval(m, s.env, v) && Num(m, s.env, SubVal(sub, v)) == Num(m, s.env, v)
    ensures Ptr(m, s.env, SubVal(sub, v)) == Ptr(m, s.env, v) && c.Available(ValueRegs(SubVal(sub, v)), b, i)
  {
    hide SsaFunc.Valid, SsaFunc.Reached, SsaFunc.Before, PairOk, Walked;
    if v.Res? && v.r in sub {
      assert c.Before(v.r, b, i);
      PairEqual(c, m, mem, sub, v.r, n, b, i, s);
    }
  }

  lemma FewerAvailable(c: SsaFunc, rs: set<Reg>, fewer: set<Reg>, b: Block, i: int)
    requires c.Available(rs, b, i) && fewer <= rs
    ensures c.Available(fewer, b, i)
  {
    hide SsaFunc.Before;
  }

  /** A plain instruction computes the same under the replacements. */
  lemma ComputedSub(c: SsaFunc, m: Machine, mem: Mem, sub: Sub, eb: Block, ei: int, n: nat, b: Block, i: nat, s: State, w: Instr)
    requires c.Valid() && SubOk(c, m, mem, sub, eb, ei) && c.Reached(m, mem, n, b, i, s) && b < |c.f| && c.Available(Operands(w), b, i) && Plain(w)
    ensures Plain(SubInstr(sub, w)) && Computed(m, SubInstr(sub, w), s) == Computed(m, w, s)
  {
    hide SsaFunc.Valid, SsaFunc.Reached, SsaFunc.Available, SubOk, Arith, Test, Num, Ptr, SubVal, Eval;
    match w
    case Alloca(_) =>
    case Gep(_, x, y) =>
      FewerAvailable(c, Operands(w), ValueRegs(x), b, i);
      FewerAvailable(c, Operands(w), ValueRegs(y), b, i);
      EvalSub(c, m, mem, sub, eb, ei, n, b, i, s, x);
      EvalSub(c, m, mem, sub, eb, ei, n, b, i, s, y);
    case Load(_, x) => EvalSub(c, m, mem, sub, eb, ei, n, b, i, s, x);
    case Binary(_, _, x, y) =>
      FewerAvailable(c, Operands(w), ValueRegs(x), b, i);
      FewerAvailable(c, Operands(w), ValueRegs(y), b, i);
      EvalSub(c, m, mem, sub, eb, ei, n, b, i, s, x);
      EvalSub(c, m, mem, sub, eb, ei, n, b, i, s, y);
    case Compare(_, _, x, y) =>
      FewerAvailable(c, Operands(w), ValueRegs(x), b, i);
      FewerAvailable(c, Operands(w), ValueRegs(y), b, i);
      EvalSub(c, m, mem, sub, eb, ei, n, b, i, s, x);
      EvalSub(c, m, mem, sub, eb, ei, n, b, i, s, y);
    case Zext(_, x) => EvalSub(c, m, mem, sub, eb, ei, n, b, i, s, x);
  }

  /** Availability alone, without a run. */
  lemma AvailableSub(c: SsaFunc, m: Machine, mem: Mem, sub: Sub, eb: Block, ei: int, b: Block, i: nat, v: Value)
    requires c.Valid() && SubOk(c, m, mem, sub, eb, ei) && b < |c.f| && c.Available(ValueRegs(v), b, i)
    ensures c.Available(ValueRegs(SubVal(sub, v)), b, i)
  {
    hide SsaFunc.Valid, SsaFunc.Before, Copies, SameKind, Walked;
    if v.Res? && v.r in sub {
      assert c.Before(v.r, b, i);
      c.BeforeTrans(sub[v.r], v.r, b, i);
    }
  }

  lemma OperandsSub(c: SsaFunc, m: Machine, mem: Mem, sub: Sub, eb: Block, ei: int, b: Block, i: nat, w: Instr)
    requires c.Valid() && SubOk(c, m, mem, sub, eb, ei) && b < |c.f| && c.Available(Operands(w), b, i) && !w.Call?
    ensures c.Available(Operands(SubInstr(sub, w)), b, i)
  {
    hide SsaFunc.Valid, SubOk, SubVal, SsaFunc.Before;
    forall v: Value | ValueRegs(v) <= Operands(w)
      ensures c.Available(ValueRegs(SubVal(sub, v)), b, i)
    {
      FewerAvailable(c, Operands(w), ValueRegs(v), b, i);
      AvailableSub(c, m, mem, sub, eb, ei, b, i, v);
    }
  }

  /** Pointers stay of the same kind. */
  lemma PtrSub(c: SsaFunc, arrays: set<nat>, m: Machine, mem: Mem, sub: Sub, eb: Block, ei: int, p: Value)
    requires SubOk(c, m, mem, sub, eb, ei)
    ensures PtrOk(MakersOf(c), arrays, p) ==> PtrOk(MakersOf(c), arrays, SubVal(sub, p))
    ensures BaseOk(MakersOf(c), arrays, p) ==> SubVal(sub, p) == p
  {
    hide SsaFunc.Before, Copies, Walked;
    if p.Res? && p.r in sub {
      assert PairOk(c, m, mem, p.r, sub[p.r]);
      MakersAre(c, p.r);
      MakersAre(c, sub[p.r]);
    }
  }
}
