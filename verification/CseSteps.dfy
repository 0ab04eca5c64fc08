/** The pass for common subexpressions, one instruction after another: a hit replaces a
    result by one that holds the same, a miss enters one, stores and calls take out the
    loads that may no longer hold, and a block begins with what the blocks before it
    agree on. Through all of it the replacements stay right and the tables true, for
    every state of every run in which they are looked at. */
module CseSteps {
  import opened Arithmetic
  import opened Cfg
  import opened ArrayIr
  import opened ArraySsa
  import opened CseTables
  import opened CseFacts

  /** Calls of the function leave memory alone. */
  ghost predicate QuietAt(m: Machine, callee: nat) {
    forall args, mem, out {:trigger m.callees(callee, args, mem, out)} ::
      m.callees(callee, args, mem, out).Reply? ==> m.callees(callee, args, mem, out).mem == mem
  }

  /** So do all calls that f makes, but those of impure functions. */
  ghost predicate CallsQuiet(m: Machine, f: Func, impure: set<nat>) {
    forall b, i {:trigger f[b].body[i]} :: 0 <= b < |f| && 0 <= i < |f[b].body| && f[b].body[i].Call? && f[b].body[i].callee !in impure ==>
      QuietAt(m, f[b].body[i].callee)
  }

  /** A run of such a function on such a machine. */
  ghost predicate Ready(c: SsaFunc, arrays: set<nat>, m: Machine, impure: set<nat>) {
    Fit(c, arrays) && FlowsDown(c.g) && AllForeign(m.frame, arrays, m.args) && CallsQuiet(m, c.f, impure)
  }

  lemma MemStays(m: Machine, w: Instr, s: State)
    requires Exec(m, w, s).Next? && !w.Store? && (w.Call? ==> QuietAt(m, w.callee))
    ensures Exec(m, w, s).s.mem == s.mem
  {
    hide Arith, Test, Num, Ptr;
    if Plain(w) {
      ExecPlain(m, w, s);
    }
  }

  // ---------------------------------------------------------------- entries that stay

  /** A cached load over an instruction that leaves memory alone. */
  lemma CachedNext(c: SsaFunc, arrays: set<nat>, m: Machine, mem: Mem, sub: Sub, b: Block, i: nat, k: Key, r: Reg)
    requires c.Valid() && FlowsDown(c.g) && EntryOk(c, arrays, sub, b, i, k, r) && Cached(c, m, mem, b, i, k, r) && k.Cell?
    requires b < |c.f| && i < |c.f[b].body| && !c.f[b].body[i].Store? && (c.f[b].body[i].Call? ==> QuietAt(m, c.f[b].body[i].callee))
    ensures Cached(c, m, mem, b, i + 1, k, r)
  {
    hide SsaFunc.Valid, SsaFunc.Reached, SsaFunc.Available, Exec, QuietAt, FlowsDown, Holds, SameRegs, EntryOk;
    EntryBefore(c, arrays, sub, b, i, k, r);
    var j, w := i + 1, KeyInstr(k, r);
    forall n: nat, s' | c.Reached(m, mem, n, b, j, s')
      ensures Holds(m, w, s')
    {
      var s := c.ReachedBack(m, mem, n, b, i, s');
      assert Holds(m, w, s);
      c.ExecOther(m, b, i, s, r);
      c.ExecOthers(m, b, i, s, Operands(w));
      MemStays(m, c.f[b].body[i], s);
      HoldsSame(m, w, s, s');
    }
  }

  /** And over a store that does not kill it. */
  lemma CachedStore(c: SsaFunc, arrays: set<nat>, m: Machine, mem: Mem, sub: Sub, b: Block, i: nat, k: Key, r: Reg)
    requires Fit(c, arrays) && FlowsDown(c.g) && AllForeign(m.frame, arrays, m.args)
    requires EntryOk(c, arrays, sub, b, i, k, r) && Cached(c, m, mem, b, i, k, r) && k.Cell? && SubOk(c, m, mem, sub, b, i)
    requires b < |c.f| && i < |c.f[b].body| && c.f[b].body[i].Store? && !Kills(MakersOf(c), SubVal(sub, c.f[b].body[i].ptr), k.ptr)
    ensures Cached(c, m, mem, b, i + 1, k, r)
  {
    hide SsaFunc.Valid, SsaFunc.Reached, SsaFunc.Available, FlowsDown, SameRegs, Exec, SubOk, EntryOk, AllForeign, MakersOf, SsaFunc.Equations, Kills;
    EntryBefore(c, arrays, sub, b, i, k, r);
    EntryPtr(c, arrays, sub, b, i, k, r);
    var j := i + 1;
    forall n: nat, s' | c.Reached(m, mem, n, b, j, s')
      ensures Holds(m, KeyInstr(k, r), s')
    {
      var s := c.ReachedBack(m, mem, n, b, i, s');
      assert Holds(m, KeyInstr(k, r), s);
      StoreApart(c, arrays, m, mem, sub, n, b, i, s, k.ptr);
      LoadApart(m, c.f[b].body[i], s, s', k.ptr, r);
    }
  }

  lemma EntryPtr(c: SsaFunc, arrays: set<nat>, sub: Sub, b: Block, i: nat, k: Key, r: Reg)
    requires EntryOk(c, arrays, sub, b, i, k, r) && k.Cell?
    ensures PtrOk(MakersOf(c), arrays, k.ptr) && KeyInstr(k, r) == Load(r, k.ptr)
  {
    hide PtrOk, MakersOf, SsaFunc.Available;
  }

  /** The store goes elsewhere. */
  lemma StoreApart(c: SsaFunc, arrays: set<nat>, m: Machine, mem: Mem, sub: Sub, n: nat, b: Block, i: nat, s: State, p: Value)
    requires Fit(c, arrays) && AllForeign(m.frame, arrays, m.args) && SubOk(c, m, mem, sub, b, i) && c.Reached(m, mem, n, b, i, s)
    requires b < |c.f| && i < |c.f[b].body| && c.f[b].body[i].Store? && !Kills(MakersOf(c), SubVal(sub, c.f[b].body[i].ptr), p)
    requires PtrOk(MakersOf(c), arrays, p) && c.Available(ValueRegs(p), b, i)
    ensures var x, y := Ptr(m, s.env, c.f[b].body[i].ptr), Ptr(m, s.env, p); x.Some? && y.Some? ==> x.value != y.value
  {
    hide SsaFunc.Valid, SsaFunc.Reached, SsaFunc.Before, SubOk, AllForeign, SsaFunc.Equations, Kills, Ptr, PtrOk, MakersOf;
    var w := c.f[b].body[i];
    var base := SubVal(sub, w.ptr);
    StoreAvailable(c, b, i);
    EvalSub(c, m, mem, sub, b, i, n, b, i, s, w.ptr);
    assert PointersOk(MakersOf(c), arrays, w);
    PtrSub(c, arrays, m, mem, sub, b, i, w.ptr);
    c.EquationsHold(m, mem, n, b, i, s);
    var x, y := Ptr(m, s.env, base), Ptr(m, s.env, p);
    if x.Some? && y.Some? && x.value == y.value {
      KillsAliases(c, arrays, m, b, i, s, base, p);
    }
  }

  lemma StoreAvailable(c: SsaFunc, b: Block, i: nat)
    requires c.Valid() && b < |c.f| && i < |c.f[b].body| && c.f[b].body[i].Store?
    ensures c.Available(ValueRegs(c.f[b].body[i].val), b, i) && c.Available(ValueRegs(c.f[b].body[i].ptr), b, i)
  {
    hide SsaFunc.Before, SsaFunc.Edges;
    assert c.InstrOk(b, i);
  }

  lemma LoadApart(m: Machine, w: Instr, s: State, s': State, p: Value, r: Reg)
    requires w.Store? && Exec(m, w, s) == Next(s') && Holds(m, Load(r, p), s)
    requires var x, y := Ptr(m, s.env, w.ptr), Ptr(m, s.env, p); x.Some? && y.Some? ==> x.value != y.value
    ensures Holds(m, Load(r, p), s')
  {
  }

  /** An entry in front of an instruction that does not touch it. */
  ghost predicate Spares(c: SsaFunc, m: Machine, sub: Sub, w: Instr, k: Key) {
    k.Cell? ==> if w.Store? then !Kills(MakersOf(c), SubVal(sub, w.ptr), k.ptr) else w.Call? ==> QuietAt(m, w.callee)
  }

  lemma EntryNext(c: SsaFunc, arrays: set<nat>, m: Machine, mem: Mem, sub: Sub, sub': Sub, b: Block, i: nat, k: Key, r: Reg)
    requires Fit(c, arrays) && FlowsDown(c.g) && AllForeign(m.frame, arrays, m.args) && SubOk(c, m, mem, sub, b, i)
    requires b < |c.f| && i < |c.f[b].body| && EntryOk(c, arrays, sub, b, i, k, r) && EntryHolds(c, m, mem, b, i, k, r)
    requires Spares(c, m, sub, c.f[b].body[i], k) && r !in sub'
    ensures EntryOk(c, arrays, sub', b, i + 1, k, r) && EntryHolds(c, m, mem, b, i + 1, k, r)
  {
    hide SsaFunc.Valid, SsaFunc.Available, FlowsDown, SubOk, AllForeign, MakersOf, Kills, PtrOk, QuietAt, Cached, Stands, SameKind;
    if k.Cell? {
      if c.f[b].body[i].Store? {
        CachedStore(c, arrays, m, mem, sub, b, i, k, r);
      } else {
        CachedNext(c, arrays, m, mem, sub, b, i, k, r);
      }
    }
  }

  // ---------------------------------------------------------------- a hit

  lemma HitPair(c: SsaFunc, arrays: set<nat>, m: Machine, mem: Mem, sub: Sub, t: Table, b: Block, i: nat)
    requires Fit(c, arrays) && FlowsDown(c.g) && SubOk(c, m, mem, sub, b, i) && TableOk(c, arrays, m, mem, sub, t, b, i)
    requires b < |c.f| && i < |c.f[b].body| && var k := KeyOf(SubInstr(sub, c.f[b].body[i])); k.Some? && k.value in t
    ensures Plain(c.f[b].body[i]) && PairOk(c, m, mem, c.f[b].body[i].d, t[KeyOf(SubInstr(sub, c.f[b].body[i])).value])
  {
    hide SsaFunc.Valid, SsaFunc.Reached, SsaFunc.Available, SsaFunc.Before, FlowsDown, SubOk, KeyOf, KeyInstr, Cached, Stands, PtrOk, MakersOf, SameKind, EntryOk;
    var w := c.f[b].body[i];
    var k := KeyOf(SubInstr(sub, w)).value;
    var r := t[k];
    PlainIs(sub, w);
    c.MadeIs(b, i);
    assert EntryOk(c, arrays, sub, b, i, k, r);
    EntryBefore(c, arrays, sub, b, i, k, r);
    HitKind(c, arrays, m, mem, sub, b, i, r);
    forall n: nat, s | c.Reached(m, mem, n, b, i, s)
      ensures r in s.env && Computed(m, w, s) == Some(s.env[r])
    {
      HitHolds(c, m, mem, n, b, i, s, k, r);
      KeyDest(k, r);
      KeyComputes(m, SubInstr(sub, w), r, s);
      ComputedSub(c, m, mem, sub, b, i, n, b, i, s, w);
    }
  }

  lemma KeyDest(k: Key, r: Reg)
    ensures Plain(KeyInstr(k, r)) && KeyInstr(k, r).d == r
  {
  }

  lemma PlainIs(sub: Sub, w: Instr)
    ensures Plain(SubInstr(sub, w)) <==> Plain(w)
    ensures KeyOf(SubInstr(sub, w)).Some? <==> KeyOf(w).Some?
    ensures KeyOf(w).Some? ==> Plain(w)
    ensures !w.Store? ==> SubInstr(sub, w).d == w.d
  {
  }

  lemma HitHolds(c: SsaFunc, m: Machine, mem: Mem, n: nat, b: Block, i: nat, s: State, k: Key, r: Reg)
    requires EntryHolds(c, m, mem, b, i, k, r) && c.Reached(m, mem, n, b, i, s) && c.Before(r, b, i)
    ensures Holds(m, KeyInstr(k, r), s)
  {
    hide SsaFunc.Reached, SsaFunc.Before, Holds;
  }

  lemma HitKind(c: SsaFunc, arrays: set<nat>, m: Machine, mem: Mem, sub: Sub, b: Block, i: nat, r: Reg)
    requires Fit(c, arrays) && SubOk(c, m, mem, sub, b, i) && b < |c.f| && i < |c.f[b].body| && KeyOf(SubInstr(sub, c.f[b].body[i])).Some?
    requires EntryOk(c, arrays, sub, b, i, KeyOf(SubInstr(sub, c.f[b].body[i])).value, r)
    ensures c.IsMade(r) && SameKind(c.f[b].body[i], c.Maker(r))
  {
    hide SsaFunc.Valid, SsaFunc.Available, SubOk, PtrOk, MakersOf, BaseOk, SubVal;
    var w := c.f[b].body[i];
    assert PointersOk(MakersOf(c), arrays, w);
    if w.Gep? {
      PtrSub(c, arrays, m, mem, sub, b, i, w.base);
    }
  }

  // ---------------------------------------------------------------- a miss

  lemma MissEntry(c: SsaFunc, arrays: set<nat>, m: Machine, mem: Mem, sub: Sub, b: Block, i: nat)
    requires Fit(c, arrays) && SubOk(c, m, mem, sub, b, i) && b < |c.f| == |c.g.preds| && i < |c.f[b].body| && KeyOf(SubInstr(sub, c.f[b].body[i])).Some?
    ensures var k := KeyOf(SubInstr(sub, c.f[b].body[i])).value;
      Plain(c.f[b].body[i]) && EntryOk(c, arrays, sub, b, i + 1, k, c.f[b].body[i].d) && EntryHolds(c, m, mem, b, i + 1, k, c.f[b].body[i].d)
  {
    hide SsaFunc.Valid, SsaFunc.Reached, SsaFunc.Available, SsaFunc.Before, SubOk, KeyOf, KeyInstr, PtrOk, MakersOf, SameKind, SubInstr, Cached, Stands;
    var w := c.f[b].body[i];
    var j := SubInstr(sub, w);
    var k := KeyOf(j).value;
    PlainIs(sub, w);
    c.MadeIs(b, i);
    MissKind(c, arrays, m, mem, sub, b, i);
    NotDone(c, m, mem, sub, b, i);
    OperandsSub(c, m, mem, sub, b, i, b, i, w);
    var nothing := State(map[], map[], []);
    KeyComputes(m, j, w.d, nothing);
    KeyShape(j);
    if k.Cell? {
      MissCached(c, m, mem, sub, b, i);
    } else {
      MissStands(c, m, mem, sub, b, i);
    }
  }

  lemma KeyShape(w: Instr)
    requires KeyOf(w).Some?
    ensures KeyOf(w).value.Cell? <==> w.Load?
  {
  }

  /** What is at (b, i) is not dealt with yet. */
  lemma NotDone(c: SsaFunc, m: Machine, mem: Mem, sub: Sub, b: Block, i: nat)
    requires c.Valid() && SubOk(c, m, mem, sub, b, i) && b < |c.f| && i < |c.f[b].body| && !c.f[b].body[i].Store?
    ensures c.f[b].body[i].d !in sub && forall x {:trigger x in sub} :: x in sub ==> sub[x] != c.f[b].body[i].d
  {
    hide SsaFunc.Valid, PairOk;
    c.MadeIs(b, i);
  }

  lemma MissKind(c: SsaFunc, arrays: set<nat>, m: Machine, mem: Mem, sub: Sub, b: Block, i: nat)
    requires Fit(c, arrays) && SubOk(c, m, mem, sub, b, i) && b < |c.f| && i < |c.f[b].body| && KeyOf(SubInstr(sub, c.f[b].body[i])).Some?
    ensures var k := KeyOf(SubInstr(sub, c.f[b].body[i])).value;
      !c.f[b].body[i].Store? && (k.Cell? ==> PtrOk(MakersOf(c), arrays, k.ptr)) && SameKind(KeyInstr(k, c.f[b].body[i].d), c.f[b].body[i])
  {
    hide SsaFunc.Valid, SsaFunc.Available, SubOk, PtrOk, MakersOf, BaseOk, SubVal;
    var w := c.f[b].body[i];
    assert PointersOk(MakersOf(c), arrays, w);
    if w.Gep? {
      PtrSub(c, arrays, m, mem, sub, b, i, w.base);
    } else if w.Load? {
      PtrSub(c, arrays, m, mem, sub, b, i, w.ptr);
    }
  }

  lemma MissStands(c: SsaFunc, m: Machine, mem: Mem, sub: Sub, b: Block, i: nat)
    requires c.Valid() && SubOk(c, m, mem, sub, b, i) && b < |c.f| && i < |c.f[b].body|
    requires var k := KeyOf(SubInstr(sub, c.f[b].body[i])); k.Some? && !k.value.Cell?
    ensures !c.f[b].body[i].Store? && Stands(c, m, mem, KeyOf(SubInstr(sub, c.f[b].body[i])).value, c.f[b].body[i].d)
  {
    hide SsaFunc.Valid, SsaFunc.Reached, SsaFunc.Available, SsaFunc.Before, SubOk, KeyOf, KeyInstr, SubInstr, Computed;
    var w := c.f[b].body[i];
    var k := KeyOf(SubInstr(sub, w)).value;
    PlainIs(sub, w);
    KeyShape(SubInstr(sub, w));
    c.MadeIs(b, i);
    forall n: nat, x: Block, y: nat, s | c.Reached(m, mem, n, x, y, s) && c.Before(w.d, x, y)
      ensures Holds(m, KeyInstr(k, w.d), s)
    {
      c.ReachedBounds(m, mem, n, x, y, s);
      c.EquationsHold(m, mem, n, x, y, s);
      assert c.Equation(m, s, w.d);
      c.OperandsBefore(w.d, x, y);
      KeyComputes(m, SubInstr(sub, w), w.d, s);
      KeyDest(k, w.d);
      PureIs(sub, w);
      ComputedSub(c, m, mem, sub, b, i, n, x, y, s, w);
    }
  }

  lemma PureIs(sub: Sub, w: Instr)
    ensures SubInstr(sub, w).Load? <==> w.Load?
    ensures Plain(w) && !w.Load? ==> Pure(w)
  {
  }

  lemma MissCached(c: SsaFunc, m: Machine, mem: Mem, sub: Sub, b: Block, i: nat)
    requires c.Valid() && SubOk(c, m, mem, sub, b, i) && b < |c.f| && i < |c.f[b].body|
    requires var k := KeyOf(SubInstr(sub, c.f[b].body[i])); k.Some? && k.value.Cell?
    ensures !c.f[b].body[i].Store? && Cached(c, m, mem, b, i + 1, KeyOf(SubInstr(sub, c.f[b].body[i])).value, c.f[b].body[i].d)
  {
    hide SsaFunc.Valid, SsaFunc.Reached, SsaFunc.Available, SsaFunc.Before, SubOk, KeyOf, KeyInstr, SubInstr, Exec, SameRegs;
    var w, j := c.f[b].body[i], i + 1;
    var v := SubInstr(sub, w);
    var k := KeyOf(v).value;
    PlainIs(sub, w);
    KeyShape(v);
    PureIs(sub, w);
    c.MadeIs(b, i);
    OperandsSub(c, m, mem, sub, b, i, b, i, w);
    forall n: nat, s' | c.Reached(m, mem, n, b, j, s')
      ensures Holds(m, KeyInstr(k, w.d), s')
    {
      var s := c.ReachedBack(m, mem, n, b, i, s');
      ExecPlain(m, w, s);
      ComputedSub(c, m, mem, sub, b, i, n, b, i, s, w);
      MemStays(m, w, s);
      c.ExecOthers(m, b, i, s, Operands(v));
      ComputedSame(m, v, s, s');
      KeyComputes(m, v, w.d, s');
      KeyDest(k, w.d);
    }
  }

  // ---------------------------------------------------------------- one instruction

  /** More replacements, all of results of block b. */
  ghost predicate Grows(c: SsaFunc, sub: Sub, sub': Sub, b: Block) {
    && (forall d {:trigger d in sub} :: d in sub ==> d in sub' && sub'[d] == sub[d])
    && forall d {:trigger d in sub'} :: d in sub' && d !in sub ==> d in c.sites && c.sites[d].0 == b
  }

  /** All that holds of the pass in front of an instruction. */
  ghost predicate PassOk(c: SsaFunc, arrays: set<nat>, m: Machine, mem: Mem, s: Pass, b: Block, i: nat) {
    SubOk(c, m, mem, s.sub, b, i) && TableOk(c, arrays, m, mem, s.sub, s.table, b, i)
  }

  lemma StepHit(c: SsaFunc, arrays: set<nat>, m: Machine, mem: Mem, impure: set<nat>, s: Pass, b: Block, i: nat)
    requires Ready(c, arrays, m, impure) && PassOk(c, arrays, m, mem, s, b, i)
    requires b < |c.f| && i < |c.f[b].body| && var k := KeyOf(SubInstr(s.sub, c.f[b].body[i])); k.Some? && k.value in s.table
    ensures Plain(c.f[b].body[i])
    ensures var s' := s.(sub := s.sub[c.f[b].body[i].d := s.table[KeyOf(SubInstr(s.sub, c.f[b].body[i])).value]]);
      PassOk(c, arrays, m, mem, s', b, i + 1) && Grows(c, s.sub, s'.sub, b)
  {
    hide SsaFunc.Valid, SsaFunc.Reached, SsaFunc.Available, SsaFunc.Before, FlowsDown, KeyOf, KeyInstr, EntryHolds, PtrOk, MakersOf, SameKind, PairOk, SubInstr, AllForeign,
      CallsQuiet, QuietAt, EntryOk, PointersOk;
    var w := c.f[b].body[i];
    var r := s.table[KeyOf(SubInstr(s.sub, w)).value];
    HitPair(c, arrays, m, mem, s.sub, s.table, b, i);
    c.MadeIs(b, i);
    NotDone(c, m, mem, s.sub, b, i);
    EntryDone(c, arrays, s.sub, b, i, KeyOf(SubInstr(s.sub, w)).value, r);
    var sub' := s.sub[w.d := r];
    forall k | k in s.table
      ensures EntryOk(c, arrays, sub', b, i + 1, k, s.table[k]) && EntryHolds(c, m, mem, b, i + 1, k, s.table[k])
    {
      EntryDone(c, arrays, s.sub, b, i, k, s.table[k]);
      EntryNext(c, arrays, m, mem, s.sub, sub', b, i, k, s.table[k]);
    }
  }

  lemma EntryDone(c: SsaFunc, arrays: set<nat>, sub: Sub, b: Block, i: nat, k: Key, r: Reg)
    requires EntryOk(c, arrays, sub, b, i, k, r)
    ensures Walked(c, r, b, i) && r !in sub
  {
    hide SsaFunc.Available, PtrOk, MakersOf, SameKind;
  }

  lemma SubLater(c: SsaFunc, m: Machine, mem: Mem, sub: Sub, b: Block, i: int)
    requires SubOk(c, m, mem, sub, b, i)
    ensures SubOk(c, m, mem, sub, b, i + 1)
  {
    hide PairOk;
  }

  lemma StepStays(c: SsaFunc, arrays: set<nat>, m: Machine, mem: Mem, impure: set<nat>, s: Pass, b: Block, i: nat)
    requires Ready(c, arrays, m, impure) && PassOk(c, arrays, m, mem, s, b, i) && |c.f| == |c.g.preds|
    requires b < |c.f| && i < |c.f[b].body| && var k := KeyOf(SubInstr(s.sub, c.f[b].body[i])); !(k.Some? && k.value in s.table)
    ensures PassOk(c, arrays, m, mem, s.(table := Enter(MakersOf(c), impure, s.table, SubInstr(s.sub, c.f[b].body[i]))), b, i + 1)
  {
    hide SsaFunc.Valid, SsaFunc.Reached, SsaFunc.Available, SsaFunc.Before, FlowsDown, EntryHolds, PtrOk, MakersOf, SameKind, PairOk, AllForeign, QuietAt, EntryOk, PointersOk, Kills,
      SubOk, SubVal;
    var w := c.f[b].body[i];
    var j := SubInstr(s.sub, w);
    var t' := Enter(MakersOf(c), impure, s.table, j);
    SubLater(c, m, mem, s.sub, b, i);
    forall k | k in t'
      ensures EntryOk(c, arrays, s.sub, b, i + 1, k, t'[k]) && EntryHolds(c, m, mem, b, i + 1, k, t'[k])
    {
      if KeyOf(j) == Some(k) {
        MissEntry(c, arrays, m, mem, s.sub, b, i);
      } else {
        assert k in s.table && t'[k] == s.table[k];
        EntryDone(c, arrays, s.sub, b, i, k, s.table[k]);
        EntryNext(c, arrays, m, mem, s.sub, s.sub, b, i, k, s.table[k]);
      }
    }
  }

  lemma StepOk(c: SsaFunc, arrays: set<nat>, m: Machine, mem: Mem, impure: set<nat>, s: Pass, b: Block, i: nat)
    requires Ready(c, arrays, m, impure) && PassOk(c, arrays, m, mem, s, b, i) && |c.f| == |c.g.preds|
    requires b < |c.f| && i < |c.f[b].body|
    ensures var s' := Step(MakersOf(c), impure, s, c.f[b].body[i]); PassOk(c, arrays, m, mem, s', b, i + 1) && Grows(c, s.sub, s'.sub, b)
  {
    hide Ready, PassOk, MakersOf, Enter, KeyOf, SubInstr;
    var w := c.f[b].body[i];
    var k := KeyOf(SubInstr(s.sub, w));
    PlainIs(s.sub, w);
    if k.Some? && k.value in s.table {
      StepHit(c, arrays, m, mem, impure, s, b, i);
    } else {
      StepStays(c, arrays, m, mem, impure, s, b, i);
    }
  }

  // ---------------------------------------------------------------- one block

  lemma GrowsTrans(c: SsaFunc, sub: Sub, sub': Sub, sub'': Sub, b: Block)
    requires Grows(c, sub, sub', b) && Grows(c, sub', sub'', b)
    ensures Grows(c, sub, sub'', b)
  {
  }

  lemma {:induction false} BlockOk(c: SsaFunc, arrays: set<nat>, m: Machine, mem: Mem, impure: set<nat>, s: Pass, b: Block, i: nat)
    requires Ready(c, arrays, m, impure) && PassOk(c, arrays, m, mem, s, b, 0) && |c.f| == |c.g.preds|
    requires b < |c.f| && i <= |c.f[b].body|
    ensures var s' := InBlock(MakersOf(c), impure, s, c.f[b].body[..i]); PassOk(c, arrays, m, mem, s', b, i) && Grows(c, s.sub, s'.sub, b)
  {
    hide Ready, PassOk, MakersOf, Step, Grows;
    if i > 0 {
      BlockOk(c, arrays, m, mem, impure, s, b, i - 1);
      var s1 := InBlock(MakersOf(c), impure, s, c.f[b].body[..i - 1]);
      assert c.f[b].body[..i][..i - 1] == c.f[b].body[..i - 1];
      StepOk(c, arrays, m, mem, impure, s1, b, i - 1);
      GrowsTrans(c, s.sub, s1.sub, InBlock(MakersOf(c), impure, s, c.f[b].body[..i]).sub, b);
    } else {
      GrowsRefl(c, s.sub, b);
    }
  }

  lemma GrowsRefl(c: SsaFunc, sub: Sub, b: Block)
    ensures Grows(c, sub, sub, b)
  {
  }

  // ---------------------------------------------------------------- from block to block

  /** The tables of the blocks dealt with. */
  ghost predicate EndsOk(c: SsaFunc, arrays: set<nat>, m: Machine, mem: Mem, e: Ends) {
    && |e.ends| <= |c.f|
    && forall p: Block {:trigger e.ends[p]} :: p < |e.ends| ==> TableOk(c, arrays, m, mem, e.sub, e.ends[p], p, |c.f[p].body|)
  }

  lemma SomePred(c: SsaFunc, e: Ends, b: Block, k: Key, r: Reg) returns (p: Block)
    requires b == |e.ends| < |c.g.preds| && Inherits(c.g.preds[b], e.ends, b, k, r)
    ensures InFront(c.g.preds[b], b, p) && k in e.ends[p] && e.ends[p][k] == r
  {
    p :| InFront(c.g.preds[b], b, p) && k in e.ends[p] && e.ends[p][k] == r;
  }

  /** An inherited entry, apart from what it says. */
  lemma InheritedOk(c: SsaFunc, arrays: set<nat>, m: Machine, mem: Mem, e: Ends, k: Key, r: Reg)
    requires EndsOk(c, arrays, m, mem, e) && |e.ends| < |c.f| == |c.g.preds|
    requires Inherits(c.g.preds[|e.ends|], e.ends, |e.ends|, k, r)
    ensures EntryOk(c, arrays, e.sub, |e.ends|, 0, k, r)
  {
    hide SsaFunc.Available, EntryHolds, PtrOk, MakersOf, SameKind, KeyInstr;
    var b := |e.ends|;
    var p := SomePred(c, e, b, k, r);
    assert TableOk(c, arrays, m, mem, e.sub, e.ends[p], p, |c.f[p].body|);
    assert Flows(c.g, c.sites[r].0, p);
  }

  /** A load that all predecessors have cached is cached at the beginning of the block. */
  lemma InheritedCached(c: SsaFunc, arrays: set<nat>, m: Machine, mem: Mem, e: Ends, k: Key, r: Reg)
    requires c.Valid() && FlowsDown(c.g) && Finishes(c.g) && EndsOk(c, arrays, m, mem, e) && |e.ends| < |c.f| == |c.g.preds| && k.Cell?
    requires Inherits(c.g.preds[|e.ends|], e.ends, |e.ends|, k, r)
    ensures Cached(c, m, mem, |e.ends|, 0, k, r)
  {
    hide SsaFunc.Visit, SsaFunc.Reached, SsaFunc.Available, FlowsDown, SameRegs, KeyInstr, EntryOk, Holds, EnterPhis, SsaFunc.Valid;
    var b, zero, w := |e.ends|, 0, KeyInstr(k, r);
    InheritedOk(c, arrays, m, mem, e, k, r);
    EntryBefore(c, arrays, e.sub, b, 0, k, r);
    KeyDest(k, r);
    forall n: nat, s | c.Reached(m, mem, n, b, zero, s)
      ensures Holds(m, w, s)
    {
      c.ReachedStart(m, mem, n, b, s);
      if n == 0 {
        EntryHasNone(c, m, mem, e, b, s, k, r);
        assert false;
      } else {
        var p, s0 := c.VisitBack(m, mem, n - 1, b, s);
        PredOf(c, p, b);
        InheritedFrom(c, arrays, m, mem, e, b, k, r, p);
        assert Holds(m, w, s0);
        AboveHere(c, arrays, e.sub, b, k, r);
        c.EnterOthers(m, p, b, s0, {r});
        c.EnterOthers(m, p, b, s0, Operands(w));
        OneReg(s0.env, s.env, r);
        HoldsSame(m, w, s0, s);
      }
    }
  }

  lemma EntryHasNone(c: SsaFunc, m: Machine, mem: Mem, e: Ends, b: Block, s: State, k: Key, r: Reg)
    requires c.Valid() && c.Visit(m, mem, 0) == Some((b, s)) && b == |e.ends| < |c.g.preds|
    ensures !Inherits(c.g.preds[b], e.ends, b, k, r)
  {
    hide Reachable;
  }

  lemma PredOf(c: SsaFunc, p: Block, b: Block)
    requires c.Valid() && p < |c.f| && b < |c.f| && b in c.g.succs[p]
    ensures p in c.g.preds[b]
  {
    hide Reachable;
  }

  lemma InheritedFrom(c: SsaFunc, arrays: set<nat>, m: Machine, mem: Mem, e: Ends, b: Block, k: Key, r: Reg, p: Block)
    requires Finishes(c.g) && EndsOk(c, arrays, m, mem, e) && b == |e.ends| < |c.f| == |c.g.preds| && k.Cell? && Inherits(c.g.preds[b], e.ends, b, k, r) && p in c.g.preds[b]
    ensures p < |c.f| && Cached(c, m, mem, p, |c.f[p].body|, k, r)
  {
    hide Cached, EntryOk;
    var q := SomePred(c, e, b, k, r);
    assert OneInFront(c.g.preds[b], b) && InFront(c.g.preds[b], b, p);
    assert TableOk(c, arrays, m, mem, e.sub, e.ends[p], p, |c.f[p].body|);
  }

  /** An inherited load and its pointer were made above. */
  lemma AboveHere(c: SsaFunc, arrays: set<nat>, sub: Sub, b: Block, k: Key, r: Reg)
    requires c.Valid() && FlowsDown(c.g) && EntryOk(c, arrays, sub, b, 0, k, r) && b < |c.f|
    ensures c.Above({r}, b) && c.Above(Operands(KeyInstr(k, r)), b)
  {
    hide Dom, KeyInstr, SameKind, PtrOk, MakersOf;
    EntryBefore(c, arrays, sub, b, 0, k, r);
    c.MadeAbove(r, b);
    forall x | x in Operands(KeyInstr(k, r))
      ensures x in c.sites && StrictDom(c.g, c.sites[x].0, b)
    {
      assert c.Before(x, c.sites[r].0, c.sites[r].1) && c.Before(x, b, 0);
      if !StrictDom(c.g, c.sites[x].0, b) {
        assert c.sites[x].0 == b;
        DomAntisym(c.g, b, c.sites[r].0);
      }
    }
  }

  lemma StartOk(c: SsaFunc, arrays: set<nat>, m: Machine, mem: Mem, e: Ends)
    requires c.Valid() && FlowsDown(c.g) && Finishes(c.g) && EndsOk(c, arrays, m, mem, e) && |e.ends| < |c.f| == |c.g.preds|
    ensures OneInFront(c.g.preds[|e.ends|], |e.ends|)
    ensures TableOk(c, arrays, m, mem, e.sub, Start(c.g.preds[|e.ends|], e.ends, |e.ends|), |e.ends|, 0)
  {
    hide SsaFunc.Valid, FlowsDown, EntryOk, Cached, Stands, Inherits, EndsOk, OneInFront;
    var b := |e.ends|;
    assert OneInFront(c.g.preds[b], b);
    var t := Start(c.g.preds[b], e.ends, b);
    forall k | k in t
      ensures EntryOk(c, arrays, e.sub, b, 0, k, t[k]) && EntryHolds(c, m, mem, b, 0, k, t[k])
    {
      assert Inherits(c.g.preds[b], e.ends, b, k, t[k]);
      InheritedOk(c, arrays, m, mem, e, k, t[k]);
      if k.Cell? {
        InheritedCached(c, arrays, m, mem, e, k, t[k]);
      } else {
        InheritedStands(c, arrays, m, mem, e, k, t[k]);
      }
    }
  }

  lemma InheritedStands(c: SsaFunc, arrays: set<nat>, m: Machine, mem: Mem, e: Ends, k: Key, r: Reg)
    requires EndsOk(c, arrays, m, mem, e) && |e.ends| < |c.f| == |c.g.preds| && !k.Cell?
    requires Inherits(c.g.preds[|e.ends|], e.ends, |e.ends|, k, r)
    ensures Stands(c, m, mem, k, r)
  {
    hide Stands, EntryOk;
    var p := SomePred(c, e, |e.ends|, k, r);
    assert TableOk(c, arrays, m, mem, e.sub, e.ends[p], p, |c.f[p].body|);
  }

  /** Earlier tables under more replacements. */
  lemma TableGrows(c: SsaFunc, arrays: set<nat>, m: Machine, mem: Mem, sub: Sub, sub': Sub, t: Table, p: Block, i: nat, b: Block)
    requires TableOk(c, arrays, m, mem, sub, t, p, i) && Grows(c, sub, sub', b) && p < b
    ensures TableOk(c, arrays, m, mem, sub', t, p, i)
  {
    hide EntryHolds, SsaFunc.Available, PtrOk, MakersOf, SameKind, SsaFunc.IsMade;
    forall k | k in t
      ensures EntryOk(c, arrays, sub', p, i, k, t[k]) && EntryHolds(c, m, mem, p, i, k, t[k])
    {
      assert EntryOk(c, arrays, sub, p, i, k, t[k]);
    }
  }

  // ---------------------------------------------------------------- the whole function

  lemma {:induction false} PassIsOk(c: SsaFunc, arrays: set<nat>, m: Machine, mem: Mem, impure: set<nat>, k: nat)
    requires Ready(c, arrays, m, impure) && Finishes(c.g) && k <= |c.f| == |c.g.preds|
    ensures var e := UpTo(c, impure, k); SubOk(c, m, mem, e.sub, k, 0) && EndsOk(c, arrays, m, mem, e)
  {
    hide SubOk, TableOk, MakersOf, Start, InBlock, FlowsDown, Fit, AllForeign, CallsQuiet, OneInFront;
    if k == 0 {
      NothingOk(c, m, mem);
    } else {
      var b := k - 1;
      PassIsOk(c, arrays, m, mem, impure, b);
      var e := UpTo(c, impure, b);
      ReadyParts(c, arrays, m, impure);
      StartOk(c, arrays, m, mem, e);
      var s := Pass(e.sub, Start(c.g.preds[b], e.ends, b));
      BlockOk(c, arrays, m, mem, impure, s, b, |c.f[b].body|);
      assert c.f[b].body[..|c.f[b].body|] == c.f[b].body;
      var s' := InBlock(MakersOf(c), impure, s, c.f[b].body);
      NextBlock(c, m, mem, s'.sub, b, |c.f[b].body|);
      var e' := Ends(s'.sub, e.ends + [s'.table]);
      forall p: Block | p < k
        ensures TableOk(c, arrays, m, mem, e'.sub, e'.ends[p], p, |c.f[p].body|)
      {
        if p < b {
          assert e'.ends[p] == e.ends[p];
          TableGrows(c, arrays, m, mem, e.sub, e'.sub, e.ends[p], p, |c.f[p].body|, b);
        }
      }
    }
  }

  lemma ReadyParts(c: SsaFunc, arrays: set<nat>, m: Machine, impure: set<nat>)
    requires Ready(c, arrays, m, impure)
    ensures c.Valid() && FlowsDown(c.g)
  {
    hide SsaFunc.Valid;
  }

  lemma NothingOk(c: SsaFunc, m: Machine, mem: Mem)
    ensures SubOk(c, m, mem, map[], 0, 0)
  {
  }

  lemma NextBlock(c: SsaFunc, m: Machine, mem: Mem, sub: Sub, b: Block, i: nat)
    requires SubOk(c, m, mem, sub, b, i)
    ensures SubOk(c, m, mem, sub, b + 1, 0)
  {
    hide PairOk;
  }
}
