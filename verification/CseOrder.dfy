/** Where the reuse of expressions finishes, and where it is right. */
module CseOrder {
  import opened Arithmetic
  import opened Cfg
  import opened ArrayIr
  import opened ArraySsa
  import opened CseTables
  import opened CseFacts
  import opened CseSteps
  import C = CommonSubExper

  /** Every replacement has been computed on every way to what it replaces. */
  ghost predicate Placed(c: SsaFunc, sub: Sub) {
    forall d {:trigger d in sub} :: d in sub ==> c.IsMade(d) && c.Before(sub[d], c.sites[d].0, c.sites[d].1)
  }

  /** No more than two ways on. */
  ghost predicate Branches(g: Graph) { forall b {:trigger g.succs[b]} :: 0 <= b < |g.succs| ==> |g.succs[b]| <= 2 }

  /** Nothing comes back from a call, and there are no arguments. */
  function Silent(): Machine { Machine(0, [], (f: nat, args: seq<Datum>, mem: Mem, out: seq<int>) => NoReply) }

  lemma FlowsDownPlaces(c: SsaFunc, arrays: set<nat>, impure: set<nat>)
    requires Fit(c, arrays) && FlowsDown(c.g) && Finishes(c.g) && |c.f| == |c.g.preds|
    ensures Placed(c, Replaced(c, impure))
  {
    hide SsaFunc.Valid, FlowsDown, Finishes, Copies, SsaFunc.Before, SameKind, EndsOk;
    SilentReady(c, arrays, impure);
    PassIsOk(c, arrays, Silent(), map[], impure, |c.f|);
  }

  lemma SilentReady(c: SsaFunc, arrays: set<nat>, impure: set<nat>)
    requires Fit(c, arrays) && FlowsDown(c.g)
    ensures Ready(c, arrays, Silent(), impure)
  {
    hide Fit, FlowsDown;
  }

  // ---------------------------------------------------------------- a function for every other graph

  const SUM: Key := Op(Param(0), Add, Param(1))

  function TermFor(succs: seq<Block>): Term {
    if |succs| == 0 then RetVoid
    else if |succs| == 1 then Br(succs[0])
    else CondBr(Const(0, 0), succs[1], succs[0])
  }

  function SumIn(d: Reg): Instr { Binary(d, Add, Param(0), Param(1)) }

  /** Blocks x and b compute the same, and b puts it out. */
  function BodyFor(x: Block, b: Block, i: Block): seq<Instr> {
    if i == x then [SumIn(0)] else if i == b then [SumIn(1), Call(2, 0, [Res(1)])] else []
  }

  function BlocksFor(g: Graph, x: Block, b: Block): Func {
    seq(|g.succs|, i requires 0 <= i < |g.succs| => BasicBlock([], BodyFor(x, b, i), TermFor(g.succs[i])))
  }

  function Witness(g: Graph, x: Block, b: Block): SsaFunc {
    SsaFunc(g, BlocksFor(g, x, b), map[0 := (x, 0), 1 := (b, 0), 2 := (b, 1)])
  }

  lemma WitnessEdges(g: Graph, x: Block, b: Block)
    requires g.WellFormed() && Branches(g)
    ensures Witness(g, x, b).Edges() && |Witness(g, x, b).f| == |g.preds| == g.Size()
  {
    hide BodyFor, Reachable;
  }

  lemma WitnessSites(g: Graph, x: Block, b: Block, r: Reg)
    requires x < g.Size() && b < g.Size() && x != b
    ensures Witness(g, x, b).SiteOk(r)
  {
    hide TermFor;
  }

  lemma WitnessInstr(g: Graph, x: Block, b: Block, i: Block, j: nat)
    requires x < g.Size() && b < g.Size() && x != b && i < g.Size() && j < |BodyFor(x, b, i)|
    ensures var c := Witness(g, x, b);
      c.f[i].body == BodyFor(x, b, i) && c.InstrOk(i, j) && PointersOk(MakersOf(c), {}, c.f[i].body[j])
  {
    hide TermFor, StrictDom, MakersOf;
  }

  lemma WitnessFits(g: Graph, x: Block, b: Block)
    requires g.WellFormed() && Branches(g) && x < g.Size() && b < g.Size() && x != b
    ensures Fit(Witness(g, x, b), {}) && |Witness(g, x, b).f| == |g.preds|
  {
    hide SsaFunc.Edges, SsaFunc.InstrOk, SsaFunc.SiteOk, PointersOk, MakersOf, TermFor, BodyFor, Graph.WellFormed;
    var c := Witness(g, x, b);
    WitnessEdges(g, x, b);
    forall i, j | 0 <= i < |c.f| && 0 <= j < |c.f[i].body|
      ensures c.InstrOk(i, j) && PointersOk(MakersOf(c), {}, c.f[i].body[j])
    {
      WitnessInstr(g, x, b, i, j);
    }
    forall i | 0 <= i < |c.f|
      ensures c.TermOk(i)
    {
      NoUses(g.succs[i]);
    }
    forall r
      ensures c.SiteOk(r)
    {
      WitnessSites(g, x, b, r);
    }
  }

  lemma NoUses(succs: seq<Block>)
    ensures ListRegs(TermUses(TermFor(succs))) == {}
  {
  }

  /** An entry of x flows only to later blocks. */
  lemma {:induction false} FlowsLater(g: Graph, x: Block, b: Block)
    requires b < |g.preds| && Flows(g, x, b)
    ensures x <= b
    decreases b
  {
    if x != b {
      var p: Block :| InFront(g.preds[b], b, p) && Flows(g, x, p);
      FlowsLater(g, x, p);
    }
  }

  /** What comes to block i is the entry of x, if that flows there. */
  ghost function Came(g: Graph, x: Block, i: Block): Table
    requires i < |g.preds|
  {
    if Flows(g, x, i) then map[SUM := 0] else map[]
  }

  lemma CameStart(g: Graph, x: Block, ends: seq<Table>, i: Block)
    requires i == |ends| < |g.preds| && OneInFront(g.preds[i], i) && forall p: Block {:trigger ends[p]} :: p < i ==> ends[p] == Came(g, x, p)
    ensures Start(g.preds[i], ends, i) == if i != x then Came(g, x, i) else map[]
  {
    hide OneInFront;
    if i != x && Flows(g, x, i) {
      var p: Block :| InFront(g.preds[i], i, p) && Flows(g, x, p);
      assert ends[p] == map[SUM := 0];
      SumCame(g.preds[i], ends, i, p, 0);
    } else {
      forall p: Block | InFront(g.preds[i], i, p)
        ensures ends[p] == map[]
      {
        if i == x && Flows(g, x, p) {
          FlowsLater(g, x, p);
        }
        assert ends[p] == Came(g, x, p);
      }
      NothingCame(g.preds[i], ends, i);
    }
  }

  lemma NothingCame(preds: seq<Block>, ends: seq<Table>, i: Block)
    requires i == |ends| && OneInFront(preds, i) && forall p: Block {:trigger InFront(preds, i, p)} :: InFront(preds, i, p) ==> ends[p] == map[]
    ensures Start(preds, ends, i) == map[]
  {
    forall k, r
      ensures !Inherits(preds, ends, i, k, r)
    {
    }
    var t := Start(preds, ends, i);
    assert forall k {:trigger k in t} :: k in t ==> Inherits(preds, ends, i, k, t[k]);
  }

  lemma SumCame(preds: seq<Block>, ends: seq<Table>, i: Block, p: Block, r: Reg)
    requires i == |ends| && OneInFront(preds, i) && InFront(preds, i, p) && ends[p] == map[SUM := r]
    ensures Start(preds, ends, i) == map[SUM := r]
  {
    var t := Start(preds, ends, i);
    assert Inherits(preds, ends, i, SUM, r);
    assert SUM in t && t[SUM] == r;
    forall k | k in t
      ensures k == SUM
    {
      assert Inherits(preds, ends, i, k, t[k]);
      var q: Block :| InFront(preds, i, q) && k in ends[q] && ends[q][k] == t[k];
      assert q == p;
    }
  }

  lemma SumStep(made: Makers, impure: set<nat>, sub: Sub, t: Table, d: Reg)
    ensures Step(made, impure, Pass(sub, t), SumIn(d)) ==
      if SUM in t then Pass(sub[d := t[SUM]], t) else Pass(sub, t[SUM := d])
  {
  }

  lemma CallStep(made: Makers, impure: set<nat>, s: Pass)
    ensures Step(made, impure, s, Call(2, 0, [Res(1)])).sub == s.sub
  {
  }

  /** Up to b nothing is replaced, and the tables hold what has come. */
  lemma {:induction false} WitnessBefore(g: Graph, x: Block, b: Block, impure: set<nat>, k: nat)
    requires Finishes(g) && |Witness(g, x, b).f| == |g.preds| && k <= b < |g.preds| && x != b
    ensures var e := UpTo(Witness(g, x, b), impure, k);
      e.sub == map[] && forall p: Block {:trigger e.ends[p]} :: p < k ==> e.ends[p] == Came(g, x, p)
  {
    hide Step, Start, Flows;
    if k > 0 {
      var c, i := Witness(g, x, b), k - 1;
      WitnessBefore(g, x, b, impure, i);
      var e := UpTo(c, impure, i);
      CameStart(g, x, e.ends, i);
      var t := Start(g.preds[i], e.ends, i);
      assert c.f[i].body == BodyFor(x, b, i);
      if i == x {
        SumStep(MakersOf(c), impure, map[], map[], 0);
        OneInBlock(MakersOf(c), impure, Pass(map[], t), SumIn(0));
        FlowsSelf(g, x);
      }
    }
  }

  lemma FlowsSelf(g: Graph, x: Block)
    requires x < |g.preds|
    ensures Flows(g, x, x)
  {
  }

  lemma OneInBlock(made: Makers, impure: set<nat>, s: Pass, w: Instr)
    ensures InBlock(made, impure, s, [w]) == Step(made, impure, s, w)
  {
    hide Step;
    assert [w][..0] == [];
  }

  lemma TwoInBlock(made: Makers, impure: set<nat>, s: Pass, v: Instr, w: Instr)
    ensures InBlock(made, impure, s, [v, w]) == Step(made, impure, Step(made, impure, s, v), w)
  {
    hide Step;
    assert [v, w][..1] == [v];
    OneInBlock(made, impure, s, v);
  }

  /** From b on 1 is replaced by 0. */
  lemma {:induction false} WitnessBehind(g: Graph, x: Block, b: Block, impure: set<nat>, k: nat)
    requires Finishes(g) && |Witness(g, x, b).f| == |g.preds| && b < k <= |g.preds| && x != b && Flows(g, x, b)
    ensures UpTo(Witness(g, x, b), impure, k).sub == map[1 := 0]
  {
    hide Step, Start, Flows;
    var c, i := Witness(g, x, b), k - 1;
    var e := UpTo(c, impure, i);
    var t := Start(g.preds[i], e.ends, i);
    assert c.f[i].body == BodyFor(x, b, i);
    if i == b {
      WitnessBefore(g, x, b, impure, b);
      CameStart(g, x, e.ends, b);
      SumStep(MakersOf(c), impure, map[], t, 1);
      CallStep(MakersOf(c), impure, Step(MakersOf(c), impure, Pass(map[], t), SumIn(1)));
      TwoInBlock(MakersOf(c), impure, Pass(map[], t), SumIn(1), Call(2, 0, [Res(1)]));
    } else {
      WitnessBehind(g, x, b, impure, i);
      FlowsLater(g, x, b);
    }
  }

  /** Where an entry can come to a block round where it was made, some function gets a
      replacement that has not been computed on every way. */
  lemma RoundMisplaces(g: Graph, x: Block, b: Block, impure: set<nat>)
    requires g.WellFormed() && Branches(g) && Finishes(g) && b < |g.preds| && Flows(g, x, b) && !Dom(g, x, b)
    ensures var c := Witness(g, x, b); c.g == g && Fit(c, {}) && |c.f| == |g.preds| && !Placed(c, Replaced(c, impure))
  {
    hide Dom, Fit, Flows, Reachable, Finishes;
    DomRefl(g, b);
    FlowsLater(g, x, b);
    WitnessFits(g, x, b);
    var c := Witness(g, x, b);
    WitnessBehind(g, x, b, impure, |g.preds|);
    assert 1 in Replaced(c, impure) && Replaced(c, impure)[1] == 0;
    assert !c.Before(0, b, 0);
  }

  /** On a graph the pass finishes on, it places its replacements in all functions iff
      entries flow down. */
  lemma FlowsDownIsExact(g: Graph, impure: set<nat>)
    requires g.WellFormed() && Branches(g) && Finishes(g)
    ensures FlowsDown(g) <==> forall c: SsaFunc, arrays {:trigger Fit(c, arrays)} ::
      c.g == g && Fit(c, arrays) && |c.f| == |g.preds| ==> Placed(c, Replaced(c, impure))
  {
    hide Dom, Fit, Placed, Flows, Graph.WellFormed, Branches, Replaced, Finishes;
    if FlowsDown(g) {
      forall c: SsaFunc, arrays | c.g == g && Fit(c, arrays) && |c.f| == |g.preds|
        ensures Placed(c, Replaced(c, impure))
      {
        FlowsDownPlaces(c, arrays, impure);
      }
    } else {
      var x: Block, b: Block :| b < |g.preds| && Flows(g, x, b) && !Dom(g, x, b);
      RoundMisplaces(g, x, b, impure);
    }
  }

  // ---------------------------------------------------------------- an if

  /** int f(int a) { if (a) { output(1); } return 0; } */
  function PlainIf(): Func {
    [BasicBlock([], [Compare(0, Ne, Param(0), Const(0, 0))], CondBr(Res(0), 1, 2)),
     BasicBlock([], [Call(1, 0, [Const(1, 1)])], Br(2)),
     BasicBlock([], [], Ret(Const(2, 0)))]
  }

  function PlainForm(): SsaFunc {
    SsaFunc(Graph([[2, 1], [2], []], [[], [0], [0, 1]]), PlainIf(), map[0 := (0, 0), 1 := (1, 0)])
  }

  lemma PlainEdges()
    ensures PlainForm().g.WellFormed()
  {
    var g := PlainForm().g;
    assert g.preds == [[], [0], [0, 1]] && g.succs == [[2, 1], [2], []];
    assert g.preds[1][0] == 0 && g.preds[2][0] == 0 && g.preds[2][1] == 1;
    assert g.succs[0][0] == 2 && g.succs[0][1] == 1 && g.succs[1][0] == 2;
    assert IsPath(g, [0], 0) && IsPath(g, [0, 1], 1) && IsPath(g, [0, 2], 2);
    assert g.InRange() && g.Mirrored();
    hide IsPath;
    assert Reachable(g, 0) && Reachable(g, 1) && Reachable(g, 2);
  }

  lemma PlainFits()
    ensures Fit(PlainForm(), {})
  {
    PlainEdges();
    var c := PlainForm();
    hide Graph.WellFormed, StrictDom, MakersOf;
    assert c.Before(0, 0, 1);
    assert ListRegs([Const(1, 1)]) == {} && ListRegs(TermUses(Ret(Const(2, 0)))) == {};
    forall r
      ensures c.SiteOk(r)
    {
    }
  }

  /** The block behind the if has both the test and the then-side in front. */
  lemma PlainHangs()
    ensures !Finishes(PlainForm().g)
  {
    var g := PlainForm().g;
    assert g.preds[2] == [0, 1] && g.preds[2][0] == 0 && g.preds[2][1] == 1;
    assert InFront(g.preds[2], 2, 0) && InFront(g.preds[2], 2, 1);
    assert !OneInFront(g.preds[2], 2);
  }

  /** However long one waits, the pass has not come back from it. */
  method PlainIfHangs(turns: nat, impure: set<nat>) returns (ended: bool)
    ensures Fit(PlainForm(), {}) && !ended
  {
    PlainFits();
    PlainHangs();
    var c := PlainForm();
    assert c.Valid() && |c.f| == |c.g.preds|;
    hide Fit, SsaFunc.Valid, Finishes, MakersOf;
    var pass := new C.CommonSubExper(c.g.preds, MakersOf(c), impure, c.f);
    ended := pass.Run(turns, c);
  }

  // ---------------------------------------------------------------- a loop within an if

  /** int f(int a, int c) { if (a) { while (c) ; } else { output(a + c); } return a + c; }
      The block behind the if stands before the blocks of the loop. */
  function Nested(): Func {
    [BasicBlock([], [Compare(0, Ne, Param(0), Const(0, 0))], CondBr(Res(0), 1, 2)),
     BasicBlock([], [], Br(4)),
     BasicBlock([], [SumIn(2), Call(3, 0, [Res(2)])], Br(3)),
     BasicBlock([], [SumIn(4)], Ret(Res(4))),
     BasicBlock([], [Compare(1, Ne, Param(1), Const(0, 0))], CondBr(Res(1), 5, 6)),
     BasicBlock([], [], Br(4)),
     BasicBlock([], [], Br(3))]
  }

  function NestedForm(): SsaFunc {
    SsaFunc(Graph([[2, 1], [4], [3], [], [6, 5], [4], [3]], [[], [0], [0], [2, 6], [1, 5], [4], [4]]), Nested(),
            map[0 := (0, 0), 1 := (4, 0), 2 := (2, 0), 3 := (2, 1), 4 := (3, 0)])
  }

  lemma NestedSteps()
    ensures var s := NestedForm().g.succs; |s| == 7 && 1 in s[0] && 2 in s[0] && 4 in s[1] && 5 in s[4] && 6 in s[4] && 3 in s[6]
  {
    var s := NestedForm().g.succs;
    assert s[0] == [2, 1] && s[1] == [4] && s[4] == [6, 5] && s[6] == [3];
    assert s[0][0] == 2 && s[0][1] == 1 && s[1][0] == 4 && s[4][0] == 6 && s[4][1] == 5 && s[6][0] == 3;
  }

  lemma NestedWays()
    ensures var g := NestedForm().g;
      && IsPath(g, [0], 0) && IsPath(g, [0, 1], 1) && IsPath(g, [0, 2], 2) && IsPath(g, [0, 1, 4], 4)
      && IsPath(g, [0, 1, 4, 5], 5) && IsPath(g, [0, 1, 4, 6], 6) && IsPath(g, [0, 1, 4, 6, 3], 3)
  {
    var g := NestedForm().g;
    NestedSteps();
    hide NestedForm;
    assert IsPath(g, [0], 0);
    hide IsPath;
    PathExtend(g, [0], 0, 1);
    PathExtend(g, [0], 0, 2);
    PathExtend(g, [0, 1], 1, 4);
    PathExtend(g, [0, 1, 4], 4, 5);
    PathExtend(g, [0, 1, 4], 4, 6);
    PathExtend(g, [0, 1, 4, 6], 6, 3);
    assert [0] + [1] == [0, 1] && [0] + [2] == [0, 2] && [0, 1] + [4] == [0, 1, 4];
    assert [0, 1, 4] + [5] == [0, 1, 4, 5] && [0, 1, 4] + [6] == [0, 1, 4, 6] && [0, 1, 4, 6] + [3] == [0, 1, 4, 6, 3];
  }

  lemma NestedLists()
    ensures NestedForm().g.InRange() && NestedForm().g.Mirrored()
  {
    var g := NestedForm().g;
    assert g.preds == [[], [0], [0], [2, 6], [1, 5], [4], [4]] && g.succs == [[2, 1], [4], [3], [], [6, 5], [4], [3]];
    assert g.preds[1][0] == 0 && g.preds[2][0] == 0 && g.preds[3][0] == 2 && g.preds[3][1] == 6 && g.preds[4][0] == 1 && g.preds[4][1] == 5
      && g.preds[5][0] == 4 && g.preds[6][0] == 4;
    assert g.succs[0][0] == 2 && g.succs[0][1] == 1 && g.succs[1][0] == 4 && g.succs[2][0] == 3 && g.succs[4][0] == 6 && g.succs[4][1] == 5
      && g.succs[5][0] == 4 && g.succs[6][0] == 3;
  }

  lemma NestedEdges()
    ensures NestedForm().g.WellFormed()
  {
    var g := NestedForm().g;
    NestedWays();
    NestedLists();
    hide IsPath, Graph.Mirrored;
    assert g.Size() == 7 && forall b :: 0 <= b < 7 ==> Reachable(g, b);
  }

  /** The pass comes back: of two predecessors one always stands behind. */
  lemma NestedFinishes()
    ensures Finishes(NestedForm().g)
  {
    var g := NestedForm().g;
    assert g.preds == [[], [0], [0], [2, 6], [1, 5], [4], [4]];
    forall b: Block | b < 7
      ensures OneInFront(g.preds[b], b)
    {
    }
  }

  lemma NestedInstr(b: Block, i: nat)
    requires b < 7 && i < |NestedForm().f[b].body|
    ensures var c := NestedForm(); c.InstrOk(b, i) && PointersOk(MakersOf(c), {}, c.f[b].body[i])
  {
    hide StrictDom, MakersOf;
    var c := NestedForm();
    assert c.Before(2, 2, 1);
    assert ListRegs([Res(2)]) == {2};
  }

  lemma NestedTerm(b: Block)
    requires b < 7
    ensures var c := NestedForm(); c.TermOk(b) && c.f[b].phis == [] && c.g.succs[b] == Targets(c.f[b].term)
  {
    hide StrictDom;
    var c := NestedForm();
    assert c.Before(0, 0, 1) && c.Before(1, 4, 1) && c.Before(4, 3, 1);
  }

  lemma NestedSites(r: Reg)
    ensures NestedForm().SiteOk(r)
  {
  }

  lemma NestedFits()
    ensures Fit(NestedForm(), {})
  {
    NestedEdges();
    var c := NestedForm();
    assert |c.f| == 7 == c.g.Size();
    hide Graph.WellFormed, StrictDom, NestedForm, SsaFunc.InstrOk, SsaFunc.TermOk, SsaFunc.SiteOk, PointersOk, MakersOf;
    forall b: Block | b < 7
      ensures c.TermOk(b) && c.f[b].phis == [] && c.g.succs[b] == Targets(c.f[b].term)
    {
      NestedTerm(b);
    }
    forall b: Block, i: nat | b < 7 && i < |c.f[b].body|
      ensures c.InstrOk(b, i) && PointersOk(MakersOf(c), {}, c.f[b].body[i])
    {
      NestedInstr(b, i);
    }
    forall r
      ensures c.SiteOk(r)
    {
      NestedSites(r);
    }
  }

  /** Behind the first blocks. */
  lemma NestedTables(impure: set<nat>)
    requires Finishes(NestedForm().g)
    ensures UpTo(NestedForm(), impure, 3) == Ends(map[], [map[], map[], map[SUM := 2]])
  {
    var c, none := NestedForm(), Pass(map[], map[]);
    var made := MakersOf(c);
    hide Step, Start, MakersOf, Finishes;
    NothingCame([], [], 0);
    TestStep(made, impure, none, 0, 0);
    OneInBlock(made, impure, none, Compare(0, Ne, Param(0), Const(0, 0)));
    assert UpTo(c, impure, 0) == Ends(map[], []);
    assert UpTo(c, impure, 1) == Ends(map[], [map[]]);
    NothingCame([0], [map[]], 1);
    assert UpTo(c, impure, 2) == Ends(map[], [map[], map[]]);
    NothingCame([0], [map[], map[]], 2);
    SumStep(made, impure, map[], map[], 2);
    OutStep(made, impure, Pass(map[], map[SUM := 2]));
    TwoInBlock(made, impure, none, SumIn(2), Call(3, 0, [Res(2)]));
  }

  lemma TestStep(made: Makers, impure: set<nat>, s: Pass, d: Reg, k: nat)
    ensures Step(made, impure, s, Compare(d, Ne, Param(k), Const(0, 0))) == s
  {
  }

  /** Output has side effects; sums stay all the same. */
  lemma OutStep(made: Makers, impure: set<nat>, s: Pass)
    requires s == Pass(map[], map[SUM := 2])
    ensures Step(made, impure, s, Call(3, 0, [Res(2)])) == s
  {
    var t := Enter(made, impure, s.table, SubInstr(map[], Call(3, 0, [Res(2)])));
    assert t == s.table;
  }

  /** The sum behind the if is replaced by the one of its else side. */
  lemma NestedReplaced(impure: set<nat>)
    requires Finishes(NestedForm().g)
    ensures Replaced(NestedForm(), impure) == map[4 := 2]
  {
    var c := NestedForm();
    var made := MakersOf(c);
    hide Step, Start, MakersOf, Finishes;
    NestedTables(impure);
    var ends: seq<Table> := [map[], map[], map[SUM := 2]];
    assert InFront([2, 6], 3, 2) by {
      assert [2, 6][0] == 2;
    }
    SumCame([2, 6], ends, 3, 2, 2);
    SumStep(made, impure, map[], map[SUM := 2], 4);
    OneInBlock(made, impure, Pass(map[], map[SUM := 2]), SumIn(4));
    assert UpTo(c, impure, 4).sub == map[4 := 2];
    var e := UpTo(c, impure, 4);
    var s := Pass(e.sub, Start(c.g.preds[4], e.ends, 4));
    TestStep(made, impure, s, 1, 1);
    OneInBlock(made, impure, s, Compare(1, Ne, Param(1), Const(0, 0)));
    assert UpTo(c, impure, 5).sub == map[4 := 2];
    assert UpTo(c, impure, 6).sub == map[4 := 2];
    assert UpTo(c, impure, 7).sub == map[4 := 2];
  }

  /** With the first argument not zero the function returned the sum; now it uses a
      result that has not been computed. */
  lemma NestedFails(m: Machine, f': Func, impure: set<nat>, mem: Mem)
    requires Finishes(NestedForm().g)
    requires m.args == [N(1), N(0)] && Rewritten(Nested(), Replaced(NestedForm(), impure), f')
    ensures Execute(m, Nested(), mem, 5) == Returned(Some(1), mem, []) && Execute(m, f', mem, 5) == Halted(Undefined, mem, [])
    ensures !FlowsDown(NestedForm().g) && !Placed(NestedForm(), Replaced(NestedForm(), impure))
  {
    hide Finishes;
    NestedReplaced(impure);
    NestedBlocks(f');
    NestedRuns(m, mem, Nested());
    NestedRuns(m, mem, f');
    NestedMisplaced(impure);
  }

  /** The pass itself comes back, with a function of which that is true. */
  method NestedGoesWrong(turns: nat, impure: set<nat>) returns (f': Func)
    ensures forall m: Machine, mem {:trigger Execute(m, f', mem, 5)} :: m.args == [N(1), N(0)] ==>
      Execute(m, Nested(), mem, 5) == Returned(Some(1), mem, []) && Execute(m, f', mem, 5) == Halted(Undefined, mem, [])
  {
    NestedFits();
    NestedFinishes();
    var c := NestedForm();
    assert c.Valid() && |c.f| == |c.g.preds| && c.f == Nested();
    hide Fit, SsaFunc.Valid, Finishes, MakersOf, Execute, Replaced, Rewritten, NestedForm, Nested;
    var pass := new C.CommonSubExper(c.g.preds, MakersOf(c), impure, c.f);
    var ended := pass.Run(turns, c);
    f' := pass.blocks;
    forall m: Machine, mem | m.args == [N(1), N(0)]
      ensures Execute(m, Nested(), mem, 5) == Returned(Some(1), mem, []) && Execute(m, f', mem, 5) == Halted(Undefined, mem, [])
    {
      NestedFails(m, f', impure, mem);
    }
  }

  lemma NestedRound()
    ensures !Dom(NestedForm().g, 2, 3) && Flows(NestedForm().g, 2, 3)
  {
    NestedWays();
    assert 2 !in [0, 1, 4, 6, 3];
    var g := NestedForm().g;
    assert g.preds[3] == [2, 6] && g.preds[3][0] == 2;
    hide Dom, Flows;
    FlowsOver(g, 2, 3);
  }

  lemma FlowsOver(g: Graph, x: Block, b: Block)
    requires b < |g.preds| && InFront(g.preds[b], b, x)
    ensures Flows(g, x, b)
  {
    FlowsSelf(g, x);
  }

  lemma NestedMisplaced(impure: set<nat>)
    requires Finishes(NestedForm().g) && Replaced(NestedForm(), impure) == map[4 := 2]
    ensures !FlowsDown(NestedForm().g) && !Placed(NestedForm(), Replaced(NestedForm(), impure))
  {
    hide Dom, Flows, Replaced, Finishes;
    NestedRound();
    var c := NestedForm();
    assert c.sites[2] == (2, 0) && c.sites[4] == (3, 0);
    assert !c.Before(2, 3, 0);
    assert 4 in Replaced(c, impure);
  }

  /** What stays of the blocks a run goes through. */
  ghost predicate LikeNested(f: Func) {
    && |f| == 7 && f[0] == Nested()[0] && f[1] == Nested()[1] && f[4] == Nested()[4] && f[6] == Nested()[6]
    && (f[3] == Nested()[3] || f[3] == BasicBlock([], [], Ret(Res(2))))
  }

  lemma NestedBlocks(f': Func)
    requires Rewritten(Nested(), map[4 := 2], f')
    ensures LikeNested(f') && f'[3] == BasicBlock([], [], Ret(Res(2)))
  {
    var sub: Sub := map[4 := 2];
    var f := Nested();
    assert sub.Keys == {4};
    TestBlock(0, 0, f[0].term);
    TestBlock(1, 1, f[4].term);
    SumBlock();
    EmptyBlock(4);
    EmptyBlock(3);
    hide SubBlock;
    assert f'[0] == SubBlock(sub.Keys, sub, f[0]) && f'[1] == SubBlock(sub.Keys, sub, f[1]);
    assert f'[3] == SubBlock(sub.Keys, sub, f[3]) && f'[4] == SubBlock(sub.Keys, sub, f[4]) && f'[6] == SubBlock(sub.Keys, sub, f[6]);
  }

  lemma TestBlock(d: Reg, k: nat, t: Term)
    requires d != 4 && t.CondBr? && t.cond == Res(d)
    ensures var bb := BasicBlock([], [Compare(d, Ne, Param(k), Const(0, 0))], t); SubBlock({4}, map[4 := 2], bb) == bb
  {
    var w := Compare(d, Ne, Param(k), Const(0, 0));
    KeepOne(w);
    assert SubPhis(map[4 := 2], []) == [] && SubBody(map[4 := 2], [w]) == [w];
  }

  lemma SumBlock()
    ensures SubBlock({4}, map[4 := 2], Nested()[3]) == BasicBlock([], [], Ret(Res(2)))
  {
    KeepOne(SumIn(4));
    assert SubPhis(map[4 := 2], []) == [] && SubBody(map[4 := 2], []) == [];
  }

  lemma EmptyBlock(t: Block)
    ensures SubBlock({4}, map[4 := 2], BasicBlock([], [], Br(t))) == BasicBlock([], [], Br(t))
  {
    assert SubPhis(map[4 := 2], []) == [] && SubBody(map[4 := 2], []) == [];
  }

  lemma KeepOne(w: Instr)
    ensures Keep({4}, [w]) == if !w.Store? && w.d == 4 then [] else [w]
  {
    assert [w][..0] == [];
  }

  lemma NestedRuns(m: Machine, mem: Mem, f: Func)
    requires m.args == [N(1), N(0)] && LikeNested(f)
    ensures Execute(m, f, mem, 5) == if f[3] == Nested()[3] then Returned(Some(1), mem, []) else Halted(Undefined, mem, [])
  {
    var s0 := State(map[], mem, []);
    var s1 := s0.(env := map[0 := N(1)]);
    var s2 := s0.(env := map[0 := N(1), 1 := N(0)]);
    OneInstr(m, f[0].body[0], s0);
    OneInstr(m, f[4].body[0], s1);
    assert ExecBody(m, f[0].body, s0) == Next(s1) && ExecTerm(m, f[0].term, s1) == Goto(1) && Entered(m, [], 0, s1) == s1;
    assert ExecBody(m, f[1].body, s1) == Next(s1) && ExecTerm(m, f[1].term, s1) == Goto(4) && Entered(m, [], 1, s1) == s1;
    assert ExecBody(m, f[4].body, s1) == Next(s2) && ExecTerm(m, f[4].term, s2) == Goto(6) && Entered(m, [], 4, s2) == s2;
    assert ExecBody(m, f[6].body, s2) == Next(s2) && ExecTerm(m, f[6].term, s2) == Goto(3) && Entered(m, [], 6, s2) == s2;
    NestedEnds(m, mem, f);
    hide ExecBody, ExecTerm, Entered;
    assert RunFrom(m, f, 6, s2, 2) == RunFrom(m, f, 3, s2, 1);
    assert RunFrom(m, f, 4, s1, 3) == RunFrom(m, f, 6, s2, 2);
    assert RunFrom(m, f, 1, s1, 4) == RunFrom(m, f, 4, s1, 3);
  }

  lemma NestedEnds(m: Machine, mem: Mem, f: Func)
    requires m.args == [N(1), N(0)] && LikeNested(f)
    ensures var s := State(map[0 := N(1), 1 := N(0)], mem, []);
      RunFrom(m, f, 3, s, 1) == if f[3] == Nested()[3] then Returned(Some(1), mem, []) else Halted(Undefined, mem, [])
  {
    var s := State(map[0 := N(1), 1 := N(0)], mem, []);
    assert Wrap(1 + 0) == 1;
    OneInstr(m, SumIn(4), s);
  }

  lemma OneInstr(m: Machine, w: Instr, s: State)
    ensures ExecBody(m, [w], s) == Exec(m, w, s)
  {
    assert [w][1..] == [];
  }
}
