/** A main that calls itself, with a test that stops the recursion. It takes no
    parameters, so it counts as free of side effects although it stores to a global,
    and a load behind the call is taken for one in front of it. Here is what the pass
    makes of that function, instruction by instruction, and a run of it before and
    behind the pass: they put out different numbers. */
module RecursiveMain {
  import opened Arithmetic
  import opened Cfg
  import opened ArrayIr
  import opened ArraySsa
  import opened SideEffects
  import opened SideEffectFuncs
  import opened CseTables
  import opened CseFacts
  import opened CseMeaning
  import opened CseCalls

  const G: Value := Global(0)

  /** int g; void main(void) { int x; g = g + 1; if (g < 2) { x = g; main(); output(g - x); return; } } */
  function Main(): Func {
    [BasicBlock([], [Load(0, G), Binary(1, Add, Res(0), Const(1, 0)), Store(Res(1), G), Load(2, G), Compare(3, Lt, Res(2), Const(2, 1))], CondBr(Res(3), 1, 2)),
     BasicBlock([], [Load(4, G), Call(5, 0, []), Load(6, G), Binary(7, Sub, Res(6), Res(4)), Call(8, 1, [Res(7)])], RetVoid),
     BasicBlock([], [], RetVoid)]
  }

  function MainForm(): SsaFunc {
    SsaFunc(Graph([[2, 1], [], []], [[], [0], [0]]), Main(),
            map[0 := (0, 0), 1 := (0, 1), 2 := (0, 3), 3 := (0, 4), 4 := (1, 0), 5 := (1, 1), 6 := (1, 2), 7 := (1, 3), 8 := (1, 4)])
  }

  /** The second load and the third become the one in the first block. */
  const SUB: Sub := map[4 := 2, 6 := 2]

  function Main'(): Func {
    [Main()[0],
     BasicBlock([], [Call(5, 0, []), Binary(7, Sub, Res(2), Res(2)), Call(8, 1, [Res(7)])], RetVoid),
     Main()[2]]
  }

  function Prog(): Program { map[0 := Main()] }

  function Prog'(): Program { map[0 := Main'()] }

  /** Function 1 is output. */
  function Output(): Outside {
    (f: nat, args: seq<Datum>, mem: Mem, out: seq<int>) => if f == 1 && |args| == 1 && args[0].N? then Reply(0, mem, [args[0].n]) else NoReply
  }

  /** The set the pass computes holds output, and not main. */
  lemma SideIsOutput()
    ensures (set f | f in {0, 1} && Effects(Prog(), 0, {0}, f)) == {1}
  {
    RootEffects(Prog(), 0, {0}, 1);
    MainNoEffects(Prog(), 0, {0});
    hide Effects;
  }

  lemma MainCallsMain()
    ensures MainCalled(Prog(), 0)
  {
    assert In(Main(), 1, 1) && Main()[1].body[1] == Call(5, 0, []);
    assert CallsOf(Prog()[0], 0);
  }

  // ---------------------------------------------------------------- the form of main

  lemma MainWays()
    ensures var g := MainForm().g; IsPath(g, [0], 0) && IsPath(g, [0, 1], 1) && IsPath(g, [0, 2], 2)
  {
    var s := MainForm().g.succs;
    assert s[0] == [2, 1] && s[0][0] == 2 && s[0][1] == 1;
  }

  lemma MainEdges()
    ensures MainForm().g.WellFormed()
  {
    var g := MainForm().g;
    MainWays();
    hide IsPath;
    assert g.preds == [[], [0], [0]] && g.succs == [[2, 1], [], []];
    assert g.preds[1][0] == 0 && g.preds[2][0] == 0;
    assert g.succs[0][0] == 2 && g.succs[0][1] == 1;
    assert g.InRange() && g.Mirrored();
    assert Reachable(g, 0) && Reachable(g, 1) && Reachable(g, 2);
  }

  lemma FirstInstr(i: nat)
    requires i < 5
    ensures MainForm().InstrOk(0, i)
  {
    hide StrictDom;
    var c := MainForm();
    assert c.Before(0, 0, 1) && c.Before(1, 0, 2) && c.Before(2, 0, 4);
  }

  lemma SecondInstr(i: nat)
    requires i < 5
    ensures MainForm().InstrOk(1, i)
  {
    hide StrictDom;
    var c := MainForm();
    assert c.Before(4, 1, 3) && c.Before(6, 1, 3) && c.Before(7, 1, 4);
    assert ListRegs([]) == {} && ListRegs([Res(7)]) == {7};
  }

  lemma MainInstr(b: Block, i: nat)
    requires b < 3 && i < |Main()[b].body|
    ensures MainForm().InstrOk(b, i)
  {
    hide SsaFunc.InstrOk, MainForm;
    if b == 0 {
      FirstInstr(i);
    } else {
      SecondInstr(i);
    }
  }

  lemma MainPointers(b: Block, i: nat)
    requires b < 3 && i < |Main()[b].body|
    ensures PointersOk(MakersOf(MainForm()), {}, Main()[b].body[i])
  {
    hide MakersOf, MainForm;
  }

  lemma MainBlock(b: Block)
    requires b < 3
    ensures var c := MainForm(); c.TermOk(b) && c.f[b].phis == [] && c.g.succs[b] == Targets(c.f[b].term)
  {
    hide StrictDom;
    assert MainForm().Before(3, 0, 5);
  }

  lemma MainSites(r: Reg)
    ensures MainForm().SiteOk(r)
  {
  }

  lemma MainFits()
    ensures Fit(MainForm(), {})
  {
    MainEdges();
    var c := MainForm();
    assert |c.f| == 3 == c.g.Size();
    assert c.f == Main();
    hide Graph.WellFormed, StrictDom, MainForm, Main, SsaFunc.InstrOk, SsaFunc.TermOk, SsaFunc.SiteOk, PointersOk, MakersOf;
    forall b: Block | b < 3
      ensures c.TermOk(b) && c.f[b].phis == [] && c.g.succs[b] == Targets(c.f[b].term)
    {
      MainBlock(b);
    }
    forall b: Block, i: nat | b < 3 && i < |c.f[b].body|
      ensures c.InstrOk(b, i) && PointersOk(MakersOf(c), {}, c.f[b].body[i])
    {
      MainInstr(b, i);
      MainPointers(b, i);
    }
    forall r
      ensures c.SiteOk(r)
    {
      MainSites(r);
    }
  }

  lemma MainFlows(x: Block, b: Block)
    requires b < 3 && Flows(MainForm().g, x, b)
    ensures Dom(MainForm().g, x, b)
  {
    var g := MainForm().g;
    assert g.preds == [[], [0], [0]];
    hide Dom;
    DomRefl(g, b);
    EntryDominates(g, b);
    if x != b {
      var p: Block :| InFront(g.preds[b], b, p) && Flows(g, x, p);
      assert Flows(g, x, 0);
    }
  }

  /** No block has two predecessors. */
  lemma MainFinishes()
    ensures Finishes(MainForm().g)
  {
    var g := MainForm().g;
    assert g.preds == [[], [0], [0]];
  }

  /** The program has the form the pass can rely on. */
  lemma ProgFormed()
    ensures Formed(Prog(), map[0 := MainForm()], {})
  {
    MainFits();
    forall x: Block, b: Block | b < 3 && Flows(MainForm().g, x, b)
      ensures Dom(MainForm().g, x, b)
    {
      MainFlows(x, b);
    }
    assert |MainForm().g.preds| == 3;
    hide Fit, Dom, Flows;
    assert FlowsDown(MainForm().g);
    assert PassesOn(Main(), {});
  }

  // ---------------------------------------------------------------- what the pass does

  lemma KeyStep(made: Makers, s: Pass, w: Instr, j: Instr, k: Key)
    requires SubInstr(s.sub, w) == j && KeyOf(j) == Some(k)
    ensures !j.Store? && Step(made, {1}, s, w) == if k in s.table then s.(sub := s.sub[j.d := s.table[k]]) else s.(table := s.table[k := j.d])
  {
  }

  /** Behind the first block: the load behind the store is cached. */
  lemma FirstBlock()
    ensures InBlock(MakersOf(MainForm()), {1}, Pass(map[], map[]), Main()[0].body) == Pass(map[], map[OpInt(Res(0), Add, 1) := 1, Cell(G) := 2])
  {
    var made, none, body := MakersOf(MainForm()), Pass(map[], map[]), Main()[0].body;
    hide MakersOf, MainForm, Step;
    var t1: Table := map[Cell(G) := 0];
    var t2: Table := t1[OpInt(Res(0), Add, 1) := 1];
    var t3: Table := map[OpInt(Res(0), Add, 1) := 1];
    var t4: Table := t3[Cell(G) := 2];
    KeyStep(made, none, body[0], body[0], Cell(G));
    KeyStep(made, Pass(map[], t1), body[1], body[1], OpInt(Res(0), Add, 1));
    StoreStep(made);
    KeyStep(made, Pass(map[], t3), body[3], body[3], Cell(G));
    CompareStep(made, t4);
    Blocks5(made, none, body, Pass(map[], t1), Pass(map[], t2), Pass(map[], t3), Pass(map[], t4), Pass(map[], t4));
  }

  lemma CompareStep(made: Makers, t: Table)
    ensures Step(made, {1}, Pass(map[], t), Compare(3, Lt, Res(2), Const(2, 1))) == Pass(map[], t)
  {
  }

  lemma StoreStep(made: Makers)
    ensures Step(made, {1}, Pass(map[], map[Cell(G) := 0, OpInt(Res(0), Add, 1) := 1]), Store(Res(1), G)) == Pass(map[], map[OpInt(Res(0), Add, 1) := 1])
  {
    assert Kills(made, G, G);
    var t := Enter(made, {1}, map[Cell(G) := 0, OpInt(Res(0), Add, 1) := 1], Store(Res(1), G));
    assert t == map[OpInt(Res(0), Add, 1) := 1];
  }

  lemma Blocks5(made: Makers, s0: Pass, body: seq<Instr>, s1: Pass, s2: Pass, s3: Pass, s4: Pass, s5: Pass)
    requires |body| == 5
    requires Step(made, {1}, s0, body[0]) == s1 && Step(made, {1}, s1, body[1]) == s2 && Step(made, {1}, s2, body[2]) == s3
    requires Step(made, {1}, s3, body[3]) == s4 && Step(made, {1}, s4, body[4]) == s5
    ensures InBlock(made, {1}, s0, body) == s5
  {
    hide Step;
    assert body[..0] == [] && body[..1][..0] == body[..0] && body[..2][..1] == body[..1] && body[..3][..2] == body[..2] && body[..4][..3] == body[..3];
    assert InBlock(made, {1}, s0, body[..1]) == s1;
    assert InBlock(made, {1}, s0, body[..2]) == s2;
    assert InBlock(made, {1}, s0, body[..3]) == s3;
    assert InBlock(made, {1}, s0, body[..4]) == s4;
  }

  lemma SecondBlock(t: Table)
    requires t == map[OpInt(Res(0), Add, 1) := 1, Cell(G) := 2]
    ensures InBlock(MakersOf(MainForm()), {1}, Pass(map[], t), Main()[1].body).sub == SUB
  {
    var made, body := MakersOf(MainForm()), Main()[1].body;
    hide MakersOf, MainForm, Step;
    var s1 := Pass(map[4 := 2], t);
    var s3 := Pass(SUB, t);
    var s4 := Pass(SUB, t[Op(Res(2), Sub, Res(2)) := 7]);
    var s5 := Step(made, {1}, s4, body[4]);
    KeyStep(made, Pass(map[], t), body[0], body[0], Cell(G));
    CallStays(made, s1);
    KeyStep(made, s1, body[2], body[2], Cell(G));
    KeyStep(made, s3, body[3], Binary(7, Sub, Res(2), Res(2)), Op(Res(2), Sub, Res(2)));
    CallSub(made, s4);
    Blocks5(made, Pass(map[], t), body, s1, s1, s3, s4, s5);
  }

  lemma CallStays(made: Makers, s: Pass)
    ensures Step(made, {1}, s, Call(5, 0, [])) == s
  {
  }

  lemma CallSub(made: Makers, s: Pass)
    ensures Step(made, {1}, s, Call(8, 1, [Res(7)])).sub == s.sub
  {
  }

  lemma MainReplaced()
    ensures Replaced(MainForm(), {1}) == SUB
  {
    var c := MainForm();
    var made := MakersOf(c);
    MainFinishes();
    var t: Table := map[OpInt(Res(0), Add, 1) := 1, Cell(G) := 2];
    FirstBlock();
    SecondBlock(t);
    hide InBlock, MakersOf, Start;
    StartFirst();
    assert UpTo(c, {1}, 0) == Ends(map[], []);
    assert UpTo(c, {1}, 1) == Ends(map[], [t]);
    StartSecond(t);
    assert UpTo(c, {1}, 2).sub == SUB;
    var e := UpTo(c, {1}, 2);
    EmptyBlock(made, Pass(SUB, Start(c.g.preds[2], e.ends, 2)));
    assert UpTo(c, {1}, 3).sub == SUB;
  }

  lemma EmptyBlock(made: Makers, s: Pass)
    ensures InBlock(made, {1}, s, []) == s
  {
  }

  lemma StartFirst()
    ensures Start([], [], 0) == map[]
  {
  }

  lemma StartSecond(t: Table)
    ensures Start([0], [t], 1) == t
  {
    var u := Start([0], [t], 1);
    assert InFront([0], 1, 0) by {
      assert [0][0] == 0;
    }
    forall k
      ensures k in u <==> k in t
      ensures k in t ==> k in u && u[k] == t[k]
    {
      if k in t {
        assert Inherits([0], [t], 1, k, t[k]);
      }
      if k in u {
        assert Inherits([0], [t], 1, k, u[k]);
      }
    }
  }

  /** So Main' is what the pass makes of main. */
  lemma MainRewritten(f': Func)
    requires Finishes(MainForm().g) && Rewritten(Main(), Replaced(MainForm(), {1}), f')
    ensures f' == Main'()
  {
    MainReplaced();
    hide Replaced;
    var f := Main();
    assert SUB.Keys == {4, 6};
    assert f'[0] == SubBlock(SUB.Keys, SUB, f[0]) && f'[1] == SubBlock(SUB.Keys, SUB, f[1]) && f'[2] == SubBlock(SUB.Keys, SUB, f[2]);
    FirstKept();
    SecondKept();
    assert SubPhis(SUB, []) == [] && SubBody(SUB, []) == [];
  }

  lemma KeepNext(gone: set<Reg>, body: seq<Instr>, k: nat)
    requires k < |body|
    ensures Keep(gone, body[..k + 1]) == Keep(gone, body[..k]) + One(gone, body[k])
  {
    assert body[..k + 1][..k] == body[..k];
  }

  lemma Keep5(gone: set<Reg>, body: seq<Instr>)
    requires |body| == 5
    ensures Keep(gone, body) == One(gone, body[0]) + One(gone, body[1]) + One(gone, body[2]) + One(gone, body[3]) + One(gone, body[4])
  {
    assert body[..0] == [] && body[..5] == body && Keep(gone, []) == [];
    hide Keep, One;
    KeepNext(gone, body, 0);
    KeepNext(gone, body, 1);
    KeepNext(gone, body, 2);
    KeepNext(gone, body, 3);
    KeepNext(gone, body, 4);
  }

  function One(gone: set<Reg>, w: Instr): seq<Instr> { if !w.Store? && w.d in gone then [] else [w] }

  lemma FirstKept()
    ensures SubBody(SUB, Keep({4, 6}, Main()[0].body)) == Main()[0].body
  {
    var body := Main()[0].body;
    Keep5({4, 6}, body);
    assert Keep({4, 6}, body) == body;
    forall k | 0 <= k < |body|
      ensures SubInstr(SUB, body[k]) == body[k]
    {
    }
  }

  lemma SecondKept()
    ensures SubBody(SUB, Keep({4, 6}, Main()[1].body)) == Main'()[1].body
  {
    var body := Main()[1].body;
    Keep5({4, 6}, body);
    var kept := [body[1], body[3], body[4]];
    assert Keep({4, 6}, body) == kept;
    assert SubAll(SUB, []) == [] && SubAll(SUB, [Res(7)]) == [Res(7)];
    assert SubInstr(SUB, body[1]) == Main'()[1].body[0] && SubInstr(SUB, body[3]) == Main'()[1].body[1] && SubInstr(SUB, body[4]) == Main'()[1].body[2];
    assert SubBody(SUB, kept) == Main'()[1].body;
  }

  // ---------------------------------------------------------------- the runs

  function Holding(n: int): Mem { map[(GlobalObj(0), 0) := n] }

  /** The first block, with n in g. */
  lemma Head(m: Machine, mem: Mem, n: int)
    requires ArrayIr.Fetch(mem, (GlobalObj(0), 0)) == n && -1 <= n <= 1
    ensures var r := ExecBody(m, Main()[0].body, State(map[], mem, []));
      && r.Next? && r.s.mem == mem[(GlobalObj(0), 0) := n + 1] && r.s.out == []
      && r.s.env == map[0 := N(n), 1 := N(n + 1), 2 := N(n + 1), 3 := N(Bit(n + 1 < 2))]
  {
    var body := Main()[0].body;
    var mem' := mem[(GlobalObj(0), 0) := n + 1];
    var s0 := State(map[], mem, []);
    var s1 := State(map[0 := N(n)], mem, []);
    var s2 := State(map[0 := N(n), 1 := N(n + 1)], mem, []);
    var s3 := State(map[0 := N(n), 1 := N(n + 1)], mem', []);
    var s4 := State(map[0 := N(n), 1 := N(n + 1), 2 := N(n + 1)], mem', []);
    var s5 := State(map[0 := N(n), 1 := N(n + 1), 2 := N(n + 1), 3 := N(Bit(n + 1 < 2))], mem', []);
    assert Wrap(n + 1) == n + 1;
    assert Exec(m, body[0], s0) == Next(s1);
    assert Exec(m, body[1], s1) == Next(s2);
    assert Exec(m, body[2], s2) == Next(s3);
    assert Exec(m, body[3], s3) == Next(s4);
    assert Exec(m, body[4], s4) == Next(s5);
    Exec5(m, body, s0, s1, s2, s3, s4, s5);
  }

  lemma Exec5(m: Machine, body: seq<Instr>, s0: State, s1: State, s2: State, s3: State, s4: State, s5: State)
    requires |body| == 5
    requires Exec(m, body[0], s0) == Next(s1) && Exec(m, body[1], s1) == Next(s2) && Exec(m, body[2], s2) == Next(s3)
    requires Exec(m, body[3], s3) == Next(s4) && Exec(m, body[4], s4) == Next(s5)
    ensures ExecBody(m, body, s0) == Next(s5)
  {
    hide Exec;
    assert ExecBody(m, body[5..], s5) == Next(s5);
    assert body[4..][1..] == body[5..] && body[3..][1..] == body[4..] && body[2..][1..] == body[3..] && body[1..][1..] == body[2..];
    assert ExecBody(m, body[4..], s4) == Next(s5);
    assert ExecBody(m, body[3..], s3) == Next(s5);
    assert ExecBody(m, body[2..], s2) == Next(s5);
    assert ExecBody(m, body[1..], s1) == Next(s5);
  }

  /** With 1 in g, main only counts. */
  lemma InnerRuns(p: Program, out: seq<int>, depth: nat, frame: nat)
    requires depth > 0 && 0 in p && |p[0]| == 3 && p[0][0] == Main()[0] && p[0][2] == Main()[2]
    ensures CallIn(p, Output(), 3, depth, frame, 0, [], Holding(1), out) == Reply(0, Holding(2), [])
  {
    var m := Inside(p, Output(), 3, depth, frame, [], out);
    Head(m, Holding(1), 1);
    var s := ExecBody(m, Main()[0].body, State(map[], Holding(1), [])).s;
    assert s.mem == Holding(2);
    hide ExecBody, CallIn, Inside;
    assert ExecTerm(m, p[0][0].term, s) == Goto(2) && Entered(m, [], 0, s) == s;
    EndRuns(m, p[0], s, 2);
    assert RunFrom(m, p[0], 0, State(map[], Holding(1), []), 3) == RunFrom(m, p[0], 2, s, 2);
    assert Execute(m, p[0], Holding(1), 3) == Returned(None, Holding(2), []);
    AnswerIs(Holding(1), Holding(2), frame, []);
    CallIs(p, depth, frame, Holding(1), out);
  }

  lemma EndRuns(m: Machine, f: Func, s: State, k: nat)
    requires |f| == 3 && f[2] == Main()[2] && k > 0
    ensures RunFrom(m, f, 2, s, k) == Returned(None, s.mem, s.out)
  {
  }

  lemma TwoBlocks(m: Machine, f: Func, s: State, t: State)
    requires |f| == 3 && f[0] == Main()[0] && f[1].phis == [] && f[1].term == RetVoid
    requires ExecBody(m, f[0].body, State(map[], map[], [])) == Next(s) && ExecBody(m, f[1].body, s) == Next(t)
    requires 3 in s.env && s.env[3] == N(1)
    ensures Execute(m, f, map[], 3) == Returned(None, t.mem, t.out)
  {
    hide ExecBody;
    assert ExecTerm(m, f[0].term, s) == Goto(1) && Entered(m, [], 0, s) == s;
    assert RunFrom(m, f, 1, s, 2) == Returned(None, t.mem, t.out);
    assert RunFrom(m, f, 0, State(map[], map[], []), 3) == RunFrom(m, f, 1, s, 2);
  }

  lemma CallIs(p: Program, depth: nat, frame: nat, mem: Mem, out: seq<int>)
    requires depth > 0 && 0 in p
    ensures CallIn(p, Output(), 3, depth, frame, 0, [], mem, out) ==
      Answer(Execute(Inside(p, Output(), 3, depth, frame, [], out), p[0], mem, 3), mem, frame)
  {
    hide Execute, Inside;
  }

  lemma AnswerIs(mem: Mem, mem': Mem, frame: nat, out: seq<int>)
    requires (mem == map[] || mem == Holding(1)) && mem' == Holding(2)
    ensures Answer(Returned(None, mem', out), mem, frame) == Reply(0, mem', out)
  {
    assert Back(mem, mem', frame) == mem';
  }

  /** Puts out the difference of the two results. */
  lemma OutputRuns(m: Machine, s: State, d: int)
    requires 7 in s.env && s.env[7] == N(d) && m.callees(1, [N(d)], s.mem, s.out) == Reply(0, s.mem, [d])
    ensures Exec(m, Call(8, 1, [Res(7)]), s) == Next(State(s.env[8 := N(0)], s.mem, s.out + [d]))
  {
    assert [Res(7)][1..] == [];
    assert EvalAll(m, s.env, []) == Some([]);
    var none: seq<Datum> := [];
    assert [N(d)] + none == [N(d)];
    assert EvalAll(m, s.env, [Res(7)]) == Some([N(d)]);
  }

  lemma OuterMachine(p: Program, m: Machine)
    requires 0 in p && 1 !in p && |p[0]| == 3 && p[0][0] == Main()[0] && p[0][2] == Main()[2]
    requires m == Inside(p, Output(), 3, 2, 0, [], [])
    ensures m.callees(0, [], Holding(1), []) == Reply(0, Holding(2), [])
    ensures forall d :: m.callees(1, [N(d)], Holding(2), []) == Reply(0, Holding(2), [d])
  {
    InnerRuns(p, [] + [], 1, 1);
    hide Execute;
  }

  /** The original puts out 1. */
  lemma OuterRuns()
    ensures CallIn(Prog(), Output(), 3, 2, 0, 0, [], map[], []) == Reply(0, Holding(2), [1])
  {
    var m := Inside(Prog(), Output(), 3, 2, 0, [], []);
    OuterMachine(Prog(), m);
    Head(m, map[], 0);
    hide CallIn, Inside, ExecBody, Execute;
    var s := ExecBody(m, Main()[0].body, State(map[], map[], [])).s;
    assert s.mem == Holding(1) && s.env[3] == N(1);
    Tail(m, s);
    var t := ExecBody(m, Main()[1].body, s).s;
    TwoBlocks(m, Main(), s, t);
    AnswerIs(map[], Holding(2), 0, [1]);
    CallIs(Prog(), 2, 0, map[], []);
  }

  lemma Tail(m: Machine, s: State)
    requires s.mem == Holding(1) && s.out == []
    requires m.callees(0, [], Holding(1), []) == Reply(0, Holding(2), []) && m.callees(1, [N(1)], Holding(2), []) == Reply(0, Holding(2), [1])
    ensures var r := ExecBody(m, Main()[1].body, s); r.Next? && r.s.mem == Holding(2) && r.s.out == [1]
  {
    var body := Main()[1].body;
    var s1 := s.(env := s.env[4 := N(1)]);
    var none: seq<int> := [];
    assert none + none == none && none + [1] == [1];
    var s2 := State(s1.env[5 := N(0)], Holding(2), []);
    var s3 := s2.(env := s2.env[6 := N(2)]);
    var s4 := s3.(env := s3.env[7 := N(1)]);
    var s5 := State(s4.env[8 := N(0)], Holding(2), [1]);
    assert Wrap(2 - 1) == 1;
    OutputRuns(m, s4, 1);
    assert EvalAll(m, s1.env, []) == Some([]);
    Exec5(m, body, s, s1, s2, s3, s4, s5);
  }

  /** What the pass leaves puts out 0. */
  lemma OuterRuns'()
    ensures CallIn(Prog'(), Output(), 3, 2, 0, 0, [], map[], []) == Reply(0, Holding(2), [0])
  {
    var m := Inside(Prog'(), Output(), 3, 2, 0, [], []);
    OuterMachine(Prog'(), m);
    Head(m, map[], 0);
    hide CallIn, Inside, ExecBody, Execute;
    var f := Main'();
    var s := ExecBody(m, Main()[0].body, State(map[], map[], [])).s;
    assert s.mem == Holding(1) && s.env[3] == N(1);
    Tail'(m, s);
    var t := ExecBody(m, f[1].body, s).s;
    TwoBlocks(m, f, s, t);
    AnswerIs(map[], Holding(2), 0, [0]);
    CallIs(Prog'(), 2, 0, map[], []);
  }

  lemma Tail'(m: Machine, s: State)
    requires s.mem == Holding(1) && s.out == [] && 2 in s.env && s.env[2] == N(1)
    requires m.callees(0, [], Holding(1), []) == Reply(0, Holding(2), []) && m.callees(1, [N(0)], Holding(2), []) == Reply(0, Holding(2), [0])
    ensures var r := ExecBody(m, Main'()[1].body, s); r.Next? && r.s.mem == Holding(2) && r.s.out == [0]
  {
    var body := Main'()[1].body;
    var none: seq<int> := [];
    assert none + none == none && none + [0] == [0];
    var s1 := State(s.env[5 := N(0)], Holding(2), []);
    var s2 := s1.(env := s1.env[7 := N(0)]);
    var s3 := State(s2.env[8 := N(0)], Holding(2), [0]);
    assert Wrap(0) == 0;
    assert EvalAll(m, s.env, []) == Some([]);
    assert Exec(m, body[0], s) == Next(s1);
    assert Exec(m, body[1], s1) == Next(s2);
    OutputRuns(m, s2, 0);
    hide Exec;
    assert body[1..][1..] == body[2..] && body[2..][1..] == [];
    assert ExecBody(m, body[2..], s2) == Next(s3);
    assert ExecBody(m, body[1..], s1) == Next(s3);
  }

  /** A run of main, and the same run behind the pass. */
  lemma RecursiveMainStale(p': Program)
    requires AllRewritten(Prog(), map[0 := MainForm()], {1}, p')
    ensures Formed(Prog(), map[0 := MainForm()], {}) && AllFinish(map[0 := MainForm()])
    ensures (set f | f in {0, 1} && Effects(Prog(), 0, {0}, f)) == {1} && MainCalled(Prog(), 0)
    ensures CallIn(Prog(), Output(), 3, 2, 0, 0, [], map[], []) == Reply(0, Holding(2), [1])
    ensures CallIn(p', Output(), 3, 2, 0, 0, [], map[], []) == Reply(0, Holding(2), [0])
  {
    hide Effects, CallIn, MainCalled, Formed, AllRewritten, Finishes;
    ProgFormed();
    MainFinishes();
    SideIsOutput();
    MainCallsMain();
    ProgIs(p');
    hide Prog, Prog';
    OuterRuns();
    OuterRuns'();
  }

  /** The pass itself comes back, with a program that puts out something else. */
  method PassIsWrong(turns: nat) returns (p': Program)
    ensures CallIn(Prog(), Output(), 3, 2, 0, 0, [], map[], []) == Reply(0, Holding(2), [1])
    ensures CallIn(p', Output(), 3, 2, 0, 0, [], map[], []) == Reply(0, Holding(2), [0])
  {
    ProgCalls();
    ProgFormed();
    MainFinishes();
    SideIsOutput();
    hide Effects, CallIn, MainCalled, Formed, AllRewritten, Finishes, Prog, MainForm;
    var ended, q, side := Run(turns, Prog(), 0, {0}, {0, 1}, map[0 := MainForm()], {});
    assert side == {1} && AllFinish(map[0 := MainForm()]);
    p' := q;
    RecursiveMainStale(p');
  }

  lemma ProgCalls()
    ensures AllCallsIn(Prog(), 0, {0, 1}) && 0 in Prog() && forall c: nat {:trigger CallsOf(Prog()[0], c)} :: CallsOf(Prog()[0], c) ==> c in {0, 1}
  {
  }

  lemma ProgIs(p': Program)
    requires AllRewritten(Prog(), map[0 := MainForm()], {1}, p')
    ensures p' == Prog'()
  {
    hide Rewritten, Replaced, Main, Main';
    var forms := map[0 := MainForm()];
    assert 0 in Prog() && Prog()[0] == Main();
    RewrittenAt(Prog(), forms, {1}, p', 0);
    MainRewritten(p'[0]);
    KeysStay(Prog(), forms, {1}, p');
  }
}
