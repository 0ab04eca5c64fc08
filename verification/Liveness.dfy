/** Live variables of a function: what a block uses and defines, and the rescanned
    equations of the blocks. */
module Liveness {
  import opened Cfg

  /** A value that can be live: an argument, a result, a global. */
  type Var = nat

  datatype Operand = Of(v: Var) | Number | Label(b: Block)

  datatype Kind = Alloca | Load | Store | Gep | Phi | Other

  /** An instruction as the analysis sees it; without a result it is void. */
  datatype Inst = Inst(kind: Kind, result: Option, ops: seq<Operand>)

  datatype Option = None | Some(v: Var)

  // ---------------------------------------------------------------- uses and definitions

  /** Arguments and results: only these have to be defined by the function. */
  function Defined(args: set<Var>, blocks: seq<seq<Inst>>): set<Var> {
    args + set b, i | 0 <= b < |blocks| && 0 <= i < |blocks[b]| && blocks[b][i].result.Some? :: blocks[b][i].result.v
  }

  /** A load counts its address even when that is a global. */
  predicate Counts(need: set<Var>, inst: Inst, op: Operand) {
    op.Of? && (op.v in need || inst.kind.Load?)
  }

  /** The first k operands, as far as they count. */
  ghost function Counted(need: set<Var>, inst: Inst, k: nat): set<Var>
    requires k <= |inst.ops|
  {
    set op | op in inst.ops[..k] && Counts(need, inst, op) :: op.v
  }

  lemma CountOne(need: set<Var>, inst: Inst, k: nat)
    requires k < |inst.ops|
    ensures Counted(need, inst, k + 1) == Counted(need, inst, k) + if Counts(need, inst, inst.ops[k]) then {inst.ops[k].v} else {}
  {
    assert inst.ops[..k + 1] == inst.ops[..k] + [inst.ops[k]];
  }

  /** The operands that count as used where no definition precedes them. */
  ghost function Used(need: set<Var>, inst: Inst): set<Var> {
    if inst.kind.Alloca? then {}
    else
      Counted(need, inst, |inst.ops|) + GepBase(inst)
  }

  /** The base of a gep, which may be a global. */
  function GepBase(inst: Inst): set<Var> {
    if inst.kind.Gep? && |inst.ops| > 0 && inst.ops[0].Of? then {inst.ops[0].v} else {}
  }

  /** The address of a store, unless a gep computes it: used in any case. */
  function Stored(geps: set<Var>, inst: Inst): set<Var> {
    if inst.kind.Store? && |inst.ops| > 1 && inst.ops[1].Of? && inst.ops[1].v !in geps then {inst.ops[1].v} else {}
  }

  function Result(inst: Inst): set<Var> { if inst.result.Some? then {inst.result.v} else {} }

  ghost function Results(code: seq<Inst>): set<Var> {
    if code == [] then {} else Results(code[..|code| - 1]) + Result(code[|code| - 1])
  }

  ghost function AllUsed(need: set<Var>, geps: set<Var>, code: seq<Inst>): set<Var> {
    if code == [] then {}
    else
      var i := code[|code| - 1];
      AllUsed(need, geps, code[..|code| - 1]) + Used(need, i) + Stored(geps, i)
  }

  /** What the block uses before defining it. */
  ghost function UseOf(need: set<Var>, geps: set<Var>, code: seq<Inst>): set<Var> {
    if code == [] then {}
    else
      var c, i := code[..|code| - 1], code[|code| - 1];
      UseOf(need, geps, c) + (Used(need, i) - Results(c)) + Stored(geps, i)
  }

  /** What the block defines without having used it; an alloca in any case. */
  ghost function DefOf(need: set<Var>, geps: set<Var>, code: seq<Inst>): set<Var> {
    if code == [] then {}
    else
      var c, i := code[..|code| - 1], code[|code| - 1];
      DefOf(need, geps, c) + if i.kind.Alloca? then Result(i) else Result(i) - AllUsed(need, geps, code)
  }

  /** Results are new, allocas stand before the uses of what they make, and a
      store goes to another block's alloca or a global, if not through a gep. */
  ghost predicate Tidy(need: set<Var>, geps: set<Var>, code: seq<Inst>) {
    && (forall i, j {:trigger code[i], code[j]} :: 0 <= i < j < |code| ==> Result(code[i]) !! Result(code[j]))
    && (forall i, j {:trigger Used(need, code[i]), Result(code[j])} :: 0 <= i <= j < |code| && code[j].kind.Alloca? ==> Used(need, code[i]) !! Result(code[j]))
    && (forall i, j {:trigger Stored(geps, code[i]), Result(code[j])} :: 0 <= i < |code| && 0 <= j < |code| ==> Stored(geps, code[i]) !! Result(code[j]))
  }

  lemma {:induction false} UseIs(need: set<Var>, geps: set<Var>, code: seq<Inst>, v: Var)
    requires v in UseOf(need, geps, code)
    ensures exists i :: 0 <= i < |code| && ((v in Used(need, code[i]) && v !in Results(code[..i])) || v in Stored(geps, code[i]))
  {
    var n := |code| - 1;
    if v in UseOf(need, geps, code[..n]) {
      UseIs(need, geps, code[..n], v);
      var i :| 0 <= i < n && ((v in Used(need, code[..n][i]) && v !in Results(code[..n][..i])) || v in Stored(geps, code[..n][i]));
      assert code[..n][..i] == code[..i] && code[..n][i] == code[i];
    } else {
      assert (v in Used(need, code[n]) && v !in Results(code[..n])) || v in Stored(geps, code[n]);
    }
  }

  lemma {:induction false} DefIs(need: set<Var>, geps: set<Var>, code: seq<Inst>, v: Var)
    requires v in DefOf(need, geps, code)
    ensures exists j :: 0 <= j < |code| && v in Result(code[j]) && (code[j].kind.Alloca? || v !in AllUsed(need, geps, code[..j + 1]))
  {
    var n := |code| - 1;
    if v in DefOf(need, geps, code[..n]) {
      DefIs(need, geps, code[..n], v);
      var j :| 0 <= j < n && v in Result(code[..n][j]) && (code[..n][j].kind.Alloca? || v !in AllUsed(need, geps, code[..n][..j + 1]));
      assert code[..n][..j + 1] == code[..j + 1] && code[..n][j] == code[j];
    } else {
      assert code[..n + 1] == code;
      assert v in Result(code[n]);
    }
  }

  lemma {:induction false} ResultIn(code: seq<Inst>, j: nat)
    requires j < |code|
    ensures Result(code[j]) <= Results(code)
  {
    var n := |code| - 1;
    if j < n {
      ResultIn(code[..n], j);
    }
  }

  lemma {:induction false} UsedIn(need: set<Var>, geps: set<Var>, code: seq<Inst>, i: nat)
    requires i < |code|
    ensures Used(need, code[i]) <= AllUsed(need, geps, code)
  {
    var n := |code| - 1;
    if i < n {
      UsedIn(need, geps, code[..n], i);
    }
  }

  /** In a tidy block nothing is both used from outside and defined. */
  lemma TidyApart(need: set<Var>, geps: set<Var>, code: seq<Inst>)
    requires Tidy(need, geps, code)
    ensures UseOf(need, geps, code) !! DefOf(need, geps, code)
  {
    hide UseOf, DefOf, Results, AllUsed, Used, Stored, Result;
    if v :| v in UseOf(need, geps, code) && v in DefOf(need, geps, code) {
      UseIs(need, geps, code, v);
      DefIs(need, geps, code, v);
      var i :| 0 <= i < |code| && ((v in Used(need, code[i]) && v !in Results(code[..i])) || v in Stored(geps, code[i]));
      var j :| 0 <= j < |code| && v in Result(code[j]) && (code[j].kind.Alloca? || v !in AllUsed(need, geps, code[..j + 1]));
      Meet(need, geps, code, i, j, v);
    }
  }

  lemma Meet(need: set<Var>, geps: set<Var>, code: seq<Inst>, i: nat, j: nat, v: Var)
    requires Tidy(need, geps, code) && i < |code| && j < |code| && v in Result(code[j])
    requires code[j].kind.Alloca? || v !in AllUsed(need, geps, code[..j + 1])
    ensures !((v in Used(need, code[i]) && v !in Results(code[..i])) || v in Stored(geps, code[i]))
  {
    hide AllUsed, Results;
    if j < i {
      ResultIn(code[..i], j);
    } else {
      UsedIn(need, geps, code[..j + 1], i);
      assert code[..j + 1][i] == code[i];
    }
  }

  // ---------------------------------------------------------------- the equations

  type Sets = map<Block, set<Var>>

  function At(m: Sets, b: Block): set<Var> { if b in m then m[b] else {} }

  lemma AtPut(m: Sets, b: Block, s: set<Var>)
    ensures forall c: Block {:trigger At(m[b := s], c)} :: At(m[b := s], c) == if c == b then s else At(m, c)
  {
  }

  /** The sets of a function that the equations are about. */
  datatype Facts = Facts(g: Graph, uses: Sets, defs: Sets, phiOp: Sets, phiPair: map<Block, set<(Block, Var)>>) {
    /** What is live at the beginning of c counts at the end of b, unless it is a
        phi operand of c for other predecessors only. */
    predicate Passes(b: Block, c: Block, v: Var) {
      v in At(phiOp, c) ==> c in phiPair && (b, v) in phiPair[c]
    }

    /** p is a way from b to a use of v, past no definition. */
    ghost predicate LiveWay(p: seq<Block>, b: Block, v: Var) {
      && 0 < |p| && p[0] == b && v in At(uses, p[|p| - 1])
      && (forall i {:trigger p[i]} :: 0 <= i < |p| ==> v !in At(defs, p[i]) && p[i] < g.Size())
      && (forall i {:trigger p[i]} :: 0 <= i < |p| - 1 ==> p[i + 1] in g.succs[p[i]] && Passes(p[i], p[i + 1], v))
    }

    ghost predicate Live(b: Block, v: Var) { exists p :: LiveWay(p, b, v) }

    /** Live where b ends, because of another block that follows. */
    ghost predicate LiveBehind(b: Block, v: Var) {
      b < g.Size() && exists c :: c in g.succs[b] && c != b && Passes(b, c, v) && Live(c, v)
    }

    /** What the equation of b gives for its end and its beginning. The set of b
        itself is cleared before it is computed, so an edge from b to b adds
        nothing. */
    ghost predicate FlowsIn(liveIn: Sets, b: Block, v: Var) {
      b < g.Size() && exists c :: c in g.succs[b] && c != b && v in At(liveIn, c) && Passes(b, c, v)
    }

    ghost predicate Equation(liveIn: Sets, b: Block, v: Var) {
      (FlowsIn(liveIn, b, v) || v in At(uses, b)) && v !in At(defs, b)
    }

    ghost predicate Solved(liveIn: Sets, b: Block) {
      forall v {:trigger v in At(liveIn, b)} :: v in At(liveIn, b) <==> Equation(liveIn, b, v)
    }

    ghost predicate Apart() {
      forall b: Block {:trigger At(uses, b)} :: At(uses, b) !! At(defs, b) && (b >= g.Size() ==> At(uses, b) == {})
    }

    lemma LiveHere(b: Block, v: Var)
      requires b < g.Size() && v in At(uses, b) && v !in At(defs, b)
      ensures Live(b, v)
    {
      assert LiveWay([b], b, v);
    }

    lemma LiveAbove(b: Block, c: Block, v: Var)
      requires b < g.Size() && c in g.succs[b] && Passes(b, c, v) && Live(c, v) && v !in At(defs, b)
      ensures Live(b, v)
    {
      var p :| LiveWay(p, c, v);
      assert LiveWay([b] + p, b, v);
    }

    /** A solution holds everything that is live. */
    lemma {:induction false} SolvedHolds(liveIn: Sets, p: seq<Block>, b: Block, v: Var)
      requires g.InRange() && LiveWay(p, b, v) && forall b: Block {:trigger Solved(liveIn, b)} :: b < g.Size() ==> Solved(liveIn, b)
      ensures v in At(liveIn, b)
      decreases |p|
    {
      assert Solved(liveIn, p[0]);
      if |p| > 1 {
        var q := p[1..];
        assert LiveWay(q, p[1], v) by {
          assert forall i :: 0 <= i < |q| ==> q[i] == p[i + 1];
        }
        SolvedHolds(liveIn, q, p[1], v);
        assert p[0 + 1] in g.succs[p[0]] && Passes(p[0], p[0 + 1], v);
        assert p[1] != b ==> FlowsIn(liveIn, b, v);
      }
    }

    /** Recomputing one block from what is there. */
    ghost predicate Recomputed(was: Sets, now: Sets, b: Block) {
      && (forall c {:trigger At(now, c)} :: c != b ==> At(now, c) == At(was, c))
      && (forall v {:trigger v in At(now, b)} :: v in At(now, b) <==> Equation(was, b, v))
    }
  }

  /** What is live where b ends, counting all edges. */
  ghost predicate LiveAfter(f: Facts, b: Block, v: Var) {
    b < f.g.Size() && exists c :: c in f.g.succs[b] && f.Passes(b, c, v) && f.Live(c, v)
  }

  /** v is live round the block and nowhere else behind it. */
  ghost predicate OnlyAround(f: Facts, b: Block, v: Var) {
    b < f.g.Size() && b in f.g.succs[b] && f.Passes(b, b, v) && f.Live(b, v) && !f.LiveBehind(b, v)
  }

  /** A set that holds what is live behind b because of other blocks is right iff
      nothing is live only round b; so it is if b does not lead to itself. */
  lemma OutIsRight(f: Facts, b: Block, out: set<Var>)
    requires b < f.g.Size() && forall v {:trigger v in out} :: v in out <==> f.LiveBehind(b, v)
    ensures (forall v {:trigger LiveAfter(f, b, v)} :: v in out <==> LiveAfter(f, b, v)) <==> forall v :: !OnlyAround(f, b, v)
    ensures b !in f.g.succs[b] ==> forall v {:trigger LiveAfter(f, b, v)} :: v in out <==> LiveAfter(f, b, v)
  {
    hide Facts.Live, Facts.Passes;
    forall v
      ensures LiveAfter(f, b, v) <==> f.LiveBehind(b, v) || OnlyAround(f, b, v)
    {
    }
    if v :| OnlyAround(f, b, v) {
      assert v !in out && LiveAfter(f, b, v);
    }
  }

  // ---------------------------------------------------------------- phi operands

  /** The incoming pairs of a phi: values at even positions, blocks behind them. */
  ghost function Pairs(need: set<Var>, inst: Inst, n: nat): set<(Block, Var)>
    requires 2 * n <= |inst.ops|
  {
    if n == 0 then {}
    else
      var v, b := inst.ops[2 * n - 2], inst.ops[2 * n - 1];
      Pairs(need, inst, n - 1) + if v.Of? && v.v in need && b.Label? then {(b.b, v.v)} else {}
  }

  ghost function PhiPairs(need: set<Var>, code: seq<Inst>): set<(Block, Var)> {
    if code == [] then {}
    else
      var i := code[|code| - 1];
      PhiPairs(need, code[..|code| - 1]) + if i.kind.Phi? then Pairs(need, i, |i.ops| / 2) else {}
  }

  ghost function Seconds(ps: set<(Block, Var)>): set<Var> { set p | p in ps :: p.1 }

  lemma SecondsUnion(a: set<(Block, Var)>, b: set<(Block, Var)>)
    ensures Seconds(a + b) == Seconds(a) + Seconds(b)
  {
    forall v | v in Seconds(a + b)
      ensures v in Seconds(a) + Seconds(b)
    {
      var p :| p in a + b && p.1 == v;
      assert p in a || p in b;
    }
    forall v | v in Seconds(a) + Seconds(b)
      ensures v in Seconds(a + b)
    {
      if v in Seconds(a) {
        var p :| p in a && p.1 == v;
        assert p in a + b;
      } else {
        var p :| p in b && p.1 == v;
        assert p in a + b;
      }
    }
  }

  /** A function as the analysis sees it. */
  datatype Fn = Fn(g: Graph, args: set<Var>, blocks: seq<seq<Inst>>) {
    ghost predicate Valid() {
      && g.InRange() && |blocks| == g.Size()
      && forall b, i {:trigger blocks[b][i]} :: 0 <= b < |blocks| && 0 <= i < |blocks[b]| && blocks[b][i].kind.Phi? ==> PhiOk(blocks[b][i])
    }
  }

  /** Values and labels alternate. */
  ghost predicate PhiOk(inst: Inst) {
    |inst.ops| % 2 == 0 && forall i {:trigger inst.ops[i]} :: 0 <= i < |inst.ops| && i % 2 == 1 ==> inst.ops[i].Label?
  }

  function GepResults(blocks: seq<seq<Inst>>): set<Var> {
    set b, i | 0 <= b < |blocks| && 0 <= i < |blocks[b]| && blocks[b][i].kind.Gep? && blocks[b][i].result.Some? :: blocks[b][i].result.v
  }

  /** The sets belong to the function. */
  ghost predicate FactsOf(fn: Fn, f: Facts) {
    var need, geps := Defined(fn.args, fn.blocks), GepResults(fn.blocks);
    && f.g == fn.g
    && (forall b: Block {:trigger At(f.uses, b)} :: At(f.uses, b) == if b < |fn.blocks| then UseOf(need, geps, fn.blocks[b]) else {})
    && (forall b: Block {:trigger At(f.defs, b)} :: At(f.defs, b) == if b < |fn.blocks| then DefOf(need, geps, fn.blocks[b]) else {})
    && (forall b: Block {:trigger At(f.phiOp, b)} :: At(f.phiOp, b) == if b < |fn.blocks| then Seconds(PhiPairs(need, fn.blocks[b])) else {})
    && (forall b: Block {:trigger PairsAt(f.phiPair, b)} :: PairsAt(f.phiPair, b) == if b < |fn.blocks| then PhiPairs(need, fn.blocks[b]) else {})
  }

  function PairsAt(m: map<Block, set<(Block, Var)>>, b: Block): set<(Block, Var)> { if b in m then m[b] else {} }

  lemma PairsPut(m: map<Block, set<(Block, Var)>>, b: Block, s: set<(Block, Var)>)
    ensures forall c: Block {:trigger PairsAt(m[b := s], c)} :: PairsAt(m[b := s], c) == if c == b then s else PairsAt(m, c)
  {
  }

  ghost predicate AllTidy(fn: Fn) {
    forall b {:trigger fn.blocks[b]} :: 0 <= b < |fn.blocks| ==> Tidy(Defined(fn.args, fn.blocks), GepResults(fn.blocks), fn.blocks[b])
  }

  /** In no block is a value both used from outside and defined. */
  ghost predicate Separate(fn: Fn) {
    forall b {:trigger fn.blocks[b]} :: 0 <= b < |fn.blocks| ==>
      var need, geps := Defined(fn.args, fn.blocks), GepResults(fn.blocks); UseOf(need, geps, fn.blocks[b]) !! DefOf(need, geps, fn.blocks[b])
  }

  lemma TidyIsSeparate(fn: Fn)
    requires AllTidy(fn)
    ensures Separate(fn)
  {
    hide UseOf, DefOf, Tidy, Defined, GepResults;
    forall b | 0 <= b < |fn.blocks|
      ensures UseOf(Defined(fn.args, fn.blocks), GepResults(fn.blocks), fn.blocks[b]) !! DefOf(Defined(fn.args, fn.blocks), GepResults(fn.blocks), fn.blocks[b])
    {
      TidyApart(Defined(fn.args, fn.blocks), GepResults(fn.blocks), fn.blocks[b]);
    }
  }

  lemma SeparateFacts(fn: Fn, f: Facts)
    requires fn.Valid() && FactsOf(fn, f) && Separate(fn)
    ensures f.Apart()
  {
    hide UseOf, DefOf, PhiPairs, Defined, GepResults;
    forall b: Block
      ensures At(f.uses, b) !! At(f.defs, b)
    {
      if b < |fn.blocks| {
        assert fn.blocks[b] == fn.blocks[b];
      }
    }
  }

  // ---------------------------------------------------------------- a block that leads to itself

  /** Block 0 computes 7; block 1 tests it and leads to itself. */
  function SelfLoop(): Fn {
    Fn(Graph([[1], [2, 1], []], [[], [1, 0], [1]]), {},
       [[Inst(Other, Some(7), [])], [Inst(Other, None, [Of(7)])], []])
  }

  lemma NoCode(need: set<Var>, geps: set<Var>)
    ensures UseOf(need, geps, []) == {} && DefOf(need, geps, []) == {} && Results([]) == {} && PhiPairs(need, []) == {} && Seconds({}) == {}
  {
  }

  lemma SelfLoopUse(need: set<Var>, geps: set<Var>, use: Inst)
    requires 7 in need && use == Inst(Other, None, [Of(7)])
    ensures UseOf(need, geps, [use]) == {7} && DefOf(need, geps, [use]) == {} && PhiPairs(need, [use]) == {}
  {
    CountOne(need, use, 0);
    assert Counted(need, use, 0) == {};
    assert [use][..0] == [];
    NoCode(need, geps);
  }

  lemma SelfLoopDef(need: set<Var>, geps: set<Var>, def: Inst)
    requires def == Inst(Other, Some(7), [])
    ensures UseOf(need, geps, [def]) == {}
  {
    assert [def][..0] == [];
    NoCode(need, geps);
  }

  lemma SelfLoopTidy()
    ensures SelfLoop().Valid() && AllTidy(SelfLoop())
  {
  }

  lemma SelfLoopSets(f: Facts)
    requires FactsOf(SelfLoop(), f)
    ensures f.g == SelfLoop().g
    ensures At(f.uses, 0) == {} && At(f.uses, 1) == {7} && At(f.uses, 2) == {} && At(f.defs, 1) == {} && At(f.phiOp, 1) == {}
  {
    var fn := SelfLoop();
    var need, geps := Defined(fn.args, fn.blocks), GepResults(fn.blocks);
    assert fn.blocks[0][0].result.v in need;
    SelfLoopUse(need, geps, fn.blocks[1][0]);
    SelfLoopDef(need, geps, fn.blocks[0][0]);
    NoCode(need, geps);
    hide UseOf, DefOf, PhiPairs, Defined, GepResults, Counted;
  }

  /** 7 is live behind block 1, but only round it. */
  lemma SelfLoopMissed(f: Facts)
    requires FactsOf(SelfLoop(), f)
    ensures LiveAfter(f, 1, 7) && !f.LiveBehind(1, 7)
  {
    SelfLoopSets(f);
    hide FactsOf;
    assert f.g.succs[1] == [2, 1] && f.g.succs[1][1] == 1 && f.g.succs[2] == [];
    assert f.LiveWay([1], 1, 7);
    assert f.Live(1, 7);
    assert f.Passes(1, 1, 7);
    forall p
      ensures !f.LiveWay(p, 2, 7)
    {
      if |p| > 1 && p[0] == 2 {
        assert p[0 + 1] !in f.g.succs[p[0]];
      }
    }
  }
}
