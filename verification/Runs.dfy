/** Runs that start in the middle of a block, and stretches of runs put together.
    Code that is still being written is one of many stretches of a function, so
    its meaning is the stretch it runs through: from a position to a position,
    over a number of edges, or to the end of the run. */
module Runs {
  import opened Cfg
  import opened Arithmetic
  import opened Ir

  lemma {:induction false} ExecAppend(m: Machine, a: seq<Instr>, b: seq<Instr>, s: State)
    ensures ExecBody(m, a + b, s) == if ExecBody(m, a, s).Halt? then ExecBody(m, a, s) else ExecBody(m, b, ExecBody(m, a, s).s)
  {
    if a == [] {
      assert a + b == b;
    } else {
      assert (a + b)[1..] == a[1..] + b;
      var r := Exec(m, a[0], s);
      if r.Next? {
        ExecAppend(m, a[1..], b, r.s);
      }
    }
  }

  lemma ExecOne(m: Machine, i: Instr, s: State)
    ensures ExecBody(m, [i], s) == Exec(m, i, s)
  {
    var r := Exec(m, i, s);
    if r.Next? {
      assert [i][1..] == [];
      assert ExecBody(m, [], r.s) == Next(r.s);
    }
  }

  /** Appending one instruction to a code that goes through. */
  lemma ExecSnoc(m: Machine, a: seq<Instr>, i: Instr, s: State)
    ensures ExecBody(m, a + [i], s) == if ExecBody(m, a, s).Halt? then ExecBody(m, a, s) else Exec(m, i, ExecBody(m, a, s).s)
  {
    ExecAppend(m, a, [i], s);
    if ExecBody(m, a, s).Next? {
      ExecOne(m, i, ExecBody(m, a, s).s);
    }
  }

  /** Runs from position i of block b, for at most fuel blocks. */
  function RunAt(m: Machine, f: Func, b: Block, i: nat, s: State, fuel: nat): Outcome {
    if fuel == 0 || b >= |f| || i > |f[b].body| then Unfinished(s.mem, s.out)
    else
      var r := ExecBody(m, f[b].body[i..], s);
      if r.Halt? then Halted(r.why, r.mem, r.out)
      else
        match ExecTerm(m, f[b].term, r.s)
        case Done(o) => o
        case Goto(c) => Enter(m, f, b, c, r.s, fuel - 1)
  }

  lemma RunAtStart(m: Machine, f: Func, b: Block, s: State, fuel: nat)
    ensures RunAt(m, f, b, 0, s, fuel) == RunFrom(m, f, b, s, fuel)
  {
    if b < |f| {
      assert f[b].body[0..] == f[b].body;
    }
  }

  /** From (b, i) with s the run comes to (c, j) with t, over n edges. */
  ghost predicate ReachesIn(m: Machine, f: Func, b: Block, i: nat, s: State, c: Block, j: nat, t: State, n: nat) {
    forall k: nat {:trigger RunAt(m, f, b, i, s, k)} ::
      if k > n then RunAt(m, f, b, i, s, k) == RunAt(m, f, c, j, t, k - n) else RunAt(m, f, b, i, s, k).Unfinished?
  }

  ghost predicate Reaches(m: Machine, f: Func, b: Block, i: nat, s: State, c: Block, j: nat, t: State) {
    exists n: nat :: ReachesIn(m, f, b, i, s, c, j, t, n)
  }

  ghost predicate FinishesIn(m: Machine, f: Func, b: Block, i: nat, s: State, o: Outcome, n: nat) {
    forall k: nat {:trigger RunAt(m, f, b, i, s, k)} ::
      if k > n then RunAt(m, f, b, i, s, k) == o else RunAt(m, f, b, i, s, k).Unfinished?
  }

  /** The run ends in o, once it has the fuel. */
  ghost predicate Finishes(m: Machine, f: Func, b: Block, i: nat, s: State, o: Outcome) {
    exists n: nat :: FinishesIn(m, f, b, i, s, o, n)
  }

  /** After n blocks the run is there, and has not ended. */
  ghost predicate PausedAt(m: Machine, f: Func, b: Block, i: nat, s: State, mem: Memory, out: seq<int>, n: nat) {
    && RunAt(m, f, b, i, s, n) == Unfinished(mem, out)
    && forall j: nat {:trigger RunAt(m, f, b, i, s, j)} :: j <= n ==> RunAt(m, f, b, i, s, j).Unfinished?
  }

  /** k blocks are not enough, and after some number the run is there. */
  ghost predicate StillRunning(m: Machine, f: Func, b: Block, i: nat, s: State, mem: Memory, out: seq<int>, k: nat) {
    exists n: nat :: k <= n && PausedAt(m, f, b, i, s, mem, out, n)
  }

  lemma ReachesTrans(m: Machine, f: Func, b: Block, i: nat, s: State, c: Block, j: nat, t: State, d: Block, l: nat, u: State)
    requires Reaches(m, f, b, i, s, c, j, t) && Reaches(m, f, c, j, t, d, l, u)
    ensures Reaches(m, f, b, i, s, d, l, u)
  {
    hide RunAt;
    var n: nat :| ReachesIn(m, f, b, i, s, c, j, t, n);
    var o: nat :| ReachesIn(m, f, c, j, t, d, l, u, o);
    var both := n + o;
    assert ReachesIn(m, f, b, i, s, d, l, u, both);
  }

  lemma ReachesFinishes(m: Machine, f: Func, b: Block, i: nat, s: State, c: Block, j: nat, t: State, o: Outcome)
    requires Reaches(m, f, b, i, s, c, j, t) && Finishes(m, f, c, j, t, o)
    ensures Finishes(m, f, b, i, s, o)
  {
    hide RunAt;
    var n: nat :| ReachesIn(m, f, b, i, s, c, j, t, n);
    var l: nat :| FinishesIn(m, f, c, j, t, o, l);
    var both := n + l;
    assert FinishesIn(m, f, b, i, s, o, both);
  }

  lemma ReachesRunning(m: Machine, f: Func, b: Block, i: nat, s: State, c: Block, j: nat, t: State, mem: Memory, out: seq<int>, k: nat)
    requires Reaches(m, f, b, i, s, c, j, t) && StillRunning(m, f, c, j, t, mem, out, k) && k > 0
    ensures StillRunning(m, f, b, i, s, mem, out, k)
  {
    hide RunAt;
    var n: nat :| ReachesIn(m, f, b, i, s, c, j, t, n);
    var l: nat :| k <= l && PausedAt(m, f, c, j, t, mem, out, l);
    var both := n + l;
    assert PausedAt(m, f, b, i, s, mem, out, both);
  }

  /** One edge gains one. */
  lemma EdgeRunning(m: Machine, f: Func, b: Block, i: nat, s: State, c: Block, j: nat, t: State, mem: Memory, out: seq<int>, k: nat)
    requires ReachesIn(m, f, b, i, s, c, j, t, 1) && RunAt(m, f, b, i, s, 1) == RunAt(m, f, c, j, t, 0)
    requires StillRunning(m, f, c, j, t, mem, out, k)
    ensures StillRunning(m, f, b, i, s, mem, out, k + 1)
  {
    hide RunAt;
    var l: nat :| k <= l && PausedAt(m, f, c, j, t, mem, out, l);
    var n := l + 1;
    assert PausedAt(m, f, b, i, s, mem, out, n);
  }

  lemma ReachesRefl(m: Machine, f: Func, b: Block, i: nat, s: State)
    ensures Reaches(m, f, b, i, s, b, i, s)
  {
    var n := 0;
    assert ReachesIn(m, f, b, i, s, b, i, s, n);
  }

  /** Straight code inside a block. */
  lemma StretchReaches(m: Machine, f: Func, b: Block, i: nat, s: State, code: seq<Instr>, t: State)
    requires b < |f| && i + |code| <= |f[b].body| && f[b].body[i..i + |code|] == code
    requires ExecBody(m, code, s) == Next(t)
    ensures Reaches(m, f, b, i, s, b, i + |code|, t)
  {
    var body := f[b].body;
    assert body[i..] == code + body[i + |code|..];
    ExecAppend(m, code, body[i + |code|..], s);
    var n := 0;
    assert ReachesIn(m, f, b, i, s, b, i + |code|, t, n);
  }

  lemma StretchHalts(m: Machine, f: Func, b: Block, i: nat, s: State, code: seq<Instr>)
    requires b < |f| && i + |code| <= |f[b].body| && f[b].body[i..i + |code|] == code
    requires ExecBody(m, code, s).Halt?
    ensures var r := ExecBody(m, code, s); Finishes(m, f, b, i, s, Halted(r.why, r.mem, r.out))
  {
    var r := ExecBody(m, code, s);
    var body := f[b].body;
    assert body[i..] == code + body[i + |code|..];
    ExecAppend(m, code, body[i + |code|..], s);
    var n := 0;
    assert FinishesIn(m, f, b, i, s, Halted(r.why, r.mem, r.out), n);
  }

  /** The end of a block, and the block it leads to, which has no phis. */
  lemma EdgeReaches(m: Machine, f: Func, b: Block, s: State, c: Block)
    requires b < |f| && c < |f| && ExecTerm(m, f[b].term, s) == Goto(c) && f[c].phis == []
    ensures ReachesIn(m, f, b, |f[b].body|, s, c, 0, s, 1)
    ensures Reaches(m, f, b, |f[b].body|, s, c, 0, s)
    ensures RunAt(m, f, b, |f[b].body|, s, 1) == RunAt(m, f, c, 0, s, 0)
  {
    var i := |f[b].body|;
    assert f[b].body[i..] == [];
    assert s.(env := EnterPhis(m, s.env, [], b, s.env)) == s;
    forall k: nat
      ensures if k > 1 then RunAt(m, f, b, i, s, k) == RunAt(m, f, c, 0, s, k - 1) else RunAt(m, f, b, i, s, k).Unfinished?
    {
      if k > 0 {
        RunAtStart(m, f, c, s, k - 1);
      }
    }
    var n := 1;
    assert ReachesIn(m, f, b, i, s, c, 0, s, n);
  }

  lemma EndFinishes(m: Machine, f: Func, b: Block, s: State, o: Outcome)
    requires b < |f| && ExecTerm(m, f[b].term, s) == Done(o)
    ensures Finishes(m, f, b, |f[b].body|, s, o)
  {
    var i := |f[b].body|;
    assert f[b].body[i..] == [];
    var n := 0;
    assert FinishesIn(m, f, b, i, s, o, n);
  }
}
