/** A block merged into its only predecessor: the lists stay right and the runs
    come to the same results. */
module BlockMerge {
  import opened Cfg
  import opened Arithmetic
  import opened Ir
  import opened Printing
  import opened Runs

  /** The blocks of a function with their lists; a removed block is not in live. */
  datatype Layout = Layout(f: Func, preds: seq<seq<Block>>, succs: seq<seq<Block>>, live: set<Block>)

  // ---------------------------------------------------------------- lists

  function RemoveAll(s: seq<Block>, b: Block): (r: seq<Block>)
    ensures forall x :: x in r <==> x in s && x != b
  {
    if s == [] then []
    else
      var rest := RemoveAll(s[1..], b);
      assert s == [s[0]] + s[1..];
      if s[0] == b then rest else [s[0]] + rest
  }

  lemma {:induction false} RemoveNothing(s: seq<Block>, b: Block)
    requires b !in s
    ensures RemoveAll(s, b) == s
  {
    if s != [] {
      RemoveNothing(s[1..], b);
    }
  }

  lemma {:induction false} RemoveDistinct(s: seq<Block>, b: Block)
    requires Distinct(s)
    ensures Distinct(RemoveAll(s, b))
  {
    if s != [] {
      forall i, j
        ensures Differ(s[1..], i, j)
      {
        var k, l := i + 1, j + 1;
        assert Differ(s, k, l);
      }
      RemoveDistinct(s[1..], b);
      var rest := RemoveAll(s[1..], b);
      forall i, j
        ensures Differ([s[0]] + rest, i, j)
      {
        if 0 < i < j < |rest| + 1 {
          var k, l := i - 1, j - 1;
          assert Differ(rest, k, l);
        } else if 0 == i < j < |rest| + 1 {
          assert rest[j - 1] in s[1..];
          var k :| 0 <= k < |s| - 1 && s[1..][k] == rest[j - 1];
          var l := k + 1;
          assert Differ(s, 0, l);
        }
      }
    }
  }

  // ---------------------------------------------------------------- phis

  function Renamed(b: Block, from: Block, to: Block): Block { if b == from then to else b }

  function RelabelPairs(pairs: seq<(Value, Block)>, from: Block, to: Block): seq<(Value, Block)> {
    seq(|pairs|, k requires 0 <= k < |pairs| => (pairs[k].0, Renamed(pairs[k].1, from, to)))
  }

  function Relabel(phis: seq<Phi>, from: Block, to: Block): seq<Phi> {
    seq(|phis|, k requires 0 <= k < |phis| => phis[k].(pairs := RelabelPairs(phis[k].pairs, from, to)))
  }

  ghost predicate LabelsIn(phis: seq<Phi>, preds: seq<Block>) {
    forall k, i {:trigger phis[k].pairs[i]} :: 0 <= k < |phis| && 0 <= i < |phis[k].pairs| ==> phis[k].pairs[i].1 in preds
  }

  lemma {:induction false} IncomingRelabelled(m: Machine, env: Env, pairs: seq<(Value, Block)>, from: Block, to: Block, b: Block)
    requires forall i {:trigger pairs[i]} :: 0 <= i < |pairs| ==> pairs[i].1 != to
    requires b != to
    ensures Incoming(m, env, RelabelPairs(pairs, from, to), Renamed(b, from, to)) == Incoming(m, env, pairs, b)
  {
    if pairs != [] {
      var rest := RelabelPairs(pairs, from, to);
      assert rest[1..] == RelabelPairs(pairs[1..], from, to);
      IncomingRelabelled(m, env, pairs[1..], from, to, b);
      assert pairs[0].1 != to;
    }
  }

  lemma {:induction false} EnterRelabelled(m: Machine, old_: Env, phis: seq<Phi>, from: Block, to: Block, b: Block, env: Env)
    requires forall k, i {:trigger phis[k].pairs[i]} :: 0 <= k < |phis| && 0 <= i < |phis[k].pairs| ==> phis[k].pairs[i].1 != to
    requires b != to
    ensures EnterPhis(m, old_, Relabel(phis, from, to), Renamed(b, from, to), env) == EnterPhis(m, old_, phis, b, env)
  {
    if phis != [] {
      var all := Relabel(phis, from, to);
      assert all[1..] == Relabel(phis[1..], from, to);
      assert forall i {:trigger phis[0].pairs[i]} :: 0 <= i < |phis[0].pairs| ==> phis[0].pairs[i].1 != to;
      IncomingRelabelled(m, old_, phis[0].pairs, from, to, b);
      var v := Incoming(m, old_, phis[0].pairs, b);
      var env' := if v.None? then env - {phis[0].dest} else env[phis[0].dest := v.value];
      assert forall k, i {:trigger phis[1..][k].pairs[i]} :: 0 <= k < |phis[1..]| && 0 <= i < |phis[1..][k].pairs| ==> phis[k + 1].pairs[i].1 != to;
      EnterRelabelled(m, old_, phis[1..], from, to, b, env');
    }
  }

  lemma {:induction false} IncomingOther(m: Machine, env: Env, pairs: seq<(Value, Block)>, from: Block, to: Block, b: Block)
    requires b != from && b != to
    ensures Incoming(m, env, RelabelPairs(pairs, from, to), b) == Incoming(m, env, pairs, b)
  {
    if pairs != [] {
      assert RelabelPairs(pairs, from, to)[1..] == RelabelPairs(pairs[1..], from, to);
      IncomingOther(m, env, pairs[1..], from, to, b);
    }
  }

  lemma {:induction false} EnterOther(m: Machine, old_: Env, phis: seq<Phi>, from: Block, to: Block, b: Block, env: Env)
    requires b != from && b != to
    ensures EnterPhis(m, old_, Relabel(phis, from, to), b, env) == EnterPhis(m, old_, phis, b, env)
  {
    if phis != [] {
      assert Relabel(phis, from, to)[1..] == Relabel(phis[1..], from, to);
      IncomingOther(m, old_, phis[0].pairs, from, to, b);
      var v := Incoming(m, old_, phis[0].pairs, b);
      var env' := if v.None? then env - {phis[0].dest} else env[phis[0].dest := v.value];
      EnterOther(m, old_, phis[1..], from, to, b, env');
    }
  }

  // ---------------------------------------------------------------- well-formed layouts

  ghost predicate BlockOk(l: Layout, b: Block)
    requires |l.preds| == |l.succs| == |l.f|
  {
    b in l.live ==>
      && b < |l.f|
      && l.succs[b] == Targets(l.f[b].term) && (l.f[b].term.CondBr? ==> l.f[b].term.ifTrue != l.f[b].term.ifFalse)
      && (forall c :: c in l.succs[b] ==> c in l.live) && (forall c :: c in l.preds[b] ==> c in l.live)
      && Distinct(l.preds[b]) && LabelsIn(l.f[b].phis, l.preds[b])
  }

  ghost predicate Mirror(l: Layout, a: Block, b: Block)
    requires |l.preds| == |l.succs| == |l.f|
  {
    a in l.live && b in l.live && a < |l.f| && b < |l.f| ==> (b in l.succs[a] <==> a in l.preds[b])
  }

  ghost predicate Way(l: Layout, p: seq<Block>, b: Block) {
    && 0 < |p| && p[0] == ENTRY && p[|p| - 1] == b
    && (forall i {:trigger p[i]} :: 0 <= i < |p| ==> p[i] in l.live && p[i] < |l.succs|)
    && (forall i {:trigger p[i]} :: 0 <= i < |p| - 1 ==> p[i + 1] in l.succs[p[i]])
  }

  ghost predicate Reached(l: Layout, b: Block) { exists p :: Way(l, p, b) }

  ghost predicate Ok(l: Layout) {
    && |l.preds| == |l.succs| == |l.f|
    && ENTRY in l.live && ENTRY < |l.f| && l.preds[ENTRY] == []
    && (forall b: Block {:trigger BlockOk(l, b)} :: BlockOk(l, b))
    && (forall a: Block, b: Block {:trigger Mirror(l, a, b)} :: Mirror(l, a, b))
    && (forall b: Block {:trigger Reached(l, b)} :: b in l.live ==> Reached(l, b))
  }

  /** b's only predecessor leads to b alone, and b has no phis. */
  ghost predicate Awaits(l: Layout, b: Block)
    requires |l.preds| == |l.succs| == |l.f|
  {
    && b in l.live && b < |l.f| && |l.preds[b]| == 1 && l.preds[b][0] < |l.f|
    && l.succs[l.preds[b][0]] == [b] && l.f[b].phis == []
  }

  function MergedBlock(l: Layout, bb: Block, pre: Block, b: Block): BasicBlock
    requires b < |l.f| && bb < |l.f| && pre < |l.f|
  {
    if b == pre then BasicBlock(Relabel(l.f[pre].phis, bb, pre), l.f[pre].body + l.f[bb].body, l.f[bb].term)
    else BasicBlock(Relabel(l.f[b].phis, bb, pre), l.f[b].body, l.f[b].term)
  }

  ghost function Merged(l: Layout, bb: Block): Layout
    requires |l.preds| == |l.succs| == |l.f| && Awaits(l, bb)
  {
    var pre := l.preds[bb][0];
    Layout(seq(|l.f|, b requires 0 <= b < |l.f| => MergedBlock(l, bb, pre, b)),
           seq(|l.f|, b requires 0 <= b < |l.f| => if b == bb then [] else if b in l.succs[bb] then RemoveAll(l.preds[b] + [pre], bb) else l.preds[b]),
           l.succs[pre := l.succs[bb]],
           l.live - {bb})
  }

  /** A block that is reached is not its own only predecessor. */
  lemma PredDiffers(l: Layout, bb: Block)
    requires Ok(l) && Awaits(l, bb)
    ensures var pre := l.preds[bb][0]; pre != bb && pre in l.live && bb != ENTRY && bb in l.succs[pre] && l.f[pre].term == Br(bb)
  {
    var pre := l.preds[bb][0];
    assert BlockOk(l, bb) && pre in l.preds[bb];
    assert BlockOk(l, pre);
    assert Reached(l, bb);
    var p :| Way(l, p, bb);
    OnlySelf(l, bb, p, |p| - 1);
  }

  lemma {:induction false} OnlySelf(l: Layout, bb: Block, p: seq<Block>, i: nat)
    requires Ok(l) && Awaits(l, bb) && i < |p| && p[i] == bb && bb != ENTRY
    requires Way(l, p, p[|p| - 1])
    ensures l.preds[bb][0] != bb
    decreases i
  {
    if i > 0 {
      assert p[i - 1 + 1] in l.succs[p[i - 1]];
      assert Mirror(l, p[i - 1], bb);
      if p[i - 1] == bb {
        OnlySelf(l, bb, p, i - 1);
      }
    }
  }

  lemma MergedBlockOk(l: Layout, bb: Block, b: Block)
    requires Ok(l) && Awaits(l, bb)
    ensures BlockOk(Merged(l, bb), b)
  {
    hide Reached;
    PredDiffers(l, bb);
    var pre, n := l.preds[bb][0], Merged(l, bb);
    if b in n.live {
      assert BlockOk(l, b) && BlockOk(l, bb) && BlockOk(l, pre) && Mirror(l, bb, b) && Mirror(l, pre, b) && Mirror(l, b, bb) && Mirror(l, bb, bb);
      assert l.preds[bb] == [pre];
      if b in l.succs[bb] {
        DistinctSnoc(l.preds[b], pre);
        RemoveDistinct(l.preds[b] + [pre], bb);
        MergedLabels(l.f[b].phis, bb, pre, l.preds[b], n.preds[b]);
      } else {
        MergedLabels(l.f[b].phis, bb, pre, l.preds[b], n.preds[b]);
      }
    }
  }

  lemma DistinctSnoc(s: seq<Block>, b: Block)
    requires Distinct(s) && b !in s
    ensures Distinct(s + [b])
  {
    forall i, j
      ensures Differ(s + [b], i, j)
    {
      assert Differ(s, i, j);
    }
  }

  lemma MergedLabels(phis: seq<Phi>, from: Block, to: Block, was: seq<Block>, now: seq<Block>)
    requires LabelsIn(phis, was) && forall x :: x in was ==> Renamed(x, from, to) in now
    ensures LabelsIn(Relabel(phis, from, to), now)
  {
    var all := Relabel(phis, from, to);
    forall k, i | 0 <= k < |all| && 0 <= i < |all[k].pairs|
      ensures all[k].pairs[i].1 in now
    {
      assert phis[k].pairs[i].1 in was;
    }
  }

  lemma MergedMirror(l: Layout, bb: Block, a: Block, b: Block)
    requires Ok(l) && Awaits(l, bb)
    ensures Mirror(Merged(l, bb), a, b)
  {
    hide Reached, LabelsIn;
    PredDiffers(l, bb);
    var pre := l.preds[bb][0];
    assert Mirror(l, a, b) && Mirror(l, bb, b) && Mirror(l, pre, b) && BlockOk(l, b) && BlockOk(l, pre);
  }

  /** Ways with the merged block taken out. */
  lemma {:induction false} MergedReached(l: Layout, bb: Block, p: seq<Block>, b: Block)
    requires Ok(l) && Awaits(l, bb) && Way(l, p, b)
    ensures Reached(Merged(l, bb), if b == bb then l.preds[bb][0] else b)
    decreases |p|
  {
    PredDiffers(l, bb);
    var pre, n := l.preds[bb][0], Merged(l, bb);
    if |p| == 1 {
      assert Way(n, [ENTRY], ENTRY);
    } else {
      var q, x := p[..|p| - 1], p[|p| - 2];
      assert Way(l, q, x);
      MergedReached(l, bb, q, x);
      assert b in l.succs[x] by {
        var i := |p| - 2;
        assert p[i + 1] in l.succs[p[i]];
      }
      assert BlockOk(l, x) && BlockOk(l, b) && Mirror(l, x, b);
      if b != bb {
        var y := if x == bb then pre else x;
        var w :| Way(n, w, y);
        assert b in n.succs[y];
        assert Way(n, w + [b], b);
      }
    }
  }

  lemma MergedOk(l: Layout, bb: Block)
    requires Ok(l) && Awaits(l, bb)
    ensures Ok(Merged(l, bb))
  {
    hide Reached, BlockOk, Mirror;
    var n := Merged(l, bb);
    PredDiffers(l, bb);
    forall b: Block
      ensures BlockOk(n, b)
    {
      MergedBlockOk(l, bb, b);
    }
    forall a: Block, b: Block
      ensures Mirror(n, a, b)
    {
      MergedMirror(l, bb, a, b);
    }
    forall b: Block | b in n.live
      ensures Reached(n, b)
    {
      ReachedMerged(l, bb, b);
    }
    EntryStays(l, bb);
  }

  lemma ReachedMerged(l: Layout, bb: Block, b: Block)
    requires Ok(l) && Awaits(l, bb) && b in l.live && b != bb
    ensures Reached(Merged(l, bb), b)
  {
    assert Reached(l, b);
    var p :| Way(l, p, b);
    MergedReached(l, bb, p, b);
  }

  lemma EntryStays(l: Layout, bb: Block)
    requires Ok(l) && Awaits(l, bb)
    ensures Merged(l, bb).preds[ENTRY] == []
  {
    hide Reached, LabelsIn;
    assert Mirror(l, bb, ENTRY);
  }

  /** The other blocks that await merging still do. */
  lemma StillAwaits(l: Layout, bb: Block, c: Block)
    requires Ok(l) && Awaits(l, bb) && Awaits(l, c) && c != bb
    ensures Awaits(Merged(l, bb), c)
  {
    hide Reached, LabelsIn;
    PredDiffers(l, bb);
    PredDiffers(l, c);
    var pre, n, p := l.preds[bb][0], Merged(l, bb), l.preds[c][0];
    assert Mirror(l, bb, c) && BlockOk(l, c) && BlockOk(l, bb);
    if c in l.succs[bb] {
      assert bb in l.preds[c] && p == bb;
      assert l.preds[c] == [bb];
      assert RemoveAll([bb] + [pre], bb) == [pre] by {
        assert ([bb] + [pre])[1..] == [pre];
        RemoveNothing([pre], bb);
      }
    } else {
      assert p != bb;
      assert p != pre;
    }
  }

  // ---------------------------------------------------------------- runs

  /** Enough fuel stays enough. */
  lemma {:induction false} MoreFuel(m: Machine, f: Func, b: Block, s: State, k: nat, k': nat)
    requires !RunFrom(m, f, b, s, k).Unfinished? && k <= k'
    ensures RunFrom(m, f, b, s, k') == RunFrom(m, f, b, s, k)
    decreases k
  {
    var r := ExecBody(m, f[b].body, s);
    if r.Next? {
      match ExecTerm(m, f[b].term, r.s)
      case Done(o) =>
      case Goto(c) =>
        if c < |f| {
          MoreFuel(m, f, c, r.s.(env := EnterPhis(m, r.s.env, f[c].phis, b, r.s.env)), k - 1, k' - 1);
        }
    }
  }

  /** Entering a block: from bb before and from pre afterwards, or from elsewhere. */
  lemma EnterMerged(m: Machine, l: Layout, bb: Block, x: Block, c: Block, env: Env)
    requires Ok(l) && Awaits(l, bb) && x in l.live && c in l.live && c != bb && x < |l.succs| && c in l.succs[x]
    ensures c < |l.f| && x != l.preds[bb][0]
    ensures EnterPhis(m, env, Merged(l, bb).f[c].phis, Renamed(x, bb, l.preds[bb][0]), env) == EnterPhis(m, env, l.f[c].phis, x, env)
  {
    hide Reached;
    PredDiffers(l, bb);
    var pre := l.preds[bb][0];
    assert BlockOk(l, c) && BlockOk(l, x) && Mirror(l, pre, c) && BlockOk(l, pre);
    if x == bb {
      assert pre !in l.preds[c];
      forall k, i | 0 <= k < |l.f[c].phis| && 0 <= i < |l.f[c].phis[k].pairs|
        ensures l.f[c].phis[k].pairs[i].1 != pre
      {
        assert l.f[c].phis[k].pairs[i].1 in l.preds[c];
      }
      EnterRelabelled(m, env, l.f[c].phis, bb, pre, bb, env);
    } else {
      EnterOther(m, env, l.f[c].phis, bb, pre, x, env);
    }
  }

  /** Where the end of a block leads. */
  lemma GotoSucc(m: Machine, l: Layout, b: Block, s: State, c: Block)
    requires Ok(l) && b in l.live && b < |l.f| && ExecTerm(m, l.f[b].term, s) == Goto(c)
    ensures c in l.succs[b] && c in l.live && c < |l.f|
  {
    hide Reached, LabelsIn;
    assert BlockOk(l, b);
    assert c in Targets(l.f[b].term) by {
      match l.f[b].term
      case Br(d) => assert Targets(l.f[b].term)[0] == d;
      case CondBr(_, y, n) => assert Targets(l.f[b].term)[0] == n && Targets(l.f[b].term)[1] == y;
      case Ret(_) =>
      case RetVoid =>
    }
    assert BlockOk(l, c);
  }

  /** Only the predecessor leads to the merged block. */
  lemma OnlyPred(l: Layout, bb: Block, b: Block)
    requires Ok(l) && Awaits(l, bb) && b in l.live && b < |l.succs| && bb in l.succs[b]
    ensures b == l.preds[bb][0]
  {
    hide Reached, LabelsIn;
    assert Mirror(l, b, bb) && BlockOk(l, b);
    assert l.preds[bb] == [l.preds[bb][0]];
  }

  /** What the run finds at the end of the pair: an outcome, or the block entered
      next, in the same state both ways. Before, that took one block more. */
  ghost predicate PairStep(m: Machine, l: Layout, bb: Block, s: State, i: nat, j: nat, o: Option<Outcome>, c: Block, t: State)
    requires |l.preds| == |l.succs| == |l.f| && Awaits(l, bb)
  {
    var pre, f' := l.preds[bb][0], Merged(l, bb).f;
    if o.Some? then !o.value.Unfinished? && RunFrom(m, l.f, pre, s, i + 2) == o.value == RunFrom(m, f', pre, s, j + 1)
    else
      && c in l.live && c < |l.f| && c != bb
      && RunFrom(m, l.f, pre, s, i + 2) == RunFrom(m, l.f, c, t, i) && RunFrom(m, f', pre, s, j + 1) == RunFrom(m, f', c, t, j)
  }

  /** The first block of the pair takes the run to the second with s1. */
  lemma FirstOfPair(m: Machine, l: Layout, bb: Block, s: State, k: nat)
    requires Ok(l) && Awaits(l, bb) && k > 0
    ensures var pre := l.preds[bb][0];
      var r := ExecBody(m, l.f[pre].body, s);
      RunFrom(m, l.f, pre, s, k) == if r.Halt? then Halted(r.why, r.mem, r.out) else RunFrom(m, l.f, bb, r.s, k - 1)
  {
    hide Reached, LabelsIn;
    PredDiffers(l, bb);
    var pre := l.preds[bb][0];
    var r := ExecBody(m, l.f[pre].body, s);
    if r.Next? {
      assert EnterPhis(m, r.s.env, [], pre, r.s.env) == r.s.env;
      assert r.s.(env := r.s.env) == r.s;
    }
  }

  lemma MergedStep(m: Machine, l: Layout, bb: Block, s: State, i: nat, j: nat) returns (o: Option<Outcome>, c: Block, t: State)
    requires Ok(l) && Awaits(l, bb)
    ensures PairStep(m, l, bb, s, i, j, o, c, t)
  {
    hide Reached, BlockOk, Mirror, Relabel;
    PredDiffers(l, bb);
    var pre, f' := l.preds[bb][0], Merged(l, bb).f;
    assert f'[pre].body == l.f[pre].body + l.f[bb].body && f'[pre].term == l.f[bb].term;
    ExecAppend(m, l.f[pre].body, l.f[bb].body, s);
    var r1 := ExecBody(m, l.f[pre].body, s);
    o, c, t := None, 0, s;
    FirstOfPair(m, l, bb, s, i + 2);
    if r1.Halt? {
      o := Some(Halted(r1.why, r1.mem, r1.out));
      return;
    }
    var r2 := ExecBody(m, l.f[bb].body, r1.s);
    if r2.Halt? {
      o := Some(Halted(r2.why, r2.mem, r2.out));
      return;
    }
    match ExecTerm(m, l.f[bb].term, r2.s) {
      case Done(out) =>
        o := Some(out);
        DoneFinishes(m, l.f[bb].term, r2.s);
        assert RunFrom(m, l.f, bb, r1.s, i + 1) == out;
        assert RunFrom(m, f', pre, s, j + 1) == out;
      case Goto(d) =>
        c := d;
        GotoSucc(m, l, bb, r2.s, c);
        SuccIsOther(l, bb, c);
        EnterMerged(m, l, bb, bb, c, r2.s.env);
        t := r2.s.(env := EnterPhis(m, r2.s.env, l.f[c].phis, bb, r2.s.env));
        assert RunFrom(m, l.f, bb, r1.s, i + 1) == RunFrom(m, l.f, c, t, i);
        assert RunFrom(m, f', pre, s, j + 1) == Enter(m, f', pre, c, r2.s, j);
        assert |f'| == |l.f|;
    }
  }

  lemma DoneFinishes(m: Machine, t: Term, s: State)
    requires ExecTerm(m, t, s).Done?
    ensures !ExecTerm(m, t, s).o.Unfinished?
  {
  }

  lemma SuccIsOther(l: Layout, bb: Block, c: Block)
    requires Ok(l) && Awaits(l, bb) && c in l.succs[bb]
    ensures c != bb
  {
    hide Reached, LabelsIn;
    PredDiffers(l, bb);
    assert Mirror(l, bb, bb) && l.preds[bb] == [l.preds[bb][0]];
  }

  /** Any other block takes the same way in both. */
  lemma OtherStep(m: Machine, l: Layout, bb: Block, b: Block, s: State, i: nat, j: nat) returns (o: Option<Outcome>, c: Block, t: State)
    requires Ok(l) && Awaits(l, bb) && b in l.live && b < |l.f| && b != bb && b != l.preds[bb][0]
    ensures var f' := Merged(l, bb).f;
      if o.Some? then !o.value.Unfinished? && RunFrom(m, l.f, b, s, i + 1) == o.value == RunFrom(m, f', b, s, j + 1)
      else
        && c in l.live && c < |l.f| && c != bb
        && RunFrom(m, l.f, b, s, i + 1) == RunFrom(m, l.f, c, t, i) && RunFrom(m, f', b, s, j + 1) == RunFrom(m, f', c, t, j)
  {
    hide Reached, BlockOk, Mirror, Relabel;
    var f' := Merged(l, bb).f;
    assert f'[b].body == l.f[b].body && f'[b].term == l.f[b].term;
    var r := ExecBody(m, l.f[b].body, s);
    o, c, t := None, 0, s;
    if r.Halt? {
      o := Some(Halted(r.why, r.mem, r.out));
      return;
    }
    match ExecTerm(m, l.f[b].term, r.s) {
      case Done(out) =>
        o := Some(out);
        DoneFinishes(m, l.f[b].term, r.s);
      case Goto(d) =>
        c := d;
        GotoSucc(m, l, b, r.s, c);
        NotMerged(l, bb, b, c);
        EnterMerged(m, l, bb, b, c, r.s.env);
        t := r.s.(env := EnterPhis(m, r.s.env, l.f[c].phis, b, r.s.env));
    }
  }

  lemma NotMerged(l: Layout, bb: Block, b: Block, c: Block)
    requires Ok(l) && Awaits(l, bb) && b in l.live && b < |l.succs| && b != l.preds[bb][0] && c in l.succs[b]
    ensures c != bb
  {
    if c == bb {
      OnlyPred(l, bb, b);
    }
  }

  /** A run that ends still ends, and no later. */
  lemma {:induction false} Forward(m: Machine, l: Layout, bb: Block, b: Block, s: State, k: nat)
    requires Ok(l) && Awaits(l, bb) && b in l.live && b < |l.f| && b != bb && !RunFrom(m, l.f, b, s, k).Unfinished?
    ensures RunFrom(m, Merged(l, bb).f, b, s, k) == RunFrom(m, l.f, b, s, k)
    decreases k
  {
    hide Merged, BlockOk, Mirror, Reached, RunFrom;
    SomeFuel(m, l.f, b, s, k);
    var j: nat := k - 1;
    if b != l.preds[bb][0] {
      var o, c, t := OtherStep(m, l, bb, b, s, j, j);
      if o.None? {
        Forward(m, l, bb, c, t, j);
      }
    } else if k == 1 {
      OneBlock(m, l, bb, s);
    } else {
      var i: nat := k - 2;
      var o, c, t := MergedStep(m, l, bb, s, i, j);
      if o.None? {
        Forward(m, l, bb, c, t, i);
        MoreFuel(m, Merged(l, bb).f, c, t, i, j);
      }
    }
  }

  lemma SomeFuel(m: Machine, f: Func, b: Block, s: State, k: nat)
    requires !RunFrom(m, f, b, s, k).Unfinished?
    ensures k > 0
  {
  }

  /** The run stops inside the first block of the pair. */
  lemma OneBlock(m: Machine, l: Layout, bb: Block, s: State)
    requires Ok(l) && Awaits(l, bb) && !RunFrom(m, l.f, l.preds[bb][0], s, 1).Unfinished?
    ensures RunFrom(m, Merged(l, bb).f, l.preds[bb][0], s, 1) == RunFrom(m, l.f, l.preds[bb][0], s, 1)
  {
    hide Relabel, BlockOk, Mirror, Reached;
    PredDiffers(l, bb);
    var pre := l.preds[bb][0];
    FirstOfPair(m, l, bb, s, 1);
    ExecAppend(m, l.f[pre].body, l.f[bb].body, s);
    assert Merged(l, bb).f[pre].body == l.f[pre].body + l.f[bb].body;
  }

  /** And a run that ends afterwards ended before, with twice the fuel. */
  lemma {:induction false} Backward(m: Machine, l: Layout, bb: Block, b: Block, s: State, k: nat)
    requires Ok(l) && Awaits(l, bb) && b in l.live && b < |l.f| && b != bb && !RunFrom(m, Merged(l, bb).f, b, s, k).Unfinished?
    ensures RunFrom(m, l.f, b, s, 2 * k) == RunFrom(m, Merged(l, bb).f, b, s, k)
    decreases k
  {
    hide Merged, BlockOk, Mirror, Reached, RunFrom;
    SomeFuel(m, Merged(l, bb).f, b, s, k);
    var j: nat := k - 1;
    var i: nat := 2 * j;
    if b == l.preds[bb][0] {
      var o, c, t := MergedStep(m, l, bb, s, i, j);
      if o.None? {
        Backward(m, l, bb, c, t, j);
      }
    } else {
      var h: nat := i + 1;
      var o, c, t := OtherStep(m, l, bb, b, s, h, j);
      if o.None? {
        Backward(m, l, bb, c, t, j);
        MoreFuel(m, l.f, c, t, i, h);
      }
    }
  }

  // ---------------------------------------------------------------- what is printed on the way

  /** As long as it runs, the merged function has printed no less. */
  lemma {:induction false} ForwardPrints(m: Machine, l: Layout, bb: Block, b: Block, s: State, k: nat)
    requires Ok(l) && Awaits(l, bb) && b in l.live && b < |l.f| && b != bb
    ensures Prefix(RunFrom(m, l.f, b, s, k).out, RunFrom(m, Merged(l, bb).f, b, s, k).out)
    decreases k
  {
    hide Merged, BlockOk, Mirror, Reached, RunFrom;
    if k == 0 {
      NoFuel(m, l.f, Merged(l, bb).f, b, s);
    } else if b != l.preds[bb][0] {
      var j: nat := k - 1;
      var o, c, t := OtherStep(m, l, bb, b, s, j, j);
      PrefixSelf(RunFrom(m, l.f, b, s, k).out);
      if o.None? {
        ForwardPrints(m, l, bb, c, t, j);
      }
    } else if k == 1 {
      OneBlockPrints(m, l, bb, s);
    } else {
      var i: nat, j: nat := k - 2, k - 1;
      var o, c, t := MergedStep(m, l, bb, s, i, j);
      PrefixSelf(RunFrom(m, l.f, b, s, k).out);
      if o.None? {
        ForwardPrints(m, l, bb, c, t, i);
        MorePrints(m, Merged(l, bb).f, c, t, i, j);
        PrefixTrans(RunFrom(m, l.f, c, t, i).out, RunFrom(m, Merged(l, bb).f, c, t, i).out, RunFrom(m, Merged(l, bb).f, c, t, j).out);
      }
    }
  }

  lemma NoFuel(m: Machine, f: Func, f': Func, b: Block, s: State)
    ensures Prefix(RunFrom(m, f, b, s, 0).out, RunFrom(m, f', b, s, 0).out)
  {
    PrefixSelf(s.out);
  }

  lemma OneBlockPrints(m: Machine, l: Layout, bb: Block, s: State)
    requires Ok(l) && Awaits(l, bb)
    ensures Prefix(RunFrom(m, l.f, l.preds[bb][0], s, 1).out, RunFrom(m, Merged(l, bb).f, l.preds[bb][0], s, 1).out)
  {
    hide Relabel, BlockOk, Mirror, Reached;
    PredDiffers(l, bb);
    var pre, f' := l.preds[bb][0], Merged(l, bb).f;
    FirstOfPair(m, l, bb, s, 1);
    ExecAppend(m, l.f[pre].body, l.f[bb].body, s);
    assert f'[pre].body == l.f[pre].body + l.f[bb].body;
    var r := ExecBody(m, l.f[pre].body, s);
    if r.Next? {
      BodyPrints(m, l.f[bb].body, r.s);
      FirstPrints(m, f', pre, s);
      PrefixTrans(r.s.out, OutOf(ExecBody(m, f'[pre].body, s)), RunFrom(m, f', pre, s, 1).out);
    } else {
      PrefixSelf(r.out);
    }
  }

  lemma FirstPrints(m: Machine, f: Func, b: Block, s: State)
    requires b < |f|
    ensures Prefix(OutOf(ExecBody(m, f[b].body, s)), RunFrom(m, f, b, s, 1).out)
  {
    PrefixSelf(OutOf(ExecBody(m, f[b].body, s)));
  }

  /** And with twice the fuel the original no less than the merged function. */
  lemma {:induction false} BackwardPrints(m: Machine, l: Layout, bb: Block, b: Block, s: State, k: nat)
    requires Ok(l) && Awaits(l, bb) && b in l.live && b < |l.f| && b != bb
    ensures Prefix(RunFrom(m, Merged(l, bb).f, b, s, k).out, RunFrom(m, l.f, b, s, 2 * k).out)
    decreases k
  {
    hide Merged, BlockOk, Mirror, Reached, RunFrom;
    if k == 0 {
      NoFuel(m, Merged(l, bb).f, l.f, b, s);
    } else {
      var j: nat := k - 1;
      var i: nat := 2 * j;
      PrefixSelf(RunFrom(m, Merged(l, bb).f, b, s, k).out);
      if b == l.preds[bb][0] {
        var o, c, t := MergedStep(m, l, bb, s, i, j);
        if o.None? {
          BackwardPrints(m, l, bb, c, t, j);
        }
      } else {
        var h: nat := i + 1;
        var o, c, t := OtherStep(m, l, bb, b, s, h, j);
        if o.None? {
          BackwardPrints(m, l, bb, c, t, j);
          MorePrints(m, l.f, c, t, i, h);
          PrefixTrans(RunFrom(m, Merged(l, bb).f, c, t, j).out, RunFrom(m, l.f, c, t, i).out, RunFrom(m, l.f, c, t, h).out);
        }
      }
    }
  }

  /** Whatever one function prints, ending or not, the other prints. */
  ghost predicate SamePrints(f: Func, f': Func) {
    forall m, mem, out {:trigger Prints(m, f, mem, out)} {:trigger Prints(m, f', mem, out)} :: Prints(m, f, mem, out) <==> Prints(m, f', mem, out)
  }

  lemma MergedPrints(l: Layout, bb: Block)
    requires Ok(l) && Awaits(l, bb)
    ensures SamePrints(l.f, Merged(l, bb).f)
  {
    hide RunFrom, Merged, Awaits, Reached, BlockOk, Mirror;
    PredDiffers(l, bb);
    var f' := Merged(l, bb).f;
    forall m, mem, out
      ensures Prints(m, l.f, mem, out) <==> Prints(m, f', mem, out)
    {
      var s := State(map[], map[], mem, []);
      if Prints(m, l.f, mem, out) {
        var k: nat :| Prefix(out, Execute(m, l.f, mem, k).out);
        ForwardPrints(m, l, bb, ENTRY, s, k);
        PrefixTrans(out, Execute(m, l.f, mem, k).out, Execute(m, f', mem, k).out);
      }
      if Prints(m, f', mem, out) {
        var k: nat :| Prefix(out, Execute(m, f', mem, k).out);
        BackwardPrints(m, l, bb, ENTRY, s, k);
        var j := 2 * k;
        PrefixTrans(out, Execute(m, f', mem, k).out, Execute(m, l.f, mem, j).out);
      }
    }
  }

  // ---------------------------------------------------------------- results

  /** Both functions come to the same results. */
  ghost predicate Results(m: Machine, f: Func, mem: Memory, o: Outcome) { exists k: nat :: Execute(m, f, mem, k) == o }

  ghost predicate SameResults(f: Func, f': Func) {
    forall m, mem, o: Outcome {:trigger Results(m, f, mem, o)} {:trigger Results(m, f', mem, o)} ::
      !o.Unfinished? ==> (Results(m, f, mem, o) <==> Results(m, f', mem, o))
  }

  lemma MergedResults(l: Layout, bb: Block)
    requires Ok(l) && Awaits(l, bb)
    ensures SameResults(l.f, Merged(l, bb).f)
  {
    hide RunFrom, Merged, Awaits, Reached, BlockOk, Mirror;
    PredDiffers(l, bb);
    var f' := Merged(l, bb).f;
    forall m, mem, o: Outcome | !o.Unfinished?
      ensures Results(m, l.f, mem, o) <==> Results(m, f', mem, o)
    {
      var s := State(map[], map[], mem, []);
      if Results(m, l.f, mem, o) {
        var k: nat :| Execute(m, l.f, mem, k) == o;
        Forward(m, l, bb, ENTRY, s, k);
        assert Execute(m, f', mem, k) == o;
      }
      if Results(m, f', mem, o) {
        var k: nat :| Execute(m, f', mem, k) == o;
        Backward(m, l, bb, ENTRY, s, k);
        var j := 2 * k;
        assert Execute(m, l.f, mem, j) == o;
      }
    }
  }

  lemma SameTrans(f: Func, f': Func, f'': Func)
    requires SameResults(f, f') && SameResults(f', f'')
    ensures SameResults(f, f'')
  {
    hide Results;
    forall m, mem, o: Outcome | !o.Unfinished?
      ensures Results(m, f, mem, o) <==> Results(m, f'', mem, o)
    {
      assert Results(m, f, mem, o) <==> Results(m, f', mem, o);
    }
  }

  lemma SameRefl(f: Func)
    ensures SameResults(f, f)
  {
  }

  lemma SamePrintsTrans(f: Func, f': Func, f'': Func)
    requires SamePrints(f, f') && SamePrints(f', f'')
    ensures SamePrints(f, f'')
  {
    hide Prints;
    forall m, mem, out
      ensures Prints(m, f, mem, out) <==> Prints(m, f'', mem, out)
    {
      assert Prints(m, f, mem, out) <==> Prints(m, f', mem, out);
    }
  }

  lemma SamePrintsRefl(f: Func)
    ensures SamePrints(f, f)
  {
  }

  /** Merging makes no other block ready for merging. */
  lemma NoNewAwaits(l: Layout, bb: Block, c: Block)
    requires Ok(l) && Awaits(l, bb) && Awaits(Merged(l, bb), c)
    ensures Awaits(l, c) && c != bb
  {
    hide Reached, LabelsIn;
    PredDiffers(l, bb);
    var pre, n := l.preds[bb][0], Merged(l, bb);
    assert BlockOk(l, c) && Mirror(l, bb, c) && BlockOk(l, bb) && Mirror(l, pre, c) && BlockOk(l, pre);
    if c in l.succs[bb] {
      var s := l.preds[c] + [pre];
      assert n.preds[c] == RemoveAll(s, bb);
      OnlyOneLeft(l.preds[c], pre, bb);
    }
  }

  lemma {:induction false} OnlyOneLeft(s: seq<Block>, pre: Block, bb: Block)
    requires pre !in s && bb in s && bb != pre && Distinct(s) && |RemoveAll(s + [pre], bb)| == 1
    ensures s == [bb] && RemoveAll(s + [pre], bb) == [pre]
  {
    var r := RemoveAll(s + [pre], bb);
    assert pre in s + [pre];
    assert r == [pre];
    forall i | 0 <= i < |s|
      ensures s[i] == bb
    {
      assert s[i] in s + [pre];
    }
    assert Differ(s, 0, 1);
  }

  /** Single predecessors bring no phis. */
  ghost predicate NoSinglePhis(l: Layout)
    requires |l.preds| == |l.succs| == |l.f|
  {
    forall b: Block {:trigger l.preds[b]} :: b in l.live && b < |l.f| && |l.preds[b]| == 1 ==> l.f[b].phis == []
  }

  /** The blocks that wait are told by the lists alone. */
  lemma AwaitsIs(l: Layout, b: Block)
    requires Ok(l) && NoSinglePhis(l)
    ensures Awaits(l, b) <==> b in l.live && b < |l.preds| && |l.preds[b]| == 1 && l.preds[b][0] < |l.succs| && |l.succs[l.preds[b][0]]| == 1
  {
    hide Reached, LabelsIn;
    assert BlockOk(l, b);
    if b in l.live && |l.preds[b]| == 1 {
      var pre := l.preds[b][0];
      assert pre in l.preds[b];
      assert BlockOk(l, pre) && Mirror(l, pre, b);
      if |l.succs[pre]| == 1 {
        assert l.succs[pre] == [l.succs[pre][0]] == [b];
      }
    }
  }

  lemma MergedPhis(l: Layout, bb: Block)
    requires Ok(l) && Awaits(l, bb) && NoSinglePhis(l)
    ensures NoSinglePhis(Merged(l, bb))
  {
    hide Reached, LabelsIn;
    PredDiffers(l, bb);
    var pre, n := l.preds[bb][0], Merged(l, bb);
    forall c: Block | c in n.live && c < |n.f| && |n.preds[c]| == 1
      ensures n.f[c].phis == []
    {
      assert BlockOk(l, c) && Mirror(l, bb, c) && BlockOk(l, bb) && Mirror(l, pre, c) && BlockOk(l, pre);
      if c in l.succs[bb] {
        OnlyOneLeft(l.preds[c], pre, bb);
      }
      assert l.preds[c] == l.preds[c] && |l.preds[c]| == 1;
    }
  }
}
