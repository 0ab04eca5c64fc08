/** When the rescanning of the live sets comes to the live values. */
module Rescan {
  import opened Cfg
  import opened Liveness

  /** The equation of b asks c for v. */
  ghost predicate Asks(f: Facts, b: Block, c: Block, v: Var) {
    b < f.g.Size() && c in f.g.succs[b] && c != b && f.Passes(b, c, v)
  }

  /** v is in the set of b when b has been recomputed t times. Blocks in front of it
      have been recomputed once more than it has when it asks them. */
  ghost predicate After(f: Facts, t: nat, b: Block, v: Var)
    decreases t, b
  {
    if t == 0 then v in At(f.uses, b)
    else
      && v !in At(f.defs, b)
      && (v in At(f.uses, b) || exists c: Block {:trigger Asks(f, b, c, v)} :: Asks(f, b, c, v) && After(f, if c < b then t else t - 1, c, v))
  }

  /** Blocks outside the function use nothing. */
  ghost predicate Bounded(f: Facts) { f.g.InRange() && forall b: Block {:trigger At(f.uses, b)} :: b >= f.g.Size() ==> At(f.uses, b) == {} }

  /** p leads from b to a block that both uses and defines v, past no other definition.
      The seed there counts only for blocks recomputed before it, so in the last step
      p goes on in the list. */
  ghost predicate Stray(f: Facts, p: seq<Block>, b: Block, v: Var) {
    && 0 < |p| && p[0] == b && v in At(f.uses, p[|p| - 1]) && v in At(f.defs, p[|p| - 1])
    && (forall i {:trigger p[i]} :: 0 <= i < |p| - 1 ==> Asks(f, p[i], p[i + 1], v) && v !in At(f.defs, p[i]))
    && (|p| > 1 ==> p[|p| - 2] < p[|p| - 1])
  }

  ghost predicate Repeats(p: seq<Block>) { exists i, j :: 0 <= i < j < |p| && p[i] == p[j] }

  /** No such walk goes round, but where the value is live anyway. */
  ghost predicate Clean(f: Facts) {
    forall p, b: Block, v {:trigger Stray(f, p, b, v)} :: Stray(f, p, b, v) && !f.Live(b, v) ==> !Repeats(p)
  }

  /** How often p goes on in the list. */
  function Rises(p: seq<Block>): nat {
    if |p| <= 1 then 0 else (if p[0] < p[1] then 1 else 0) + Rises(p[1..])
  }

  // ---------------------------------------------------------------- what is live is found

  lemma {:induction false} LiveAfterScans(f: Facts, p: seq<Block>, t: nat, b: Block, v: Var)
    requires f.LiveWay(p, b, v) && |p| <= t + 1
    ensures After(f, t, b, v)
    decreases |p|
  {
    assert p[0] == b;
    if |p| > 1 {
      var q, c := p[1..], p[1];
      assert p[0 + 1] in f.g.succs[p[0]] && f.Passes(p[0], p[0 + 1], v);
      assert f.LiveWay(q, c, v) by {
        assert forall i :: 0 <= i < |q| ==> q[i] == p[i + 1];
      }
      if c == b {
        LiveAfterScans(f, q, t, b, v);
      } else {
        LiveAfterScans(f, q, if c < b then t else t - 1, c, v);
        assert Asks(f, b, c, v);
      }
    }
  }

  /** A way need not be longer than the list of blocks. */
  lemma {:induction false} ShortWay(f: Facts, p: seq<Block>, b: Block, v: Var) returns (q: seq<Block>)
    requires f.LiveWay(p, b, v)
    ensures f.LiveWay(q, b, v) && |q| <= f.g.Size()
    decreases |p|
  {
    q := p;
    if |p| > f.g.Size() {
      assert forall i :: 0 <= i < |p| ==> p[i] < f.g.Size();
      Pigeonhole(p, f.g.Size());
      var i, j :| 0 <= i < j < |p| && p[i] == p[j];
      var r := p[..i] + p[j..];
      CutWay(f, p, b, v, i, j);
      q := ShortWay(f, r, b, v);
    }
  }

  lemma CutWay(f: Facts, p: seq<Block>, b: Block, v: Var, i: nat, j: nat)
    requires f.LiveWay(p, b, v) && i < j < |p| && p[i] == p[j]
    ensures f.LiveWay(p[..i] + p[j..], b, v)
  {
    hide Facts.Passes;
    var r := p[..i] + p[j..];
    assert r[|r| - 1] == p[|p| - 1] && r[0] == p[0];
    forall k | 0 <= k < |r|
      ensures v !in At(f.defs, r[k]) && r[k] < f.g.Size()
      ensures k < |r| - 1 ==> r[k + 1] in f.g.succs[r[k]] && f.Passes(r[k], r[k + 1], v)
    {
      var x := if k < i then k else k + j - i;
      assert r[k] == p[x];
      if k < |r| - 1 && k + 1 == i {
        assert r[k + 1] == p[j] == p[i] == p[k + 1];
      } else if k < |r| - 1 {
        assert r[k + 1] == p[x + 1];
      }
    }
  }

  // ---------------------------------------------------------------- what else is found

  lemma {:induction false} RisesUp(p: seq<Block>)
    requires |p| > 1 && p[|p| - 2] < p[|p| - 1]
    ensures Rises(p) > 0
  {
    if |p| > 2 {
      RisesUp(p[1..]);
    }
  }

  lemma {:induction false} RisesLength(p: seq<Block>)
    ensures |p| > 0 ==> Rises(p) < |p|
  {
    if |p| > 1 {
      RisesLength(p[1..]);
    }
  }

  lemma StrayOn(f: Facts, p: seq<Block>, b: Block, c: Block, v: Var)
    requires Stray(f, p, c, v) && Asks(f, b, c, v) && v !in At(f.defs, b) && (|p| == 1 ==> b < c)
    ensures Stray(f, [b] + p, b, v) && Rises([b] + p) == (if b < c then 1 else 0) + Rises(p)
  {
    hide Asks;
    var q := [b] + p;
    assert q[1..] == p && q[0] == b && q[1] == p[0];
    forall i | 0 <= i < |q| - 1
      ensures Asks(f, q[i], q[i + 1], v) && v !in At(f.defs, q[i])
    {
      if i > 0 {
        assert q[i] == p[i - 1] && q[i + 1] == p[i];
      }
    }
  }

  lemma StrayTail(f: Facts, p: seq<Block>, b: Block, v: Var)
    requires Stray(f, p, b, v) && |p| > 1
    ensures Stray(f, p[1..], p[1], v) && Asks(f, b, p[1], v) && v !in At(f.defs, b)
  {
    hide Asks;
    var q := p[1..];
    assert p[0] == b && p[0 + 1] == p[1];
    assert forall i :: 0 <= i < |q| ==> q[i] == p[i + 1];
  }

  /** What is in a set and not live has come along such a walk. */
  lemma {:induction false} StrayFrom(f: Facts, t: nat, b: Block, v: Var) returns (p: seq<Block>)
    requires Bounded(f) && After(f, t, b, v) && !f.Live(b, v)
    ensures Stray(f, p, b, v) && Rises(p) == t
    decreases t, b
  {
    hide Facts.Live, Facts.Passes;
    if v in At(f.uses, b) && v !in At(f.defs, b) {
      f.LiveHere(b, v);
    }
    if t == 0 {
      return [b];
    }
    var c: Block :| Asks(f, b, c, v) && After(f, if c < b then t else t - 1, c, v);
    if f.Live(c, v) {
      f.LiveAbove(b, c, v);
    }
    p := StrayFrom(f, if c < b then t else t - 1, c, v);
    StrayOn(f, p, b, c, v);
    p := [b] + p;
  }

  /** And all that comes along one is in the set. */
  lemma {:induction false} StrayTo(f: Facts, p: seq<Block>, b: Block, v: Var)
    requires Stray(f, p, b, v)
    ensures After(f, Rises(p), b, v)
    decreases |p|
  {
    if |p| > 1 {
      StrayTail(f, p, b, v);
      StrayTo(f, p[1..], p[1], v);
      RisesUp(p);
    }
  }

  lemma {:induction false} NotLiveOn(f: Facts, p: seq<Block>, b: Block, v: Var, k: nat)
    requires Stray(f, p, b, v) && !f.Live(b, v) && k < |p|
    ensures Stray(f, p[k..], p[k], v) && !f.Live(p[k], v)
    decreases k
  {
    hide Facts.Live, Facts.Passes;
    if k == 0 {
      assert p[0..] == p;
    } else {
      StrayTail(f, p, b, v);
      if f.Live(p[1], v) {
        f.LiveAbove(b, p[1], v);
      }
      NotLiveOn(f, p[1..], p[1], v, k - 1);
      assert p[1..][k - 1..] == p[k..];
    }
  }

  // ---------------------------------------------------------------- going round

  lemma {:induction false} RisesJoin(p: seq<Block>, k: nat, q: seq<Block>)
    requires k < |p| && 0 < |q| && q[0] == p[k]
    ensures Rises(p[..k] + q) == Rises(p[..k + 1]) + Rises(q)
    decreases k
  {
    var r := p[..k] + q;
    if k == 0 {
      assert r == q && p[..1] == [p[0]];
    } else {
      RisesJoin(p[1..], k - 1, q);
      assert r[1..] == p[1..][..k - 1] + q && p[..k + 1][1..] == p[1..][..k - 1 + 1];
      assert r[0] == p[0] && r[1] == p[1] && p[..k + 1][1] == p[1];
    }
  }

  /** A walk that never goes on in the list goes back all the time. */
  lemma {:induction false} Falls(p: seq<Block>)
    requires |p| > 0 && Rises(p) == 0 && forall i {:trigger p[i]} :: 0 <= i < |p| - 1 ==> p[i] != p[i + 1]
    ensures p[|p| - 1] + |p| - 1 <= p[0]
  {
    if |p| > 1 {
      assert p[0] != p[0 + 1];
      assert forall i :: 0 <= i < |p| - 1 ==> p[1..][i] == p[i + 1];
      Falls(p[1..]);
    }
  }

  /** Once round and then on. */
  lemma Around(f: Facts, p: seq<Block>, b: Block, v: Var, k: nat, q: seq<Block>)
    requires Stray(f, p, b, v) && 0 < k < |p| && p[k] == b && Stray(f, q, b, v)
    ensures Stray(f, p[..k] + q, b, v) && Rises(p[..k] + q) > Rises(q)
  {
    RisesJoin(p, k, q);
    if Rises(p[..k + 1]) == 0 {
      var r := p[..k + 1];
      forall i | 0 <= i < |r| - 1
        ensures r[i] != r[i + 1]
      {
        assert Asks(f, p[i], p[i + 1], v);
      }
      Falls(r);
    }
    hide Asks, Rises;
    var w := p[..k] + q;
    assert v !in At(f.defs, p[0]);
    assert |q| > 1 by {
      assert q[0] == b;
    }
    assert w[|w| - 1] == q[|q| - 1] && w[|w| - 2] == q[|q| - 2];
    forall i | 0 <= i < |w| - 1
      ensures Asks(f, w[i], w[i + 1], v) && v !in At(f.defs, w[i])
    {
      if i < k {
        assert w[i] == p[i] && w[i + 1] == p[i + 1];
      } else {
        assert w[i] == q[i - k] && w[i + 1] == q[i - k + 1];
      }
    }
  }

  /** As often as one likes. */
  lemma {:induction false} Pump(f: Facts, p: seq<Block>, b: Block, v: Var, k: nat, t: nat) returns (q: seq<Block>)
    requires Stray(f, p, b, v) && 0 < k < |p| && p[k] == b
    ensures Stray(f, q, b, v) && Rises(q) >= t
    decreases t
  {
    if t == 0 {
      return p;
    }
    q := Pump(f, p, b, v, k, t - 1);
    Around(f, p, b, v, k, q);
    q := p[..k] + q;
  }

  /** From further on, so that it goes on in the list just so often. */
  lemma {:induction false} Trim(f: Facts, p: seq<Block>, b: Block, v: Var, t: nat) returns (q: seq<Block>, c: Block)
    requires Stray(f, p, b, v) && !f.Live(b, v) && t <= Rises(p)
    ensures Stray(f, q, c, v) && !f.Live(c, v) && Rises(q) == t
    decreases |p|
  {
    hide Facts.Live, Stray;
    q, c := p, b;
    if Rises(p) > t {
      NotLiveOn(f, p, b, v, 1);
      q, c := Trim(f, p[1..], p[1], v, t);
    }
  }

  /** If one goes round, at every time some set holds what is not live. */
  lemma RoundStays(f: Facts, p: seq<Block>, b: Block, v: Var, t: nat) returns (c: Block)
    requires Bounded(f) && Stray(f, p, b, v) && !f.Live(b, v) && Repeats(p)
    ensures After(f, t, c, v) && !f.Live(c, v) && c < f.g.Size()
  {
    hide Facts.Live, Rises, Asks;
    var i, j :| 0 <= i < j < |p| && p[i] == p[j];
    NotLiveOn(f, p, b, v, i);
    var r := p[i..];
    assert r[j - i] == p[j];
    var q := Pump(f, r, p[i], v, j - i, t);
    var w;
    w, c := Trim(f, q, p[i], v, t);
    StrayTo(f, w, c, v);
    StrayInside(f, w, c, v);
  }

  lemma StrayInside(f: Facts, p: seq<Block>, b: Block, v: Var)
    requires Bounded(f) && Stray(f, p, b, v)
    ensures b < f.g.Size()
  {
    hide Facts.Passes;
    if |p| > 1 {
      assert Asks(f, p[0], p[0 + 1], v);
    }
  }

  lemma StrayAllInside(f: Facts, p: seq<Block>, b: Block, v: Var)
    requires Bounded(f) && Stray(f, p, b, v)
    ensures forall i :: 0 <= i < |p| ==> p[i] < f.g.Size()
  {
    hide Facts.Passes;
    forall i | 0 <= i < |p|
      ensures p[i] < f.g.Size()
    {
      if i < |p| - 1 {
        assert Asks(f, p[i], p[i + 1], v);
      }
    }
  }

  /** The sets are right. */
  ghost predicate RightAfter(f: Facts, t: nat) {
    forall b: Block, v {:trigger After(f, t, b, v)} :: b < f.g.Size() ==> (After(f, t, b, v) <==> f.Live(b, v))
  }

  /** After as many scans as there are blocks, or any number above, the sets hold
      exactly what is live iff no stray goes round. */
  lemma CleanIsExact(f: Facts, t: nat)
    requires Bounded(f) && f.g.Size() <= t
    ensures Clean(f) <==> RightAfter(f, t)
  {
    hide After, Stray, Facts.LiveWay, Rises;
    if Clean(f) {
      forall b: Block, v | b < f.g.Size()
        ensures After(f, t, b, v) <==> f.Live(b, v)
      {
        CleanAt(f, t, b, v);
      }
    } else {
      var p, b: Block, v :| Stray(f, p, b, v) && !f.Live(b, v) && Repeats(p);
      var c := RoundStays(f, p, b, v, t);
      assert After(f, t, c, v);
    }
  }

  lemma CleanAt(f: Facts, t: nat, b: Block, v: Var)
    requires Bounded(f) && f.g.Size() <= t && Clean(f) && b < f.g.Size()
    ensures After(f, t, b, v) <==> f.Live(b, v)
  {
    hide After, Stray, Facts.LiveWay, Rises;
    if f.Live(b, v) {
      LiveStays(f, t, b, v);
    } else if After(f, t, b, v) {
      var p := StrayFrom(f, t, b, v);
      LongRepeats(f, p, b, v);
    }
  }

  lemma LongRepeats(f: Facts, p: seq<Block>, b: Block, v: Var)
    requires Bounded(f) && Stray(f, p, b, v) && f.g.Size() <= Rises(p)
    ensures Repeats(p)
  {
    RisesLength(p);
    StrayAllInside(f, p, b, v);
    Pigeonhole(p, f.g.Size());
  }

  lemma NothingOutside(f: Facts, t: nat, b: Block, v: Var)
    requires Bounded(f) && f.g.Size() <= b
    ensures !After(f, t, b, v)
  {
    assert At(f.uses, b) == {};
  }

  // ---------------------------------------------------------------- when it ends

  /** A scan that changes nothing, as the k + 1st. */
  ghost predicate StillAt(f: Facts, k: nat) { forall b: Block, v {:trigger After(f, k, b, v)} :: After(f, k + 1, b, v) <==> After(f, k, b, v) }

  /** No later scan would change anything either. */
  lemma {:induction false} StillLater(f: Facts, k: nat, t: nat, b: Block, v: Var)
    requires StillAt(f, k) && k <= t
    ensures After(f, t, b, v) <==> After(f, k, b, v)
    decreases t, b
  {
    hide Asks;
    if k < t {
      forall c: Block | Asks(f, b, c, v)
        ensures After(f, if c < b then t else t - 1, c, v) <==> After(f, if c < b then k + 1 else k, c, v)
      {
        StillLater(f, k, if c < b then t else t - 1, c, v);
        assert After(f, k + 1, c, v) <==> After(f, k, c, v);
      }
      assert After(f, k + 1, b, v) <==> After(f, k, b, v);
    }
  }

  /** If it ends, the sets are right iff no stray goes round. */
  lemma EndsRight(f: Facts, k: nat)
    requires Bounded(f) && StillAt(f, k)
    ensures RightAfter(f, k) <==> Clean(f)
  {
    hide After, Facts.Live, StillAt, Bounded, Clean;
    var t := k + f.g.Size();
    CleanIsExact(f, t);
    forall b: Block, v
      ensures After(f, t, b, v) <==> After(f, k, b, v)
    {
      StillLater(f, k, t, b, v);
    }
  }

  /** If none does, it ends. */
  lemma CleanEnds(f: Facts, k: nat)
    requires Bounded(f) && Clean(f) && f.g.Size() <= k
    ensures StillAt(f, k)
  {
    hide Facts.Live, Clean, Facts.Passes;
    CleanIsExact(f, k);
    CleanIsExact(f, k + 1);
    forall b: Block, v
      ensures After(f, k + 1, b, v) <==> After(f, k, b, v)
    {
      if b < f.g.Size() {
        RightAt(f, k, b, v);
        RightAt(f, k + 1, b, v);
      }
    }
  }

  lemma RightAt(f: Facts, t: nat, b: Block, v: Var)
    requires RightAfter(f, t) && b < f.g.Size()
    ensures After(f, t, b, v) <==> f.Live(b, v)
  {
    hide After, Facts.Live;
  }

  /** A stray comes to b that goes on in the list t times. */
  ghost predicate StrayIn(f: Facts, t: nat, b: Block, v: Var) { exists p :: Stray(f, p, b, v) && Rises(p) == t }

  /** From k on the strays that come to a block go on any number of times, or none. */
  ghost predicate AllOrNone(f: Facts, k: nat, b: Block, v: Var) {
    (forall t: nat :: k <= t ==> StrayIn(f, t, b, v)) || forall t: nat :: k <= t ==> !StrayIn(f, t, b, v)
  }

  ghost predicate Levels(f: Facts, k: nat) {
    forall b: Block, v {:trigger AllOrNone(f, k, b, v)} :: b < f.g.Size() && !f.Live(b, v) ==> AllOrNone(f, k, b, v)
  }

  lemma StrayInIs(f: Facts, t: nat, b: Block, v: Var)
    requires Bounded(f) && !f.Live(b, v)
    ensures StrayIn(f, t, b, v) <==> After(f, t, b, v)
  {
    hide After, Stray, Facts.Live, Rises;
    if After(f, t, b, v) {
      var p := StrayFrom(f, t, b, v);
    }
    if StrayIn(f, t, b, v) {
      var p :| Stray(f, p, b, v) && Rises(p) == t;
      StrayTo(f, p, b, v);
    }
  }

  /** The rescanning ends, rightly or not, iff the strays level off. */
  lemma EndsIff(f: Facts)
    requires Bounded(f)
    ensures (exists k: nat :: StillAt(f, k)) <==> exists k: nat :: Levels(f, k)
  {
    hide StillAt, Levels;
    if k: nat :| StillAt(f, k) {
      StillLevels(f, k);
    }
    if k: nat :| Levels(f, k) {
      LevelsStill(f, k);
      assert StillAt(f, k + f.g.Size());
    }
  }

  lemma StillLevels(f: Facts, k: nat)
    requires Bounded(f) && StillAt(f, k)
    ensures Levels(f, k)
  {
    hide After, StrayIn, Facts.Live, StillAt;
    forall b: Block, v | b < f.g.Size() && !f.Live(b, v)
      ensures AllOrNone(f, k, b, v)
    {
      forall t: nat | k <= t
        ensures StrayIn(f, t, b, v) <==> After(f, k, b, v)
      {
        StillLater(f, k, t, b, v);
        StrayInIs(f, t, b, v);
      }
    }
  }

  lemma LevelsStill(f: Facts, k: nat)
    requires Bounded(f) && Levels(f, k)
    ensures StillAt(f, k + f.g.Size())
  {
    hide After, StrayIn, Facts.LiveWay, Bounded;
    var t := k + f.g.Size();
    forall b: Block, v
      ensures After(f, t + 1, b, v) <==> After(f, t, b, v)
    {
      if b >= f.g.Size() {
        NothingOutside(f, t, b, v);
        NothingOutside(f, t + 1, b, v);
      } else if f.Live(b, v) {
        LiveStays(f, t, b, v);
        LiveStays(f, t + 1, b, v);
      } else {
        assert AllOrNone(f, k, b, v);
        StrayInIs(f, t, b, v);
        StrayInIs(f, t + 1, b, v);
      }
    }
  }

  lemma LiveStays(f: Facts, t: nat, b: Block, v: Var)
    requires f.Live(b, v) && f.g.Size() <= t
    ensures After(f, t, b, v)
  {
    hide After, Facts.LiveWay;
    var p :| f.LiveWay(p, b, v);
    p := ShortWay(f, p, b, v);
    LiveAfterScans(f, p, t, b, v);
  }

  /** Some block in front of b leads to it. */
  ghost predicate Entered(f: Facts, b: Block) { exists c: Block :: c < b && c < f.g.Size() && b in f.g.succs[c] }

  lemma StrayEntered(f: Facts, p: seq<Block>, b: Block, v: Var)
    requires Stray(f, p, b, v) && |p| > 1
    ensures exists d: Block :: v in At(f.uses, d) && v in At(f.defs, d) && Entered(f, d)
  {
    var n := |p| - 2;
    assert Asks(f, p[n], p[n + 1], v);
    assert Entered(f, p[n + 1]);
  }

  /** No stray goes anywhere if blocks that both use and define a value have no
      predecessor in front; so it is if there is no such block but the entry. */
  lemma UnenteredIsClean(f: Facts)
    requires forall b: Block, v {:trigger v in At(f.uses, b), v in At(f.defs, b)} :: v in At(f.uses, b) && v in At(f.defs, b) ==> !Entered(f, b)
    ensures Clean(f)
  {
    hide Facts.Live, Stray, Entered;
    forall p, b: Block, v | Stray(f, p, b, v) && Repeats(p)
      ensures |p| <= 1
    {
      if |p| > 1 {
        StrayEntered(f, p, b, v);
      }
    }
  }

  /** In a function where no block both uses and defines a value nothing goes anywhere. */
  lemma SeparateIsClean(fn: Fn, f: Facts)
    requires fn.Valid() && FactsOf(fn, f) && Separate(fn)
    ensures f.Apart() && Clean(f)
  {
    hide FactsOf, Separate, Clean;
    SeparateFacts(fn, f);
    UnenteredIsClean(f);
  }

  lemma NoStray(f: Facts, p: seq<Block>, b: Block, v: Var)
    requires f.Apart()
    ensures !Stray(f, p, b, v)
  {
    if |p| > 0 {
      assert At(f.uses, p[|p| - 1]) !! At(f.defs, p[|p| - 1]);
    }
  }

  /** There the sets only grow, and hold only what is live. */
  lemma {:induction false} ScansGrow(f: Facts, t: nat, b: Block, v: Var)
    requires Bounded(f) && f.Apart() && After(f, t, b, v)
    ensures After(f, t + 1, b, v) && f.Live(b, v)
    decreases t, b
  {
    hide Facts.Live, Facts.Passes;
    assert At(f.uses, b) !! At(f.defs, b);
    if !f.Live(b, v) {
      var p := StrayFrom(f, t, b, v);
      NoStray(f, p, b, v);
    }
    if t > 0 && v !in At(f.uses, b) {
      var c: Block :| Asks(f, b, c, v) && After(f, if c < b then t else t - 1, c, v);
      ScansGrow(f, if c < b then t else t - 1, c, v);
    }
  }

  // ---------------------------------------------------------------- a block that stores to its own alloca

  /** The last block makes 9 and stores to it; the others are empty. */
  function StoreLast(g: Graph): Fn
    requires g.Size() > 0
  {
    Fn(g, {}, seq(g.Size(), i => if i == g.Size() - 1 then [Inst(Alloca, Some(9), []), Inst(Store, None, [Number, Of(9)])] else []))
  }

  lemma StoreCode(need: set<Var>, geps: set<Var>, make: Inst, store: Inst)
    requires 9 in need && 9 !in geps && make == Inst(Alloca, Some(9), []) && store == Inst(Store, None, [Number, Of(9)])
    ensures UseOf(need, geps, [make, store]) == {9} && DefOf(need, geps, [make, store]) == {9} && PhiPairs(need, [make, store]) == {}
  {
    NoCode(need, geps);
    assert [make, store][..1] == [make] && [make][..0] == [];
    assert Results([make]) == {9};
    assert UseOf(need, geps, [make]) == {} && DefOf(need, geps, [make]) == {9} && PhiPairs(need, [make]) == {};
    assert Used(need, store) <= {9} by {
      forall op | op in store.ops && Counts(need, store, op)
        ensures op.v == 9
      {
      }
    }
  }

  lemma StoreSets(g: Graph, f: Facts)
    requires g.InRange() && FactsOf(StoreLast(g), f)
    ensures StoreLast(g).Valid() && Bounded(f) && f.g == g
    ensures forall b: Block {:trigger At(f.uses, b)} {:trigger At(f.defs, b)} :: At(f.uses, b) == At(f.defs, b) == if b == g.Size() - 1 then {9} else {}
    ensures forall b: Block {:trigger At(f.phiOp, b)} :: At(f.phiOp, b) == {}
  {
    var fn, last := StoreLast(g), g.Size() - 1;
    var need, geps := Defined(fn.args, fn.blocks), GepResults(fn.blocks);
    assert fn.blocks[last][0].result.v in need;
    assert 9 !in geps;
    StoreCode(need, geps, fn.blocks[last][0], fn.blocks[last][1]);
    NoCode(need, geps);
    hide UseOf, DefOf, PhiPairs, Defined, GepResults, Counted;
  }

  /** A block takes 9 over from the blocks behind it; the last one defines it. */
  lemma StoreStep(g: Graph, f: Facts, t: nat, b: Block)
    requires g.InRange() && FactsOf(StoreLast(g), f)
    ensures After(f, 0, b, 9) <==> b == g.Size() - 1
    ensures After(f, t + 1, b, 9) <==> b < g.Size() - 1 && exists c: Block :: c in g.succs[b] && c != b && After(f, if c < b then t + 1 else t, c, 9)
  {
    StoreSets(g, f);
    hide FactsOf, StoreLast;
    forall c: Block
      ensures Asks(f, b, c, 9) <==> b < g.Size() && c in g.succs[b] && c != b
    {
      assert At(f.phiOp, c) == {};
    }
    assert At(f.uses, b) == At(f.defs, b);
  }

  lemma StoreOne(g: Graph, f: Facts, t: nat, b: Block, c: Block)
    requires g.InRange() && FactsOf(StoreLast(g), f) && b < g.Size() - 1 && g.succs[b] == [c] && c != b
    ensures After(f, t + 1, b, 9) <==> After(f, if c < b then t + 1 else t, c, 9)
  {
    hide FactsOf, StoreLast, After;
    StoreStep(g, f, t, b);
    assert c in g.succs[b] && forall x :: x in g.succs[b] ==> x == c;
  }

  lemma StoreTwo(g: Graph, f: Facts, t: nat, b: Block, c: Block, d: Block)
    requires g.InRange() && FactsOf(StoreLast(g), f) && b < g.Size() - 1 && g.succs[b] == [c, d] && b < c && b < d
    ensures After(f, t + 1, b, 9) <==> After(f, t, c, 9) || After(f, t, d, 9)
  {
    hide FactsOf, StoreLast, After;
    StoreStep(g, f, t, b);
    assert c in g.succs[b] && d in g.succs[b] && forall x :: x in g.succs[b] ==> x == c || x == d;
  }

  lemma NoOther(g: Graph, f: Facts, t: nat, b: Block, v: Var)
    requires g.InRange() && FactsOf(StoreLast(g), f) && v != 9
    ensures !After(f, t, b, v)
    decreases t, b
  {
    StoreSets(g, f);
    hide FactsOf, StoreLast, Facts.Passes;
    assert v !in At(f.uses, b);
    if t > 0 {
      forall c: Block | Asks(f, b, c, v)
        ensures !After(f, if c < b then t else t - 1, c, v)
      {
        NoOther(g, f, if c < b then t else t - 1, c, v);
      }
    }
  }

  lemma NeverLive(g: Graph, f: Facts, b: Block, v: Var)
    requires g.InRange() && FactsOf(StoreLast(g), f)
    ensures !f.Live(b, v)
  {
    StoreSets(g, f);
    hide FactsOf, StoreLast, Facts.Passes, At;
    forall p
      ensures !f.LiveWay(p, b, v)
    {
      if |p| > 0 {
        var c := p[|p| - 1];
        assert At(f.uses, c) == At(f.defs, c);
      }
    }
  }

  /** Blocks 1, 2 and 3 are a ring, and 2 leads to 4. */
  function RingOfThree(): Graph { Graph([[1], [2], [3, 4], [1], []], [[], [0, 3], [1], [2], [2]]) }

  lemma ThreeStep(f: Facts, t: nat)
    requires FactsOf(StoreLast(RingOfThree()), f)
    ensures After(f, t + 1, 1, 9) <==> After(f, t, 2, 9)
    ensures After(f, t + 1, 2, 9) <==> After(f, t, 3, 9) || After(f, t, 4, 9)
    ensures After(f, t + 1, 3, 9) <==> After(f, t + 1, 1, 9)
    ensures !After(f, t + 1, 4, 9) && !After(f, 0, 2, 9) && !After(f, 0, 3, 9) && After(f, 0, 4, 9)
  {
    var g := RingOfThree();
    RingsInRange();
    assert g.succs == [[1], [2], [3, 4], [1], []];
    hide FactsOf, StoreLast, After, Graph.InRange, RingOfThree;
    StoreOne(g, f, t, 1, 2);
    StoreTwo(g, f, t, 2, 3, 4);
    StoreOne(g, f, t, 3, 1);
    StoreStep(g, f, t, 4);
    StoreStep(g, f, t, 2);
    StoreStep(g, f, t, 3);
  }

  lemma {:induction false} Alternates(f: Facts, t: nat)
    requires FactsOf(StoreLast(RingOfThree()), f)
    ensures After(f, t, 2, 9) <==> t % 2 == 1
    ensures After(f, t, 3, 9) <==> t % 2 == 0 && t > 0
    ensures After(f, t, 4, 9) <==> t == 0
  {
    hide *;
    ThreeStep(f, 0);
    if t > 0 {
      Alternates(f, t - 1);
      ThreeStep(f, t - 1);
    }
  }

  lemma RingsInRange()
    ensures RingOfThree().InRange() && RingOfTwo().InRange()
  {
  }

  /** There every scan changes a set, as many as there are, though no way anywhere
      leads to a use past no definition. */
  lemma OwnStoreNeverEnds(f: Facts, k: nat)
    requires FactsOf(StoreLast(RingOfThree()), f)
    ensures !StillAt(f, k) && forall b: Block, v :: !f.Live(b, v)
  {
    RingsInRange();
    hide FactsOf, StoreLast, After, Facts.Live, RingOfThree;
    Alternates(f, k);
    Alternates(f, k + 1);
    assert After(f, k, 2, 9) != After(f, k + 1, 2, 9);
    forall b: Block, v
      ensures !f.Live(b, v)
    {
      NeverLive(RingOfThree(), f, b, v);
    }
  }

  /** Blocks 1 and 2 are a ring, and 1 leads to 3. */
  function RingOfTwo(): Graph { Graph([[1], [2, 3], [1], []], [[], [0, 2], [1], [1]]) }

  lemma {:induction false} Remains(f: Facts, t: nat)
    requires FactsOf(StoreLast(RingOfTwo()), f) && t > 0
    ensures After(f, t, 1, 9) && After(f, t, 2, 9) && !After(f, t, 3, 9) && (After(f, t, 0, 9) <==> t > 1)
  {
    var g := RingOfTwo();
    RingsInRange();
    assert g.succs == [[1], [2, 3], [1], []];
    hide FactsOf, StoreLast, After, Graph.InRange, RingOfTwo;
    StoreOne(g, f, t - 1, 0, 1);
    StoreTwo(g, f, t - 1, 1, 2, 3);
    StoreOne(g, f, t - 1, 2, 1);
    StoreStep(g, f, t - 1, 3);
    if t > 1 {
      Remains(f, t - 1);
    } else {
      StoreStep(g, f, 0, 1);
    }
  }

  lemma TwoStill(f: Facts, b: Block, v: Var)
    requires FactsOf(StoreLast(RingOfTwo()), f)
    ensures After(f, 3, b, v) <==> After(f, 2, b, v)
  {
    var g := RingOfTwo();
    RingsInRange();
    StoreSets(g, f);
    assert g.Size() == 4;
    hide *;
    if v != 9 {
      NoOther(g, f, 2, b, v);
      NoOther(g, f, 3, b, v);
    } else if b >= 4 {
      NothingOutside(f, 2, b, v);
      NothingOutside(f, 3, b, v);
    } else {
      Remains(f, 2);
      Remains(f, 3);
    }
  }

  /** There the third scan changes nothing, but 9 is live nowhere. */
  lemma OwnStoreEndsWrong(f: Facts)
    requires FactsOf(StoreLast(RingOfTwo()), f)
    ensures StillAt(f, 2) && After(f, 2, 1, 9) && forall b: Block, v :: !f.Live(b, v)
  {
    RingsInRange();
    hide FactsOf, StoreLast, After, Facts.Live, RingOfTwo, Graph.InRange;
    Remains(f, 2);
    forall b: Block, v
      ensures After(f, 3, b, v) <==> After(f, 2, b, v)
    {
      TwoStill(f, b, v);
    }
    forall b: Block, v
      ensures !f.Live(b, v)
    {
      NeverLive(RingOfTwo(), f, b, v);
    }
  }
}
