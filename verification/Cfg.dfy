/** Control-flow graphs, paths and dominance. A block is its position in the block
    list of the function, so the entry is block 0. */
module Cfg {
  type Block = nat

  const ENTRY: Block := 0

  /** The successor list and the predecessor list of every block. */
  datatype Graph = Graph(succs: seq<seq<Block>>, preds: seq<seq<Block>>) {
    function Size(): nat { |succs| }

    predicate Has(b: Block) { b < |succs| }

    ghost predicate InRange() {
      && 0 < |succs| == |preds|
      && (forall b, i :: 0 <= b < |succs| && 0 <= i < |succs[b]| ==> succs[b][i] < |succs|)
      && (forall b, i :: 0 <= b < |preds| && 0 <= i < |preds[b]| ==> preds[b][i] < |succs|)
    }

    /** The two lists mirror each other. */
    ghost predicate Mirrored()
      requires InRange()
    {
      forall a, b :: 0 <= a < |succs| && 0 <= b < |succs| ==> (b in succs[a] <==> a in preds[b])
    }

    /** What the middle end expects of a function it is given. */
    ghost predicate WellFormed() {
      && InRange()
      && Mirrored()
      && preds[ENTRY] == []
      && forall b :: 0 <= b < |succs| ==> Reachable(this, b)
    }
  }

  ghost predicate Differ<T>(s: seq<T>, i: int, j: int) {
    0 <= i < j < |s| ==> s[i] != s[j]
  }

  ghost predicate Distinct<T>(s: seq<T>) {
    forall i, j {:trigger Differ(s, i, j)} :: Differ(s, i, j)
  }

  /** A walk along edges, from anywhere. */
  ghost predicate IsWalk(g: Graph, p: seq<Block>)
  {
    && 0 < |p|
    && (forall i :: 0 <= i < |p| ==> p[i] < g.Size())
    && (forall i :: 0 <= i < |p| - 1 ==> p[i + 1] in g.succs[p[i]])
  }

  /** A walk from the entry to b. */
  ghost predicate IsPath(g: Graph, p: seq<Block>, b: Block)
  {
    IsWalk(g, p) && p[0] == ENTRY && p[|p| - 1] == b
  }

  ghost predicate Reachable(g: Graph, b: Block)
  {
    exists p :: IsPath(g, p, b)
  }

  /** d lies on every path from the entry to b. */
  ghost predicate Dom(g: Graph, d: Block, b: Block)
  {
    forall p {:trigger IsPath(g, p, b)} :: IsPath(g, p, b) ==> d in p
  }

  ghost predicate StrictDom(g: Graph, d: Block, b: Block)
  {
    d != b && Dom(g, d, b)
  }

  /** d is the immediate dominator of b: the strict dominator closest to b. */
  ghost predicate IsIdom(g: Graph, d: Block, b: Block)
  {
    && d < g.Size()
    && StrictDom(g, d, b)
    && forall e {:trigger StrictDom(g, e, b)} :: StrictDom(g, e, b) ==> Dom(g, e, d)
  }

  lemma PathPrefix(g: Graph, p: seq<Block>, b: Block, i: nat)
    requires IsPath(g, p, b) && i < |p|
    ensures IsPath(g, p[..i + 1], p[i])
  {
    var q := p[..i + 1];
    forall j | 0 <= j < |q| - 1
      ensures q[j + 1] in g.succs[q[j]]
    {
      assert q[j] == p[j];
    }
  }

  lemma PathExtend(g: Graph, p: seq<Block>, a: Block, b: Block)
    requires IsPath(g, p, a) && b < g.Size() && b in g.succs[a]
    ensures IsPath(g, p + [b], b)
  {
  }

  /** The last edge of a path that has one. */
  lemma PathLastEdge(g: Graph, p: seq<Block>, b: Block)
    requires g.WellFormed() && IsPath(g, p, b) && b != ENTRY
    ensures |p| > 1 && p[|p| - 2] in g.preds[b] && IsPath(g, p[..|p| - 1], p[|p| - 2])
  {
    PathPrefix(g, p, b, |p| - 2);
    assert p[..|p| - 2 + 1] == p[..|p| - 1];
  }

  lemma DomRefl(g: Graph, b: Block)
    ensures Dom(g, b, b)
  {
  }

  lemma EntryDominates(g: Graph, b: Block)
    ensures Dom(g, ENTRY, b)
  {
  }

  lemma DomTrans(g: Graph, a: Block, b: Block, c: Block)
    requires Dom(g, a, b) && Dom(g, b, c)
    ensures Dom(g, a, c)
  {
    forall p | IsPath(g, p, c)
      ensures a in p
    {
      assert b in p;
      var i :| 0 <= i < |p| && p[i] == b;
      PathPrefix(g, p, c, i);
      assert a in p[..i + 1];
    }
  }

  /** Two blocks that dominate each other are the same. */
  lemma DomAntisym(g: Graph, a: Block, b: Block)
    requires g.WellFormed() && a < g.Size() && b < g.Size() && Dom(g, a, b) && Dom(g, b, a)
    ensures a == b
  {
    assert Reachable(g, a);
    var p :| IsPath(g, p, a);
    DomAntisymOn(g, a, b, p);
  }

  lemma {:induction false} DomAntisymOn(g: Graph, a: Block, b: Block, p: seq<Block>)
    requires g.WellFormed() && a < g.Size() && b < g.Size() && Dom(g, a, b) && Dom(g, b, a)
    requires IsPath(g, p, a)
    ensures a == b
    decreases |p|
  {
    var i :| 0 <= i < |p| && p[i] == b;
    if i < |p| - 1 {
      PathPrefix(g, p, a, i);
      DomAntisymOn(g, b, a, p[..i + 1]);
    }
  }

  /** A strict dominator dominates every predecessor. */
  lemma DomPred(g: Graph, d: Block, b: Block, p: Block)
    requires g.WellFormed() && b < g.Size() && p in g.preds[b] && StrictDom(g, d, b)
    ensures Dom(g, d, p)
  {
    forall q | IsPath(g, q, p)
      ensures d in q
    {
      PathExtend(g, q, p, b);
    }
  }

  /** A block that dominates every predecessor dominates the block. */
  lemma DomFromPreds(g: Graph, d: Block, b: Block)
    requires g.WellFormed() && b < g.Size() && b != ENTRY
    requires forall p :: p in g.preds[b] ==> Dom(g, d, p)
    ensures Dom(g, d, b)
  {
    forall q | IsPath(g, q, b)
      ensures d in q
    {
      PathLastEdge(g, q, b);
    }
  }

  /** The suffix of p after position i, behind any other path to p[i]. */
  lemma Splice(g: Graph, p: seq<Block>, c: Block, i: nat, q: seq<Block>)
    requires IsPath(g, p, c) && i < |p| && IsPath(g, q, p[i])
    ensures IsPath(g, q + p[i + 1..], c)
  {
    var r := q + p[i + 1..];
    forall j | 0 <= j < |r| - 1
      ensures r[j + 1] in g.succs[r[j]]
    {
      if j >= |q| - 1 {
        var k := j - (|q| - 1) + i;
        assert r[j] == p[k] && r[j + 1] == p[k + 1];
      }
    }
  }

  /** Two dominators of one block are ordered. */
  lemma DomChain(g: Graph, a: Block, b: Block, c: Block)
    requires g.WellFormed() && a < g.Size() && b < g.Size() && c < g.Size()
    requires Dom(g, a, c) && Dom(g, b, c)
    ensures Dom(g, a, b) || Dom(g, b, a)
  {
    assert Reachable(g, c);
    var p :| IsPath(g, p, c);
    var i := LastIndex(p, a);
    var j := LastIndex(p, b);
    if i <= j {
      DomByLastIndex(g, a, b, c, p, j);
    } else {
      DomByLastIndex(g, b, a, c, p, i);
    }
  }

  lemma DomByLastIndex(g: Graph, a: Block, b: Block, c: Block, p: seq<Block>, j: nat)
    requires IsPath(g, p, c) && Dom(g, a, c)
    requires j < |p| && p[j] == b && a !in p[j + 1..]
    ensures Dom(g, a, b)
  {
    forall q | IsPath(g, q, b)
      ensures a in q
    {
      Splice(g, p, c, j, q);
      assert a in q + p[j + 1..];
    }
  }

  lemma LastIndex(p: seq<Block>, b: Block) returns (i: nat)
    requires b in p
    ensures i < |p| && p[i] == b && b !in p[i + 1..]
  {
    i := |p| - 1;
    while p[i] != b
      invariant 0 <= i < |p| && b in p[..i + 1] && b !in p[i + 1..]
      decreases i
    {
      i := i - 1;
    }
  }

  // ---------------------------------------------------------------- short paths

  lemma {:induction false} Pigeonhole(p: seq<Block>, n: nat)
    requires |p| > n && forall i :: 0 <= i < |p| ==> p[i] < n
    ensures exists i, j :: 0 <= i < j < |p| && p[i] == p[j]
  {
    if forall i, j :: 0 <= i < j < |p| ==> p[i] != p[j] {
      var s := set b: Block | b in p;
      DistinctCard(p, s);
      BoundedCard(s, n);
    }
  }

  lemma {:induction false} DistinctCard(p: seq<Block>, s: set<Block>)
    requires forall i, j :: 0 <= i < j < |p| ==> p[i] != p[j]
    requires s == set b: Block | b in p
    ensures |s| == |p|
  {
    if |p| > 0 {
      var q := p[..|p| - 1];
      var t := set b: Block | b in q;
      DistinctCard(q, t);
      assert p == q + [p[|p| - 1]];
      assert s == t + {p[|p| - 1]};
    }
  }

  lemma {:induction false} BoundedCard(s: set<Block>, n: nat)
    requires forall b :: b in s ==> b < n
    ensures |s| <= n
  {
    if n == 0 {
      assert s == {};
    } else {
      BoundedCard(s - {n - 1}, n - 1);
      if n - 1 in s {
        assert s == (s - {n - 1}) + {n - 1};
      } else {
        assert s == s - {n - 1};
      }
    }
  }

  /** Every path contains the blocks of one with at most Size() blocks. */
  lemma {:induction false} ShortPath(g: Graph, p: seq<Block>, b: Block) returns (q: seq<Block>)
    requires IsPath(g, p, b)
    ensures IsPath(g, q, b) && |q| <= g.Size() && forall x :: x in q ==> x in p
    decreases |p|
  {
    q := p;
    if |p| > g.Size() {
      Pigeonhole(p, g.Size());
      var i, j :| 0 <= i < j < |p| && p[i] == p[j];
      PathPrefix(g, p, b, i);
      Splice(g, p, b, j, p[..i + 1]);
      q := ShortPath(g, p[..i + 1] + p[j + 1..], b);
    }
  }

  // ------------------------------------------------------------ dominance frontiers

  /** y is where the dominance of b ends: b dominates a predecessor of y but not
      strictly y. */
  ghost predicate InFrontier(g: Graph, b: Block, y: Block) {
    && b < g.Size() && y < |g.preds|
    && (exists p :: p in g.preds[y] && Dom(g, b, p))
    && !StrictDom(g, b, y)
  }

  /** Strictly dominating y is dominating its immediate dominator. */
  lemma StrictDomIsDomIdom(g: Graph, b: Block, y: Block, d: Block)
    requires g.WellFormed() && b < g.Size() && y < g.Size() && IsIdom(g, d, y)
    ensures StrictDom(g, b, y) <==> Dom(g, b, d)
  {
    if Dom(g, b, d) {
      DomTrans(g, b, d, y);
      if b == y {
        DomAntisym(g, d, y);
      }
    }
  }
}
