/** Use, definition and phi sets, told from the instructions. */
module UseSets {
  import opened Cfg
  import opened Liveness

  ghost predicate Inside(fn: Fn, b: int, i: int) { 0 <= b < |fn.blocks| && 0 <= i < |fn.blocks[b]| }

  /** v is an argument, or some instruction's result. */
  ghost predicate Own(fn: Fn, v: Var) {
    v in fn.args || exists b, i {:trigger Inside(fn, b, i)} :: Inside(fn, b, i) && fn.blocks[b][i].result == Some(v)
  }

  ghost predicate MadeByGep(fn: Fn, v: Var) {
    exists b, i {:trigger Inside(fn, b, i)} :: Inside(fn, b, i) && fn.blocks[b][i].kind == Gep && fn.blocks[b][i].result == Some(v)
  }

  /** Operand k of an instruction that is no alloca: one of the function's own values,
      whatever a load reads, the base of a gep. */
  ghost predicate Takes(fn: Fn, inst: Inst, v: Var) {
    inst.kind != Alloca && exists k :: 0 <= k < |inst.ops| && inst.ops[k] == Of(v) && (Own(fn, v) || inst.kind == Load || (inst.kind == Gep && k == 0))
  }

  /** A store to v itself, and not to an element of it. */
  ghost predicate StoresTo(fn: Fn, inst: Inst, v: Var) {
    inst.kind == Store && |inst.ops| > 1 && inst.ops[1] == Of(v) && !MadeByGep(fn, v)
  }

  ghost predicate MadeBefore(code: seq<Inst>, i: int, v: Var) { exists j :: 0 <= j < i && j < |code| && code[j].result == Some(v) }

  /** Some instruction of the block needs v from in front of it. */
  ghost predicate UsedIn(fn: Fn, b: Block, v: Var) {
    exists i {:trigger Inside(fn, b, i)} :: Inside(fn, b, i) &&
      ((Takes(fn, fn.blocks[b][i], v) && !MadeBefore(fn.blocks[b], i, v)) || StoresTo(fn, fn.blocks[b][i], v))
  }

  /** Some instruction of the block makes v, and none up to it needs it. */
  ghost predicate DefinedIn(fn: Fn, b: Block, v: Var) {
    exists i {:trigger Inside(fn, b, i)} :: Inside(fn, b, i) && fn.blocks[b][i].result == Some(v) &&
      (fn.blocks[b][i].kind == Alloca || forall j {:trigger Inside(fn, b, j)} :: 0 <= j <= i && Inside(fn, b, j) ==>
         !Takes(fn, fn.blocks[b][j], v) && !StoresTo(fn, fn.blocks[b][j], v))
  }

  /** Some phi of the block takes v from predecessor p. */
  ghost predicate PhiTakes(fn: Fn, b: Block, p: Block, v: Var) {
    Own(fn, v) && exists i, n {:trigger PhiPair(fn, b, i, n, p, v)} :: PhiPair(fn, b, i, n, p, v)
  }

  ghost predicate PhiPair(fn: Fn, b: Block, i: int, n: int, p: Block, v: Var) {
    && Inside(fn, b, i) && fn.blocks[b][i].kind == Phi && 0 <= n && 2 * n + 1 < |fn.blocks[b][i].ops|
    && fn.blocks[b][i].ops[2 * n] == Of(v) && fn.blocks[b][i].ops[2 * n + 1] == Label(p)
  }

  /** The sets say what the instructions do. */
  ghost predicate FromCode(fn: Fn, f: Facts) {
    && (forall b: Block, v {:trigger v in At(f.uses, b)} {:trigger UsedIn(fn, b, v)} :: v in At(f.uses, b) <==> UsedIn(fn, b, v))
    && (forall b: Block, v {:trigger v in At(f.defs, b)} {:trigger DefinedIn(fn, b, v)} :: v in At(f.defs, b) <==> DefinedIn(fn, b, v))
    && (forall p: Block, b: Block, v {:trigger f.Passes(p, b, v)} :: f.Passes(p, b, v) <==> ((exists q :: PhiTakes(fn, b, q, v)) ==> PhiTakes(fn, b, p, v)))
  }

  // ---------------------------------------------------------------- one instruction

  lemma OwnIs(fn: Fn, v: Var)
    ensures v in Defined(fn.args, fn.blocks) <==> Own(fn, v)
  {
    if v in Defined(fn.args, fn.blocks) && v !in fn.args {
      var b, i :| 0 <= b < |fn.blocks| && 0 <= i < |fn.blocks[b]| && fn.blocks[b][i].result.Some? && fn.blocks[b][i].result.v == v;
      assert Inside(fn, b, i);
    }
  }

  lemma GepIs(fn: Fn, v: Var)
    ensures v in GepResults(fn.blocks) <==> MadeByGep(fn, v)
  {
    if v in GepResults(fn.blocks) {
      var b, i :| 0 <= b < |fn.blocks| && 0 <= i < |fn.blocks[b]| && fn.blocks[b][i].kind.Gep? && fn.blocks[b][i].result.Some? && fn.blocks[b][i].result.v == v;
      assert Inside(fn, b, i);
    }
  }

  lemma TakesIs(fn: Fn, inst: Inst, v: Var)
    ensures v in Used(Defined(fn.args, fn.blocks), inst) <==> Takes(fn, inst, v)
  {
    hide Defined, Own;
    OwnIs(fn, v);
    var need := Defined(fn.args, fn.blocks);
    if inst.kind != Alloca {
      assert inst.ops[..|inst.ops|] == inst.ops;
      if v in Counted(need, inst, |inst.ops|) {
        var op :| op in inst.ops && Counts(need, inst, op) && op.v == v;
        var k :| 0 <= k < |inst.ops| && inst.ops[k] == op;
        assert inst.ops[k] == Of(v);
      }
      if Takes(fn, inst, v) {
        var k :| 0 <= k < |inst.ops| && inst.ops[k] == Of(v) && (Own(fn, v) || inst.kind == Load || (inst.kind == Gep && k == 0));
        assert inst.ops[k] in inst.ops;
      }
    }
  }

  lemma StoresIs(fn: Fn, inst: Inst, v: Var)
    ensures v in Stored(GepResults(fn.blocks), inst) <==> StoresTo(fn, inst, v)
  {
    hide GepResults, MadeByGep;
    GepIs(fn, v);
  }

  // ---------------------------------------------------------------- blocks

  lemma {:induction false} ResultsAre(code: seq<Inst>, v: Var)
    ensures v in Results(code) <==> MadeBefore(code, |code|, v)
  {
    if code != [] {
      var n := |code| - 1;
      ResultsAre(code[..n], v);
      if MadeBefore(code[..n], n, v) {
        var j :| 0 <= j < n && code[..n][j].result == Some(v);
        assert code[j].result == Some(v);
      }
      if MadeBefore(code, |code|, v) && v !in Result(code[n]) {
        var j :| 0 <= j < |code| && code[j].result == Some(v);
        assert code[..n][j].result == Some(v);
      }
    }
  }

  lemma PrefixResults(code: seq<Inst>, i: nat, v: Var)
    requires i <= |code|
    ensures v in Results(code[..i]) <==> MadeBefore(code, i, v)
  {
    ResultsAre(code[..i], v);
    if MadeBefore(code, i, v) {
      var j :| 0 <= j < i && code[j].result == Some(v);
      assert code[..i][j].result == Some(v);
    }
    if MadeBefore(code[..i], i, v) {
      var j :| 0 <= j < i && code[..i][j].result == Some(v);
      assert code[j].result == Some(v);
    }
  }

  ghost predicate UsesAt(need: set<Var>, geps: set<Var>, code: seq<Inst>, i: int, v: Var) {
    0 <= i < |code| && ((v in Used(need, code[i]) && v !in Results(code[..i])) || v in Stored(geps, code[i]))
  }

  lemma {:induction false} UseHolds(need: set<Var>, geps: set<Var>, code: seq<Inst>, i: nat, v: Var)
    requires UsesAt(need, geps, code, i, v)
    ensures v in UseOf(need, geps, code)
  {
    hide Used, Stored, Results;
    var n := |code| - 1;
    if i < n {
      assert code[..n][i] == code[i] && code[..n][..i] == code[..i];
      UseHolds(need, geps, code[..n], i, v);
    }
  }

  lemma {:induction false} AllUsedIs(need: set<Var>, geps: set<Var>, code: seq<Inst>, v: Var)
    ensures v in AllUsed(need, geps, code) <==> exists j {:trigger code[j]} :: 0 <= j < |code| && (v in Used(need, code[j]) || v in Stored(geps, code[j]))
  {
    hide Used, Stored;
    if code != [] {
      var n := |code| - 1;
      AllUsedIs(need, geps, code[..n], v);
      if v in AllUsed(need, geps, code[..n]) {
        var j :| 0 <= j < n && (v in Used(need, code[..n][j]) || v in Stored(geps, code[..n][j]));
        assert code[..n][j] == code[j];
      }
      if j :| 0 <= j < |code| && (v in Used(need, code[j]) || v in Stored(geps, code[j])) {
        if j < n {
          assert code[..n][j] == code[j];
        }
      }
    }
  }

  lemma {:induction false} DefHolds(need: set<Var>, geps: set<Var>, code: seq<Inst>, i: nat, v: Var)
    requires i < |code| && code[i].result == Some(v) && (code[i].kind == Alloca || v !in AllUsed(need, geps, code[..i + 1]))
    ensures v in DefOf(need, geps, code)
  {
    hide AllUsed;
    var n := |code| - 1;
    if i < n {
      assert code[..n][i] == code[i] && code[..n][..i + 1] == code[..i + 1];
      DefHolds(need, geps, code[..n], i, v);
    } else {
      assert code[..i + 1] == code;
    }
  }

  lemma UseExact(fn: Fn, b: Block, v: Var)
    requires b < |fn.blocks|
    ensures v in UseOf(Defined(fn.args, fn.blocks), GepResults(fn.blocks), fn.blocks[b]) <==> UsedIn(fn, b, v)
  {
    hide Used, Stored, Results, UseOf, Defined, GepResults, Takes, StoresTo, MadeBefore;
    var need, geps, code := Defined(fn.args, fn.blocks), GepResults(fn.blocks), fn.blocks[b];
    if v in UseOf(need, geps, code) {
      UseIs(need, geps, code, v);
      var i :| 0 <= i < |code| && ((v in Used(need, code[i]) && v !in Results(code[..i])) || v in Stored(geps, code[i]));
      TakesIs(fn, code[i], v);
      StoresIs(fn, code[i], v);
      PrefixResults(code, i, v);
      assert Inside(fn, b, i);
    }
    if UsedIn(fn, b, v) {
      var i :| Inside(fn, b, i) && ((Takes(fn, code[i], v) && !MadeBefore(code, i, v)) || StoresTo(fn, code[i], v));
      TakesIs(fn, code[i], v);
      StoresIs(fn, code[i], v);
      PrefixResults(code, i, v);
      UseHolds(need, geps, code, i, v);
    }
  }

  lemma NoneUpTo(fn: Fn, b: Block, i: nat, v: Var)
    requires b < |fn.blocks| && i < |fn.blocks[b]|
    ensures v !in AllUsed(Defined(fn.args, fn.blocks), GepResults(fn.blocks), fn.blocks[b][..i + 1]) <==>
      forall j {:trigger Inside(fn, b, j)} :: 0 <= j <= i && Inside(fn, b, j) ==> !Takes(fn, fn.blocks[b][j], v) && !StoresTo(fn, fn.blocks[b][j], v)
  {
    hide Used, Stored, Defined, GepResults, Takes, StoresTo, AllUsed;
    var need, geps, code := Defined(fn.args, fn.blocks), GepResults(fn.blocks), fn.blocks[b];
    var part := code[..i + 1];
    AllUsedIs(need, geps, part, v);
    forall j | 0 <= j <= i
      ensures part[j] == code[j] && Inside(fn, b, j)
      ensures v in Used(need, part[j]) || v in Stored(geps, part[j]) <==> Takes(fn, code[j], v) || StoresTo(fn, code[j], v)
    {
      TakesIs(fn, code[j], v);
      StoresIs(fn, code[j], v);
    }
  }

  lemma DefExact(fn: Fn, b: Block, v: Var)
    requires b < |fn.blocks|
    ensures v in DefOf(Defined(fn.args, fn.blocks), GepResults(fn.blocks), fn.blocks[b]) <==> DefinedIn(fn, b, v)
  {
    hide AllUsed, DefOf, Defined, GepResults, Takes, StoresTo;
    var need, geps, code := Defined(fn.args, fn.blocks), GepResults(fn.blocks), fn.blocks[b];
    if v in DefOf(need, geps, code) {
      DefIs(need, geps, code, v);
      var i :| 0 <= i < |code| && v in Result(code[i]) && (code[i].kind.Alloca? || v !in AllUsed(need, geps, code[..i + 1]));
      NoneUpTo(fn, b, i, v);
      assert Inside(fn, b, i);
    }
    if DefinedIn(fn, b, v) {
      var i :| Inside(fn, b, i) && code[i].result == Some(v) &&
        (code[i].kind == Alloca || forall j {:trigger Inside(fn, b, j)} :: 0 <= j <= i && Inside(fn, b, j) ==> !Takes(fn, code[j], v) && !StoresTo(fn, code[j], v));
      NoneUpTo(fn, b, i, v);
      DefHolds(need, geps, code, i, v);
    }
  }

  // ---------------------------------------------------------------- phis

  lemma {:induction false} PairsAre(need: set<Var>, inst: Inst, n: nat, p: Block, v: Var)
    requires 2 * n <= |inst.ops|
    ensures (p, v) in Pairs(need, inst, n) <==> v in need && exists k {:trigger inst.ops[2 * k]} :: 0 <= k < n && inst.ops[2 * k] == Of(v) && inst.ops[2 * k + 1] == Label(p)
  {
    if n > 0 {
      PairsAre(need, inst, n - 1, p, v);
      assert 2 * (n - 1) == 2 * n - 2;
      if v in need && inst.ops[2 * n - 2] == Of(v) && inst.ops[2 * n - 1] == Label(p) {
        var k := n - 1;
        assert inst.ops[2 * k] == Of(v) && inst.ops[2 * k + 1] == Label(p);
      }
    }
  }

  lemma {:induction false} PhiPairsAre(need: set<Var>, code: seq<Inst>, x: (Block, Var))
    ensures x in PhiPairs(need, code) <==> exists i {:trigger code[i]} :: 0 <= i < |code| && code[i].kind.Phi? && x in Pairs(need, code[i], |code[i].ops| / 2)
  {
    hide Pairs;
    if code != [] {
      var n := |code| - 1;
      PhiPairsAre(need, code[..n], x);
      if x in PhiPairs(need, code[..n]) {
        var i :| 0 <= i < n && code[..n][i].kind.Phi? && x in Pairs(need, code[..n][i], |code[..n][i].ops| / 2);
        assert code[..n][i] == code[i];
      }
      if i :| 0 <= i < |code| && code[i].kind.Phi? && x in Pairs(need, code[i], |code[i].ops| / 2) {
        if i < n {
          assert code[..n][i] == code[i];
        }
      }
    }
  }

  lemma PhiExact(fn: Fn, b: Block, p: Block, v: Var)
    requires b < |fn.blocks|
    ensures (p, v) in PhiPairs(Defined(fn.args, fn.blocks), fn.blocks[b]) <==> PhiTakes(fn, b, p, v)
  {
    hide PhiPairs, Pairs, Defined, Own;
    var need, code := Defined(fn.args, fn.blocks), fn.blocks[b];
    OwnIs(fn, v);
    PhiPairsAre(need, code, (p, v));
    if (p, v) in PhiPairs(need, code) {
      var i :| 0 <= i < |code| && code[i].kind.Phi? && (p, v) in Pairs(need, code[i], |code[i].ops| / 2);
      PairsAre(need, code[i], |code[i].ops| / 2, p, v);
      var n :| 0 <= n < |code[i].ops| / 2 && code[i].ops[2 * n] == Of(v) && code[i].ops[2 * n + 1] == Label(p);
      assert PhiPair(fn, b, i, n, p, v);
    }
    if PhiTakes(fn, b, p, v) {
      var i, n :| PhiPair(fn, b, i, n, p, v);
      PairsAre(need, code[i], |code[i].ops| / 2, p, v);
      assert code[i].ops[2 * n] == Of(v);
      assert code[i].kind.Phi?;
    }
  }

  // ---------------------------------------------------------------- all sets

  lemma PassesExact(fn: Fn, f: Facts, p: Block, b: Block, v: Var)
    requires FactsOf(fn, f)
    ensures f.Passes(p, b, v) <==> ((exists q :: PhiTakes(fn, b, q, v)) ==> PhiTakes(fn, b, p, v))
  {
    hide UseOf, DefOf, PhiPairs, Defined, GepResults, PhiTakes;
    var pairs := PairsAt(f.phiPair, b);
    assert v in At(f.phiOp, b) <==> b < |fn.blocks| && v in Seconds(pairs);
    forall q: Block
      ensures (q, v) in pairs <==> PhiTakes(fn, b, q, v)
    {
      if b < |fn.blocks| {
        PhiExact(fn, b, q, v);
      } else {
        NoPhis(fn, b, q, v);
      }
    }
    if v in Seconds(pairs) {
      var x :| x in pairs && x.1 == v;
      assert (x.0, v) in pairs;
    }
    if q: Block :| PhiTakes(fn, b, q, v) {
      assert (q, v) in pairs && (q, v).1 == v;
    }
    assert PairsAt(f.phiPair, b) == if b in f.phiPair then f.phiPair[b] else {};
  }

  lemma NoPhis(fn: Fn, b: Block, p: Block, v: Var)
    requires b >= |fn.blocks|
    ensures !PhiTakes(fn, b, p, v)
  {
  }

  /** The sets of a function are what its instructions make them. */
  lemma SetsFromCode(fn: Fn, f: Facts)
    requires FactsOf(fn, f)
    ensures FromCode(fn, f)
  {
    hide UseOf, DefOf, PhiPairs, Defined, GepResults, Takes, StoresTo, MadeBefore, PhiTakes, Facts.Passes;
    forall b: Block, v
      ensures v in At(f.uses, b) <==> UsedIn(fn, b, v)
      ensures v in At(f.defs, b) <==> DefinedIn(fn, b, v)
    {
      if b < |fn.blocks| {
        UseExact(fn, b, v);
        DefExact(fn, b, v);
      }
    }
    forall p: Block, b: Block, v
      ensures f.Passes(p, b, v) <==> ((exists q :: PhiTakes(fn, b, q, v)) ==> PhiTakes(fn, b, p, v))
    {
      PassesExact(fn, f, p, b, v);
    }
  }

  // ---------------------------------------------------------------- what is live

  /** v counts on the edge from p to b: phis of b that take it take it from p too. */
  ghost predicate Carries(fn: Fn, p: Block, b: Block, v: Var) { (exists q :: PhiTakes(fn, b, q, v)) ==> PhiTakes(fn, b, p, v) }

  /** p leads from b along edges of the function to a block that needs v, and no block
      on it defines v. */
  ghost predicate NeedWay(fn: Fn, p: seq<Block>, b: Block, v: Var) {
    && 0 < |p| && p[0] == b && UsedIn(fn, p[|p| - 1], v)
    && (forall i {:trigger p[i]} :: 0 <= i < |p| ==> p[i] < |fn.g.succs| && !DefinedIn(fn, p[i], v))
    && (forall i {:trigger p[i]} :: 0 <= i < |p| - 1 ==> p[i + 1] in fn.g.succs[p[i]] && Carries(fn, p[i], p[i + 1], v))
  }

  ghost predicate NeededFrom(fn: Fn, b: Block, v: Var) { exists p :: NeedWay(fn, p, b, v) }

  /** What is live is what some instruction further on needs. */
  lemma LiveFromCode(fn: Fn, f: Facts, b: Block, v: Var)
    requires FactsOf(fn, f)
    ensures f.Live(b, v) <==> NeededFrom(fn, b, v)
  {
    SetsFromCode(fn, f);
    assert f.g == fn.g;
    hide FactsOf, UsedIn, DefinedIn, PhiTakes, Facts.Passes, At;
    forall p
      ensures f.LiveWay(p, b, v) <==> NeedWay(fn, p, b, v)
    {
    }
  }
}
