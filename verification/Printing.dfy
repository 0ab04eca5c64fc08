/** What runs have printed: only more with every step, and with every block. */
module Printing {
  import opened Arithmetic
  import opened Cfg
  import opened Ir

  ghost predicate Prefix(a: seq<int>, b: seq<int>) { |a| <= |b| && b[..|a|] == a }

  function OutOf(r: Result): seq<int> { if r.Next? then r.s.out else r.out }

  lemma PrefixTrans(a: seq<int>, b: seq<int>, c: seq<int>)
    requires Prefix(a, b) && Prefix(b, c)
    ensures Prefix(a, c)
  {
    assert c[..|b|][..|a|] == c[..|a|];
  }

  lemma PrefixSelf(a: seq<int>)
    ensures Prefix(a, a)
  {
    assert a[..|a|] == a;
  }

  lemma ExecPrints(m: Machine, i: Instr, s: State)
    ensures Prefix(s.out, OutOf(Exec(m, i, s)))
  {
    PrefixSelf(s.out);
  }

  lemma {:induction false} BodyPrints(m: Machine, body: seq<Instr>, s: State)
    ensures Prefix(s.out, OutOf(ExecBody(m, body, s)))
  {
    PrefixSelf(s.out);
    if body != [] {
      ExecPrints(m, body[0], s);
      var r := Exec(m, body[0], s);
      if r.Next? {
        BodyPrints(m, body[1..], r.s);
        PrefixTrans(s.out, r.s.out, OutOf(ExecBody(m, body[1..], r.s)));
      }
    }
  }

  /** With more fuel a run prints what it did, and perhaps more. */
  lemma {:induction false} MorePrints(m: Machine, f: Func, b: Block, s: State, k: nat, j: nat)
    requires k <= j
    ensures Prefix(s.out, RunFrom(m, f, b, s, k).out) && Prefix(RunFrom(m, f, b, s, k).out, RunFrom(m, f, b, s, j).out)
    decreases j
  {
    hide Exec, EnterPhis;
    PrefixSelf(s.out);
    PrefixSelf(RunFrom(m, f, b, s, k).out);
    if j > 0 && b < |f| {
      BodyPrints(m, f[b].body, s);
      var r := ExecBody(m, f[b].body, s);
      if r.Next? {
        match ExecTerm(m, f[b].term, r.s)
        case Done(o) =>
        case Goto(c) =>
          var t := r.s.(env := if c < |f| then EnterPhis(m, r.s.env, f[c].phis, b, r.s.env) else r.s.env);
          if c < |f| {
            var i: nat := if k > 0 then k - 1 else 0;
            MorePrints(m, f, c, t, i, j - 1);
            PrefixTrans(s.out, r.s.out, RunFrom(m, f, c, t, j - 1).out);
            PrefixTrans(s.out, r.s.out, RunFrom(m, f, c, t, i).out);
          }
      }
    }
  }

  /** Some run has printed at least this. */
  ghost predicate Prints(m: Machine, f: Func, mem: Memory, out: seq<int>) { exists k: nat :: Prefix(out, Execute(m, f, mem, k).out) }
}
