/** The use lists under all rewriting: every value knows the operands that name it.
    A list is exact if it holds those operands, each once, and nothing else. Operands
    and lists are fields of the same objects, so what one call does to the lists of
    other values is part of its contract. */
module UseLists {
  /** Operand argNo of a user. */
  datatype Use = Use(user: Value, argNo: nat)

  function Without(uses: seq<Use>, user: Value): (r: seq<Use>)
    ensures forall x :: x in r ==> x in uses && x.user != user
    ensures forall x :: x in uses && x.user != user ==> x in r
    ensures Once(uses) ==> Once(r)
  {
    if uses == [] then []
    else
      var few, last := Without(uses[..|uses| - 1], user), uses[|uses| - 1];
      OnceLess(uses);
      assert uses == uses[..|uses| - 1] + [last];
      if last.user == user then few
      else
        assert Once(uses) ==> last !in uses[..|uses| - 1];
        OnceMore(few, last);
        few + [last]
  }

  ghost predicate Differs(uses: seq<Use>, i: nat, j: nat) { i < j < |uses| ==> uses[i] != uses[j] }

  /** No use is listed twice. */
  ghost predicate Once(uses: seq<Use>) { forall i: nat, j: nat {:trigger Differs(uses, i, j)} :: Differs(uses, i, j) }

  lemma OnceMore(uses: seq<Use>, x: Use)
    ensures Once(uses) && x !in uses ==> Once(uses + [x])
  {
    if Once(uses) && x !in uses {
      forall i: nat, j: nat
        ensures Differs(uses + [x], i, j)
      {
        assert Differs(uses, i, j);
      }
    }
  }

  lemma OnceNoMore(uses: seq<Use>, x: Use)
    requires x in uses
    ensures !Once(uses + [x])
  {
    var i: nat :| i < |uses| && uses[i] == x;
    var n: nat := |uses|;
    assert (uses + [x])[i] == (uses + [x])[n];
    assert !Differs(uses + [x], i, n);
  }

  lemma OnceLess(uses: seq<Use>)
    requires uses != []
    ensures Once(uses) ==> Once(uses[..|uses| - 1]) && uses[|uses| - 1] !in uses[..|uses| - 1]
  {
    if Once(uses) {
      var n: nat := |uses| - 1;
      forall i: nat, j: nat
        ensures Differs(uses[..n], i, j)
      {
        assert Differs(uses, i, j);
      }
      forall i: nat | i < n
        ensures uses[..n][i] != uses[n]
      {
        assert Differs(uses, i, n);
      }
    }
  }

  /** A value, and the user it may be: operands not set yet are null. */
  class Value {
    var operands: seq<Value?>
    var useList: seq<Use>

    constructor (numOps: nat)
      ensures useList == [] && |operands| == numOps && forall i :: 0 <= i < numOps ==> operands[i] == null
    {
      operands, useList := seq(numOps, _ => null), [];
    }

    /** The operand of a user names this value. */
    ghost predicate NamedBy(users: set<Value>, u: Use)
      reads users
    {
      u.user in users && u.argNo < |u.user.operands| && u.user.operands[u.argNo] == this
    }

    /** The list holds exactly the operands that name this value, each once. */
    ghost predicate Exact(users: set<Value>)
      reads this, users
    {
      && Once(useList)
      && (forall u {:trigger u in useList} :: u in useList ==> NamedBy(users, u))
      && forall v: Value, n: nat {:trigger Use(v, n)} :: v in users && NamedBy(users, Use(v, n)) ==> Use(v, n) in useList
    }

    method AddUse(user: Value, argNo: nat)
      modifies this`useList
      ensures useList == old(useList) + [Use(user, argNo)]
    {
      useList := useList + [Use(user, argNo)];
    }

    method RemoveUse(user: Value)
      modifies this`useList
      ensures useList == Without(old(useList), user)
    {
      useList := Without(useList, user);
    }

    /** Sets an operand. The value it named before keeps its entry, so the lists stay
        exact iff it named none. */
    method SetOperand(i: nat, v: Value, ghost users: set<Value>, ghost exact: set<Value>)
      requires i < |operands|
      modifies this`operands, v`useList
      ensures operands == old(operands)[i := v] && v.useList == old(v.useList) + [Use(this, i)]
      ensures this in users && v in exact && (old(operands[i]) != null ==> old(operands[i]) in exact) && (forall x :: x in exact ==> old(x.Exact(users))) ==>
                ((forall x :: x in exact ==> x.Exact(users)) <==> old(operands[i]) == null)
    {
      ghost var was, list := operands[i], v.useList;
      operands := operands[i := v];
      v.AddUse(this, i);
      ghost var u := Use(this, i);
      if this in users && v in exact && (was != null ==> was in exact) && (forall x :: x in exact ==> old(x.Exact(users))) {
        if was == null {
          forall x | x in exact
            ensures x.Exact(users)
          {
            forall u: Use | u.user in users
              ensures x.NamedBy(users, u) <==> old(x.NamedBy(users, u)) || (x == v && u == Use(this, i))
            {
            }
            assert !old(x.NamedBy(users, Use(this, i)));
            if x == v {
              OnceMore(list, u);
            }
          }
        } else {
          ghost var w: Value := was;
          assert old(w.NamedBy(users, u));
          assert old(u in w.useList);
          if w == v {
            OnceNoMore(list, u);
          } else {
            assert u in w.useList && !w.NamedBy(users, u);
          }
          assert !w.Exact(users);
        }
      }
    }

    /** A new last operand. */
    method AddOperand(v: Value, ghost users: set<Value>, ghost exact: set<Value>)
      requires this in users && forall x :: x in exact ==> x.Exact(users)
      modifies this`operands, v`useList
      ensures operands == old(operands) + [v] && v.useList == old(v.useList) + [Use(this, |old(operands)|)]
      ensures forall x :: x in exact ==> x.Exact(users)
    {
      ghost var n := |operands|;
      operands := operands + [v];
      v.AddUse(this, |operands| - 1);
      forall x | x in exact
        ensures x.Exact(users)
      {
        forall u: Use | u.user in users
          ensures x.NamedBy(users, u) <==> old(x.NamedBy(users, u)) || (x == v && u == Use(this, n))
        {
        }
        assert !old(x.NamedBy(users, Use(this, n)));
        if x == v {
          OnceMore(old(x.useList), Use(this, n));
        }
      }
    }

    /** The first set of an operand keeps all lists exact. */
    method InitOperand(i: nat, v: Value, ghost users: set<Value>, ghost exact: set<Value>)
      requires this in users && i < |operands| && operands[i] == null && forall x :: x in exact ==> x.Exact(users)
      modifies this`operands, v`useList
      ensures operands == old(operands)[i := v] && v.useList == old(v.useList) + [Use(this, i)]
      ensures forall x :: x in exact ==> x.Exact(users)
    {
      SetOperand(i, v, users, {});
      forall x | x in exact
        ensures x.Exact(users)
      {
        forall u: Use | u.user in users
          ensures x.NamedBy(users, u) <==> old(x.NamedBy(users, u)) || (x == v && u == Use(this, i))
        {
        }
        assert !old(x.NamedBy(users, Use(this, i)));
        if x == v {
          OnceMore(old(x.useList), Use(this, i));
        }
      }
    }

    /** What becomes of an operand when this value is replaced. */
    static ghost function Redirected(o: Value?, was: Value, now: Value): Value? { if o == was then now else o }

    /** Redirects all and only the operands that name this value. Its own list is
        left as it was; every other exact list stays exact. */
    method ReplaceAllUseWith(newVal: Value, ghost users: set<Value>, ghost exact: set<Value>)
      requires newVal != this && Exact(users) && forall x :: x in exact ==> x.Exact(users)
      modifies users`operands, newVal`useList
      ensures forall u: Value {:trigger u.operands} :: u in users ==>
                (|u.operands| == |old(u.operands)| &&
                 forall i :: 0 <= i < |u.operands| ==> u.operands[i] == Redirected(old(u.operands[i]), this, newVal))
      ensures forall x :: x in exact - {this} ==> x.Exact(users)
      ensures newVal.useList == old(newVal.useList) + useList
    {
      var k := 0;
      while k < |useList|
        invariant k <= |useList| && useList == old(useList)
        invariant newVal.useList == old(newVal.useList) + useList[..k]
        invariant forall u: Value {:trigger u.operands} :: u in users ==>
                    (|u.operands| == |old(u.operands)| &&
                     forall i :: 0 <= i < |u.operands| ==> u.operands[i] == if Use(u, i) in useList[..k] then newVal else old(u.operands[i]))
      {
        var use := useList[k];
        assert use in useList;
        assert old(NamedBy(users, use));
        use.user.SetOperand(use.argNo, newVal, users, {});
        assert useList[..k + 1] == useList[..k] + [use];
        k := k + 1;
      }
      assert useList[..k] == useList;
      forall u: Value | u in users
        ensures forall i :: 0 <= i < |u.operands| ==> u.operands[i] == Redirected(old(u.operands[i]), this, newVal)
      {
        forall i | 0 <= i < |u.operands|
          ensures u.operands[i] == Redirected(old(u.operands[i]), this, newVal)
        {
          assert Use(u, i) in useList <==> old(NamedBy(users, Use(u, i)));
        }
      }
      forall x | x in exact - {this}
        ensures x.Exact(users)
      {
        forall u: Use | u.user in users
          ensures x.NamedBy(users, u) <==> old(x.NamedBy(users, u)) || (x == newVal && old(NamedBy(users, u)))
        {
        }
        if x == newVal {
          OnceBoth(old(x.useList), useList);
        }
      }
    }

    static lemma {:induction false} OnceBoth(a: seq<Use>, b: seq<Use>)
      requires Once(a) && Once(b) && forall x :: x in a ==> x !in b
      ensures Once(a + b)
    {
      forall i: nat, j: nat
        ensures Differs(a + b, i, j)
      {
        assert Differs(a, i, j);
        if i < |a| <= j < |a| + |b| {
          assert a[i] in a && b[j - |a|] in b;
        }
        if |a| <= i < j < |a| + |b| {
          var k: nat, l: nat := i - |a|, j - |a|;
          assert Differs(b, k, l);
        }
      }
    }

    /** Before an instruction is dropped its operands forget it; the lists are exact
        about the users that are left. */
    method RemoveUseOfOps(ghost users: set<Value>, ghost exact: set<Value>)
      requires this in users && (forall i :: 0 <= i < |operands| ==> operands[i] != null) && forall x :: x in exact ==> x.Exact(users)
      modifies (set i | 0 <= i < |operands| :: operands[i])`useList
      ensures forall x :: x in exact ==> x.Exact(users - {this})
    {
      hide Without, Once;
      var k := 0;
      while k < |operands|
        invariant k <= |operands| && operands == old(operands)
        invariant forall i {:trigger operands[i]} :: 0 <= i < |operands| ==>
                    operands[i].useList == if operands[i] in operands[..k] then Without(old(operands[i].useList), this) else old(operands[i].useList)
      {
        var op := operands[k];
        assert operands[..k + 1] == operands[..k] + [op];
        ghost var was := op.useList;
        op.RemoveUse(this);
        WithoutTwice(old(op.useList), this);
        k := k + 1;
      }
      assert operands[..k] == operands;
      forall x | x in exact
        ensures x.Exact(users - {this})
      {
        forall u: Use | u.user in users
          ensures x.NamedBy(users - {this}, u) <==> old(x.NamedBy(users, u)) && u.user != this
        {
        }
        forall u | u in x.useList
          ensures u.user != this
        {
          assert old(x.NamedBy(users, u));
        }
      }
    }

    static lemma {:induction false} WithoutTwice(uses: seq<Use>, user: Value)
      ensures Without(Without(uses, user), user) == Without(uses, user)
    {
      if uses != [] {
        var n := |uses| - 1;
        WithoutTwice(uses[..n], user);
        var few := Without(uses[..n], user);
        assert (few + [uses[n]])[..|few|] == few;
      }
    }
  }
}
