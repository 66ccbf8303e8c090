/** Facts about sequences that the solver is better told than left to find. */
module Seqs {
  lemma Associative<T>(a: seq<T>, b: seq<T>, c: seq<T>)
    ensures (a + b) + c == a + (b + c)
  {}

  lemma DropConcat<T>(a: seq<T>, b: seq<T>, n: nat)
    requires n <= |a|
    ensures (a + b)[n..] == a[n..] + b
  {}

  lemma Nothing<T>(a: seq<T>)
    ensures a + [] == a && [] + a == a
  {}

  lemma SliceOfTake<T>(a: seq<T>, n: nat, i: nat, j: nat)
    requires i <= j <= n <= |a|
    ensures a[..n][i..j] == a[i..][..j - i]
  {}

  lemma MultisetCons<T>(x: T, a: seq<T>)
    ensures multiset([x] + a) == multiset{x} + multiset(a)
  {}

  lemma MultisetAssociative<T>(a: multiset<T>, b: multiset<T>, c: multiset<T>)
    ensures a + (b + c) == (a + b) + c && b + c == c + b
  {}

  lemma MultisetSize<T>(a: seq<T>, b: seq<T>)
    requires multiset(a) == multiset(b)
    ensures |a| == |b|
  {
    assert |a| == |multiset(a)| && |b| == |multiset(b)|;
  }

  lemma LastMember<T>(a: seq<T>, x: T)
    requires a != []
    ensures x in a <==> x in a[..|a| - 1] || x == a[|a| - 1]
  {
    assert a == a[..|a| - 1] + [a[|a| - 1]];
  }

  lemma SameMembers<T>(a: seq<T>, b: seq<T>, x: T, c: T)
    requires multiset(a) == multiset(b) + multiset{x}
    ensures c in a <==> c in b || c == x
  {
    assert c in a <==> c in multiset(a);
    assert c in b <==> c in multiset(b);
  }

  lemma MultisetLast<T>(a: seq<T>)
    requires a != []
    ensures multiset(a) == multiset(a[..|a| - 1]) + multiset{a[|a| - 1]}
  {
    assert a == a[..|a| - 1] + [a[|a| - 1]];
  }

  /** The positions one further on. */
  function Shifted(a: set<nat>): set<nat> {
    set k | k in a :: k + 1
  }

  lemma ShiftedOne(a: set<nat>, x: nat)
    requires x in a
    ensures Shifted(a) == Shifted(a - {x}) + {x + 1} && x + 1 !in Shifted(a - {x})
  {
    var rest := Shifted(a - {x});
    forall z | z in Shifted(a) ensures z in rest + {x + 1} {
      var k :| k in a && z == k + 1;
      assert k == x || k in a - {x};
    }
  }

  lemma {:induction false} ShiftedSize(a: set<nat>)
    ensures |Shifted(a)| == |a|
    decreases a
  {
    if a != {} {
      var x :| x in a;
      ShiftedOne(a, x);
      ShiftedSize(a - {x});
      hide Shifted;
    }
  }
}
