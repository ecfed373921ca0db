/** Mapping over sequences, and sequences as multisets. */
module Sequences {

  function Map<T, U>(f: T -> U, a: seq<T>): (b: seq<U>)
    ensures |b| == |a| && forall i :: 0 <= i < |a| ==> b[i] == f(a[i])
  {
    seq(|a|, i requires 0 <= i < |a| => f(a[i]))
  }

  lemma MapWithout<T, U>(f: T -> U, a: seq<T>, k: nat)
    requires k < |a|
    ensures multiset(Map(f, a)) == multiset(Map(f, a[..k] + a[k + 1..])) + multiset{f(a[k])}
  {
    assert Map(f, a) == Map(f, a[..k]) + [f(a[k])] + Map(f, a[k + 1..]);
    assert Map(f, a[..k] + a[k + 1..]) == Map(f, a[..k]) + Map(f, a[k + 1..]);
  }

  lemma Without<T>(a: seq<T>, k: nat)
    requires k < |a|
    ensures multiset(a[..k] + a[k + 1..]) == multiset(a) - multiset{a[k]}
  {
    assert a == a[..k] + [a[k]] + a[k + 1..];
  }

  lemma FirstIn<T>(a: seq<T>, b: seq<T>) returns (k: nat)
    requires multiset(a) == multiset(b) && a != []
    ensures k < |b| && b[k] == a[0]
    ensures multiset(a[1..]) == multiset(b[..k] + b[k + 1..])
  {
    assert a[0] in multiset(a);
    k :| 0 <= k < |b| && b[k] == a[0];
    assert a == [a[0]] + a[1..];
    Without(b, k);
  }

  /** Mapping a permutation gives a permutation. */
  lemma {:induction false} MapPermutation<T, U>(f: T -> U, a: seq<T>, b: seq<T>)
    requires multiset(a) == multiset(b)
    ensures multiset(Map(f, a)) == multiset(Map(f, b))
    decreases |a|
  {
    assert |multiset(a)| == |a| && |multiset(b)| == |b|;
    if a != [] {
      var k := FirstIn(a, b);
      MapPermutation(f, a[1..], b[..k] + b[k + 1..]);
      assert Map(f, a) == [f(a[0])] + Map(f, a[1..]);
      MapWithout(f, b, k);
    }
  }

  lemma {:induction false} AtMostOnce<T>(a: seq<T>, x: T)
    requires forall i, j :: 0 <= i < j < |a| ==> a[i] != a[j]
    ensures multiset(a)[x] == if x in a then 1 else 0
  {
    if a != [] {
      var last := |a| - 1;
      AtMostOnce(a[..last], x);
      assert a == a[..last] + [a[last]];
    }
  }

  lemma SameElementsOnce<T>(a: seq<T>, b: seq<T>)
    requires forall i, j :: 0 <= i < j < |a| ==> a[i] != a[j]
    requires forall i, j :: 0 <= i < j < |b| ==> b[i] != b[j]
    requires forall x :: x in a <==> x in b
    ensures multiset(a) == multiset(b)
  {
    forall x: T
      ensures multiset(a)[x] == multiset(b)[x]
    {
      AtMostOnce(a, x);
      AtMostOnce(b, x);
    }
  }

  lemma InMap<T, U>(f: T -> U, a: seq<T>, y: U)
    ensures y in Map(f, a) <==> exists x :: x in a && f(x) == y
  {
    if y in Map(f, a) {
      var i :| 0 <= i < |a| && Map(f, a)[i] == y;
      assert a[i] in a;
    }
    if x :| x in a && f(x) == y {
      var i :| 0 <= i < |a| && a[i] == x;
      assert Map(f, a)[i] == y;
    }
  }

  /** A subset is not larger; it is as large only if it is the whole set. */
  lemma SubsetSize<T>(a: set<T>, b: set<T>)
    requires a <= b
    ensures |a| <= |b| && (|a| == |b| ==> a == b)
  {
    assert b == a + (b - a) && |b| == |a| + |b - a|;
  }
}
