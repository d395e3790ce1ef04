/** sort.Slice and sort.Strings: some ordered permutation of the input. Ties may
    come out in any order, so nothing is promised about them. */
module Sorting {

  /** What sort.Slice asks of its comparison. */
  ghost predicate WeakOrder<T(!new)>(less: (T, T) -> bool) {
    && (forall a, b :: less(a, b) ==> !less(b, a))
    && (forall a, b, c :: less(a, c) ==> less(a, b) || less(b, c))
  }

  ghost predicate Sorted<T>(xs: seq<T>, less: (T, T) -> bool) {
    forall i, j | 0 <= i < j < |xs| :: !less(xs[j], xs[i])
  }

  method SortSlice<T(!new)>(xs: seq<T>, less: (T, T) -> bool) returns (r: seq<T>)
    requires WeakOrder(less)
    ensures multiset(r) == multiset(xs)
    ensures Sorted(r, less)
  {
    r := [];
    for n := 0 to |xs|
      invariant multiset(r) == multiset(xs[..n])
      invariant Sorted(r, less)
    {
      var k := |r|;
      while k > 0 && less(xs[n], r[k - 1])
        invariant 0 <= k <= |r|
        invariant forall i | k <= i < |r| :: less(xs[n], r[i])
      {
        k := k - 1;
      }
      InsertSorted(r, k, xs[n], less);
      InsertAdds(r, k, xs[n]);
      assert xs[..n + 1] == xs[..n] + [xs[n]];
      r := r[..k] + [xs[n]] + r[k..];
    }
    assert xs[..|xs|] == xs;
  }

  lemma InsertAdds<T>(r: seq<T>, k: nat, x: T)
    requires k <= |r|
    ensures multiset(r[..k] + [x] + r[k..]) == multiset(r) + multiset{x}
  {
    assert r == r[..k] + r[k..];
  }

  lemma InsertSorted<T(!new)>(r: seq<T>, k: nat, x: T, less: (T, T) -> bool)
    requires WeakOrder(less) && Sorted(r, less) && k <= |r|
    requires forall i | k <= i < |r| :: less(x, r[i])
    requires k > 0 ==> !less(x, r[k - 1])
    ensures Sorted(r[..k] + [x] + r[k..], less)
  {
    forall i | 0 <= i < k ensures !less(x, r[i]) {
      assert i < k - 1 ==> !less(r[k - 1], r[i]);
    }
  }

  ghost predicate Descending(a: seq<int>) {
    forall i, j | 0 <= i < j < |a| :: a[i] >= a[j]
  }

  lemma LargestFirst(a: seq<int>, x: int)
    requires Descending(a) && x in multiset(a)
    ensures x <= a[0]
  {
    var i :| 0 <= i < |a| && a[i] == x;
    if i > 0 { assert a[0] >= a[i]; }
  }

  lemma SameFirst(a: seq<int>, b: seq<int>)
    requires Descending(a) && Descending(b) && multiset(a) == multiset(b) && a != []
    ensures b != [] && a[0] == b[0]
  {
    assert a[0] in multiset(b) && b != [] && b[0] in multiset(a);
    LargestFirst(a, b[0]);
    LargestFirst(b, a[0]);
  }

  lemma TailDescends(a: seq<int>)
    requires Descending(a) && a != []
    ensures Descending(a[1..]) && a == [a[0]] + a[1..] && multiset(a) == multiset(a[1..]) + multiset{a[0]}
  {
    var rest := TakeOut(a, 0);
    assert rest == a[1..];
  }

  /** A multiset of integers has only one non-increasing arrangement. */
  lemma {:induction false} DescendingUnique(a: seq<int>, b: seq<int>)
    requires multiset(a) == multiset(b) && Descending(a) && Descending(b)
    ensures a == b
  {
    hide Descending;
    if a == [] {
      assert |multiset(b)| == 0;
    } else {
      SameFirst(a, b);
      TailDescends(a);
      TailDescends(b);
      SameRest(multiset(a[1..]), multiset(b[1..]), a[0]);
      DescendingUnique(a[1..], b[1..]);
    }
  }

  function MapSeq<T, U>(xs: seq<T>, f: T -> U): (r: seq<U>)
    ensures |r| == |xs| && forall i | 0 <= i < |xs| :: r[i] == f(xs[i])
  {
    seq(|xs|, i requires 0 <= i < |xs| => f(xs[i]))
  }

  lemma MapAppend<T, U>(a: seq<T>, b: seq<T>, f: T -> U)
    ensures MapSeq(a + b, f) == MapSeq(a, f) + MapSeq(b, f)
  {
  }

  lemma TakeOut<T>(b: seq<T>, k: nat) returns (rest: seq<T>)
    requires k < |b|
    ensures rest == b[..k] + b[k + 1..] && multiset(b) == multiset(rest) + multiset{b[k]}
  {
    rest := b[..k] + b[k + 1..];
    assert b == b[..k] + ([b[k]] + b[k + 1..]);
  }

  lemma MapTakeOut<T, U>(b: seq<T>, k: nat, f: T -> U)
    requires k < |b|
    ensures multiset(MapSeq(b, f)) == multiset(MapSeq(b[..k] + b[k + 1..], f)) + multiset{f(b[k])}
  {
    var rest := TakeOut(MapSeq(b, f), k);
    assert rest == MapSeq(b[..k] + b[k + 1..], f);
  }

  lemma SameRest<T>(a: multiset<T>, b: multiset<T>, x: T)
    requires a + multiset{x} == b + multiset{x}
    ensures a == b
  {
    assert a == (a + multiset{x}) - multiset{x} && b == (b + multiset{x}) - multiset{x};
  }

  /** Mapping a permutation gives a permutation. */
  lemma {:induction false} MapPermutation<T, U>(a: seq<T>, b: seq<T>, f: T -> U)
    requires multiset(a) == multiset(b)
    ensures multiset(MapSeq(a, f)) == multiset(MapSeq(b, f))
  {
    if a == [] {
      assert |multiset(b)| == 0;
    } else {
      assert a[0] in multiset(b);
      var k :| 0 <= k < |b| && b[k] == a[0];
      var rest := TakeOut(b, k);
      var tail := TakeOut(a, 0);
      assert multiset(tail) == multiset(rest) by { SameRest(multiset(tail), multiset(rest), a[0]); }
      MapPermutation(tail, rest, f);
      MapTakeOut(a, 0, f);
      MapTakeOut(b, k, f);
    }
  }
}
