/** Directory listings, in any order and in the order of sort.Strings. */
module Listing {
  import opened Text
  import opened Sorting

  /** A listing of these names: each once. */
  predicate Enumerates(order: seq<string>, names: set<string>) {
    && (set n | n in order) == names
    && forall i, j | 0 <= i < j < |order| :: order[i] != order[j]
  }

  lemma EnumeratesMember(order: seq<string>, names: set<string>)
    requires Enumerates(order, names)
    ensures forall n :: n in order <==> n in names
  {
    assert forall n :: n in (set k | k in order) <==> n in order;
  }

  /** Some listing. */
  method ReadDir(names: set<string>) returns (order: seq<string>)
    ensures Enumerates(order, names)
  {
    order := [];
    var rest := names;
    while rest != {}
      invariant rest <= names
      invariant forall k :: k in order <==> k in names && k !in rest
      invariant forall i, j | 0 <= i < j < |order| :: order[i] != order[j]
      decreases rest
    {
      var n :| n in rest;
      order, rest := order + [n], rest - {n};
    }
  }

  lemma BeforeIsWeakOrder()
    ensures WeakOrder(Before)
  {
    forall a, b | Before(a, b) ensures !Before(b, a) {
      if Before(b, a) {
        BeforeTransitive(a, b, a);
        NotBeforeItself(a);
      }
    }
    forall a, b, c | Before(a, c) ensures Before(a, b) || Before(b, c) {
      BeforeTotal(a, b);
      if Before(b, a) { BeforeTransitive(b, a, c); }
    }
  }

  /** Each name is there exactly once. */
  lemma {:induction false} DistinctCounts(order: seq<string>)
    requires forall i, j | 0 <= i < j < |order| :: order[i] != order[j]
    ensures forall n :: multiset(order)[n] == if n in order then 1 else 0
  {
    if order != [] {
      var front, last := order[..|order| - 1], order[|order| - 1];
      DistinctCounts(front);
      assert order == front + [last];
    }
  }

  lemma {:induction false} EnumeratesCount(order: seq<string>, names: set<string>)
    requires Enumerates(order, names)
    ensures |order| == |names|
  {
    if order == [] {
      assert names == {};
    } else {
      var front, last := order[..|order| - 1], order[|order| - 1];
      EnumeratesMember(order, names);
      assert order == front + [last];
      assert (set n | n in front) == names - {last};
      EnumeratesCount(front, names - {last});
    }
  }

  /** Two listings of the same names are permutations of each other. */
  lemma ListingsPermute(a: seq<string>, b: seq<string>)
    requires forall i, j | 0 <= i < j < |a| :: a[i] != a[j]
    requires forall i, j | 0 <= i < j < |b| :: b[i] != b[j]
    requires forall n :: n in a <==> n in b
    ensures multiset(a) == multiset(b)
  {
    DistinctCounts(a);
    DistinctCounts(b);
  }

  lemma TwiceCounts(b: seq<string>, i: nat, j: nat)
    requires i < j < |b| && b[i] == b[j]
    ensures multiset(b)[b[i]] >= 2
  {
    assert b == b[..i] + [b[i]] + b[i + 1..j] + [b[j]] + b[j + 1..];
  }

  /** A permutation of distinct names has distinct names, the same ones. */
  lemma DistinctPermutes(a: seq<string>, b: seq<string>)
    requires multiset(a) == multiset(b)
    requires forall i, j | 0 <= i < j < |a| :: a[i] != a[j]
    ensures forall i, j | 0 <= i < j < |b| :: b[i] != b[j]
    ensures forall n :: n in a <==> n in b
  {
    DistinctCounts(a);
    forall i, j | 0 <= i < j < |b| ensures b[i] != b[j] {
      if b[i] == b[j] { TwiceCounts(b, i, j); }
    }
    forall n ensures n in a <==> n in b {
      assert n in a <==> n in multiset(a);
      assert n in b <==> n in multiset(b);
    }
  }
}
