/**
 * Sequence helpers with the meaning of JavaScript's Array.prototype.filter
 * and Array.prototype.map, and the "order-preserving subsequence" relation
 * used to state what a filter keeps.
 */
module Seqs {

  /** The elements of s that satisfy p, in their original order (s.filter(p)). */
  function Filter<T(!new)>(p: T -> bool, s: seq<T>): (r: seq<T>)
    ensures |r| <= |s|
    ensures forall x :: x in r <==> x in s && p(x)
  {
    if s == [] then []
    else if p(s[0]) then [s[0]] + Filter(p, s[1..]) else Filter(p, s[1..])
  }

  /** A filter keeps every copy of an element that passes and no copy of one that fails. */
  lemma {:induction false} FilterMultiplicity<T(!new)>(p: T -> bool, s: seq<T>, x: T)
    ensures multiset(Filter(p, s))[x] == if p(x) then multiset(s)[x] else 0
  {
    if s != [] {
      FilterMultiplicity(p, s[1..], x);
      assert s == [s[0]] + s[1..];
    }
  }

  /** FilterMultiplicity for every element at once. */
  lemma FilterMultiplicities<T(!new)>(p: T -> bool, s: seq<T>)
    ensures forall x :: multiset(Filter(p, s))[x] == if p(x) then multiset(s)[x] else 0
  {
    forall x
      ensures multiset(Filter(p, s))[x] == if p(x) then multiset(s)[x] else 0
    {
      FilterMultiplicity(p, s, x);
    }
  }

  /** f applied to every element of s, position by position (s.map(f)). */
  function Map<T, U>(f: T -> U, s: seq<T>): (r: seq<U>)
    ensures |r| == |s|
    ensures forall i :: 0 <= i < |s| ==> r[i] == f(s[i])
  {
    if s == [] then [] else [f(s[0])] + Map(f, s[1..])
  }

  /** xs can be obtained from ys by deleting elements, without reordering. */
  predicate IsSubsequence<T(==)>(xs: seq<T>, ys: seq<T>)
    decreases |ys|
  {
    if xs == [] then true
    else if ys == [] then false
    else if xs[0] == ys[0] then IsSubsequence(xs[1..], ys[1..])
    else IsSubsequence(xs, ys[1..])
  }

  /** What a filter keeps is an order-preserving subsequence of its input. */
  lemma {:induction false} FilterIsSubsequence<T(!new)>(p: T -> bool, s: seq<T>)
    ensures IsSubsequence(Filter(p, s), s)
  {
    if s != [] {
      FilterIsSubsequence(p, s[1..]);
      var rest := Filter(p, s[1..]);
      if p(s[0]) {
        assert ([s[0]] + rest)[1..] == rest;
      } else if rest != [] {
        // rest[0] satisfies p and s[0] does not, so they differ
        assert rest[0] in rest;
      }
    }
  }

  /** A filter that every element passes returns its input unchanged. */
  lemma {:induction false} FilterKeepsAll<T(!new)>(p: T -> bool, s: seq<T>)
    ensures (forall x :: x in s ==> p(x)) ==> Filter(p, s) == s
  {
    if s != [] && forall x :: x in s ==> p(x) {
      FilterKeepsAll(p, s[1..]);
      assert s[0] in s;
      assert forall x :: x in s[1..] ==> x in s;
      assert s == [s[0]] + s[1..];
    }
  }

  /** A filter that some element fails returns a strictly shorter sequence. */
  lemma {:induction false} FilterDropsFailing<T(!new)>(p: T -> bool, s: seq<T>, x: T)
    requires x in s && !p(x)
    ensures |Filter(p, s)| < |s|
  {
    if s[0] != x {
      FilterDropsFailing(p, s[1..], x);
    }
  }

  /** Filtering distributes over concatenation. */
  lemma {:induction false} FilterConcat<T(!new)>(p: T -> bool, a: seq<T>, b: seq<T>)
    ensures Filter(p, a + b) == Filter(p, a) + Filter(p, b)
  {
    if a != [] {
      FilterConcat(p, a[1..], b);
      var ab := a + b;
      assert ab[0] == a[0] && ab[1..] == a[1..] + b;
      assert Filter(p, ab) == if p(a[0]) then [a[0]] + Filter(p, a[1..] + b) else Filter(p, a[1..] + b);
    } else {
      assert a + b == b;
    }
  }

  /** Filters by pointwise-equal predicates agree. */
  lemma {:induction false} FilterExtensional<T(!new)>(p: T -> bool, q: T -> bool, s: seq<T>)
    requires forall x :: p(x) == q(x)
    ensures Filter(p, s) == Filter(q, s)
  {
    if s != [] {
      FilterExtensional(p, q, s[1..]);
    }
  }

  /**
   * Filters by complementary predicates split s: together they keep every
   * element exactly once.
   */
  lemma {:induction false} FilterPartition<T(!new)>(p: T -> bool, q: T -> bool, s: seq<T>)
    requires forall x :: q(x) == !p(x)
    ensures |Filter(p, s)| + |Filter(q, s)| == |s|
    ensures multiset(Filter(p, s)) + multiset(Filter(q, s)) == multiset(s)
  {
    if s != [] {
      FilterPartition(p, q, s[1..]);
      assert s == [s[0]] + s[1..];
    }
  }
}
