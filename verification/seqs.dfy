/** Generic sequence vocabulary shared by every stage of the slice builder:
    order-preserving filtering, subsequences and flattening. */
module Seqs {

  /** `a` is obtained from `b` by deleting elements, keeping the rest in order. */
  predicate IsSubsequence<T(==)>(a: seq<T>, b: seq<T>)
    decreases |b|
  {
    if a == [] then true
    else if b == [] then false
    else if a[0] == b[0] then IsSubsequence(a[1..], b[1..])
    else IsSubsequence(a, b[1..])
  }

  /** The elements of `s` satisfying `keep`, in their original order. This is
      what both a regular-expression deletion and a list comprehension with a
      guard compute. */
  function Filter<T(==,!new)>(keep: T -> bool, s: seq<T>): (r: seq<T>)
    ensures |r| <= |s|
    ensures forall i :: 0 <= i < |r| ==> keep(r[i])
    ensures IsSubsequence(r, s)
  {
    if s == [] then []
    else if keep(s[0]) then [s[0]] + Filter(keep, s[1..])
    else Filter(keep, s[1..])
  }

  /** Filtering keeps every passing element with its full multiplicity and
      drops every other one. */
  lemma {:induction false} FilterCounts<T(!new)>(keep: T -> bool, s: seq<T>)
    ensures forall x :: multiset(Filter(keep, s))[x] == if keep(x) then multiset(s)[x] else 0
  {
    if s != [] {
      FilterCounts(keep, s[1..]);
      assert s == [s[0]] + s[1..];
    }
  }

  /** The number of occurrences of `x` in `s`. */
  function Occurrences<T(==)>(x: T, s: seq<T>): nat
    decreases |s|
  {
    if s == [] then 0 else (if s[0] == x then 1 else 0) + Occurrences(x, s[1..])
  }

  /** `Occurrences` is the multiplicity of the multiset of the sequence. */
  lemma {:induction false} OccurrencesMultiset<T>(x: T, s: seq<T>)
    ensures Occurrences(x, s) == multiset(s)[x]
    decreases |s|
  {
    if s != [] {
      OccurrencesMultiset(x, s[1..]);
      assert s == [s[0]] + s[1..];
    }
  }

  /** Filtering keeps every occurrence of a passing element and none of a
      failing one. */
  lemma {:induction false} FilterOccurrences<T(!new)>(keep: T -> bool, s: seq<T>)
    ensures forall x :: Occurrences(x, Filter(keep, s)) == if keep(x) then Occurrences(x, s) else 0
    decreases |s|
  {
    if s != [] {
      FilterOccurrences(keep, s[1..]);
    }
  }

  /** An element occurs in the filtered sequence exactly when it occurs in
      the input and passes. */
  lemma FilterMembers<T(!new)>(keep: T -> bool, s: seq<T>)
    ensures forall x :: x in Filter(keep, s) <==> x in s && keep(x)
  {
    FilterCounts(keep, s);
    forall x
      ensures x in Filter(keep, s) <==> x in s && keep(x)
    {
      assert x in Filter(keep, s) <==> multiset(Filter(keep, s))[x] > 0;
      assert x in s <==> multiset(s)[x] > 0;
    }
  }

  /** Filtering depends only on the values of the predicate. */
  lemma {:induction false} FilterExt<T(!new)>(p: T -> bool, q: T -> bool, s: seq<T>)
    requires forall x :: p(x) == q(x)
    ensures Filter(p, s) == Filter(q, s)
  {
    if s != [] {
      FilterExt(p, q, s[1..]);
    }
  }

  /** Two filters in a row are one filter by the conjunction, so filters commute. */
  lemma {:induction false} FilterFilter<T(!new)>(p: T -> bool, q: T -> bool, both: T -> bool, s: seq<T>)
    requires forall x :: both(x) == (p(x) && q(x))
    ensures Filter(p, Filter(q, s)) == Filter(both, s)
  {
    if s != [] {
      FilterFilter(p, q, both, s[1..]);
    }
  }

  /** A filter that every element passes changes nothing. */
  lemma {:induction false} FilterAllKept<T(!new)>(keep: T -> bool, s: seq<T>)
    requires forall i :: 0 <= i < |s| ==> keep(s[i])
    ensures Filter(keep, s) == s
  {
    if s != [] {
      FilterAllKept(keep, s[1..]);
    }
  }

  /** Filtering distributes over concatenation. */
  lemma {:induction false} FilterAppend<T(!new)>(keep: T -> bool, a: seq<T>, b: seq<T>)
    ensures Filter(keep, a + b) == Filter(keep, a) + Filter(keep, b)
  {
    if a == [] {
      assert a + b == b;
    } else {
      assert (a + b)[0] == a[0] && (a + b)[1..] == a[1..] + b;
      FilterAppend(keep, a[1..], b);
    }
  }

  /** Filtering twice with the same predicate is filtering once. */
  lemma FilterIdempotent<T(!new)>(keep: T -> bool, s: seq<T>)
    ensures Filter(keep, Filter(keep, s)) == Filter(keep, s)
  {
    FilterAllKept(keep, Filter(keep, s));
  }

  /** The concatenation of a sequence of sequences, in order. */
  function Concat<T>(ss: seq<seq<T>>): seq<T>
  {
    if ss == [] then [] else ss[0] + Concat(ss[1..])
  }
}
