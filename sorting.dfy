/**
  Sorting by a caller-given order, the meaning of an SQL `ORDER BY`. SQL leaves the
  relative order of rows with equal keys open; the insertion sort here is stable, but
  its contract promises only what `ORDER BY` promises: sorted, and a permutation.
 */
module Sorting {

  /** `before` orders every pair of values and is transitive. */
  ghost predicate TotalPreorder<T(!new)>(before: (T, T) -> bool)
  {
    && (forall a, b :: before(a, b) || before(b, a))
    && (forall a, b, c :: before(a, b) && before(b, c) ==> before(a, c))
  }

  ghost predicate SortedBy<T>(s: seq<T>, before: (T, T) -> bool)
  {
    forall i, j :: 0 <= i < j < |s| ==> before(s[i], s[j])
  }

  /** Puts `x` into the sorted sequence `s`, after every element it does not precede. */
  function Insert<T(!new)>(x: T, s: seq<T>, before: (T, T) -> bool): (r: seq<T>)
    requires TotalPreorder(before)
    requires SortedBy(s, before)
    ensures SortedBy(r, before)
    ensures multiset(r) == multiset(s) + multiset{x}
    ensures forall y :: y in r ==> y == x || y in s
  {
    if s == [] then [x]
    else if before(x, s[0]) then [x] + s
    else
      var tail := Insert(x, s[1..], before);
      assert s == [s[0]] + s[1..];
      assert before(s[0], x);
      assert forall y :: y in tail ==> before(s[0], y);
      assert forall j :: 0 < j < |tail| + 1 ==> ([s[0]] + tail)[j] == tail[j - 1];
      [s[0]] + tail
  }

  /** The rows of `s` in the order `before`. */
  function SortBy<T(!new)>(s: seq<T>, before: (T, T) -> bool): (r: seq<T>)
    requires TotalPreorder(before)
    ensures SortedBy(r, before)
    ensures multiset(r) == multiset(s)
  {
    if s == [] then []
    else
      assert s == [s[0]] + s[1..];
      Insert(s[0], SortBy(s[1..], before), before)
  }
}
