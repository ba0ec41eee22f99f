/**
 * Python's stable `sorted(..., key=...)`, as an insertion sort under a
 * total "may come before" relation on the elements.
 */
module Sorting {

  /** Every two elements are comparable one way or the other. */
  ghost predicate Total<T(!new)>(before: (T, T) -> bool)
  {
    forall a: T, b: T :: before(a, b) || before(b, a)
  }

  /** Each element may come before its successor. */
  predicate Sorted<T>(s: seq<T>, before: (T, T) -> bool)
  {
    forall i :: 0 < i < |s| ==> before(s[i - 1], s[i])
  }

  /** Puts `x` after the last element that may come before it (keeps ties in order). */
  function InsertStable<T>(t: seq<T>, x: T, before: (T, T) -> bool): (r: seq<T>)
    ensures multiset(r) == multiset(t) + multiset{x}
    ensures |r| == |t| + 1
    ensures r[|r| - 1] == x || (t != [] && r[|r| - 1] == t[|t| - 1])
  {
    if t == [] || before(t[|t| - 1], x) then t + [x]
    else
      var r := InsertStable(t[..|t| - 1], x, before) + [t[|t| - 1]];
      assert t == t[..|t| - 1] + [t[|t| - 1]];
      r
  }

  /** Sorting by repeated stable insertion of the next element. */
  function SortBy<T>(s: seq<T>, before: (T, T) -> bool): (r: seq<T>)
    ensures multiset(r) == multiset(s)
    ensures |r| == |s|
  {
    if s == [] then []
    else
      var r := InsertStable(SortBy(s[..|s| - 1], before), s[|s| - 1], before);
      assert s == s[..|s| - 1] + [s[|s| - 1]];
      r
  }

  lemma {:induction false} InsertStableSorted<T(!new)>(t: seq<T>, x: T, before: (T, T) -> bool)
    requires Total(before) && Sorted(t, before)
    ensures Sorted(InsertStable(t, x, before), before)
  {
    if t != [] && !before(t[|t| - 1], x) {
      var init := t[..|t| - 1];
      var last := t[|t| - 1];
      InsertStableSorted(init, x, before);
      var r0 := InsertStable(init, x, before);
      assert before(x, last);
      assert before(r0[|r0| - 1], last);
    }
  }

  /** The result is sorted and a permutation of the input. */
  lemma {:induction false} SortBySorted<T(!new)>(s: seq<T>, before: (T, T) -> bool)
    requires Total(before)
    ensures Sorted(SortBy(s, before), before)
    ensures multiset(SortBy(s, before)) == multiset(s)
  {
    if s != [] {
      SortBySorted(s[..|s| - 1], before);
      InsertStableSorted(SortBy(s[..|s| - 1], before), s[|s| - 1], before);
    }
  }

  /** A sorted input is left as it is. */
  lemma {:induction false} SortByOfSorted<T>(s: seq<T>, before: (T, T) -> bool)
    requires Sorted(s, before)
    ensures SortBy(s, before) == s
  {
    if s != [] {
      var init := s[..|s| - 1];
      assert Sorted(init, before);
      SortByOfSorted(init, before);
      assert s == init + [s[|s| - 1]];
    }
  }
}
