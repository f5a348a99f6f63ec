/** Sorting by a comparator that is a total preorder, as a database's
    ORDER BY does: the result is a permutation of the input in which every
    element comes no later than those it is not after. The order among
    ties is whatever the sort leaves; nothing depends on it. */
module Ordering {

  ghost predicate TotalPreorder<T(!new)>(le: (T, T) -> bool)
  {
    && (forall a, b :: le(a, b) || le(b, a))
    && (forall a, b, c :: le(a, b) && le(b, c) ==> le(a, c))
  }

  ghost predicate Sorted<T>(s: seq<T>, le: (T, T) -> bool)
  {
    forall i, j :: 0 <= i < j < |s| ==> le(s[i], s[j])
  }

  /** `x` is not after any element of `s`. */
  ghost predicate NotAfterAll<T>(x: T, s: seq<T>, le: (T, T) -> bool)
  {
    forall i :: 0 <= i < |s| ==> le(x, s[i])
  }

  /** An element not after any of a sorted list can go in front of it. */
  lemma PrependSorted<T>(a: T, s: seq<T>, le: (T, T) -> bool)
    requires Sorted(s, le) && NotAfterAll(a, s, le)
    ensures Sorted([a] + s, le)
  {
    var r := [a] + s;
    forall i, j | 0 <= i < j < |r| ensures le(r[i], r[j]) {
      assert r[j] == s[j - 1];
      if i > 0 { assert r[i] == s[i - 1]; }
    }
  }

  /** What is not after every element of `b` nor after `x` is not after any
      element of a list holding exactly those. */
  lemma NotAfterMembers<T>(y: T, a: seq<T>, b: seq<T>, x: T, le: (T, T) -> bool)
    requires multiset(a) == multiset(b) + multiset{x}
    requires NotAfterAll(y, b, le) && le(y, x)
    ensures NotAfterAll(y, a, le)
  {
    forall i | 0 <= i < |a| ensures le(y, a[i]) {
      assert a[i] in multiset(a);
      if a[i] != x {
        assert a[i] in multiset(b);
        var j :| 0 <= j < |b| && b[j] == a[i];
      }
    }
  }

  /** Puts `x` before the first element it is not after. */
  function Insert<T(!new)>(x: T, s: seq<T>, le: (T, T) -> bool): (r: seq<T>)
    requires TotalPreorder(le)
    requires Sorted(s, le)
    ensures multiset(r) == multiset(s) + multiset{x}
    ensures Sorted(r, le)
    decreases |s|
  {
    if |s| == 0 then [x]
    else if le(x, s[0]) then
      assert NotAfterAll(x, s, le) by {
        forall i | 0 <= i < |s| ensures le(x, s[i]) {
          assert i == 0 || le(s[0], s[i]);
        }
      }
      PrependSorted(x, s, le);
      [x] + s
    else
      var tail := s[1..];
      assert s == [s[0]] + tail;
      var rest := Insert(x, tail, le);
      assert NotAfterAll(s[0], tail, le);
      NotAfterMembers(s[0], rest, tail, x, le);
      PrependSorted(s[0], rest, le);
      [s[0]] + rest
  }

  /** The multiset of a list is that of all but its last element, plus the
      last. */
  lemma LastSplit<T>(s: seq<T>)
    requires |s| > 0
    ensures multiset(s) == multiset(s[..|s| - 1]) + multiset{s[|s| - 1]}
  {
    assert s == s[..|s| - 1] + [s[|s| - 1]];
  }

  /** Insertion sort: a sorted permutation of `s`. */
  function Sort<T(!new)>(s: seq<T>, le: (T, T) -> bool): (r: seq<T>)
    requires TotalPreorder(le)
    ensures multiset(r) == multiset(s)
    ensures |r| == |s|
    ensures Sorted(r, le)
    decreases |s|
  {
    if |s| == 0 then []
    else
      LastSplit(s);
      var r := Insert(s[|s| - 1], Sort(s[..|s| - 1], le), le);
      assert |r| == |multiset(r)|;
      r
  }

  /** Sorting keeps exactly the elements it was given. */
  lemma SortMembers<T(!new)>(s: seq<T>, le: (T, T) -> bool, x: T)
    requires TotalPreorder(le)
    ensures x in Sort(s, le) <==> x in s
  {
    var r := Sort(s, le);
    assert x in r <==> x in multiset(r);
    assert x in s <==> x in multiset(s);
  }
}
