/** Ascending sort of a numeric sample, the behaviour of `np.sort`.

    The result of a sort is determined by the multiset of the input alone:
    `SortedUnique` shows that two sorted arrangements of the same multiset
    coincide, so any sorting algorithm (numpy's included) yields `Sort`. */
module Sorting {

  /** Non-decreasing order. */
  predicate Sorted(s: seq<real>) {
    forall i, j :: 0 <= i <= j < |s| ==> s[i] <= s[j]
  }

  /** `x` is no larger than any element of `s`. */
  predicate IsLowerBound(x: real, s: seq<real>) {
    forall i :: 0 <= i < |s| ==> x <= s[i]
  }

  /** `x` is no smaller than any element of `s`. */
  predicate IsUpperBound(x: real, s: seq<real>) {
    forall i :: 0 <= i < |s| ==> s[i] <= x
  }

  /** Places `x` into an already sorted sequence. */
  function Insert(x: real, s: seq<real>): (r: seq<real>)
    requires Sorted(s)
    ensures Sorted(r)
    ensures multiset(r) == multiset(s) + multiset{x}
    ensures |r| == |s| + 1
    ensures r[0] == x || (|s| > 0 && r[0] == s[0])
  {
    if |s| == 0 then [x]
    else if x <= s[0] then [x] + s
    else
      var rest := Insert(x, s[1..]);
      assert s == [s[0]] + s[1..];
      assert s[0] <= rest[0];
      SortedCons(s[0], rest);
      [s[0]] + rest
  }

  /** Prepending a value no larger than the head keeps a sequence sorted. */
  lemma SortedCons(x: real, s: seq<real>)
    requires Sorted(s)
    requires |s| > 0 ==> x <= s[0]
    ensures Sorted([x] + s)
  {
  }

  /** The sample in ascending order: a sorted permutation of the input. */
  function Sort(s: seq<real>): (r: seq<real>)
    ensures Sorted(r)
    ensures multiset(r) == multiset(s)
    ensures |r| == |s|
  {
    if |s| == 0 then []
    else
      assert s == [s[0]] + s[1..];
      Insert(s[0], Sort(s[1..]))
  }

  /** The first element of a non-empty sort is the sample minimum. */
  lemma SortFirstIsMinimum(s: seq<real>)
    requires |s| > 0
    ensures Sort(s)[0] in s
    ensures IsLowerBound(Sort(s)[0], s)
  {
    var r := Sort(s);
    assert r[0] in multiset(r);
    forall i | 0 <= i < |s|
      ensures r[0] <= s[i]
    {
      assert s[i] in multiset(s);
      var k :| 0 <= k < |r| && r[k] == s[i];
    }
  }

  /** The last element of a non-empty sort is the sample maximum. */
  lemma SortLastIsMaximum(s: seq<real>)
    requires |s| > 0
    ensures Sort(s)[|s| - 1] in s
    ensures IsUpperBound(Sort(s)[|s| - 1], s)
  {
    var r := Sort(s);
    assert r[|s| - 1] in multiset(r);
    forall i | 0 <= i < |s|
      ensures s[i] <= r[|s| - 1]
    {
      assert s[i] in multiset(s);
      var k :| 0 <= k < |r| && r[k] == s[i];
    }
  }

  /** The head of a sorted sequence is no larger than any value it holds. */
  lemma SortedHeadIsMinimum(s: seq<real>, x: real)
    requires Sorted(s) && |s| > 0
    requires x in multiset(s)
    ensures s[0] <= x
  {
    assert x in s;
    var i :| 0 <= i < |s| && s[i] == x;
  }

  /** Dropping the head keeps a sequence sorted. */
  lemma SortedTail(s: seq<real>)
    requires Sorted(s) && |s| > 0
    ensures Sorted(s[1..])
  {
    forall i, j | 0 <= i <= j < |s| - 1
      ensures s[1..][i] <= s[1..][j]
    {
      assert s[i + 1] <= s[j + 1];
    }
  }

  /** Two sorted sequences holding the same multiset of values are equal. */
  lemma {:induction false} SortedUnique(a: seq<real>, b: seq<real>)
    requires Sorted(a) && Sorted(b)
    requires multiset(a) == multiset(b)
    ensures a == b
  {
    assert |a| == |multiset(a)| == |multiset(b)| == |b|;
    if |a| > 0 {
      assert a[0] in multiset(b) && b[0] in multiset(a);
      SortedHeadIsMinimum(b, a[0]);
      SortedHeadIsMinimum(a, b[0]);
      var x := a[0];
      assert b[0] == x;
      var ta, tb := a[1..], b[1..];
      assert a == [x] + ta;
      assert b == [x] + tb;
      assert multiset(ta) == multiset(a) - multiset{x};
      assert multiset(tb) == multiset(b) - multiset{x};
      SortedTail(a);
      SortedTail(b);
      SortedUnique(ta, tb);
    }
  }

  /** Sorting depends only on the multiset of values: reordering the sample
      does not change its sort. */
  lemma SortPermutationInvariant(a: seq<real>, b: seq<real>)
    requires multiset(a) == multiset(b)
    ensures Sort(a) == Sort(b)
  {
    SortedUnique(Sort(a), Sort(b));
  }

  /** Sorting an already sorted sample returns it unchanged. */
  lemma SortOfSorted(s: seq<real>)
    requires Sorted(s)
    ensures Sort(s) == s
  {
    SortedUnique(Sort(s), s);
  }
}
