/** The two-sample quantile-quantile plot (ProdPA3.py lines 204-212): both
    samples sorted and paired by rank, with a reference line from the
    smallest to the largest value of either sample. */
module QQPlot {
  import opened Results
  import opened Sorting
  import opened Percentiles
  import opened QuantileSeries

  /** The scatter points and the end of the 45-degree reference line, which
      runs from (minVal, minVal) to (maxVal, maxVal). */
  datatype QQChart = QQChart(pairs: seq<(real, real)>, minVal: real, maxVal: real)

  /** First coordinates of the scatter points. */
  function Xs(pairs: seq<(real, real)>): (v: seq<real>)
    ensures |v| == |pairs|
    ensures forall i :: 0 <= i < |pairs| ==> v[i] == pairs[i].0
  {
    seq(|pairs|, i requires 0 <= i < |pairs| => pairs[i].0)
  }

  /** Second coordinates of the scatter points. */
  function Ys(pairs: seq<(real, real)>): (v: seq<real>)
    ensures |v| == |pairs|
    ensures forall i :: 0 <= i < |pairs| ==> v[i] == pairs[i].1
  {
    seq(|pairs|, i requires 0 <= i < |pairs| => pairs[i].1)
  }

  function Min(x: real, y: real): real { if x <= y then x else y }
  function Max(x: real, y: real): real { if x <= y then y else x }

  /** The scatter points: both samples sorted and paired by rank. Each
      coordinate sequence is a non-decreasing permutation of its sample. */
  function RankPairs(a: seq<real>, b: seq<real>): (pairs: seq<(real, real)>)
    requires |a| == |b|
    ensures |pairs| == |a|
    ensures Sorted(Xs(pairs)) && multiset(Xs(pairs)) == multiset(a)
    ensures Sorted(Ys(pairs)) && multiset(Ys(pairs)) == multiset(b)
  {
    var sa, sb := Sort(a), Sort(b);
    var pairs := seq(|a|, i requires 0 <= i < |a| => (sa[i], sb[i]));
    assert Xs(pairs) == sa && Ys(pairs) == sb;
    pairs
  }

  /** The reference line's ends: the smaller of the two sorted first
      elements and the larger of the two sorted last elements, that is the
      smallest and the largest value found in either sample. */
  function ReferenceLine(a: seq<real>, b: seq<real>): (line: (real, real))
    requires |a| > 0 && |b| > 0
    ensures line.0 <= line.1
    ensures (line.0 in a || line.0 in b) && IsLowerBound(line.0, a) && IsLowerBound(line.0, b)
    ensures (line.1 in a || line.1 in b) && IsUpperBound(line.1, a) && IsUpperBound(line.1, b)
  {
    SortFirstIsMinimum(a);
    SortFirstIsMinimum(b);
    SortLastIsMaximum(a);
    SortLastIsMaximum(b);
    assert Sort(a)[0] <= a[0] <= Sort(a)[|a| - 1];
    (Min(Sort(a)[0], Sort(b)[0]), Max(Sort(a)[|a| - 1], Sort(b)[|b| - 1]))
  }

  /** Every value of a permutation of a sample lies within any bounds of
      that sample. */
  lemma PermutationWithinBounds(v: seq<real>, s: seq<real>, lo: real, hi: real)
    requires multiset(v) == multiset(s)
    requires IsLowerBound(lo, s) && IsUpperBound(hi, s)
    ensures forall i :: 0 <= i < |v| ==> lo <= v[i] <= hi
  {
    forall i | 0 <= i < |v|
      ensures lo <= v[i] <= hi
    {
      assert v[i] in multiset(s);
      var k :| 0 <= k < |s| && s[k] == v[i];
    }
  }

  /** The Q-Q chart of two samples. The scatter refuses samples of
      different sizes; the reference line then refuses empty ones, whose
      first sorted element does not exist. On success the reference line
      spans every point. */
  function QQ(a: seq<real>, b: seq<real>): (r: Result<QQChart>)
    ensures |a| != |b| ==> r == Failure(LengthMismatch)
    ensures |a| == |b| == 0 ==> r == Failure(EmptyInput)
    ensures r.Success? <==> |a| == |b| > 0
    ensures r.Success? ==> r.value.pairs == RankPairs(a, b)
    ensures r.Success? ==> (r.value.minVal, r.value.maxVal) == ReferenceLine(a, b)
    ensures r.Success? ==> forall i :: 0 <= i < |r.value.pairs| ==>
      && r.value.minVal <= r.value.pairs[i].0 <= r.value.maxVal
      && r.value.minVal <= r.value.pairs[i].1 <= r.value.maxVal
  {
    if |a| != |b| then Failure(LengthMismatch)
    else if |a| == 0 then Failure(EmptyInput)
    else
      var pairs := RankPairs(a, b);
      var line := ReferenceLine(a, b);
      PermutationWithinBounds(Xs(pairs), a, line.0, line.1);
      PermutationWithinBounds(Ys(pairs), b, line.0, line.1);
      Success(QQChart(pairs, line.0, line.1))
  }

  /** The i-th point plots the two samples' percentiles at the same level,
      the i-th level of the 0..100 grid of the quantile plots. */
  lemma QQMatchesPercentiles(a: seq<real>, b: seq<real>, i: nat)
    requires |a| == |b| && i < |a|
    ensures QQ(a, b).Success?
    ensures Percentile(a, Linspace(|a|)[i]) == Success(QQ(a, b).value.pairs[i].0)
    ensures Percentile(b, Linspace(|b|)[i]) == Success(QQ(a, b).value.pairs[i].1)
  {
    SeriesOnPercentileCurve(a, i);
    SeriesOnPercentileCurve(b, i);
  }

  /** Two samples holding the same values put every point on the reference
      line: identical distributions give a Q-Q plot along the diagonal. */
  lemma SameDistributionOnDiagonal(a: seq<real>, b: seq<real>)
    requires multiset(a) == multiset(b) && |a| > 0
    ensures QQ(a, b).Success?
    ensures forall i :: 0 <= i < |QQ(a, b).value.pairs| ==> QQ(a, b).value.pairs[i].0 == QQ(a, b).value.pairs[i].1
  {
    SortPermutationInvariant(a, b);
  }
}
