/** The quantile-plot series (ProdPA3.py lines 117-119 and 142-144): the
    sorted sample plotted against `np.linspace(0, 100, n)`, together with
    the percentile markers drawn on the same axes (lines 129-131 and
    170-171). */
module QuantileSeries {
  import opened Results
  import opened Sorting
  import opened Percentiles

  /** One plotted point: a percentile level and the sorted value at it. */
  datatype QuantilePoint = QuantilePoint(percentile: real, value: real)

  /** `np.linspace(0, 100, n)`: n levels evenly spaced from 0 to 100, with
      the step 100/(n−1); a single level is 0 and no levels for n = 0. */
  function Linspace(n: nat): (g: seq<real>)
    ensures |g| == n
    ensures n >= 1 ==> g[0] == 0.0
    ensures n >= 2 ==> g[n - 1] == 100.0
    ensures n >= 2 ==> forall i :: 0 <= i < n - 1 ==> g[i + 1] - g[i] == 100.0 / (n - 1) as real
    ensures forall i :: 0 <= i < n ==> ValidLevel(g[i])
  {
    if n <= 1 then seq(n, i => 0.0)
    else
      var step := 100.0 / (n - 1) as real;
      assert step * (n - 1) as real == 100.0;
      var g := seq(n, i requires 0 <= i < n => i as real * step);
      assert forall i :: 0 <= i < n ==> 0.0 <= g[i] <= 100.0 by {
        forall i | 0 <= i < n
          ensures 0.0 <= g[i] <= 100.0
        {
          assert g[i] == i as real * step;
          assert ((n - 1) - i) as real * step >= 0.0;
        }
      }
      g
  }

  /** For n ≥ 2 the grid is strictly increasing. */
  lemma {:induction false} LinspaceStrictlyIncreasing(n: nat, i: nat, j: nat)
    requires i < j < n
    ensures Linspace(n)[i] < Linspace(n)[j]
    decreases j - i
  {
    var g := Linspace(n);
    assert g[i + 1] - g[i] == 100.0 / (n - 1) as real > 0.0;
    if i + 1 < j {
      LinspaceStrictlyIncreasing(n, i + 1, j);
    }
  }

  /** The i-th grid level has fractional rank exactly i, so interpolation at
      that level returns the i-th sorted element itself. */
  lemma LinspaceRank(n: nat, i: nat)
    requires i < n
    ensures Rank(Linspace(n)[i], n) == i as real
  {
    if n >= 2 {
      var step := 100.0 / (n - 1) as real;
      assert step * (n - 1) as real == 100.0;
      assert Linspace(n)[i] == i as real * step;
    }
  }

  /** The whole grid is strictly increasing. */
  lemma LinspaceIncreasing(n: nat)
    ensures forall i, j :: 0 <= i < j < n ==> Linspace(n)[i] < Linspace(n)[j]
  {
    forall i, j | 0 <= i < j < n
      ensures Linspace(n)[i] < Linspace(n)[j]
    {
      LinspaceStrictlyIncreasing(n, i, j);
    }
  }

  /** Levels and values zipped into points. */
  function Pair(g: seq<real>, s: seq<real>): (r: seq<QuantilePoint>)
    requires |g| == |s|
    ensures |r| == |s|
    ensures forall i :: 0 <= i < |r| ==> r[i].percentile == g[i] && r[i].value == s[i]
    ensures Values(r) == s
  {
    var r := seq(|s|, i requires 0 <= i < |s| => QuantilePoint(g[i], s[i]));
    assert Values(r) == s;
    r
  }

  /** The plotted values, in order. */
  function Values(pts: seq<QuantilePoint>): (v: seq<real>)
    ensures |v| == |pts|
    ensures forall i :: 0 <= i < |pts| ==> v[i] == pts[i].value
  {
    seq(|pts|, i requires 0 <= i < |pts| => pts[i].value)
  }

  /** The quantile-plot series of a sample: its n values in ascending order,
      each paired with the next level of the 0..100 grid. The values are a
      non-decreasing permutation of the sample, running from its minimum
      to its maximum. */
  function Series(data: seq<real>): (r: seq<QuantilePoint>)
    ensures |r| == |data|
    ensures Sorted(Values(r))
    ensures multiset(Values(r)) == multiset(data)
    ensures |r| > 0 ==> r[0].value in data && IsLowerBound(r[0].value, data)
    ensures |r| > 0 ==> r[|r| - 1].value in data && IsUpperBound(r[|r| - 1].value, data)
    ensures |r| > 0 ==> r[0].percentile == 0.0
    ensures |r| > 1 ==> r[|r| - 1].percentile == 100.0
    ensures forall i, j :: 0 <= i < j < |r| ==> r[i].percentile < r[j].percentile
    ensures forall i :: 0 <= i < |r| ==> r[i].percentile == Linspace(|data|)[i]
    ensures forall i :: 0 <= i < |r| ==> r[i].value == Sort(data)[i]
  {
    var s := Sort(data);
    assert |s| > 0 ==> s[0] in data && IsLowerBound(s[0], data) && s[|s| - 1] in data && IsUpperBound(s[|s| - 1], data) by {
      if |data| > 0 {
        SortFirstIsMinimum(data);
        SortLastIsMaximum(data);
      }
    }
    LinspaceIncreasing(|data|);
    Pair(Linspace(|data|), s)
  }

  /** Every plotted point lies on the percentile curve: the value drawn at
      level g is exactly `np.percentile(data, g)`. */
  lemma SeriesOnPercentileCurve(data: seq<real>, i: nat)
    requires i < |data|
    ensures Percentile(data, Series(data)[i].percentile) == Success(Series(data)[i].value)
  {
    var n := |data|;
    var g := Linspace(n);
    assert Series(data)[i] == QuantilePoint(g[i], Sort(data)[i]);
    LinspaceRank(n, i);
    InterpolateAtIndex(Sort(data), g[i], i);
  }

  /** A horizontal marker at any percentile level (the quartile markers or
      the interactive one) falls within the vertical extent of the plotted
      series. */
  lemma MarkerWithinSeries(data: seq<real>, p: real)
    requires |data| > 0 && ValidLevel(p)
    ensures Series(data)[0].value <= Percentile(data, p).value <= Series(data)[|data| - 1].value
  {
    var r := Series(data);
    var v := Percentile(data, p).value;
    var i :| 0 <= i < |data| && data[i] <= v;
    var j :| 0 <= j < |data| && v <= data[j];
  }
}
