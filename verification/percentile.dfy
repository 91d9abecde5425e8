/** Linear-interpolation percentile, the default method of `np.percentile`
    as the script calls it for quartiles, quantile-plot markers and the
    interactive marker.

    For a sample sorted ascending, s[0..n), the p-th percentile sits at the
    fractional rank p/100·(n−1). With k the rank rounded down and g its
    fractional part, the result is s[k] + g·(s[k+1] − s[k]), where the upper
    neighbour index is clipped to n−1 (this only matters at p = 100). */
module Percentiles {
  import opened Results
  import opened Sorting

  /** Percentile levels numpy accepts; anything else raises an error. */
  predicate ValidLevel(p: real) {
    0.0 <= p <= 100.0
  }

  /** Fractional rank p/100·(n−1) of the p-th percentile among n sorted values. */
  function Rank(p: real, n: nat): real
    requires n > 0
  {
    p * ((n - 1) as real) / 100.0
  }

  /** A valid level puts the rank inside [0, n−1], and a higher level never
      lowers it. */
  lemma RankBounds(p: real, n: nat)
    requires n > 0 && ValidLevel(p)
    ensures 0.0 <= Rank(p, n) <= (n - 1) as real
  {
    var m := (n - 1) as real;
    assert 0.0 <= p * m by { assert 0.0 <= m; }
    assert p * m <= 100.0 * m by { assert (100.0 - p) * m >= 0.0; }
  }

  lemma RankMonotone(p1: real, p2: real, n: nat)
    requires n > 0 && p1 <= p2
    ensures Rank(p1, n) <= Rank(p2, n)
  {
    var m := (n - 1) as real;
    assert (p2 - p1) * m >= 0.0;
  }

  /** Index of the lower neighbour: the rank rounded down. */
  function Below(p: real, n: nat): (k: nat)
    requires n > 0 && ValidLevel(p)
    ensures k < n
    ensures k as real <= Rank(p, n) < k as real + 1.0
  {
    RankBounds(p, n);
    Rank(p, n).Floor
  }

  /** Index of the upper neighbour, clipped to the last element. */
  function Above(p: real, n: nat): (k: nat)
    requires n > 0 && ValidLevel(p)
    ensures k < n
    ensures k == Below(p, n) || k == Below(p, n) + 1
    ensures k == Below(p, n) ==> Rank(p, n) == k as real
  {
    RankBounds(p, n);
    if Below(p, n) + 1 < n then Below(p, n) + 1 else n - 1
  }

  /** The product of two non-negative reals is non-negative. */
  lemma ProductNonNegative(x: real, y: real)
    requires 0.0 <= x && 0.0 <= y
    ensures 0.0 <= x * y
  {
  }

  /** Linear interpolation from `a` (at g = 0) to `b` (at g = 1). */
  function Lerp(a: real, b: real, g: real): (r: real)
    ensures a <= b && 0.0 <= g <= 1.0 ==> a <= r <= b
  {
    var d := b - a;
    assert a <= b && 0.0 <= g <= 1.0 ==> 0.0 <= g * d <= d by {
      if a <= b && 0.0 <= g <= 1.0 {
        ProductNonNegative(g, d);
        ProductNonNegative(1.0 - g, d);
        assert (1.0 - g) * d == d - g * d;
      }
    }
    a + g * d
  }

  /** Lerp between two fixed end values grows with the fraction. */
  lemma LerpMonotone(a: real, b: real, g1: real, g2: real)
    requires a <= b && g1 <= g2
    ensures Lerp(a, b, g1) <= Lerp(a, b, g2)
  {
    var d := b - a;
    ProductNonNegative(g2 - g1, d);
    assert (g2 - g1) * d == g2 * d - g1 * d;
  }

  /** The p-th percentile of an already sorted, non-empty sample: it lies
      between the two sorted neighbours of its rank. */
  function Interpolate(s: seq<real>, p: real): (r: real)
    requires |s| > 0 && ValidLevel(p)
    ensures Sorted(s) ==> s[Below(p, |s|)] <= r <= s[Above(p, |s|)]
  {
    var lo := Below(p, |s|);
    var hi := Above(p, |s|);
    Lerp(s[lo], s[hi], Rank(p, |s|) - lo as real)
  }

  /** The 0th percentile of a sorted sample is its first (smallest) element,
      the 100th its last (largest). */
  lemma InterpolateEndpoints(s: seq<real>)
    requires |s| > 0
    ensures Interpolate(s, 0.0) == s[0]
    ensures Interpolate(s, 100.0) == s[|s| - 1]
  {
    assert Rank(0.0, |s|) == 0.0;
    assert Rank(100.0, |s|) == (|s| - 1) as real;
  }

  /** At a level whose rank is a whole index i, the percentile is exactly
      the i-th sorted element: no interpolation takes place. */
  lemma InterpolateAtIndex(s: seq<real>, p: real, i: nat)
    requires i < |s| && ValidLevel(p)
    requires Rank(p, |s|) == i as real
    ensures Interpolate(s, p) == s[i]
  {
    assert Below(p, |s|) == i;
  }

  /** At a level whose rank is k + g with 0 ≤ g < 1 and k + 1 inside the
      sample, the percentile moves the fraction g of the way from the k-th
      to the (k+1)-th sorted element. */
  lemma InterpolateBetween(s: seq<real>, p: real, k: nat, g: real)
    requires k + 1 < |s| && ValidLevel(p) && 0.0 <= g < 1.0
    requires Rank(p, |s|) == k as real + g
    ensures Interpolate(s, p) == s[k] + g * (s[k + 1] - s[k])
  {
    assert Below(p, |s|) == k;
  }

  /** A higher level never gives a smaller percentile of a sorted sample. */
  lemma {:induction false} InterpolateMonotone(s: seq<real>, p1: real, p2: real)
    requires Sorted(s) && |s| > 0
    requires ValidLevel(p1) && ValidLevel(p2) && p1 <= p2
    ensures Interpolate(s, p1) <= Interpolate(s, p2)
  {
    var n := |s|;
    RankMonotone(p1, p2, n);
    var lo1, lo2 := Below(p1, n), Below(p2, n);
    assert lo1 <= lo2;
    if lo1 == lo2 {
      var hi := Above(p1, n);
      assert hi == Above(p2, n);
      LerpMonotone(s[lo1], s[hi], Rank(p1, n) - lo1 as real, Rank(p2, n) - lo2 as real);
    } else {
      var hi1 := Above(p1, n);
      assert hi1 <= lo2;
      assert Interpolate(s, p1) <= s[hi1] <= s[lo2] <= Interpolate(s, p2);
    }
  }

  /** `np.percentile(data, p)`: the level is checked first, then the sample
      is sorted and interpolated. */
  function Percentile(data: seq<real>, p: real): (r: Result<real>)
    ensures !ValidLevel(p) ==> r == Failure(PercentileOutOfRange)
    ensures ValidLevel(p) && |data| == 0 ==> r == Failure(EmptyInput)
    ensures r.Success? <==> ValidLevel(p) && |data| > 0
    ensures r.Success? ==> exists i :: 0 <= i < |data| && data[i] <= r.value
    ensures r.Success? ==> exists j :: 0 <= j < |data| && r.value <= data[j]
    ensures r.Success? && p == 0.0 ==> r.value in data && IsLowerBound(r.value, data)
    ensures r.Success? && p == 100.0 ==> r.value in data && IsUpperBound(r.value, data)
  {
    if !ValidLevel(p) then Failure(PercentileOutOfRange)
    else if |data| == 0 then Failure(EmptyInput)
    else
      var s := Sort(data);
      var v := Interpolate(s, p);
      SortFirstIsMinimum(data);
      SortLastIsMaximum(data);
      InterpolateEndpoints(s);
      InterpolateMonotone(s, 0.0, p);
      InterpolateMonotone(s, p, 100.0);
      assert s[0] <= v <= s[|s| - 1];
      Success(v)
  }

  /** Percentile is non-decreasing in the level over [0, 100]: moving the
      interactive slider right never moves its marker down. */
  lemma PercentileMonotone(data: seq<real>, p1: real, p2: real)
    requires |data| > 0
    requires ValidLevel(p1) && ValidLevel(p2) && p1 <= p2
    ensures Percentile(data, p1).value <= Percentile(data, p2).value
  {
    InterpolateMonotone(Sort(data), p1, p2);
  }

  /** Percentile depends on the multiset of values only, not their order. */
  lemma PercentileOrderInvariant(a: seq<real>, b: seq<real>, p: real)
    requires multiset(a) == multiset(b)
    ensures Percentile(a, p) == Percentile(b, p)
  {
    assert |a| == |multiset(a)| == |multiset(b)| == |b|;
    SortPermutationInvariant(a, b);
  }
}
