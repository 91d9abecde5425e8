/** Quartile statistics and Tukey fences of one sample (ProdPA3.py lines
    50-55, recomputed on the trimmed sample at lines 63-65). */
module Quartiles {
  import opened Results
  import opened Sorting
  import opened Percentiles

  /** The record the script builds from `np.percentile` at 25, 50 and 75. */
  datatype QuartileStats = QuartileStats(
    q1: real,
    median: real,
    q3: real,
    iqr: real,
    lowerBound: real,
    upperBound: real)

  /** Tukey's multiplier: fences sit 1.5 interquartile ranges beyond the
      quartiles. */
  const FenceFactor: real := 1.5

  /** How the derived fields follow from the three quartiles. */
  predicate Derived(st: QuartileStats) {
    && st.iqr == st.q3 - st.q1
    && st.lowerBound == st.q1 - FenceFactor * st.iqr
    && st.upperBound == st.q3 + FenceFactor * st.iqr
  }

  /** The ordering every computed record satisfies: the fences enclose the
      quartiles and the spread is never negative. */
  predicate Ordered(st: QuartileStats) {
    && 0.0 <= st.iqr
    && st.lowerBound <= st.q1 <= st.median <= st.q3 <= st.upperBound
  }

  /** Quartiles, interquartile range and fences of a sample; an empty sample
      is refused by the first percentile call. */
  function Compute(data: seq<real>): (r: Result<QuartileStats>)
    ensures r.Success? <==> |data| > 0
    ensures r.Failure? ==> r.error == EmptyInput
    ensures r.Success? ==> Derived(r.value) && Ordered(r.value)
    ensures r.Success? ==> exists i :: 0 <= i < |data| && data[i] <= r.value.q1
    ensures r.Success? ==> exists j :: 0 <= j < |data| && r.value.q3 <= data[j]
  {
    match Percentile(data, 25.0)
    case Failure(e) => Failure(e)
    case Success(q1) =>
      var median := Percentile(data, 50.0).value;
      var q3 := Percentile(data, 75.0).value;
      PercentileMonotone(data, 25.0, 50.0);
      PercentileMonotone(data, 50.0, 75.0);
      var iqr := q3 - q1;
      Success(QuartileStats(q1, median, q3, iqr, q1 - FenceFactor * iqr, q3 + FenceFactor * iqr))
  }

  /** Proof step, not a property: unfolds `Compute` to the interpolants of
      the sorted sample at 25, 50 and 75. */
  lemma ComputeFromSorted(data: seq<real>)
    requires |data| > 0
    ensures Compute(data).value.q1 == Interpolate(Sort(data), 25.0)
    ensures Compute(data).value.median == Interpolate(Sort(data), 50.0)
    ensures Compute(data).value.q3 == Interpolate(Sort(data), 75.0)
  {
  }

  /** A one-element sample collapses every statistic onto that element:
      zero spread, and both fences at the element itself. */
  lemma ComputeSingleton(x: real)
    ensures Compute([x]) == Success(QuartileStats(x, x, x, 0.0, x, x))
  {
    assert Sort([x]) == [x];
    InterpolateAtIndex([x], 25.0, 0);
    InterpolateAtIndex([x], 50.0, 0);
    InterpolateAtIndex([x], 75.0, 0);
  }

  /** The three quartiles determine a record whose other fields are
      derived from them. */
  lemma DerivedFromQuartiles(x: QuartileStats, y: QuartileStats)
    requires Derived(x) && Derived(y)
    requires x.q1 == y.q1 && x.median == y.median && x.q3 == y.q3
    ensures x == y
  {
  }

  /** The statistics depend on the multiset of values only. */
  lemma ComputeOrderInvariant(a: seq<real>, b: seq<real>)
    requires multiset(a) == multiset(b)
    ensures Compute(a) == Compute(b)
  {
    SortPermutationInvariant(a, b);
    assert |a| == |multiset(a)| == |multiset(b)| == |b|;
    if |a| > 0 {
      ComputeFromSorted(a);
      ComputeFromSorted(b);
      var sa, sb := Compute(a).value, Compute(b).value;
      DerivedFromQuartiles(sa, sb);
    }
  }
}
