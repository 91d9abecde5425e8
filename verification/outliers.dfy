/** Tukey outlier split of a sample (ProdPA3.py lines 58 and 62) and the
    statistics recomputed on what remains (lines 63-65). */
module OutlierFilter {
  import opened Results
  import opened Sorting
  import opened Percentiles
  import opened Quartiles

  /** Strictly outside the fences: a value equal to a fence is kept. */
  predicate IsOutlier(x: real, st: QuartileStats) {
    x < st.lowerBound || x > st.upperBound
  }

  /** Inside the closed interval between the fences. */
  predicate WithinFences(x: real, st: QuartileStats) {
    st.lowerBound <= x <= st.upperBound
  }

  /** The outlier list, in the order the values appear in the sample. */
  function Outliers(data: seq<real>, st: QuartileStats): (r: seq<real>)
    ensures forall i :: 0 <= i < |r| ==> IsOutlier(r[i], st)
    ensures |r| <= |data|
  {
    if |data| == 0 then []
    else (if IsOutlier(data[0], st) then [data[0]] else []) + Outliers(data[1..], st)
  }

  /** The sample with the outliers removed, order preserved. */
  function Trimmed(data: seq<real>, st: QuartileStats): (r: seq<real>)
    ensures forall i :: 0 <= i < |r| ==> WithinFences(r[i], st)
    ensures |r| <= |data|
  {
    if |data| == 0 then []
    else (if WithinFences(data[0], st) then [data[0]] else []) + Trimmed(data[1..], st)
  }

  /** Each outlying value appears in the outlier list exactly as often as in
      the sample, and nothing else gets in. */
  lemma {:induction false} OutliersCount(data: seq<real>, st: QuartileStats)
    ensures forall x :: multiset(Outliers(data, st))[x] == if IsOutlier(x, st) then multiset(data)[x] else 0
  {
    if |data| > 0 {
      OutliersCount(data[1..], st);
      assert data == [data[0]] + data[1..];
    }
  }

  /** Each value within the fences appears in the trimmed sample exactly as
      often as in the sample, and nothing else gets in. */
  lemma {:induction false} TrimmedCount(data: seq<real>, st: QuartileStats)
    ensures forall x :: multiset(Trimmed(data, st))[x] == if WithinFences(x, st) then multiset(data)[x] else 0
  {
    if |data| > 0 {
      TrimmedCount(data[1..], st);
      assert data == [data[0]] + data[1..];
    }
  }

  /** The outlier list and the trimmed sample partition the data: together
      they hold every value exactly as often as the sample does, and each
      value lands in exactly one of them. */
  lemma Partition(data: seq<real>, st: QuartileStats)
    ensures multiset(Outliers(data, st)) + multiset(Trimmed(data, st)) == multiset(data)
    ensures |Outliers(data, st)| + |Trimmed(data, st)| == |data|
    ensures forall x :: x in data ==> (x in Outliers(data, st) <==> x !in Trimmed(data, st))
  {
    OutliersCount(data, st);
    TrimmedCount(data, st);
    var out, kept := multiset(Outliers(data, st)), multiset(Trimmed(data, st));
    forall x
      ensures (out + kept)[x] == multiset(data)[x]
    {
      assert out[x] == if IsOutlier(x, st) then multiset(data)[x] else 0;
      assert kept[x] == if WithinFences(x, st) then multiset(data)[x] else 0;
    }
    assert out + kept == multiset(data);
    assert |out + kept| == |out| + |kept|;
    forall x | x in data
      ensures x in Outliers(data, st) <==> x !in Trimmed(data, st)
    {
      assert multiset(data)[x] > 0;
      assert x in Outliers(data, st) <==> out[x] > 0;
      assert x in Trimmed(data, st) <==> kept[x] > 0;
    }
  }

  /** Filtering distributes over concatenation: the outlier list of a
      sample is the outlier list of its first part followed by that of the
      rest, so the original relative order is kept. */
  lemma {:induction false} OutliersConcat(a: seq<real>, b: seq<real>, st: QuartileStats)
    ensures Outliers(a + b, st) == Outliers(a, st) + Outliers(b, st)
  {
    if |a| > 0 {
      assert (a + b)[1..] == a[1..] + b;
      OutliersConcat(a[1..], b, st);
    } else {
      assert a + b == b;
    }
  }

  /** The same order-preservation for the trimmed sample. */
  lemma {:induction false} TrimmedConcat(a: seq<real>, b: seq<real>, st: QuartileStats)
    ensures Trimmed(a + b, st) == Trimmed(a, st) + Trimmed(b, st)
  {
    if |a| > 0 {
      assert (a + b)[1..] == a[1..] + b;
      TrimmedConcat(a[1..], b, st);
    } else {
      assert a + b == b;
    }
  }

  /** A sample lying entirely within the fences is left untouched by the
      trim and has no outliers. */
  lemma {:induction false} AllWithinFences(data: seq<real>, st: QuartileStats)
    requires forall i :: 0 <= i < |data| ==> WithinFences(data[i], st)
    ensures Trimmed(data, st) == data
    ensures Outliers(data, st) == []
  {
    if |data| > 0 {
      AllWithinFences(data[1..], st);
    }
  }

  /** A sample lying entirely outside the fences is all outliers, and
      trimming it leaves nothing. */
  lemma {:induction false} AllOutliers(data: seq<real>, st: QuartileStats)
    requires forall i :: 0 <= i < |data| ==> IsOutlier(data[i], st)
    ensures Outliers(data, st) == data
    ensures Trimmed(data, st) == []
  {
    if |data| > 0 {
      AllOutliers(data[1..], st);
    }
  }

  /** A sample whose first k values lie within the fences and whose
      remaining values are outliers keeps exactly its first k values when
      trimmed. */
  lemma TrimmedSplitAt(data: seq<real>, st: QuartileStats, k: nat)
    requires k <= |data|
    requires forall i :: 0 <= i < k ==> WithinFences(data[i], st)
    requires forall i :: k <= i < |data| ==> IsOutlier(data[i], st)
    ensures Trimmed(data, st) == data[..k]
  {
    var head, tail := data[..k], data[k..];
    assert head + tail == data;
    AllWithinFences(head, st);
    AllOutliers(tail, st);
    TrimmedConcat(head, tail, st);
    assert head + [] == head;
  }

  /** Under the same conditions the outliers are exactly the values from
      index k on. */
  lemma OutliersSplitAt(data: seq<real>, st: QuartileStats, k: nat)
    requires k <= |data|
    requires forall i :: 0 <= i < k ==> WithinFences(data[i], st)
    requires forall i :: k <= i < |data| ==> IsOutlier(data[i], st)
    ensures Outliers(data, st) == data[k..]
  {
    var head, tail := data[..k], data[k..];
    assert head + tail == data;
    AllWithinFences(head, st);
    AllOutliers(tail, st);
    OutliersConcat(head, tail, st);
    assert [] + tail == tail;
  }

  /** In a sorted sample of at least three values, the lower neighbour of
      the 75th percentile lies between the 25th and the 75th percentiles:
      the two ranks are at least one index apart. */
  lemma ElementBetweenQuartiles(s: seq<real>) returns (k: nat)
    requires Sorted(s) && |s| >= 3
    ensures k < |s|
    ensures Interpolate(s, 25.0) <= s[k] <= Interpolate(s, 75.0)
  {
    var n := |s|;
    var i, j := Below(25.0, n), Below(75.0, n);
    assert Rank(75.0, n) - Rank(25.0, n) >= 1.0;
    assert i + 1 <= j;
    assert Above(25.0, n) == i + 1;
    assert s[i + 1] <= s[j];
    k := j;
  }

  /** In a sorted sample of one or two values, the smallest lies within the
      fences computed from the 25th and 75th percentiles. */
  lemma SmallestWithinFences(s: seq<real>)
    requires Sorted(s) && 1 <= |s| <= 2
    ensures var q1, q3 := Interpolate(s, 25.0), Interpolate(s, 75.0);
      q1 - FenceFactor * (q3 - q1) <= s[0] <= q3 + FenceFactor * (q3 - q1)
  {
    if |s| == 1 {
      InterpolateAtIndex(s, 25.0, 0);
      InterpolateAtIndex(s, 75.0, 0);
    } else {
      assert Rank(25.0, 2) == 0.25 && Rank(75.0, 2) == 0.75;
      InterpolateBetween(s, 25.0, 0, 0.25);
      InterpolateBetween(s, 75.0, 0, 0.75);
      assert s[0] <= s[1];
    }
  }

  /** For a non-empty sample some value lies within its own fences. */
  lemma FencesHoldAnElement(data: seq<real>) returns (w: nat)
    requires |data| > 0
    ensures w < |data| && WithinFences(data[w], Compute(data).value)
  {
    var s := Sort(data);
    var st := Compute(data).value;
    ComputeFromSorted(data);
    var k: nat := 0;
    if |s| <= 2 {
      SmallestWithinFences(s);
    } else {
      k := ElementBetweenQuartiles(s);
    }
    assert WithinFences(s[k], st);
    assert s[k] in multiset(data);
    w :| 0 <= w < |data| && data[w] == s[k];
  }

  /** The trimmed sample of a non-empty sample under its own statistics is
      non-empty, so recomputing quartiles on it cannot fail. */
  lemma TrimmedNonEmpty(data: seq<real>)
    requires |data| > 0
    ensures |Trimmed(data, Compute(data).value)| > 0
  {
    var w := FencesHoldAnElement(data);
    var st := Compute(data).value;
    TrimmedCount(data, st);
    assert multiset(Trimmed(data, st))[data[w]] == multiset(data)[data[w]] > 0;
  }

  /** Everything the boxplot section reports: the original statistics, the
      outliers, the trimmed sample and its recomputed statistics. */
  datatype OutlierReport = OutlierReport(
    stats: QuartileStats,
    outliers: seq<real>,
    trimmed: seq<real>,
    trimmedStats: QuartileStats)

  /** The boxplot analysis: quartiles and fences of the sample, the split
      into outliers and trimmed sample, and the quartiles of the trimmed
      sample. Only an empty sample fails; the recomputation never does. */
  function Analyze(data: seq<real>): (r: Result<OutlierReport>)
    ensures r.Success? <==> |data| > 0
    ensures r.Failure? ==> r.error == EmptyInput
    ensures r.Success? ==> Ordered(r.value.stats) && Ordered(r.value.trimmedStats)
    ensures r.Success? ==> |r.value.outliers| + |r.value.trimmed| == |data|
    ensures r.Success? ==> multiset(r.value.outliers) + multiset(r.value.trimmed) == multiset(data)
    ensures r.Success? ==> |r.value.trimmed| > 0
    ensures r.Success? ==> forall i :: 0 <= i < |r.value.outliers| ==> IsOutlier(r.value.outliers[i], r.value.stats)
    ensures r.Success? ==> forall i :: 0 <= i < |r.value.trimmed| ==> WithinFences(r.value.trimmed[i], r.value.stats)
  {
    match Compute(data)
    case Failure(e) => Failure(e)
    case Success(st) =>
      var out := Outliers(data, st);
      var kept := Trimmed(data, st);
      Partition(data, st);
      TrimmedNonEmpty(data);
      match Compute(kept)
      case Failure(e) => Failure(e)
      case Success(st2) => Success(OutlierReport(st, out, kept, st2))
  }

  /** Proof step, not a property: unfolds the report of a non-empty sample
      field by field, so callers can reason about each field separately. */
  lemma AnalyzeFields(data: seq<real>)
    requires |data| > 0
    ensures Analyze(data).Success?
    ensures Analyze(data).value.stats == Compute(data).value
    ensures Analyze(data).value.outliers == Outliers(data, Compute(data).value)
    ensures Analyze(data).value.trimmed == Trimmed(data, Compute(data).value)
    ensures Analyze(data).value.trimmedStats == Compute(Trimmed(data, Compute(data).value)).value
  {
  }
}
