/** The two salary samples the script loads (ProdPA3.py lines 14-15) and
    what the statistics core yields on them. */
module SalaryData {
  import opened Results
  import opened Sorting
  import opened Percentiles
  import opened Quartiles
  import opened OutlierFilter

  /** Dataset 1 (line 14), written in runs of eight values so that each
      index is a short lookup. */
  const Data1: seq<real> :=
    [45.0, 50.0, 52.0, 55.0, 60.0, 62.0, 65.0, 67.0] +
    [70.0, 72.0, 75.0, 78.0, 80.0, 85.0, 88.0, 90.0] +
    [95.0, 100.0, 105.0, 110.0, 120.0, 125.0, 130.0, 140.0] +
    [150.0, 160.0, 170.0, 180.0, 200.0, 220.0, 400.0, 500.0]

  /** Each value is no larger than its successor, checked pair by pair. */
  predicate StepwiseSorted(s: seq<real>) {
    |s| < 2 || (s[0] <= s[1] && StepwiseSorted(s[1..]))
  }

  /** Checking neighbours suffices for the whole order. */
  lemma {:induction false} SortedFromStepwise(s: seq<real>)
    requires StepwiseSorted(s)
    ensures Sorted(s)
  {
    if |s| > 1 {
      SortedFromStepwise(s[1..]);
      SortedCons(s[0], s[1..]);
      assert s == [s[0]] + s[1..];
    }
  }

  /** Two adjacent sorted slices, the first ending no higher than the
      second starts, form one sorted slice. */
  lemma SortedJoin(s: seq<real>, i: nat, j: nat, m: nat)
    requires i < j < m <= |s|
    requires Sorted(s[i..j]) && Sorted(s[j..m]) && s[j - 1] <= s[j]
    ensures Sorted(s[i..m])
  {
    forall a, b | i <= a <= b < m
      ensures s[a] <= s[b]
    {
      if b < j {
        assert s[i..j][a - i] <= s[i..j][b - i];
      } else if j <= a {
        assert s[j..m][a - j] <= s[j..m][b - j];
      } else {
        assert s[i..j][a - i] <= s[i..j][j - 1 - i];
        assert s[j..m][0] <= s[j..m][b - j];
      }
    }
  }

  /** A run of eight values, starting at index k, whose neighbours are in
      order is sorted; the intermediate suffixes keep each unfolding of
      `StepwiseSorted` short. */
  lemma SortedRunOfEight(s: seq<real>, k: nat)
    requires k + 8 <= |s|
    requires s[k] <= s[k + 1] <= s[k + 2] <= s[k + 3] <= s[k + 4] <= s[k + 5] <= s[k + 6] <= s[k + 7]
    ensures Sorted(s[k..k + 8])
  {
    var r := s[k..k + 8];
    assert StepwiseSorted(r[6..]);
    assert StepwiseSorted(r[4..]);
    assert StepwiseSorted(r[2..]);
    SortedFromStepwise(r);
  }

  /** The lower half of dataset 1 is sorted: two runs of eight that meet
      in order. */
  lemma Data1LowerHalfSorted()
    ensures Sorted(Data1[0..16])
  {
    SortedRunOfEight(Data1, 0);
    SortedRunOfEight(Data1, 8);
    SortedJoin(Data1, 0, 8, 16);
  }

  /** The upper half of dataset 1 is sorted likewise. */
  lemma Data1UpperHalfSorted()
    ensures Sorted(Data1[16..32])
  {
    SortedRunOfEight(Data1, 16);
    SortedRunOfEight(Data1, 24);
    SortedJoin(Data1, 16, 24, 32);
  }

  /** Dataset 1 is loaded already in ascending order. */
  lemma Data1Sorted()
    ensures Sorted(Data1)
  {
    Data1LowerHalfSorted();
    Data1UpperHalfSorted();
    SortedJoin(Data1, 0, 16, 32);
    assert Data1[0..32] == Data1;
  }

  /** The three interpolated quartiles of the sorted dataset 1. */
  lemma Data1Quartiles()
    ensures Interpolate(Data1, 25.0) == 69.25
    ensures Interpolate(Data1, 50.0) == 92.5
    ensures Interpolate(Data1, 75.0) == 142.5
  {
    InterpolateBetween(Data1, 25.0, 7, 0.75);
    InterpolateBetween(Data1, 50.0, 15, 0.5);
    InterpolateBetween(Data1, 75.0, 23, 0.25);
  }

  /** Quartiles and fences of dataset 1. */
  lemma Data1Stats()
    ensures Compute(Data1) == Success(QuartileStats(69.25, 92.5, 142.5, 73.25, -40.625, 252.375))
  {
    Data1Sorted();
    SortOfSorted(Data1);
    ComputeFromSorted(Data1);
    Data1Quartiles();
  }

  /** The three interpolated quartiles of dataset 1 without its outliers. */
  lemma Data1TrimmedQuartiles()
    ensures Interpolate(Data1[..30], 25.0) == 67.75
    ensures Interpolate(Data1[..30], 50.0) == 89.0
    ensures Interpolate(Data1[..30], 75.0) == 128.75
  {
    var head := Data1[..30];
    InterpolateBetween(head, 25.0, 7, 0.25);
    InterpolateBetween(head, 50.0, 14, 0.5);
    InterpolateBetween(head, 75.0, 21, 0.75);
  }

  /** Quartiles and fences of dataset 1 without its two outliers. */
  lemma Data1TrimmedStats()
    ensures Compute(Data1[..30]) == Success(QuartileStats(67.75, 89.0, 128.75, 61.0, -23.75, 220.25))
  {
    var head := Data1[..30];
    Data1Sorted();
    assert Sorted(head);
    SortOfSorted(head);
    ComputeFromSorted(head);
    Data1TrimmedQuartiles();
  }

  /** A sorted sample whose first k values lie within the fences and whose
      k-th value lies above the upper fence: every value before index k is
      within the fences, every value from index k on is an outlier. */
  lemma SortedSplitsAt(s: seq<real>, st: QuartileStats, k: nat)
    requires Sorted(s) && 0 < k <= |s|
    requires WithinFences(s[0], st) && WithinFences(s[k - 1], st)
    requires k < |s| ==> s[k] > st.upperBound
    ensures forall i :: 0 <= i < k ==> WithinFences(s[i], st)
    ensures forall i :: k <= i < |s| ==> IsOutlier(s[i], st)
  {
    forall i | 0 <= i < k
      ensures WithinFences(s[i], st)
    {
      assert s[0] <= s[i] <= s[k - 1];
    }
    forall i | k <= i < |s|
      ensures IsOutlier(s[i], st)
    {
      assert s[k] <= s[i];
    }
  }

  /** The split of dataset 1 by its own fences: the top two values are the
      outliers, the first thirty are kept. */
  lemma Data1Split(st: QuartileStats)
    requires st.lowerBound == -40.625 && st.upperBound == 252.375
    ensures Outliers(Data1, st) == [400.0, 500.0]
    ensures Trimmed(Data1, st) == Data1[..30]
  {
    assert (forall i :: 0 <= i < 30 ==> WithinFences(Data1[i], st))
        && (forall i :: 30 <= i < |Data1| ==> IsOutlier(Data1[i], st)) by {
      Data1Sorted();
      assert Data1[0] == 45.0 && Data1[29] == 220.0 && Data1[30] == 400.0;
      SortedSplitsAt(Data1, st, 30);
    }
    TrimmedSplitAt(Data1, st, 30);
    OutliersSplitAt(Data1, st, 30);
    Data1Top();
  }

  /** The last two values of dataset 1. */
  lemma Data1Top()
    ensures Data1[30..] == [400.0, 500.0]
  {
    var top := Data1[30..];
    assert |top| == 2 && top[0] == 400.0 && top[1] == 500.0;
  }

  /** Dataset 1 end to end: outliers 400 and 500, and a trimmed sample of 30
      values whose statistics are recomputed. */
  lemma Data1Analysis()
    ensures Analyze(Data1).Success?
    ensures Analyze(Data1).value.stats == QuartileStats(69.25, 92.5, 142.5, 73.25, -40.625, 252.375)
    ensures Analyze(Data1).value.outliers == [400.0, 500.0]
    ensures |Analyze(Data1).value.trimmed| == 30
    ensures Analyze(Data1).value.trimmedStats == QuartileStats(67.75, 89.0, 128.75, 61.0, -23.75, 220.25)
  {
    Data1Stats();
    var st := Compute(Data1).value;
    Data1Split(st);
    Data1TrimmedStats();
    AnalyzeFields(Data1);
  }
}
