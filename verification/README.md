# Salary statistics core of DataMiningPA3, in Dafny

`ProdPA3.py` is a Streamlit dashboard over two fixed salary samples. Around
its charts sits a small descriptive-statistics layer, and this project
models that layer as pure functions over `seq<real>`:

- **Percentile** (`percentile.dfy`): `np.percentile` with numpy's default
  linear method. For a sample sorted ascending, the p-th percentile sits at
  the fractional rank p/100·(n−1). The result is interpolated between the
  sorted neighbours of that rank, and the upper neighbour is clipped to the
  last element. A level outside [0, 100] and an empty sample are errors.
- **Quartiles and Tukey fences** (`quartiles.dfy`): Q1, median and Q3 are
  the 25th, 50th and 75th percentiles, with IQR = Q3 − Q1 and fences
  Q1 − 1.5·IQR and Q3 + 1.5·IQR.
- **Outlier split** (`outliers.dfy`): the outliers are the values strictly
  outside the fences. The trimmed sample is the values inside the closed
  interval. The quartiles are then recomputed on the trimmed sample.
- **Quantile-plot series** (`quantile_series.dfy`): the sorted sample
  paired with `np.linspace(0, 100, n)`, plus the quartile and interactive
  percentile markers drawn over it.
- **Two-sample Q-Q plot** (`qq_plot.dfy`): both samples sorted and paired
  by rank, with a 45-degree reference line from the smallest to the largest
  value of either sample.
- **Sorting** (`sorting.dfy`): `np.sort` as a sorted permutation. It is
  unique, so numpy's algorithm and the one modelled here agree.
- **The script's dataset 1** (`salary_data.dfy`): the full boxplot
  analysis worked out on the loaded values.

Arithmetic is exact (`real`). The script's exceptions become `Result`
values (`results.dfy`). `np.percentile` checks the level before it looks
at the data. The Q-Q scatter rejects samples of different sizes (line 209)
before the reference line indexes the first sorted element (line 210). The
model keeps both of these orders.

On dataset 1 the code gives Q1 = 69.25, median = 92.5 and Q3 = 142.5, with
fences −40.625 and 252.375. The outliers are 400 and 500, and 30 values
remain. The trimmed quartiles are 67.75, 89 and 128.75 (`Data1Analysis`).

## Model

| member | source | states |
|---|---|---|
| Sorting.Sort | ProdPA3.py:119 | `np.sort` returns a non-decreasing permutation of the sample: same length, same multiset |
| Sorting.SortedUnique | ProdPA3.py:204-205 | two sorted sequences with the same multiset are equal, so every correct sort gives the same result |
| Sorting.SortPermutationInvariant | ProdPA3.py:204-205 | reordering a sample does not change its sort |
| Sorting.SortFirstIsMinimum | ProdPA3.py:210 | `sorted[0]` is a value of the sample and no larger than any of its values |
| Sorting.SortLastIsMaximum | ProdPA3.py:211 | `sorted[-1]` is a value of the sample and no smaller than any of its values |
| Percentiles.Interpolate | ProdPA3.py:50-52 | on a sorted sample, the percentile lies between the sorted neighbours of its rank p/100·(n−1) |
| Percentiles.InterpolateEndpoints | ProdPA3.py:167-171 | levels 0 and 100 give the first and last sorted values exactly |
| Percentiles.InterpolateBetween | ProdPA3.py:50-52 | at rank k + g (0 ≤ g < 1) the percentile is s[k] + g·(s[k+1] − s[k]), the linear method |
| Percentiles.InterpolateMonotone | ProdPA3.py:167-171 | on a sorted sample, a higher level never gives a smaller percentile |
| Percentiles.Percentile | ProdPA3.py:170-171 | a level outside [0, 100] fails first, then an empty sample fails; otherwise the result lies within the sample's range, and levels 0 and 100 give its minimum and maximum |
| Percentiles.PercentileMonotone | ProdPA3.py:167-171 | over the slider range [0, 100] the marker value is non-decreasing in the level |
| Percentiles.PercentileOrderInvariant | ProdPA3.py:50-52 | the percentile depends only on the multiset of sample values |
| Quartiles.Compute | ProdPA3.py:50-55 | an empty sample fails; otherwise IQR = Q3 − Q1, the fences are 1.5·IQR beyond the quartiles, and lower ≤ Q1 ≤ median ≤ Q3 ≤ upper with IQR ≥ 0 |
| Quartiles.ComputeSingleton | ProdPA3.py:50-55 | a one-value sample gives Q1 = median = Q3 = the value, IQR 0, and both fences at the value |
| Quartiles.ComputeOrderInvariant | ProdPA3.py:50-55 | the statistics depend only on the multiset of sample values |
| OutlierFilter.Outliers | ProdPA3.py:58 | every listed value lies strictly outside the fences, and the list is no longer than the sample |
| OutlierFilter.Trimmed | ProdPA3.py:62 | every kept value lies within the closed fence interval, and the trimmed sample is no longer than the sample |
| OutlierFilter.OutliersCount | ProdPA3.py:58 | the outlier list holds each value strictly outside the fences exactly as often as it occurs in the sample, and nothing else |
| OutlierFilter.TrimmedCount | ProdPA3.py:62 | the trimmed sample holds each value within the closed fence interval exactly as often as it occurs in the sample, and nothing else |
| OutlierFilter.Partition | ProdPA3.py:58-62 | outliers and trimmed sample together have the sample's multiset and length, and each value lands in exactly one of them |
| OutlierFilter.OutliersConcat | ProdPA3.py:58 | the outlier list of a + b is that of a followed by that of b, so the original order is kept |
| OutlierFilter.TrimmedConcat | ProdPA3.py:62 | the trimmed sample of a + b is that of a followed by that of b, so the original order is kept |
| OutlierFilter.AllWithinFences | ProdPA3.py:62 | a sample entirely within the fences is unchanged by trimming and has no outliers |
| OutlierFilter.AllOutliers | ProdPA3.py:58 | a sample entirely outside the fences is all outliers, and trimming leaves nothing |
| OutlierFilter.TrimmedSplitAt | ProdPA3.py:62 | if the first k values lie within the fences and the rest outside, trimming keeps exactly the first k |
| OutlierFilter.OutliersSplitAt | ProdPA3.py:58 | under the same condition the outliers are exactly the values from index k on, in sample order |
| OutlierFilter.FencesHoldAnElement | ProdPA3.py:53-55 | every non-empty sample has a value within its own fences |
| OutlierFilter.TrimmedNonEmpty | ProdPA3.py:62-65 | the trimmed sample of a non-empty sample is non-empty, so the recomputed percentiles cannot fail |
| OutlierFilter.Analyze | ProdPA3.py:50-65 | only an empty sample fails; both sets of statistics are ordered; outliers and trimmed sample partition the sample; the trimmed sample is non-empty |
| QuantileSeries.Linspace | ProdPA3.py:118 | n levels from 0 to 100 with equal steps of 100/(n−1), all valid percentile levels; one level is 0 |
| QuantileSeries.LinspaceStrictlyIncreasing | ProdPA3.py:118 | the grid levels strictly increase |
| QuantileSeries.Series | ProdPA3.py:117-120 | n points; point i sits at level `linspace(0, 100, n)[i]` and holds the i-th sorted value; the values are a non-decreasing permutation of the sample, from its minimum to its maximum, at levels from 0 to 100 in strictly increasing order |
| QuantileSeries.SeriesOnPercentileCurve | ProdPA3.py:117-131 | each plotted point (g, v) satisfies `np.percentile(data, g) == v` |
| QuantileSeries.MarkerWithinSeries | ProdPA3.py:128-134 | a horizontal marker at any valid level lies between the lowest and highest plotted values |
| QQPlot.RankPairs | ProdPA3.py:204-209 | the scatter has n points; the first coordinates are a non-decreasing permutation of sample 1 and the second of sample 2 |
| QQPlot.ReferenceLine | ProdPA3.py:210-211 | `min_val ≤ max_val`; `min_val` is a value of one of the samples and no larger than any value of either; `max_val` likewise for the largest |
| QQPlot.QQ | ProdPA3.py:204-212 | different sizes fail with a length mismatch, then empty samples fail; otherwise every point lies within the reference line's span on both axes |
| QQPlot.QQMatchesPercentiles | ProdPA3.py:203-209 | the i-th point pairs the two samples' percentiles at the i-th level of the quantile-plot grid |
| QQPlot.SameDistributionOnDiagonal | ProdPA3.py:209-212 | two samples with the same values put every point on the reference line x = y |
| SalaryData.Data1Stats | ProdPA3.py:50-55 | dataset 1 gives Q1 69.25, median 92.5, Q3 142.5, IQR 73.25 and fences −40.625 and 252.375 |
| SalaryData.Data1Split | ProdPA3.py:58-62 | under those fences, dataset 1's outliers are [400, 500] and its trimmed sample is its first 30 values |
| SalaryData.Data1TrimmedStats | ProdPA3.py:63-65 | the trimmed dataset 1 gives Q1 67.75, median 89 and Q3 128.75 |
| SalaryData.Data1Analysis | ProdPA3.py:14-65 | the whole boxplot analysis of dataset 1 end to end |

## Left out

- Streamlit calls (`st.title`, `st.header`, `st.markdown`, `st.slider`, `st.radio`, `st.checkbox`, `st.empty`, `st.pyplot`): widget I/O and presentation. The slider and checkbox values become ordinary parameters (the level `p`).
- matplotlib rendering (histogram, boxplots, scatter, `axvline`/`axhline`, legends): plotting calls with no checkable output. The vertical markers at 25, 50 and 75 (lines 124-126) are constants handed to the plotter.
- The animated histogram loop and `time.sleep` (lines 27-34): presentation and pacing only.
- The index-based scatter comparison (lines 86-93): it only hands `data1` and `data2` to the plotter.
- IEEE floating-point rounding: the model uses exact reals. numpy's two-sided lerp formula is the same function over the reals.
- Arrays of percentile levels: numpy accepts them, but the script passes only single levels.
- Empty input to `np.percentile`: numpy's reaction depends on its version. It is modelled as an `EmptyInput` error.
- Q-Q comparison of samples of different sizes: the script assumes equal sizes (line 207) and matplotlib rejects the scatter. It is modelled as a `LengthMismatch` error, not as resampling.
- Dataset 2 (line 15) as a worked example: only dataset 1 is worked out concretely. The general lemmas cover both samples.
- The unused `scipy.stats` import.
