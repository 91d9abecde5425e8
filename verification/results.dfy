/** Error reporting shared by the statistics core.

    The script relies on numpy and matplotlib raising exceptions for bad
    input; here each such exception is a `StatsError` value carried by a
    `Result`, so callers see the error path explicitly. */
module Results {

  /** The ways a statistics computation can be refused. */
  datatype StatsError =
    | EmptyInput            // a percentile or Q-Q reference line asked of an empty sample
    | PercentileOutOfRange  // a percentile level outside [0, 100]
    | LengthMismatch        // a Q-Q scatter of two samples of different sizes

  /** Either a computed value or the error that stopped the computation. */
  datatype Result<+T> = Success(value: T) | Failure(error: StatsError)
}
