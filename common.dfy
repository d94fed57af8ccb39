/** Shared vocabulary of the pipeline: optional cells and timestamps. */
module Common {

  /** A table cell that may be missing (pandas' None / NaN / NaT). */
  datatype Option<+T> = None | Some(value: T)

  /** Timestamps are nanoseconds since 1970-01-01T00:00:00, pandas' own unit. */
  type Time = int

  const NanosPerSecond: int := 1_000_000_000
  const NanosPerDay: int := 86_400 * NanosPerSecond

  /** The calendar date (days since 1970-01-01) of a timestamp, as `.dt.date` gives it. */
  function Day(t: Time): (d: int)
    ensures d * NanosPerDay <= t < (d + 1) * NanosPerDay
  {
    t / NanosPerDay
  }
}
