/** Failure-carrying result types shared by every module of the model:
    Go's `(T, error)` pairs become `Result`, bare `error` returns become `Outcome`. */
module Wrappers {

  datatype Option<+T> = None | Some(value: T)

  datatype Result<+T, +E> = Ok(value: T) | Err(error: E)

  datatype Outcome<+E> = Pass | Fail(error: E)
}

/** Wall-clock readings and durations, in nanoseconds like Go's `time.Duration`. */
module Clock {

  /** A `time.Time` reading, as nanoseconds on a monotonic axis. */
  type Time = int

  /** A `time.Duration`. */
  type Duration = int

  const Millisecond: Duration := 1_000_000
  const Second: Duration := 1_000_000_000
  const Hour: Duration := 3600 * Second

  /** Go's float64 -> int64 conversion truncates toward zero. */
  function Trunc(x: real): (r: int)
    ensures 0.0 <= x ==> r as real <= x < r as real + 1.0
    ensures x <= 0.0 ==> r as real - 1.0 < x <= r as real
  {
    if x >= 0.0 then x.Floor else -((-x).Floor)
  }

  function Min(a: int, b: int): (r: int)
    ensures r <= a && r <= b && (r == a || r == b)
  {
    if a < b then a else b
  }

  function MinReal(a: real, b: real): (r: real)
    ensures r <= a && r <= b && (r == a || r == b)
  {
    if a < b then a else b
  }
}
