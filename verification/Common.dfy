/** Types shared by every module of the model. */
module Common {
  datatype Option<+T> = None | Some(value: T)

  datatype Result<+T, +E> = Success(value: T) | Failure(error: E)

  type Byte = b: int | 0 <= b < 256

  type NodeId = string

  /** Microseconds. */
  type Time = int

  const SECOND: int := 1_000_000

  /** A time cut to whole seconds, as timestamps are stored. */
  function Seconds(t: Time): Time {
    t - t % SECOND
  }

  function Min(a: int, b: int): int {
    if a < b then a else b
  }

  function Max(a: int, b: int): int {
    if a < b then b else a
  }
}
