/** Small shared vocabulary: optional values, fallible results and time. */
module Prelude {
  datatype Option<+T> = None | Some(value: T)

  datatype Result<+T, +E> = Ok(value: T) | Err(error: E)

  /** Instants and durations, in microseconds (the resolution of a timestamptz). */
  type Time = int

  newtype byte = x: int | 0 <= x < 256

  const SECOND: Time := 1_000_000
  const MINUTE: Time := 60 * SECOND
  const HOUR: Time := 3600 * SECOND

  function Max(a: int, b: int): int { if a < b then b else a }

  function Min(a: int, b: int): int { if a < b then a else b }
}
