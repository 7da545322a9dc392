/** Shared vocabulary: optional values, and time as whole nanoseconds. */
module Basics {

  datatype Option<+T> = None | Some(value: T)

  datatype Result<+T, +E> = Ok(value: T) | Err(error: E)

  /** An instant, in nanoseconds from a fixed origin. */
  type Instant = int

  /** A length of time, in nanoseconds. */
  type Duration = int

  const SECOND: Duration := 1_000_000_000
  const MINUTE: Duration := 60_000_000_000
  const HOUR: Duration := 3_600_000_000_000
  const DAY: Duration := 86_400_000_000_000

  lemma OneMore<T>(s: seq<T>, i: nat)
    requires i < |s|
    ensures s[..i + 1] == s[..i] + [s[i]]
  {}

  function Max(a: int, b: int): int {
    if a < b then b else a
  }

  function Min(a: int, b: int): int {
    if a < b then a else b
  }
}
