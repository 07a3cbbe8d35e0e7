/** Shared value types: Java's nullable references become Option, thrown
    exceptions become the error side of Result, and java.time.Instant becomes
    a count of nanoseconds since the epoch. */
module Basics {

  datatype Option<+T> = None | Some(value: T)

  datatype Result<+T, +E> = Ok(value: T) | Err(error: E)

  /** A point on the time line, in nanoseconds since 1970-01-01T00:00:00Z. */
  type Instant = int

  const NanosPerSecond: int := 1_000_000_000
  const SecondsPerDay: int := 86_400

  /** Instant.plus(days, ChronoUnit.DAYS) */
  function PlusDays(t: Instant, days: int): Instant
  {
    t + days * SecondsPerDay * NanosPerSecond
  }

  /** Instant.getEpochSecond(): the second, rounded towards negative infinity. */
  function EpochSecond(t: Instant): int
  {
    t / NanosPerSecond
  }

  /** Instant.getNano(): the nanosecond within the second. */
  function Nano(t: Instant): int
  {
    t % NanosPerSecond
  }
}
