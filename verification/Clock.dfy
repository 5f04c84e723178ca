/** Clock arithmetic: nanoseconds since the epoch, and what the library does with 64-bit seconds. */
module Clock {

  const SECOND: int := 1_000_000_000

  const MIN_INT64: int := -0x8000_0000_0000_0000
  const MAX_INT64: int := 0x7FFF_FFFF_FFFF_FFFF

  type Int64 = n: int | MIN_INT64 <= n <= MAX_INT64

  /** Seconds from the start of year one, the library's own origin, to the epoch. */
  const YEAR_ONE: int := 62_135_596_800

  /** Two's-complement wrap-around. */
  function Wrap(n: int): (w: Int64)
    ensures MIN_INT64 <= n <= MAX_INT64 ==> w == n
    ensures MAX_INT64 < n <= 2 * MAX_INT64 ==> w == n - 0x1_0000_0000_0000_0000
  {
    (n - MIN_INT64) % 0x1_0000_0000_0000_0000 + MIN_INT64
  }

  /** Whole seconds since the epoch, rounding towards the past. */
  function Unix(now: int): Int64 {
    Wrap(now / SECOND)
  }

  /** The clock time the library makes of a number of seconds: it counts them from year one. */
  function Instant(sec: Int64): int {
    (Wrap(sec + YEAR_ONE) - YEAR_ONE) * SECOND
  }

  /** The count from year one does not fit in 64 bits. */
  predicate Wraps(sec: Int64) {
    sec + YEAR_ONE > MAX_INT64
  }

  /** A clock reading whose seconds fit in 64 bits, counted either way. */
  predicate Representable(now: int) {
    MIN_INT64 <= now / SECOND <= MAX_INT64 - YEAR_ONE
  }

  /** Seconds come back as the time they stand for exactly when the count does not wrap; else as one before all others. */
  lemma InstantIsExact(sec: Int64)
    ensures Instant(sec) == sec * SECOND <==> !Wraps(sec)
    ensures Wraps(sec) ==> Instant(sec) < MIN_INT64 * SECOND
  {
  }

  /** From the first of January of year one to that of 1970: 1969 years with their leap days. */
  lemma YearOneInDays()
    ensures YEAR_ONE == (1969 * 365 + 1969 / 4 - 1969 / 100 + 1969 / 400) * 24 * 60 * 60
  {
  }

  lemma LaterBySeconds(now: int, n: int)
    ensures (now + n * SECOND) / SECOND == now / SECOND + n
  {
  }
}
