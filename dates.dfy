/**
 * Calendar arithmetic at day granularity.
 *
 * A point in time is an integer number of milliseconds of local time.
 * `Day` is what the application obtains with `setHours(0, 0, 0, 0)`:
 * the number of the day a timestamp falls on, and `Midnight` is the
 * timestamp of the start of a day.
 */
module Dates {

  /** Milliseconds in one day. */
  const MsPerDay: int := 86400000

  /** The largest time value an ECMAScript `Date` can hold: 100,000,000 days after the epoch. */
  const MaxTimeMs: int := 8640000000000000

  /** The number of the day a timestamp falls on. */
  function Day(t: int): int {
    t / MsPerDay
  }

  /** The first millisecond of day `d` (a date truncated to midnight). */
  function Midnight(d: int): (t: int)
    ensures Day(t) == d
  {
    d * MsPerDay
  }

  /** `Day` never runs backwards. */
  lemma DayMonotonic(s: int, t: int)
    requires s <= t
    ensures Day(s) <= Day(t)
  {
  }
}
