/** The optional value used wherever the source has `None`. */
module Wrappers {
  datatype Option<+T> = None | Some(value: T)
}

/**
 * Naive `datetime` values as the pipeline uses them: a proleptic Gregorian
 * date and a time of day in microseconds.  Instants are compared through
 * `Ticks`, the microseconds since 0001-01-01 00:00, computed with the same
 * day ordinal as Python's `date.toordinal()`.
 */
module Calendar {

  const MicrosPerDay: int := 86_400_000_000
  const MinYear: int := 1
  const MaxYear: int := 9999

  datatype DateTime = DateTime(year: int, month: int, day: int, micros: int)

  predicate IsLeap(year: int) {
    year % 4 == 0 && (year % 100 != 0 || year % 400 == 0)
  }

  function DaysInMonth(year: int, month: int): int
    requires 1 <= month <= 12
  {
    if month == 2 then (if IsLeap(year) then 29 else 28)
    else if month == 4 || month == 6 || month == 9 || month == 11 then 30
    else 31
  }

  /** What `datetime(year, month, day)` accepts without raising `ValueError`. */
  predicate ValidDate(year: int, month: int, day: int) {
    MinYear <= year <= MaxYear && 1 <= month <= 12 && 1 <= day <= DaysInMonth(year, month)
  }

  predicate Valid(d: DateTime) {
    ValidDate(d.year, d.month, d.day) && 0 <= d.micros < MicrosPerDay
  }

  function DaysBeforeYear(year: int): int {
    var y := year - 1;
    y * 365 + y / 4 - y / 100 + y / 400
  }

  function DaysBeforeMonth(year: int, month: int): int
    requires 1 <= month <= 12
  {
    if month == 1 then 0 else DaysBeforeMonth(year, month - 1) + DaysInMonth(year, month - 1)
  }

  /** `date.toordinal()`: 0001-01-01 is day 1. */
  function Ordinal(year: int, month: int, day: int): int
    requires 1 <= month <= 12
  {
    DaysBeforeYear(year) + DaysBeforeMonth(year, month) + day
  }

  /** Microseconds since 0001-01-01 00:00; the order of naive datetimes. */
  function Ticks(d: DateTime): int {
    if 1 <= d.month <= 12 then (Ordinal(d.year, d.month, d.day) - 1) * MicrosPerDay + d.micros
    else d.micros
  }

  /** The largest number of days a `timedelta` holds. */
  const MaxDeltaDays: int := 999_999_999

  /** The instant of 9999-12-31 23:59:59.999999, the last one a `datetime` holds. */
  const MaxTicks: int := 3_652_059 * MicrosPerDay - 1

  lemma {:induction false} MaxTicksIsLast()
    ensures Ticks(DateTime(MaxYear, 12, 31, MicrosPerDay - 1)) == MaxTicks
    ensures Valid(DateTime(MaxYear, 12, 31, MicrosPerDay - 1))
  {
    assert DaysBeforeMonth(MaxYear, 12) == 334;
  }

  /**
   * `now - timedelta(days=days)` does not raise `OverflowError`: the days
   * fit a `timedelta` and the difference lies between 0001-01-01 00:00 and
   * the last instant of 9999.
   */
  predicate CutoffInRange(now: DateTime, days: int) {
    -MaxDeltaDays <= days <= MaxDeltaDays && 0 <= Ticks(now) - days * MicrosPerDay <= MaxTicks
  }

  /** `d >= now - timedelta(days=days)`. */
  predicate NotOlderThan(d: DateTime, now: DateTime, days: int) {
    Ticks(d) >= Ticks(now) - days * MicrosPerDay
  }

  /** `d <= now - timedelta(days=days)`. */
  predicate AtLeastDaysOld(d: DateTime, now: DateTime, days: int) {
    Ticks(d) <= Ticks(now) - days * MicrosPerDay
  }

  /** Midnight of a calendar day: `datetime(year, month, day)`. */
  function Midnight(year: int, month: int, day: int): DateTime {
    DateTime(year, month, day, 0)
  }
}
