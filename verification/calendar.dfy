/**
 * Civil calendar arithmetic shared by the log store (weekday of a stored
 * timestamp) and the seeding script (date-time literals).
 *
 * A timestamp is a count of seconds since 1970-01-01 00:00:00 UTC. SQLite
 * stores the same instant as the text `YYYY-MM-DD HH:MM:SS`; for four-digit
 * years, comparing those texts and comparing the second counts agree.
 */
module Calendar {

  const SecondsPerDay: int := 86400

  /** Seconds since the Unix epoch. */
  type Timestamp = int

  /** A broken-down date and time, as passed to `new Date(y, m - 1, d, h, mi, s)`. */
  datatype DateTime = DateTime(year: int, month: int, day: int, hour: int, minute: int, second: int)

  predicate IsLeapYear(y: int)
  {
    y % 4 == 0 && (y % 100 != 0 || y % 400 == 0)
  }

  function DaysInMonth(y: int, m: int): (n: int)
    requires 1 <= m <= 12
    ensures 28 <= n <= 31
  {
    if m == 2 then (if IsLeapYear(y) then 29 else 28)
    else if m == 4 || m == 6 || m == 9 || m == 11 then 30
    else 31
  }

  /** A real calendar date and time of day with a four-digit year. */
  predicate ValidDateTime(dt: DateTime)
  {
    && 0 <= dt.year <= 9999
    && 1 <= dt.month <= 12
    && 1 <= dt.day <= DaysInMonth(dt.year, dt.month)
    && 0 <= dt.hour < 24
    && 0 <= dt.minute < 60
    && 0 <= dt.second < 60
  }

  /**
   * Days from 1970-01-01 to the given proleptic Gregorian date (negative
   * before it). Dafny's `/` on int rounds toward negative infinity for a
   * positive divisor, which is what the era computation needs.
   */
  function DaysFromCivil(y0: int, m: int, d: int): int
  {
    var y := if m <= 2 then y0 - 1 else y0;
    var era := y / 400;
    var yoe := y - era * 400;
    var mp := if m > 2 then m - 3 else m + 9;
    var doy := (153 * mp + 2) / 5 + d - 1;
    var doe := yoe * 365 + yoe / 4 - yoe / 100 + doy;
    era * 146097 + doe - 719468
  }

  function ToEpoch(dt: DateTime): Timestamp
  {
    DaysFromCivil(dt.year, dt.month, dt.day) * SecondsPerDay
      + dt.hour * 3600 + dt.minute * 60 + dt.second
  }

  /** Day of the week of an instant, 0 = Sunday .. 6 = Saturday (SQLite's `strftime('%w', …)`). */
  function Weekday(ts: Timestamp): (w: int)
    ensures 0 <= w < 7
  {
    (ts / SecondsPerDay + 4) % 7
  }

  /** Any two instants a whole number of weeks apart fall on the same weekday. */
  lemma WeekdayPeriodic(ts: Timestamp, weeks: int)
    ensures Weekday(ts + weeks * 7 * SecondsPerDay) == Weekday(ts)
  {
    var d := ts / SecondsPerDay;
    var r := ts % SecondsPerDay;
    assert ts + weeks * 7 * SecondsPerDay == (d + 7 * weeks) * SecondsPerDay + r;
    assert (ts + weeks * 7 * SecondsPerDay) / SecondsPerDay == d + 7 * weeks;
    assert (d + 7 * weeks + 4) % 7 == (d + 4) % 7;
  }

  /** The next day, at the same time, is the next weekday, Saturday wrapping round to Sunday. */
  lemma WeekdayNextDay(ts: Timestamp)
    ensures Weekday(ts + SecondsPerDay) == (Weekday(ts) + 1) % 7
  {
    var d := ts / SecondsPerDay;
    var r := ts % SecondsPerDay;
    assert ts + SecondsPerDay == (d + 1) * SecondsPerDay + r;
    assert (ts + SecondsPerDay) / SecondsPerDay == d + 1;
  }

  /** The epoch itself was a Thursday, and 2026-01-19 (the seed's "today") a Monday. */
  lemma WeekdayAnchors()
    ensures Weekday(ToEpoch(DateTime(1970, 1, 1, 0, 0, 0))) == 4
    ensures Weekday(ToEpoch(DateTime(2026, 1, 19, 8, 12, 45))) == 1
  {
  }
}
