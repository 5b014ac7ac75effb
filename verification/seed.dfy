/**
 * The seeding script of the backend: it formats date-time literals as SQLite
 * timestamps, empties the `logs` table and inserts a fixed list of sample
 * detections, one statement after the other, stopping at the first failure.
 */
module Seed {
  import opened Wrappers
  import opened Calendar
  import opened LogStore

  // ---------------------------------------------------------------------
  // createTimestamp
  // ---------------------------------------------------------------------

  function Digit(n: int): (c: char)
    requires 0 <= n < 10
    ensures '0' <= c <= '9'
  {
    (48 + n) as char
  }

  function DigitValue(c: char): int
  {
    c as int - 48
  }

  predicate IsDigit(c: char)
  {
    '0' <= c <= '9'
  }

  /** Two decimal digits, zero-padded. */
  function Pad2(n: int): (s: string)
    requires 0 <= n < 100
    ensures |s| == 2
  {
    [Digit(n / 10), Digit(n % 10)]
  }

  /** Four decimal digits, zero-padded. */
  function Pad4(n: int): (s: string)
    requires 0 <= n < 10000
    ensures |s| == 4
  {
    Pad2(n / 100) + Pad2(n % 100)
  }

  /**
   * The date-time a `new Date(year, month - 1, day, hour, minute, second)`
   * holds. A year from 0 to 99 is read as 1900 + year; a day past the end of
   * the month rolls into the next one, which for a valid date-time happens
   * only to 29 February of year 0, since 1900 is not a leap year.
   */
  function NewDate(dt: DateTime): (d: DateTime)
    requires ValidDateTime(dt)
    ensures ValidDateTime(d)
    ensures 100 <= dt.year ==> d == dt
    ensures 0 <= dt.year < 100 ==> d.year == 1900 + dt.year
    ensures dt.year == 0 && dt.month == 2 && dt.day == 29 ==> d == dt.(year := 1900, month := 3, day := 1)
    ensures !(dt.year == 0 && dt.month == 2 && dt.day == 29) ==>
      (d.month, d.day, d.hour, d.minute, d.second) == (dt.month, dt.day, dt.hour, dt.minute, dt.second)
  {
    if 100 <= dt.year then dt
    else if dt.day > DaysInMonth(1900 + dt.year, dt.month) then
      dt.(year := 1900 + dt.year, month := dt.month + 1, day := 1)
    else dt.(year := 1900 + dt.year)
  }

  /**
   * `Date.prototype.toISOString` for a date with a four-digit year:
   * `YYYY-MM-DDTHH:MM:SS.sssZ`. A `Date` built from whole seconds has no
   * milliseconds.
   */
  function IsoString(dt: DateTime): (s: string)
    requires ValidDateTime(dt)
    ensures |s| == 24
  {
    Pad4(dt.year) + "-" + Pad2(dt.month) + "-" + Pad2(dt.day) + "T"
      + Pad2(dt.hour) + ":" + Pad2(dt.minute) + ":" + Pad2(dt.second) + ".000Z"
  }

  /** `String.prototype.slice(0, n)`: the first `n` characters, or all of a shorter string. */
  function Prefix(s: string, n: nat): (r: string)
    ensures |r| == if |s| < n then |s| else n
    ensures r == s[..|r|]
  {
    if |s| <= n then s else s[..n]
  }

  /** The position of the first `c` in `s`, or -1 (`String.prototype.indexOf`). */
  function IndexOf(s: string, c: char): (i: int)
    ensures -1 <= i < |s|
    ensures i == -1 <==> c !in s
    ensures 0 <= i ==> s[i] == c && c !in s[..i]
  {
    if |s| == 0 then -1
    else if s[0] == c then 0
    else
      var i := IndexOf(s[1..], c);
      assert s == [s[0]] + s[1..];
      if i == -1 then -1
      else
        assert s[..i + 1] == [s[0]] + s[1..][..i];
        i + 1
  }

  /** `String.prototype.replace` with a one-character pattern: only the first occurrence is replaced. */
  function ReplaceFirst(s: string, c: char, d: char): (r: string)
    ensures |r| == |s|
    ensures c !in s ==> r == s
    ensures c in s ==> var i := IndexOf(s, c); r[i] == d && forall j :: 0 <= j < |s| && j != i ==> r[j] == s[j]
  {
    var i := IndexOf(s, c);
    if i == -1 then s else s[..i] + [d] + s[i + 1..]
  }

  /** `createTimestamp`: the first 19 characters of the ISO string with its `T` turned into a space. */
  function CreateTimestamp(iso: string): (r: string)
    ensures |r| == if |iso| < 19 then |iso| else 19
    ensures forall i :: 0 <= i < |r| ==> r[i] == iso[i] || (iso[i] == 'T' && r[i] == ' ')
  {
    ReplaceFirst(Prefix(iso, 19), 'T', ' ')
  }

  /** The SQLite text form of a date-time, `YYYY-MM-DD HH:MM:SS`. */
  function SqlDateTime(dt: DateTime): (s: string)
    requires ValidDateTime(dt)
    ensures |s| == 19
  {
    Pad4(dt.year) + "-" + Pad2(dt.month) + "-" + Pad2(dt.day) + " "
      + Pad2(dt.hour) + ":" + Pad2(dt.minute) + ":" + Pad2(dt.second)
  }

  predicate AllDigits(t: string)
  {
    forall i :: 0 <= i < |t| ==> IsDigit(t[i])
  }

  /** The value of a decimal numeral. */
  function Numeral(t: string): int
  {
    if |t| == 0 then 0 else Numeral(t[..|t| - 1]) * 10 + DigitValue(t[|t| - 1])
  }

  lemma NumeralSnoc(t: string, c: char)
    ensures Numeral(t + [c]) == Numeral(t) * 10 + DigitValue(c)
  {
    assert (t + [c])[..|t|] == t;
  }

  /** Reading back the two digits of `Pad2` gives the number. */
  lemma NumeralPad2(n: int)
    requires 0 <= n < 100
    ensures AllDigits(Pad2(n)) && Numeral(Pad2(n)) == n
  {
    assert Pad2(n) == [] + [Digit(n / 10)] + [Digit(n % 10)];
    NumeralSnoc([], Digit(n / 10));
    NumeralSnoc([Digit(n / 10)], Digit(n % 10));
  }

  lemma NumeralAppend2(t: string, u: string)
    requires |u| == 2
    ensures Numeral(t + u) == Numeral(t) * 100 + Numeral(u)
  {
    assert t + u == (t + [u[0]]) + [u[1]];
    assert u == [] + [u[0]] + [u[1]];
    NumeralSnoc(t, u[0]);
    NumeralSnoc(t + [u[0]], u[1]);
    NumeralSnoc([], u[0]);
    NumeralSnoc([u[0]], u[1]);
  }

  /** Reading back the four digits of `Pad4` gives the number. */
  lemma NumeralPad4(n: int)
    requires 0 <= n < 10000
    ensures AllDigits(Pad4(n)) && Numeral(Pad4(n)) == n
  {
    NumeralPad2(n / 100);
    NumeralPad2(n % 100);
    NumeralAppend2(Pad2(n / 100), Pad2(n % 100));
  }

  /** Reads a `YYYY-MM-DD HH:MM:SS` text back, or `None` if it has another shape. */
  function ParseSqlDateTime(s: string): Option<DateTime>
  {
    if |s| != 19 || s[4] != '-' || s[7] != '-' || s[10] != ' ' || s[13] != ':' || s[16] != ':' then None
    else if !(AllDigits(s[..4]) && AllDigits(s[5..7]) && AllDigits(s[8..10])
              && AllDigits(s[11..13]) && AllDigits(s[14..16]) && AllDigits(s[17..])) then None
    else
      Some(DateTime(Numeral(s[..4]), Numeral(s[5..7]), Numeral(s[8..10]),
                    Numeral(s[11..13]), Numeral(s[14..16]), Numeral(s[17..])))
  }

  /**
   * The timestamp text the seeding script produces is the SQLite form of the
   * date-time its `Date` holds: the one it was given, from year 100 on.
   */
  lemma CreateTimestampIsSqlForm(dt: DateTime)
    requires ValidDateTime(dt)
    ensures CreateTimestamp(IsoString(NewDate(dt))) == SqlDateTime(NewDate(dt))
    ensures 100 <= dt.year ==> CreateTimestamp(IsoString(NewDate(dt))) == SqlDateTime(dt)
  {
    IsoToSql(NewDate(dt));
  }

  lemma IsoToSql(dt: DateTime)
    requires ValidDateTime(dt)
    ensures CreateTimestamp(IsoString(dt)) == SqlDateTime(dt)
  {
    var iso := IsoString(dt);
    var p := Prefix(iso, 19);
    assert p == Pad4(dt.year) + "-" + Pad2(dt.month) + "-" + Pad2(dt.day) + "T"
      + Pad2(dt.hour) + ":" + Pad2(dt.minute) + ":" + Pad2(dt.second);
    assert 'T' !in p[..10];
    assert p[10] == 'T';
    assert ReplaceFirst(p, 'T', ' ') == p[..10] + [' '] + p[11..];
  }

  /** Where each field sits in the SQLite text form. */
  lemma SqlDateTimeFields(dt: DateTime)
    requires ValidDateTime(dt)
    ensures var s := SqlDateTime(dt);
      && s[4] == '-' && s[7] == '-' && s[10] == ' ' && s[13] == ':' && s[16] == ':'
      && s[..4] == Pad4(dt.year) && s[5..7] == Pad2(dt.month) && s[8..10] == Pad2(dt.day)
      && s[11..13] == Pad2(dt.hour) && s[14..16] == Pad2(dt.minute) && s[17..] == Pad2(dt.second)
  {
  }

  /**
   * Reading the produced timestamp text back gives the date-time the `Date`
   * holds: the original one from year 100 on, and 1900 + year before that.
   */
  lemma CreateTimestampRoundTrip(dt: DateTime)
    requires ValidDateTime(dt)
    ensures ParseSqlDateTime(CreateTimestamp(IsoString(NewDate(dt)))) == Some(NewDate(dt))
    ensures 100 <= dt.year ==> ParseSqlDateTime(CreateTimestamp(IsoString(NewDate(dt)))) == Some(dt)
  {
    var d := NewDate(dt);
    IsoToSql(d);
    SqlRoundTrip(d);
  }

  lemma SqlRoundTrip(dt: DateTime)
    requires ValidDateTime(dt)
    ensures ParseSqlDateTime(SqlDateTime(dt)) == Some(dt)
  {
    SqlDateTimeFields(dt);
    NumeralPad4(dt.year);
    NumeralPad2(dt.month);
    NumeralPad2(dt.day);
    NumeralPad2(dt.hour);
    NumeralPad2(dt.minute);
    NumeralPad2(dt.second);
  }

  // ---------------------------------------------------------------------
  // generateSampleLogs
  // ---------------------------------------------------------------------

  /** A log the seeding script inserts: an event type and the date-time it is stamped with. */
  datatype SampleLog = SampleLog(eventType: string, at: DateTime)

  // The sample date-times, one block per day as the script pushes them:
  // Monday 2025-12-15 to Friday 2025-12-19, Monday 2026-01-12 to Sunday
  // 2026-01-18, and Monday 2026-01-19.

  const Dec15: seq<DateTime> := [
      DateTime(2025, 12, 15, 9, 15, 23),
      DateTime(2025, 12, 15, 11, 42, 8),
      DateTime(2025, 12, 15, 14, 28, 55)]

  const Dec16: seq<DateTime> := [
      DateTime(2025, 12, 16, 8, 5, 12),
      DateTime(2025, 12, 16, 10, 33, 47),
      DateTime(2025, 12, 16, 10, 45, 19),
      DateTime(2025, 12, 16, 13, 22, 31),
      DateTime(2025, 12, 16, 15, 8, 44)]

  const Dec17: seq<DateTime> := [
      DateTime(2025, 12, 17, 7, 55, 3),
      DateTime(2025, 12, 17, 9, 12, 28),
      DateTime(2025, 12, 17, 9, 18, 52),
      DateTime(2025, 12, 17, 11, 45, 16),
      DateTime(2025, 12, 17, 14, 3, 39),
      DateTime(2025, 12, 17, 14, 27, 11),
      DateTime(2025, 12, 17, 16, 41, 55)]

  const Dec18: seq<DateTime> := [
      DateTime(2025, 12, 18, 8, 22, 17),
      DateTime(2025, 12, 18, 10, 55, 42),
      DateTime(2025, 12, 18, 13, 8, 29),
      DateTime(2025, 12, 18, 15, 33, 8)]

  const Dec19: seq<DateTime> := [
      DateTime(2025, 12, 19, 9, 5, 33),
      DateTime(2025, 12, 19, 9, 48, 21),
      DateTime(2025, 12, 19, 11, 15, 47),
      DateTime(2025, 12, 19, 11, 22, 59),
      DateTime(2025, 12, 19, 12, 45, 14),
      DateTime(2025, 12, 19, 14, 18, 36)]

  const Jan12: seq<DateTime> := [
      DateTime(2026, 1, 12, 8, 45, 12),
      DateTime(2026, 1, 12, 10, 22, 38),
      DateTime(2026, 1, 12, 14, 55, 27)]

  const Jan13: seq<DateTime> := [
      DateTime(2026, 1, 13, 9, 8, 45),
      DateTime(2026, 1, 13, 11, 33, 19),
      DateTime(2026, 1, 13, 13, 47, 52),
      DateTime(2026, 1, 13, 15, 12, 8)]

  const Jan14: seq<DateTime> := [
      DateTime(2026, 1, 14, 8, 28, 33),
      DateTime(2026, 1, 14, 10, 5, 17),
      DateTime(2026, 1, 14, 10, 42, 51),
      DateTime(2026, 1, 14, 12, 18, 29),
      DateTime(2026, 1, 14, 14, 55, 43)]

  const Jan15: seq<DateTime> := [
      DateTime(2026, 1, 15, 9, 15, 8),
      DateTime(2026, 1, 15, 11, 42, 36),
      DateTime(2026, 1, 15, 13, 28, 14),
      DateTime(2026, 1, 15, 15, 5, 49),
      DateTime(2026, 1, 15, 16, 33, 22)]

  const Jan16: seq<DateTime> := [
      DateTime(2026, 1, 16, 8, 55, 41),
      DateTime(2026, 1, 16, 10, 22, 17),
      DateTime(2026, 1, 16, 11, 8, 53),
      DateTime(2026, 1, 16, 14, 45, 29)]

  const Jan17: seq<DateTime> := [
      DateTime(2026, 1, 17, 10, 15, 33),
      DateTime(2026, 1, 17, 14, 42, 8)]

  const Jan18: seq<DateTime> := [
      DateTime(2026, 1, 18, 11, 22, 14),
      DateTime(2026, 1, 18, 15, 8, 47)]

  const Jan19: seq<DateTime> := [
      DateTime(2026, 1, 19, 8, 12, 45),
      DateTime(2026, 1, 19, 9, 33, 17),
      DateTime(2026, 1, 19, 10, 5, 28),
      DateTime(2026, 1, 19, 10, 48, 52),
      DateTime(2026, 1, 19, 11, 22, 14),
      DateTime(2026, 1, 19, 11, 55, 39),
      DateTime(2026, 1, 19, 12, 18, 7)]

  /** Before the Christmas break. */
  const BeforeBreak: seq<DateTime> := Dec15 + Dec16 + Dec17 + Dec18 + Dec19

  /** The week before "today". */
  const LastWeek: seq<DateTime> := Jan12 + Jan13 + Jan14 + Jan15 + Jan16 + Jan17 + Jan18

  const SampleTimes: seq<DateTime> := BeforeBreak + LastWeek + Jan19

  const SampleEventType: string := "Rock_FIST"

  /** `generateSampleLogs`: every sample date-time, in push order, with the fixed event type. */
  function GenerateSampleLogs(): (logs: seq<SampleLog>)
    ensures |logs| == |SampleTimes|
    ensures forall i :: 0 <= i < |logs| ==> logs[i] == SampleLog(SampleEventType, SampleTimes[i])
  {
    seq(|SampleTimes|, i requires 0 <= i < |SampleTimes| => SampleLog(SampleEventType, SampleTimes[i]))
  }

  /** Every date-time is valid and each is strictly earlier than every later one. */
  ghost predicate Increasing(s: seq<DateTime>)
  {
    && (forall j :: 0 <= j < |s| ==> ValidDateTime(s[j]))
    && (forall j, k :: 0 <= j < k < |s| ==> ToEpoch(s[j]) < ToEpoch(s[k]))
  }

  /** Position `i` holds a valid date-time strictly earlier than the one after it. */
  ghost predicate StepUp(s: seq<DateTime>, i: int)
  {
    0 <= i && i + 1 < |s| && ValidDateTime(s[i]) && ToEpoch(s[i]) < ToEpoch(s[i + 1])
  }

  /** A list that steps up at every position and ends in a valid date-time is increasing. */
  lemma {:induction false} StepsImplyIncreasing(s: seq<DateTime>)
    requires |s| > 0 && ValidDateTime(s[|s| - 1])
    requires forall i :: 0 <= i < |s| - 1 ==> StepUp(s, i)
    ensures Increasing(s)
    decreases |s|
  {
    if |s| > 1 {
      var t := s[1..];
      forall i | 0 <= i < |t| - 1
        ensures StepUp(t, i)
      {
        assert StepUp(s, i + 1);
      }
      StepsImplyIncreasing(t);
      assert StepUp(s, 0);
      forall j, k | 0 <= j < k < |s|
        ensures ToEpoch(s[j]) < ToEpoch(s[k])
      {
        if j > 0 {
          assert s[j] == t[j - 1] && s[k] == t[k - 1];
        } else if k > 1 {
          assert s[k] == t[k - 1];
        }
      }
      forall j | 0 < j < |s|
        ensures ValidDateTime(s[j])
      {
        assert s[j] == t[j - 1];
      }
    }
  }

  /** Two increasing lists, the first ending before the second begins, make an increasing list. */
  lemma IncreasingAppend(a: seq<DateTime>, b: seq<DateTime>)
    requires Increasing(a) && Increasing(b)
    requires |a| > 0 && |b| > 0 && ToEpoch(a[|a| - 1]) < ToEpoch(b[0])
    ensures Increasing(a + b)
  {
    var s := a + b;
    forall j, k | 0 <= j < k < |s|
      ensures ToEpoch(s[j]) < ToEpoch(s[k])
    {
      if j < |a| && |a| <= k {
        assert ToEpoch(s[j]) <= ToEpoch(a[|a| - 1]);
        assert ToEpoch(b[0]) <= ToEpoch(s[k]);
      }
    }
  }

  // Each day's block is checked position by position.

  lemma Dec15Increasing()
    ensures Increasing(Dec15)
  {
    forall i | 0 <= i < |Dec15| - 1
      ensures StepUp(Dec15, i)
    {
      assert i == 0 || i == 1;
    }
    assert ValidDateTime(Dec15[2]);
    StepsImplyIncreasing(Dec15);
  }

  lemma Dec16Increasing()
    ensures Increasing(Dec16)
  {
    forall i | 0 <= i < |Dec16| - 1
      ensures StepUp(Dec16, i)
    {
      assert i == 0 || i == 1 || i == 2 || i == 3;
    }
    assert ValidDateTime(Dec16[4]);
    StepsImplyIncreasing(Dec16);
  }

  lemma Dec17Increasing()
    ensures Increasing(Dec17)
  {
    forall i | 0 <= i < |Dec17| - 1
      ensures StepUp(Dec17, i)
    {
      assert i == 0 || i == 1 || i == 2 || i == 3 || i == 4 || i == 5;
    }
    assert ValidDateTime(Dec17[6]);
    StepsImplyIncreasing(Dec17);
  }

  lemma Dec18Increasing()
    ensures Increasing(Dec18)
  {
    forall i | 0 <= i < |Dec18| - 1
      ensures StepUp(Dec18, i)
    {
      assert i == 0 || i == 1 || i == 2;
    }
    assert ValidDateTime(Dec18[3]);
    StepsImplyIncreasing(Dec18);
  }

  lemma Dec19Increasing()
    ensures Increasing(Dec19)
  {
    forall i | 0 <= i < |Dec19| - 1
      ensures StepUp(Dec19, i)
    {
      assert i == 0 || i == 1 || i == 2 || i == 3 || i == 4;
    }
    assert ValidDateTime(Dec19[5]);
    StepsImplyIncreasing(Dec19);
  }

  lemma Jan12Increasing()
    ensures Increasing(Jan12)
  {
    forall i | 0 <= i < |Jan12| - 1
      ensures StepUp(Jan12, i)
    {
      assert i == 0 || i == 1;
    }
    assert ValidDateTime(Jan12[2]);
    StepsImplyIncreasing(Jan12);
  }

  lemma Jan13Increasing()
    ensures Increasing(Jan13)
  {
    forall i | 0 <= i < |Jan13| - 1
      ensures StepUp(Jan13, i)
    {
      assert i == 0 || i == 1 || i == 2;
    }
    assert ValidDateTime(Jan13[3]);
    StepsImplyIncreasing(Jan13);
  }

  lemma Jan14Increasing()
    ensures Increasing(Jan14)
  {
    forall i | 0 <= i < |Jan14| - 1
      ensures StepUp(Jan14, i)
    {
      assert i == 0 || i == 1 || i == 2 || i == 3;
    }
    assert ValidDateTime(Jan14[4]);
    StepsImplyIncreasing(Jan14);
  }

  lemma Jan15Increasing()
    ensures Increasing(Jan15)
  {
    forall i | 0 <= i < |Jan15| - 1
      ensures StepUp(Jan15, i)
    {
      assert i == 0 || i == 1 || i == 2 || i == 3;
    }
    assert ValidDateTime(Jan15[4]);
    StepsImplyIncreasing(Jan15);
  }

  lemma Jan16Increasing()
    ensures Increasing(Jan16)
  {
    forall i | 0 <= i < |Jan16| - 1
      ensures StepUp(Jan16, i)
    {
      assert i == 0 || i == 1 || i == 2;
    }
    assert ValidDateTime(Jan16[3]);
    StepsImplyIncreasing(Jan16);
  }

  lemma Jan17Increasing()
    ensures Increasing(Jan17)
  {
    forall i | 0 <= i < |Jan17| - 1
      ensures StepUp(Jan17, i)
    {
      assert i == 0;
    }
    assert ValidDateTime(Jan17[1]);
    StepsImplyIncreasing(Jan17);
  }

  lemma Jan18Increasing()
    ensures Increasing(Jan18)
  {
    forall i | 0 <= i < |Jan18| - 1
      ensures StepUp(Jan18, i)
    {
      assert i == 0;
    }
    assert ValidDateTime(Jan18[1]);
    StepsImplyIncreasing(Jan18);
  }

  lemma Jan19Increasing()
    ensures Increasing(Jan19)
  {
    forall i | 0 <= i < |Jan19| - 1
      ensures StepUp(Jan19, i)
    {
      assert i == 0 || i == 1 || i == 2 || i == 3 || i == 4 || i == 5;
    }
    assert ValidDateTime(Jan19[6]);
    StepsImplyIncreasing(Jan19);
  }

  lemma BeforeBreakIncreasing()
    ensures Increasing(BeforeBreak)
  {
    Dec15Increasing();
    Dec16Increasing();
    Dec17Increasing();
    Dec18Increasing();
    Dec19Increasing();
    IncreasingAppend(Dec15, Dec16);
    IncreasingAppend(Dec15 + Dec16, Dec17);
    IncreasingAppend(Dec15 + Dec16 + Dec17, Dec18);
    IncreasingAppend(Dec15 + Dec16 + Dec17 + Dec18, Dec19);
  }

  lemma LastWeekIncreasing()
    ensures Increasing(LastWeek)
  {
    Jan12Increasing();
    Jan13Increasing();
    Jan14Increasing();
    Jan15Increasing();
    Jan16Increasing();
    Jan17Increasing();
    Jan18Increasing();
    IncreasingAppend(Jan12, Jan13);
    IncreasingAppend(Jan12 + Jan13, Jan14);
    IncreasingAppend(Jan12 + Jan13 + Jan14, Jan15);
    IncreasingAppend(Jan12 + Jan13 + Jan14 + Jan15, Jan16);
    IncreasingAppend(Jan12 + Jan13 + Jan14 + Jan15 + Jan16, Jan17);
    IncreasingAppend(Jan12 + Jan13 + Jan14 + Jan15 + Jan16 + Jan17, Jan18);
  }

  /**
   * The sample list holds 57 valid date-times in strictly increasing order,
   * so inserting it in list order makes id order and timestamp order agree.
   */
  lemma SampleTimesSorted()
    ensures |SampleTimes| == 57
    ensures forall j :: 0 <= j < |SampleTimes| ==> ValidDateTime(SampleTimes[j])
    ensures forall j, k :: 0 <= j < k < |SampleTimes| ==> ToEpoch(SampleTimes[j]) < ToEpoch(SampleTimes[k])
  {
    BeforeBreakIncreasing();
    LastWeekIncreasing();
    Jan19Increasing();
    IncreasingAppend(BeforeBreak, LastWeek);
    IncreasingAppend(BeforeBreak + LastWeek, Jan19);
  }

  /** `generateSampleLogs` yields 57 logs, all of event type `Rock_FIST`, stamped in strictly increasing order. */
  /** Every date-time lies in year 100 or later, where `new Date` keeps its fields. */
  ghost predicate FromYear100(s: seq<DateTime>)
  {
    forall j :: 0 <= j < |s| ==> s[j].year >= 100
  }

  lemma FromYear100Append(a: seq<DateTime>, b: seq<DateTime>)
    requires FromYear100(a) && FromYear100(b)
    ensures FromYear100(a + b)
  {
    forall j | 0 <= j < |a + b|
      ensures (a + b)[j].year >= 100
    {
      if j >= |a| {
        assert (a + b)[j] == b[j - |a|];
      }
    }
  }

  /**
   * The script's `Date` for every sample holds the very date-time written in
   * it, so the instant `createTimestamp` names is the sample's own.
   */
  lemma SampleDatesUnchanged()
    ensures forall j :: 0 <= j < |SampleTimes| ==>
      ValidDateTime(SampleTimes[j]) && NewDate(SampleTimes[j]) == SampleTimes[j]
      && ParseSqlDateTime(CreateTimestamp(IsoString(NewDate(SampleTimes[j])))) == Some(SampleTimes[j])
  {
    SampleTimesSorted();
    assert FromYear100(Dec15) && FromYear100(Dec16) && FromYear100(Dec17) && FromYear100(Dec18);
    assert FromYear100(Dec19) && FromYear100(Jan12) && FromYear100(Jan13) && FromYear100(Jan14);
    assert FromYear100(Jan15) && FromYear100(Jan16) && FromYear100(Jan17) && FromYear100(Jan18);
    assert FromYear100(Jan19);
    FromYear100Append(Dec15, Dec16);
    FromYear100Append(Dec15 + Dec16, Dec17);
    FromYear100Append(Dec15 + Dec16 + Dec17, Dec18);
    FromYear100Append(Dec15 + Dec16 + Dec17 + Dec18, Dec19);
    FromYear100Append(Jan12, Jan13);
    FromYear100Append(Jan12 + Jan13, Jan14);
    FromYear100Append(Jan12 + Jan13 + Jan14, Jan15);
    FromYear100Append(Jan12 + Jan13 + Jan14 + Jan15, Jan16);
    FromYear100Append(Jan12 + Jan13 + Jan14 + Jan15 + Jan16, Jan17);
    FromYear100Append(Jan12 + Jan13 + Jan14 + Jan15 + Jan16 + Jan17, Jan18);
    FromYear100Append(BeforeBreak, LastWeek);
    FromYear100Append(BeforeBreak + LastWeek, Jan19);
    forall j | 0 <= j < |SampleTimes|
      ensures ParseSqlDateTime(CreateTimestamp(IsoString(NewDate(SampleTimes[j])))) == Some(SampleTimes[j])
    {
      CreateTimestampRoundTrip(SampleTimes[j]);
    }
  }

  lemma SampleLogsWellFormed()
    ensures var logs := GenerateSampleLogs();
      && |logs| == 57
      && (forall i :: 0 <= i < |logs| ==> logs[i].eventType == "Rock_FIST" && |logs[i].eventType| > 0)
      && (forall i :: 0 <= i < |logs| ==> ValidDateTime(logs[i].at))
      && (forall i, j :: 0 <= i < j < |logs| ==> ToEpoch(logs[i].at) < ToEpoch(logs[j].at))
  {
    SampleTimesSorted();
  }

  // ---------------------------------------------------------------------
  // clearLogs, insertLog, seed
  // ---------------------------------------------------------------------

  /** `clearLogs`: `DELETE FROM logs`, resolving with the number of rows removed, or rejecting with the driver error. */
  function ClearLogs(t: Table, fault: Option<string>): (r: Result<(Table, nat), string>)
    ensures fault.Some? <==> r.Err?
    ensures fault.Some? ==> r.error == fault.value
    ensures r.Ok? ==> r.value.0.rows == [] && r.value.1 == |t.rows| && r.value.0.sequence == t.sequence
  {
    if fault.Some? then Err(fault.value) else Ok(ClearAll(t))
  }

  /**
   * The row `insertLog` writes for a sample log: no description and no camera.
   * It is stamped with the sample's own instant, which is the one the
   * `createTimestamp` text names for every sample (`SampleDatesUnchanged`).
   */
  function SeededRow(id: nat, log: SampleLog): LogRow
  {
    LogRow(id, log.eventType, None, ToEpoch(log.at), None)
  }

  /**
   * `insertLog`: `INSERT INTO logs (event_type, timestamp)` with the log's
   * own timestamp, resolving with the new rowid, or rejecting with the driver
   * error.
   */
  function InsertLog(t: Table, log: SampleLog, fault: Option<string>): (r: Result<(Table, nat), string>)
    ensures fault.Some? ==> r == Err(fault.value)
    ensures r.Ok? <==> fault.None? && NextRowId(t) <= MaxRowId
    ensures r.Ok? ==>
      var (t', id) := r.value;
      && t'.rows == t.rows + [SeededRow(id, log)]
      && t'.sequence == id
      && (forall i :: 0 <= i < |t.rows| ==> t.rows[i].id < id)
    ensures r.Ok? && Valid(t) ==> Valid(r.value.0) && r.value.1 == t.sequence + 1
  {
    if fault.Some? then Err(fault.value)
    else
      match InsertRow(t, Some(log.eventType), None, None, Some(ToEpoch(log.at)), ToEpoch(log.at))
      case Ok(v) => Ok(v)
      case Err(e) => Err(ErrorMessage(e))
  }

  /**
   * Which statement of a seeding run fails, if any: statement 0 is the
   * `DELETE`, statement `k >= 1` is the insert of the `k`-th sample log.
   */
  type Failure = Option<(nat, string)>

  function FaultAt(failure: Failure, k: nat): Option<string>
  {
    if failure.Some? && failure.value.0 == k then Some(failure.value.1) else None
  }

  /** Inserts the logs one after another, awaiting each, and stops at the first rejection. */
  function InsertAll(t: Table, logs: seq<SampleLog>, k: nat, failure: Failure): (r: (Table, seq<nat>, Option<string>))
    decreases |logs|
  {
    if |logs| == 0 then (t, [], None)
    else
      match InsertLog(t, logs[0], FaultAt(failure, k))
      case Err(e) => (t, [], Some(e))
      case Ok((t1, id)) =>
        var (t2, ids, err) := InsertAll(t1, logs[1..], k + 1, failure);
        (t2, [id] + ids, err)
  }

  /** The outcome of `seed`: the table, the rows cleared, the ids inserted and the error it stopped with. */
  datatype SeedRun = SeedRun(table: Table, cleared: Option<nat>, ids: seq<nat>, error: Option<string>)

  /** `seed`: clear the table, then insert every sample log in order; the first rejection ends the run. */
  function Seed(t: Table, failure: Failure): (r: SeedRun)
    ensures FaultAt(failure, 0).Some? ==> r == SeedRun(t, None, [], FaultAt(failure, 0))
  {
    match ClearLogs(t, FaultAt(failure, 0))
    case Err(e) => SeedRun(t, None, [], Some(e))
    case Ok((t1, n)) =>
      var (t2, ids, err) := InsertAll(t1, GenerateSampleLogs(), 1, failure);
      SeedRun(t2, Some(n), ids, err)
  }

  /** The rows of the first `n` logs inserted with consecutive ids from `first`. */
  function SeededRows(logs: seq<SampleLog>, first: nat): (rows: seq<LogRow>)
    ensures |rows| == |logs|
  {
    seq(|logs|, i requires 0 <= i < |logs| => SeededRow(first + i, logs[i]))
  }

  /** How many of the logs, numbered from statement `k`, are inserted before the failing statement. */
  function InsertedCount(logs: seq<SampleLog>, k: nat, failure: Failure): (n: nat)
    ensures n <= |logs|
  {
    if failure.Some? && k <= failure.value.0 < k + |logs| then failure.value.0 - k else |logs|
  }

  /** On a valid table with room left, an insert that is not rejected takes the next id. */
  lemma InsertLogOnValid(t: Table, log: SampleLog)
    requires Valid(t) && t.sequence < MaxRowId
    ensures InsertLog(t, log, None)
      == Ok((Table(t.rows + [SeededRow(t.sequence + 1, log)], t.sequence + 1), t.sequence + 1))
  {
    NextRowIdOfValid(t);
  }

  /** Seeding the first log, then the next `n - 1`, is seeding the first `n`. */
  lemma SeededRowsCons(before: seq<LogRow>, logs: seq<SampleLog>, n: nat, first: nat)
    requires 0 < n <= |logs|
    ensures (before + [SeededRow(first, logs[0])]) + SeededRows(logs[1..][..n - 1], first + 1)
      == before + SeededRows(logs[..n], first)
  {
    var rest := SeededRows(logs[1..][..n - 1], first + 1);
    assert SeededRows(logs[..n], first) == [SeededRow(first, logs[0])] + rest;
  }

  /** What a run of inserts promises: the logs before the failing statement, in order, with consecutive ids. */
  ghost predicate InsertedUpToFailure(t: Table, logs: seq<SampleLog>, k: nat, failure: Failure, r: (Table, seq<nat>, Option<string>))
  {
    var (t', ids, err) := r;
    var n := InsertedCount(logs, k, failure);
    && Valid(t')
    && t'.rows == t.rows + SeededRows(logs[..n], t.sequence + 1)
    && t'.sequence == t.sequence + n
    && |ids| == n && (forall i :: 0 <= i < n ==> ids[i] == t.sequence + 1 + i)
    && err == (if n < |logs| then Some(failure.value.1) else None)
  }

  /** One successful insert followed by the rest of the run keeps the promise. */
  lemma InsertAllStep(t: Table, logs: seq<SampleLog>, k: nat, failure: Failure)
    requires Valid(t) && t.sequence < MaxRowId && |logs| > 0 && FaultAt(failure, k).None?
    requires var t1 := Table(t.rows + [SeededRow(t.sequence + 1, logs[0])], t.sequence + 1);
      InsertedUpToFailure(t1, logs[1..], k + 1, failure, InsertAll(t1, logs[1..], k + 1, failure))
    ensures InsertedUpToFailure(t, logs, k, failure, InsertAll(t, logs, k, failure))
  {
    InsertLogOnValid(t, logs[0]);
    var x := SeededRow(t.sequence + 1, logs[0]);
    var t1 := Table(t.rows + [x], t.sequence + 1);
    var (t2, ids, err) := InsertAll(t1, logs[1..], k + 1, failure);
    assert InsertAll(t, logs, k, failure) == (t2, [t.sequence + 1] + ids, err);
    var n := InsertedCount(logs, k, failure);
    assert n == InsertedCount(logs[1..], k + 1, failure) + 1;
    SeededRowsCons(t.rows, logs, n, t.sequence + 1);
    ConsecutiveIdsCons(ids, t.sequence + 1, n);
  }

  /** Prefixing the id before a run of consecutive ids gives a longer run of consecutive ids. */
  lemma ConsecutiveIdsCons(ids: seq<nat>, first: nat, n: nat)
    requires 0 < n && |ids| == n - 1 && forall i :: 0 <= i < n - 1 ==> ids[i] == first + 1 + i
    ensures var ids' := [first] + ids; |ids'| == n && forall i :: 0 <= i < n ==> ids'[i] == first + i
  {
    var ids' := [first] + ids;
    forall i | 0 < i < n
      ensures ids'[i] == first + i
    {
      assert ids'[i] == ids[i - 1];
    }
  }

  /** An empty run, or one whose first statement fails, inserts nothing. */
  lemma InsertAllNothing(t: Table, logs: seq<SampleLog>, k: nat, failure: Failure)
    requires Valid(t)
    requires |logs| == 0 || FaultAt(failure, k).Some?
    ensures InsertedUpToFailure(t, logs, k, failure, InsertAll(t, logs, k, failure))
  {
    assert logs[..0] == [];
  }

  /**
   * On a valid table with room for the ids, inserting a run of logs adds
   * exactly the logs before the failing statement, in order, with
   * consecutive ids; the failing statement's error ends the run, and the
   * statements after it are never issued.
   */
  lemma {:induction false} InsertAllStopsAtFailure(t: Table, logs: seq<SampleLog>, k: nat, failure: Failure)
    requires Valid(t) && t.sequence + |logs| <= MaxRowId
    ensures InsertedUpToFailure(t, logs, k, failure, InsertAll(t, logs, k, failure))
    decreases |logs|
  {
    if |logs| == 0 || FaultAt(failure, k).Some? {
      InsertAllNothing(t, logs, k, failure);
    } else {
      var t1 := Table(t.rows + [SeededRow(t.sequence + 1, logs[0])], t.sequence + 1);
      assert Valid(t1) by {
        InsertLogOnValid(t, logs[0]);
      }
      InsertAllStopsAtFailure(t1, logs[1..], k + 1, failure);
      InsertAllStep(t, logs, k, failure);
    }
  }

  lemma SampleCount()
    ensures |GenerateSampleLogs()| == 57
  {
    SampleTimesSorted();
  }

  /** A run with no failing statement inserts every log. */
  lemma InsertAllSucceeds(t: Table, logs: seq<SampleLog>, k: nat)
    requires Valid(t) && t.sequence + |logs| <= MaxRowId
    ensures var (t', ids, err) := InsertAll(t, logs, k, None);
      && Valid(t')
      && t'.rows == t.rows + SeededRows(logs, t.sequence + 1)
      && |ids| == |logs| && (forall i :: 0 <= i < |logs| ==> ids[i] == t.sequence + 1 + i)
      && err.None?
  {
    InsertAllStopsAtFailure(t, logs, k, None);
    assert logs[..|logs|] == logs;
  }

  /** Rows seeded from logs stamped in increasing order have ids and timestamps increasing together. */
  lemma SeededRowsOrdered(logs: seq<SampleLog>, first: nat)
    requires forall i, j :: 0 <= i < j < |logs| ==> ToEpoch(logs[i].at) < ToEpoch(logs[j].at)
    ensures var rows := SeededRows(logs, first);
      forall i, j :: 0 <= i < j < |rows| ==> rows[i].id < rows[j].id && rows[i].timestamp < rows[j].timestamp
  {
  }

  /** Seeding the sample logs with consecutive ids makes id order and timestamp order agree. */
  lemma SampleRowsOrdered(first: nat)
    ensures var rows := SeededRows(GenerateSampleLogs(), first);
      && |rows| == 57
      && forall i, j :: 0 <= i < j < |rows| ==> rows[i].id < rows[j].id && rows[i].timestamp < rows[j].timestamp
  {
    SampleLogsWellFormed();
    SeededRowsOrdered(GenerateSampleLogs(), first);
  }

  /**
   * A seeding run with no failing statement on a valid table with room for
   * 57 more ids leaves exactly the sample logs, in list order, with
   * consecutive ids (`SampleRowsOrdered` then says id order and timestamp
   * order agree).
   */
  lemma SeedSucceeds(t: Table)
    requires Valid(t) && t.sequence + 57 <= MaxRowId
    ensures var r := Seed(t, None);
      && r.error.None?
      && r.cleared == Some(|t.rows|)
      && Valid(r.table)
      && r.table.rows == SeededRows(GenerateSampleLogs(), t.sequence + 1)
      && |r.ids| == 57 && (forall i :: 0 <= i < 57 ==> r.ids[i] == t.sequence + 1 + i)
  {
    SampleCount();
    InsertAllSucceeds(ClearAll(t).0, GenerateSampleLogs(), 1);
  }

  /**
   * When statement `k` of a seeding run fails, the run reports that error,
   * and the table holds exactly the sample logs before it: a failing
   * `DELETE` leaves the table untouched, a failing `k`-th insert leaves the
   * first `k - 1` logs and nothing after.
   */
  lemma SeedStopsAtFailure(t: Table, k: nat, message: string)
    requires Valid(t) && t.sequence + 57 <= MaxRowId
    requires k <= 57
    ensures var r := Seed(t, Some((k, message)));
      && r.error == Some(message)
      && (k == 0 ==> r.table == t && r.ids == [])
      && (k > 0 ==>
            && |r.ids| == k - 1
            && r.table.rows == SeededRows(GenerateSampleLogs()[..k - 1], t.sequence + 1))
  {
    if k > 0 {
      var t1, logs := ClearAll(t).0, GenerateSampleLogs();
      var run := InsertAll(t1, logs, 1, Some((k, message)));
      SeedAfterClear(t, Some((k, message)));
      assert run.2 == Some(message) && |run.1| == k - 1 && run.0.rows == SeededRows(logs[..k - 1], t.sequence + 1) by {
        SampleCount();
        InsertAllStopsAt(t1, logs, k, message);
      }
    }
  }

  /** With the `DELETE` succeeding, a seeding run is the insert run on the emptied table. */
  lemma SeedAfterClear(t: Table, failure: Failure)
    requires FaultAt(failure, 0).None?
    ensures var r := InsertAll(ClearAll(t).0, GenerateSampleLogs(), 1, failure);
      Seed(t, failure) == SeedRun(r.0, Some(|t.rows|), r.1, r.2)
  {
  }

  /** An insert run whose `k`-th statement fails keeps the `k - 1` logs before it and reports the error. */
  lemma InsertAllStopsAt(t: Table, logs: seq<SampleLog>, k: nat, message: string)
    requires Valid(t) && t.sequence + |logs| <= MaxRowId && 1 <= k <= |logs|
    ensures var r := InsertAll(t, logs, 1, Some((k, message)));
      && r.2 == Some(message)
      && |r.1| == k - 1
      && r.0.rows == t.rows + SeededRows(logs[..k - 1], t.sequence + 1)
  {
    InsertAllStopsAtFailure(t, logs, 1, Some((k, message)));
  }
}
