/** Time as integer milliseconds since 1970-01-01T00:00:00 (what
    `Date.getTime()` returns), read in one fixed zone without daylight
    saving. Days are numbered from 1970-01-01 (day 0, a Thursday); weeks
    start on Sunday, as date-fns's `startOfWeek` / `endOfWeek` do by
    default. Months follow the proleptic Gregorian calendar. */
module Time {

  const MsPerMinute: int := 60_000
  const MsPerHour: int := 3_600_000
  const MsPerDay: int := 86_400_000

  /** The day a timestamp falls on (floor division, so instants before 1970
      land on negative days). */
  function DayOf(t: int): int
  {
    t / MsPerDay
  }

  /** `startOfDay`: the first millisecond of day `d`. */
  function StartOfDay(d: int): int
  {
    d * MsPerDay
  }

  /** `endOfDay`: the last millisecond of day `d` (23:59:59.999). */
  function EndOfDay(d: int): int
  {
    d * MsPerDay + MsPerDay - 1
  }

  /** A timestamp lies within day `d`'s start and end exactly when it falls
      on day `d`. */
  lemma DayOfBounds(t: int, d: int)
    ensures DayOf(t) == d <==> StartOfDay(d) <= t <= EndOfDay(d)
  {
    var q := t / MsPerDay;
    assert q * MsPerDay <= t < q * MsPerDay + MsPerDay;
  }

  /** Moving a timestamp back by whole days moves its day back as much. */
  lemma DayOfShift(t: int, k: int)
    ensures DayOf(t - k * MsPerDay) == DayOf(t) - k
  {
    var d := DayOf(t);
    DayOfBounds(t, d);
    DayOfBounds(t - k * MsPerDay, d - k);
  }

  /** Day of the week, 0 for Sunday up to 6 for Saturday. */
  function Weekday(d: int): (w: int)
    ensures 0 <= w < 7
  {
    (d + 4) % 7
  }

  /** `startOfWeek`: the Sunday on or before day `d`. */
  function StartOfWeek(d: int): (s: int)
    ensures s <= d < s + 7
    ensures Weekday(s) == 0
  {
    d - Weekday(d)
  }

  /** `endOfWeek`: the Saturday on or after day `d`. */
  function EndOfWeek(d: int): (e: int)
    ensures e - 7 < d <= e
    ensures Weekday(e) == 6
  {
    StartOfWeek(d) + 6
  }

  /** Days a whole number of weeks apart share their weekday, and back. */
  lemma WeekdayDifference(a: int, b: int)
    ensures Weekday(a) == Weekday(b) <==> (b - a) % 7 == 0
  {
  }

  predicate IsLeapYear(y: int)
  {
    y % 4 == 0 && (y % 100 != 0 || y % 400 == 0)
  }

  /** The number of days in month `m` (1 to 12) of year `y`. */
  function DaysInMonth(y: int, m: int): (n: int)
    requires 1 <= m <= 12
    ensures 28 <= n <= 31
    ensures m == 2 ==> (n == 29 <==> IsLeapYear(y))
  {
    if m == 2 then (if IsLeapYear(y) then 29 else 28)
    else if m == 4 || m == 6 || m == 9 || m == 11 then 30
    else 31
  }

  /** The day count of the March-based year `y` up to its March 1st. */
  function MarchFirst(y: int): int
  {
    var era := y / 400;
    var yoe := y - era * 400;
    era * 146097 + yoe * 365 + yoe / 4 - yoe / 100
  }

  /** The day number of date `y`-`m`-`day` in the proleptic Gregorian
      calendar (a count of days over 400-year eras that starts the year in
      March, so that the leap day ends it). */
  function DaysFromCivil(y: int, m: int, day: int): int
    requires 1 <= m <= 12
  {
    var y' := if m <= 2 then y - 1 else y;
    MarchFirst(y') + MonthOffset(m) + day - 1 - 719468
  }

  /** The days from March 1st to the first of month `m` in the year that
      starts in March. */
  function MonthOffset(m: int): int
    requires 1 <= m <= 12
  {
    var mp := if m > 2 then m - 3 else m + 9;
    (153 * mp + 2) / 5
  }

  /** The offsets of consecutive months differ by the length of the
      earlier one (February, the last month of that year, excepted). */
  lemma MonthOffsetStep(y: int, m: int)
    requires 1 <= m <= 12 && m != 2
    ensures m < 12 ==> MonthOffset(m + 1) - MonthOffset(m) == DaysInMonth(y, m)
    ensures m == 12 ==> MonthOffset(1) - MonthOffset(12) == DaysInMonth(y, 12)
  {
  }

  /** `startOfMonth`: the first day of the month. */
  function StartOfMonth(y: int, m: int): int
    requires 1 <= m <= 12
  {
    DaysFromCivil(y, m, 1)
  }

  /** Within one 400-year era the count grows by a leap day exactly on
      the years divisible by 4 but not by 100. */
  lemma EraYearStep(k: int)
    requires 1 <= k < 400
    ensures 365 + (k / 4 - (k - 1) / 4) - (k / 100 - (k - 1) / 100)
      == if k % 4 == 0 && k % 100 != 0 then 366 else 365
  {
  }

  /** The count of a year given as its era and its year within the era. */
  lemma MarchFirstInEra(era: int, k: int)
    requires 0 <= k < 400
    ensures MarchFirst(era * 400 + k) == era * 146097 + k * 365 + k / 4 - k / 100
  {
    var y := era * 400 + k;
    assert y / 400 == era;
  }

  /** Adding whole multiples of 4, 100 or 400 leaves the remainder alone. */
  lemma RemainderShift4(e: int, k: int)
    ensures (e * 4 + k) % 4 == k % 4
  {
    assert e * 4 + k == (e + k / 4) * 4 + k % 4;
  }

  lemma RemainderShift100(e: int, k: int)
    ensures (e * 100 + k) % 100 == k % 100
  {
    assert e * 100 + k == (e + k / 100) * 100 + k % 100;
  }

  lemma RemainderShift400(e: int, k: int)
    ensures (e * 400 + k) % 400 == k % 400
  {
    assert e * 400 + k == (e + k / 400) * 400 + k % 400;
  }

  /** Year `k` of an era is a leap year exactly when it is divisible by 4
      and not by 100, or is the era's last year. */
  lemma LeapInEra(era: int, k: int)
    requires 0 < k <= 400
    ensures IsLeapYear(era * 400 + k) == (k == 400 || (k % 4 == 0 && k % 100 != 0))
  {
    RemainderShift4(era * 100, k);
    RemainderShift100(era * 4, k);
    RemainderShift400(era, k);
    assert era * 100 * 4 == era * 4 * 100 == era * 400;
  }

  /** The March-based year that begins in March of `y - 1` runs to March of
      `y`: 366 days exactly when `y` is a leap year, else 365. */
  lemma MarchYearLength(y: int)
    ensures MarchFirst(y) - MarchFirst(y - 1) == if IsLeapYear(y) then 366 else 365
  {
    var era := (y - 1) / 400;
    var k := y - era * 400;
    assert 1 <= k <= 400 && y == era * 400 + k && y - 1 == era * 400 + (k - 1);
    MarchFirstInEra(era, k - 1);
    LeapInEra(era, k);
    if k == 400 {
      MarchFirstInEra(era + 1, 0);
      assert y == (era + 1) * 400 + 0;
    } else {
      MarchFirstInEra(era, k);
      EraYearStep(k);
    }
  }

  /** Each month starts the day after the previous one ends: the months
      follow each other with no gap, December included. */
  lemma MonthsFollowEachOther(y: int, m: int)
    requires 1 <= m <= 12
    ensures m < 12 ==> StartOfMonth(y, m) + DaysInMonth(y, m) == StartOfMonth(y, m + 1)
    ensures m == 12 ==> StartOfMonth(y, m) + DaysInMonth(y, m) == StartOfMonth(y + 1, 1)
  {
    if m == 2 {
      MarchYearLength(y);
      assert MonthOffset(3) == 0 && MonthOffset(2) == 337;
    } else {
      MonthOffsetStep(y, m);
    }
  }

  /** `endOfMonth`: the last day of the month. */
  function EndOfMonth(y: int, m: int): (e: int)
    requires 1 <= m <= 12
    ensures StartOfMonth(y, m) + 27 <= e <= StartOfMonth(y, m) + 30
  {
    StartOfMonth(y, m) + DaysInMonth(y, m) - 1
  }

  /** The hour of the day a timestamp falls in (`getHours`). */
  function HourOf(t: int): (h: int)
    ensures 0 <= h < 24
  {
    (t % MsPerDay) / MsPerHour
  }

  /** The minute of the hour (`getMinutes`). */
  function MinuteOf(t: int): (m: int)
    ensures 0 <= m < 60
  {
    (t % MsPerHour) / MsPerMinute
  }

  /** `setHours(hours, minutes)` on a copy of `date`: the same day at the
      given hour and minute, keeping the seconds and milliseconds; values
      out of range carry over into the neighbouring hours and days. */
  function AtTime(date: int, hours: int, minutes: int): int
  {
    StartOfDay(DayOf(date)) + hours * MsPerHour + minutes * MsPerMinute + date % MsPerMinute
  }

  /** A positive multiple of a positive number is at least that number. */
  lemma MultipleAtLeast(k: int, n: int)
    ensures k >= 1 && n > 0 ==> k * n >= n
  {
    if k >= 1 && n > 0 {
      assert (k - 1) * n >= 0;
    }
  }

  /** Division by a positive divisor is determined by any quotient and
      remainder that reassemble the dividend. */
  lemma DivModUnique(t: int, n: int, q: int, r: int)
    requires n > 0 && 0 <= r < n && t == q * n + r
    ensures t / n == q && t % n == r
  {
    var q', r' := t / n, t % n;
    assert t == q' * n + r';
    assert (q - q') * n == r' - r;
    MultipleAtLeast(q - q', n);
    MultipleAtLeast(q' - q, n);
  }

  /** An in-range hour and minute land on the same day and read back. */
  lemma AtTimeReadsBack(date: int, hours: int, minutes: int)
    requires 0 <= hours < 24 && 0 <= minutes < 60
    ensures DayOf(AtTime(date, hours, minutes)) == DayOf(date)
    ensures HourOf(AtTime(date, hours, minutes)) == hours
    ensures MinuteOf(AtTime(date, hours, minutes)) == minutes
  {
    var d := DayOf(date);
    var s := date % MsPerMinute;
    var inHour := minutes * MsPerMinute + s;
    var within := hours * MsPerHour + inHour;
    var t := AtTime(date, hours, minutes);
    DivModUnique(t, MsPerDay, d, within);
    DivModUnique(within, MsPerHour, hours, inHour);
    DivModUnique(t, MsPerHour, d * 24 + hours, inHour);
    DivModUnique(inHour, MsPerMinute, minutes, s);
  }

  /** Setting a timestamp to its own hour and minute gives it back. */
  lemma AtOwnTime(t: int)
    ensures AtTime(t, HourOf(t), MinuteOf(t)) == t
  {
    var d, r := t / MsPerDay, t % MsPerDay;
    var h, r2 := r / MsPerHour, r % MsPerHour;
    var m, r3 := r2 / MsPerMinute, r2 % MsPerMinute;
    DivModUnique(t, MsPerHour, d * 24 + h, r2);
    DivModUnique(t, MsPerMinute, d * 1440 + h * 60 + m, r3);
  }
}
