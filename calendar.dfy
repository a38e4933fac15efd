/** The proleptic Gregorian calendar and naive-UTC epoch seconds: what
    `datetime(...).timestamp()` and `pd.Timestamp(t, unit="s")` compute in
    the dashboard code, with the local time zone taken to be UTC. */
module Calendar {

  /** A naive date and time, as Python's `datetime` holds it. */
  datatype DateTime = DateTime(year: int, month: int, day: int, hour: int, minute: int, second: int)

  predicate Leap(y: int)
  {
    y % 4 == 0 && (y % 100 != 0 || y % 400 == 0)
  }

  function DaysInYear(y: int): int
  {
    if Leap(y) then 366 else 365
  }

  function DaysInMonth(y: int, m: int): int
    requires 1 <= m <= 12
  {
    if m == 2 then (if Leap(y) then 29 else 28)
    else if m == 4 || m == 6 || m == 9 || m == 11 then 30
    else 31
  }

  /** The calendar check `datetime(...)` applies: years 1 to 9999, a real
      day of the month, a time of day with seconds 0 to 59. */
  predicate Valid(dt: DateTime)
  {
    && 1 <= dt.year <= 9999
    && 1 <= dt.month <= 12
    && 1 <= dt.day <= DaysInMonth(dt.year, dt.month)
    && 0 <= dt.hour < 24 && 0 <= dt.minute < 60 && 0 <= dt.second < 60
  }

  /** The days from 1970-01-01 to the first of January of year `y`. */
  function DaysBeforeYear(y: int): int
    decreases if y >= 1970 then y - 1970 else 1970 - y
  {
    if y == 1970 then 0
    else if y > 1970 then DaysBeforeYear(y - 1) + DaysInYear(y - 1)
    else DaysBeforeYear(y + 1) - DaysInYear(y)
  }

  /** The days of the year before the first of month `m`. */
  function DaysBeforeMonth(y: int, m: int): int
    requires 1 <= m <= 12
  {
    var common := [0, 31, 59, 90, 120, 151, 181, 212, 243, 273, 304, 334][m - 1];
    if m > 2 && Leap(y) then common + 1 else common
  }

  /** The days from 1970-01-01 to the given date (negative before it). */
  function DayNumber(y: int, m: int, d: int): int
    requires 1 <= m <= 12
  {
    DaysBeforeYear(y) + DaysBeforeMonth(y, m) + d - 1
  }

  /** Seconds since 1970-01-01T00:00:00, the time read as UTC. */
  function EpochSeconds(dt: DateTime): int
    requires 1 <= dt.month <= 12
  {
    DayNumber(dt.year, dt.month, dt.day) * 86400 + dt.hour * 3600 + dt.minute * 60 + dt.second
  }

  lemma YearStep(y: int)
    ensures DaysBeforeYear(y + 1) == DaysBeforeYear(y) + DaysInYear(y)
  {
  }

  lemma MonthStep(y: int, m: int)
    requires 1 <= m < 12
    ensures DaysBeforeMonth(y, m + 1) == DaysBeforeMonth(y, m) + DaysInMonth(y, m)
  {
  }

  /** The year holding day `n`, counted from the first of January of `y`,
      and the day's offset within that year. */
  function YearOf(n: int, y: int): (r: (int, int))
    ensures 0 <= r.1 < DaysInYear(r.0)
    ensures DaysBeforeYear(r.0) + r.1 == DaysBeforeYear(y) + n
    decreases if n < 0 then 400 - n else n
  {
    if n < 0 then
      YearStep(y - 1);
      YearOf(n + DaysInYear(y - 1), y - 1)
    else if n >= DaysInYear(y) then
      YearStep(y);
      YearOf(n - DaysInYear(y), y + 1)
    else (y, n)
  }

  /** The month holding day offset `r` of year `y`, counted from the first
      of month `m`, and the day's offset within that month. */
  function MonthOf(y: int, m: int, r: int): (res: (int, int))
    requires 1 <= m <= 12 && 0 <= r < DaysInYear(y) - DaysBeforeMonth(y, m)
    ensures 1 <= res.0 <= 12 && 0 <= res.1 < DaysInMonth(y, res.0)
    ensures DaysBeforeMonth(y, res.0) + res.1 == DaysBeforeMonth(y, m) + r
    decreases 12 - m
  {
    if m < 12 && r >= DaysInMonth(y, m) then
      MonthStep(y, m);
      MonthOf(y, m + 1, r - DaysInMonth(y, m))
    else (m, r)
  }

  /** The calendar date and time of an instant given in epoch seconds:
      what `pd.Timestamp(t, unit="s")` holds. */
  function CivilFromEpoch(t: int): (dt: DateTime)
    ensures 1 <= dt.month <= 12 && 1 <= dt.day <= DaysInMonth(dt.year, dt.month)
    ensures 0 <= dt.hour < 24 && 0 <= dt.minute < 60 && 0 <= dt.second < 60
  {
    var days, secs := t / 86400, t % 86400;
    var (y, offset) := YearOf(days, 1970);
    var (m, d) := MonthOf(y, 1, offset);
    DateTime(y, m, d + 1, secs / 3600, secs % 3600 / 60, secs % 60)
  }

  /** Rendering an instant as a date and time and reading it back gives the
      same instant. */
  lemma EpochOfCivil(t: int)
    ensures EpochSeconds(CivilFromEpoch(t)) == t
  {
    var days, secs := t / 86400, t % 86400;
    var (y, offset) := YearOf(days, 1970);
    var (m, d) := MonthOf(y, 1, offset);
    assert DayNumber(y, m, d + 1) == days;
    assert secs / 3600 * 3600 + secs % 3600 / 60 * 60 + secs % 60 == secs;
  }

  /** Earlier years start earlier: a year ends no later than any later
      year begins. */
  lemma {:induction false} YearsOrdered(a: int, b: int)
    requires a < b
    ensures DaysBeforeYear(a) + DaysInYear(a) <= DaysBeforeYear(b)
    decreases b - a
  {
    YearStep(a);
    if a + 1 < b {
      YearsOrdered(a + 1, b);
      YearStep(a + 1);
    }
  }

  /** A day number has one year and offset. */
  lemma YearUnique(y1: int, r1: int, y2: int, r2: int)
    requires 0 <= r1 < DaysInYear(y1) && 0 <= r2 < DaysInYear(y2)
    requires DaysBeforeYear(y1) + r1 == DaysBeforeYear(y2) + r2
    ensures y1 == y2 && r1 == r2
  {
    if y1 < y2 { YearsOrdered(y1, y2); }
    if y2 < y1 { YearsOrdered(y2, y1); }
  }

  lemma {:induction false} MonthsOrdered(y: int, a: int, b: int)
    requires 1 <= a < b <= 12
    ensures DaysBeforeMonth(y, a) + DaysInMonth(y, a) <= DaysBeforeMonth(y, b)
  {
  }

  /** A day of the year has one month and offset. */
  lemma MonthUnique(y: int, m1: int, r1: int, m2: int, r2: int)
    requires 1 <= m1 <= 12 && 1 <= m2 <= 12
    requires 0 <= r1 < DaysInMonth(y, m1) && 0 <= r2 < DaysInMonth(y, m2)
    requires DaysBeforeMonth(y, m1) + r1 == DaysBeforeMonth(y, m2) + r2
    ensures m1 == m2 && r1 == r2
  {
    if m1 < m2 { MonthsOrdered(y, m1, m2); }
    if m2 < m1 { MonthsOrdered(y, m2, m1); }
  }

  /** Every valid date and time is recovered from its epoch seconds. */
  lemma CivilOfEpoch(dt: DateTime)
    requires Valid(dt)
    ensures CivilFromEpoch(EpochSeconds(dt)) == dt
  {
    var t := EpochSeconds(dt);
    var tod := dt.hour * 3600 + dt.minute * 60 + dt.second;
    var dn := DayNumber(dt.year, dt.month, dt.day);
    assert 0 <= tod < 86400;
    assert t / 86400 == dn && t % 86400 == tod;
    var (y, offset) := YearOf(dn, 1970);
    var dayOfYear := DaysBeforeMonth(dt.year, dt.month) + dt.day - 1;
    assert dayOfYear < DaysInYear(dt.year) by {
      if dt.month < 12 { MonthsOrdered(dt.year, dt.month, 12); }
    }
    YearUnique(y, offset, dt.year, dayOfYear);
    var (m, d) := MonthOf(y, 1, offset);
    MonthUnique(y, m, d, dt.month, dt.day - 1);
    TimeOfDay(dt.hour, dt.minute, dt.second);
    assert CivilFromEpoch(t) == DateTime(y, m, d + 1, tod / 3600, tod % 3600 / 60, tod % 60);
  }

  /** The seconds into a day give back the hour, minute and second. */
  lemma TimeOfDay(h: int, m: int, s: int)
    requires 0 <= h < 24 && 0 <= m < 60 && 0 <= s < 60
    ensures var tod := h * 3600 + m * 60 + s;
      tod / 3600 == h && tod % 3600 / 60 == m && tod % 60 == s
  {
  }

  /** Epoch seconds order instants as the calendar does: a later time of the
      same day, or any later day, has more seconds. */
  lemma SameDayOrder(a: DateTime, b: DateTime)
    requires Valid(a) && Valid(b)
    requires a.year == b.year && a.month == b.month && a.day == b.day
    ensures EpochSeconds(a) - EpochSeconds(b) ==
      (a.hour - b.hour) * 3600 + (a.minute - b.minute) * 60 + (a.second - b.second)
  {
  }

  /** The leap years before year `y`, counted from year 1 (negative for
      years before it). */
  function LeapsBefore(y: int): int
  {
    (y - 1) / 4 - (y - 1) / 100 + (y - 1) / 400
  }

  lemma LeapsStep(y: int)
    ensures LeapsBefore(y + 1) == LeapsBefore(y) + (if Leap(y) then 1 else 0)
  {
    DivStep4(y);
    DivStep100(y);
    DivStep400(y);
    MultipleChain(y);
    var a, b, c := y / 4 - (y - 1) / 4, y / 100 - (y - 1) / 100, y / 400 - (y - 1) / 400;
    assert LeapsBefore(y + 1) - LeapsBefore(y) == a - b + c;
  }

  /** A multiple of 400 is one of 100, and a multiple of 100 one of 4. */
  lemma MultipleChain(y: int)
    ensures y % 400 == 0 ==> y % 100 == 0
    ensures y % 100 == 0 ==> y % 4 == 0
  {
    if y % 400 == 0 {
      MultipleOf(y, y / 400, 400, 100);
    }
    if y % 100 == 0 {
      MultipleOf(y, y / 100, 100, 4);
    }
  }

  lemma MultipleOf(y: int, k: int, big: int, small: int)
    requires (big == 400 && small == 100) || (big == 100 && small == 4)
    requires y == big * k
    ensures y % small == 0
  {
    if big == 400 {
      assert y == 100 * (4 * k);
    } else {
      assert y == 4 * (25 * k);
    }
  }

  /** Passing from `y - 1` to `y` adds one to the quotient by 4, 100 or
      400 exactly at a multiple of it. */
  lemma DivStep4(y: int)
    ensures y / 4 == (y - 1) / 4 + (if y % 4 == 0 then 1 else 0)
  {
    var q, r := (y - 1) / 4, (y - 1) % 4;
    if r == 3 {
      assert y == 4 * (q + 1) + 0;
    } else {
      assert y == 4 * q + (r + 1);
    }
  }

  lemma DivStep100(y: int)
    ensures y / 100 == (y - 1) / 100 + (if y % 100 == 0 then 1 else 0)
  {
    var q, r := (y - 1) / 100, (y - 1) % 100;
    if r == 99 {
      assert y == 100 * (q + 1) + 0;
    } else {
      assert y == 100 * q + (r + 1);
    }
  }

  lemma DivStep400(y: int)
    ensures y / 400 == (y - 1) / 400 + (if y % 400 == 0 then 1 else 0)
  {
    var q, r := (y - 1) / 400, (y - 1) % 400;
    if r == 399 {
      assert y == 400 * (q + 1) + 0;
    } else {
      assert y == 400 * q + (r + 1);
    }
  }

  lemma {:induction false} LeapsMonotone(a: int, b: int)
    requires a <= b
    ensures LeapsBefore(a) <= LeapsBefore(b)
    decreases b - a
  {
    if a < b {
      LeapsStep(a);
      LeapsMonotone(a + 1, b);
    }
  }

  /** The days before a year in closed form: 365 a year plus one for each
      leap year passed. */
  lemma {:induction false} DaysBeforeYearClosed(y: int)
    ensures DaysBeforeYear(y) == 365 * (y - 1970) + LeapsBefore(y) - LeapsBefore(1970)
    decreases if y >= 1970 then y - 1970 else 1970 - y
  {
    if y > 1970 {
      DaysBeforeYearClosed(y - 1);
      LeapsStep(y - 1);
    } else if y < 1970 {
      DaysBeforeYearClosed(y + 1);
      LeapsStep(y);
    }
  }

  /** The instants a pandas timestamp can hold at second resolution:
      nanoseconds since the epoch fitting a signed 64-bit integer. */
  const MaxTimestampSeconds: int := 9223372036

  /** Those instants fall in the years 1677 to 2262, inside the calendar's
      range. */
  lemma TimestampYears(t: int)
    requires -MaxTimestampSeconds <= t <= MaxTimestampSeconds
    ensures 1677 <= CivilFromEpoch(t).year <= 2262
    ensures Valid(CivilFromEpoch(t))
  {
    var dt := CivilFromEpoch(t);
    EpochOfCivil(t);
    var y := dt.year;
    var dayOfYear := DaysBeforeMonth(y, dt.month) + dt.day - 1;
    assert dayOfYear < DaysInYear(y) by {
      if dt.month < 12 { MonthsOrdered(y, dt.month, 12); }
    }
    DaysBeforeYearClosed(y);
    if y > 2262 {
      LeapsMonotone(1970, y);
      assert false;
    }
    if y < 1677 {
      LeapsMonotone(y, 1970);
      assert false;
    }
  }
}
