/** Reading times without a year from a log: which times come back as they were written. */
module SyslogTime {
  import opened Text

  const DAY_MS := 86_400_000

  /** A moment on the local calendar; months count from 0, days from 1. */
  datatype Civil = Civil(year: nat, month: nat, day: nat, hour: nat, minute: nat, second: nat, ms: nat)

  predicate Leap(y: nat) {
    y % 4 == 0 && (y % 100 != 0 || y % 400 == 0)
  }

  function DaysIn(y: nat, m: nat): nat
    requires m < 12
  {
    if m == 1 then (if Leap(y) then 29 else 28)
    else if m == 3 || m == 5 || m == 8 || m == 10 then 30 else 31
  }

  predicate Valid(c: Civil) {
    c.month < 12 && 1 <= c.day <= DaysIn(c.year, c.month)
    && c.hour < 24 && c.minute < 60 && c.second < 60 && c.ms < 1000
  }

  /** Days before the first of January of year `y`. */
  function DaysBeforeYear(y: nat): nat {
    if y == 0 then 0 else DaysBeforeYear(y - 1) + if Leap(y - 1) then 366 else 365
  }

  function DaysBeforeMonth(y: nat, m: nat): nat
    requires m < 12
  {
    if m == 0 then 0 else DaysBeforeMonth(y, m - 1) + DaysIn(y, m - 1)
  }

  function TimeOfDay(c: Civil): nat {
    ((c.hour * 60 + c.minute) * 60 + c.second) * 1000 + c.ms
  }

  /** Milliseconds since the start of year 0. */
  function Instant(c: Civil): int
    requires c.month < 12
  {
    (DaysBeforeYear(c.year) + DaysBeforeMonth(c.year, c.month) + c.day - 1) * DAY_MS + TimeOfDay(c)
  }

  /** A day past the end of its month falls into the next one, as JavaScript dates do it. */
  function Normalized(y: nat, m: nat, day: nat): (nat, nat, nat)
    requires m < 12 && 1 <= day <= 31
  {
    if day <= DaysIn(y, m) then (y, m, day)
    else if m == 11 then (y + 1, 0, day - DaysIn(y, m))
    else (y, m + 1, day - DaysIn(y, m))
  }

  const MONTHS := ["Jan", "Feb", "Mar", "Apr", "May", "Jun", "Jul", "Aug", "Sep", "Oct", "Nov", "Dec"]

  function MonthNamed(name: string, m: nat := 0): (r: Option<nat>)
    requires m <= 12
    ensures r.Some? ==> r.value < 12 && MONTHS[r.value] == name
    decreases 12 - m
  {
    if m == 12 then None else if MONTHS[m] == name then Some(m) else MonthNamed(name, m + 1)
  }

  /** What the log prints of a time. */
  datatype Stamp = Stamp(month: string, day: nat, hour: nat, minute: nat, second: nat)

  function Print(c: Civil): Stamp
    requires Valid(c)
  {
    Stamp(MONTHS[c.month], c.day, c.hour, c.minute, c.second)
  }

  /** The time a stamp is taken for: in the current year, or in the year before when that would be far in the future. */
  function ParseSyslogTime(s: Stamp, now: Civil): Option<Civil>
    requires now.month < 12 && now.year > 0 && 1 <= s.day <= 31
  {
    var m := MonthNamed(s.month);
    if m.None? then None else
    var (y, month, day) := Normalized(now.year, m.value, s.day);
    var d := Civil(y, month, day, s.hour, s.minute, s.second, 0);
    if Instant(d) - Instant(now) > 2 * DAY_MS then
      var (y', month', day') := Normalized(d.year - 1, d.month, d.day);
      Some(Civil(y', month', day', s.hour, s.minute, s.second, 0))
    else Some(d)
  }

  // ---- the calendar ---------------------------------------------------------------------------

  lemma MonthNames(m: nat)
    requires m < 12
    ensures MonthNamed(MONTHS[m]) == Some(m)
  {
    MonthNamesFrom(m, 0);
  }

  lemma {:induction false} MonthNamesFrom(m: nat, k: nat)
    requires k <= m < 12
    ensures MonthNamed(MONTHS[m], k) == Some(m)
    decreases m - k
  {
    if k < m {
      MonthNamesDiffer(k, m);
      MonthNamesFrom(m, k + 1);
    }
  }

  lemma MonthNamesDiffer(k: nat, m: nat)
    requires k < m < 12
    ensures MONTHS[k] != MONTHS[m]
  {
    assert MONTHS[k][1..] != MONTHS[m][1..];
  }

  lemma MonthStarts(y: nat, m: nat)
    requires m < 12
    ensures DaysBeforeMonth(y, m) ==
      [0, 31, 59, 90, 120, 151, 181, 212, 243, 273, 304, 334][m] + if m >= 2 && Leap(y) then 1 else 0
  {
    if m > 0 {
      MonthStarts(y, m - 1);
    }
  }

  /** A moment lies within its year. */
  lemma WithinYear(c: Civil)
    requires Valid(c)
    ensures DaysBeforeYear(c.year) * DAY_MS <= Instant(c) < DaysBeforeYear(c.year + 1) * DAY_MS
  {
    MonthStarts(c.year, c.month);
    assert TimeOfDay(c) < DAY_MS;
    assert DaysBeforeMonth(c.year, c.month) + c.day <= if Leap(c.year) then 366 else 365;
  }

  lemma {:induction false} YearsGrow(y: nat, z: nat)
    requires y <= z
    ensures DaysBeforeYear(y) + 365 * (z - y) <= DaysBeforeYear(z)
    decreases z - y
  {
    if y < z {
      YearsGrow(y, z - 1);
    }
  }

  /** Times of different years are in the order of their years, more than a year apart if a year lies between them. */
  lemma YearsApart(a: Civil, b: Civil)
    requires Valid(a) && Valid(b) && a.year < b.year
    ensures Instant(b) - Instant(a) > if a.year + 1 < b.year then 365 * DAY_MS else 0
  {
    WithinYear(a);
    WithinYear(b);
    YearsGrow(a.year + 1, b.year);
    hide Instant, Valid, DaysBeforeYear;
  }

  /** A time in the last 363 days is of this year or the last. */
  lemma RecentYears(t: Civil, now: Civil)
    requires Valid(t) && Valid(now) && 0 <= Instant(now) - Instant(t) < 363 * DAY_MS
    ensures t.year == now.year || t.year + 1 == now.year
  {
    hide Instant, Valid;
    if t.year > now.year {
      YearsApart(now, t);
    } else if t.year + 1 < now.year {
      YearsApart(t, now);
    }
  }

  /** The same month and day a year later lie at least 365 days ahead. */
  lemma YearLater(t: Civil)
    requires Valid(t) && t.day <= DaysIn(t.year + 1, t.month)
    ensures Instant(t.(year := t.year + 1)) - Instant(t) >= 365 * DAY_MS
  {
    MonthStarts(t.year, t.month);
    MonthStarts(t.year + 1, t.month);
  }

  predicate LeapDay(c: Civil) {
    c.month == 1 && c.day == 29
  }

  lemma DaysInNextYear(t: Civil)
    requires Valid(t) && !LeapDay(t)
    ensures t.day <= DaysIn(t.year + 1, t.month)
  {
  }

  /**
   * A time less than 363 days back comes out as it was printed, across year ends and leap years, if and only if it is not
   * a leap day of the year before.
   */
  lemma ParsesBackIff(t: Civil, now: Civil)
    requires Valid(t) && Valid(now) && now.year > 0 && t.ms == 0
    requires 0 <= Instant(now) - Instant(t) < 363 * DAY_MS
    ensures ParseSyslogTime(Print(t), now) == Some(t) <==> !(LeapDay(t) && t.year != now.year)
  {
    hide DaysBeforeYear, DaysBeforeMonth;
    MonthNames(t.month);
    RecentYears(t, now);
    if t.year + 1 == now.year {
      if LeapDay(t) {
        LeapDayMoves(t, now);
      } else {
        DaysInNextYear(t);
        YearLater(t);
      }
    }
  }

  lemma LeapDayMoves(t: Civil, now: Civil)
    requires Valid(t) && LeapDay(t) && t.ms == 0 && now.month < 12 && t.year + 1 == now.year
    requires 0 <= Instant(now) - Instant(t) < 363 * DAY_MS
    ensures ParseSyslogTime(Print(t), now) != Some(t)
  {
    hide DaysBeforeYear;
    MonthNames(1);
    assert Normalized(now.year, 1, 29) == (now.year, 2, 1);
    assert Normalized(t.year, 2, 1) == (t.year, 2, 1);
  }
}
