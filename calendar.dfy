/** The proleptic Gregorian calendar of Python's `datetime`: years 1 through 9999,
    days numbered by their ordinal (0001/01/01 is day 1), times to the second.
    A date-time is identified with the number of seconds since 0001/01/01 00:00:00;
    ToSeconds and FromSeconds are proved to be inverse bijections between valid
    date-times and 0 .. MaxSeconds, which is what `datetime + timedelta` relies on. */
module Calendar {

  import opened Wrappers

  const MinYear := 1
  const MaxYear := 9999
  const SecondsPerDay := 86400

  datatype Date = Date(year: int, month: int, day: int)

  datatype DateTime = DateTime(date: Date, hour: int, minute: int, second: int)

  predicate IsLeapYear(y: int) {
    y % 4 == 0 && (y % 100 != 0 || y % 400 == 0)
  }

  function DaysInYear(y: int): int {
    if IsLeapYear(y) then 366 else 365
  }

  function DaysInMonth(y: int, m: int): int
    requires 1 <= m <= 12
  {
    if m == 2 then (if IsLeapYear(y) then 29 else 28)
    else if m == 4 || m == 6 || m == 9 || m == 11 then 30
    else 31
  }

  predicate ValidDate(d: Date) {
    MinYear <= d.year <= MaxYear && 1 <= d.month <= 12 && 1 <= d.day <= DaysInMonth(d.year, d.month)
  }

  predicate Valid(t: DateTime) {
    ValidDate(t.date) && 0 <= t.hour < 24 && 0 <= t.minute < 60 && 0 <= t.second < 60
  }

  /** Number of days in the years before year y. */
  function DaysBeforeYear(y: int): int
    requires y >= 1
  {
    var p := y - 1;
    p * 365 + p / 4 - p / 100 + p / 400
  }

  /** Number of days in year y before the first of month m. */
  function DaysBeforeMonth(y: int, m: int): int
    requires 1 <= m <= 12
  {
    var common :=
      if m == 1 then 0 else if m == 2 then 31 else if m == 3 then 59
      else if m == 4 then 90 else if m == 5 then 120 else if m == 6 then 151
      else if m == 7 then 181 else if m == 8 then 212 else if m == 9 then 243
      else if m == 10 then 273 else if m == 11 then 304 else 334;
    common + (if m > 2 && IsLeapYear(y) then 1 else 0)
  }

  function Ordinal(d: Date): int
    requires ValidDate(d)
  {
    DaysBeforeYear(d.year) + DaysBeforeMonth(d.year, d.month) + d.day
  }

  /** The ordinal of 9999/12/31, the last day Python's datetime can represent. */
  const MaxOrdinal := DaysBeforeYear(MaxYear + 1)

  const MaxSeconds := MaxOrdinal * SecondsPerDay - 1

  lemma DaysBeforeYearStep(y: int)
    requires y >= 1
    ensures DaysBeforeYear(y + 1) == DaysBeforeYear(y) + DaysInYear(y)
  {
    var p := y - 1;
    assert y / 4 == p / 4 + (if y % 4 == 0 then 1 else 0) by {
      var q, r := p / 4, p % 4;
      if r == 3 { assert y == 4 * (q + 1); } else { assert y == 4 * q + (r + 1); }
    }
    assert y / 100 == p / 100 + (if y % 100 == 0 then 1 else 0) by {
      var q, r := p / 100, p % 100;
      if r == 99 { assert y == 100 * (q + 1); } else { assert y == 100 * q + (r + 1); }
    }
    assert y / 400 == p / 400 + (if y % 400 == 0 then 1 else 0) by {
      var q, r := p / 400, p % 400;
      if r == 399 { assert y == 400 * (q + 1); } else { assert y == 400 * q + (r + 1); }
    }
    var a, b, c := (if y % 4 == 0 then 1 else 0), (if y % 100 == 0 then 1 else 0), (if y % 400 == 0 then 1 else 0);
    assert DaysBeforeYear(y + 1) == DaysBeforeYear(y) + 365 + a - b + c;
    DivisibilityChain(y);
  }

  /** A year divisible by 400 is divisible by 100, and one divisible by 100 by 4. */
  lemma DivisibilityChain(y: int)
    ensures y % 400 == 0 ==> y % 100 == 0
    ensures y % 100 == 0 ==> y % 4 == 0
  {
    MultipleMod(y / 400 * 4, 100);
    MultipleMod(y / 100 * 25, 4);
  }

  lemma MultipleMod(k: int, d: int)
    requires d == 4 || d == 100
    ensures (k * d) % d == 0
  {
  }

  /** Each later year starts at least 365 days later. */
  lemma {:induction false} DaysBeforeYearGrows(a: int, b: int)
    requires 1 <= a <= b
    ensures DaysBeforeYear(a) + 365 * (b - a) <= DaysBeforeYear(b)
    decreases b - a
  {
    if a < b {
      DaysBeforeYearGrows(a, b - 1);
      DaysBeforeYearStep(b - 1);
    }
  }

  lemma MonthStep(y: int, m: int)
    requires 1 <= m <= 12
    ensures m < 12 ==> DaysBeforeMonth(y, m + 1) == DaysBeforeMonth(y, m) + DaysInMonth(y, m)
    ensures m == 12 ==> DaysBeforeMonth(y, m) + DaysInMonth(y, m) == DaysInYear(y)
  {
  }

  /** Months partition their year: month m' starts no earlier than month m ends. */
  lemma {:induction false} MonthsOrdered(y: int, m: int, m': int)
    requires 1 <= m < m' <= 12
    ensures DaysBeforeMonth(y, m) + DaysInMonth(y, m) <= DaysBeforeMonth(y, m')
    decreases m' - m
  {
    MonthStep(y, m);
    if m + 1 < m' {
      MonthsOrdered(y, m + 1, m');
    }
  }

  /** The day of a valid date falls inside its year and inside its month. */
  lemma OrdinalBounds(d: Date)
    requires ValidDate(d)
    ensures DaysBeforeYear(d.year) < Ordinal(d) <= DaysBeforeYear(d.year + 1)
    ensures 1 <= Ordinal(d) <= MaxOrdinal
  {
    MonthStep(d.year, d.month);
    if d.month < 12 {
      MonthsOrdered(d.year, d.month, 12);
      MonthStep(d.year, 12);
    }
    DaysBeforeYearStep(d.year);
    DaysBeforeYearGrows(d.year + 1, MaxYear + 1);
    DaysBeforeYearGrows(1, d.year);
  }

  /** A valid date of an earlier year has a smaller ordinal. */
  lemma OrdinalYearOrdered(d1: Date, d2: Date)
    requires ValidDate(d1) && ValidDate(d2) && d1.year < d2.year
    ensures Ordinal(d1) < Ordinal(d2)
  {
    OrdinalBounds(d1);
    OrdinalBounds(d2);
    DaysBeforeYearGrows(d1.year + 1, d2.year);
  }

  /** A valid date of an earlier month of the same year has a smaller ordinal. */
  lemma OrdinalMonthOrdered(d1: Date, d2: Date)
    requires ValidDate(d1) && ValidDate(d2) && d1.year == d2.year && d1.month < d2.month
    ensures Ordinal(d1) < Ordinal(d2)
  {
    MonthsOrdered(d1.year, d1.month, d2.month);
  }

  /** Distinct valid dates have distinct ordinals. */
  lemma OrdinalInjective(d1: Date, d2: Date)
    requires ValidDate(d1) && ValidDate(d2) && Ordinal(d1) == Ordinal(d2)
    ensures d1 == d2
  {
    if d1.year < d2.year {
      OrdinalYearOrdered(d1, d2);
      assert false;
    } else if d2.year < d1.year {
      OrdinalYearOrdered(d2, d1);
      assert false;
    } else if d1.month < d2.month {
      OrdinalMonthOrdered(d1, d2);
      assert false;
    } else if d2.month < d1.month {
      OrdinalMonthOrdered(d2, d1);
      assert false;
    }
  }

  /** The year whose days contain ordinal n, searched from year y on. */
  function YearOf(n: int, y: int): (r: int)
    requires 1 <= y && DaysBeforeYear(y) < n
    ensures y <= r && DaysBeforeYear(r) < n <= DaysBeforeYear(r + 1)
    decreases n - DaysBeforeYear(y)
  {
    DaysBeforeYearStep(y);
    if n <= DaysBeforeYear(y + 1) then y else YearOf(n, y + 1)
  }

  /** The month of year y that contains day-of-year doy, searched from month m on. */
  function MonthOf(y: int, doy: int, m: int): (r: int)
    requires 1 <= m <= 12 && DaysBeforeMonth(y, m) < doy <= DaysInYear(y)
    ensures m <= r <= 12 && DaysBeforeMonth(y, r) < doy <= DaysBeforeMonth(y, r) + DaysInMonth(y, r)
    decreases 12 - m
  {
    MonthStep(y, m);
    if m == 12 || doy <= DaysBeforeMonth(y, m) + DaysInMonth(y, m) then m else MonthOf(y, doy, m + 1)
  }

  /** The date with ordinal n. */
  function FromOrdinal(n: int): (d: Date)
    requires 1 <= n <= MaxOrdinal
    ensures ValidDate(d) && Ordinal(d) == n
  {
    var y := YearOf(n, 1);
    DaysBeforeYearStep(y);
    assert y <= MaxYear by {
      if y > MaxYear {
        DaysBeforeYearGrows(MaxYear + 1, y);
      }
    }
    var m := MonthOf(y, n - DaysBeforeYear(y), 1);
    Date(y, m, n - DaysBeforeYear(y) - DaysBeforeMonth(y, m))
  }

  lemma FromOrdinalOfOrdinal(d: Date)
    requires ValidDate(d)
    ensures FromOrdinal(Ordinal(d)) == d
  {
    OrdinalBounds(d);
    OrdinalInjective(FromOrdinal(Ordinal(d)), d);
  }

  /** Seconds elapsed since 0001/01/01 00:00:00. */
  function ToSeconds(t: DateTime): (s: int)
    requires Valid(t)
    ensures 0 <= s <= MaxSeconds
  {
    OrdinalBounds(t.date);
    (Ordinal(t.date) - 1) * SecondsPerDay + t.hour * 3600 + t.minute * 60 + t.second
  }

  /** The date-time s seconds after 0001/01/01 00:00:00. */
  function FromSeconds(s: int): (t: DateTime)
    requires 0 <= s <= MaxSeconds
    ensures Valid(t) && ToSeconds(t) == s
  {
    var days, rest := s / SecondsPerDay, s % SecondsPerDay;
    assert s == days * SecondsPerDay + rest && 0 <= rest < SecondsPerDay;
    assert days < MaxOrdinal;
    ClockSplit(rest);
    DateTime(FromOrdinal(days + 1), rest / 3600, rest % 3600 / 60, rest % 60)
  }

  /** A second of the day splits into hours, minutes and seconds. */
  lemma ClockSplit(rest: int)
    requires 0 <= rest < SecondsPerDay
    ensures 0 <= rest / 3600 < 24 && 0 <= rest % 3600 / 60 < 60 && 0 <= rest % 60 < 60
    ensures rest / 3600 * 3600 + rest % 3600 / 60 * 60 + rest % 60 == rest
  {
    var h, m := rest / 3600, rest % 3600;
    assert rest == h * 3600 + m && 0 <= m < 3600;
    var mm, sec := m / 60, m % 60;
    assert m == mm * 60 + sec && 0 <= sec < 60;
    assert rest == (h * 60 + mm) * 60 + sec;
    assert rest % 60 == sec;
  }

  lemma FromSecondsOfToSeconds(t: DateTime)
    requires Valid(t)
    ensures FromSeconds(ToSeconds(t)) == t
  {
    var s := ToSeconds(t);
    var clock := t.hour * 3600 + t.minute * 60 + t.second;
    OrdinalBounds(t.date);
    SplitSeconds(s, Ordinal(t.date) - 1, clock);
    ClockOfFields(t.hour, t.minute, t.second);
    var u := FromSeconds(s);
    FromSecondsFields(s);
    OrdinalInjective(u.date, t.date);
  }

  /** The fields of FromSeconds(s): the day after s / SecondsPerDay whole days, and the
      hour, minute and second of the remaining seconds. */
  lemma FromSecondsFields(s: int)
    requires 0 <= s <= MaxSeconds
    ensures var rest := s % SecondsPerDay;
      var t := FromSeconds(s);
      1 <= s / SecondsPerDay + 1 <= MaxOrdinal && t.date == FromOrdinal(s / SecondsPerDay + 1)
      && t.hour == rest / 3600 && t.minute == rest % 3600 / 60 && t.second == rest % 60
  {
  }

  /** Whole days and the second of the day are recovered by division. */
  lemma SplitSeconds(s: int, days: int, clock: int)
    requires s == days * SecondsPerDay + clock && 0 <= clock < SecondsPerDay
    ensures s / SecondsPerDay == days && s % SecondsPerDay == clock
  {
  }

  /** The hour, minute and second are recovered from the second of the day. */
  lemma ClockOfFields(h: int, m: int, sec: int)
    requires 0 <= h < 24 && 0 <= m < 60 && 0 <= sec < 60
    ensures var clock := h * 3600 + m * 60 + sec;
      clock / 3600 == h && clock % 3600 / 60 == m && clock % 60 == sec
  {
    var within := m * 60 + sec;
    assert 0 <= within < 3600;
    assert (h * 3600 + within) / 3600 == h && (h * 3600 + within) % 3600 == within;
    assert h * 3600 + within == (h * 60 + m) * 60 + sec;
  }

  /** Two valid date-times are equal exactly when they denote the same second. */
  lemma ToSecondsInjective(t1: DateTime, t2: DateTime)
    requires Valid(t1) && Valid(t2)
    ensures ToSeconds(t1) == ToSeconds(t2) <==> t1 == t2
  {
    if ToSeconds(t1) == ToSeconds(t2) {
      FromSecondsOfToSeconds(t1);
      FromSecondsOfToSeconds(t2);
    }
  }

  /** `t + timedelta(minutes=minutes)`, or None when the result leaves years 1..9999. */
  function AddMinutes(t: DateTime, minutes: int): (r: Option<DateTime>)
    requires Valid(t)
    ensures r.Some? <==> 0 <= ToSeconds(t) + 60 * minutes <= MaxSeconds
    ensures r.Some? ==> Valid(r.value) && ToSeconds(r.value) == ToSeconds(t) + 60 * minutes
  {
    var s := ToSeconds(t) + 60 * minutes;
    if 0 <= s <= MaxSeconds then Some(FromSeconds(s)) else None
  }

}
