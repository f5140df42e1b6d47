/** The proleptic Gregorian calendar as Go's time package computes with it in UTC.  A day is
    counted from Monday, 1 January of year 1; an instant is a number of nanoseconds from the
    start of that day; months are numbered through, twelve a year. */
module Calendar {
  import opened Clock

  const TICKS_PER_DAY := 86_400_000_000_000

  predicate IsLeap(year: int) {
    year % 4 == 0 && (year % 100 != 0 || year % 400 == 0)
  }

  function DaysInMonth(year: int, month: int): (days: int)
    requires 1 <= month <= 12
    ensures 28 <= days <= 31
  {
    if month == 2 then (if IsLeap(year) then 29 else 28)
    else if month in {4, 6, 9, 11} then 30
    else 31
  }

  /** The months have the lengths of the Gregorian calendar. */
  lemma MonthTable(year: int, month: int)
    requires 1 <= month <= 12
    ensures DaysInMonth(year, month) ==
              [31, if year % 4 == 0 && (year % 100 != 0 || year % 400 == 0) then 29 else 28,
               31, 30, 31, 30, 31, 31, 30, 31, 30, 31][month - 1]
  {
  }

  function YearStart(year: int): int {
    365 * (year - 1) + (year - 1) / 4 - (year - 1) / 100 + (year - 1) / 400
  }

  lemma YearLength(year: int)
    ensures YearStart(year + 1) - YearStart(year) == if IsLeap(year) then 366 else 365
  {
    assert year / 4 - (year - 1) / 4 == if year % 4 == 0 then 1 else 0;
    assert year / 100 - (year - 1) / 100 == if year % 100 == 0 then 1 else 0;
    assert year / 400 - (year - 1) / 400 == if year % 400 == 0 then 1 else 0;
    assert year % 400 == 0 ==> year % 100 == 0 && year % 4 == 0;
    assert year % 100 == 0 ==> year % 4 == 0;
  }

  /** Days of the year before the given month. */
  function DaysBefore(year: int, month: int): int
    requires 1 <= month <= 12
    decreases month
  {
    if month == 1 then 0 else DaysBefore(year, month - 1) + DaysInMonth(year, month - 1)
  }

  /** Months counted through: month 12 * year + (m - 1) is month m of the year. */
  function YearOf(m: int): int { m / 12 }
  function MonthNumber(m: int): (n: int)
    ensures 1 <= n <= 12
  { m % 12 + 1 }

  function MonthStart(m: int): int {
    YearStart(YearOf(m)) + DaysBefore(YearOf(m), MonthNumber(m))
  }

  lemma MonthLength(m: int)
    ensures MonthStart(m + 1) - MonthStart(m) == DaysInMonth(YearOf(m), MonthNumber(m))
  {
    var y := YearOf(m);
    if MonthNumber(m) == 12 {
      assert YearOf(m + 1) == y + 1 && MonthNumber(m + 1) == 1;
      YearLength(y);
      YearDays(y);
    } else {
      assert YearOf(m + 1) == y && MonthNumber(m + 1) == MonthNumber(m) + 1;
    }
  }

  lemma YearDays(year: int)
    ensures DaysBefore(year, 12) == if IsLeap(year) then 335 else 334
  {
    assert DaysBefore(year, 3) == if IsLeap(year) then 60 else 59;
    assert DaysBefore(year, 6) == DaysBefore(year, 3) + 92;
    assert DaysBefore(year, 9) == DaysBefore(year, 6) + 92;
    assert DaysBefore(year, 12) == DaysBefore(year, 9) + 91;
  }

  /** Later months start later, by at least 28 days a month. */
  lemma {:induction false} MonthsAscend(m: int, n: int)
    requires m <= n
    ensures MonthStart(m) + 28 * (n - m) <= MonthStart(n)
    decreases n - m
  {
    if m < n {
      MonthsAscend(m, n - 1);
      MonthLength(n - 1);
    }
  }

  /** The month a day lies in, searched from month m. */
  function MonthFrom(day: int, m: int): (r: int)
    ensures MonthStart(r) <= day < MonthStart(r + 1)
    decreases if day < MonthStart(m) then MonthStart(m) - day
              else if day >= MonthStart(m + 1) then day - MonthStart(m + 1) + 1 else 0
  {
    hide MonthStart;
    MonthLength(m - 1); MonthLength(m); MonthLength(m + 1);
    if day < MonthStart(m) then MonthFrom(day, m - 1)
    else if day >= MonthStart(m + 1) then MonthFrom(day, m + 1)
    else m
  }

  function MonthOf(day: int): (m: int)
    ensures MonthStart(m) <= day < MonthStart(m + 1)
  {
    MonthFrom(day, 0)
  }

  lemma MonthOfIs(day: int, m: int)
    requires MonthStart(m) <= day < MonthStart(m + 1)
    ensures MonthOf(day) == m
  {
    hide MonthStart, MonthOf;
    var r := MonthOf(day);
    if r < m { MonthsAscend(r + 1, m); }
    if m < r { MonthsAscend(m + 1, r); }
  }

  lemma MonthOfMonotone(d: int, e: int)
    requires d <= e
    ensures MonthOf(d) <= MonthOf(e)
  {
    hide MonthStart, MonthOf;
    if MonthOf(e) < MonthOf(d) { MonthsAscend(MonthOf(e) + 1, MonthOf(d)); }
  }

  function DayOf(t: Instant): int { t / TICKS_PER_DAY }

  function DayOfMonth(day: int): (d: int)
    ensures 1 <= d <= 31
  {
    MonthLength(MonthOf(day));
    day - MonthStart(MonthOf(day)) + 1
  }

  /** time.AddDate(0, months, days) in UTC: a day number beyond the end of the month runs over
      into the next one, as 31 March minus one month becomes 2 or 3 March. */
  function AddDate(t: Instant, months: int, days: int): Instant {
    var day := DayOf(t);
    var target := MonthStart(MonthOf(day) + months) + (DayOfMonth(day) + days) - 1;
    target * TICKS_PER_DAY + t % TICKS_PER_DAY
  }

  lemma DayOfAddDate(t: Instant, months: int, days: int)
    ensures DayOf(AddDate(t, months, days))
         == MonthStart(MonthOf(DayOf(t)) + months) + DayOfMonth(DayOf(t)) + days - 1
    ensures DayOf(AddDate(t, 0, days)) == DayOf(t) + days
  {
  }

  function StartOfDay(t: Instant): Instant { DayOf(t) * TICKS_PER_DAY }

  function StartOfMonth(t: Instant): Instant { MonthStart(MonthOf(DayOf(t))) * TICKS_PER_DAY }

  /** The month reached by adding months is the target month, or the one after it when the day
      of the month does not exist there. */
  lemma AddMonthsOverflow(t: Instant, months: int)
    ensures var m := MonthOf(DayOf(t)) + months;
            var got := MonthOf(DayOf(AddDate(t, months, 0)));
            got == if DayOfMonth(DayOf(t)) <= DaysInMonth(YearOf(m), MonthNumber(m)) then m else m + 1
  {
    hide MonthStart, MonthOf, AddDate, DaysInMonth, DayOf;
    var m := MonthOf(DayOf(t)) + months;
    DayOfAddDate(t, months, 0);
    var day := DayOf(AddDate(t, months, 0));
    MonthLength(m);
    MonthLength(m + 1);
    MonthOfIs(day, if DayOfMonth(DayOf(t)) <= DaysInMonth(YearOf(m), MonthNumber(m)) then m else m + 1);
  }

  /** The month after subtracting is monotone in the instant and in the months added. */
  lemma MonthsBackMonotone(t: Instant, u: Instant, k: int, l: int)
    requires t <= u && k <= l
    ensures MonthOf(DayOf(AddDate(t, k, 0))) <= MonthOf(DayOf(AddDate(u, l, 0)))
  {
    hide MonthStart, MonthOf, AddDate, DaysInMonth;
    assert DayOf(t) <= DayOf(u);
    AddMonthsOverflow(t, k);
    AddMonthsOverflow(u, l);
    MonthOfMonotone(DayOf(t), DayOf(u));
    if MonthOf(DayOf(t)) + k == MonthOf(DayOf(u)) + l {
      assert DayOfMonth(DayOf(t)) <= DayOfMonth(DayOf(u));
    }
  }

  /** Weeks run from Monday; day 0 is one. */
  function WeekIndex(day: int): int { day / 7 }

  /** ISO week and its year: those of the week's Thursday. */
  function ISOWeek(day: int): (yw: (int, int)) {
    var thursday := 7 * WeekIndex(day) + 3;
    var year := YearOf(MonthOf(thursday));
    (year, (thursday - YearStart(year)) / 7 + 1)
  }

  lemma SevenApart(a: int, b: int, s: int)
    requires (7 * a + 3 - s) / 7 == (7 * b + 3 - s) / 7
    ensures a == b
  {
    assert (7 * a + 3 - s) / 7 == a + (3 - s) / 7;
    assert (7 * b + 3 - s) / 7 == b + (3 - s) / 7;
  }

  /** The pair names the week: two days have the same ISO year and week exactly when no Monday comes
      between them. */
  lemma ISOWeekNamesWeek(d: int, e: int)
    ensures ISOWeek(d) == ISOWeek(e) <==> d / 7 == e / 7
  {
    hide ISOWeek, YearStart, WeekIndex;
    WeekIs(d);
    WeekIs(e);
    ISOWeekIs(d);
    ISOWeekIs(e);
    if ISOWeek(d) == ISOWeek(e) {
      SevenApart(WeekIndex(d), WeekIndex(e), YearStart(ISOWeek(d).0));
    } else {
      SameWeek(d, e);
    }
  }

  lemma ISOWeekIs(day: int)
    ensures ISOWeek(day).1 == (7 * WeekIndex(day) + 3 - YearStart(ISOWeek(day).0)) / 7 + 1
  {
    hide MonthOf, YearStart, WeekIndex, YearOf;
  }

  lemma SameWeek(d: int, e: int)
    ensures WeekIndex(d) == WeekIndex(e) ==> ISOWeek(d) == ISOWeek(e)
  {
    hide MonthOf, YearStart, WeekIndex, YearOf;
  }

  lemma WeekIs(day: int)
    ensures WeekIndex(day) == day / 7
  {
  }

  /** Counting days from 1 January of year 1, Unix time begins on day 719162, and that is a Thursday:
      three days before it a Monday begins week 1 of 1970. */
  lemma Epoch()
    ensures YearStart(1) == 0 && YearStart(1970) == 719162 && 719162 % 7 == 3
    ensures ISOWeek(719162) == (1970, 1) && ISOWeek(719159) == (1970, 1) && ISOWeek(719158) != (1970, 1)
    ensures DayOf(719162 * 24 * 60 * 60 * 1_000_000_000) == 719162
  {
    hide YearStart, ISOWeek, DayOf;
    EpochYears();
    EpochDay();
    ISOYearIs(719162, 1970);
    ISOYearIs(719159, 1970);
    ISOWeekNamesWeek(719158, 719162);
  }

  lemma EpochYears()
    ensures YearStart(1) == 0 && YearStart(1970) == 719162 && YearStart(1971) == 719527
  {
  }

  lemma EpochDay()
    ensures DayOf(719162 * 24 * 60 * 60 * 1_000_000_000) == 719162
  {
  }

  /** The ISO year is the year in which the week's Thursday lies. */
  lemma ISOYearIs(day: int, year: int)
    requires YearStart(year) <= 7 * (day / 7) + 3 < YearStart(year + 1)
    ensures ISOWeek(day) == (year, (7 * (day / 7) + 3 - YearStart(year)) / 7 + 1)
  {
    hide MonthStart, MonthOf, YearStart;
    var thursday := 7 * (day / 7) + 3;
    var m := MonthOf(thursday);
    January(year);
    January(year + 1);
    if m < 12 * year {
      MonthsAscend(m + 1, 12 * year);
    }
    if m >= 12 * (year + 1) {
      MonthsAscend(12 * (year + 1), m);
    }
    assert YearOf(m) == year;
  }

  /** The fourth of January is in week 1 of its year (section 3.2.2 of ISO 8601:2004). */
  lemma FourthOfJanuary(year: int)
    ensures ISOWeek(YearStart(year) + 3) == (year, 1)
  {
    hide MonthStart, MonthOf, YearStart, ISOWeek;
    var day := YearStart(year) + 3;
    YearLength(year);
    ISOYearIs(day, year);
  }

  /** From one week to the next the number goes up by one, or the year does and it begins again. */
  lemma NextWeek(day: int)
    ensures var now, next := ISOWeek(day), ISOWeek(day + 7);
            next == (now.0, now.1 + 1) || (next == (now.0 + 1, 1) && now.1 >= 52)
  {
    hide MonthStart, MonthOf, YearStart, ISOWeek;
    var year := YearInRange(day);
    YearLength(year);
    YearLength(year + 1);
    ISOYearIs(day, year);
    assert (day + 7) / 7 == day / 7 + 1;
    if 7 * (day / 7) + 10 < YearStart(year + 1) {
      ISOYearIs(day + 7, year);
    } else {
      ISOYearIs(day + 7, year + 1);
    }
  }

  lemma YearInRange(day: int) returns (year: int)
    ensures YearStart(year) <= 7 * (day / 7) + 3 < YearStart(year + 1)
  {
    hide MonthStart, MonthOf, YearStart;
    var m := MonthOf(7 * (day / 7) + 3);
    year := YearOf(m);
    MonthsAscend(12 * year, m);
    MonthsAscend(m + 1, 12 * year + 12);
    January(year);
    January(year + 1);
  }

  lemma January(year: int)
    ensures MonthStart(12 * year) == YearStart(year)
  {
    hide YearStart;
    assert YearOf(12 * year) == year && MonthNumber(12 * year) == 1;
  }

  /** Week numbers run from 1 to 53. */
  lemma ISOWeekRange(day: int)
    ensures 1 <= ISOWeek(day).1 <= 53
  {
    hide MonthStart, MonthOf, YearStart;
    var thursday := 7 * WeekIndex(day) + 3;
    var m := MonthOf(thursday);
    var y := YearOf(m);
    MonthsAscend(12 * y, m);
    MonthsAscend(m + 1, 12 * y + 12);
    YearLength(y);
    January(y);
    January(y + 1);
  }
}
