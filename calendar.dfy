/**
  Whole-day Gregorian calendar arithmetic as Python's datetime module performs it:
  the proleptic Gregorian ordinal (0001-01-01 is day 1, a Monday), the weekday,
  and the ISO 8601 week calendar (section 3.2.2 of ISO 8601:2004) in the form
  CPython's date.isocalendar() computes it.
*/
module Calendar {

  /** A calendar date; the time of day is not modelled. */
  datatype Date = Date(year: int, month: int, day: int)

  /** Python's datetime.MINYEAR and datetime.MAXYEAR. */
  const MinYear: int := 1
  const MaxYear: int := 9999

  predicate IsLeapYear(y: int) {
    y % 4 == 0 && (y % 100 != 0 || y % 400 == 0)
  }

  function DaysInYear(y: int): int {
    if IsLeapYear(y) then 366 else 365
  }

  function DaysInMonth(y: int, m: int): int
    requires 1 <= m <= 12
  {
    if m == 2 then (if IsLeapYear(y) then 29 else 28)
    else if m == 4 || m == 6 || m == 9 || m == 11 then 30
    else 31
  }

  /** The dates a Python datetime can hold. */
  predicate IsValidDate(d: Date) {
    MinYear <= d.year <= MaxYear && 1 <= d.month <= 12 && 1 <= d.day <= DaysInMonth(d.year, d.month)
  }

  type CalendarDate = d: Date | IsValidDate(d) witness Date(1, 1, 1)

  /** Python's comparison of two dates: lexicographic on (year, month, day). */
  predicate Before(a: Date, b: Date) {
    a.year < b.year || (a.year == b.year && (a.month < b.month || (a.month == b.month && a.day < b.day)))
  }

  /** Number of days in the years before year y (Python's _days_before_year). */
  function DaysBeforeYear(y: int): int {
    var n := y - 1;
    n * 365 + n / 4 - n / 100 + n / 400
  }

  /** Days before the first of each month in a common year, indexed by month (Python's _DAYS_BEFORE_MONTH). */
  function CommonDaysBeforeMonth(m: int): int
    requires 1 <= m <= 12
  {
    match m
    case 1 => 0
    case 2 => 31
    case 3 => 59
    case 4 => 90
    case 5 => 120
    case 6 => 151
    case 7 => 181
    case 8 => 212
    case 9 => 243
    case 10 => 273
    case 11 => 304
    case 12 => 334
  }

  /** Number of days in year y before the first of month m (Python's _days_before_month). */
  function DaysBeforeMonth(y: int, m: int): int
    requires 1 <= m <= 12
  {
    CommonDaysBeforeMonth(m) + (if m > 2 && IsLeapYear(y) then 1 else 0)
  }

  /** The proleptic Gregorian ordinal of a date (Python's date.toordinal()). */
  function DayNumber(d: Date): int
    requires 1 <= d.month <= 12
  {
    DaysBeforeYear(d.year) + DaysBeforeMonth(d.year, d.month) + d.day
  }

  /** Python's date.weekday() of the date with ordinal n: 0 is Monday, 6 is Sunday. */
  function Weekday(n: int): int {
    (n + 6) % 7
  }

  /** The ordinal of the Monday on or before the date: the start of its ISO week. */
  function MondayOf(d: Date): int
    requires 1 <= d.month <= 12
  {
    DayNumber(d) - Weekday(DayNumber(d))
  }

  /**
    The calendar date following d; past 9999-12-31 the result is no longer a
    valid date, but its ordinal is still one more.
  */
  function NextDay(d: CalendarDate): (e: Date)
    ensures 1 <= e.month <= 12
    ensures DayNumber(e) == DayNumber(d) + 1
    ensures Before(d, e)
    ensures d.year < MaxYear || d.month < 12 || d.day < 31 ==> IsValidDate(e)
  {
    if d.day < DaysInMonth(d.year, d.month) then
      Date(d.year, d.month, d.day + 1)
    else if d.month < 12 then
      MonthLength(d.year, d.month);
      Date(d.year, d.month + 1, 1)
    else
      MonthLength(d.year, 12);
      YearLength(d.year);
      Date(d.year + 1, 1, 1)
  }

  /** The ordinal of the Monday that starts ISO week 1 of year y (CPython's _isoweek1monday). */
  function Week1Monday(y: int): int {
    var firstDay := DayNumber(Date(y, 1, 1));
    var firstWeekday := Weekday(firstDay);
    var monday := firstDay - firstWeekday;
    if firstWeekday > 3 then monday + 7 else monday
  }

  /** An ISO 8601 week date: ISO year, week number 1..53, weekday 1 (Monday) .. 7 (Sunday). */
  datatype IsoDate = IsoDate(isoYear: int, week: int, weekday: int)

  /**
    date.isocalendar(), branch by branch as CPython computes it, for the day
    with ordinal `today` in calendar year `year`, given the week-1 Mondays of
    the year before, the year itself and the year after.
  */
  function IsoWeekOf(year: int, today: int, previous: int, week1: int, next: int): IsoDate {
    var week := (today - week1) / 7;
    var day := (today - week1) % 7;
    if week < 0 then
      IsoDate(year - 1, (today - previous) / 7 + 1, (today - previous) % 7 + 1)
    else if week >= 52 && today >= next then
      IsoDate(year + 1, 1, day + 1)
    else
      IsoDate(year, week + 1, day + 1)
  }

  /** The ISO week date of the day with ordinal n in calendar year y. */
  function IsoOfOrdinal(y: int, n: int): IsoDate {
    IsoWeekOf(y, n, Week1Monday(y - 1), Week1Monday(y), Week1Monday(y + 1))
  }

  /** date.isocalendar(). */
  function IsoCalendar(d: Date): IsoDate
    requires 1 <= d.month <= 12
  {
    IsoOfOrdinal(d.year, DayNumber(d))
  }

  // ---------------------------------------------------------------------------
  // Lengths of years and months

  lemma YearLength(y: int)
    ensures DaysBeforeYear(y + 1) == DaysBeforeYear(y) + DaysInYear(y)
  {
    var n := y - 1;
    DivStep(n);
    Divisibility(y);
  }

  /** The leap-day counts of _days_before_year grow by one exactly at multiples of 4, 100 and 400. */
  lemma DivStep(n: int)
    ensures (n + 1) / 4 - n / 4 == if (n + 1) % 4 == 0 then 1 else 0
    ensures (n + 1) / 100 - n / 100 == if (n + 1) % 100 == 0 then 1 else 0
    ensures (n + 1) / 400 - n / 400 == if (n + 1) % 400 == 0 then 1 else 0
  {
    assert n == 4 * (n / 4) + n % 4;
    assert n == 100 * (n / 100) + n % 100;
    assert n == 400 * (n / 400) + n % 400;
  }

  lemma Divisibility(y: int)
    ensures y % 400 == 0 ==> y % 100 == 0
    ensures y % 100 == 0 ==> y % 4 == 0
  {
    if y % 400 == 0 {
      CenturyOf400(y);
    }
    if y % 100 == 0 {
      LeapOfCentury(y);
    }
  }

  lemma CenturyOf400(y: int)
    requires y % 400 == 0
    ensures y % 100 == 0
  {
    var q := y / 400;
    assert y == 100 * (4 * q);
  }

  lemma LeapOfCentury(y: int)
    requires y % 100 == 0
    ensures y % 4 == 0
  {
    var q := y / 100;
    assert y == 4 * (25 * q);
  }

  lemma MonthLength(y: int, m: int)
    requires 1 <= m <= 12
    ensures m < 12 ==> DaysBeforeMonth(y, m + 1) == DaysBeforeMonth(y, m) + DaysInMonth(y, m)
    ensures m == 12 ==> DaysBeforeMonth(y, m) + DaysInMonth(y, m) == DaysInYear(y)
  {
  }

  lemma {:induction false} MonthsOrdered(y: int, m1: int, m2: int)
    requires 1 <= m1 < m2 <= 12
    ensures DaysBeforeMonth(y, m1) + DaysInMonth(y, m1) <= DaysBeforeMonth(y, m2)
    decreases m2
  {
    MonthLength(y, m2 - 1);
    if m1 < m2 - 1 {
      MonthsOrdered(y, m1, m2 - 1);
    }
  }

  lemma {:induction false} YearsOrdered(y1: int, y2: int)
    requires y1 <= y2
    ensures DaysBeforeYear(y1) + 365 * (y2 - y1) <= DaysBeforeYear(y2)
    decreases y2 - y1
  {
    if y1 < y2 {
      YearsOrdered(y1, y2 - 1);
      YearLength(y2 - 1);
    }
  }

  /** Every date of year y has an ordinal after the end of year y - 1 and within year y. */
  lemma DayNumberInYear(d: CalendarDate)
    ensures DaysBeforeYear(d.year) < DayNumber(d) <= DaysBeforeYear(d.year + 1)
  {
    YearLength(d.year);
    MonthLength(d.year, 12);
    if d.month < 12 {
      MonthsOrdered(d.year, d.month, 12);
    }
  }

  /** Python's date comparison agrees with comparison of ordinals. */
  lemma DayNumberOrder(a: CalendarDate, b: CalendarDate)
    ensures Before(a, b) <==> DayNumber(a) < DayNumber(b)
    ensures a == b <==> DayNumber(a) == DayNumber(b)
  {
    if Before(a, b) {
      DayNumberOrdered(a, b);
    } else if Before(b, a) {
      DayNumberOrdered(b, a);
    }
  }

  lemma DayNumberOrdered(a: CalendarDate, b: CalendarDate)
    requires Before(a, b)
    ensures DayNumber(a) < DayNumber(b)
  {
    DayNumberInYear(a);
    DayNumberInYear(b);
    if a.year < b.year {
      YearsOrdered(a.year + 1, b.year);
    } else if a.month < b.month {
      MonthsOrdered(a.year, a.month, b.month);
    }
  }

  // ---------------------------------------------------------------------------
  // ISO weeks

  lemma MondayDifference(a: int, b: int)
    requires Weekday(a) == 0 && Weekday(b) == 0
    ensures (b - a) % 7 == 0
  {
    assert a + 6 == 7 * ((a + 6) / 7);
    assert b + 6 == 7 * ((b + 6) / 7);
    assert b - a == 7 * ((b + 6) / 7 - (a + 6) / 7);
  }

  /** Splits the distance from a Monday into whole weeks and the weekday. */
  lemma WeeksFromMonday(monday: int, n: int)
    requires Weekday(monday) == 0
    ensures n == monday + 7 * ((n - monday) / 7) + (n - monday) % 7
    ensures Weekday(n) == (n - monday) % 7
  {
    assert monday + 6 == 7 * ((monday + 6) / 7);
    var q := (n - monday) / 7;
    var r := (n - monday) % 7;
    assert n + 6 == 7 * (q + (monday + 6) / 7) + r;
  }

  /** ISO week 1 of year y starts on the Monday of the week that holds 4 January of y. */
  lemma Week1MondayNearNewYear(y: int)
    ensures Weekday(Week1Monday(y)) == 0
    ensures Week1Monday(y) <= DayNumber(Date(y, 1, 4)) <= Week1Monday(y) + 6
  {
    var firstDay := DayNumber(Date(y, 1, 1));
    assert DayNumber(Date(y, 1, 4)) == firstDay + 3;
    MondayOnOrAround(firstDay);
  }

  /** The Monday chosen from the weekday of 1 January lies at most three days away from it. */
  lemma MondayOnOrAround(firstDay: int)
    ensures var w := Weekday(firstDay);
      var monday := if w > 3 then firstDay - w + 7 else firstDay - w;
      Weekday(monday) == 0 && monday <= firstDay + 3 <= monday + 6
  {
    var w := Weekday(firstDay);
    var q := (firstDay + 6) / 7;
    assert firstDay + 6 == 7 * q + w;
    assert (firstDay - w) + 6 == 7 * q;
    assert (firstDay - w + 7) + 6 == 7 * (q + 1);
  }

  /** An ISO year has 52 or 53 weeks. */
  lemma Week1MondayStep(y: int)
    ensures Week1Monday(y + 1) - Week1Monday(y) == 364 || Week1Monday(y + 1) - Week1Monday(y) == 371
  {
    YearLength(y);
    Week1MondayNearNewYear(y);
    Week1MondayNearNewYear(y + 1);
    MondaysAYearApart(Week1Monday(y), Week1Monday(y + 1), DayNumber(Date(y, 1, 4)), DayNumber(Date(y + 1, 1, 4)));
  }

  /** Two Mondays at most six days before days j1 and j2 that are a year apart are 52 or 53 weeks apart. */
  lemma MondaysAYearApart(a: int, b: int, j1: int, j2: int)
    ensures Weekday(a) == 0 && Weekday(b) == 0 && a <= j1 <= a + 6 && b <= j2 <= b + 6
            && (j2 - j1 == 365 || j2 - j1 == 366)
            ==> b - a == 364 || b - a == 371
  {
    if Weekday(a) == 0 && Weekday(b) == 0 {
      MondayDifference(a, b);
    }
  }

  lemma {:induction false} Week1MondayMonotone(y1: int, y2: int)
    requires y1 <= y2
    ensures Week1Monday(y1) + 364 * (y2 - y1) <= Week1Monday(y2)
    decreases y2 - y1
  {
    if y1 < y2 {
      Week1MondayMonotone(y1, y2 - 1);
      Week1MondayStep(y2 - 1);
    }
  }

  /** IsoCalendar yields a week date: ISO year d.year - 1, d.year or d.year + 1, week 1..53, and d's weekday. */
  lemma IsoWeekDate(d: CalendarDate)
    ensures d.year - 1 <= IsoCalendar(d).isoYear <= d.year + 1
    ensures 1 <= IsoCalendar(d).week <= 53
    ensures IsoCalendar(d).weekday == Weekday(DayNumber(d)) + 1
  {
    DayNumberInYear(d);
    IsoOrdinalWeekDate(d.year, DayNumber(d));
  }

  /** Two dates share an ISO (year, week) exactly when their weeks start on the same Monday. */
  lemma SameIsoWeekIffSameMonday(a: CalendarDate, b: CalendarDate)
    ensures (IsoCalendar(a).isoYear == IsoCalendar(b).isoYear && IsoCalendar(a).week == IsoCalendar(b).week)
            <==> MondayOf(a) == MondayOf(b)
  {
    DayNumberInYear(a);
    DayNumberInYear(b);
    SameIsoWeekOfOrdinals(a.year, DayNumber(a), b.year, DayNumber(b));
  }

  /** The same on ordinals na of year ya and nb of year yb. */
  lemma SameIsoWeekOfOrdinals(ya: int, na: int, yb: int, nb: int)
    requires DaysBeforeYear(ya) < na <= DaysBeforeYear(ya + 1)
    requires DaysBeforeYear(yb) < nb <= DaysBeforeYear(yb + 1)
    ensures (IsoOfOrdinal(ya, na).isoYear == IsoOfOrdinal(yb, nb).isoYear && IsoOfOrdinal(ya, na).week == IsoOfOrdinal(yb, nb).week)
            <==> na - Weekday(na) == nb - Weekday(nb)
  {
    var ia, ib := IsoOfOrdinal(ya, na), IsoOfOrdinal(yb, nb);
    IsoWeekStart(ya, na);
    IsoWeekStart(yb, nb);
    Week1MondayOrder(ia.isoYear, ib.isoYear);
    Week1MondayOrder(ib.isoYear, ia.isoYear);
    MondaysOfIsoWeeks(ia, ib, na - Weekday(na), nb - Weekday(nb),
      Week1Monday(ia.isoYear), Week1Monday(ia.isoYear + 1), Week1Monday(ib.isoYear), Week1Monday(ib.isoYear + 1));
  }

  /** The number of weeks of ISO year y. */
  function WeeksInIsoYear(y: int): int {
    (Week1Monday(y + 1) - Week1Monday(y)) / 7
  }

  /** An ISO year has 52 or 53 whole weeks. */
  lemma IsoYearWeeks(y: int)
    ensures Week1Monday(y + 1) - Week1Monday(y) == 7 * WeeksInIsoYear(y)
    ensures WeeksInIsoYear(y) == 52 || WeeksInIsoYear(y) == 53
  {
    Week1MondayStep(y);
  }

  /** Every week number IsoCalendar gives lies within its ISO year. */
  lemma WeekWithinIsoYear(d: CalendarDate)
    ensures IsoCalendar(d).week <= WeeksInIsoYear(IsoCalendar(d).isoYear)
  {
    DayNumberInYear(d);
    IsoWeekStart(d.year, DayNumber(d));
    IsoYearWeeks(IsoCalendar(d).isoYear);
  }

  /**
    The week of b follows the week of a exactly when b's week number is one
    more than a's in the same ISO year, or b is in week 1 of the next ISO
    year and a in the last week of its own, whether that is week 52 or 53.
  */
  lemma NextIsoWeekIffNextWeekNumber(a: CalendarDate, b: CalendarDate)
    ensures MondayOf(b) == MondayOf(a) + 7 <==>
      || (IsoCalendar(b).isoYear == IsoCalendar(a).isoYear && IsoCalendar(b).week == IsoCalendar(a).week + 1)
      || (IsoCalendar(b).isoYear == IsoCalendar(a).isoYear + 1 && IsoCalendar(b).week == 1
          && IsoCalendar(a).week == WeeksInIsoYear(IsoCalendar(a).isoYear))
  {
    DayNumberInYear(a);
    DayNumberInYear(b);
    NextIsoWeekOfOrdinals(a.year, DayNumber(a), b.year, DayNumber(b));
  }

  /** The same on ordinals na of year ya and nb of year yb. */
  lemma NextIsoWeekOfOrdinals(ya: int, na: int, yb: int, nb: int)
    requires DaysBeforeYear(ya) < na <= DaysBeforeYear(ya + 1)
    requires DaysBeforeYear(yb) < nb <= DaysBeforeYear(yb + 1)
    ensures nb - Weekday(nb) == na - Weekday(na) + 7 <==>
      || (IsoOfOrdinal(yb, nb).isoYear == IsoOfOrdinal(ya, na).isoYear && IsoOfOrdinal(yb, nb).week == IsoOfOrdinal(ya, na).week + 1)
      || (IsoOfOrdinal(yb, nb).isoYear == IsoOfOrdinal(ya, na).isoYear + 1 && IsoOfOrdinal(yb, nb).week == 1
          && IsoOfOrdinal(ya, na).week == WeeksInIsoYear(IsoOfOrdinal(ya, na).isoYear))
  {
    var ia, ib := IsoOfOrdinal(ya, na), IsoOfOrdinal(yb, nb);
    IsoWeekStart(ya, na);
    IsoWeekStart(yb, nb);
    IsoYearPair(ia.isoYear, ib.isoYear);
    FollowingIsoWeeks(ia, ib, na - Weekday(na), nb - Weekday(nb),
      Week1Monday(ia.isoYear), Week1Monday(ia.isoYear + 1), Week1Monday(ib.isoYear), Week1Monday(ib.isoYear + 1),
      WeeksInIsoYear(ia.isoYear));
  }

  /** How the week-1 Mondays of ISO years y1 and y2 and of the years after them relate. */
  lemma IsoYearPair(y1: int, y2: int)
    ensures y1 == y2 <==> Week1Monday(y1) == Week1Monday(y2)
    ensures y1 + 1 == y2 <==> Week1Monday(y1 + 1) == Week1Monday(y2)
    ensures Week1Monday(y1) < Week1Monday(y2) ==> Week1Monday(y1 + 1) <= Week1Monday(y2)
    ensures Week1Monday(y2) < Week1Monday(y1) ==> Week1Monday(y2 + 1) <= Week1Monday(y1)
    ensures Week1Monday(y1 + 1) - Week1Monday(y1) == 7 * WeeksInIsoYear(y1)
  {
    Week1MondayOrder(y1, y2);
    Week1MondayOrder(y2, y1);
    Week1MondayOfNextYear(y1, y2);
    IsoYearWeeks(y1);
  }

  /**
    Weeks numbered from the week-1 Mondays ma and mb of two ISO years as in
    MondaysOfIsoWeeks, where the year of a has weeksA weeks: the week of b
    starts seven days after the week of a exactly when its number follows.
  */
  lemma FollowingIsoWeeks(ia: IsoDate, ib: IsoDate, mondayA: int, mondayB: int, ma: int, nxa: int, mb: int, nxb: int, weeksA: int)
    ensures && mondayA == ma + 7 * (ia.week - 1) && 1 <= ia.week && mondayA < nxa
            && mondayB == mb + 7 * (ib.week - 1) && 1 <= ib.week && mondayB < nxb
            && (ia.isoYear == ib.isoYear <==> ma == mb)
            && (ia.isoYear + 1 == ib.isoYear <==> nxa == mb)
            && (ma < mb ==> nxa <= mb) && (mb < ma ==> nxb <= ma)
            && nxa - ma == 7 * weeksA
            ==> (mondayB == mondayA + 7 <==>
                  || (ib.isoYear == ia.isoYear && ib.week == ia.week + 1)
                  || (ib.isoYear == ia.isoYear + 1 && ib.week == 1 && ia.week == weeksA))
  {
  }

  /** For a day n of year y, the Monday of its week within its ISO year. */
  lemma IsoWeekStart(y: int, n: int)
    ensures DaysBeforeYear(y) < n <= DaysBeforeYear(y + 1) ==>
      var iso := IsoOfOrdinal(y, n);
      && n - Weekday(n) == Week1Monday(iso.isoYear) + 7 * (iso.week - 1)
      && 1 <= iso.week
      && n - Weekday(n) < Week1Monday(iso.isoYear + 1)
  {
    if DaysBeforeYear(y) < n <= DaysBeforeYear(y + 1) {
      IsoOrdinalWeekDate(y, n);
      IsoOrdinalMonday(y, n);
      IsoOrdinalBeforeNextYear(y, n);
    }
  }

  /**
    Weeks numbered from the week-1 Mondays ma and mb of two ISO years, which
    end before nxa and nxb and do not overlap unless they are the same year:
    the week numbers agree exactly when the weeks start on the same Monday.
  */
  lemma MondaysOfIsoWeeks(ia: IsoDate, ib: IsoDate, mondayA: int, mondayB: int, ma: int, nxa: int, mb: int, nxb: int)
    ensures && mondayA == ma + 7 * (ia.week - 1) && 1 <= ia.week && mondayA < nxa
            && mondayB == mb + 7 * (ib.week - 1) && 1 <= ib.week && mondayB < nxb
            && (ia.isoYear == ib.isoYear <==> ma == mb)
            && (ma < mb ==> nxa <= mb) && (mb < ma ==> nxb <= ma)
            ==> ((ia.isoYear == ib.isoYear && ia.week == ib.week) <==> mondayA == mondayB)
  {
  }

  /** The ISO week date of the day with ordinal n in year y: its year, week number and weekday. */
  lemma IsoOrdinalWeekDate(y: int, n: int)
    requires DaysBeforeYear(y) < n <= DaysBeforeYear(y + 1)
    ensures y - 1 <= IsoOfOrdinal(y, n).isoYear <= y + 1
    ensures 1 <= IsoOfOrdinal(y, n).week <= 53
    ensures IsoOfOrdinal(y, n).weekday == Weekday(n) + 1
  {
    YearFacts(y, n);
    IsoBranches(y, n, DaysBeforeYear(y), DaysBeforeYear(y + 1), Week1Monday(y - 1), Week1Monday(y), Week1Monday(y + 1), Week1Monday(y + 2));
  }

  /** The Monday of the week of ordinal n lies week - 1 whole weeks after the week-1 Monday of its ISO year. */
  lemma IsoOrdinalMonday(y: int, n: int)
    requires DaysBeforeYear(y) < n <= DaysBeforeYear(y + 1)
    ensures n - Weekday(n) == Week1Monday(IsoOfOrdinal(y, n).isoYear) + 7 * (IsoOfOrdinal(y, n).week - 1)
  {
    YearFacts(y, n);
    IsoBranches(y, n, DaysBeforeYear(y), DaysBeforeYear(y + 1), Week1Monday(y - 1), Week1Monday(y), Week1Monday(y + 1), Week1Monday(y + 2));
    var iso := IsoOfOrdinal(y, n);
    Week1MondayCongruent(iso.isoYear, y - 1);
    Week1MondayCongruent(iso.isoYear, y);
    Week1MondayCongruent(iso.isoYear, y + 1);
  }

  /** The ordinal n lies before the week-1 Monday of the ISO year after its own. */
  lemma IsoOrdinalBeforeNextYear(y: int, n: int)
    requires DaysBeforeYear(y) < n <= DaysBeforeYear(y + 1)
    ensures n < Week1Monday(IsoOfOrdinal(y, n).isoYear + 1)
  {
    YearFacts(y, n);
    IsoBranches(y, n, DaysBeforeYear(y), DaysBeforeYear(y + 1), Week1Monday(y - 1), Week1Monday(y), Week1Monday(y + 1), Week1Monday(y + 2));
    var iso := IsoOfOrdinal(y, n);
    Week1MondayCongruent(iso.isoYear + 1, y);
    Week1MondayCongruent(iso.isoYear + 1, y + 1);
    Week1MondayCongruent(iso.isoYear + 1, y + 2);
  }

  lemma Week1MondayCongruent(a: int, b: int)
    ensures a == b ==> Week1Monday(a) == Week1Monday(b)
  {
  }

  /**
    The shape of calendar year y around its day n: its days are start + 1 ..
    end, and w0 .. w3, the week-1 Mondays of years y - 1 .. y + 2, lie a few
    days from the year boundaries, 52 or 53 weeks apart.
  */
  predicate YearShape(n: int, start: int, end: int, w0: int, w1: int, w2: int, w3: int) {
    && start < n <= end && (end - start == 365 || end - start == 366)
    && start - 2 <= w1 <= start + 4 && end - 2 <= w2 <= end + 4
    && (w1 - w0 == 364 || w1 - w0 == 371)
    && (w2 - w1 == 364 || w2 - w1 == 371)
    && (w3 - w2 == 364 || w3 - w2 == 371)
    && Weekday(w1) == 0
  }

  lemma YearFacts(y: int, n: int)
    ensures DaysBeforeYear(y) < n <= DaysBeforeYear(y + 1) ==> YearShape(n, DaysBeforeYear(y), DaysBeforeYear(y + 1), Week1Monday(y - 1), Week1Monday(y), Week1Monday(y + 1), Week1Monday(y + 2))
  {
    YearLength(y);
    Week1MondayNearYearStart(y);
    Week1MondayNearYearStart(y + 1);
    Week1MondayStep(y - 1);
    Week1MondayStep(y);
    Week1MondayStep(y + 1);
  }

  lemma Week1MondayNearYearStart(y: int)
    ensures Weekday(Week1Monday(y)) == 0
    ensures DaysBeforeYear(y) - 2 <= Week1Monday(y) <= DaysBeforeYear(y) + 4
  {
    Week1MondayNearNewYear(y);
  }

  /**
    The three branches of IsoCalendar on plain integers, for a year of the
    given shape. In each branch the day is week - 1 whole weeks and weekday - 1
    days after the chosen week-1 Monday, and before the following one.
  */
  lemma IsoBranches(y: int, n: int, start: int, end: int, w0: int, w1: int, w2: int, w3: int)
    ensures YearShape(n, start, end, w0, w1, w2, w3) ==>
      var iso := IsoWeekOf(y, n, w0, w1, w2);
      y - 1 <= iso.isoYear <= y + 1 && 1 <= iso.week <= 53 && iso.weekday == Weekday(n) + 1
    ensures YearShape(n, start, end, w0, w1, w2, w3) ==>
      var iso := IsoWeekOf(y, n, w0, w1, w2);
      iso.isoYear == y - 1 ==> n - Weekday(n) == w0 + 7 * (iso.week - 1) && w0 <= n < w1
    ensures YearShape(n, start, end, w0, w1, w2, w3) ==>
      var iso := IsoWeekOf(y, n, w0, w1, w2);
      iso.isoYear == y ==> n - Weekday(n) == w1 + 7 * (iso.week - 1) && w1 <= n < w2
    ensures YearShape(n, start, end, w0, w1, w2, w3) ==>
      var iso := IsoWeekOf(y, n, w0, w1, w2);
      iso.isoYear == y + 1 ==> n - Weekday(n) == w2 + 7 * (iso.week - 1) && w2 <= n < w3
  {
    if YearShape(n, start, end, w0, w1, w2, w3) {
      assert w1 + 6 == 7 * ((w1 + 6) / 7);
      assert w0 + 6 == 7 * ((w1 + 6) / 7 - (w1 - w0) / 7);
      assert w2 + 6 == 7 * ((w1 + 6) / 7 + (w2 - w1) / 7);
      WeeksFromMonday(w1, n);
      if (n - w1) / 7 < 0 {
        WeeksFromMonday(w0, n);
      } else if (n - w1) / 7 >= 52 && n >= w2 {
        WeeksFromMonday(w2, n);
      }
    }
  }

  lemma Week1MondayOfNextYear(y1: int, y2: int)
    ensures y1 + 1 == y2 <==> Week1Monday(y1 + 1) == Week1Monday(y2)
  {
    Week1MondayOrder(y1 + 1, y2);
  }

  /** Distinct years have distinct week-1 Mondays, and the ISO years they start do not overlap. */
  lemma Week1MondayOrder(y1: int, y2: int)
    ensures y1 == y2 <==> Week1Monday(y1) == Week1Monday(y2)
    ensures Week1Monday(y1) < Week1Monday(y2) ==> Week1Monday(y1 + 1) <= Week1Monday(y2)
  {
    if y1 < y2 {
      Week1MondayMonotone(y1, y2);
      Week1MondayMonotone(y1 + 1, y2);
    } else if y2 < y1 {
      Week1MondayMonotone(y2, y1);
    }
  }
}
