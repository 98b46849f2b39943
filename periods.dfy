/**
  The periodicities of a habit and the two calendar relations each one
  brings: the period bucket `mark_completed` refuses to fill twice, and the
  adjacency of two sorted completions that lets `get_longest_streak` extend
  a streak.
*/
module Periods {
  import opened Failures
  import opened Calendar

  /** The periodicities the source's branches recognise. */
  datatype PeriodKind = Daily | Weekly | Monthly

  function KindName(k: PeriodKind): string {
    match k
    case Daily => "daily"
    case Weekly => "weekly"
    case Monthly => "monthly"
  }

  /**
    The branch a periodicity string selects; the source compares it with
    `==`, so any other string, "Daily" included, selects none.
  */
  function KindOf(p: string): (k: Option<PeriodKind>)
    ensures k.Some? ==> KindName(k.value) == p
    ensures k.None? ==> p != "daily" && p != "weekly" && p != "monthly"
  {
    if p == "daily" then Some(Daily)
    else if p == "weekly" then Some(Weekly)
    else if p == "monthly" then Some(Monthly)
    else None
  }

  /** KindName names each branch by the string that selects it. */
  lemma KindNameSelectsKind(k: PeriodKind)
    ensures KindOf(KindName(k)) == Some(k)
  {
  }

  // ---------------------------------------------------------------------------
  // Period buckets (the duplicate checks of mark_completed)

  /** `existing.date() == date.date()`. */
  predicate SameDay(a: CalendarDate, b: CalendarDate) {
    a == b
  }

  /** Equal ISO year and ISO week number, as `isocalendar()` gives them. */
  predicate SameIsoWeek(a: CalendarDate, b: CalendarDate) {
    IsoCalendar(a).isoYear == IsoCalendar(b).isoYear && IsoCalendar(a).week == IsoCalendar(b).week
  }

  /** Equal year and month. */
  predicate SameMonth(a: CalendarDate, b: CalendarDate) {
    a.year == b.year && a.month == b.month
  }

  predicate SameBucket(k: PeriodKind, a: CalendarDate, b: CalendarDate) {
    match k
    case Daily => SameDay(a, b)
    case Weekly => SameIsoWeek(a, b)
    case Monthly => SameMonth(a, b)
  }

  /** The number of months from January of year 0 to the month of d. */
  function MonthIndex(d: Date): int {
    d.year * 12 + d.month - 1
  }

  /** A week bucket is the seven days from a Monday: two dates share one exactly when their weeks start together. */
  lemma WeekBucketIsMondayWeek(a: CalendarDate, b: CalendarDate)
    ensures SameBucket(Weekly, a, b) <==> MondayOf(a) == MondayOf(b)
  {
    SameIsoWeekIffSameMonday(a, b);
  }

  /** A month bucket is one value of the month index. */
  lemma MonthBucketIsMonthIndex(a: CalendarDate, b: CalendarDate)
    ensures SameBucket(Monthly, a, b) <==> MonthIndex(a) == MonthIndex(b)
  {
  }

  /** Each bucket is an equivalence: reflexive, symmetric and transitive. */
  lemma BucketEquivalence(k: PeriodKind, a: CalendarDate, b: CalendarDate, c: CalendarDate)
    ensures SameBucket(k, a, a)
    ensures SameBucket(k, a, b) ==> SameBucket(k, b, a)
    ensures SameBucket(k, a, b) && SameBucket(k, b, c) ==> SameBucket(k, a, c)
  {
  }

  /** Two dates of the same day share every bucket. */
  lemma SameDayInEveryBucket(k: PeriodKind, a: CalendarDate, b: CalendarDate)
    ensures SameDay(a, b) ==> SameBucket(k, a, b)
  {
  }

  // ---------------------------------------------------------------------------
  // Streak adjacency (the loops of get_longest_streak)

  /**
    The weekly streak rules: habit.py:89 accepts a gap of at most seven
    days, tests/habit.py:109-115 compares ISO week numbers, and
    ConsecutiveIsoWeeks is the corrected form of the latter, which joins a
    completion to one in the ISO week just before it, week 53 included.
  */
  datatype WeeklyRule = GapAtMostSevenDays | IsoWeekNumbers | ConsecutiveIsoWeeks

  /**
    When a completion extends the streak of the completion before it:
    DayAfter for daily habits, WithinSevenDays, IsoWeekNumberAfter or
    IsoWeekAfter for weekly ones, MonthAfter for monthly ones. IsoWeekAfter
    is the week that follows on the calendar, which the ISO-number rule is
    meant to express.
  */
  datatype Adjacency = DayAfter | WithinSevenDays | IsoWeekNumberAfter | MonthAfter | IsoWeekAfter

  function AdjacencyFor(k: PeriodKind, rule: WeeklyRule): Adjacency {
    match k
    case Daily => DayAfter
    case Weekly => (
      match rule
      case GapAtMostSevenDays => WithinSevenDays
      case IsoWeekNumbers => IsoWeekNumberAfter
      case ConsecutiveIsoWeeks => IsoWeekAfter)
    case Monthly => MonthAfter
  }

  /** `(b - a).days` for two whole days. */
  function DaysBetween(a: CalendarDate, b: CalendarDate): int {
    DayNumber(b) - DayNumber(a)
  }

  /** The week-number test of tests/habit.py:109-115, with its 52 -> 1 rollover. */
  predicate IsoNumbersFollow(ia: IsoDate, ib: IsoDate) {
    || (ib.isoYear == ia.isoYear && ib.week == ia.week + 1)
    || (ib.isoYear == ia.isoYear + 1 && ib.week == 1 && ia.week == 52)
  }

  predicate Adjacent(adj: Adjacency, a: CalendarDate, b: CalendarDate) {
    match adj
    case DayAfter => DaysBetween(a, b) == 1
    case WithinSevenDays => DaysBetween(a, b) <= 7
    case IsoWeekNumberAfter => IsoNumbersFollow(IsoCalendar(a), IsoCalendar(b))
    case MonthAfter => (b.year - a.year) * 12 + (b.month - a.month) == 1
    case IsoWeekAfter => MondayOf(b) == MondayOf(a) + 7
  }

  /** The first day of the month after the month of d. */
  function FirstOfNextMonth(d: CalendarDate): Date {
    if d.month == 12 then Date(d.year + 1, 1, 1) else Date(d.year, d.month + 1, 1)
  }

  /** Daily adjacency: b is the calendar day after a. */
  lemma DayAfterIsNextDay(a: CalendarDate, b: CalendarDate)
    ensures Adjacent(DayAfter, a, b) <==> b == NextDay(a)
  {
    var e := NextDay(a);
    if IsValidDate(e) {
      DayNumberOrder(b, e);
    } else {
      assert a == Date(MaxYear, 12, 31);
      DayNumberOrder(b, a);
    }
  }

  /** Monthly adjacency: b falls in the month after the month of a. */
  lemma MonthAfterIsNextMonth(a: CalendarDate, b: CalendarDate)
    ensures Adjacent(MonthAfter, a, b) <==> (b.year == FirstOfNextMonth(a).year && b.month == FirstOfNextMonth(a).month)
  {
  }

  /** Two adjacent days are at most seven days apart: a daily run is a run under the seven-day rule. */
  lemma DayAfterWithinSevenDays(a: CalendarDate, b: CalendarDate)
    ensures Adjacent(DayAfter, a, b) ==> Adjacent(WithinSevenDays, a, b)
  {
  }

  /**
    On dates in distinct ISO weeks, as mark_completed keeps them, a gap of at
    most seven days reaches only into the following week.
  */
  lemma WithinSevenDaysOfDistinctWeeks(a: CalendarDate, b: CalendarDate)
    ensures !SameBucket(Weekly, a, b) && 0 <= DaysBetween(a, b) ==>
      (Adjacent(WithinSevenDays, a, b) ==> Adjacent(IsoWeekAfter, a, b))
  {
    WeekBucketIsMondayWeek(a, b);
    FollowingMonday(DayNumber(a), DayNumber(b));
  }

  lemma FollowingMonday(na: int, nb: int)
    ensures na <= nb <= na + 7 && na - Weekday(na) != nb - Weekday(nb) ==> nb - Weekday(nb) == na - Weekday(na) + 7
  {
    var qa, qb := (na + 6) / 7, (nb + 6) / 7;
    assert na - Weekday(na) == 7 * qa - 6;
    assert nb - Weekday(nb) == 7 * qb - 6;
  }

  /**
    The corrected weekly rule, stated as ISO week numbers: the week of b
    follows the week of a exactly when its number is one more in the same
    ISO year, or it is week 1 and a is in the last week of its ISO year,
    week 52 or week 53.
  */
  lemma IsoWeekAfterByNumbers(a: CalendarDate, b: CalendarDate)
    ensures Adjacent(IsoWeekAfter, a, b) <==>
      || (IsoCalendar(b).isoYear == IsoCalendar(a).isoYear && IsoCalendar(b).week == IsoCalendar(a).week + 1)
      || (IsoCalendar(b).isoYear == IsoCalendar(a).isoYear + 1 && IsoCalendar(b).week == 1
          && IsoCalendar(a).week == WeeksInIsoYear(IsoCalendar(a).isoYear))
  {
    NextIsoWeekIffNextWeekNumber(a, b);
  }

  /**
    The week-number rule of tests/habit.py agrees with the following week
    except at a week 53: after week 53 it never joins, and its 52 -> 1 case
    also joins week 52 to the week 1 two weeks later when week 53 lies between.
  */
  lemma IsoWeekNumberRuleAgainstFollowingWeek(a: CalendarDate, b: CalendarDate)
    ensures Adjacent(IsoWeekAfter, a, b) ==> (Adjacent(IsoWeekNumberAfter, a, b) <==> IsoCalendar(a).week != 53)
    ensures Adjacent(IsoWeekNumberAfter, a, b) && !Adjacent(IsoWeekAfter, a, b) ==>
      IsoCalendar(a).week == 52 && WeeksInIsoYear(IsoCalendar(a).isoYear) == 53
  {
    var ia, ib := IsoCalendar(a), IsoCalendar(b);
    NextIsoWeekIffNextWeekNumber(a, b);
    WeekWithinIsoYear(a);
    IsoWeekDate(b);
    IsoYearWeeks(ia.isoYear);
    NumbersAgainstFollowing(ia, ib, MondayOf(b) == MondayOf(a) + 7, WeeksInIsoYear(ia.isoYear));
  }

  /** The same on ISO dates ia and ib whose weeks follow each other exactly when `follows`, in an ISO year of weeksA weeks. */
  lemma NumbersAgainstFollowing(ia: IsoDate, ib: IsoDate, follows: bool, weeksA: int)
    ensures && (follows <==> || (ib.isoYear == ia.isoYear && ib.week == ia.week + 1)
                             || (ib.isoYear == ia.isoYear + 1 && ib.week == 1 && ia.week == weeksA))
            && 1 <= ia.week <= weeksA && (weeksA == 52 || weeksA == 53) && ib.week <= 53
            ==> && (follows ==> (IsoNumbersFollow(ia, ib) <==> ia.week != 53))
                && (IsoNumbersFollow(ia, ib) && !follows ==> ia.week == 52 && weeksA == 53)
  {
  }

  /** The ISO week-1 Mondays of 2019 to 2022: 2018-12-31, 2019-12-30, 2021-01-04 and 2022-01-03. */
  lemma Week1MondaysAround2020()
    ensures Week1Monday(2019) == 737059 && Week1Monday(2020) == 737423
    ensures Week1Monday(2021) == 737794 && Week1Monday(2022) == 738158
  {
    assert DaysBeforeYear(2019) == 737059;
    assert DaysBeforeYear(2020) == 737424;
    assert DaysBeforeYear(2021) == 737790;
    assert DaysBeforeYear(2022) == 738155;
  }

  /** Thursday 2020-12-31, in ISO week 53 of 2020. */
  const LastDayOf2020: CalendarDate := Date(2020, 12, 31)
  /** Monday 2020-12-21, which starts ISO week 52 of 2020. */
  const MondayOfWeek52Of2020: CalendarDate := Date(2020, 12, 21)
  /** Monday 2021-01-04, which starts ISO week 1 of 2021. */
  const MondayOfWeek1Of2021: CalendarDate := Date(2021, 1, 4)

  /** 2020-12-31 and 2021-01-04 are in successive weeks, 2020-W53 and 2021-W01, yet the week-number rule does not join them. */
  lemma Week53BreaksIsoWeekNumberRule()
    ensures IsoCalendar(LastDayOf2020) == IsoDate(2020, 53, 4)
    ensures IsoCalendar(MondayOfWeek1Of2021) == IsoDate(2021, 1, 1)
    ensures Adjacent(IsoWeekAfter, LastDayOf2020, MondayOfWeek1Of2021)
    ensures !Adjacent(IsoWeekNumberAfter, LastDayOf2020, MondayOfWeek1Of2021)
  {
    Week1MondaysAround2020();
    assert DayNumber(LastDayOf2020) == 737790;
    assert DayNumber(MondayOfWeek1Of2021) == 737794;
  }

  /** 2020-12-21 (2020-W52) and 2021-01-04 (2021-W01) are two weeks apart, yet the week-number rule joins them. */
  lemma Week52JoinsAcrossWeek53()
    ensures IsoCalendar(MondayOfWeek52Of2020) == IsoDate(2020, 52, 1)
    ensures IsoCalendar(MondayOfWeek1Of2021) == IsoDate(2021, 1, 1)
    ensures Adjacent(IsoWeekNumberAfter, MondayOfWeek52Of2020, MondayOfWeek1Of2021)
    ensures !Adjacent(IsoWeekAfter, MondayOfWeek52Of2020, MondayOfWeek1Of2021)
  {
    Week1MondaysAround2020();
    assert DayNumber(MondayOfWeek52Of2020) == 737780;
    assert DayNumber(MondayOfWeek1Of2021) == 737794;
  }

  /** Monday 2025-06-02 and Sunday 2025-06-15 are in successive weeks, thirteen days apart: the seven-day rule does not join them. */
  lemma SevenDayRuleMissesFollowingWeek()
    ensures Adjacent(IsoWeekAfter, Date(2025, 6, 2), Date(2025, 6, 15))
    ensures !Adjacent(WithinSevenDays, Date(2025, 6, 2), Date(2025, 6, 15))
  {
    assert DayNumber(Date(2025, 6, 2)) == 739404;
    assert DayNumber(Date(2025, 6, 15)) == 739417;
  }
}
