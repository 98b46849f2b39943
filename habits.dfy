/**
  One tracked habit: a name, a periodicity, a start date and the list of
  completion dates, as the Habit class of habit.py and of its copy in
  tests/habit.py. The two copies differ only in how get_longest_streak
  joins weekly completions, which is the `rule` parameter of LongestStreak.

  Each method of the class is proved against a function on the habit's
  fields as a value (HabitRecord); the lemmas about those functions carry
  the properties: the history invariant that mark_completed keeps, what
  edit_habit keeps and drops, and how the duration string reads back.
*/
module Habits {
  import opened Failures
  import opened Calendar
  import opened Text
  import opened Periods
  import opened Streaks
  import opened Sequences

  /** The fields of a habit at one moment. */
  datatype HabitRecord = HabitRecord(
    name: string,
    periodicity: string,
    startDate: CalendarDate,
    completionDates: seq<CalendarDate>)

  // ---------------------------------------------------------------------------
  // __init__

  /** The constructor's checks in the order it makes them: the name first, then the periodicity. */
  function CheckFields(name: string, periodicity: string): (o: Outcome)
    ensures o == Pass <==> !IsBlank(name) && !IsBlank(periodicity)
    ensures o == Fail(BlankName) <==> IsBlank(name)
    ensures o == Fail(BlankPeriodicity) <==> !IsBlank(name) && IsBlank(periodicity)
  {
    if IsBlank(name) then Fail(BlankName)
    else if IsBlank(periodicity) then Fail(BlankPeriodicity)
    else Pass
  }

  // ---------------------------------------------------------------------------
  // mark_completed

  /** The error a periodicity raises for a second completion in one bucket. */
  function DuplicateFailure(k: PeriodKind): Failure {
    match k
    case Daily => AlreadyCompletedToday
    case Weekly => AlreadyCompletedThisWeek
    case Monthly => AlreadyCompletedThisMonth
  }

  /** Some completion in ds falls in the bucket of date. */
  predicate BucketTaken(k: PeriodKind, ds: seq<CalendarDate>, date: CalendarDate) {
    exists e :: e in ds && SameBucket(k, e, date)
  }

  /**
    What mark_completed(date) decides: a date before the start fails; the
    first completion always passes; after that, a periodicity without a
    branch fails on the first existing completion, and a supported one fails
    when an existing completion shares the date's bucket.
  */
  function CompletionCheck(h: HabitRecord, date: CalendarDate): Outcome {
    if Before(date, h.startDate) then Fail(BeforeStartDate)
    else if h.completionDates == [] then Pass
    else match KindOf(h.periodicity)
      case None => Fail(UnsupportedPeriodicity)
      case Some(k) => if BucketTaken(k, h.completionDates, date) then Fail(DuplicateFailure(k)) else Pass
  }

  /** The habit after mark_completed(date): the date appended when the check passes, unchanged otherwise. */
  function Completed(h: HabitRecord, date: CalendarDate): HabitRecord {
    if CompletionCheck(h, date).Pass? then h.(completionDates := h.completionDates + [date]) else h
  }

  /** The habit after mark_completed is called with each of dates in turn, errors ignored. */
  function Replay(h: HabitRecord, dates: seq<CalendarDate>): HabitRecord
    decreases |dates|
  {
    if dates == [] then h else Replay(Completed(h, dates[0]), dates[1..])
  }

  /**
    No bucket holds two completions. A periodicity without a branch accepts
    only a first completion, so it allows at most one.
  */
  predicate BucketsDistinct(periodicity: string, ds: seq<CalendarDate>) {
    match KindOf(periodicity)
    case None => |ds| <= 1
    case Some(k) => forall a, b :: a in ds && b in ds && SameBucket(k, a, b) ==> a == b && multiset(ds)[a] == 1
  }

  /** What mark_completed guarantees of a history: nothing before the start date, one completion per bucket. */
  predicate WellFormedHistory(h: HabitRecord) {
    && (forall d :: d in h.completionDates ==> !Before(d, h.startDate))
    && BucketsDistinct(h.periodicity, h.completionDates)
  }

  /** With distinct buckets, no two positions of the list share a bucket. */
  lemma BucketsDistinctPairwise(k: PeriodKind, ds: seq<CalendarDate>)
    requires forall a, b :: a in ds && b in ds && SameBucket(k, a, b) ==> a == b && multiset(ds)[a] == 1
    ensures forall i, j :: 0 <= i < j < |ds| ==> !SameBucket(k, ds[i], ds[j])
  {
    forall i, j | 0 <= i < j < |ds|
      ensures !SameBucket(k, ds[i], ds[j])
    {
      OccursTwice(ds, i, j);
    }
  }

  /** An element found at two positions occurs at least twice. */
  lemma OccursTwice<T>(ds: seq<T>, i: int, j: int)
    requires 0 <= i < j < |ds|
    ensures ds[i] == ds[j] ==> multiset(ds)[ds[j]] >= 2
  {
    assert ds == ds[..j] + [ds[j]] + ds[j + 1..];
    assert ds[i] in ds[..j];
  }

  /** A successful completion keeps the history well formed; a failed one leaves it as it was. */
  lemma MarkCompletedKeepsHistory(h: HabitRecord, date: CalendarDate)
    ensures WellFormedHistory(h) ==> WellFormedHistory(Completed(h, date))
  {
    var ds := h.completionDates;
    if WellFormedHistory(h) && CompletionCheck(h, date).Pass? && ds != [] {
      var k := KindOf(h.periodicity).value;
      var ds' := ds + [date];
      forall a, b | a in ds' && b in ds' && SameBucket(k, a, b)
        ensures a == b && multiset(ds')[a] == 1
      {
        BucketEquivalence(k, a, b, date);
        BucketEquivalence(k, date, date, date);
        assert date !in ds;
      }
    }
  }

  /** Every history that mark_completed builds from an empty list, whatever the order of the calls, is well formed. */
  lemma {:induction false} ReplayKeepsHistory(h: HabitRecord, dates: seq<CalendarDate>)
    ensures WellFormedHistory(h) ==> WellFormedHistory(Replay(h, dates))
    decreases |dates|
  {
    if dates != [] {
      MarkCompletedKeepsHistory(h, dates[0]);
      ReplayKeepsHistory(Completed(h, dates[0]), dates[1..]);
    }
  }

  /** With a periodicity that has no branch, the first completion on or after the start is accepted and every later one fails. */
  lemma UnsupportedAcceptsOnlyFirst(h: HabitRecord, date: CalendarDate)
    requires KindOf(h.periodicity).None? && !Before(date, h.startDate)
    ensures CompletionCheck(h, date).Pass? <==> h.completionDates == []
    ensures h.completionDates != [] ==> CompletionCheck(h, date) == Fail(UnsupportedPeriodicity)
  {
  }

  /** A second completion in a bucket already filled fails with that periodicity's error. */
  lemma SameBucketRejected(h: HabitRecord, k: PeriodKind, existing: CalendarDate, date: CalendarDate)
    requires KindOf(h.periodicity) == Some(k) && existing in h.completionDates
    requires !Before(date, h.startDate) && SameBucket(k, existing, date)
    ensures CompletionCheck(h, date) == Fail(DuplicateFailure(k))
  {
  }

  // ---------------------------------------------------------------------------
  // get_streak_duration_string

  /** The unit after the number, by periodicity; other periodicities get a placeholder. */
  function UnitLabel(periodicity: string): (u: string)
    ensures 1 <= |u| && u[0] == ' '
  {
    match KindOf(periodicity)
    case Some(Daily) => " day(s)"
    case Some(Weekly) => " week(s)"
    case Some(Monthly) => " month(s)"
    case None => " (units)"
  }

  /** `f"{streak} day(s)"` and its siblings. */
  function DurationString(periodicity: string, streak: int): string {
    IntString(streak) + UnitLabel(periodicity)
  }

  /**
    The duration string gives back the streak and the unit: two strings are
    equal exactly when their streaks are equal and their periodicities select
    the same branch.
  */
  lemma DurationStringReadsBack(p: string, q: string, a: int, b: int)
    ensures DurationString(p, a) == DurationString(q, b) <==> a == b && KindOf(p) == KindOf(q)
  {
    SplitBeforeSpace(IntString(a), UnitLabel(p), IntString(b), UnitLabel(q));
    IntStringInjective(a, b);
    UnitLabelSelectsKind(p, q);
  }

  /** A string without spaces followed by one starting with a space splits at that space in only one way. */
  lemma SplitBeforeSpace(x: string, u: string, y: string, v: string)
    requires forall k :: 0 <= k < |x| ==> x[k] != ' '
    requires forall k :: 0 <= k < |y| ==> y[k] != ' '
    requires u != [] && u[0] == ' ' && v != [] && v[0] == ' '
    ensures x + u == y + v ==> x == y && u == v
  {
    if |x| < |y| {
      assert (x + u)[|x|] != (y + v)[|x|];
    } else if |y| < |x| {
      assert (x + u)[|y|] != (y + v)[|y|];
    } else {
      assert (x + u)[..|x|] == x && (y + v)[..|y|] == y;
      assert (x + u)[|x|..] == u && (y + v)[|y|..] == v;
    }
  }

  /** Distinct branches have distinct unit labels. */
  lemma UnitLabelSelectsKind(p: string, q: string)
    ensures UnitLabel(p) == UnitLabel(q) <==> KindOf(p) == KindOf(q)
  {
  }

  // ---------------------------------------------------------------------------
  // edit_habit

  /** The completions on or after start, in their stored order (the comprehension of edit_habit). */
  function OnOrAfter(ds: seq<CalendarDate>, start: CalendarDate): (r: seq<CalendarDate>)
    ensures IsSubsequence(r, ds)
    ensures |r| <= |ds|
    ensures forall d :: multiset(r)[d] == if Before(d, start) then 0 else multiset(ds)[d]
  {
    if ds == [] then []
    else
      assert ds == [ds[0]] + ds[1..];
      var rest := OnOrAfter(ds[1..], start);
      if Before(ds[0], start) then
        SubsequenceOfTail(rest, ds);
        rest
      else
        [ds[0]] + rest
  }

  /** When no completion precedes start, the comprehension keeps the list as it is. */
  lemma {:induction false} OnOrAfterKeepsAll(ds: seq<CalendarDate>, start: CalendarDate)
    requires forall d :: d in ds ==> !Before(d, start)
    ensures OnOrAfter(ds, start) == ds
  {
    if ds != [] {
      OnOrAfterKeepsAll(ds[1..], start);
    }
  }

  /**
    edit_habit on the fields as a value: the arguments are applied one at a
    time, name, periodicity, start date, and a blank name or periodicity
    stops the edit with the fields set so far kept. A new start date drops
    the completions before it.
  */
  function ApplyEdit(h: HabitRecord, newName: Option<string>, newPeriodicity: Option<string>, newStart: Option<CalendarDate>): (HabitRecord, Outcome) {
    if newName.Some? && IsBlank(newName.value) then (h, Fail(BlankName))
    else
      var h1 := if newName.Some? then h.(name := newName.value) else h;
      if newPeriodicity.Some? && IsBlank(newPeriodicity.value) then (h1, Fail(BlankPeriodicity))
      else
        var h2 := if newPeriodicity.Some? then h1.(periodicity := newPeriodicity.value) else h1;
        if newStart.None? then (h2, Pass)
        else (h2.(startDate := newStart.value, completionDates := OnOrAfter(h2.completionDates, newStart.value)), Pass)
  }

  /**
    The edit fails exactly when a supplied name or periodicity is blank, the
    name checked first. Arguments left out keep their fields; a failure on
    the periodicity keeps the new name; the start date and completions change
    only when the edit succeeds with a new start date.
  */
  lemma EditOutcome(h: HabitRecord, newName: Option<string>, newPeriodicity: Option<string>, newStart: Option<CalendarDate>)
    ensures var (e, o) := ApplyEdit(h, newName, newPeriodicity, newStart);
      && (o == Fail(BlankName) <==> newName.Some? && IsBlank(newName.value))
      && (o == Fail(BlankName) ==> e == h)
      && (o == Fail(BlankPeriodicity) <==> !(newName.Some? && IsBlank(newName.value)) && newPeriodicity.Some? && IsBlank(newPeriodicity.value))
      && (o == Pass <==> o != Fail(BlankName) && o != Fail(BlankPeriodicity))
      && (o != Fail(BlankName) ==> e.name == if newName.Some? then newName.value else h.name)
      && (o != Pass ==> e.periodicity == h.periodicity && e.startDate == h.startDate && e.completionDates == h.completionDates)
      && (o == Pass ==> e.periodicity == if newPeriodicity.Some? then newPeriodicity.value else h.periodicity)
      && (newStart.None? ==> e.startDate == h.startDate && e.completionDates == h.completionDates)
  {
  }

  /**
    After an edit with a new start date s, the completions are exactly the
    old ones on or after s, each as often as before, in their old order.
  */
  lemma EditPrunesBeforeStart(h: HabitRecord, newName: Option<string>, newPeriodicity: Option<string>, s: CalendarDate)
    requires ApplyEdit(h, newName, newPeriodicity, Some(s)).1 == Pass
    ensures var e := ApplyEdit(h, newName, newPeriodicity, Some(s)).0;
      && e.startDate == s
      && IsSubsequence(e.completionDates, h.completionDates)
      && (forall d :: d in e.completionDates ==> !Before(d, s))
      && (forall d :: d in h.completionDates && !Before(d, s) ==> d in e.completionDates)
      && (forall d :: multiset(e.completionDates)[d] == if Before(d, s) then 0 else multiset(h.completionDates)[d])
  {
    var e := ApplyEdit(h, newName, newPeriodicity, Some(s)).0;
    forall d | d in e.completionDates ensures !Before(d, s) {
      assert multiset(e.completionDates)[d] > 0;
    }
    forall d | d in h.completionDates && !Before(d, s) ensures d in e.completionDates {
      assert multiset(h.completionDates)[d] > 0;
    }
  }

  /** Dropping completions, with each kept at most as often as before, keeps buckets distinct. */
  lemma BucketsDistinctOfFewer(p: string, ds: seq<CalendarDate>, r: seq<CalendarDate>)
    requires |r| <= |ds| && forall d :: multiset(r)[d] <= multiset(ds)[d]
    ensures BucketsDistinct(p, ds) ==> BucketsDistinct(p, r)
  {
    if BucketsDistinct(p, ds) && KindOf(p).Some? {
      var k := KindOf(p).value;
      forall a, b | a in r && b in r && SameBucket(k, a, b)
        ensures a == b && multiset(r)[a] == 1
      {
        assert multiset(r)[a] > 0 && multiset(r)[b] > 0;
        assert a in ds && b in ds;
      }
    }
  }

  /**
    An edit that keeps the periodicity keeps the history well formed: a new
    start date drops exactly the completions that would precede it.
  */
  lemma EditKeepsHistory(h: HabitRecord, newName: Option<string>, newPeriodicity: Option<string>, newStart: Option<CalendarDate>)
    requires newPeriodicity.None? || newPeriodicity.value == h.periodicity
    ensures WellFormedHistory(h) ==> WellFormedHistory(ApplyEdit(h, newName, newPeriodicity, newStart).0)
  {
    var (e, o) := ApplyEdit(h, newName, newPeriodicity, newStart);
    if WellFormedHistory(h) && o == Pass && newStart.Some? {
      EditPrunesBeforeStart(h, newName, newPeriodicity, newStart.value);
      BucketsDistinctOfFewer(h.periodicity, h.completionDates, e.completionDates);
    }
  }

  /** An edit never leaves a blank name or periodicity behind. */
  lemma EditKeepsFieldsValid(h: HabitRecord, newName: Option<string>, newPeriodicity: Option<string>, newStart: Option<CalendarDate>)
    ensures CheckFields(h.name, h.periodicity) == Pass ==>
      var e := ApplyEdit(h, newName, newPeriodicity, newStart).0;
      CheckFields(e.name, e.periodicity) == Pass
  {
    EditOutcome(h, newName, newPeriodicity, newStart);
  }

  const FirstMondayOfJune2025: CalendarDate := Date(2025, 6, 2)
  const SecondMondayOfJune2025: CalendarDate := Date(2025, 6, 9)

  /**
    Changing the periodicity does not re-check the completions: a weekly
    habit completed on two days of one month that lie in different ISO weeks
    is well formed, and the same habit made monthly, which the edit accepts,
    holds two completions in one month. The first two Mondays of June 2025
    are such a pair.
  */
  lemma PeriodicityChangeBreaksHistory(a: CalendarDate, b: CalendarDate)
    requires !Before(b, a) && !SameBucket(Weekly, a, b) && SameBucket(Monthly, a, b)
    ensures var h := HabitRecord("Run", "weekly", a, [a, b]);
      && WellFormedHistory(h)
      && ApplyEdit(h, None, Some("monthly"), None) == (h.(periodicity := "monthly"), Pass)
      && !WellFormedHistory(h.(periodicity := "monthly"))
  {
    var h := HabitRecord("Run", "weekly", a, [a, b]);
    TwoBucketsWellFormed(h, Weekly, a, b);
    OneBucketBroken(h.(periodicity := "monthly"), Monthly, a, b);
    KindNamesNotBlank(Monthly);
    EditPeriodicityOnly(h, "monthly");
  }

  /** An edit that supplies only a non-blank periodicity sets it and nothing else. */
  lemma EditPeriodicityOnly(h: HabitRecord, q: string)
    requires !IsBlank(q)
    ensures ApplyEdit(h, None, Some(q), None) == (h.(periodicity := q), Pass)
  {
  }

  /** A blank string selects no periodicity branch. */
  lemma BlankSelectsNoKind(p: string)
    ensures IsBlank(p) ==> KindOf(p).None?
  {
    if KindOf(p).Some? {
      KindNamesNotBlank(KindOf(p).value);
    }
  }

  /** The three supported periodicities are not blank. */
  lemma KindNamesNotBlank(k: PeriodKind)
    ensures !IsBlank(KindName(k))
  {
    assert !IsSpace(KindName(k)[0]);
    BlankIffAllSpace(KindName(k));
  }

  /** The first two Mondays of June 2025 lie in different ISO weeks of one month. */
  lemma ConsecutiveMondaysOfJune2025()
    ensures !Before(SecondMondayOfJune2025, FirstMondayOfJune2025)
    ensures !SameBucket(Weekly, FirstMondayOfJune2025, SecondMondayOfJune2025)
    ensures SameBucket(Monthly, FirstMondayOfJune2025, SecondMondayOfJune2025)
  {
    assert DayNumber(FirstMondayOfJune2025) == 739404;
    assert DayNumber(SecondMondayOfJune2025) == 739411;
    WeekBucketIsMondayWeek(FirstMondayOfJune2025, SecondMondayOfJune2025);
  }

  /** Two completions in different buckets, the later one second, form a well-formed history. */
  lemma TwoBucketsWellFormed(h: HabitRecord, k: PeriodKind, a: CalendarDate, b: CalendarDate)
    requires KindOf(h.periodicity) == Some(k) && h.startDate == a && h.completionDates == [a, b]
    requires !Before(b, a) && !SameBucket(k, a, b)
    ensures WellFormedHistory(h)
  {
    PairInDistinctBuckets(k, a, b);
    assert !Before(a, a);
  }

  lemma PairInDistinctBuckets(k: PeriodKind, a: CalendarDate, b: CalendarDate)
    requires !SameBucket(k, a, b)
    ensures forall x, y :: x in [a, b] && y in [a, b] && SameBucket(k, x, y) ==> x == y && multiset([a, b])[x] == 1
  {
    BucketEquivalence(k, a, b, b);
    BucketEquivalence(k, b, a, a);
  }

  /** Two distinct completions in one bucket break a history. */
  lemma OneBucketBroken(h: HabitRecord, k: PeriodKind, a: CalendarDate, b: CalendarDate)
    requires KindOf(h.periodicity) == Some(k) && h.completionDates == [a, b]
    requires a != b && SameBucket(k, a, b)
    ensures !WellFormedHistory(h)
  {
    assert a in h.completionDates && b in h.completionDates;
  }

  // ---------------------------------------------------------------------------
  // The class

  class Habit {
    var name: string
    var periodicity: string
    var startDate: CalendarDate
    var completionDates: seq<CalendarDate>

    /** The fields as a value. */
    function State(): (r: HabitRecord)
      reads this
      ensures r.completionDates == completionDates && r.startDate == startDate
      ensures r.name == name && r.periodicity == periodicity
    {
      HabitRecord(name, periodicity, startDate, completionDates)
    }

    /** Allocates a habit with the given fields and no completions; Create adds the checks of __init__. */
    constructor (name: string, periodicity: string, startDate: CalendarDate)
      ensures State() == HabitRecord(name, periodicity, startDate, [])
    {
      this.name := name;
      this.periodicity := periodicity;
      this.startDate := startDate;
      this.completionDates := [];
    }

    /**
      `Habit(name, periodicity, start_date)`: fails on a blank name, then on a
      blank periodicity (any non-blank string is accepted as a periodicity);
      otherwise a new habit with no completions.
    */
    static method Create(name: string, periodicity: string, startDate: CalendarDate) returns (r: Result<Habit>)
      ensures r.Err? <==> CheckFields(name, periodicity).Fail?
      ensures r.Err? ==> r.error == CheckFields(name, periodicity).error
      ensures r.Ok? ==> fresh(r.value) && r.value.State() == HabitRecord(name, periodicity, startDate, [])
    {
      if IsBlank(name) {
        return Err(BlankName);
      }
      if IsBlank(periodicity) {
        return Err(BlankPeriodicity);
      }
      var h := new Habit(name, periodicity, startDate);
      return Ok(h);
    }

    /**
      `mark_completed(date)`: refuses a date before the start, then scans the
      stored completions; the first that shares the date's bucket, or the
      first of any when the periodicity has no branch, stops the call with
      the list unchanged. Otherwise the date is appended.
    */
    method MarkCompleted(date: CalendarDate) returns (outcome: Outcome)
      modifies this`completionDates
      ensures outcome == CompletionCheck(old(State()), date)
      ensures State() == Completed(old(State()), date)
    {
      if Before(date, startDate) {
        return Fail(BeforeStartDate);
      }
      for i := 0 to |completionDates|
        invariant 0 < i ==> KindOf(periodicity).Some?
        invariant KindOf(periodicity).Some? ==>
          forall j :: 0 <= j < i ==> !SameBucket(KindOf(periodicity).value, completionDates[j], date)
      {
        var existing := completionDates[i];
        if periodicity == "daily" {
          if existing == date {
            assert existing in completionDates && SameBucket(Daily, existing, date);
            return Fail(AlreadyCompletedToday);
          }
        } else if periodicity == "weekly" {
          var iso1, iso2 := IsoCalendar(existing), IsoCalendar(date);
          if iso1.isoYear == iso2.isoYear && iso1.week == iso2.week {
            assert existing in completionDates && SameBucket(Weekly, existing, date);
            return Fail(AlreadyCompletedThisWeek);
          }
        } else if periodicity == "monthly" {
          if existing.year == date.year && existing.month == date.month {
            assert existing in completionDates && SameBucket(Monthly, existing, date);
            return Fail(AlreadyCompletedThisMonth);
          }
        } else {
          return Fail(UnsupportedPeriodicity);
        }
      }
      completionDates := completionDates + [date];
      return Pass;
    }

    /** `get_completion_dates()`: the stored completions in the order they were recorded. */
    method GetCompletionDates() returns (ds: seq<CalendarDate>)
      ensures ds == completionDates
    {
      ds := completionDates;
    }

    /**
      `get_longest_streak()`: 0 without completions; otherwise the scan of the
      sorted completions under the periodicity's adjacency, weekly by `rule`,
      or a failure when the periodicity has no branch.
    */
    method LongestStreak(rule: WeeklyRule) returns (r: Result<int>)
      ensures r == Streak(periodicity, rule, completionDates)
    {
      if completionDates == [] {
        return Ok(0);
      }
      var sorted := SortDates(completionDates);
      assert |sorted| == |completionDates| by {
        assert |multiset(sorted)| == |multiset(completionDates)|;
      }
      var n: int;
      if periodicity == "daily" {
        n := ScanLongestRun(sorted, AdjacencyTest(DayAfter));
      } else if periodicity == "weekly" {
        n := ScanLongestRun(sorted, AdjacencyTest(AdjacencyFor(Weekly, rule)));
      } else if periodicity == "monthly" {
        n := ScanLongestRun(sorted, AdjacencyTest(MonthAfter));
      } else {
        return Err(UnsupportedPeriodicity);
      }
      return Ok(n);
    }

    /**
      `edit_habit(name, periodicity, start_date)`, with None for an argument
      left out. The completions are filtered only when one precedes the new
      start date, which leaves the same list as filtering always.
    */
    method Edit(newName: Option<string>, newPeriodicity: Option<string>, newStart: Option<CalendarDate>) returns (outcome: Outcome)
      modifies this
      ensures (State(), outcome) == ApplyEdit(old(State()), newName, newPeriodicity, newStart)
    {
      if newName.Some? {
        if IsBlank(newName.value) {
          return Fail(BlankName);
        }
        name := newName.value;
      }
      if newPeriodicity.Some? {
        if IsBlank(newPeriodicity.value) {
          return Fail(BlankPeriodicity);
        }
        periodicity := newPeriodicity.value;
      }
      if newStart.Some? {
        var s := newStart.value;
        startDate := s;
        if completionDates != [] && exists d :: d in completionDates && Before(d, s) {
          completionDates := OnOrAfter(completionDates, s);
        } else {
          OnOrAfterKeepsAll(completionDates, s);
        }
      }
      return Pass;
    }
  }
}
