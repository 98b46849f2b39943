/**
  The examples of tests/test_habit.py and tests/test_habit_tracker.py,
  stated on the model. The habit tests start on Monday 2025-06-02.
*/
module Scenarios {
  import opened Failures
  import opened Calendar
  import opened Text
  import opened Periods
  import opened Streaks
  import opened Habits
  import opened Persistence
  import opened Tracker

  const June2: CalendarDate := Date(2025, 6, 2)
  const June3: CalendarDate := Date(2025, 6, 3)
  const June4: CalendarDate := Date(2025, 6, 4)
  const June9: CalendarDate := Date(2025, 6, 9)
  const June16: CalendarDate := Date(2025, 6, 16)
  const NewYear2023: CalendarDate := Date(2023, 1, 1)
  const SecondOf2023: CalendarDate := Date(2023, 1, 2)

  /** The constructor refuses an empty name, then an empty periodicity, and accepts "Exercise", "daily". */
  lemma InitializationTests()
    ensures CheckFields("", "daily") == Fail(BlankName)
    ensures CheckFields("Exercise", "") == Fail(BlankPeriodicity)
    ensures CheckFields("Exercise", "daily") == Pass
  {
    BlankIffAllSpace("");
    NotBlank("Exercise");
    NotBlank("daily");
  }

  /** The ordinals of the days the habit tests use. */
  lemma JuneOrdinals()
    ensures DayNumber(June2) == 739404 && DayNumber(June3) == 739405 && DayNumber(June4) == 739406
    ensures DayNumber(June9) == 739411 && DayNumber(June16) == 739418
  {
    assert DaysBeforeYear(2025) == 739251;
  }

  /** The ISO week-1 Mondays of 2024, 2025 and 2026: 2024-01-01, 2024-12-30 and 2025-12-29. */
  lemma Week1MondaysAround2025()
    ensures Week1Monday(2024) == 738886 && Week1Monday(2025) == 739250 && Week1Monday(2026) == 739614
  {
    assert DaysBeforeYear(2024) == 738885;
    assert DaysBeforeYear(2025) == 739251;
    assert DaysBeforeYear(2026) == 739616;
  }

  /** Three daily completions on consecutive days make a streak of 3, under either copy's rules. */
  lemma DailyTestStreak(rule: WeeklyRule)
    ensures Streak("daily", rule, [June2, June3, June4]) == Ok(3)
  {
    JuneOrdinals();
    KindNameSelectsKind(Daily);
    ChainIsOneStreak("daily", rule, [June2, June3, June4]);
  }

  /**
    Weekly completions on 2025-06-02, 2025-06-09 and 2025-06-16 make a
    streak of 3 under both weekly rules: the gaps are seven days, and the
    ISO weeks are 23, 24 and 25 of 2025.
  */
  lemma WeeklyTestStreak(rule: WeeklyRule)
    ensures IsoCalendar(June2) == IsoDate(2025, 23, 1)
    ensures IsoCalendar(June9) == IsoDate(2025, 24, 1)
    ensures IsoCalendar(June16) == IsoDate(2025, 25, 1)
    ensures Streak("weekly", rule, [June2, June9, June16]) == Ok(3)
  {
    JuneOrdinals();
    Week1MondaysAround2025();
    KindNameSelectsKind(Weekly);
    ChainIsOneStreak("weekly", rule, [June2, June9, June16]);
  }

  /** Monthly completions on 2025-01-05, 2025-02-06 and 2025-03-07 make a streak of 3. */
  lemma MonthlyTestStreak(rule: WeeklyRule)
    ensures Streak("monthly", rule, [Date(2025, 1, 5), Date(2025, 2, 6), Date(2025, 3, 7)]) == Ok(3)
  {
    KindNameSelectsKind(Monthly);
    ChainIsOneStreak("monthly", rule, [Date(2025, 1, 5), Date(2025, 2, 6), Date(2025, 3, 7)]);
  }

  /** The first completion of a habit, on the day after its start, is appended. */
  lemma MarkNextDayTest()
    ensures Completed(HabitRecord("Exercise", "daily", June2, []), June3) == HabitRecord("Exercise", "daily", June2, [June3])
  {
    JuneOrdinals();
    assert !Before(June3, June2);
  }

  /** A completion on the day before the start is refused. */
  lemma MarkBeforeStartTest()
    ensures CompletionCheck(HabitRecord("Exercise", "daily", June2, []), Date(2025, 6, 1)) == Fail(BeforeStartDate)
  {
    JuneOrdinals();
    assert Before(Date(2025, 6, 1), June2);
  }

  /** A daily habit completed on 2025-06-02 cannot be completed again that day. */
  lemma MarkSameDayTest()
    ensures CompletionCheck(HabitRecord("Exercise", "daily", June2, [June2]), June2) == Fail(AlreadyCompletedToday)
  {
    KindNameSelectsKind(Daily);
    assert SameBucket(Daily, June2, June2);
  }

  /** A weekly habit completed on Monday 2025-06-02 cannot be completed again on Thursday 2025-06-05. */
  lemma MarkSameWeekTest()
    ensures CompletionCheck(HabitRecord("Jog", "weekly", June2, [June2]), Date(2025, 6, 5)) == Fail(AlreadyCompletedThisWeek)
  {
    KindNameSelectsKind(Weekly);
    JuneOrdinals();
    var thursday: CalendarDate := Date(2025, 6, 5);
    assert DayNumber(thursday) == 739407;
    assert MondayOf(June2) == 739404 && MondayOf(thursday) == 739404;
    WeekBucketIsMondayWeek(June2, thursday);
    assert BucketTaken(Weekly, [June2], thursday) by { assert June2 in [June2]; }
    assert !Before(thursday, June2);
  }

  /** A monthly habit completed on 2025-06-02 cannot be completed again on 2025-06-28. */
  lemma MarkSameMonthTest()
    ensures CompletionCheck(HabitRecord("Budget", "monthly", June2, [June2]), Date(2025, 6, 28)) == Fail(AlreadyCompletedThisMonth)
  {
    KindNameSelectsKind(Monthly);
    assert SameBucket(Monthly, June2, Date(2025, 6, 28));
    assert !Before(Date(2025, 6, 28), June2);
  }

  /** The duration strings of a streak of 2 under each periodicity. */
  lemma DurationStringTests()
    ensures DurationString("daily", 2) == "2 day(s)"
    ensures DurationString("weekly", 2) == "2 week(s)"
    ensures DurationString("monthly", 2) == "2 month(s)"
    ensures DurationString("yearly", 2) == "2 (units)"
  {
    KindNameSelectsKind(Daily);
    KindNameSelectsKind(Weekly);
    KindNameSelectsKind(Monthly);
    assert IntString(2) == "2";
  }

  /** edit_habit with a new name and a new periodicity changes both and nothing else. */
  lemma EditNameAndPeriodicityTest()
    ensures ApplyEdit(HabitRecord("Exercise", "daily", June2, []), Some("Read"), Some("weekly"), None)
      == (HabitRecord("Read", "weekly", June2, []), Pass)
  {
    NotBlank("Read");
    NotBlank("weekly");
  }

  /** edit_habit moving the start past the only completion removes it. */
  lemma EditStartDateTest()
    ensures ApplyEdit(HabitRecord("Exercise", "daily", June2, [June3]), None, None, Some(June4))
      == (HabitRecord("Exercise", "daily", June4, []), Pass)
  {
    JuneOrdinals();
    assert Before(June3, June4);
    assert OnOrAfter([June3], June4) == [];
  }

  /** The two dates of test_from_json parse. */
  lemma FromJsonDatesParse()
    ensures ParseDate("2023-01-01") == Ok(NewYear2023)
    ensures ParseDate("2023-01-02") == Ok(SecondOf2023)
  {
    NewYear2023Formats();
    SecondOf2023Formats();
    ParseFormatDate(NewYear2023);
    ParseFormatDate(SecondOf2023);
  }

  lemma NewYear2023Formats()
    ensures FormatDate(NewYear2023) == "2023-01-01"
  {
  }

  lemma SecondOf2023Formats()
    ensures FormatDate(SecondOf2023) == "2023-01-02"
  {
  }

  /** The completion list of test_from_json reads as its two dates. */
  lemma FromJsonCompletionsRead()
    ensures ReadCompletions(Some(["2023-01-01", "2023-01-02"])) == Ok([NewYear2023, SecondOf2023])
  {
    var days := ["2023-01-01", "2023-01-02"];
    FromJsonDatesParse();
    assert ParseDate(days[0]) == Ok(NewYear2023) && ParseDate(days[1]) == Ok(SecondOf2023);
    var r := ReadCompletions(Some(days));
    assert r.Ok?;
    assert |r.value| == 2 && r.value[0] == NewYear2023 && r.value[1] == SecondOf2023;
    assert r.value == [NewYear2023, SecondOf2023];
  }

  /** The record of test_from_json loads as a habit with its two completions. */
  lemma FromJsonRecordLoads()
    ensures LoadRecord(Record(Some("Read"), Some("daily"), Some("2023-01-01"), Some(["2023-01-01", "2023-01-02"])))
      == Ok(HabitRecord("Read", "daily", NewYear2023, [NewYear2023, SecondOf2023]))
  {
    FromJsonDatesParse();
    FromJsonCompletionsRead();
    NotBlank("Read");
    NotBlank("daily");
    assert CheckFields("Read", "daily") == Pass;
    var r := Record(Some("Read"), Some("daily"), Some("2023-01-01"), Some(["2023-01-01", "2023-01-02"]));
    var a := Assemble("Read", "daily", Ok(NewYear2023), Ok([NewYear2023, SecondOf2023]));
    assert a.Ok?;
    assert a == Ok(HabitRecord("Read", "daily", NewYear2023, [NewYear2023, SecondOf2023]));
    assert LoadRecord(r) == a;
  }

  /** The document of test_from_json loads as one habit. */
  lemma FromJsonTest()
    ensures LoadDocument(Document(Some([Record(Some("Read"), Some("daily"), Some("2023-01-01"), Some(["2023-01-01", "2023-01-02"]))])))
      == [HabitRecord("Read", "daily", NewYear2023, [NewYear2023, SecondOf2023])]
  {
    var r := Record(Some("Read"), Some("daily"), Some("2023-01-01"), Some(["2023-01-01", "2023-01-02"]));
    FromJsonRecordLoads();
    LoadAllSnoc([], r, LoadRecord);
    assert [] + [r] == [r];
  }

  /** get_longest_streak_all_habits over the one habit completed on its start day and the next: 2. */
  lemma LongestStreakAllHabitsTest(rule: WeeklyRule)
    ensures MaxStreak([HabitRecord("Exercise", "daily", June2, [June2, June3])], rule) == Ok(2)
  {
    JuneOrdinals();
    KindNameSelectsKind(Daily);
    ChainIsOneStreak("daily", rule, [June2, June3]);
    MaxStreakIsLargest([HabitRecord("Exercise", "daily", June2, [June2, June3])], rule);
  }

  /** get_longest_streak_for_habit: 1 for the habit completed once, 0 for a name no habit has. */
  lemma LongestStreakForHabitTests(rule: WeeklyRule)
    ensures StreakForName([HabitRecord("Exercise", "daily", June2, [June2])], "Exercise", rule) == Ok(1)
    ensures StreakForName([HabitRecord("Exercise", "daily", June2, [June2])], "NonExistent", rule) == Ok(0)
  {
    KindNameSelectsKind(Daily);
    ChainIsOneStreak("daily", rule, [June2]);
    NotBlank("Exercise");
    NotBlank("NonExistent");
    assert "Exercise" != "NonExistent";
  }

  /**
    The last day of ISO week 53 of 2020 and the Monday of week 1 of 2021
    lie in consecutive weeks, but the ISO-number rule of tests/habit.py
    counts them as two streaks of one.
  */
  lemma Week53StreakAsWritten()
    ensures Streak("weekly", IsoWeekNumbers, [LastDayOf2020, MondayOfWeek1Of2021]) == Ok(1)
  {
    assert !Adjacent(IsoWeekNumberAfter, LastDayOf2020, MondayOfWeek1Of2021) by {
      Week53BreaksIsoWeekNumberRule();
    }
    KindNameSelectsKind(Weekly);
    assert Before(LastDayOf2020, MondayOfWeek1Of2021);
    SplitPairStreak("weekly", IsoWeekNumbers, LastDayOf2020, MondayOfWeek1Of2021);
  }

  /** The corrected weekly rule joins the same two completions. */
  lemma Week53StreakCorrected()
    ensures Streak("weekly", ConsecutiveIsoWeeks, [LastDayOf2020, MondayOfWeek1Of2021]) == Ok(2)
  {
    assert Adjacent(IsoWeekAfter, LastDayOf2020, MondayOfWeek1Of2021) by {
      Week53BreaksIsoWeekNumberRule();
    }
    KindNameSelectsKind(Weekly);
    assert Before(LastDayOf2020, MondayOfWeek1Of2021);
    JoinedPairStreak("weekly", ConsecutiveIsoWeeks, LastDayOf2020, MondayOfWeek1Of2021);
  }

  // ---------------------------------------------------------------------------
  // The tracker tests: each builds the fixture, a tracker holding the habit
  // "Exercise", daily, started on the test's day, and runs one operation.

  /** The fixture of tests/test_habit_tracker.py: a tracker with one daily habit "Exercise". */
  method Fixture() returns (t: HabitTracker, h: Habit)
    ensures fresh(t) && fresh(h) && t.habits == [h]
    ensures h.State() == HabitRecord("Exercise", "daily", June2, [])
  {
    t := new HabitTracker();
    h := new Habit("Exercise", "daily", June2);
    var _ := t.AddHabit(HabitValue(h));
  }

  /** The added habit is the one get_all_habits lists. */
  method AddHabitTest() returns (all: seq<Habit>, h: Habit)
    ensures all == [h]
  {
    var t;
    t, h := Fixture();
    all := t.GetAllHabits();
  }

  /** Adding a value that is not a Habit fails with the type error. */
  method AddInvalidHabitTest() returns (outcome: Outcome)
    ensures outcome == Fail(NotAHabit)
  {
    var t := new HabitTracker();
    outcome := t.AddHabit(OtherValue);
  }

  /** Filtering by "daily" gives the one habit, named "Exercise". */
  method HabitsByPeriodicityTest() returns (r: Result<seq<Habit>>, h: Habit)
    ensures r == Ok([h]) && h.name == "Exercise"
  {
    var t;
    t, h := Fixture();
    KindNameSelectsKind(Daily);
    SelectsTheOne(h, "daily");
    r := t.HabitsByPeriodicity("daily");
  }

  /** A one-habit list filtered by that habit's own periodicity is the list itself. */
  lemma SelectsTheOne(h: Habit, p: string)
    requires h.periodicity == p
    ensures WithPeriodicity([h], p) == [h]
  {
    assert [h][1..] == [];
  }

  /** Filtering by "Tomorrow" fails: it is not blank, but it is none of the three periodicities. */
  method InvalidPeriodicityTest() returns (r: Result<seq<Habit>>)
    ensures r == Err(InvalidPeriodicity)
  {
    var t, _ := Fixture();
    NotBlank("Tomorrow");
    r := t.HabitsByPeriodicity("Tomorrow");
  }

  /** Editing "Exercise" with a new name, periodicity and start sets all three. */
  method EditHabitTest() returns (outcome: Outcome, edited: HabitRecord)
    ensures outcome == Pass && edited == HabitRecord("Workout", "weekly", June2, [])
  {
    var t, h := Fixture();
    NotBlank("Exercise");
    NotBlank("Workout");
    NotBlank("weekly");
    FirstNamedAt(t.States(), "Exercise", 0);
    outcome := t.EditHabit("Exercise", Some("Workout"), Some("weekly"), Some(June2));
    edited := t.habits[0].State();
  }

  /** Editing with an empty new name fails. */
  method EditInvalidNameTest() returns (outcome: Outcome)
    ensures outcome == Fail(BlankName)
  {
    var t, _ := Fixture();
    NotBlank("Exercise");
    FirstNamedAt(t.States(), "Exercise", 0);
    outcome := t.EditHabit("Exercise", Some(""), None, None);
  }

  /** Editing a name no habit has fails and changes nothing. */
  method EditNonexistentTest() returns (outcome: Outcome)
    ensures outcome == Fail(HabitNotFound)
  {
    var t, _ := Fixture();
    NotBlank("NonExistent");
    FirstNamedAt(t.States(), "NonExistent", 1);
    outcome := t.EditHabit("NonExistent", Some("NewName"), None, None);
  }

  /** Deleting "Exercise" leaves no habits. */
  method DeleteHabitTest() returns (outcome: Outcome, all: seq<Habit>)
    ensures outcome == Pass && all == []
  {
    var t, _ := Fixture();
    NotBlank("Exercise");
    FirstNamedAt(t.States(), "Exercise", 0);
    outcome := t.DeleteHabit("Exercise");
    all := t.GetAllHabits();
  }

  /** Deleting a name no habit has fails. */
  method DeleteNonexistentTest() returns (outcome: Outcome)
    ensures outcome == Fail(HabitNotFound)
  {
    var t, _ := Fixture();
    NotBlank("Unknown");
    FirstNamedAt(t.States(), "Unknown", 1);
    outcome := t.DeleteHabit("Unknown");
  }

  /** to_json writes a "habits" list whose first record is named "Exercise". */
  method ToJsonTest() returns (d: Document)
    ensures d.habits.Some? && |d.habits.value| == 1 && d.habits.value[0].name == Some("Exercise")
  {
    var t, _ := Fixture();
    d := t.ToJson();
  }
}
