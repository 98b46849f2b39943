# Habit tracker, modelled in Dafny

This project models the core of a small habit tracker. A `Habit` has a name,
a periodicity ("daily", "weekly", "monthly" or any other non-blank string),
a start date and the list of dates it was completed on. `mark_completed`
refuses a date before the start date and a second completion in the same
day, ISO week or month. `get_longest_streak` counts the longest chain of
completions in successive periods. `edit_habit` changes the fields and drops
completions before a new start date. A `HabitTracker` keeps a list of habits.
It adds, lists, filters, edits and deletes them, computes streaks over them,
and converts the list to and from a JSON-shaped document.

The repository holds two copies of each class. `habit.py` and
`tests/habit.py` differ only in the weekly streak rule, so one `Habit` class
models both and the rule is a parameter, `Periods.WeeklyRule`:

- `GapAtMostSevenDays`: two completions join when they are at most seven
  days apart (habit.py:89).
- `IsoWeekNumbers`: the ISO week number goes up by one in the same ISO year,
  or goes from 52 to 1 across a year (tests/habit.py:109-115).
- `ConsecutiveIsoWeeks`: the second completion's ISO week is the one right
  after the first's. This is the corrected form of the ISO rule (see
  "## Findings").

`habit_tracker.py` and `tests/habit_tracker.py` have the same code, so
`Tracker.HabitTracker` models both.

Modules, in dependency order:

- `Failures`: `Option`, `Result`, `Outcome`, and one `Failure` per condition
  under which the source raises.
- `Calendar`: proleptic Gregorian dates with Python's `toordinal()`,
  `weekday()` and `isocalendar()`, and the ISO-week facts the streak rules
  need.
- `Text`: `str.strip()` / `isspace()`, `str()` of an integer, and
  `strftime` / `strptime` with the format `%Y-%m-%d`.
- `Periods`: the periodicity names, the buckets `mark_completed` checks, and
  the adjacency tests of the streak loops.
- `Sequences`: subsequences (the order-keeping list comprehensions).
- `Streaks`: `sorted()` as an insertion sort, the longest-run specification,
  the loop that computes it, and `get_longest_streak` on dates.
- `Habits`: the habit state as a value, with the constructor checks,
  `mark_completed`, the duration string and `edit_habit` as functions. The
  class `Habits.Habit` performs the same operations in place.
- `Persistence`: `to_json` and `from_json` on values.
- `Tracker`: the class `Tracker.HabitTracker`, which holds a `seq<Habit>` of
  object references, so a habit tracked twice is edited once.
- `Scenarios`: the repository's tests of `Habit`, stated as lemmas about the
  model, and its tests of `HabitTracker`, stated as methods that build the
  tracker fixture and run one operation.

Dates are whole days. Every `raise` becomes an `Err` or a `Fail` carrying a
`Failure`. Where the source would raise an exception, the model returns that
failure and, as in the source, changes nothing more.

## Model

| member | source | states |
|---|---|---|
| Calendar.NextDay | habit.py:82 | the day after d has the ordinal one larger, compares after d, and is a valid date except after 9999-12-31 |
| Calendar.DayNumberOrder | habit.py:76 | comparing two dates as Python does agrees with comparing their ordinals, and equal ordinals mean equal dates |
| Calendar.IsoWeekDate | habit.py:47-48 | isocalendar() gives an ISO year within one of the calendar year, a week 1..53 and the date's own weekday |
| Calendar.SameIsoWeekIffSameMonday | habit.py:47-49 | two dates share ISO year and week number exactly when their weeks start on the same Monday |
| Calendar.IsoYearWeeks | tests/habit.py:113-114 | consecutive week-1 Mondays are 7 × (weeks of the ISO year) apart, and an ISO year has 52 or 53 weeks |
| Calendar.WeekWithinIsoYear | tests/habit.py:109-115 | the week number isocalendar() gives never exceeds the number of weeks in its ISO year |
| Calendar.NextIsoWeekIffNextWeekNumber | tests/habit.py:109-115 | b's week starts seven days after a's exactly when the week number rises by one in the same ISO year, or b is in week 1 and a in the last week (52 or 53) of the year before |
| Calendar.Week1MondayNearNewYear | habit.py:47-48 | ISO week 1 starts on the Monday of the week holding 4 January |
| Text.StripStart | habit.py:17 | lstrip removes exactly a whitespace prefix and leaves a string that does not start with whitespace |
| Text.StripEnd | habit.py:17 | rstrip removes exactly a whitespace suffix and leaves a string that does not end with whitespace |
| Text.BlankIffAllSpace | habit.py:17-20 | `not s.strip()` holds exactly when every character of s is whitespace |
| Text.NotBlank | habit.py:17 | a string that starts with a non-space character passes the `name.strip()` test |
| Text.IntStringRoundTrip | habit.py:122-129 | the number in a duration string can be read back from it |
| Text.IntStringInjective | habit.py:122-129 | distinct streaks are written as distinct numerals |
| Text.FormatDate | habit_tracker.py:128 | a written date is ten characters with dashes at positions 4 and 7 |
| Text.ParseFormatDate | habit_tracker.py:145 | strptime reads a date written by strftime back as the same date |
| Text.FormatParseDate | habit_tracker.py:128 | every string the date parser accepts is the one strftime writes for that date |
| Periods.KindOf | habit.py:43-55 | a periodicity selects the branch it names; any other string selects none |
| Periods.KindNameSelectsKind | habit.py:43-53 | each branch's name selects that branch |
| Periods.WeekBucketIsMondayWeek | habit.py:46-50 | two dates share a week bucket exactly when their weeks start on the same Monday |
| Periods.MonthBucketIsMonthIndex | habit.py:51-53 | two dates share a month bucket exactly when they have the same month index |
| Periods.BucketEquivalence | habit.py:42-53 | each duplicate test is reflexive, symmetric and transitive |
| Periods.SameDayInEveryBucket | habit.py:42-53 | two completions on one day clash under every periodicity |
| Periods.DayAfterIsNextDay | habit.py:82 | the daily test `(b - a).days == 1` holds exactly when b is the calendar day after a |
| Periods.MonthAfterIsNextMonth | habit.py:96-99 | the monthly test `months_diff == 1` holds exactly when b falls in the month after a's |
| Periods.DayAfterWithinSevenDays | habit.py:82-89 | a daily step also passes the seven-day weekly test |
| Periods.WithinSevenDaysOfDistinctWeeks | habit.py:89 | on completions in distinct weeks, a gap of at most seven days always lands in the following week |
| Periods.SevenDayRuleMissesFollowingWeek | habit.py:89 | 2025-06-02 and 2025-06-15 are in successive weeks, yet the seven-day test does not join them |
| Periods.IsoWeekAfterByNumbers | tests/habit.py:109-115 | the corrected weekly rule, in week numbers: one more in the same ISO year, or week 1 after the last week (52 or 53) |
| Periods.IsoWeekNumberRuleAgainstFollowingWeek | tests/habit.py:113-114 | on successive weeks, the week-number test passes exactly when the first week is not 53; a pair it joins that does not follow is week 52 of a 53-week year |
| Periods.Week1MondaysAround2020 | tests/habit.py:113-114 | the week-1 Mondays of 2019 to 2022, which make 2020 a 53-week ISO year |
| Periods.Week53BreaksIsoWeekNumberRule | tests/habit.py:113-114 | 2020-12-31 (2020-W53) and 2021-01-04 (2021-W01) are in successive weeks, and the week-number test does not join them |
| Periods.Week52JoinsAcrossWeek53 | tests/habit.py:113-114 | 2020-12-21 (2020-W52) and 2021-01-04 (2021-W01) are not in successive weeks, and the week-number test joins them |
| Streaks.Insert | habit.py:76 | inserting into a sorted list keeps it sorted and adds exactly the one element |
| Streaks.Sort | habit.py:76 | `sorted()` gives a sorted permutation of its input |
| Streaks.SortedUnique | habit.py:76 | when keys are distinct, a multiset has only one sorted arrangement |
| Streaks.RunEndingAt | habit.py:77-86 | the loop's `current_streak` at index i is between 1 and i + 1 |
| Streaks.LongestRunUpTo | habit.py:78-84 | the loop's `longest_streak` after index i is between 1 and i + 1 |
| Streaks.LongestRun | habit.py:73-109 | the longest streak is 0 exactly for no completions, otherwise between 1 and the number of completions |
| Streaks.RunEndingAtIsLongestEndingThere | habit.py:81-86 | `current_streak` is the length of a streak ending at i, and no streak ending there is longer |
| Streaks.LongestRunUpToIsLongest | habit.py:81-86 | `longest_streak` is the length of some streak so far, and no streak so far is longer |
| Streaks.LongestRunIsLongestStreak | habit.py:73-109 | the result is the length of a streak of the sorted list, and no streak of it is longer |
| Streaks.LongestRunMonotone | habit.py:82-89 | a test that joins more pairs never gives a shorter longest streak |
| Streaks.ScanLongestRun | habit.py:77-93 | the counting loop returns the longest streak as specified |
| Streaks.SortDatesInDateOrder | habit.py:76 | sorting the completions puts them in Python's date order without losing or adding any |
| Streaks.SortingKeepsIncreasingDates | habit.py:76 | completions already in increasing order come out of sorting unchanged |
| Streaks.WholeRunIsLongest | habit.py:81-86 | a list that is one streak throughout has its whole length as longest streak |
| Streaks.StreakBounds | habit.py:73-109 | the streak fails exactly for a non-empty list under an unsupported periodicity, is 0 exactly for no completions, and otherwise lies between 1 and the count |
| Streaks.StreakIgnoresOrder | habit.py:76 | the streak depends on which dates were completed, not on the order they were recorded in |
| Streaks.ChainIsOneStreak | habit.py:80-103 | increasing completions that each extend the one before form one streak of their full length |
| Streaks.JoinedPairStreak | habit.py:80-103 | two increasing completions that the test joins give a streak of 2 |
| Streaks.SplitPairStreak | habit.py:80-103 | two increasing completions that the test does not join give a streak of 1 |
| Streaks.SplitPairRun | habit.py:85-86 | when the second element does not extend the first, the longest run of the pair is 1 |
| Habits.CheckFields | habit.py:17-20 | the constructor fails on a blank name first, then on a blank periodicity, and passes exactly when neither is blank |
| Habits.MarkCompletedKeepsHistory | habit.py:37-56 | after mark_completed, no completion precedes the start and no bucket holds two completions |
| Habits.ReplayKeepsHistory | habit.py:37-56 | every list of completions built by mark_completed, in any order of calls, is well formed |
| Habits.UnsupportedAcceptsOnlyFirst | habit.py:42-55 | under an unsupported periodicity the first completion is accepted and every later one fails |
| Habits.SameBucketRejected | habit.py:42-53 | a completion in a bucket that is already filled fails with that periodicity's error |
| Habits.UnitLabel | habit.py:122-129 | every unit label starts with a space and is not empty |
| Habits.DurationStringReadsBack | habit.py:122-129 | two duration strings are equal exactly when the streaks are equal and the periodicities select the same branch |
| Habits.UnitLabelSelectsKind | habit.py:122-129 | the unit labels of two periodicities are equal exactly when they select the same branch |
| Habits.OnOrAfter | habit.py:152-153 | the comprehension keeps, in order, each completion on or after the start as often as before, and drops the rest |
| Habits.OnOrAfterKeepsAll | habit.py:152-153 | when no completion precedes the start, the list stays as it is |
| Habits.EditOutcome | habit.py:140-153 | the edit fails exactly on a supplied blank name (checked first) or blank periodicity; a failed name check changes nothing; a name set before a failed periodicity check stays; arguments left out keep their fields |
| Habits.EditPrunesBeforeStart | habit.py:148-153 | after a successful edit with a new start, the completions are exactly the old ones on or after it, in their old order |
| Habits.EditKeepsHistory | habit.py:148-153 | an edit that keeps the periodicity keeps a well-formed history well formed |
| Habits.EditKeepsFieldsValid | habit.py:140-147 | an edit never leaves a blank name or periodicity behind |
| Habits.PeriodicityChangeBreaksHistory | habit.py:144-147 | changing a weekly habit to monthly is accepted even when two of its completions share a month, which leaves a history mark_completed would not build |
| Habits.EditPeriodicityOnly | habit.py:144-147 | an edit with only a non-blank periodicity sets it and changes nothing else |
| Habits.BlankSelectsNoKind | habit_tracker.py:40-45 | a blank periodicity is none of the three supported ones |
| Habits.KindNamesNotBlank | habit_tracker.py:43 | the three supported periodicities are not blank |
| Habits.ConsecutiveMondaysOfJune2025 | habit.py:46-53 | 2025-06-02 and 2025-06-09 are in different ISO weeks of the same month |
| Habits.TwoBucketsWellFormed | habit.py:42-56 | two completions in increasing order and different buckets, from the start date on, form a well-formed history |
| Habits.OneBucketBroken | habit.py:42-53 | two distinct completions in one bucket are not a history mark_completed builds |
| Habits.Habit.constructor | habit.py:24-27 | a new habit has the given name, periodicity and start date and no completions |
| Habits.Habit.Create | habit.py:17-27 | `Habit(name, periodicity, start)` fails with the constructor's first error, otherwise gives a fresh habit with those fields and no completions |
| Habits.Habit.MarkCompleted | habit.py:37-56 | mark_completed fails for a date before the start, then for a filled bucket, then for an unsupported periodicity with earlier completions; otherwise it appends the date; nothing else changes |
| Habits.Habit.GetCompletionDates | habit.py:59-63 | returns the stored completions in the order they were recorded |
| Habits.Habit.LongestStreak | habit.py:73-109 | returns the longest streak of the completions under the periodicity's test, or the unsupported-periodicity error |
| Habits.Habit.Edit | habit.py:140-153 | edit_habit changes the fields as the edit specification says, including the partial update before a failure |
| Persistence.FormatDates | habit_tracker.py:129 | each completion is written YYYY-MM-DD, in the stored order |
| Persistence.Dump | habit_tracker.py:119-133 | to_json writes one record per habit, in list order |
| Persistence.DumpRecords | habit_tracker.py:124-132 | one record per habit, each the habit's record |
| Persistence.ParseDates | habit_tracker.py:146 | the list of completions parses exactly when every string does, one date per string; otherwise the error is an invalid date |
| Persistence.ReadCompletions | habit_tracker.py:146 | a missing "completion_dates" reads as no completions; a present one reads as ParseDates does |
| Persistence.LoadRecord | habit_tracker.py:143-149 | every habit loaded from a record has passed the constructor's checks |
| Persistence.Assemble | habit_tracker.py:145-148 | the first failing step decides the error (start date, then completions, then the constructor); otherwise the habit has exactly the record's fields |
| Persistence.LoadAll | habit_tracker.py:141-153 | the try/except loop never loads more habits than there are records |
| Persistence.LoadAllAppend | habit_tracker.py:141-153 | loading a list in two parts loads each part on its own |
| Persistence.LoadAllSnoc | habit_tracker.py:141-153 | one more item adds its value at the end when it loads, and nothing otherwise |
| Persistence.LoadRecordsSnoc | habit_tracker.py:141-153 | one more record adds its habit at the end when it loads, and nothing otherwise |
| Persistence.LoadAllFromItems | habit_tracker.py:141-149 | every loaded value comes from some item |
| Persistence.LoadAllTotal | habit_tracker.py:141-149 | when every item loads, the values come out one per item, in order |
| Persistence.LoadAllSkips | habit_tracker.py:150-153 | an item that fails contributes nothing, and the items around it load as before |
| Persistence.SkipsFailedRecord | habit_tracker.py:150-153 | a record that fails to load is skipped and the records around it load as if it were absent |
| Persistence.LoadedHabitsValid | habit_tracker.py:147 | every loaded habit has a non-blank name and periodicity |
| Persistence.MissingCompletionsLoadEmpty | habit_tracker.py:146 | a loadable record without "completion_dates" becomes a habit with no completions |
| Persistence.LoadRecordSucceeds | habit_tracker.py:143-147 | a record loads exactly when its three keys are present, its dates parse, and its name and periodicity are not blank |
| Persistence.ParseFormatDates | habit_tracker.py:129 | the written completion dates read back as the same dates |
| Persistence.FormatParseDates | habit_tracker.py:146 | every accepted list of date strings is the one that writing its dates gives |
| Persistence.DumpLoadRecord | habit_tracker.py:123-148 | a habit with a non-blank name and periodicity is written and read back unchanged |
| Persistence.DumpLoadRoundTrip | habit_tracker.py:119-154 | from_json(to_json()) gives back the same habits, in the same order |
| Persistence.LoadDumpRecord | habit_tracker.py:123-148 | a loaded record with "completion_dates" is written back exactly as it was read |
| Persistence.LoadBypassesCompletionChecks | habit_tracker.py:148 | from_json sets completions without mark_completed's checks, so a record listing one day twice loads into a history that is not well formed |
| Persistence.RepeatedDayBreaksHistory | habit.py:42-53 | a history holding one day twice is not well formed under any periodicity |
| Tracker.StatesOfSnoc | habit_tracker.py:25 | appending a habit appends its fields |
| Tracker.FirstNamed | habit_tracker.py:66-69 | finds the first habit with the name, or reports that none has it |
| Tracker.FirstNamedAt | habit_tracker.py:66-69 | a search that reaches index i without a match finds i when i holds the name, and nothing at the end |
| Tracker.WithPeriodicity | habit_tracker.py:47 | the filter keeps, in order and as often as tracked, exactly the habits with the periodicity |
| Tracker.MaxFromIsLargest | habit_tracker.py:55 | `max(...)` fails with the first failing element; otherwise it is at least every element's value and equal to one of them |
| Tracker.MaxStreakIsLargest | habit_tracker.py:53-55 | the longest streak over all habits is 0 with no habits, fails exactly when some habit's streak fails, and is otherwise the largest habit streak |
| Tracker.HabitTracker.constructor | habit_tracker.py:10-14 | a new tracker has no habits |
| Tracker.HabitTracker.AddHabit | habit_tracker.py:23-25 | a Habit is appended at the end; any other value fails with a type error and changes nothing |
| Tracker.HabitTracker.GetAllHabits | habit_tracker.py:27-31 | returns the tracked habits themselves, in the order they were added |
| Tracker.HabitTracker.HabitsByPeriodicity | habit_tracker.py:40-47 | a blank periodicity fails, then any periodicity outside the three; otherwise the result keeps, in order, exactly the habits with that periodicity, each as often as it is tracked |
| Tracker.HabitTracker.LongestStreakAllHabits | habit_tracker.py:53-55 | 0 with no habits; fails exactly when some habit's streak fails; otherwise the largest streak of any habit |
| Tracker.HabitTracker.LongestStreakForHabit | habit_tracker.py:64-69 | a blank name fails; otherwise the streak of the first habit with that name, or 0 when there is none |
| Tracker.HabitTracker.EditHabit | habit_tracker.py:81-102 | a blank name fails, then an unknown one, with nothing changed; otherwise the first habit so named is edited as Habit.edit_habit edits it and no other habit changes |
| Tracker.HabitTracker.EditAt | habit_tracker.py:85-100 | edits the habit at one index as the edit specification says and changes no other habit |
| Tracker.HabitTracker.DeleteHabit | habit_tracker.py:111-117 | a blank name fails, then an unknown one, with nothing changed; otherwise only the first habit so named leaves the list, and the rest keep their order |
| Tracker.HabitTracker.ToJson | habit_tracker.py:119-133 | one record per habit, in list order, each the record of that habit's fields |
| Tracker.HabitTracker.ToJsonLoadsBack | habit_tracker.py:119-154 | when every habit has a non-blank name and periodicity, from_json reads the document to_json writes back as the same habits, in order |
| Tracker.HabitTracker.FromJson | habit_tracker.py:136-154 | a new tracker holding fresh habits: those of the records that load, in order |
| Tracker.HabitTracker.LoadInto | habit_tracker.py:142-153 | one pass of the try/except loop adds the record's habit when it loads, and nothing otherwise |
| Tracker.HabitTracker.LoadHabit | habit_tracker.py:143-148 | building a habit from a record succeeds or fails as the record specification does, with the same fields or the same error |
| Tracker.HabitTracker.Build | habit_tracker.py:147-148 | the constructor's checks decide success; a new habit gets the record's fields and completions directly |
| Scenarios.InitializationTests | tests/test_habit.py:18-24 | an empty name fails, then an empty periodicity; "Exercise", "daily" passes |
| Scenarios.JuneOrdinals | tests/test_habit.py:9 | the ordinals of 2025-06-02, -03, -04, -09 and -16 |
| Scenarios.Week1MondaysAround2025 | tests/test_habit.py:64-69 | the week-1 Mondays of 2024, 2025 and 2026 |
| Scenarios.DailyTestStreak | tests/test_habit.py:58-62 | three daily completions on consecutive days make a streak of 3, under every weekly rule |
| Scenarios.WeeklyTestStreak | tests/test_habit.py:64-69 | 2025-06-02, -09 and -16 are ISO weeks 23, 24 and 25, and make a streak of 3 under every weekly rule |
| Scenarios.MonthlyTestStreak | tests/test_habit.py:71-76 | completions in January, February and March 2025 make a streak of 3 |
| Scenarios.MarkNextDayTest | tests/test_habit.py:30-33 | a completion on the day after the start is appended |
| Scenarios.MarkBeforeStartTest | tests/test_habit.py:40-42 | a completion on the day before the start fails |
| Scenarios.MarkSameDayTest | tests/test_habit.py:35-38 | a second daily completion on the same day fails |
| Scenarios.MarkSameWeekTest | tests/test_habit.py:44-49 | a weekly completion three days after another in the same week fails |
| Scenarios.MarkSameMonthTest | tests/test_habit.py:51-56 | a monthly completion on 2025-06-28 after one on 2025-06-02 fails |
| Scenarios.DurationStringTests | tests/test_habit.py:78-83 | "2 day(s)", "2 week(s)", "2 month(s)", and "2 (units)" for any other periodicity |
| Scenarios.EditNameAndPeriodicityTest | tests/test_habit.py:85-88 | editing the name and periodicity changes both and nothing else |
| Scenarios.EditStartDateTest | tests/test_habit.py:90-95 | moving the start past the only completion removes it |
| Scenarios.Fixture | tests/test_habit_tracker.py:7-16 | a new tracker holding one new habit "Exercise", daily, started on the test's day, with no completions |
| Scenarios.AddHabitTest | tests/test_habit_tracker.py:19-20 | after the fixture, get_all_habits() is the list holding just the fixture's habit |
| Scenarios.AddInvalidHabitTest | tests/test_habit_tracker.py:23-26 | adding a value that is not a habit fails as a type error |
| Scenarios.HabitsByPeriodicityTest | tests/test_habit_tracker.py:29-32 | filtering the fixture by "daily" gives exactly the one habit, named "Exercise" |
| Scenarios.InvalidPeriodicityTest | tests/test_habit_tracker.py:35-37 | filtering by "Tomorrow" fails as an invalid periodicity |
| Scenarios.EditHabitTest | tests/test_habit_tracker.py:59-67 | editing "Exercise" to "Workout", weekly, with the same start, passes and the first habit has those fields |
| Scenarios.EditInvalidNameTest | tests/test_habit_tracker.py:70-73 | editing "Exercise" with an empty new name fails as a blank name |
| Scenarios.EditNonexistentTest | tests/test_habit_tracker.py:76-79 | editing "NonExistent" fails as a habit not found |
| Scenarios.DeleteHabitTest | tests/test_habit_tracker.py:82-85 | deleting "Exercise" passes and leaves no habits |
| Scenarios.DeleteNonexistentTest | tests/test_habit_tracker.py:88-91 | deleting "Unknown" fails as a habit not found |
| Scenarios.ToJsonTest | tests/test_habit_tracker.py:94-97 | to_json() has a "habits" list whose only entry is named "Exercise" |
| Scenarios.FromJsonDatesParse | tests/test_habit_tracker.py:107-108 | "2023-01-01" and "2023-01-02" parse as those dates |
| Scenarios.NewYear2023Formats | tests/test_habit_tracker.py:107 | 2023-01-01 is written "2023-01-01" |
| Scenarios.SecondOf2023Formats | tests/test_habit_tracker.py:108 | 2023-01-02 is written "2023-01-02" |
| Scenarios.FromJsonCompletionsRead | tests/test_habit_tracker.py:108 | the completion list reads as its two dates |
| Scenarios.FromJsonRecordLoads | tests/test_habit_tracker.py:104-109 | the record loads as the habit "Read", daily, with its two completions |
| Scenarios.FromJsonTest | tests/test_habit_tracker.py:100-116 | the document loads as exactly one habit, named "Read", with two completions |
| Scenarios.LongestStreakAllHabitsTest | tests/test_habit_tracker.py:40-44 | one habit completed on its start day and the next gives 2 |
| Scenarios.LongestStreakForHabitTests | tests/test_habit_tracker.py:47-56 | 1 for the habit completed once, 0 for a name no habit has |
| Scenarios.Week53StreakAsWritten | tests/habit.py:113-114 | under the week-number rule, 2020-12-31 and 2021-01-04 give a streak of 1 |
| Scenarios.Week53StreakCorrected | tests/habit.py:109-115 | under the corrected rule, the same two completions give a streak of 2 |

## Left out

- main.py, the interactive menu and file I/O are not part of this model. The JSON document is a value (`Persistence.Document`), not text.
- The `print` diagnostics of from_json are left out. A skipped record is modelled, but the message is not.
- `__repr__` is left out. It only formats a string for display.
- The `isinstance` checks on strings and dates are left out: every argument has its declared Dafny type, so a wrong-typed argument cannot be written. In the source these checks are reachable and raise ValueError: a start date that is not a datetime (habit.py:21-22, exercised by tests/test_habit.py:26-28), a completion date that is not one (habit.py:37-38), a new start date that is not one (habit.py:149-150), and a name or periodicity that is not a string (habit.py:17-20, 141-146). The type check of add_habit (habit_tracker.py:23-24) is kept through `Tracker.Candidate`.
- Time of day is not modelled: dates are whole days. `datetime.today()` in the tracker tests becomes a fixed date.
- Text.ParseDate: accepts only the zero-padded form `YYYY-MM-DD` with a four-digit year. Python's `strptime` also accepts unpadded months and days, such as "2023-1-2".
- Text.FormatDate: writes four-digit years. Python pads years below 1000 differently on some platforms.
- Values of the wrong JSON type are left out: every field of `Persistence.Record` is a string or a list of strings. In the source, a name or periodicity that is not a string makes `Habit(...)` raise ValueError (habit.py:17-20), so from_json skips that record (habit_tracker.py:152-153); the model cannot represent such a record. A start date or completion that is not a string (habit_tracker.py:145-146), a null "completion_dates" (habit_tracker.py:146), a record that is not a mapping, or a document that is not a mapping raises an uncaught TypeError or AttributeError in the source.
- Habits.Habit.GetCompletionDates: returns the list as a value. In the source the caller gets the object's own list and can change it in place. The same holds for Tracker.HabitTracker.GetAllHabits and the habit list.
- Streaks.Sort: `sorted()` is modelled as an insertion sort on values. Only its result is modelled, which is unique for distinct dates.
- Tracker.HabitTracker.EditHabit: the source repeats edit_habit's code inline; the model calls `Habits.Habit.Edit`, whose effect is the same.
- Tracker.MaxFromIsLargest: a streak that raises inside `max(...)` is modelled as the first failing habit's error. The later habits are never evaluated, as in the source.
- Calendar.NextDay: the day after 9999-12-31 is not a valid date. Python raises `OverflowError` there, and the model states validity only below it.

## Findings

| source | as written | input that shows it | evidently intended | confidence | as-written member | corrected member |
|---|---|---|---|---|---|---|
| tests/habit.py:113-114 | a weekly streak continues across a year only from week 52 to week 1 | 2020-12-31 (2020-W53) then 2021-01-04 (2021-W01), two successive weeks, give a streak of 1; 2020-12-21 (2020-W52) then 2021-01-04 are joined although week 53 lies between them | week 1 continues the streak from the last week of the previous ISO year, whether that is week 52 or week 53 | high, not executed | Periods.Week53BreaksIsoWeekNumberRule, Periods.Week52JoinsAcrossWeek53, Scenarios.Week53StreakAsWritten | Periods.IsoWeekAfterByNumbers, Scenarios.Week53StreakCorrected |
