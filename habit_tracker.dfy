/**
  The HabitTracker of habit_tracker.py and of its copy in
  tests/habit_tracker.py: an insertion-ordered list of Habit objects. The
  list holds references, so one habit added twice is edited in both places;
  the contracts speak of the objects and of their fields as values.
*/
module Tracker {
  import opened Failures
  import opened Calendar
  import opened Text
  import opened Periods
  import opened Streaks
  import opened Sequences
  import opened Habits
  import opened Persistence

  /** The argument of add_habit: a Habit, or a value of any other type. */
  datatype Candidate = HabitValue(habit: Habit) | OtherValue

  /** The fields of each habit, in list order. */
  function StatesOf(hs: seq<Habit>): (r: seq<HabitRecord>)
    reads hs
    ensures |r| == |hs| && forall i :: 0 <= i < |hs| ==> r[i] == hs[i].State()
  {
    if hs == [] then [] else [hs[0].State()] + StatesOf(hs[1..])
  }

  /** Appending a habit appends its fields. */
  lemma StatesOfSnoc(hs: seq<Habit>, h: Habit)
    ensures StatesOf(hs + [h]) == StatesOf(hs) + [h.State()]
  {
    assert forall i :: 0 <= i < |hs| ==> (hs + [h])[i] == hs[i];
  }

  /** The index of the first habit named `name`, if any. */
  function FirstNamed(hs: seq<HabitRecord>, name: string): (r: Option<nat>)
    ensures r.Some? ==> r.value < |hs| && hs[r.value].name == name
    ensures r.Some? ==> forall j :: 0 <= j < r.value ==> hs[j].name != name
    ensures r.None? ==> forall j :: 0 <= j < |hs| ==> hs[j].name != name
  {
    if hs == [] then None
    else if hs[0].name == name then Some(0)
    else match FirstNamed(hs[1..], name)
      case None => None
      case Some(i) => Some(i + 1)
  }

  /** The habits of hs whose periodicity is p, in their order (the comprehension of get_habits_by_periodicity). */
  function WithPeriodicity(hs: seq<Habit>, p: string): (r: seq<Habit>)
    reads hs
    ensures IsSubsequence(r, hs)
    ensures forall h :: h in r ==> h in hs && h.periodicity == p
    ensures forall h :: h in hs && h.periodicity == p ==> h in r
    ensures forall h :: h in hs ==> multiset(r)[h] == if h.periodicity == p then multiset(hs)[h] else 0
  {
    if hs == [] then []
    else
      assert hs == [hs[0]] + hs[1..];
      var rest := WithPeriodicity(hs[1..], p);
      if hs[0].periodicity == p then
        [hs[0]] + rest
      else
        SubsequenceOfTail(rest, hs);
        rest
  }

  /** get_longest_streak of one habit. */
  function StreakOf(h: HabitRecord, rule: WeeklyRule): Result<int> {
    Streak(h.periodicity, rule, h.completionDates)
  }

  /**
    The maximum of f over a non-empty xs, evaluated from the first element:
    the first element on which f fails fails it (Python's max over a
    generator).
  */
  function MaxFrom<T>(xs: seq<T>, f: T -> Result<int>): Result<int>
    requires xs != []
  {
    match f(xs[0])
    case Err(e) => Err(e)
    case Ok(first) =>
      if |xs| == 1 then Ok(first)
      else match MaxFrom(xs[1..], f)
        case Err(e) => Err(e)
        case Ok(rest) => Ok(Max(first, rest))
  }

  /** 0 for no elements, otherwise their maximum. */
  function MaxOf<T>(xs: seq<T>, f: T -> Result<int>): Result<int> {
    if xs == [] then Ok(0) else MaxFrom(xs, f)
  }

  /**
    MaxFrom fails exactly when f fails on some element, with the failure of
    the first such element; otherwise it is at least f of each element and
    equal to f of one of them.
  */
  lemma {:induction false} MaxFromIsLargest<T>(xs: seq<T>, f: T -> Result<int>)
    requires xs != []
    ensures MaxFrom(xs, f).Ok? <==> forall i :: 0 <= i < |xs| ==> f(xs[i]).Ok?
    ensures MaxFrom(xs, f).Err? ==>
      exists i :: 0 <= i < |xs| && f(xs[i]) == MaxFrom(xs, f) && (forall j :: 0 <= j < i ==> f(xs[j]).Ok?)
    ensures MaxFrom(xs, f).Ok? ==> forall i :: 0 <= i < |xs| ==> f(xs[i]).value <= MaxFrom(xs, f).value
    ensures MaxFrom(xs, f).Ok? ==> exists i :: 0 <= i < |xs| && f(xs[i]).value == MaxFrom(xs, f).value
  {
    if |xs| > 1 {
      var tail := xs[1..];
      MaxFromIsLargest(tail, f);
      assert forall i :: 0 < i < |xs| ==> xs[i] == tail[i - 1];
      if f(xs[0]).Ok? && MaxFrom(tail, f).Err? {
        var i :| 0 <= i < |tail| && f(tail[i]) == MaxFrom(tail, f) && forall j :: 0 <= j < i ==> f(tail[j]).Ok?;
        assert f(xs[i + 1]) == MaxFrom(xs, f);
      }
      if MaxFrom(xs, f).Ok? && MaxFrom(xs, f).value != f(xs[0]).value {
        var i :| 0 <= i < |tail| && f(tail[i]).value == MaxFrom(tail, f).value;
        assert f(xs[i + 1]).value == MaxFrom(xs, f).value;
      }
    }
  }

  /** The maximum of the habits' streaks under one weekly rule. */
  function MaxStreak(hs: seq<HabitRecord>, rule: WeeklyRule): Result<int> {
    MaxOf(hs, (h: HabitRecord) => StreakOf(h, rule))
  }

  /**
    get_longest_streak_all_habits: 0 with no habits; otherwise the largest
    of the habits' streaks, which is at least each of them and equal to one
    of them. It fails exactly when some habit's streak fails, with the
    failure of the first such habit.
  */
  lemma MaxStreakIsLargest(hs: seq<HabitRecord>, rule: WeeklyRule)
    ensures MaxStreak(hs, rule).Ok? <==> forall i :: 0 <= i < |hs| ==> StreakOf(hs[i], rule).Ok?
    ensures MaxStreak(hs, rule).Err? ==>
      exists i :: 0 <= i < |hs| && StreakOf(hs[i], rule) == MaxStreak(hs, rule) && (forall j :: 0 <= j < i ==> StreakOf(hs[j], rule).Ok?)
    ensures MaxStreak(hs, rule).Ok? ==> forall i :: 0 <= i < |hs| ==> StreakOf(hs[i], rule).value <= MaxStreak(hs, rule).value
    ensures hs == [] ==> MaxStreak(hs, rule) == Ok(0)
    ensures MaxStreak(hs, rule).Ok? && hs != [] ==> exists i :: 0 <= i < |hs| && StreakOf(hs[i], rule).value == MaxStreak(hs, rule).value
  {
    if hs != [] {
      MaxFromIsLargest(hs, (h: HabitRecord) => StreakOf(h, rule));
    }
  }

  /** The first habit with a name is found at i when i holds it and no earlier one does. */
  lemma FirstNamedAt(hs: seq<HabitRecord>, name: string, i: int)
    requires 0 <= i <= |hs| && forall j :: 0 <= j < i ==> hs[j].name != name
    ensures i < |hs| && hs[i].name == name ==> FirstNamed(hs, name) == Some(i)
    ensures i == |hs| ==> FirstNamed(hs, name) == None
  {
  }

  /** get_longest_streak_for_habit: a blank name fails; otherwise the streak of the first habit so named, or 0. */
  function StreakForName(hs: seq<HabitRecord>, name: string, rule: WeeklyRule): Result<int> {
    if IsBlank(name) then Err(BlankName)
    else match FirstNamed(hs, name)
      case None => Ok(0)
      case Some(i) => StreakOf(hs[i], rule)
  }

  class HabitTracker {
    var habits: seq<Habit>

    /** The fields of the tracked habits, in list order. */
    function States(): seq<HabitRecord>
      reads this, habits
    {
      StatesOf(habits)
    }

    /** An empty tracker. */
    constructor ()
      ensures habits == []
    {
      habits := [];
    }

    /** `add_habit(habit)`: appends a Habit at the end; any other value fails and changes nothing. */
    method AddHabit(c: Candidate) returns (outcome: Outcome)
      modifies this
      ensures c.HabitValue? ==> outcome == Pass && habits == old(habits) + [c.habit]
      ensures c.HabitValue? ==> States() == old(States()) + [c.habit.State()]
      ensures c.OtherValue? ==> outcome == Fail(NotAHabit) && habits == old(habits)
    {
      if !c.HabitValue? {
        return Fail(NotAHabit);
      }
      StatesOfSnoc(habits, c.habit);
      habits := habits + [c.habit];
      return Pass;
    }

    /** `get_all_habits()`: the tracked habits themselves, in the order they were added. */
    method GetAllHabits() returns (hs: seq<Habit>)
      ensures hs == habits
    {
      hs := habits;
    }

    /**
      `get_habits_by_periodicity(p)`: a blank p fails, then any p other than
      "daily", "weekly" or "monthly"; otherwise the habits with periodicity
      p, in list order, each as often as it is tracked.
    */
    function HabitsByPeriodicity(p: string): (r: Result<seq<Habit>>)
      reads this, habits
      ensures r.Err? <==> KindOf(p).None?
      ensures r.Err? ==> r.error == if IsBlank(p) then BlankPeriodicity else InvalidPeriodicity
      ensures r.Ok? ==> IsSubsequence(r.value, habits)
      ensures r.Ok? ==> forall h :: h in r.value ==> h in habits && h.periodicity == p
      ensures r.Ok? ==> forall h :: h in habits && h.periodicity == p ==> h in r.value
      ensures r.Ok? ==> forall h :: h in habits ==> multiset(r.value)[h] == if h.periodicity == p then multiset(habits)[h] else 0
    {
      if IsBlank(p) then
        BlankSelectsNoKind(p);
        Err(BlankPeriodicity)
      else if KindOf(p).None? then Err(InvalidPeriodicity)
      else Ok(WithPeriodicity(habits, p))
    }

    /**
      `get_longest_streak_all_habits()`: 0 with no habits; otherwise the
      largest streak of any habit, failing when some habit's streak fails.
    */
    function LongestStreakAllHabits(rule: WeeklyRule): (r: Result<int>)
      reads this, habits
      ensures habits == [] ==> r == Ok(0)
      ensures r.Ok? <==> forall i :: 0 <= i < |habits| ==> StreakOf(habits[i].State(), rule).Ok?
      ensures r.Ok? ==> forall i :: 0 <= i < |habits| ==> StreakOf(habits[i].State(), rule).value <= r.value
      ensures r.Ok? && habits != [] ==> exists i :: 0 <= i < |habits| && StreakOf(habits[i].State(), rule).value == r.value
    {
      MaxStreakIsLargest(States(), rule);
      MaxStreak(States(), rule)
    }

    /**
      `get_longest_streak_for_habit(name)`: scans the habits in order and
      returns the streak of the first one with that name.
    */
    method LongestStreakForHabit(name: string, rule: WeeklyRule) returns (r: Result<int>)
      ensures r == StreakForName(States(), name, rule)
    {
      if IsBlank(name) {
        return Err(BlankName);
      }
      for i := 0 to |habits|
        invariant forall j :: 0 <= j < i ==> habits[j].name != name
      {
        if habits[i].name == name {
          FirstNamedAt(States(), name, i);
          r := habits[i].LongestStreak(rule);
          return;
        }
      }
      FirstNamedAt(States(), name, |habits|);
      return Ok(0);
    }

    /**
      `edit_habit(habit_name, ...)`: a blank name fails; otherwise the first
      habit with that name is edited as Habit.edit_habit edits it, and no
      other habit changes. With no such habit it fails and nothing changes.
    */
    method EditHabit(name: string, newName: Option<string>, newPeriodicity: Option<string>, newStart: Option<CalendarDate>)
      returns (outcome: Outcome)
      modifies habits
      ensures habits == old(habits)
      ensures IsBlank(name) ==> outcome == Fail(BlankName) && States() == old(States())
      ensures !IsBlank(name) && FirstNamed(old(States()), name).None? ==>
        outcome == Fail(HabitNotFound) && States() == old(States())
      ensures !IsBlank(name) && FirstNamed(old(States()), name).Some? ==>
        var i := FirstNamed(old(States()), name).value;
        && (habits[i].State(), outcome) == ApplyEdit(old(States())[i], newName, newPeriodicity, newStart)
        && forall h :: h in habits && h != habits[i] ==> h.State() == old(h.State())
    {
      if IsBlank(name) {
        return Fail(BlankName);
      }
      var i := 0;
      while i < |habits| && habits[i].name != name
        invariant 0 <= i <= |habits|
        invariant forall j :: 0 <= j < i ==> habits[j].name != name
      {
        i := i + 1;
      }
      FirstNamedAt(States(), name, i);
      if i == |habits| {
        return Fail(HabitNotFound);
      }
      outcome := EditAt(i, newName, newPeriodicity, newStart);
    }

    /** Habit.edit_habit on the habit at index i: that object changes and no other. */
    method EditAt(i: nat, newName: Option<string>, newPeriodicity: Option<string>, newStart: Option<CalendarDate>)
      returns (outcome: Outcome)
      requires i < |habits|
      modifies habits[i]
      ensures (habits[i].State(), outcome) == ApplyEdit(old(States())[i], newName, newPeriodicity, newStart)
      ensures forall h :: h in habits && h != habits[i] ==> h.State() == old(h.State())
    {
      outcome := habits[i].Edit(newName, newPeriodicity, newStart);
    }

    /**
      `delete_habit(name)`: a blank name fails; otherwise the first habit with
      that name leaves the list and the others keep their order. With no
      such habit it fails and the list is unchanged.
    */
    method DeleteHabit(name: string) returns (outcome: Outcome)
      modifies this
      ensures IsBlank(name) ==> outcome == Fail(BlankName) && habits == old(habits)
      ensures !IsBlank(name) && FirstNamed(old(States()), name).None? ==>
        outcome == Fail(HabitNotFound) && habits == old(habits)
      ensures !IsBlank(name) && FirstNamed(old(States()), name).Some? ==>
        var i := FirstNamed(old(States()), name).value;
        outcome == Pass && habits == old(habits[..i] + habits[i + 1..])
    {
      if IsBlank(name) {
        return Fail(BlankName);
      }
      for i := 0 to |habits|
        invariant forall j :: 0 <= j < i ==> habits[j].name != name
      {
        if habits[i].name == name {
          habits := habits[..i] + habits[i + 1..];
          return Pass;
        }
      }
      return Fail(HabitNotFound);
    }

    /** `to_json()`: one record per habit, in list order. */
    function ToJson(): (d: Document)
      reads this, habits
      ensures d.habits.Some? && |d.habits.value| == |habits|
      ensures forall i :: 0 <= i < |habits| ==> d.habits.value[i] == DumpRecord(States()[i])
    {
      Dump(States())
    }

    /**
      When every habit has a non-blank name and periodicity, from_json reads
      the document to_json writes back as the same habits, in order.
    */
    lemma ToJsonLoadsBack()
      requires forall h :: h in States() ==> CheckFields(h.name, h.periodicity) == Pass
      ensures LoadDocument(ToJson()) == States()
    {
      DumpLoadRoundTrip(States());
    }

    /**
      `from_json(data)`: a new tracker with the habits of the records that
      load, in order. Each habit is built by the constructor and then given
      the record's completions directly.
    */
    static method FromJson(doc: Document) returns (t: HabitTracker)
      ensures fresh(t) && forall h :: h in t.habits ==> fresh(h)
      ensures t.States() == LoadDocument(doc)
    {
      t := new HabitTracker();
      var records := if doc.habits.Some? then doc.habits.value else [];
      for i := 0 to |records|
        invariant fresh(t) && forall h :: h in t.habits ==> fresh(h)
        invariant t.States() == LoadRecords(records[..i])
      {
        assert records[..i + 1] == records[..i] + [records[i]];
        t.LoadInto(records[..i], records[i]);
      }
      assert records[..|records|] == records;
    }

    /**
      One iteration of from_json: the habit of r, when it loads, is appended
      to the habits loaded from the records before it.
    */
    method LoadInto(ghost loaded: seq<Record>, r: Record)
      requires States() == LoadRecords(loaded)
      modifies this
      ensures forall h :: h in habits ==> h in old(habits) || fresh(h)
      ensures States() == LoadRecords(loaded + [r])
    {
      var habit := LoadHabit(r);
      ghost var x := if habit.Ok? then Ok(habit.value.State()) else Err(habit.error);
      LoadRecordsSnoc(loaded, r, x);
      if habit.Ok? {
        var _ := AddHabit(HabitValue(habit.value));
      }
    }

    /**
      The try block of from_json for one record: read the keys, parse the
      start date and the completions, construct the habit, then set its
      completions without mark_completed's checks. A missing key or a bad
      value ends the block.
    */
    static method LoadHabit(r: Record) returns (loaded: Result<Habit>)
      ensures loaded.Ok? ==> fresh(loaded.value)
      ensures LoadRecord(r) == if loaded.Ok? then Ok(loaded.value.State()) else Err(loaded.error)
    {
      if r.name.None? || r.periodicity.None? || r.startDate.None? {
        return Err(MissingKey);
      }
      var start := ParseDate(r.startDate.value);
      if start.Err? {
        return Err(start.error);
      }
      var dates := ReadCompletions(r.completionDates);
      if dates.Err? {
        return Err(dates.error);
      }
      loaded := Build(r.name.value, r.periodicity.value, start.value, dates.value);
    }

    /**
      The end of from_json's try block: construct the habit, then assign its
      completions directly.
    */
    static method Build(name: string, periodicity: string, start: CalendarDate, dates: seq<CalendarDate>)
      returns (built: Result<Habit>)
      ensures built.Err? <==> CheckFields(name, periodicity).Fail?
      ensures built.Err? ==> built.error == CheckFields(name, periodicity).error
      ensures built.Ok? ==> fresh(built.value) && built.value.State() == HabitRecord(name, periodicity, start, dates)
    {
      var created := Habit.Create(name, periodicity, start);
      if created.Err? {
        return Err(created.error);
      }
      var h := created.value;
      h.completionDates := dates;
      return Ok(h);
    }
  }
}
