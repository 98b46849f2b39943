/**
  The JSON-serialisable form of the tracker, as to_json writes it and
  from_json reads it: a document with an optional "habits" list of records,
  each with the keys "name", "periodicity", "start_date" and
  "completion_dates" and dates written YYYY-MM-DD. A key missing from a
  record is None. Loading a record runs the steps of from_json in order and
  stops at the first that fails; a failed record is skipped and the rest
  still load.
*/
module Persistence {
  import opened Failures
  import opened Calendar
  import opened Text
  import opened Periods
  import opened Habits

  datatype Record = Record(
    name: Option<string>,
    periodicity: Option<string>,
    startDate: Option<string>,
    completionDates: Option<seq<string>>)

  datatype Document = Document(habits: Option<seq<Record>>)

  // ---------------------------------------------------------------------------
  // to_json

  /** Each date written YYYY-MM-DD, in the stored order. */
  function FormatDates(ds: seq<CalendarDate>): (ss: seq<string>)
    ensures |ss| == |ds| && forall i :: 0 <= i < |ds| ==> ss[i] == FormatDate(ds[i])
  {
    if ds == [] then [] else [FormatDate(ds[0])] + FormatDates(ds[1..])
  }

  /** One habit as a record with every key present. */
  function DumpRecord(h: HabitRecord): Record {
    Record(Some(h.name), Some(h.periodicity), Some(FormatDate(h.startDate)), Some(FormatDates(h.completionDates)))
  }

  /** The document to_json builds: one record per habit, in the order of the habits. */
  function Dump(hs: seq<HabitRecord>): (d: Document)
    ensures d.habits.Some? && |d.habits.value| == |hs|
    ensures forall i :: 0 <= i < |hs| ==> d.habits.value[i] == DumpRecord(hs[i])
  {
    Document(Some(DumpRecords(hs)))
  }

  function DumpRecords(hs: seq<HabitRecord>): (rs: seq<Record>)
    ensures |rs| == |hs| && forall i :: 0 <= i < |hs| ==> rs[i] == DumpRecord(hs[i])
  {
    if hs == [] then [] else [DumpRecord(hs[0])] + DumpRecords(hs[1..])
  }

  // ---------------------------------------------------------------------------
  // from_json

  /** The list comprehension of strptime calls: the first string that does not parse fails the whole list. */
  function ParseDates(ss: seq<string>): (r: Result<seq<CalendarDate>>)
    ensures r.Ok? <==> forall i :: 0 <= i < |ss| ==> ParseDate(ss[i]).Ok?
    ensures r.Ok? ==> |r.value| == |ss| && forall i :: 0 <= i < |ss| ==> Ok(r.value[i]) == ParseDate(ss[i])
    ensures r.Err? ==> r.error == InvalidDate
  {
    if ss == [] then Ok([])
    else match ParseDate(ss[0])
      case Err(e) => Err(e)
      case Ok(d) =>
        match ParseDates(ss[1..])
        case Err(e) => Err(e)
        case Ok(rest) => Ok([d] + rest)
  }

  /** The "completion_dates" of a record: an empty list when the key is missing. */
  function ReadCompletions(cd: Option<seq<string>>): (r: Result<seq<CalendarDate>>)
    ensures r.Ok? <==> (cd.Some? ==> forall i :: 0 <= i < |cd.value| ==> ParseDate(cd.value[i]).Ok?)
    ensures cd.None? ==> r == Ok([])
    ensures r.Err? ==> r.error == InvalidDate
  {
    if cd.Some? then ParseDates(cd.value) else Ok([])
  }

  /**
    The body of from_json's loop for one record: the name, the periodicity
    and the start date must be present, the start date and every completion
    date must parse, and the constructor's checks must pass. A missing
    "completion_dates" key reads as an empty list. The completion dates are
    set as read, without mark_completed's checks.
  */
  function LoadRecord(r: Record): (result: Result<HabitRecord>)
    ensures result.Ok? ==> CheckFields(result.value.name, result.value.periodicity) == Pass
  {
    if r.name.None? || r.periodicity.None? || r.startDate.None? then Err(MissingKey)
    else Assemble(r.name.value, r.periodicity.value, ParseDate(r.startDate.value), ReadCompletions(r.completionDates))
  }

  /**
    The rest of the loop body once the keys are read: the start date's
    failure comes first, then the completions', then the constructor's.
  */
  function Assemble(name: string, periodicity: string, start: Result<CalendarDate>, dates: Result<seq<CalendarDate>>): (result: Result<HabitRecord>)
    ensures result.Ok? <==> start.Ok? && dates.Ok? && CheckFields(name, periodicity) == Pass
    ensures result.Ok? ==> result.value == HabitRecord(name, periodicity, start.value, dates.value)
    ensures start.Err? ==> result == Err(start.error)
    ensures start.Ok? && dates.Err? ==> result == Err(dates.error)
    ensures start.Ok? && dates.Ok? && CheckFields(name, periodicity).Fail? ==> result == Err(CheckFields(name, periodicity).error)
  {
    match start
    case Err(e) => Err(e)
    case Ok(d) =>
      if dates.Err? then Err(dates.error)
      else match CheckFields(name, periodicity)
        case Fail(e) => Err(e)
        case Pass => Ok(HabitRecord(name, periodicity, d, dates.value))
  }

  /** The values loaded from items in order, with the items that fail left out: the try/except loop of from_json. */
  function LoadAll<R, H>(rs: seq<R>, load: R -> Result<H>): (hs: seq<H>)
    ensures |hs| <= |rs|
  {
    if rs == [] then []
    else
      var last := load(rs[|rs| - 1]);
      LoadAll(rs[..|rs| - 1], load) + if last.Ok? then [last.value] else []
  }

  /** The habits loaded from a list of records. */
  function LoadRecords(rs: seq<Record>): seq<HabitRecord> {
    LoadAll(rs, LoadRecord)
  }

  /** from_json: a document without "habits" loads no habit. */
  function LoadDocument(d: Document): seq<HabitRecord> {
    if d.habits.None? then [] else LoadRecords(d.habits.value)
  }

  // ---------------------------------------------------------------------------
  // Properties

  /** Loading a list in two parts loads each part on its own: one item's failure does not affect the others. */
  lemma {:induction false} LoadAllAppend<R, H>(rs1: seq<R>, rs2: seq<R>, load: R -> Result<H>)
    ensures LoadAll(rs1 + rs2, load) == LoadAll(rs1, load) + LoadAll(rs2, load)
    decreases |rs2|
  {
    if rs2 != [] {
      var rs2' := rs2[..|rs2| - 1];
      assert (rs1 + rs2)[..|rs1 + rs2| - 1] == rs1 + rs2';
      LoadAllAppend(rs1, rs2', load);
    } else {
      assert rs1 + rs2 == rs1;
    }
  }

  /** Loading one more item adds its value at the end when it loads, and nothing otherwise. */
  lemma LoadAllSnoc<R, H>(rs: seq<R>, r: R, load: R -> Result<H>)
    ensures LoadAll(rs + [r], load) == LoadAll(rs, load) + if load(r).Ok? then [load(r).value] else []
  {
    assert (rs + [r])[..|rs|] == rs;
  }

  /** Loading one more record appends its habit when it loads, and nothing otherwise. */
  lemma LoadRecordsSnoc(rs: seq<Record>, r: Record, x: Result<HabitRecord>)
    requires LoadRecord(r) == x
    ensures LoadRecords(rs + [r]) == LoadRecords(rs) + if x.Ok? then [x.value] else []
  {
    LoadAllSnoc(rs, r, LoadRecord);
  }

  /** Every loaded value is the value of some item. */
  lemma {:induction false} LoadAllFromItems<R, H>(rs: seq<R>, load: R -> Result<H>)
    ensures forall h :: h in LoadAll(rs, load) ==> exists r :: r in rs && load(r) == Ok(h)
    decreases |rs|
  {
    if rs != [] {
      var init := rs[..|rs| - 1];
      LoadAllFromItems(init, load);
      forall h | h in LoadAll(rs, load) ensures exists r :: r in rs && load(r) == Ok(h) {
        if h in LoadAll(init, load) {
          var r :| r in init && load(r) == Ok(h);
          assert r in rs;
        } else {
          assert rs[|rs| - 1] in rs;
        }
      }
    }
  }

  /** When every item loads, the values come out one per item, in order. */
  lemma {:induction false} LoadAllTotal<R, H>(rs: seq<R>, load: R -> Result<H>, hs: seq<H>)
    requires |rs| == |hs| && forall i :: 0 <= i < |rs| ==> load(rs[i]) == Ok(hs[i])
    ensures LoadAll(rs, load) == hs
    decreases |rs|
  {
    if rs != [] {
      LoadAllTotal(rs[..|rs| - 1], load, hs[..|hs| - 1]);
      assert hs == hs[..|hs| - 1] + [hs[|hs| - 1]];
    }
  }

  /** An item that fails to load contributes nothing. */
  lemma LoadAllSkips<R, H>(before: seq<R>, r: R, after: seq<R>, load: R -> Result<H>)
    requires load(r).Err?
    ensures LoadAll(before + [r] + after, load) == LoadAll(before, load) + LoadAll(after, load)
  {
    LoadAllAppend(before + [r], after, load);
    LoadAllSnoc(before, r, load);
  }

  /** A record that fails to load is skipped: the records around it load as if it were not there. */
  lemma SkipsFailedRecord(before: seq<Record>, r: Record, after: seq<Record>)
    requires LoadRecord(r).Err?
    ensures LoadDocument(Document(Some(before + [r] + after))) == LoadRecords(before) + LoadRecords(after)
  {
    LoadAllSkips(before, r, after, LoadRecord);
  }

  /** Every loaded habit has passed the constructor's checks. */
  lemma LoadedHabitsValid(rs: seq<Record>)
    ensures forall h :: h in LoadRecords(rs) ==> CheckFields(h.name, h.periodicity) == Pass
  {
    LoadAllFromItems(rs, LoadRecord);
  }

  /** A record without "completion_dates" but otherwise loadable becomes a habit with no completions. */
  lemma MissingCompletionsLoadEmpty(r: Record)
    requires r.completionDates.None?
    ensures LoadRecord(r).Ok? ==> LoadRecord(r).value.completionDates == []
  {
  }

  /**
    A record loads exactly when its three keys are present, its dates parse
    and its name and periodicity are not blank.
  */
  lemma LoadRecordSucceeds(r: Record)
    ensures LoadRecord(r).Ok? <==>
      && r.name.Some? && r.periodicity.Some? && r.startDate.Some?
      && ParseDate(r.startDate.value).Ok?
      && (r.completionDates.Some? ==> forall i :: 0 <= i < |r.completionDates.value| ==> ParseDate(r.completionDates.value[i]).Ok?)
      && !IsBlank(r.name.value) && !IsBlank(r.periodicity.value)
  {
  }

  /** The dates written by FormatDates read back as the same dates. */
  lemma {:induction false} ParseFormatDates(ds: seq<CalendarDate>)
    ensures ParseDates(FormatDates(ds)) == Ok(ds)
  {
    if ds != [] {
      ParseFormatDate(ds[0]);
      ParseFormatDates(ds[1..]);
      assert FormatDates(ds)[1..] == FormatDates(ds[1..]);
      assert ds == [ds[0]] + ds[1..];
    }
  }

  /** A habit whose name and periodicity pass the constructor's checks is written and read back unchanged. */
  lemma DumpLoadRecord(h: HabitRecord)
    requires CheckFields(h.name, h.periodicity) == Pass
    ensures LoadRecord(DumpRecord(h)) == Ok(h)
  {
    ParseFormatDate(h.startDate);
    ParseFormatDates(h.completionDates);
  }

  /**
    to_json followed by from_json gives back every habit, in order, when
    every name and periodicity is non-blank, as the constructor and
    edit_habit keep them.
  */
  lemma DumpLoadRoundTrip(hs: seq<HabitRecord>)
    requires forall h :: h in hs ==> CheckFields(h.name, h.periodicity) == Pass
    ensures LoadDocument(Dump(hs)) == hs
  {
    var rs := DumpRecords(hs);
    forall i | 0 <= i < |rs| ensures LoadRecord(rs[i]) == Ok(hs[i]) {
      DumpLoadRecord(hs[i]);
    }
    LoadAllTotal(rs, LoadRecord, hs);
  }

  /** Every list of dates ParseDates accepts is the one FormatDates writes for its dates. */
  lemma {:induction false} FormatParseDates(ss: seq<string>)
    ensures ParseDates(ss).Ok? ==> FormatDates(ParseDates(ss).value) == ss
  {
    if ss != [] && ParseDates(ss).Ok? {
      FormatParseDate(ss[0]);
      FormatParseDates(ss[1..]);
      assert ParseDates(ss).value == [ParseDate(ss[0]).value] + ParseDates(ss[1..]).value;
      assert ss == [ss[0]] + ss[1..];
    }
  }

  /** Every loaded record carrying "completion_dates" is written back exactly as it was read. */
  lemma LoadDumpRecord(r: Record)
    requires r.completionDates.Some?
    ensures LoadRecord(r).Ok? ==> DumpRecord(LoadRecord(r).value) == r
  {
    if LoadRecord(r).Ok? {
      var start := ParseDate(r.startDate.value).value;
      var dates := ParseDates(r.completionDates.value).value;
      assert LoadRecord(r).value == HabitRecord(r.name.value, r.periodicity.value, start, dates);
      FormatParseDate(r.startDate.value);
      FormatParseDates(r.completionDates.value);
    }
  }

  /**
    from_json sets the completions without mark_completed's checks: a record
    listing one day twice loads into a habit whose history is not well formed,
    whatever its periodicity.
  */
  lemma LoadBypassesCompletionChecks(name: string, periodicity: string, day: string)
    requires CheckFields(name, periodicity) == Pass && ParseDate(day).Ok?
    ensures var r := Record(Some(name), Some(periodicity), Some(day), Some([day, day]));
      LoadRecord(r).Ok? && !WellFormedHistory(LoadRecord(r).value)
  {
    var d := ParseDate(day).value;
    var days := [day, day];
    assert days[0] == day && days[1] == day;
    assert ParseDates(days).Ok?;
    assert ParseDates(days).value == [d, d];
    var r := Record(Some(name), Some(periodicity), Some(day), Some(days));
    assert LoadRecord(r) == Ok(HabitRecord(name, periodicity, d, [d, d]));
    RepeatedDayBreaksHistory(HabitRecord(name, periodicity, d, [d, d]), d);
  }

  /** A history holding one day twice is not well formed under any periodicity. */
  lemma RepeatedDayBreaksHistory(h: HabitRecord, d: CalendarDate)
    requires h.completionDates == [d, d]
    ensures !WellFormedHistory(h)
  {
    if KindOf(h.periodicity).Some? {
      BucketEquivalence(KindOf(h.periodicity).value, d, d, d);
      assert multiset([d, d])[d] == 2;
    }
  }
}
