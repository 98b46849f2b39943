/**
  The longest-streak computation shared by both copies of the Habit class:
  sort the completions, then scan neighbouring pairs with a running streak
  and its maximum, extending the streak while each completion is adjacent to
  the one before it. Sorting and scanning are stated for any element type,
  ordered by an integer key and related by an adjacency test; Streak at the
  end instantiates them with dates, their ordinals and a periodicity's rule.
*/
module Streaks {
  import opened Failures
  import opened Calendar
  import opened Periods

  // ---------------------------------------------------------------------------
  // sorted()

  /** No element has a larger key than an element after it. */
  predicate SortedBy<T>(s: seq<T>, key: T -> int) {
    forall i, j :: 0 <= i < j < |s| ==> key(s[i]) <= key(s[j])
  }

  /** Inserts x into sorted s before the first element whose key is not smaller. */
  function Insert<T>(x: T, s: seq<T>, key: T -> int): (r: seq<T>)
    requires SortedBy(s, key)
    ensures SortedBy(r, key) && multiset(r) == multiset(s) + multiset{x}
    ensures |r| == |s| + 1 && (r[0] == x || (s != [] && r[0] == s[0]))
  {
    if s == [] || key(x) <= key(s[0]) then
      [x] + s
    else
      SortedTail(s, key);
      var rest := Insert(x, s[1..], key);
      InsertBehindHead(x, s, rest, key);
      [s[0]] + rest
  }

  /**
    The recursive case of Insert: x goes behind the head of s, whose key is
    smaller, and the head stays in front of the sorted rest.
  */
  lemma InsertBehindHead<T>(x: T, s: seq<T>, rest: seq<T>, key: T -> int)
    requires SortedBy(s, key) && s != [] && key(s[0]) < key(x)
    requires SortedBy(rest, key) && multiset(rest) == multiset(s[1..]) + multiset{x}
    ensures SortedBy([s[0]] + rest, key)
    ensures multiset([s[0]] + rest) == multiset(s) + multiset{x}
  {
    assert s == [s[0]] + s[1..];
    forall k | 0 <= k < |rest| ensures key(s[0]) <= key(rest[k]) {
      assert rest[k] in multiset(s[1..]) + multiset{x};
      if rest[k] != x {
        var m :| 0 <= m < |s[1..]| && s[1..][m] == rest[k];
        assert s[1 + m] == rest[k];
      }
    }
    PrependSmallest(s[0], rest, key);
  }

  /** An element with a key no larger than any of a sorted sequence's keys can go in front of it. */
  lemma PrependSmallest<T>(x: T, s: seq<T>, key: T -> int)
    requires SortedBy(s, key)
    requires forall k :: 0 <= k < |s| ==> key(x) <= key(s[k])
    ensures SortedBy([x] + s, key)
  {
    forall i, j | 0 <= i < j < |[x] + s| ensures key(([x] + s)[i]) <= key(([x] + s)[j]) {
      if i > 0 {
        assert ([x] + s)[i] == s[i - 1];
      }
      assert ([x] + s)[j] == s[j - 1];
    }
  }

  /** A sorted permutation of s. */
  function Sort<T>(s: seq<T>, key: T -> int): (r: seq<T>)
    ensures SortedBy(r, key) && multiset(r) == multiset(s)
  {
    if s == [] then []
    else
      assert s == [s[0]] + s[1..];
      Insert(s[0], Sort(s[1..], key), key)
  }

  /** When distinct elements have distinct keys, a multiset has one sorted arrangement. */
  lemma {:induction false} SortedUnique<T>(a: seq<T>, b: seq<T>, key: T -> int)
    requires forall x, y :: key(x) == key(y) ==> x == y
    requires SortedBy(a, key) && SortedBy(b, key) && multiset(a) == multiset(b)
    ensures a == b
    decreases |a|
  {
    if a != [] {
      assert |b| == |a| by { assert |multiset(b)| == |multiset(a)|; }
      SortedHeads(a, b, key);
      assert a[0] == b[0];
      TailMultiset(a);
      TailMultiset(b);
      SortedTail(a, key);
      SortedTail(b, key);
      SortedUnique(a[1..], b[1..], key);
      assert forall i | 0 < i < |a| :: a[i] == a[1..][i - 1] && b[i] == b[1..][i - 1];
    }
  }

  lemma TailMultiset<T>(s: seq<T>)
    requires s != []
    ensures multiset(s[1..]) == multiset(s) - multiset{s[0]}
  {
    assert s == [s[0]] + s[1..];
  }

  lemma SortedTail<T>(s: seq<T>, key: T -> int)
    requires s != [] && SortedBy(s, key)
    ensures SortedBy(s[1..], key)
  {
  }

  /** Two sorted arrangements of one multiset start with elements of the same key. */
  lemma SortedHeads<T>(a: seq<T>, b: seq<T>, key: T -> int)
    requires a != [] && b != []
    requires SortedBy(a, key) && SortedBy(b, key) && multiset(a) == multiset(b)
    ensures key(a[0]) == key(b[0])
  {
    assert a[0] in multiset(b) && b[0] in multiset(a);
    var i :| 0 <= i < |b| && b[i] == a[0];
    var j :| 0 <= j < |a| && a[j] == b[0];
    assert key(a[0]) <= key(a[j]);
    assert key(b[0]) <= key(b[i]);
  }

  // ---------------------------------------------------------------------------
  // Runs of adjacent elements

  function Max(a: int, b: int): int {
    if a < b then b else a
  }

  /** The element at index k extends the streak of the one before it. */
  predicate AdjacentAt<T>(s: seq<T>, adj: (T, T) -> bool, k: int)
    requires 0 < k < |s|
  {
    adj(s[k - 1], s[k])
  }

  /** s[lo..hi] is a streak: a non-empty stretch in which every element extends the one before. */
  predicate IsRun<T>(s: seq<T>, adj: (T, T) -> bool, lo: int, hi: int) {
    0 <= lo < hi <= |s| && forall k :: lo < k < hi ==> AdjacentAt(s, adj, k)
  }

  /** The length of the streak that ends at index i: the loop's `current_streak`. */
  function RunEndingAt<T>(s: seq<T>, adj: (T, T) -> bool, i: int): (n: int)
    requires 0 <= i < |s|
    ensures 1 <= n <= i + 1
  {
    if i == 0 then 1
    else if AdjacentAt(s, adj, i) then RunEndingAt(s, adj, i - 1) + 1
    else 1
  }

  /** The longest streak ending at one of the indices 0..i: the loop's `longest_streak`. */
  function LongestRunUpTo<T>(s: seq<T>, adj: (T, T) -> bool, i: int): (n: int)
    requires 0 <= i < |s|
    ensures 1 <= n <= i + 1
  {
    if i == 0 then 1 else Max(LongestRunUpTo(s, adj, i - 1), RunEndingAt(s, adj, i))
  }

  /** The longest streak of s, 0 when s is empty. */
  function LongestRun<T>(s: seq<T>, adj: (T, T) -> bool): (n: int)
    ensures n == 0 <==> s == []
    ensures s != [] ==> 1 <= n <= |s|
  {
    if s == [] then 0 else LongestRunUpTo(s, adj, |s| - 1)
  }

  /** The streak counted up to the element before `end` is a run, and no run ending there is longer. */
  lemma {:induction false} RunEndingAtIsLongestEndingThere<T>(s: seq<T>, adj: (T, T) -> bool, end: int)
    requires 0 < end <= |s|
    ensures IsRun(s, adj, end - RunEndingAt(s, adj, end - 1), end)
    ensures forall lo :: IsRun(s, adj, lo, end) ==> end - lo <= RunEndingAt(s, adj, end - 1)
  {
    if end > 1 {
      RunEndingAtIsLongestEndingThere(s, adj, end - 1);
      forall lo | IsRun(s, adj, lo, end)
        ensures end - lo <= RunEndingAt(s, adj, end - 1)
      {
        if lo < end - 1 {
          assert AdjacentAt(s, adj, end - 1);
          assert IsRun(s, adj, lo, end - 1);
        }
      }
    }
  }

  /** LongestRunUpTo(end - 1) is the length of a run that ends by `end`, and no run ending by `end` is longer. */
  lemma {:induction false} LongestRunUpToIsLongest<T>(s: seq<T>, adj: (T, T) -> bool, end: int)
    requires 0 < end <= |s|
    ensures exists lo, hi :: IsRun(s, adj, lo, hi) && hi <= end && hi - lo == LongestRunUpTo(s, adj, end - 1)
    ensures forall lo, hi :: IsRun(s, adj, lo, hi) && hi <= end ==> hi - lo <= LongestRunUpTo(s, adj, end - 1)
  {
    RunEndingAtIsLongestEndingThere(s, adj, end);
    if end == 1 {
      assert IsRun(s, adj, 0, 1);
    } else {
      LongestRunUpToIsLongest(s, adj, end - 1);
    }
  }

  /**
    LongestRun is the length of the longest stretch of s in which every
    element is adjacent to the one before it: such a stretch of that length
    exists, and none is longer.
  */
  lemma LongestRunIsLongestStreak<T>(s: seq<T>, adj: (T, T) -> bool)
    ensures s != [] ==> exists lo, hi :: IsRun(s, adj, lo, hi) && hi - lo == LongestRun(s, adj)
    ensures forall lo, hi :: IsRun(s, adj, lo, hi) ==> hi - lo <= LongestRun(s, adj)
  {
    if s != [] {
      LongestRunUpToIsLongest(s, adj, |s|);
    }
  }

  /** An adjacency that holds wherever another one holds gives streaks at least as long. */
  lemma LongestRunMonotone<T>(s: seq<T>, adj1: (T, T) -> bool, adj2: (T, T) -> bool)
    requires forall k :: 0 < k < |s| && AdjacentAt(s, adj1, k) ==> AdjacentAt(s, adj2, k)
    ensures LongestRun(s, adj1) <= LongestRun(s, adj2)
  {
    LongestRunIsLongestStreak(s, adj1);
    LongestRunIsLongestStreak(s, adj2);
    if s != [] {
      var lo, hi :| IsRun(s, adj1, lo, hi) && hi - lo == LongestRun(s, adj1);
      assert IsRun(s, adj2, lo, hi);
    }
  }

  /**
    The scan of get_longest_streak over a non-empty sorted list: an element
    adjacent to the previous one extends the current streak and updates the
    longest; any other resets the current streak to 1.
  */
  method ScanLongestRun<T>(s: seq<T>, adj: (T, T) -> bool) returns (longest: int)
    requires s != []
    ensures longest == LongestRun(s, adj)
  {
    var current := 1;
    longest := 1;
    for i := 1 to |s|
      invariant current == RunEndingAt(s, adj, i - 1)
      invariant longest == LongestRunUpTo(s, adj, i - 1)
    {
      if adj(s[i - 1], s[i]) {
        current := current + 1;
        longest := Max(longest, current);
      } else {
        current := 1;
      }
    }
  }

  // ---------------------------------------------------------------------------
  // get_longest_streak on dates

  /** Dates are sorted by their ordinals, which order them as Python compares dates. */
  function Ordinal(d: CalendarDate): int {
    DayNumber(d)
  }

  /** The completions of a habit sorted from the earliest. */
  function SortDates(dates: seq<CalendarDate>): seq<CalendarDate> {
    Sort(dates, Ordinal)
  }

  /** The adjacency test of a rule, as a function of two dates. */
  function AdjacencyTest(adj: Adjacency): (CalendarDate, CalendarDate) -> bool {
    (a: CalendarDate, b: CalendarDate) => Adjacent(adj, a, b)
  }

  /**
    get_longest_streak on the stored completions: 0 for none; otherwise the
    longest streak of the sorted completions under the periodicity's
    adjacency, or a failure for a periodicity without a branch.
  */
  function Streak(periodicity: string, rule: WeeklyRule, dates: seq<CalendarDate>): Result<int> {
    if dates == [] then Ok(0)
    else match KindOf(periodicity)
      case None => Err(UnsupportedPeriodicity)
      case Some(k) => Ok(LongestRun(SortDates(dates), AdjacencyTest(AdjacencyFor(k, rule))))
  }

  /** Sorting by ordinal orders dates the way Python compares them, and distinct dates have distinct ordinals. */
  lemma SortDatesInDateOrder(dates: seq<CalendarDate>)
    ensures forall i, j :: 0 <= i < j < |SortDates(dates)| ==> !Before(SortDates(dates)[j], SortDates(dates)[i])
    ensures multiset(SortDates(dates)) == multiset(dates)
  {
    var s := SortDates(dates);
    forall i, j | 0 <= i < j < |s| ensures !Before(s[j], s[i]) {
      DayNumberOrder(s[j], s[i]);
    }
  }

  /**
    The streak is 0 exactly when there are no completions, otherwise between
    1 and their number; it fails exactly when there are completions and the
    periodicity has no branch.
  */
  lemma StreakBounds(periodicity: string, rule: WeeklyRule, dates: seq<CalendarDate>)
    ensures Streak(periodicity, rule, dates).Err? <==> dates != [] && KindOf(periodicity).None?
    ensures Streak(periodicity, rule, dates) == Ok(0) <==> dates == []
    ensures Streak(periodicity, rule, dates).Ok? && dates != [] ==> 1 <= Streak(periodicity, rule, dates).value <= |dates|
  {
    assert |SortDates(dates)| == |dates| by {
      assert |multiset(SortDates(dates))| == |multiset(dates)|;
    }
  }

  /** The streak depends on which dates were completed, not on the order they were recorded in. */
  lemma StreakIgnoresOrder(periodicity: string, rule: WeeklyRule, dates: seq<CalendarDate>, others: seq<CalendarDate>)
    ensures multiset(dates) == multiset(others) ==> Streak(periodicity, rule, dates) == Streak(periodicity, rule, others)
  {
    if multiset(dates) == multiset(others) {
      forall x: CalendarDate, y: CalendarDate | Ordinal(x) == Ordinal(y) ensures x == y {
        DayNumberOrder(x, y);
      }
      SortedUnique(SortDates(dates), SortDates(others), Ordinal);
      if dates == [] {
        assert |multiset(others)| == 0;
      }
    }
  }

  /**
    Completions in increasing date order, each extending the one before it,
    form one streak of all of them.
  */
  lemma ChainIsOneStreak(periodicity: string, rule: WeeklyRule, dates: seq<CalendarDate>)
    requires KindOf(periodicity).Some?
    requires forall i, j :: 0 <= i < j < |dates| ==> Before(dates[i], dates[j])
    requires forall k :: 0 < k < |dates| ==> Adjacent(AdjacencyFor(KindOf(periodicity).value, rule), dates[k - 1], dates[k])
    ensures Streak(periodicity, rule, dates) == Ok(|dates|)
  {
    if dates != [] {
      SortingKeepsIncreasingDates(dates);
      var adj := AdjacencyTest(AdjacencyFor(KindOf(periodicity).value, rule));
      assert IsRun(dates, adj, 0, |dates|);
      WholeRunIsLongest(dates, adj);
      assert Streak(periodicity, rule, dates) == Ok(LongestRun(dates, adj));
    }
  }

  /** Dates already in increasing order are their own sorted arrangement. */
  lemma SortingKeepsIncreasingDates(dates: seq<CalendarDate>)
    requires forall i, j :: 0 <= i < j < |dates| ==> Before(dates[i], dates[j])
    ensures SortDates(dates) == dates
  {
    forall i, j | 0 <= i < j < |dates| ensures Ordinal(dates[i]) <= Ordinal(dates[j]) {
      DayNumberOrder(dates[i], dates[j]);
    }
    forall x: CalendarDate, y: CalendarDate | Ordinal(x) == Ordinal(y) ensures x == y {
      DayNumberOrder(x, y);
    }
    SortedUnique(SortDates(dates), dates, Ordinal);
  }

  /** A sequence that is one run has its whole length as longest run. */
  lemma WholeRunIsLongest<T>(s: seq<T>, adj: (T, T) -> bool)
    requires IsRun(s, adj, 0, |s|)
    ensures LongestRun(s, adj) == |s|
  {
    LongestRunIsLongestStreak(s, adj);
    var lo, hi :| IsRun(s, adj, lo, hi) && hi - lo == LongestRun(s, adj);
  }

  /** Two completions in increasing order that the rule joins make one streak of two. */
  lemma JoinedPairStreak(periodicity: string, rule: WeeklyRule, a: CalendarDate, b: CalendarDate)
    requires KindOf(periodicity).Some? && Before(a, b)
    requires Adjacent(AdjacencyFor(KindOf(periodicity).value, rule), a, b)
    ensures Streak(periodicity, rule, [a, b]) == Ok(2)
  {
    ChainIsOneStreak(periodicity, rule, [a, b]);
  }

  /** Two completions in increasing order that the rule does not join make two streaks of one. */
  lemma SplitPairStreak(periodicity: string, rule: WeeklyRule, a: CalendarDate, b: CalendarDate)
    requires KindOf(periodicity).Some? && Before(a, b)
    requires !Adjacent(AdjacencyFor(KindOf(periodicity).value, rule), a, b)
    ensures Streak(periodicity, rule, [a, b]) == Ok(1)
  {
    SortingKeepsIncreasingDates([a, b]);
    var adj := AdjacencyTest(AdjacencyFor(KindOf(periodicity).value, rule));
    SplitPairRun(a, b, adj);
    assert Streak(periodicity, rule, [a, b]) == Ok(LongestRun([a, b], adj));
  }

  /** A pair whose second element does not extend the first has longest run one. */
  lemma SplitPairRun<T>(a: T, b: T, adj: (T, T) -> bool)
    requires !adj(a, b)
    ensures LongestRun([a, b], adj) == 1
  {
    assert !AdjacentAt([a, b], adj, 1);
    LongestRunIsLongestStreak([a, b], adj);
  }
}
