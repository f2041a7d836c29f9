/** Listening streaks: the loops over sorted active days, against the blocks
    of consecutive days in the set of them. */
module Streaks {
  import opened Common
  import Calendar
  import DateText

  const ACTIVE_DAY_MIN_SECONDS: real := 30.0

  /** A day's key in the activity log and the seconds listened. */
  datatype DayTotal = DayTotal(date: string, seconds: real)

  ghost predicate ActiveOn(activity: seq<DayTotal>, day: int) {
    exists e :: e in activity && e.seconds > ACTIVE_DAY_MIN_SECONDS && DateText.ParseDays(e.date) == Some(day)
  }

  ghost predicate Rising(days: seq<int>) {
    forall i, j | 0 <= i < j < |days| :: days[i] < days[j]
  }

  /** All of the `n` days from `first` on are in the list. */
  ghost predicate IsBlock(days: seq<int>, first: int, n: nat) {
    forall d | first <= d < first + n :: d in days
  }

  /** The block of consecutive days ending on `last` has exactly `n` days. */
  ghost predicate BlockEndsOn(days: seq<int>, last: int, n: nat) {
    IsBlock(days, last - n + 1, n) && last - n !in days
  }

  ghost predicate LargestBlock(days: seq<int>, n: nat) {
    && (exists first :: IsBlock(days, first, n))
    && (forall first, m: nat | IsBlock(days, first, m) :: m <= n)
  }

  /** The count of days up to and including `days[i]` with no day missing between them. */
  ghost function RunEnding(days: seq<int>, i: nat): (n: nat)
    requires i < |days|
    ensures n >= 1
  {
    if i > 0 && days[i] - days[i - 1] == 1 then RunEnding(days, i - 1) + 1 else 1
  }

  lemma {:induction false} RunIsBlock(days: seq<int>, i: nat)
    requires Rising(days) && i < |days|
    ensures BlockEndsOn(days, days[i], RunEnding(days, i))
  {
    if days[i] - 1 in days {
      var j :| 0 <= j < |days| && days[j] == days[i] - 1;
      assert j < i && days[i - 1] < days[i];
    }
    if i > 0 && days[i] - days[i - 1] == 1 {
      RunIsBlock(days, i - 1);
    }
  }

  /** Every block is no larger than the run ending where it ends. */
  lemma BlockWithinRun(days: seq<int>, first: int, n: nat) returns (i: nat)
    requires Rising(days) && IsBlock(days, first, n) && n > 0
    ensures i < |days| && n <= RunEnding(days, i)
  {
    var last := first + n - 1;
    assert last in days;
    i :| 0 <= i < |days| && days[i] == last;
    RunIsBlock(days, i);
    var gap := last - RunEnding(days, i);
    assert gap < first by { assert gap !in days; }
  }

  function InsertDay(sorted: seq<int>, day: int): (r: seq<int>)
    requires Rising(sorted)
    ensures Rising(r) && forall d :: d in r <==> d in sorted || d == day
  {
    if sorted == [] then [day]
    else
      var last := sorted[|sorted| - 1];
      if last == day then sorted
      else if last < day then sorted + [day]
      else
        var front := InsertDay(sorted[..|sorted| - 1], day);
        assert sorted == sorted[..|sorted| - 1] + [last];
        assert forall k | 0 <= k < |front| :: front[k] in front;
        front + [last]
  }

  /** `sort_unstable` and `dedup`. */
  method SortAndDedup(days: seq<int>) returns (sorted: seq<int>)
    ensures Rising(sorted) && forall d :: d in sorted <==> d in days
  {
    sorted := [];
    for k := 0 to |days|
      invariant Rising(sorted) && forall d :: d in sorted <==> d in days[..k]
    {
      sorted := InsertDay(sorted, days[k]);
      assert days[..k + 1] == days[..k] + [days[k]];
    }
    assert days[..|days|] == days;
  }

  method CollectActiveDays(activity: seq<DayTotal>) returns (days: seq<int>)
    ensures forall d :: d in days <==> ActiveOn(activity, d)
  {
    days := [];
    for k := 0 to |activity|
      invariant forall d :: d in days <==> ActiveOn(activity[..k], d)
    {
      var e := activity[k];
      assert activity[..k + 1] == activity[..k] + [e];
      assert forall d :: ActiveOn(activity[..k + 1], d) <==>
                 (ActiveOn(activity[..k], d) || (e.seconds > ACTIVE_DAY_MIN_SECONDS && DateText.ParseDays(e.date) == Some(d)));
      if e.seconds > ACTIVE_DAY_MIN_SECONDS {
        var day := DateText.ParseDays(e.date);
        if day.Some? {
          days := days + [day.value];
        }
      }
    }
    assert activity[..|activity|] == activity;
  }

  method LongestRun(days: seq<int>) returns (longest: nat)
    requires days != []
    ensures exists i: nat :: i < |days| && longest == RunEnding(days, i)
    ensures forall i: nat | i < |days| :: RunEnding(days, i) <= longest
  {
    longest := 1;
    var run := 1;
    assert RunEnding(days, 0) == 1;
    for i := 1 to |days|
      invariant run == RunEnding(days, i - 1)
      invariant exists k: nat :: k < i && longest == RunEnding(days, k)
      invariant forall k: nat | k < i :: RunEnding(days, k) <= longest
    {
      if days[i] - days[i - 1] == 1 {
        run := run + 1;
        assert run == RunEnding(days, i);
        if run > longest {
          longest := run;
        }
      } else {
        run := 1;
      }
    }
  }

  method RunToTheEnd(days: seq<int>) returns (run: nat)
    requires days != []
    ensures run == RunEnding(days, |days| - 1)
  {
    run := 1;
    var i := |days| - 1;
    while i > 0
      invariant 0 <= i < |days|
      invariant run + RunEnding(days, i) == 1 + RunEnding(days, |days| - 1)
    {
      if days[i] - days[i - 1] != 1 {
        return;
      }
      run := run + 1;
      i := i - 1;
    }
  }

  ghost predicate IsLast(days: seq<int>, last: int) {
    last in days && forall d | d in days :: d <= last
  }

  ghost predicate CurrentIs(days: seq<int>, last: int, today: int, current: nat) {
    if today - last <= 1 then BlockEndsOn(days, last, current) && current >= 1 else current == 0
  }

  /** What the two numbers mean for the set of active days, whatever `today` is. */
  ghost predicate StreaksAre(days: seq<int>, today: int, current: nat, longest: nat) {
    && LargestBlock(days, longest)
    && (days == [] ==> current == 0)
    && (days != [] ==> exists last :: IsLast(days, last) && CurrentIs(days, last, today, current))
  }

  lemma RunsAreLargestBlock(days: seq<int>, longest: nat)
    requires Rising(days) && days != []
    requires exists i: nat :: i < |days| && longest == RunEnding(days, i)
    requires forall i: nat | i < |days| :: RunEnding(days, i) <= longest
    ensures LargestBlock(days, longest)
  {
    var i: nat :| i < |days| && longest == RunEnding(days, i);
    RunIsBlock(days, i);
    assert IsBlock(days, days[i] - longest + 1, longest);
    forall first, m: nat | IsBlock(days, first, m) ensures m <= longest {
      if m > 0 {
        var j := BlockWithinRun(days, first, m);
      }
    }
  }

  /** The current streak is never longer than the longest. */
  lemma CurrentAtMostLongest(days: seq<int>, today: int, current: nat, longest: nat)
    requires StreaksAre(days, today, current, longest)
    ensures current <= longest
  {
    if days != [] {
      var last :| IsLast(days, last) && CurrentIs(days, last, today, current);
      if today - last <= 1 {
        assert IsBlock(days, last - current + 1, current);
      }
    }
  }

  lemma EmptyHasNoBlock()
    ensures LargestBlock([], 0)
  {
    assert IsBlock([], 0, 0);
    forall first, m: nat | IsBlock([], first, m) ensures m <= 0 {
      assert first !in [];
    }
  }

  method ComputeStreaks(activity: seq<DayTotal>, today: int) returns (current: nat, longest: nat, ghost days: seq<int>)
    ensures forall d :: d in days <==> ActiveOn(activity, d)
    ensures StreaksAre(days, today, current, longest) && current <= longest
  {
    var active := CollectActiveDays(activity);
    active := SortAndDedup(active);
    days := active;
    current, longest := 0, 0;
    if active == [] {
      EmptyHasNoBlock();
      return;
    }
    longest := LongestRun(active);
    RunsAreLargestBlock(active, longest);
    var last := active[|active| - 1];
    if today - last <= 1 {
      current := RunToTheEnd(active);
      RunIsBlock(active, |active| - 1);
    }
    assert IsLast(days, last) && CurrentIs(days, last, today, current);
    CurrentAtMostLongest(days, today, current, longest);
  }

  // ---------------------------------------------------------------------
  // The calendar the streaks are drawn on
  // ---------------------------------------------------------------------

  function WeekdayFromMonday(day: int): int {
    (day + 3) % 7
  }

  /** Day 0 was a Thursday, and each day moves one weekday on. */
  lemma WeekdaysFollow(day: int)
    ensures WeekdayFromMonday(0) == 3 && WeekdayFromMonday(day + 1) == (WeekdayFromMonday(day) + 1) % 7
  {
  }

  /** The activity key of a day. */
  function KeyOf(day: int): string {
    Calendar.DaysRoundTrip(day);
    DateText.FormatDate(Calendar.DaysToYmd(day))
  }

  lemma KeyIsCalendarDate(day: int)
    ensures KeyOf(day) == DateText.FormatDate(Calendar.CalendarDate(day))
  {
    Calendar.ClosedFormIsTheCalendar(day);
  }

  function CalendarStart(weeks: nat, today: int): int {
    today - WeekdayFromMonday(today) - (weeks - 1) * 7
  }

  /** The keys of `weeks` whole weeks, the last one being the week of `today`. */
  function StreakCalendar(weeks: nat, today: int): (r: seq<string>)
    ensures |r| == weeks * 7 && forall k | 0 <= k < |r| :: r[k] == KeyOf(CalendarStart(weeks, today) + k)
  {
    seq(weeks * 7, k => KeyOf(CalendarStart(weeks, today) + k))
  }

  lemma CellWeekday(weeks: nat, today: int, k: int)
    ensures WeekdayFromMonday(CalendarStart(weeks, today) + k) == k % 7
  {
    var week := (today + 3) / 7;
    assert CalendarStart(weeks, today) + k + 3 == 7 * (week - weeks + 1) + k;
    var n := 7 * (week - weeks + 1) + k;
    assert 7 * (k / 7 + (week - weeks + 1) - n / 7) == n % 7 - k % 7;
  }

  /** Rows start on a Monday, cells are consecutive calendar days, and today is in the last row. */
  lemma CalendarCoversToday(weeks: nat, today: int, k: nat)
    requires k < weeks * 7
    ensures StreakCalendar(weeks, today)[k] == DateText.FormatDate(Calendar.CalendarDate(CalendarStart(weeks, today) + k))
    ensures WeekdayFromMonday(CalendarStart(weeks, today) + k) == k % 7
    ensures CalendarStart(weeks, today) + (weeks - 1) * 7 <= today < CalendarStart(weeks, today) + weeks * 7
  {
    KeyIsCalendarDate(CalendarStart(weeks, today) + k);
    CellWeekday(weeks, today, k);
  }
}
