/**
 * Totals, averages and day/week/month buckets over a snapshot of sessions.
 * "Today", the week's bounds and the month's bounds are parameters standing
 * in for `Date()` and `Calendar.current`; bucketing by day uses the half-open
 * interval [start of day, start of next day).
 */
module ProgressCalculator {
  import opened DataModels
  import opened Calendar
  import opened Seqs

  /** Sum of the sessions' whole minutes, each truncated on its own. */
  function SumMinutes(ss: seq<Session>): nat {
    if |ss| == 0 then 0 else DurationInMinutes(ss[0]) + SumMinutes(ss[1..])
  }

  /** Sum of the sessions' seconds. */
  function SumSeconds(ss: seq<Session>): nat {
    if |ss| == 0 then 0 else ss[0].duration + SumSeconds(ss[1..])
  }

  lemma {:induction false} SumMinutesAppend(a: seq<Session>, b: seq<Session>)
    ensures SumMinutes(a + b) == SumMinutes(a) + SumMinutes(b)
  {
    if |a| == 0 {
      assert a + b == b;
    } else {
      assert (a + b)[1..] == a[1..] + b;
      SumMinutesAppend(a[1..], b);
    }
  }

  // ------------------------------------------------------------- totals

  function TotalSessions(ss: seq<Session>): nat {
    |ss|
  }

  function TotalMinutes(ss: seq<Session>): nat {
    SumMinutes(ss)
  }

  /**
   * Truncating each session separately loses less than a minute per session:
   * the total minutes lie within `|ss|` of the summed seconds' minutes.
   */
  lemma {:induction false} TotalMinutesBounds(ss: seq<Session>)
    ensures TotalMinutes(ss) * 60 <= SumSeconds(ss)
    ensures SumSeconds(ss) < (TotalMinutes(ss) + |ss|) * 60 || |ss| == 0
  {
    if |ss| > 0 {
      TotalMinutesBounds(ss[1..]);
    }
  }

  /** Two 90-second sessions count 2 minutes, though together they last 3. */
  lemma TruncationIsPerSession(a: Session, b: Session)
    requires a.duration == 90 && b.duration == 90
    ensures TotalMinutes([a, b]) == 2 && SumSeconds([a, b]) / 60 == 3
  {
    assert [a, b][1..] == [b];
    assert [b][1..] == [];
    assert SumMinutes([b]) == 1 && SumSeconds([b]) == 90;
    assert SumMinutes([a, b]) == 2 && SumSeconds([a, b]) == 180;
  }

  /** `averageSessionDuration`: total minutes divided by sessions, 0 when there are none. */
  function AverageSessionDuration(ss: seq<Session>): (r: nat)
    ensures |ss| == 0 ==> r == 0
    ensures |ss| > 0 ==> r * |ss| <= TotalMinutes(ss) < (r + 1) * |ss|
  {
    if |ss| == 0 then 0 else TotalMinutes(ss) / TotalSessions(ss)
  }

  // ---------------------------------------------------------------- days

  /** Sessions dated on day `day`, in order. */
  function SessionsOnDay(ss: seq<Session>, day: int): seq<Session> {
    Filter(ss, (s: Session) => DayOf(s.date) == day)
  }

  /** Minutes of the sessions dated in [lo, hi). */
  function MinutesBetween(ss: seq<Session>, lo: int, hi: int): (r: nat)
    ensures r <= SumMinutes(ss)
  {
    if |ss| == 0 then 0
    else (if lo <= ss[0].date < hi then DurationInMinutes(ss[0]) else 0) + MinutesBetween(ss[1..], lo, hi)
  }

  /** Minutes of the sessions dated on day `day`. */
  function MinutesOnDay(ss: seq<Session>, day: int): (r: nat)
    ensures r <= SumMinutes(ss)
  {
    if |ss| == 0 then 0
    else (if DayOf(ss[0].date) == day then DurationInMinutes(ss[0]) else 0) + MinutesOnDay(ss[1..], day)
  }

  /** The minutes of a day are those of the sessions `SessionsOnDay` selects. */
  lemma {:induction false} MinutesOnDayIsSessionsOnDay(ss: seq<Session>, day: int)
    ensures MinutesOnDay(ss, day) == SumMinutes(SessionsOnDay(ss, day))
  {
    if |ss| > 0 {
      MinutesOnDayIsSessionsOnDay(ss[1..], day);
      var head := if DayOf(ss[0].date) == day then [ss[0]] else [];
      assert SessionsOnDay(ss, day) == head + SessionsOnDay(ss[1..], day);
      SumMinutesAppend(head, SessionsOnDay(ss[1..], day));
    }
  }

  /** The half-open interval of a day holds exactly that day's minutes. */
  lemma {:induction false} DayIntervalMinutes(ss: seq<Session>, day: int)
    ensures MinutesBetween(ss, day * SecondsPerDay, day * SecondsPerDay + SecondsPerDay) == MinutesOnDay(ss, day)
  {
    if |ss| > 0 {
      DayIntervalMinutes(ss[1..], day);
      DayOfInterval(ss[0].date, day);
    }
  }

  /** Adjacent intervals split the minutes between them. */
  lemma {:induction false} MinutesBetweenSplit(ss: seq<Session>, a: int, b: int, c: int)
    requires a <= b <= c
    ensures MinutesBetween(ss, a, c) == MinutesBetween(ss, a, b) + MinutesBetween(ss, b, c)
  {
    if |ss| > 0 {
      MinutesBetweenSplit(ss[1..], a, b, c);
    }
  }

  /** An empty interval holds no minutes. */
  lemma {:induction false} EmptyInterval(ss: seq<Session>, t: int)
    ensures MinutesBetween(ss, t, t) == 0
  {
    if |ss| > 0 {
      EmptyInterval(ss[1..], t);
    }
  }

  /** Sum of a sequence, from the right. */
  function Sum(xs: seq<int>): int {
    if |xs| == 0 then 0 else Sum(xs[..|xs| - 1]) + xs[|xs| - 1]
  }

  /** Minutes of each of the `n` days starting at day `first`. */
  function DayTotals(ss: seq<Session>, first: int, n: nat): (r: seq<int>)
    ensures |r| == n
    ensures forall i :: 0 <= i < n ==> r[i] == MinutesOnDay(ss, first + i)
  {
    if n == 0 then [] else DayTotals(ss, first, n - 1) + [MinutesOnDay(ss, first + n - 1)]
  }

  /** The minutes of a run of whole days are the sum of the days' minutes. */
  lemma {:induction false} MinutesOverDays(ss: seq<Session>, first: int, n: nat)
    ensures MinutesBetween(ss, first * SecondsPerDay, (first + n) * SecondsPerDay) == Sum(DayTotals(ss, first, n))
  {
    if n == 0 {
      EmptyInterval(ss, first * SecondsPerDay);
    } else {
      var lo, mid, hi := first * SecondsPerDay, (first + n - 1) * SecondsPerDay, (first + n) * SecondsPerDay;
      MinutesOverDays(ss, first, n - 1);
      DayTotalsSnoc(ss, first, n - 1);
      MinutesBetweenSplit(ss, lo, mid, hi);
      DayMinutes(ss, first + n - 1);
    }
  }

  lemma DayTotalsSnoc(ss: seq<Session>, first: int, n: nat)
    ensures Sum(DayTotals(ss, first, n + 1)) == Sum(DayTotals(ss, first, n)) + MinutesOnDay(ss, first + n)
  {
    var xs := DayTotals(ss, first, n);
    var y := MinutesOnDay(ss, first + n);
    assert DayTotals(ss, first, n + 1) == xs + [y];
    assert (xs + [y])[..n] == xs;
  }

  lemma DayMinutes(ss: seq<Session>, day: int)
    ensures MinutesBetween(ss, day * SecondsPerDay, (day + 1) * SecondsPerDay) == MinutesOnDay(ss, day)
  {
    DayIntervalMinutes(ss, day);
  }

  /** Minutes of [start of the day holding `date`, start of the next day). */
  function DayBucket(ss: seq<Session>, date: int): nat {
    var dayStart := StartOfDay(date);
    MinutesBetween(ss, dayStart, dayStart + SecondsPerDay)
  }

  /** The `k`-th day bucket after `start` holds the minutes of day `DayOf(start) + k`. */
  lemma DayBucketOnDay(ss: seq<Session>, start: int, k: int)
    ensures DayBucket(ss, start + k * SecondsPerDay) == MinutesOnDay(ss, DayOf(start) + k)
    ensures DayOf(start + k * SecondsPerDay) == DayOf(start) + k
  {
    DayOfShift(start, k);
    DayIntervalMinutes(ss, DayOf(start) + k);
  }

  // --------------------------------------------------------------- today

  function TodaysMinutes(ss: seq<Session>, today: int): (r: nat)
    ensures r <= TotalMinutes(ss)
  {
    MinutesOnDay(ss, today)
  }

  function TodaysSessionCount(ss: seq<Session>, today: int): (r: nat)
    ensures r <= TotalSessions(ss)
  {
    |SessionsOnDay(ss, today)|
  }

  // ---------------------------------------------------------------- week

  datatype WeeklyProgress = WeeklyProgress(completed: nat, goal: int, percentage: real)

  /**
   * `weeklyProgress`: minutes in [weekStart, weekEnd) against the goal; the
   * percentage is capped at 1 and is 0 for a non-positive goal.
   */
  function WeeklyProgressOf(ss: seq<Session>, weekStart: int, weekEnd: int, goal: int): (r: WeeklyProgress)
    ensures r.goal == goal
    ensures 0.0 <= r.percentage <= 1.0
    ensures goal <= 0 ==> r.percentage == 0.0
    ensures goal > 0 ==> (r.percentage == 1.0 <==> r.completed >= goal)
    ensures goal > 0 && r.completed < goal ==> r.percentage * goal as real == r.completed as real
  {
    var completed := MinutesBetween(ss, weekStart, weekEnd);
    var percentage := CappedRatio(completed, goal);
    WeeklyProgress(completed, goal, percentage)
  }

  datatype WeekDay = WeekDay(date: int, minutes: nat, isToday: bool)

  /**
   * `weeklyData`: the seven days from the week's start, each with the
   * minutes of [start of day, start of next day). The weekday label is
   * formatter output and is represented by the day's timestamp.
   */
  function WeeklyData(ss: seq<Session>, weekStart: int, today: int): (r: seq<WeekDay>)
    ensures |r| == 7
    ensures forall i :: 0 <= i < 7 ==>
      && r[i].date == weekStart + i * SecondsPerDay
      && r[i].minutes == MinutesOnDay(ss, DayOf(weekStart) + i)
      && (r[i].isToday <==> DayOf(weekStart) + i == today)
  {
    var r := seq(7, i requires 0 <= i < 7 =>
      var date := weekStart + i * SecondsPerDay;
      WeekDay(date, DayBucket(ss, date), DayOf(date) == today));
    forall i | 0 <= i < 7
      ensures r[i].minutes == MinutesOnDay(ss, DayOf(weekStart) + i)
      ensures r[i].isToday <==> DayOf(weekStart) + i == today
    {
      DayBucketOnDay(ss, weekStart, i);
    }
    r
  }

  /** On a week starting at midnight, the seven days add up to the week's progress. */
  lemma WeeklyDataSumsToWeek(ss: seq<Session>, weekStart: int, today: int, goal: int)
    requires weekStart == StartOfDay(weekStart)
    ensures Sum(seq(7, i requires 0 <= i < 7 => WeeklyData(ss, weekStart, today)[i].minutes))
      == WeeklyProgressOf(ss, weekStart, weekStart + 7 * SecondsPerDay, goal).completed
  {
    var first := DayOf(weekStart);
    var data := WeeklyData(ss, weekStart, today);
    var minutes := seq(7, i requires 0 <= i < 7 => data[i].minutes);
    assert minutes == DayTotals(ss, first, 7);
    MinutesOverDays(ss, first, 7);
  }

  /** When today is in the week, its bar is marked today and shows today's minutes. */
  lemma WeeklyDataToday(ss: seq<Session>, weekStart: int, today: int)
    requires DayOf(weekStart) <= today < DayOf(weekStart) + 7
    ensures WeeklyData(ss, weekStart, today)[today - DayOf(weekStart)].isToday
    ensures WeeklyData(ss, weekStart, today)[today - DayOf(weekStart)].minutes == TodaysMinutes(ss, today)
  {
  }

  // --------------------------------------------------------------- month

  datatype MonthDay = MonthDay(date: int, minutes: nat, hasSession: bool)

  /**
   * `monthlyData`: one entry per day of the month from its first day, with
   * that day's minutes and whether there were any.
   */
  function MonthlyData(ss: seq<Session>, monthStart: int, daysInMonth: nat): (r: seq<MonthDay>)
    ensures |r| == daysInMonth
    ensures forall i :: 0 <= i < daysInMonth ==>
      && r[i].date == monthStart + i * SecondsPerDay
      && r[i].minutes == MinutesOnDay(ss, DayOf(monthStart) + i)
      && (r[i].hasSession <==> r[i].minutes > 0)
  {
    var r := seq(daysInMonth, i requires 0 <= i < daysInMonth =>
      var date := monthStart + i * SecondsPerDay;
      var minutes := DayBucket(ss, date);
      MonthDay(date, minutes, minutes > 0));
    forall i | 0 <= i < daysInMonth
      ensures r[i].minutes == MinutesOnDay(ss, DayOf(monthStart) + i)
    {
      DayBucketOnDay(ss, monthStart, i);
    }
    r
  }

  /** `monthlyMinutes`: minutes in [monthStart, monthEnd). */
  function MonthlyMinutes(ss: seq<Session>, monthStart: int, monthEnd: int): nat {
    MinutesBetween(ss, monthStart, monthEnd)
  }

  /** On a month starting at midnight, the per-day entries add up to the month's minutes. */
  lemma MonthlyDataSumsToMonth(ss: seq<Session>, monthStart: int, daysInMonth: nat)
    requires monthStart == StartOfDay(monthStart)
    ensures Sum(seq(daysInMonth, i requires 0 <= i < daysInMonth => MonthlyData(ss, monthStart, daysInMonth)[i].minutes))
      == MonthlyMinutes(ss, monthStart, monthStart + daysInMonth * SecondsPerDay)
  {
    var first := DayOf(monthStart);
    var data := MonthlyData(ss, monthStart, daysInMonth);
    var minutes := seq(daysInMonth, i requires 0 <= i < daysInMonth => data[i].minutes);
    var totals := DayTotals(ss, first, daysInMonth);
    assert minutes == totals;
    MinutesOverDays(ss, first, daysInMonth);
  }
}
