/**
 * The arithmetic of the home screen: the greeting by hour, today's average
 * session, the minutes left for the weekly goal and its percentage, the
 * recent sessions, and the "time ago" label of a recent session. The hour,
 * now and the short date a date formatter would print are parameters.
 */
module HomeView {
  import opened Wrappers
  import opened Text
  import opened DataModels
  import opened Calendar
  import opened Seqs
  import opened Numbers
  import PC = ProgressCalculator
  import Repo = SessionRepository
  import Coordinator = MindfulDataCoordinator

  // ------------------------------------------------------------ greeting

  /** `greetingText`: morning from 5, afternoon from 12, evening from 17, night from 22 until 5. */
  function Greeting(hour: int): (r: string)
    ensures r == "Good morning" <==> 5 <= hour < 12
    ensures r == "Good afternoon" <==> 12 <= hour < 17
    ensures r == "Good evening" <==> 17 <= hour < 22
    ensures r == "Good night" <==> hour < 5 || hour >= 22
  {
    if 5 <= hour < 12 then "Good morning"
    else if 12 <= hour < 17 then "Good afternoon"
    else if 17 <= hour < 22 then "Good evening"
    else "Good night"
  }

  /** The greeting of each hour of the day, written out hour by hour. */
  const GreetingByHour: seq<string> := [
    "Good night", "Good night", "Good night", "Good night", "Good night",
    "Good morning", "Good morning", "Good morning", "Good morning", "Good morning", "Good morning", "Good morning",
    "Good afternoon", "Good afternoon", "Good afternoon", "Good afternoon", "Good afternoon",
    "Good evening", "Good evening", "Good evening", "Good evening", "Good evening",
    "Good night", "Good night"]

  /** Over the 24 hours of a clock the greeting follows the table. */
  lemma GreetingMatchesTable(hour: int)
    requires 0 <= hour < 24
    ensures |GreetingByHour| == 24 && Greeting(hour) == GreetingByHour[hour]
  {
  }

  // ----------------------------------------------------------- today card

  /** The average line of the today card: shown only with minutes, minutes over the count (at least 1). */
  function TodaysAverage(minutes: int, count: int): (r: Option<int>)
    ensures r.None? <==> minutes <= 0
    ensures r.Some? ==> 0 <= r.value * Max(count, 1) <= minutes < (r.value + 1) * Max(count, 1)
  {
    if minutes > 0 then Some(minutes / Max(count, 1)) else None
  }

  /** A day with minutes has a session, so the shown average divides by the true count. */
  lemma TodaysAverageDividesBySessions(ss: seq<Session>, today: int)
    requires PC.TodaysMinutes(ss, today) > 0
    ensures PC.TodaysSessionCount(ss, today) >= 1
    ensures TodaysAverage(PC.TodaysMinutes(ss, today), PC.TodaysSessionCount(ss, today))
      == Some(PC.TodaysMinutes(ss, today) / PC.TodaysSessionCount(ss, today))
  {
    PC.MinutesOnDayIsSessionsOnDay(ss, today);
  }

  // ----------------------------------------------------------- weekly card

  /** The "min remaining" line: the goal less the week's minutes, never below 0. */
  function RemainingMinutes(wp: PC.WeeklyProgress): (r: int)
    ensures r >= 0
    ensures r == 0 <==> wp.completed >= wp.goal
    ensures r > 0 ==> wp.completed + r == wp.goal
  {
    Max(0, wp.goal - wp.completed)
  }

  /** The "% complete" line: the percentage times 100, truncated. */
  function PercentComplete(wp: PC.WeeklyProgress): (r: int)
    ensures 0.0 <= wp.percentage ==> r as real <= wp.percentage * 100.0 < r as real + 1.0
    ensures 0.0 <= wp.percentage <= 1.0 ==> 0 <= r <= 100 && (r == 100 <==> wp.percentage == 1.0)
  {
    TruncReal(wp.percentage * 100.0)
  }

  /**
   * On the coordinator's weekly progress with a positive goal, nothing is
   * left to do exactly when the card shows 100 percent.
   */
  lemma RemainingZeroIffFullPercent(st: Coordinator.State, clock: Clock)
    requires Coordinator.WeeklyProgress(st, clock).goal > 0
    ensures var wp := Coordinator.WeeklyProgress(st, clock);
      RemainingMinutes(wp) == 0 <==> PercentComplete(wp) == 100
  {
  }

  // -------------------------------------------------------- recent sessions

  /** `allSessions.prefix(3)`. */
  function RecentSessions(ss: seq<Session>): (r: seq<Session>)
    ensures |r| <= 3 && (|r| == 3 || r == ss)
    ensures |r| <= |ss| && r == ss[..|r|]
  {
    Prefix(ss, 3)
  }

  /** On the newest-first list the recent sessions are no older than any session left out. */
  lemma RecentAreNewest(ss: seq<Session>)
    requires Repo.NewestFirst(ss)
    ensures var r := RecentSessions(ss);
      forall i, j :: 0 <= i < |r| <= j < |ss| ==> r[i].date >= ss[j].date
  {
  }

  // ---------------------------------------------------------- time ago

  /** What `formatTimeAgo` says about a date, before it is rendered. */
  datatype TimeAgo = HoursAgo(hours: nat) | MinutesAgo(minutes: nat) | JustNow | Yesterday | OnDate

  /**
   * Today's dates in whole hours, else whole minutes, else "just now";
   * yesterday's as "Yesterday"; older ones by their date. The hour and
   * minute counts are truncated toward zero, so a date later today counts
   * as "just now".
   */
  function TimeAgoOf(date: int, now: int): (r: TimeAgo)
    ensures r.HoursAgo? ==>
      && DayOf(date) == DayOf(now) && r.hours >= 1
      && r.hours * SecondsPerHour <= now - date < (r.hours + 1) * SecondsPerHour
    ensures r.MinutesAgo? ==>
      && DayOf(date) == DayOf(now) && r.minutes >= 1
      && r.minutes * SecondsPerMinute <= now - date < (r.minutes + 1) * SecondsPerMinute
      && now - date < SecondsPerHour
    ensures r.JustNow? <==> DayOf(date) == DayOf(now) && now - date < SecondsPerMinute
    ensures r.Yesterday? <==> DayOf(date) == DayOf(now) - 1
    ensures r.OnDate? <==> DayOf(date) != DayOf(now) && DayOf(date) != DayOf(now) - 1
  {
    if DayOf(date) == DayOf(now) then
      var hours := TruncDiv(now - date, SecondsPerHour);
      var minutes := TruncDiv(now - date, SecondsPerMinute);
      if hours > 0 then HoursAgo(hours)
      else if minutes > 0 then MinutesAgo(minutes)
      else JustNow
    else if DayOf(date) == DayOf(now) - 1 then Yesterday
    else OnDate
  }

  /** The label: "N hour(s) ago", "N minute(s) ago", "Just now", "Yesterday", or the short date. */
  function TimeAgoText(a: TimeAgo, shortDate: string): string {
    match a
    case HoursAgo(h) => CountNoun(h, "hour") + " ago"
    case MinutesAgo(m) => CountNoun(m, "minute") + " ago"
    case JustNow => "Just now"
    case Yesterday => "Yesterday"
    case OnDate => shortDate
  }

  /** `formatTimeAgo`. */
  function FormatTimeAgo(date: int, now: int, shortDate: string): string {
    TimeAgoText(TimeAgoOf(date, now), shortDate)
  }

  /** The number a label starts with, if it starts with digits and a space. */
  function LeadingCount(text: string): Option<nat> {
    match SplitFirst(text, ' ')
    case Some((head, _)) => if |head| > 0 && AllDigits(head) then Some(StringToNat(head)) else None
    case None => None
  }

  /** An "ago" label gives back its count, and the fixed labels carry none. */
  lemma TimeAgoTextCount(a: TimeAgo, shortDate: string)
    requires !a.OnDate?
    ensures a.HoursAgo? ==> LeadingCount(TimeAgoText(a, shortDate)) == Some(a.hours)
    ensures a.MinutesAgo? ==> LeadingCount(TimeAgoText(a, shortDate)) == Some(a.minutes)
    ensures a.JustNow? || a.Yesterday? ==> LeadingCount(TimeAgoText(a, shortDate)) == None
  {
    match a
    case HoursAgo(h) => AgoLabelCount(h, "hour");
    case MinutesAgo(m) => AgoLabelCount(m, "minute");
    case JustNow => FixedLabelsHaveNoCount();
    case Yesterday => FixedLabelsHaveNoCount();
  }

  /** "Just now" starts with a word and "Yesterday" has no space. */
  lemma FixedLabelsHaveNoCount()
    ensures LeadingCount("Just now") == None
    ensures LeadingCount("Yesterday") == None
  {
    WordThenWord("Just", "now");
    assert "Just" + [' '] + "now" == "Just now";
    NoSpaceNoCount("Yesterday");
  }

  /** Text that starts with a letter, then a space, carries no count. */
  lemma WordThenWord(head: string, rest: string)
    requires |head| > 0 && ' ' !in head && !IsDigit(head[0])
    ensures LeadingCount(head + [' '] + rest) == None
  {
    SplitFirstOf(head, ' ', rest);
  }

  /** Text without a space carries no count. */
  lemma NoSpaceNoCount(text: string)
    requires ' ' !in text
    ensures LeadingCount(text) == None
  {
  }

  /** "N unit(s) ago" starts with the count N. */
  lemma AgoLabelCount(n: nat, unit: string)
    ensures LeadingCount(CountNoun(n, unit) + " ago") == Some(n)
  {
    var rest := unit + (if n == 1 then "" else "s") + " ago";
    assert CountNoun(n, unit) + " ago" == NatToString(n) + [' '] + rest;
    NumberThenWord(n, rest);
  }

  /** A numeral followed by a space and more text splits back into the numeral. */
  lemma NumberThenWord(n: nat, rest: string)
    ensures LeadingCount(NatToString(n) + [' '] + rest) == Some(n)
  {
    var s := NatToString(n);
    forall i | 0 <= i < |s| ensures s[i] != ' ' {
      assert IsDigit(s[i]);
    }
    SplitFirstOf(s, ' ', rest);
    NatToStringRoundTrip(n);
  }

  /** Singular and plural labels. */
  lemma TimeAgoLabels()
    ensures TimeAgoText(HoursAgo(1), "") == "1 hour ago"
    ensures TimeAgoText(MinutesAgo(5), "") == "5 minutes ago"
  {
  }
}
