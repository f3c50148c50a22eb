/**
 * Streaks over the set of days that hold at least one session. "Today" is a
 * day index parameter; stepping a day back or forward is -1/+1 on the index.
 */
module StreakCalculator {
  import opened Wrappers
  import opened DataModels
  import opened Calendar
  import opened Seqs
  import opened Numbers

  /** Days on which at least one session is dated (`sessions.contains { isDate(_, inSameDayAs:) }`). */
  function DaySet(ss: seq<Session>): set<int> {
    set s | s in ss :: DayOf(s.date)
  }

  /**
   * Length of the run of consecutive session days ending at day `d`: every
   * day in (d - r, d] is in `days`, and day d - r is not.
   */
  function Run(days: set<int>, d: int): (r: nat)
    ensures forall e :: d - r < e <= d ==> e in days
    ensures d - r !in days
    decreases days
  {
    if d in days then 1 + Run(days - {d}, d - 1) else 0
  }

  /** The two properties of `Run` determine it. */
  lemma RunUnique(days: set<int>, d: int, n: nat)
    requires forall e :: d - n < e <= d ==> e in days
    requires d - n !in days
    ensures Run(days, d) == n
  {
  }

  /** A run only looks at days up to its end. */
  lemma RunAgree(a: set<int>, b: set<int>, d: int)
    requires forall e :: e <= d ==> (e in a <==> e in b)
    ensures Run(a, d) == Run(b, d)
  {
    var r := Run(a, d);
    assert d - r <= d;
    RunUnique(b, d, r);
  }

  // ------------------------------------------------------------- current

  /** Where the current streak is counted from: today, or yesterday when today has no session yet. */
  function Anchor(days: set<int>, today: int): int {
    if today in days then today else today - 1
  }

  /**
   * `currentStreak`: the run of session days ending today, or ending
   * yesterday when today has no session (the one-day grace for today).
   */
  function CurrentStreak(ss: seq<Session>, today: int): (r: nat)
    ensures forall e :: Anchor(DaySet(ss), today) - r < e <= Anchor(DaySet(ss), today) ==> e in DaySet(ss)
    ensures Anchor(DaySet(ss), today) - r !in DaySet(ss)
  {
    if |ss| == 0 then 0 else Run(DaySet(ss), Anchor(DaySet(ss), today))
  }

  /** The source's `while true` walk back from today, skipping today once if it is empty. */
  method CountCurrentStreak(ss: seq<Session>, today: int) returns (streak: nat)
    ensures streak == CurrentStreak(ss, today)
  {
    if |ss| == 0 {
      return 0;
    }
    var days := DaySet(ss);
    ghost var lo := Max(0 - EarliestDay(ss), 0 - today);
    streak := 0;
    var current := today;
    while true
      invariant current + streak == today || (today !in days && current + streak == today - 1)
      invariant forall e :: current < e <= current + streak ==> e in days
      invariant current >= 0 - lo - 1
      decreases current + lo + 1
    {
      if current in days {
        EarliestDayIsFirst(ss, current);
        streak := streak + 1;
        current := current - 1;
      } else {
        if streak == 0 && current == today {
          current := current - 1;
          continue;
        }
        break;
      }
    }
    RunUnique(days, Anchor(days, today), streak);
  }

  // ------------------------------------------------------------- longest

  /** State of the scan over the sorted session days. */
  datatype Scan = Scan(last: Option<int>, cur: nat, best: nat)

  /** One session of the `longestStreak` loop, by its day. */
  function Step(st: Scan, day: int): Scan {
    match st.last
    case None => Scan(Some(day), 1, st.best)
    case Some(l) =>
      if day - l == 1 then Scan(Some(day), st.cur + 1, st.best)
      else if day - l == 0 then st
      else Scan(Some(day), 1, Max(st.best, st.cur))
  }

  function ScanDays(days: seq<int>): Scan {
    if |days| == 0 then Scan(None, 0, 0) else Step(ScanDays(days[..|days| - 1]), days[|days| - 1])
  }

  function Elems(days: seq<int>): set<int> {
    set d | d in days
  }

  ghost predicate NonDecreasing(days: seq<int>) {
    forall i, j :: 0 <= i < j < |days| ==> days[i] <= days[j]
  }

  /** The days of the sessions in date order. */
  function SortedDays(ss: seq<Session>): (r: seq<int>)
    ensures |r| == |ss|
    ensures NonDecreasing(r)
    ensures Elems(r) == DaySet(ss)
  {
    var sorted := SortBy(ss, (s: Session) => s.date);
    var r := DaysOf(sorted);
    DaysOfSorted(sorted);
    DaysOfElems(ss, sorted);
    r
  }

  /** The day of each session, in list order. */
  function DaysOf(ss: seq<Session>): (r: seq<int>)
    ensures |r| == |ss|
    ensures forall i :: 0 <= i < |ss| ==> r[i] == DayOf(ss[i].date)
  {
    seq(|ss|, i requires 0 <= i < |ss| => DayOf(ss[i].date))
  }

  lemma DaysOfSorted(sorted: seq<Session>)
    requires SortedBy(sorted, (s: Session) => s.date)
    ensures NonDecreasing(DaysOf(sorted))
  {
    var r := DaysOf(sorted);
    forall i, j | 0 <= i < j < |r| ensures r[i] <= r[j] {
      DayOfMonotone(sorted[i].date, sorted[j].date);
    }
  }

  lemma DaysOfElems(ss: seq<Session>, sorted: seq<Session>)
    requires multiset(sorted) == multiset(ss)
    ensures Elems(DaysOf(sorted)) == DaySet(ss)
  {
    var r := DaysOf(sorted);
    forall d ensures d in Elems(r) <==> d in DaySet(ss) {
      if d in Elems(r) {
        var i :| 0 <= i < |r| && r[i] == d;
        assert sorted[i] in multiset(ss);
      }
      if d in DaySet(ss) {
        var s :| s in ss && DayOf(s.date) == d;
        assert s in multiset(sorted);
        var i :| 0 <= i < |sorted| && sorted[i] == s;
        assert r[i] == d;
      }
    }
  }

  /**
   * What the scan state says about the set `p` of days seen so far, whose
   * latest is `last`: `cur` is the run ending at `last`, and `max(best, cur)`
   * is the longest run in `p` and is reached.
   */
  ghost predicate Summarises(p: set<int>, last: int, st: Scan) {
    && st.last == Some(last)
    && last in p
    && (forall e :: e in p ==> e <= last)
    && st.cur == Run(p, last)
    && (forall d :: Run(p, d) <= Max(st.best, st.cur))
    && (exists d :: d in p && Run(p, d) == Max(st.best, st.cur))
  }

  /** Adding a day after the latest only changes runs ending at or after it. */
  lemma RunsBeforeNewDay(p: set<int>, last: int, x: int, d: int)
    requires forall e :: e in p ==> e <= last
    requires last < x && d < x
    ensures Run(p + {x}, d) == Run(p, d)
  {
    RunAgree(p + {x}, p, d);
  }

  lemma StepFirst(x: int, best: nat)
    requires best == 0
    ensures Summarises({x}, x, Step(Scan(None, 0, best), x))
  {
    RunUnique({x}, x, 1);
    forall d ensures Run({x}, d) <= 1 {
      if d != x {
        assert d !in {x};
      }
    }
    assert x in {x};
  }

  /**
   * After adding day `x` past every day of `p`: if the run ending at `x` is
   * at most `m` and so is every run in `p`, every run in `p + {x}` is.
   */
  lemma RunsBoundedAfterAdd(p: set<int>, last: int, x: int, m: int)
    requires forall e :: e in p ==> e <= last
    requires last < x
    requires forall d :: Run(p, d) <= m
    requires Run(p + {x}, x) <= m
    ensures forall d :: Run(p + {x}, d) <= m
  {
    forall d ensures Run(p + {x}, d) <= m {
      if d < x {
        RunsBeforeNewDay(p, last, x, d);
      } else if d > x {
        assert d !in p + {x};
      }
    }
  }

  /** A day right after the latest extends the run ending there by one. */
  lemma ExtendRun(p: set<int>, last: int)
    requires forall e :: e in p ==> e <= last
    ensures Run(p + {last + 1}, last + 1) == Run(p, last) + 1
  {
    var r, q := Run(p, last), p + {last + 1};
    forall e | last - r < e <= last + 1 ensures e in q {
      if e <= last {
        assert e in p;
      }
    }
    RunUnique(q, last + 1, r + 1);
  }

  lemma StepNextDay(p: set<int>, last: int, st: Scan)
    requires Summarises(p, last, st)
    ensures Summarises(p + {last + 1}, last + 1, Step(st, last + 1))
  {
    var x, q := last + 1, p + {last + 1};
    var st' := Scan(Some(x), st.cur + 1, st.best);
    assert Step(st, x) == st';
    NextDayRuns(p, q, last, st.cur, st.best);
    LongestAfterNextDay(p, q, last, st.cur, st.best);
    SummarisesIntro(q, x, st');
  }

  /** The next day extends the latest run and bounds every run by the new longest. */
  lemma NextDayRuns(p: set<int>, q: set<int>, last: int, cur: nat, best: nat)
    requires q == p + {last + 1}
    requires forall e :: e in p ==> e <= last
    requires Run(p, last) == cur
    requires forall d :: Run(p, d) <= Max(best, cur)
    ensures Run(q, last + 1) == cur + 1
    ensures forall d :: Run(q, d) <= Max(best, cur + 1)
    ensures last + 1 in q && forall e :: e in q ==> e <= last + 1
  {
    ExtendRun(p, last);
    RunsBoundedAfterAdd(p, last, last + 1, Max(best, cur + 1));
  }

  /** Extending the run at the latest day keeps the longest run reached. */
  lemma LongestAfterNextDay(p: set<int>, q: set<int>, last: int, cur: nat, best: nat)
    requires q == p + {last + 1}
    requires forall e :: e in p ==> e <= last
    requires Run(p, last) == cur
    requires exists w :: w in p && Run(p, w) == Max(best, cur)
    ensures exists v :: v in q && Run(q, v) == Max(best, cur + 1)
  {
    var w :| w in p && Run(p, w) == Max(best, cur);
    RunsBeforeNewDay(p, last, last + 1, w);
    ExtendRun(p, last);
    if cur + 1 < best {
      assert w in q && Run(q, w) == Max(best, cur + 1);
    } else {
      assert last + 1 in q && Run(q, last + 1) == Max(best, cur + 1);
    }
  }

  /** The summary from its parts. */
  lemma SummarisesIntro(q: set<int>, x: int, st: Scan)
    requires st.last == Some(x) && x in q
    requires forall e :: e in q ==> e <= x
    requires st.cur == Run(q, x)
    requires forall d :: Run(q, d) <= Max(st.best, st.cur)
    requires exists v :: v in q && Run(q, v) == Max(st.best, st.cur)
    ensures Summarises(q, x, st)
  {
  }

  lemma StepGap(p: set<int>, last: int, st: Scan, x: int)
    requires Summarises(p, last, st) && x > last + 1
    ensures Summarises(p + {x}, x, Step(st, x))
  {
    var q, st' := p + {x}, Step(st, x);
    var m := Max(st.best, st.cur);
    assert st' == Scan(Some(x), 1, m);
    RunAfterGap(p, q, last, x);
    LongestAfterGap(p, q, last, x, m);
    SummarisesIntro(q, x, st');
  }

  /** A day after a gap is a run of its own. */
  lemma RunAfterGap(p: set<int>, q: set<int>, last: int, x: int)
    requires q == p + {x} && x > last + 1
    requires forall e :: e in p ==> e <= last
    ensures Run(q, x) == 1
  {
    assert x - 1 !in q;
    RunUnique(q, x, 1);
  }

  /** A day after a gap starts a new run of 1, which leaves the longest run as it was. */
  lemma LongestAfterGap(p: set<int>, q: set<int>, last: int, x: int, m: int)
    requires q == p + {x} && last < x
    requires forall e :: e in p ==> e <= last
    requires Run(q, x) <= m
    requires forall d :: Run(p, d) <= m
    requires exists w :: w in p && Run(p, w) == m
    ensures forall d :: Run(q, d) <= m
    ensures exists v :: v in q && Run(q, v) == m
    ensures m >= 1 && forall e :: e in q ==> e <= x
  {
    RunsBoundedAfterAdd(p, last, x, m);
    var w :| w in p && Run(p, w) == m;
    RunsBeforeNewDay(p, last, x, w);
    assert w in q;
    assert m >= 1 by {
      assert w - Run(p, w) !in p;
    }
    forall e | e in q ensures e <= x {
      if e != x {
        assert e in p;
      }
    }
  }

  lemma ElemsSnoc(days: seq<int>, x: int)
    ensures Elems(days + [x]) == Elems(days) + {x}
  {
  }

  /** The scan over a sorted sequence of days summarises the days seen. */
  lemma {:induction false} ScanInvariant(days: seq<int>)
    requires NonDecreasing(days)
    ensures |days| > 0 ==> Summarises(Elems(days), days[|days| - 1], ScanDays(days))
  {
    var n := |days|;
    if n == 0 {
      return;
    }
    var x := days[n - 1];
    var prefix := days[..n - 1];
    assert days == prefix + [x];
    if n == 1 {
      ScanSingle(x);
    } else {
      assert NonDecreasing(prefix);
      ScanInvariant(prefix);
      ScanExtend(prefix, x);
    }
  }

  lemma ScanSingle(x: int)
    ensures Summarises(Elems([x]), x, ScanDays([x]))
  {
    assert [x][..0] == [];
    assert Elems([x]) == {x};
    StepFirst(x, 0);
  }

  /** One more day, no earlier than the latest, keeps the summary. */
  lemma ScanExtend(prefix: seq<int>, x: int)
    requires |prefix| > 0 && prefix[|prefix| - 1] <= x
    requires Summarises(Elems(prefix), prefix[|prefix| - 1], ScanDays(prefix))
    ensures Summarises(Elems(prefix + [x]), x, ScanDays(prefix + [x]))
  {
    var l := prefix[|prefix| - 1];
    var p, st := Elems(prefix), ScanDays(prefix);
    assert (prefix + [x])[..|prefix|] == prefix;
    assert ScanDays(prefix + [x]) == Step(st, x);
    ElemsSnoc(prefix, x);
    if x == l {
      assert Step(st, x) == st;
      assert p + {x} == p;
    } else if x == l + 1 {
      StepNextDay(p, l, st);
    } else {
      StepGap(p, l, st, x);
    }
  }

  /**
   * `longestStreak`: the longest run of consecutive session days, found by
   * scanning the sessions in date order.
   */
  function LongestStreak(ss: seq<Session>): (r: nat)
    ensures forall d :: Run(DaySet(ss), d) <= r
    ensures |ss| > 0 ==> exists d :: d in DaySet(ss) && Run(DaySet(ss), d) == r
    ensures |ss| == 0 ==> r == 0
  {
    if |ss| == 0 then 0
    else
      var days := SortedDays(ss);
      ScanInvariant(days);
      var st := ScanDays(days);
      Max(st.best, st.cur)
  }

  /** The current streak is one of the runs, so never longer than the longest. */
  lemma LongestAtLeastCurrent(ss: seq<Session>, today: int)
    ensures CurrentStreak(ss, today) <= LongestStreak(ss)
  {
    if |ss| > 0 {
      assert CurrentStreak(ss, today) == Run(DaySet(ss), Anchor(DaySet(ss), today));
    }
  }

  /** Any session makes the longest streak at least one day. */
  lemma LongestPositive(ss: seq<Session>)
    requires |ss| > 0
    ensures LongestStreak(ss) >= 1
  {
    var d := DayOf(ss[0].date);
    assert d in DaySet(ss);
    assert Run(DaySet(ss), d) >= 1;
  }

  /** Sessions on three consecutive days: longest streak 3, and 3 again on the third day. */
  lemma ThreeConsecutiveDays(a: Session, b: Session, c: Session)
    requires DayOf(b.date) == DayOf(a.date) + 1 && DayOf(c.date) == DayOf(a.date) + 2
    ensures LongestStreak([a, b, c]) == 3
    ensures CurrentStreak([a, b, c], DayOf(c.date)) == 3
  {
    var ss := [a, b, c];
    var first := DayOf(a.date);
    var days := DaySet(ss);
    assert a in ss && b in ss && c in ss;
    assert first in days && first + 1 in days && first + 2 in days;
    forall d | d in days ensures first <= d <= first + 2 {
      var s :| s in ss && DayOf(s.date) == d;
    }
    RunUnique(days, first + 2, 3);
    forall d ensures Run(days, d) <= 3 {
      if d in days {
        assert d - 3 !in days;
      }
    }
  }

  // ------------------------------------------------------------- history

  /** The earliest session date. */
  function EarliestDate(ss: seq<Session>): (r: int)
    requires |ss| > 0
    ensures forall i :: 0 <= i < |ss| ==> r <= ss[i].date
    ensures exists i :: 0 <= i < |ss| && ss[i].date == r
  {
    if |ss| == 1 then ss[0].date
    else
      var m := EarliestDate(ss[1..]);
      if ss[0].date <= m then ss[0].date else m
  }

  function EarliestDay(ss: seq<Session>): int
    requires |ss| > 0
  {
    DayOf(EarliestDate(ss))
  }

  /** No session day precedes the earliest session's day. */
  lemma EarliestDayIsFirst(ss: seq<Session>, d: int)
    requires |ss| > 0 && d in DaySet(ss)
    ensures EarliestDay(ss) <= d
  {
    var s :| s in ss && DayOf(s.date) == d;
    var i :| 0 <= i < |ss| && ss[i] == s;
    DayOfMonotone(EarliestDate(ss), s.date);
  }

  datatype HistoryDay = HistoryDay(date: int, hasSession: bool)

  /**
   * `streakHistory`: one entry per day from the earliest session's day
   * through today, marking the days that hold a session.
   */
  function StreakHistory(ss: seq<Session>, today: int): (r: seq<HistoryDay>)
    ensures |ss| == 0 ==> r == []
    ensures |ss| > 0 ==> |r| == Max(today - EarliestDay(ss) + 1, 0)
    ensures |ss| > 0 ==> forall i :: 0 <= i < |r| ==>
      && r[i].date == (EarliestDay(ss) + i) * SecondsPerDay
      && (r[i].hasSession <==> EarliestDay(ss) + i in DaySet(ss))
  {
    if |ss| == 0 then []
    else
      var first := EarliestDay(ss);
      var n := Max(today - first + 1, 0);
      seq(n, i requires 0 <= i < n => HistoryDay((first + i) * SecondsPerDay, first + i in DaySet(ss)))
  }

  /** Every session day up to today is marked in the history. */
  lemma HistoryMarksSessionDays(ss: seq<Session>, today: int, d: int)
    requires d in DaySet(ss) && d <= today
    ensures |ss| > 0
    ensures 0 <= d - EarliestDay(ss) < |StreakHistory(ss, today)|
    ensures StreakHistory(ss, today)[d - EarliestDay(ss)].hasSession
  {
    EarliestDayIsFirst(ss, d);
  }

  /** The days of the current streak are marked in the history. */
  lemma HistoryShowsCurrentStreak(ss: seq<Session>, today: int, k: nat)
    requires k < CurrentStreak(ss, today)
    ensures |ss| > 0
    ensures var d := Anchor(DaySet(ss), today) - k;
      0 <= d - EarliestDay(ss) < |StreakHistory(ss, today)| && StreakHistory(ss, today)[d - EarliestDay(ss)].hasSession
  {
    HistoryMarksSessionDays(ss, today, Anchor(DaySet(ss), today) - k);
  }

  // -------------------------------------------------------------- status

  /** A session today, or yesterday so the streak can still continue today. */
  predicate IsStreakActive(ss: seq<Session>, today: int) {
    today in DaySet(ss) || today - 1 in DaySet(ss)
  }

  /** The streak is active exactly when the current streak is positive. */
  lemma StreakActiveIffCurrent(ss: seq<Session>, today: int)
    ensures IsStreakActive(ss, today) <==> CurrentStreak(ss, today) > 0
  {
    if IsStreakActive(ss, today) {
      assert Anchor(DaySet(ss), today) in DaySet(ss);
    }
  }

  /** `daysUntilStreakBreaks`: none when today is done, 1 when only yesterday is, 0 when broken. */
  function DaysUntilStreakBreaks(ss: seq<Session>, today: int): (r: Option<nat>)
    ensures r.None? <==> today in DaySet(ss)
    ensures r == Some(1) <==> today !in DaySet(ss) && today - 1 in DaySet(ss)
    ensures r == Some(0) <==> CurrentStreak(ss, today) == 0
  {
    StreakActiveIffCurrent(ss, today);
    if IsStreakActive(ss, today) then
      if today in DaySet(ss) then None else Some(1)
    else Some(0)
  }
}
