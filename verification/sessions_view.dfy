/**
 * The logic of the session history screen: the day groups it lists, the
 * message shown when the filter selects nothing, and the count on each
 * filter chip. The screen never passes search text.
 */
module SessionsView {
  import opened Wrappers
  import opened DataModels
  import opened Calendar
  import opened Seqs
  import SharedEnums
  import Repo = SessionRepository

  type SessionFilter = SharedEnums.SessionFilter

  /** One section of the list: the start of a day and its sessions. */
  datatype SessionGroup = SessionGroup(date: int, sessions: seq<Session>)

  /** The sessions of the groups, section after section. */
  function Flatten(gs: seq<SessionGroup>): seq<Session> {
    if |gs| == 0 then [] else gs[0].sessions + Flatten(gs[1..])
  }

  /** Number of sessions over all sections. */
  function TotalCount(gs: seq<SessionGroup>): nat {
    if |gs| == 0 then 0 else |gs[0].sessions| + TotalCount(gs[1..])
  }

  /** Sections are headed by strictly decreasing days. */
  ghost predicate KeysDescending(gs: seq<SessionGroup>) {
    forall i, j :: 0 <= i < j < |gs| ==> gs[i].date > gs[j].date
  }

  /** No section is empty, and every session of a section starts on its day. */
  ghost predicate WellKeyed(gs: seq<SessionGroup>) {
    forall i :: 0 <= i < |gs| ==>
      |gs[i].sessions| > 0 && forall j :: 0 <= j < |gs[i].sessions| ==> StartOfDay(gs[i].sessions[j].date) == gs[i].date
  }

  /** The start of the day never decreases with the time. */
  lemma StartOfDayMonotone(a: int, b: int)
    requires a <= b
    ensures StartOfDay(a) <= StartOfDay(b)
  {
    DayOfMonotone(a, b);
  }

  lemma {:induction false} FlattenMember(gs: seq<SessionGroup>, x: Session)
    ensures x in Flatten(gs) <==> exists i :: 0 <= i < |gs| && x in gs[i].sessions
  {
    if |gs| > 0 {
      FlattenMember(gs[1..], x);
      if x in Flatten(gs[1..]) {
        var i :| 0 <= i < |gs| - 1 && x in gs[1..][i].sessions;
        assert gs[i + 1] == gs[1..][i];
      }
      if exists i :: 0 <= i < |gs| && x in gs[i].sessions {
        var i :| 0 <= i < |gs| && x in gs[i].sessions;
        if i > 0 {
          assert gs[1..][i - 1] == gs[i];
        }
      }
    }
  }

  lemma {:induction false} TotalCountIsFlattenLength(gs: seq<SessionGroup>)
    ensures TotalCount(gs) == |Flatten(gs)|
  {
    if |gs| > 0 {
      TotalCountIsFlattenLength(gs[1..]);
    }
  }

  /**
   * Cuts a list into maximal stretches of sessions starting on the same day.
   * On a list sorted newest first these are the day groups, newest day first.
   */
  function Runs(ss: seq<Session>): (r: seq<SessionGroup>)
    ensures Flatten(r) == ss
    ensures |ss| == 0 <==> |r| == 0
    ensures |ss| > 0 ==> r[0].date == StartOfDay(ss[0].date)
  {
    if |ss| == 0 then []
    else
      var rest := Runs(ss[1..]);
      var k := StartOfDay(ss[0].date);
      if |rest| > 0 && rest[0].date == k then
        var r := [SessionGroup(k, [ss[0]] + rest[0].sessions)] + rest[1..];
        assert r[1..] == rest[1..];
        r
      else
        var r := [SessionGroup(k, [ss[0]])] + rest;
        assert r[1..] == rest;
        r
  }

  /** The first section of `Runs` followed by the rest. */
  lemma RunsHead(ss: seq<Session>)
    requires |ss| > 0
    ensures var rest := Runs(ss[1..]);
      var k := StartOfDay(ss[0].date);
      if |rest| > 0 && rest[0].date == k
      then Runs(ss) == [SessionGroup(k, [ss[0]] + rest[0].sessions)] + rest[1..]
      else Runs(ss) == [SessionGroup(k, [ss[0]])] + rest
  {
  }

  /** Every section of `Runs` is non-empty and keyed by its sessions' day. */
  lemma {:induction false} RunsWellKeyed(ss: seq<Session>)
    ensures WellKeyed(Runs(ss))
  {
    if |ss| > 0 {
      RunsWellKeyed(ss[1..]);
      RunsHead(ss);
      var rest := Runs(ss[1..]);
      var r := Runs(ss);
      if |rest| > 0 && rest[0].date == StartOfDay(ss[0].date) {
        assert forall i :: 1 <= i < |r| ==> r[i] == rest[i];
        forall j | 0 <= j < |r[0].sessions| ensures StartOfDay(r[0].sessions[j].date) == r[0].date {
          if j > 0 {
            assert r[0].sessions[j] == rest[0].sessions[j - 1];
          }
        }
      } else {
        assert forall i :: 1 <= i < |r| ==> r[i] == rest[i - 1];
      }
    }
  }

  /** On a list sorted newest first, the first section holds the leading sessions. */
  lemma FirstRunIsPrefix(ss: seq<Session>, j: int)
    requires |ss| > 0 && 0 <= j < |Runs(ss)[0].sessions|
    ensures j < |ss| && Runs(ss)[0].sessions[j] == ss[j]
  {
    var r := Runs(ss);
    assert Flatten(r) == r[0].sessions + Flatten(r[1..]);
    assert Flatten(r)[j] == r[0].sessions[j];
  }

  /** On a list sorted newest first, `Runs` gives strictly older days, each section newest first. */
  lemma {:induction false} RunsSorted(ss: seq<Session>)
    requires Repo.NewestFirst(ss)
    ensures KeysDescending(Runs(ss))
    ensures forall i :: 0 <= i < |Runs(ss)| ==> Repo.NewestFirst(Runs(ss)[i].sessions)
  {
    if |ss| > 0 {
      assert Repo.NewestFirst(ss[1..]);
      RunsSorted(ss[1..]);
      RunsHead(ss);
      var rest := Runs(ss[1..]);
      if |rest| > 0 && rest[0].date == StartOfDay(ss[0].date) {
        RunsSortedJoin(ss, rest);
      } else {
        RunsSortedNew(ss, rest);
      }
    }
  }

  /** The step of `RunsSorted` where the first session joins the next day's section. */
  lemma {:induction false} RunsSortedJoin(ss: seq<Session>, rest: seq<SessionGroup>)
    requires |ss| > 0 && Repo.NewestFirst(ss) && rest == Runs(ss[1..])
    requires |rest| > 0 && rest[0].date == StartOfDay(ss[0].date)
    requires Runs(ss) == [SessionGroup(rest[0].date, [ss[0]] + rest[0].sessions)] + rest[1..]
    requires KeysDescending(rest)
    requires forall i :: 0 <= i < |rest| ==> Repo.NewestFirst(rest[i].sessions)
    ensures KeysDescending(Runs(ss))
    ensures forall i :: 0 <= i < |Runs(ss)| ==> Repo.NewestFirst(Runs(ss)[i].sessions)
  {
    var r := Runs(ss);
    assert forall i :: 1 <= i < |r| ==> r[i] == rest[i];
    forall j | 0 <= j < |r[0].sessions| ensures r[0].sessions[j] == ss[j] {
      FirstRunIsPrefix(ss, j);
    }
  }

  /** The step of `RunsSorted` where the first session opens a section of its own. */
  lemma {:induction false} RunsSortedNew(ss: seq<Session>, rest: seq<SessionGroup>)
    requires |ss| > 0 && Repo.NewestFirst(ss) && rest == Runs(ss[1..])
    requires !(|rest| > 0 && rest[0].date == StartOfDay(ss[0].date))
    requires Runs(ss) == [SessionGroup(StartOfDay(ss[0].date), [ss[0]])] + rest
    requires KeysDescending(rest)
    requires forall i :: 0 <= i < |rest| ==> Repo.NewestFirst(rest[i].sessions)
    ensures KeysDescending(Runs(ss))
    ensures forall i :: 0 <= i < |Runs(ss)| ==> Repo.NewestFirst(Runs(ss)[i].sessions)
  {
    var r := Runs(ss);
    assert forall i :: 1 <= i < |r| ==> r[i] == rest[i - 1];
    if |rest| > 0 {
      StartOfDayMonotone(ss[1].date, ss[0].date);
    }
  }

  /**
   * `groupSessionsByDate`: one section per day that has sessions, newest day
   * first, each holding exactly that day's sessions, newest first.
   */
  function GroupSessionsByDate(ss: seq<Session>): (r: seq<SessionGroup>)
    ensures multiset(Flatten(r)) == multiset(ss)
    ensures KeysDescending(r)
    ensures forall i :: 0 <= i < |r| ==> |r[i].sessions| > 0 && Repo.NewestFirst(r[i].sessions)
    ensures forall i, x :: 0 <= i < |r| ==> (x in r[i].sessions <==> x in ss && StartOfDay(x.date) == r[i].date)
    ensures forall x :: x in ss ==> exists i :: 0 <= i < |r| && x in r[i].sessions
  {
    var sorted := SortBy(ss, (s: Session) => 0 - s.date);
    SortedByDateIsNewestFirst(sorted);
    RunsWellKeyed(sorted);
    RunsSorted(sorted);
    RunsMembership(ss, sorted);
    Runs(sorted)
  }

  /** Sorting by the negated date puts the newest first. */
  lemma SortedByDateIsNewestFirst(sorted: seq<Session>)
    requires SortedBy(sorted, (s: Session) => 0 - s.date)
    ensures Repo.NewestFirst(sorted)
  {
    forall i, j | 0 <= i < j < |sorted| ensures sorted[i].date >= sorted[j].date {
      assert (0 - sorted[i].date) <= (0 - sorted[j].date);
    }
  }

  /** The sections of a permutation of `ss` hold exactly the sessions of `ss` on their day. */
  lemma RunsMembership(ss: seq<Session>, sorted: seq<Session>)
    requires multiset(sorted) == multiset(ss)
    requires WellKeyed(Runs(sorted)) && KeysDescending(Runs(sorted))
    ensures var r := Runs(sorted);
      forall i, x :: 0 <= i < |r| ==> (x in r[i].sessions <==> x in ss && StartOfDay(x.date) == r[i].date)
    ensures var r := Runs(sorted);
      forall x :: x in ss ==> exists i :: 0 <= i < |r| && x in r[i].sessions
  {
    var r := Runs(sorted);
    forall x | x in ss ensures exists i :: 0 <= i < |r| && x in r[i].sessions {
      assert x in multiset(sorted);
      FlattenMember(r, x);
    }
    forall i, x | 0 <= i < |r| ensures x in r[i].sessions <==> x in ss && StartOfDay(x.date) == r[i].date {
      FlattenMember(r, x);
      if x in r[i].sessions {
        assert x in multiset(sorted);
      }
      if x in ss && StartOfDay(x.date) == r[i].date {
        assert x in multiset(sorted);
        var j :| 0 <= j < |r| && x in r[j].sessions;
        assert StartOfDay(x.date) == r[j].date;
        assert i == j;
      }
    }
  }

  /** The sections hold as many sessions as the list. */
  lemma GroupsCountEverySession(ss: seq<Session>)
    ensures TotalCount(GroupSessionsByDate(ss)) == |ss|
  {
    var r := GroupSessionsByDate(ss);
    TotalCountIsFlattenLength(r);
    assert |multiset(Flatten(r))| == |multiset(ss)|;
  }

  /** Each session of the list is in exactly one section. */
  lemma EachSessionInOneGroup(ss: seq<Session>, x: Session, i: int, j: int)
    requires x in ss
    requires 0 <= i < |GroupSessionsByDate(ss)| && x in GroupSessionsByDate(ss)[i].sessions
    requires 0 <= j < |GroupSessionsByDate(ss)| && x in GroupSessionsByDate(ss)[j].sessions
    ensures i == j
  {
    var r := GroupSessionsByDate(ss);
    assert r[i].date == StartOfDay(x.date) == r[j].date;
  }

  // ---------------------------------------------------------- empty state

  const AllEmptyMessage: string := "Your mindfulness journey sessions will appear here"
  const FilteredEmptyMessage: string := "No sessions match the current filter"

  /** `emptyStateMessage`: one text for the All filter, another for every other filter. */
  function EmptyStateMessage(f: SessionFilter): (r: string)
    ensures r == AllEmptyMessage <==> f == SharedEnums.SessionFilter.All
    ensures r == FilteredEmptyMessage <==> f != SharedEnums.SessionFilter.All
  {
    if f != SharedEnums.SessionFilter.All then FilteredEmptyMessage else AllEmptyMessage
  }

  /** Two filters show the same empty-state message exactly when both or neither are All. */
  lemma EmptyMessageTellsOnlyAll(f: SessionFilter, g: SessionFilter)
    ensures EmptyStateMessage(f) == EmptyStateMessage(g)
      <==> (f == SharedEnums.SessionFilter.All <==> g == SharedEnums.SessionFilter.All)
  {
  }

  // ------------------------------------------------------------ filter chips

  /** `getFilterCount`: how many sessions the filter lists. */
  function FilterCount(ss: seq<Session>, f: SessionFilter, clock: Clock): (r: nat)
    ensures r <= |ss|
    ensures f == SharedEnums.SessionFilter.All ==> r == |ss|
  {
    |Repo.FilteredSessions(ss, f, "", clock)|
  }

  /** A type filter's chip counts the sessions of its type. */
  lemma TypeChipCountsType(ss: seq<Session>, f: SessionFilter, t: SessionType, clock: Clock)
    requires SharedEnums.FilterSessionType(f) == Some(t)
    ensures FilterCount(ss, f, clock) == |Repo.SessionsByType(ss, t)|
  {
    Repo.TypeFilterIsSessionsByType(ss, f, t, clock);
  }

  /** The Today chip counts the sessions dated today. */
  lemma TodayChipCountsToday(ss: seq<Session>, clock: Clock)
    ensures FilterCount(ss, SharedEnums.SessionFilter.Today, clock) == |Repo.TodaysSessions(ss, clock)|
  {
    Repo.TodayFilterIsTodaysSessions(ss, clock);
  }
}
