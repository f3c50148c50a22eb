/**
 * The data coordinator: the sessions, the profile and the milestone catalog
 * held together, with every change to the sessions (and a change of the
 * weekly goal) followed by a recomputation of the milestones from the
 * statistics of the sessions. The completion events of that recomputation
 * are dropped, as the coordinator drops them. The clock is a parameter.
 */
module MindfulDataCoordinator {
  import opened Wrappers
  import opened DataModels
  import opened Calendar
  import PC = ProgressCalculator
  import Streaks = StreakCalculator
  import MM = MilestoneManager
  import Profiles = UserProfileManager
  import Repo = SessionRepository
  import SessionTimer

  datatype State = State(sessions: seq<Session>, profile: Option<UserProfile>, milestones: seq<Milestone>)

  /**
   * The statistics `updateMilestoneProgress` hands to the milestone update:
   * counts and minutes of all sessions, the two streaks, and the minutes of
   * the current week and month.
   */
  function CurrentStats(st: State, clock: Clock): (r: MM.Stats)
    ensures r.totalSessions == |st.sessions|
    ensures 0 <= r.currentStreak <= r.longestStreak
    ensures 0 <= r.weeklyMinutes <= r.totalMinutes
    ensures 0 <= r.monthlyMinutes <= r.totalMinutes
    ensures r.totalMinutes * 60 <= PC.SumSeconds(st.sessions)
    ensures |st.sessions| == 0 ==> r == MM.Stats(0, 0, 0, 0, 0, 0)
    ensures |st.sessions| > 0 ==> r.longestStreak >= 1
  {
    var ss := st.sessions;
    Streaks.LongestAtLeastCurrent(ss, clock.Today());
    PC.TotalMinutesBounds(ss);
    assert |ss| > 0 ==> Streaks.LongestStreak(ss) >= 1 by {
      if |ss| > 0 { Streaks.LongestPositive(ss); }
    }
    MM.Stats(
      PC.TotalSessions(ss),
      PC.TotalMinutes(ss),
      Streaks.CurrentStreak(ss, clock.Today()),
      Streaks.LongestStreak(ss),
      PC.WeeklyProgressOf(ss, clock.weekStart, clock.weekEnd, Profiles.WeeklyGoalMinutes(st.profile)).completed,
      PC.MonthlyMinutes(ss, clock.monthStart, clock.monthEnd))
  }

  /** A milestone showing exactly the statistic it tracks, completed exactly when it reaches its target. */
  predicate Settled(m: Milestone, stats: MM.Stats) {
    m.currentValue == MM.StatFor(m.kind, stats) && (m.isCompleted <==> m.currentValue >= m.targetValue)
  }

  /** Every milestone of the catalog is settled against the state's statistics. */
  predicate UpToDate(st: State, clock: Clock) {
    forall i :: 0 <= i < |st.milestones| ==> Settled(st.milestones[i], CurrentStats(st, clock))
  }

  /** An update settles a milestone, and a settled milestone is a fixed point of the update. */
  lemma UpdateSettles(m: Milestone, stats: MM.Stats, now: int)
    ensures Settled(MM.UpdateOne(m, stats, now), stats)
    ensures Settled(m, stats) ==> MM.UpdateOne(m, stats, now) == m
  {
  }

  /** The statistics do not depend on the milestones, nor on the weekly goal of the profile. */
  lemma StatsIgnoreCatalogAndGoal(st: State, profile: Option<UserProfile>, milestones: seq<Milestone>, clock: Clock)
    ensures CurrentStats(State(st.sessions, profile, milestones), clock) == CurrentStats(st, clock)
  {
  }

  /** `updateMilestoneProgress`. */
  function Recompute(st: State, clock: Clock): (r: State)
    ensures r.sessions == st.sessions && r.profile == st.profile
    ensures |r.milestones| == |st.milestones|
    ensures forall i :: 0 <= i < |st.milestones| ==> MM.SameIdentity(r.milestones[i], st.milestones[i])
    ensures forall i :: 0 <= i < |st.milestones| ==> MM.Consistent(st.milestones[i]) ==> MM.Consistent(r.milestones[i])
    ensures UpToDate(r, clock)
    ensures UpToDate(st, clock) ==> r == st
  {
    var stats := CurrentStats(st, clock);
    var ms := MM.UpdateProgress(st.milestones, stats, clock.now).milestones;
    RecomputeSettles(st, clock, ms);
    st.(milestones := ms)
  }

  /** The updated catalog is settled, and an up-to-date catalog is left as it is. */
  lemma RecomputeSettles(st: State, clock: Clock, ms: seq<Milestone>)
    requires ms == MM.UpdateProgress(st.milestones, CurrentStats(st, clock), clock.now).milestones
    ensures UpToDate(st.(milestones := ms), clock)
    ensures UpToDate(st, clock) ==> ms == st.milestones
  {
    var stats := CurrentStats(st, clock);
    StatsIgnoreCatalogAndGoal(st, st.profile, ms, clock);
    forall i | 0 <= i < |ms| ensures Settled(ms[i], stats) {
      UpdateSettles(st.milestones[i], stats, clock.now);
    }
    if UpToDate(st, clock) {
      forall i | 0 <= i < |ms| ensures ms[i] == st.milestones[i] {
        UpdateSettles(st.milestones[i], stats, clock.now);
      }
    }
  }

  // ------------------------------------------------------------ start-up

  /** `init`: load the three stores, then bring the milestones up to date. */
  function Init(sessions: Option<seq<Session>>, profiles: Option<seq<UserProfile>>,
                milestones: Option<seq<Milestone>>, env: Profiles.Fresh, clock: Clock): (r: State)
    ensures Repo.NewestFirst(r.sessions)
    ensures sessions.Some? ==> multiset(r.sessions) == multiset(sessions.value)
    ensures r.profile.Some?
    ensures |r.milestones| == |MM.InitMilestones(milestones)| > 0
    ensures UpToDate(r, clock)
  {
    Recompute(State(Repo.LoadSessions(sessions), Profiles.LoadUserProfile(profiles, env), MM.InitMilestones(milestones)), clock)
  }

  /** With nothing stored, the coordinator starts with no sessions, the default profile and the untouched default catalog. */
  lemma InitFromNothing(env: Profiles.Fresh, clock: Clock)
    ensures Init(None, None, None, env, clock) == State([], Some(Profiles.DefaultUserProfile(env)), DefaultMilestones())
  {
    MM.InitFromNothing(None);
    var st := State([], Some(Profiles.DefaultUserProfile(env)), DefaultMilestones());
    var stats := CurrentStats(st, clock);
    assert stats == MM.Stats(0, 0, 0, 0, 0, 0);
    assert UpToDate(st, clock);
  }

  // ---------------------------------------------------- session changes

  /** `addSession`: the session goes in front, then the milestones are recomputed. */
  function AddSession(st: State, s: Session, clock: Clock): (r: State)
    ensures r.sessions == [s] + st.sessions
    ensures r.profile == st.profile
    ensures |r.milestones| == |st.milestones|
    ensures forall i :: 0 <= i < |st.milestones| ==> MM.SameIdentity(r.milestones[i], st.milestones[i])
    ensures UpToDate(r, clock)
  {
    Recompute(st.(sessions := Repo.AddSession(st.sessions, s)), clock)
  }

  /** `updateSession`: the edited store is reloaded, then the milestones are recomputed. */
  function UpdateSession(st: State, s: Session, clock: Clock): (r: State)
    ensures r.sessions == Repo.UpdateSession(st.sessions, s)
    ensures Repo.NewestFirst(r.sessions)
    ensures r.profile == st.profile
    ensures |r.milestones| == |st.milestones|
    ensures UpToDate(r, clock)
  {
    Recompute(st.(sessions := Repo.UpdateSession(st.sessions, s)), clock)
  }

  /** `deleteSession`: the session goes, then the milestones are recomputed. */
  function DeleteSession(st: State, id: int, clock: Clock): (r: State)
    ensures forall x :: x in r.sessions <==> x in st.sessions && x.id != id
    ensures r.profile == st.profile
    ensures |r.milestones| == |st.milestones|
    ensures UpToDate(r, clock)
  {
    Recompute(st.(sessions := Repo.DeleteSession(st.sessions, id)), clock)
  }

  /**
   * Deleting a just-added session with a fresh id brings back the sessions,
   * and, when the clock has not moved, every milestone shows the original
   * statistics again: a completion reached meanwhile is undone, since the
   * update un-completes a milestone that falls back below its target.
   */
  lemma DeleteUndoesAdd(st: State, s: Session, clock: Clock)
    requires forall x :: x in st.sessions ==> x.id != s.id
    ensures DeleteSession(AddSession(st, s, clock), s.id, clock).sessions == st.sessions
    ensures DeleteSession(AddSession(st, s, clock), s.id, clock).profile == st.profile
    ensures forall i :: 0 <= i < |st.milestones| ==>
      Settled(DeleteSession(AddSession(st, s, clock), s.id, clock).milestones[i], CurrentStats(st, clock))
  {
    Repo.DeleteUndoesAdd(st.sessions, s);
    var added := AddSession(st, s, clock);
    var back := DeleteSession(added, s.id, clock);
    StatsIgnoreCatalogAndGoal(st, back.profile, back.milestones, clock);
  }

  // ------------------------------------------------------ profile changes

  /** `updateUserProfile`: the milestones are recomputed only when a weekly goal is supplied. */
  function UpdateUserProfile(st: State, u: Profiles.ProfileUpdate, clock: Clock): (r: State)
    ensures r.sessions == st.sessions
    ensures r.profile == Profiles.UpdateProfile(st.profile, u)
    ensures u.weeklyGoalMinutes.None? ==> r.milestones == st.milestones
    ensures |r.milestones| == |st.milestones|
  {
    var updated := st.(profile := Profiles.UpdateProfile(st.profile, u));
    if u.weeklyGoalMinutes.Some? then Recompute(updated, clock) else updated
  }

  /**
   * No milestone statistic depends on the goal, so on an up-to-date state
   * the recomputation a goal change triggers moves nothing, and the state
   * stays up to date.
   */
  lemma GoalChangeMovesNoMilestone(st: State, u: Profiles.ProfileUpdate, clock: Clock)
    requires UpToDate(st, clock)
    ensures UpdateUserProfile(st, u, clock).milestones == st.milestones
    ensures UpToDate(UpdateUserProfile(st, u, clock), clock)
  {
    var updated := st.(profile := Profiles.UpdateProfile(st.profile, u));
    StatsIgnoreCatalogAndGoal(st, updated.profile, st.milestones, clock);
    assert UpToDate(updated, clock);
  }

  // ------------------------------------------------------------- reading

  /** `weeklyProgress()`: the week's minutes against the profile's goal, 150 without a profile. */
  function WeeklyProgress(st: State, clock: Clock): (r: PC.WeeklyProgress)
    ensures st.profile.Some? ==> r.goal == st.profile.value.weeklyGoalMinutes
    ensures st.profile.None? ==> r.goal == DefaultWeeklyGoalMinutes
    ensures r.completed == CurrentStats(st, clock).weeklyMinutes
    ensures 0.0 <= r.percentage <= 1.0
    ensures r.goal > 0 ==> (r.percentage == 1.0 <==> r.completed >= r.goal)
  {
    PC.WeeklyProgressOf(st.sessions, clock.weekStart, clock.weekEnd, Profiles.WeeklyGoalMinutes(st.profile))
  }

  // -------------------------------------------------- finishing a session

  /** The timer after `finishSession`, and the coordinator after it recorded the session. */
  datatype Recorded = Recorded(timer: SessionTimer.Timer, state: State)

  /**
   * `finishSession` followed by the coordinator's `addSession` of its
   * record: a started session adds one session of at least a minute, dated
   * at its start, and leaves the milestones up to date; an unstarted timer
   * records nothing.
   */
  function FinishAndRecord(t: SessionTimer.Timer, st: State, id: int, clock: Clock): (r: Recorded)
    ensures r.timer == SessionTimer.FinishSession(t, clock.now, id).timer
    ensures t.sessionStartTime.None? ==> r.state == st
    ensures t.sessionStartTime.Some? ==>
      && |r.state.sessions| == |st.sessions| + 1
      && r.state.sessions[1..] == st.sessions
      && r.state.sessions[0].date == t.sessionStartTime.value
      && r.state.sessions[0].isCompleted
      && PC.TotalMinutes(r.state.sessions) >= PC.TotalMinutes(st.sessions) + 1
      && r.state.profile == st.profile
      && |r.state.milestones| == |st.milestones|
      && (forall i :: 0 <= i < |st.milestones| ==> MM.SameIdentity(r.state.milestones[i], st.milestones[i]))
      && UpToDate(r.state, clock)
  {
    var fin := SessionTimer.FinishSession(t, clock.now, id);
    match fin.record
    case None => Recorded(fin.timer, st)
    case Some(s) =>
      var next := AddSession(st, s, clock);
      assert next.sessions[1..] == st.sessions;
      Recorded(fin.timer, next)
  }

  /** A session started today and finished keeps the streak alive: today counts toward it. */
  lemma FinishingTodayKeepsStreak(t: SessionTimer.Timer, st: State, id: int, clock: Clock)
    requires t.sessionStartTime.Some? && DayOf(t.sessionStartTime.value) == clock.Today()
    ensures var after := FinishAndRecord(t, st, id, clock).state;
      && Streaks.IsStreakActive(after.sessions, clock.Today())
      && Streaks.DaysUntilStreakBreaks(after.sessions, clock.Today()).None?
      && CurrentStats(after, clock).currentStreak >= 1
  {
    var after := FinishAndRecord(t, st, id, clock).state;
    assert after.sessions[0] in after.sessions;
    assert clock.Today() in Streaks.DaySet(after.sessions);
    Streaks.StreakActiveIffCurrent(after.sessions, clock.Today());
  }

  /** On a fresh install, the first finished session completes "First Steps". */
  lemma FirstFinishedSessionCompletesFirstSteps(t: SessionTimer.Timer, env: Profiles.Fresh, id: int, clock: Clock)
    requires t.sessionStartTime.Some?
    ensures var after := FinishAndRecord(t, Init(None, None, None, env, clock), id, clock).state;
      && |after.milestones| > 0
      && after.milestones[0].title == "First Steps"
      && after.milestones[0].isCompleted
      && after.milestones[0].currentValue == 1
  {
    InitFromNothing(env, clock);
    FirstStepsHeadsCatalog();
    FinishedSessionCounts(t, Init(None, None, None, env, clock), id, clock);
  }

  /** A finished session moves a session-count milestone to the new number of sessions. */
  lemma FinishedSessionCounts(t: SessionTimer.Timer, st: State, id: int, clock: Clock)
    requires t.sessionStartTime.Some?
    requires |st.milestones| > 0 && st.milestones[0].kind == TotalSessions
    ensures var after := FinishAndRecord(t, st, id, clock).state;
      && |after.milestones| > 0
      && MM.SameIdentity(after.milestones[0], st.milestones[0])
      && after.milestones[0].currentValue == |st.sessions| + 1
      && (after.milestones[0].isCompleted <==> |st.sessions| + 1 >= st.milestones[0].targetValue)
  {
    var after := FinishAndRecord(t, st, id, clock).state;
    assert Settled(after.milestones[0], CurrentStats(after, clock));
  }

  /**
   * `sessionsInDateRange` includes its upper end while the weekly minutes
   * exclude the week's end: a session dated exactly at the end is listed for
   * the range but not counted for the week.
   */
  lemma DateRangeIncludesWeekEnd(s: Session, st: State, clock: Clock)
    requires st.sessions == [s] && s.date == clock.weekEnd && clock.weekStart <= clock.weekEnd
    ensures s in Repo.SessionsInDateRange(st.sessions, clock.weekStart, clock.weekEnd)
    ensures WeeklyProgress(st, clock).completed == 0
  {
    assert st.sessions[1..] == [];
  }
}
