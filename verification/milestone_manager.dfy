/**
 * The milestone catalog as a value: loading and seeding, the progress
 * update that keeps completion in step with the statistics, and the
 * queries over it. The completion events are returned rather than printed.
 */
module MilestoneManager {
  import opened Wrappers
  import opened DataModels
  import opened Calendar
  import opened Seqs
  import opened Numbers

  /** The statistics `updateProgress` is called with. */
  datatype Stats = Stats(
    totalSessions: int,
    totalMinutes: int,
    currentStreak: int,
    longestStreak: int,
    weeklyMinutes: int,
    monthlyMinutes: int)

  /** The statistic a milestone of this kind tracks; streaks take the better of the two. */
  function StatFor(kind: MilestoneKind, stats: Stats): int {
    match kind
    case TotalSessions => stats.totalSessions
    case TotalMinutes => stats.totalMinutes
    case Streak => Max(stats.longestStreak, stats.currentStreak)
    case WeeklyGoal => stats.weeklyMinutes
    case MonthlyGoal => stats.monthlyMinutes
  }

  /** Completion agrees with the value, and a date is recorded exactly when completed. */
  predicate Consistent(m: Milestone) {
    && (m.isCompleted <==> m.currentValue >= m.targetValue)
    && (m.completedDate.Some? <==> m.isCompleted)
  }

  /** Same milestone apart from its progress fields. */
  predicate SameIdentity(a: Milestone, b: Milestone) {
    a.id == b.id && a.title == b.title && a.details == b.details && a.targetValue == b.targetValue && a.kind == b.kind
  }

  /** Whether updating `m` with `stats` is its first reaching of the target. */
  predicate Fires(m: Milestone, stats: Stats) {
    !m.isCompleted && StatFor(m.kind, stats) >= m.targetValue
  }

  /** One iteration of the `updateProgress` loop. */
  function UpdateOne(m: Milestone, stats: Stats, now: int): (r: Milestone)
    ensures SameIdentity(r, m)
    ensures r.currentValue == StatFor(m.kind, stats)
    ensures r.isCompleted <==> r.currentValue >= r.targetValue
    ensures Fires(m, stats) ==> r.completedDate == Some(now)
    ensures m.isCompleted && r.isCompleted ==> r.completedDate == m.completedDate
    ensures m.isCompleted && !r.isCompleted ==> r.completedDate == None
    ensures !m.isCompleted && !r.isCompleted ==> r.completedDate == m.completedDate
    ensures Consistent(m) ==> Consistent(r)
  {
    var m1 := m.(currentValue := StatFor(m.kind, stats));
    var m2 := if !m.isCompleted && m1.currentValue >= m1.targetValue
      then m1.(isCompleted := true, completedDate := Some(now)) else m1;
    if m2.isCompleted && m2.currentValue < m2.targetValue
    then m2.(isCompleted := false, completedDate := None) else m2
  }

  /** The updated catalog and the milestones completed by this update, in catalog order. */
  datatype Progressed = Progressed(milestones: seq<Milestone>, completed: seq<Milestone>)

  /** Every milestone of the catalog after one update, in catalog order. */
  function UpdatedAll(ms: seq<Milestone>, stats: Stats, now: int): (r: seq<Milestone>)
    ensures |r| == |ms| && forall i :: 0 <= i < |ms| ==> r[i] == UpdateOne(ms[i], stats, now)
  {
    seq(|ms|, i requires 0 <= i < |ms| => UpdateOne(ms[i], stats, now))
  }

  /** The events of one update: each milestone that first reaches its target, as updated, in order. */
  function CompletionEvents(ms: seq<Milestone>, stats: Stats, now: int): (r: seq<Milestone>)
    ensures |r| <= |ms|
    ensures IsSubseq(r, UpdatedAll(ms, stats, now))
    ensures forall x :: x in r <==> exists i :: 0 <= i < |ms| && Fires(ms[i], stats) && x == UpdateOne(ms[i], stats, now)
    ensures (forall i :: 0 <= i < |ms| ==> !Fires(ms[i], stats)) ==> r == []
  {
    if |ms| == 0 then []
    else
      var rest := CompletionEvents(ms[1..], stats, now);
      var r := if Fires(ms[0], stats) then [UpdateOne(ms[0], stats, now)] + rest else rest;
      var u := UpdatedAll(ms, stats, now);
      assert u[1..] == UpdatedAll(ms[1..], stats, now);
      assert IsSubseq(r, u) by {
        if Fires(ms[0], stats) {
          assert r[0] == u[0] && r[1..] == rest;
        }
      }
      forall x ensures x in r <==> exists i :: 0 <= i < |ms| && Fires(ms[i], stats) && x == UpdateOne(ms[i], stats, now) {
        if x in rest {
          var j :| 0 <= j < |ms| - 1 && Fires(ms[1..][j], stats) && x == UpdateOne(ms[1..][j], stats, now);
          assert ms[1..][j] == ms[j + 1];
        }
        if exists i :: 0 <= i < |ms| && Fires(ms[i], stats) && x == UpdateOne(ms[i], stats, now) {
          var i :| 0 <= i < |ms| && Fires(ms[i], stats) && x == UpdateOne(ms[i], stats, now);
          if i > 0 {
            assert ms[1..][i - 1] == ms[i];
          }
        }
      }
      r
  }

  /** `updateProgress` over the whole catalog. */
  function UpdateProgress(ms: seq<Milestone>, stats: Stats, now: int): (r: Progressed)
    ensures |r.milestones| == |ms|
    ensures forall i :: 0 <= i < |ms| ==> r.milestones[i] == UpdateOne(ms[i], stats, now)
    ensures forall i :: 0 <= i < |ms| ==> (r.milestones[i].isCompleted <==> r.milestones[i].currentValue >= r.milestones[i].targetValue)
    ensures forall x :: x in r.completed <==> exists i :: 0 <= i < |ms| && Fires(ms[i], stats) && x == r.milestones[i]
    ensures IsSubseq(r.completed, r.milestones)
  {
    Progressed(UpdatedAll(ms, stats, now), CompletionEvents(ms, stats, now))
  }

  /** The update leaves every milestone's identity and the catalog's order alone. */
  lemma UpdateKeepsCatalog(ms: seq<Milestone>, stats: Stats, now: int)
    ensures var r := UpdateProgress(ms, stats, now).milestones;
      |r| == |ms| && forall i :: 0 <= i < |ms| ==> SameIdentity(r[i], ms[i])
  {
  }

  /** The update keeps consistent milestones consistent. */
  lemma UpdateKeepsConsistent(ms: seq<Milestone>, stats: Stats, now: int)
    requires forall i :: 0 <= i < |ms| ==> Consistent(ms[i])
    ensures var r := UpdateProgress(ms, stats, now).milestones;
      forall i :: 0 <= i < |r| ==> Consistent(r[i])
  {
  }

  /**
   * A second update with the same statistics fires nothing and changes
   * nothing, whatever the clock says.
   */
  lemma UpdateIdempotent(ms: seq<Milestone>, stats: Stats, now: int, later: int)
    ensures var once := UpdateProgress(ms, stats, now).milestones;
      UpdateProgress(once, stats, later) == Progressed(once, [])
  {
    var once := UpdateProgress(ms, stats, now).milestones;
    var twice := UpdateProgress(once, stats, later);
    forall i | 0 <= i < |once| ensures twice.milestones[i] == once[i] && !Fires(once[i], stats) {
      assert once[i] == UpdateOne(ms[i], stats, now);
    }
    assert twice.milestones == once;
    assert twice.completed == CompletionEvents(once, stats, later);
  }

  // ------------------------------------------------------------- queries

  /** `completedMilestones`: the completed ones, in catalog order. */
  function CompletedMilestones(ms: seq<Milestone>): (r: seq<Milestone>)
    ensures forall x :: x in r <==> x in ms && x.isCompleted
    ensures forall x :: multiset(r)[x] == if x.isCompleted then multiset(ms)[x] else 0
    ensures IsSubseq(r, ms)
  {
    var p := (m: Milestone) => m.isCompleted;
    forall x ensures x in Filter(ms, p) <==> x in ms && p(x) {
      FilterMember(ms, p, x);
    }
    Filter(ms, p)
  }

  /** `activeMilestones`: the incomplete ones, sorted by ascending target. */
  function ActiveMilestones(ms: seq<Milestone>): (r: seq<Milestone>)
    ensures forall x :: x in r <==> x in ms && !x.isCompleted
    ensures forall i, j :: 0 <= i < j < |r| ==> r[i].targetValue <= r[j].targetValue
    ensures multiset(r) == multiset(Filter(ms, (m: Milestone) => !m.isCompleted))
  {
    var p := (m: Milestone) => !m.isCompleted;
    var active := Filter(ms, p);
    var r := SortBy(active, (m: Milestone) => m.targetValue);
    forall x ensures x in r <==> x in ms && !x.isCompleted {
      FilterMember(ms, p, x);
      assert x in r <==> x in multiset(r);
      assert x in active <==> x in multiset(active);
    }
    r
  }

  /** `nextMilestone`: an incomplete milestone of least target, if any. */
  function NextMilestone(ms: seq<Milestone>): (r: Option<Milestone>)
    ensures r.None? <==> forall x :: x in ms ==> x.isCompleted
    ensures r.Some? ==> r.value in ms && !r.value.isCompleted
    ensures r.Some? ==> forall x :: x in ms && !x.isCompleted ==> r.value.targetValue <= x.targetValue
  {
    var active := ActiveMilestones(ms);
    ActiveHeadIsLeast(ms, active);
    if |active| == 0 then None else Some(active[0])
  }

  /** The first active milestone is an incomplete one of least target; no active ones means all are complete. */
  lemma ActiveHeadIsLeast(ms: seq<Milestone>, active: seq<Milestone>)
    requires active == ActiveMilestones(ms)
    ensures |active| == 0 <==> forall x :: x in ms ==> x.isCompleted
    ensures |active| > 0 ==> active[0] in ms && !active[0].isCompleted
    ensures |active| > 0 ==> forall x :: x in ms && !x.isCompleted ==> active[0].targetValue <= x.targetValue
  {
    if |active| > 0 {
      assert active[0] in active;
      forall x | x in ms && !x.isCompleted ensures active[0].targetValue <= x.targetValue {
        assert x in active;
        var j :| 0 <= j < |active| && active[j] == x;
      }
    } else {
      forall x | x in ms ensures x.isCompleted {
        assert x !in active;
      }
    }
  }

  /**
   * `recentlyCompleted(within:)`: completed milestones whose completion date
   * is no earlier than `days` days before now.
   */
  function RecentlyCompleted(ms: seq<Milestone>, now: int, days: int): (r: seq<Milestone>)
    ensures forall x :: x in r <==> x in ms && x.isCompleted && x.completedDate.Some? && x.completedDate.value >= now - days * SecondsPerDay
    ensures forall x :: multiset(r)[x] == if x.isCompleted && x.completedDate.Some? && x.completedDate.value >= now - days * SecondsPerDay
                          then multiset(ms)[x] else 0
    ensures IsSubseq(r, CompletedMilestones(ms))
  {
    var cutoff := now - days * SecondsPerDay;
    var completed := CompletedMilestones(ms);
    var p := (m: Milestone) => m.completedDate.Some? && m.completedDate.value >= cutoff;
    forall x ensures x in Filter(completed, p) <==> x in completed && p(x) {
      FilterMember(completed, p, x);
    }
    Filter(completed, p)
  }

  /** The default window of `recentlyCompleted` is seven days. */
  const DefaultRecentDays: int := 7

  // ---------------------------------------------------------- management

  /** `addCustomMilestone`: appended at the end. */
  function AddCustomMilestone(ms: seq<Milestone>, m: Milestone): (r: seq<Milestone>)
    ensures |r| == |ms| + 1 && r[..|ms|] == ms && r[|ms|] == m
  {
    ms + [m]
  }

  /** `deleteMilestone`: every entry with that id goes; the rest keep their order and their number of copies. */
  function DeleteMilestone(ms: seq<Milestone>, id: int): (r: seq<Milestone>)
    ensures forall x :: x in r <==> x in ms && x.id != id
    ensures forall x :: multiset(r)[x] == if x.id != id then multiset(ms)[x] else 0
    ensures IsSubseq(r, ms)
  {
    var p := (m: Milestone) => m.id != id;
    forall x ensures x in Filter(ms, p) <==> x in ms && p(x) {
      FilterMember(ms, p, x);
    }
    Filter(ms, p)
  }

  /** Deleting a freshly added milestone restores the catalog. */
  lemma DeleteUndoesAdd(ms: seq<Milestone>, m: Milestone)
    requires forall x :: x in ms ==> x.id != m.id
    ensures DeleteMilestone(AddCustomMilestone(ms, m), m.id) == ms
  {
    var p := (x: Milestone) => x.id != m.id;
    FilterAppend(ms, [m], p);
    FilterAll(ms, p);
    assert Filter([m], p) == [];
  }

  // -------------------------------------------------------------- set up

  /** `loadMilestones`: the fetched catalog sorted by target, or empty when the fetch fails. */
  function LoadMilestones(fetched: Option<seq<Milestone>>): (r: seq<Milestone>)
    ensures fetched.None? ==> r == []
    ensures fetched.Some? ==> multiset(r) == multiset(fetched.value)
    ensures forall i, j :: 0 <= i < j < |r| ==> r[i].targetValue <= r[j].targetValue
  {
    match fetched
    case None => []
    case Some(stored) => SortBy(stored, (m: Milestone) => m.targetValue)
  }

  /** `setupDefaultMilestones`: seeds the defaults only into an empty catalog. */
  function SetupDefaultMilestones(ms: seq<Milestone>): (r: seq<Milestone>)
    ensures |r| > 0
    ensures |ms| > 0 ==> r == ms
  {
    if |ms| == 0 then DefaultMilestones() else ms
  }

  /** Start-up: load, then seed. */
  function InitMilestones(fetched: Option<seq<Milestone>>): (r: seq<Milestone>)
    ensures |r| > 0
  {
    SetupDefaultMilestones(LoadMilestones(fetched))
  }

  /** Seeding twice is seeding once. */
  lemma SetupIdempotent(ms: seq<Milestone>)
    ensures SetupDefaultMilestones(SetupDefaultMilestones(ms)) == SetupDefaultMilestones(ms)
  {
  }

  /** A failed or empty load starts from the seven defaults, all consistent. */
  lemma InitFromNothing(fetched: Option<seq<Milestone>>)
    requires fetched.None? || fetched == Some([])
    ensures InitMilestones(fetched) == DefaultMilestones()
    ensures forall i :: 0 <= i < 7 ==> Consistent(InitMilestones(fetched)[i])
  {
    if fetched.Some? {
      assert multiset(LoadMilestones(fetched)) == multiset{};
    }
  }

  /**
   * The first recorded session completes "First Steps" (and only it) on a
   * fresh catalog: one completion event, dated now.
   */
  lemma FirstSessionCompletesFirstSteps(now: int, minutes: int)
    requires 0 <= minutes < 600
    ensures var r := UpdateProgress(DefaultMilestones(), Stats(1, minutes, 1, 1, minutes, minutes), now);
      && r.milestones[0].isCompleted
      && r.milestones[0].completedDate == Some(now)
      && (forall i :: 1 <= i < 7 ==> !r.milestones[i].isCompleted)
      && r.completed == [r.milestones[0]]
  {
    var ds := DefaultMilestones();
    var stats := Stats(1, minutes, 1, 1, minutes, minutes);
    OnlyFirstStepsReached(stats);
    OnlyFirstFires(ds, stats, now);
  }

  /** With one session, a one-day streak and under ten hours, only "First Steps" of the catalog fires. */
  lemma OnlyFirstStepsReached(stats: Stats)
    requires stats.totalSessions == 1 && stats.currentStreak == 1 && stats.longestStreak == 1
    requires 0 <= stats.totalMinutes < 600
    ensures Fires(DefaultMilestones()[0], stats)
    ensures forall i :: 1 <= i < |DefaultMilestones()| ==> !Fires(DefaultMilestones()[i], stats)
  {
    DefaultMilestoneTargets();
  }

  /** When only the first milestone fires, it is the one completion event. */
  lemma OnlyFirstFires(ms: seq<Milestone>, stats: Stats, now: int)
    requires |ms| > 0 && Fires(ms[0], stats)
    requires forall i :: 1 <= i < |ms| ==> !Fires(ms[i], stats)
    ensures var r := UpdateProgress(ms, stats, now);
      && r.milestones[0].isCompleted
      && r.milestones[0].completedDate == Some(now)
      && (forall i :: 1 <= i < |ms| ==> !r.milestones[i].isCompleted || ms[i].isCompleted)
      && r.completed == [r.milestones[0]]
  {
    var r := UpdateProgress(ms, stats, now);
    var rest := CompletionEvents(ms[1..], stats, now);
    assert forall i :: 0 <= i < |ms| - 1 ==> !Fires(ms[1..][i], stats) by {
      forall i | 0 <= i < |ms| - 1 ensures !Fires(ms[1..][i], stats) {
        assert ms[1..][i] == ms[i + 1];
      }
    }
    assert r.completed == [UpdateOne(ms[0], stats, now)] + rest;
  }
}
