/**
 * The timer screen's control logic: which button fires which transition in
 * which state, when the configuration section is shown, the duration sheet's
 * Save guard and the warm-up labels. The transitions themselves have no
 * guards; this table is what keeps the timer in its reachable states.
 */
module SessionTimerView {
  import opened Wrappers
  import opened Text
  import opened DataModels
  import opened Numbers
  import opened SessionTimer

  // ------------------------------------------------------------ guard table

  /** What occupies the primary button slot. */
  datatype PrimarySlot = ContinueButton | EmptySlot | PlayPauseButton

  function PrimarySlotOf(t: Timer): PrimarySlot {
    if t.sessionCompleted then ContinueButton
    else if t.timerFinished then EmptySlot
    else PlayPauseButton
  }

  datatype PlayPauseAction = StartAction | PauseAction | ResumeAction

  /** The transition the play/pause button fires. */
  function PlayPauseActionOf(t: Timer): PlayPauseAction {
    if t.sessionStartTime.None? then StartAction
    else if t.isRunning then PauseAction
    else ResumeAction
  }

  /** The Finish and Discard buttons are shown. */
  predicate FinishDiscardShown(t: Timer) {
    t.sessionStartTime.Some? && !t.isRunning && !t.sessionCompleted
  }

  /** The configuration section (duration, type) is shown instead of the timer. */
  predicate SetupSectionShown(t: Timer) {
    !t.isRunning && t.sessionStartTime.None?
  }

  /** `DurationSelectionView.isDurationValid`: Save is enabled. */
  predicate IsDurationValid(hours: int, minutes: int) {
    hours > 0 || minutes > 0
  }

  /** Warm-up choices offered by the duration sheet. */
  const WarmupPresets: seq<int> := [0, 5, 10, 15, 30, 45, 60, 120, 180, 240, 300]

  /** The timer face shows "Warming up..." instead of the percentage. */
  predicate ShowsWarmupLabel(t: Timer) {
    t.config.warmupSeconds > 0
      && t.timeRemaining > (t.config.hours * 3600 + t.config.minutes * 60)
  }

  /** The face's warm-up label is shown exactly in the coordinator's warm-up phase. */
  lemma WarmupLabelIsWarmupPhase(t: Timer)
    ensures ShowsWarmupLabel(t) <==> IsInWarmupPhase(t)
  {
  }

  /** A saved duration (hours or minutes positive) always gives a positive total. */
  lemma SavedDurationIsPositive(c: Config)
    requires ConfigInRange(c) && IsDurationValid(c.hours, c.minutes)
    ensures TotalDuration(c) >= 60
  {
  }

  // ---------------------------------------------------------------- phases

  datatype Phase = Idle | Running | Paused | TimerFinished | Completed

  /** The phase a reachable timer is in. */
  function PhaseOf(t: Timer): Phase {
    if t.sessionStartTime.None? then Idle
    else if t.sessionCompleted then Completed
    else if t.isRunning then Running
    else if t.timerFinished then TimerFinished
    else Paused
  }

  /**
   * The guard table by phase: play/pause only before the timer finishes, with
   * start when idle, pause when running and resume when paused; Continue only
   * once completed; Finish and Discard exactly when paused or finished; the
   * configuration only when idle.
   */
  lemma ControlsByPhase(t: Timer)
    requires Valid(t)
    ensures PrimarySlotOf(t) == PlayPauseButton <==> PhaseOf(t) in {Idle, Running, Paused}
    ensures PrimarySlotOf(t) == PlayPauseButton ==>
      (PlayPauseActionOf(t) == StartAction <==> PhaseOf(t) == Idle)
      && (PlayPauseActionOf(t) == PauseAction <==> PhaseOf(t) == Running)
      && (PlayPauseActionOf(t) == ResumeAction <==> PhaseOf(t) == Paused)
    ensures PrimarySlotOf(t) == ContinueButton <==> PhaseOf(t) == Completed
    ensures FinishDiscardShown(t) <==> PhaseOf(t) in {Paused, TimerFinished}
    ensures SetupSectionShown(t) <==> PhaseOf(t) == Idle
  {
  }

  // ---------------------------------------------------------------- events

  /** What the user (or the one-second timer) can do on the screen. */
  datatype Event =
    | TapPlayPause(now: int)
    | TapContinue
    | TapFinish(now: int, id: int)
    | TapDiscard
    | TimerFires
    | PickDuration(hours: int, minutes: int, warmupSeconds: int)
    | SaveDuration
    | PickType(sessionType: SessionType)
    | Appear

  /** The event's control is on screen (the timer fires only while scheduled). */
  predicate Enabled(t: Timer, e: Event) {
    match e
    case TapPlayPause(_) => PrimarySlotOf(t) == PlayPauseButton
    case TapContinue => PrimarySlotOf(t) == ContinueButton
    case TapFinish(_, _) => FinishDiscardShown(t)
    case TapDiscard => FinishDiscardShown(t)
    case TimerFires => t.isRunning
    case PickDuration(h, m, w) => SetupSectionShown(t) && 0 <= h <= 23 && 0 <= m <= 59 && w in WarmupPresets
    case SaveDuration => SetupSectionShown(t) && IsDurationValid(t.config.hours, t.config.minutes)
    case PickType(_) => SetupSectionShown(t)
    case Appear => true
  }

  /**
   * The transition an enabled event fires. Picking a duration writes the
   * configuration through its bindings without reloading the remaining time;
   * Save and the screen appearing reload it. Play on an idle timer uses the
   * guarded start, so a zero total leaves the timer idle.
   */
  function Apply(t: Timer, e: Event): Finished
    requires Enabled(t, e)
  {
    match e
    case TapPlayPause(now) =>
      (match PlayPauseActionOf(t)
       case StartAction =>
         (match StartChecked(t, now)
          case None => Finished(t, None)
          case Some(s) => Finished(s, None))
       case PauseAction => Finished(PauseSession(t), None)
       case ResumeAction => Finished(ResumeSession(t), None))
    case TapContinue => Finished(ContinueAfterSession(t).timer, None)
    case TapFinish(now, id) => FinishSession(t, now, id)
    case TapDiscard => DiscardSession(t)
    case TimerFires => Finished(Tick(t), None)
    case PickDuration(h, m, w) =>
      Finished(t.(config := t.config.(hours := h, minutes := m, warmupSeconds := w)), None)
    case SaveDuration => Finished(UpdateTimeRemaining(t), None)
    case PickType(ty) => Finished(t.(config := t.config.(sessionType := ty)), None)
    case Appear => Finished(UpdateTimeRemaining(t), None)
  }

  /**
   * Every enabled event keeps the timer reachable, and only Finish produces a
   * session record.
   */
  lemma ApplyPreservesValid(t: Timer, e: Event)
    requires Valid(t) && Enabled(t, e)
    ensures Valid(Apply(t, e).timer)
    ensures Apply(t, e).record.Some? ==> e.TapFinish?
  {
  }

  /**
   * Finish is offered both after a pause and after the countdown ran out, and
   * in both cases it yields a record and a completed timer.
   */
  lemma FinishFromPausedOrFinished(t: Timer, now: int, id: int)
    requires Valid(t) && PhaseOf(t) in {Paused, TimerFinished}
    ensures Enabled(t, TapFinish(now, id))
    ensures Apply(t, TapFinish(now, id)).record.Some?
    ensures PhaseOf(Apply(t, TapFinish(now, id)).timer) == Completed
  {
  }

  /** While started, the progress ring's value lies in [0, 1]. */
  lemma ProgressInRange(t: Timer)
    requires Valid(t) && t.sessionStartTime.Some? && TotalDuration(t.config) > 0
    ensures 0.0 <= ProgressValue(t) <= 1.0
  {
  }

  // ---------------------------------------------------------- progress text

  /**
   * The ring's "N% complete" text and its accessibility value,
   * `Int(progressValue * 100)`. With a zero total the ratio divides by zero
   * and is not finite, and Swift's `Int(_:)` traps; `None` is that trap.
   */
  function RingPercent(t: Timer): (r: Option<int>)
    ensures r.None? <==> TotalDuration(t.config) == 0
    ensures Valid(t) && t.sessionStartTime.Some? && r.Some? ==>
      0 <= r.value <= 100 && (r.value == 100 <==> t.timeRemaining == 0)
  {
    if TotalDuration(t.config) == 0 then None
    else
      var p := ProgressValue(t);
      if Valid(t) && t.sessionStartTime.Some? then
        PercentOfFraction(p, TotalDuration(t.config), t.timeRemaining);
        Some(TruncReal(p * 100.0))
      else Some(TruncReal(p * 100.0))
  }

  /** A fraction of elapsed time, printed as a truncated percentage, is 100 exactly when nothing remains. */
  lemma PercentOfFraction(p: real, total: int, remaining: int)
    requires total > 0 && 0 <= remaining <= total
    requires p * total as real == (total - remaining) as real
    ensures 0 <= TruncReal(p * 100.0) <= 100
    ensures TruncReal(p * 100.0) == 100 <==> remaining == 0
  {
    if remaining == 0 {
      assert (p - 1.0) * total as real == 0.0;
      assert p == 1.0;
    } else {
      assert (1.0 - p) * total as real == remaining as real;
      assert p < 1.0;
    }
  }

  /** Whenever the timer section is on screen, its percentage can be printed. */
  predicate RingDefined(t: Timer) {
    !SetupSectionShown(t) ==> RingPercent(t).Some?
  }

  /** Every enabled event keeps the printed percentage defined. */
  lemma ApplyKeepsRingDefined(t: Timer, e: Event)
    requires Valid(t) && Enabled(t, e) && RingDefined(t)
    ensures RingDefined(Apply(t, e).timer)
  {
  }

  /** The events can be used in order, each control on screen when it is used. */
  predicate Playable(t: Timer, es: seq<Event>)
    decreases |es|
  {
    |es| == 0 || (Enabled(t, es[0]) && Playable(Apply(t, es[0]).timer, es[1..]))
  }

  /** The timer after a playable sequence of events. */
  function Play(t: Timer, es: seq<Event>): Timer
    requires Playable(t, es)
    decreases |es|
  {
    if |es| == 0 then t else Play(Apply(t, es[0]).timer, es[1..])
  }

  /**
   * With the guarded start the screen never prints a percentage of a zero
   * total: from a reachable state where it is defined, any sequence of events
   * keeps the timer reachable and the percentage defined.
   */
  lemma {:induction false} PlayNeverTraps(t: Timer, es: seq<Event>)
    requires Valid(t) && RingDefined(t) && Playable(t, es)
    ensures Valid(Play(t, es)) && RingDefined(Play(t, es))
    decreases |es|
  {
    if |es| > 0 {
      ApplyPreservesValid(t, es[0]);
      ApplyKeepsRingDefined(t, es[0]);
      PlayNeverTraps(Apply(t, es[0]).timer, es[1..]);
    }
  }

  /** From launch, no sequence of events reaches a screen that traps. */
  lemma NoTrapFromLaunch(es: seq<Event>)
    requires Playable(InitialTimer, es)
    ensures RingDefined(Play(InitialTimer, es))
  {
    InitialTimerValid();
    PlayNeverTraps(InitialTimer, es);
  }

  // ------------------------------------------------------------- scenarios

  /**
   * Ten minutes, no warm-up: after 600 firings the face shows zero and the
   * timer still runs, firing 601 finishes it, and Finish then records 600
   * seconds; Discard instead records nothing.
   */
  lemma TenMinuteSession(now: int, later: int, id: int)
    ensures var c := Config(0, 10, 0, Mindfulness);
      var idle := ResetSession(InitialTimer.(config := c));
      var started := StartSession(idle, now);
      && Advance(started, 600).timeRemaining == 0
      && Advance(started, 600).isRunning
      && PhaseOf(Advance(started, 601)) == TimerFinished
      && FinishSession(Advance(started, 601), later, id).record.value.duration == 600
      && Enabled(Advance(started, 601), TapDiscard)
      && Apply(Advance(started, 601), TapDiscard).record == None
  {
    var c := Config(0, 10, 0, Mindfulness);
    var started := StartSession(ResetSession(InitialTimer.(config := c)), now);
    AdvanceFinishes(started);
  }

  /**
   * The pickers write the configuration directly, so 0 hours, 0 minutes and
   * no warm-up reach the play button although Save would refuse them.
   */
  lemma ZeroDurationReachable(t: Timer, now: int)
    requires Valid(t) && PhaseOf(t) == Idle
    ensures Enabled(t, PickDuration(0, 0, 0))
    ensures var z := Apply(t, PickDuration(0, 0, 0)).timer;
      && Valid(z) && PhaseOf(z) == Idle && TotalDuration(z.config) == 0
      && !Enabled(z, SaveDuration)
      && Enabled(z, TapPlayPause(now))
  {
    assert WarmupPresets[0] == 0;
  }

  /**
   * The coordinator on its own runs a zero-total session: it starts with
   * nothing left, the first firing finishes it, and Finish records the
   * one-minute minimum.
   */
  lemma ZeroDurationSession(z: Timer, now: int, later: int, id: int)
    requires Valid(z) && PhaseOf(z) == Idle && TotalDuration(z.config) == 0
    ensures var s := StartSession(z, now);
      && s.isRunning && s.timeRemaining == 0
      && PhaseOf(Tick(s)) == TimerFinished
      && FinishSession(Tick(s), later, id).record.Some?
      && FinishSession(Tick(s), later, id).record.value.duration == 60
  {
  }

  /**
   * As the source is written, play starts a zero-total session, and the
   * timer section it then shows prints `Int(progressValue * 100)` of 0 / 0,
   * which traps before the first firing.
   */
  lemma ZeroDurationStartTraps(z: Timer, now: int)
    requires Valid(z) && PhaseOf(z) == Idle && TotalDuration(z.config) == 0
    ensures PlayPauseActionOf(z) == StartAction
    ensures var s := StartSession(z, now);
      && !SetupSectionShown(s) && !ShowsWarmupLabel(s) && RingPercent(s).None?
  {
  }

  /** With the guarded start, play on a zero total leaves the timer idle and nothing traps. */
  lemma ZeroDurationNotStarted(z: Timer, now: int)
    requires Valid(z) && PhaseOf(z) == Idle && TotalDuration(z.config) == 0
    ensures Enabled(z, TapPlayPause(now))
    ensures Apply(z, TapPlayPause(now)) == Finished(z, None)
    ensures RingDefined(z)
  {
  }

  /** Pausing after 30 seconds and finishing records the one-minute minimum. */
  lemma ShortSessionRecordsOneMinute(now: int, later: int, id: int)
    ensures var started := StartSession(InitialTimer, now);
      var paused := PauseSession(Advance(started, 30));
      && paused.timeRemaining == 570
      && Advance(paused, 100) == paused
      && FinishSession(paused, later, id).record.Some?
      && FinishSession(paused, later, id).record.value.duration == 60
  {
    var started := StartSession(InitialTimer, now);
    AdvanceCountsDown(started, 30);
    StoppedTimerIgnoresTicks(PauseSession(Advance(started, 30)), 100);
  }

  // ------------------------------------------------------------ warm-up text

  /** `formatWarmupTime`: "None", whole seconds below a minute, whole minutes otherwise. */
  function FormatWarmupTime(seconds: nat): string {
    if seconds == 0 then "None"
    else if seconds < 60 then NatToString(seconds) + "s"
    else NatToString(seconds / 60) + "m"
  }

  /**
   * Two warm-up labels agree exactly when the values are equal below a
   * minute or have the same whole minutes from a minute up.
   */
  lemma WarmupLabelsAgree(a: nat, b: nat)
    ensures FormatWarmupTime(a) == FormatWarmupTime(b) <==>
      (a == b || (a >= 60 && b >= 60 && a / 60 == b / 60))
  {
    var la, lb := FormatWarmupTime(a), FormatWarmupTime(b);
    if !(a == b || (a >= 60 && b >= 60 && a / 60 == b / 60)) {
      if a == 0 {
        assert la[0] == 'N' && IsDigit(lb[0]);
      } else if b == 0 {
        assert lb[0] == 'N' && IsDigit(la[0]);
      } else if a < 60 && b < 60 {
        assert la[..|la| - 1] == NatToString(a) && lb[..|lb| - 1] == NatToString(b);
        if la == lb {
          NatToStringInjective(a, b);
        }
      } else if a >= 60 && b >= 60 {
        assert la[..|la| - 1] == NatToString(a / 60) && lb[..|lb| - 1] == NatToString(b / 60);
        if la == lb {
          NatToStringInjective(a / 60, b / 60);
        }
      } else {
        assert la[|la| - 1] != lb[|lb| - 1];
      }
    }
  }

  /** The sheet's warm-up choices all get distinct labels. */
  lemma WarmupPresetLabelsDistinct()
    ensures forall i, j :: 0 <= i < j < |WarmupPresets| ==>
      FormatWarmupTime(WarmupPresets[i]) != FormatWarmupTime(WarmupPresets[j])
  {
    forall i, j | 0 <= i < j < |WarmupPresets|
      ensures FormatWarmupTime(WarmupPresets[i]) != FormatWarmupTime(WarmupPresets[j])
    {
      WarmupLabelsAgree(WarmupPresets[i], WarmupPresets[j]);
    }
  }
}
