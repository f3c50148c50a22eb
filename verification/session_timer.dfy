/**
 * The session timer: the configuration picked before a session, the
 * countdown state, and the transitions the timer screen fires.
 *
 * The repeating one-second timer is not modelled as a clock: each firing of
 * its closure is the `Tick` step, which the screen can deliver only while the
 * timer is scheduled, i.e. while `isRunning` holds. `now` and the identifier of
 * a new session record are parameters.
 */
module SessionTimer {
  import opened Wrappers
  import opened DataModels
  import opened Numbers

  datatype Config = Config(hours: int, minutes: int, warmupSeconds: int, sessionType: SessionType)

  datatype Timer = Timer(
    config: Config,
    isRunning: bool,
    timeRemaining: int,
    sessionStartTime: Option<int>,
    sessionCompleted: bool,
    timerFinished: bool)

  /** The coordinator as constructed: 10 minutes, no warm-up, mindfulness, idle. */
  const InitialTimer: Timer :=
    Timer(Config(0, 10, 0, Mindfulness), false, 600, None, false, false)

  /** Seconds of meditation proper, after the warm-up. */
  function MainSeconds(c: Config): int {
    c.hours * 3600 + c.minutes * 60
  }

  /** Seconds counted down in total: the meditation plus the warm-up that precedes it. */
  function TotalDuration(c: Config): int {
    MainSeconds(c) + c.warmupSeconds
  }

  /** The countdown is still inside the leading warm-up. */
  predicate IsInWarmupPhase(t: Timer) {
    t.config.warmupSeconds > 0 && t.timeRemaining > MainSeconds(t.config)
  }

  // ---------------------------------------------------------------- invariant

  /** The picker ranges never produce negative values. */
  predicate ConfigInRange(c: Config) {
    c.hours >= 0 && c.minutes >= 0 && c.warmupSeconds >= 0
  }

  /** The states the timer screen can reach. */
  predicate Valid(t: Timer) {
    && ConfigInRange(t.config)
    && (t.sessionStartTime.None? ==> !t.isRunning && !t.sessionCompleted && !t.timerFinished)
    && (t.sessionStartTime.Some? ==> 0 <= t.timeRemaining <= TotalDuration(t.config))
    && (t.isRunning ==> !t.timerFinished && !t.sessionCompleted)
    && (t.timerFinished ==> t.timeRemaining == 0 && !t.isRunning)
  }

  lemma InitialTimerValid()
    ensures Valid(InitialTimer) && InitialTimer.timeRemaining == TotalDuration(InitialTimer.config)
  {
  }

  // -------------------------------------------------------------- transitions

  /** `startSession`: stamps the start time, loads the full duration and runs. No guard. */
  function StartSession(t: Timer, now: int): (r: Timer)
    ensures r.sessionStartTime == Some(now) && r.isRunning
    ensures r.timeRemaining == TotalDuration(t.config)
    ensures r.config == t.config
    ensures r.sessionCompleted == t.sessionCompleted && r.timerFinished == t.timerFinished
  {
    t.(sessionStartTime := Some(now), timeRemaining := TotalDuration(t.config), isRunning := true)
  }

  /**
   * Start with the guard the app documents for `startSession`: a zero total
   * duration is refused and nothing starts. The source has no such guard;
   * the timer screen uses this one (see `SessionTimerView.Apply`).
   */
  function StartChecked(t: Timer, now: int): (r: Option<Timer>)
    ensures r.None? <==> TotalDuration(t.config) == 0
    ensures r.Some? ==> r.value == StartSession(t, now)
    ensures r.Some? && ConfigInRange(t.config) ==> r.value.timeRemaining > 0
  {
    if TotalDuration(t.config) == 0 then None else Some(StartSession(t, now))
  }

  /** `timerCompleted`: the countdown has run out; stop and offer Finish/Discard. */
  function TimerCompleted(t: Timer): Timer {
    t.(isRunning := false, timerFinished := true)
  }

  /**
   * One firing of the one-second timer. It counts down while time remains;
   * the firing that finds nothing left completes the timer, so completion
   * comes one tick after the display reaches zero.
   */
  function Tick(t: Timer): (r: Timer)
    requires t.isRunning
    ensures t.timeRemaining > 0 ==> r == t.(timeRemaining := t.timeRemaining - 1)
    ensures t.timeRemaining <= 0 ==>
      r == t.(isRunning := false, timerFinished := true) && r.timeRemaining == t.timeRemaining
  {
    if t.timeRemaining > 0 then t.(timeRemaining := t.timeRemaining - 1) else TimerCompleted(t)
  }

  /** `pauseSession`: stops the countdown, keeps the remaining time. No guard. */
  function PauseSession(t: Timer): (r: Timer)
    ensures !r.isRunning && r.timeRemaining == t.timeRemaining
    ensures r.(isRunning := t.isRunning) == t
  {
    t.(isRunning := false)
  }

  /** `resumeSession`: restarts the countdown from the remaining time. No guard. */
  function ResumeSession(t: Timer): (r: Timer)
    ensures r.isRunning && r.timeRemaining == t.timeRemaining
    ensures r.(isRunning := t.isRunning) == t
  {
    t.(isRunning := true)
  }

  datatype Finished = Finished(timer: Timer, record: Option<Session>)

  /**
   * `finishSession`: when a session was started, records it (dated at the
   * start, lasting the counted-down seconds but at least a minute, marked
   * completed) and marks the timer completed; otherwise changes nothing.
   */
  function FinishSession(t: Timer, now: int, id: int): (r: Finished)
    ensures t.sessionStartTime.None? ==> r == Finished(t, None)
    ensures t.sessionStartTime.Some? ==>
      && r.record.Some?
      && r.record.value.id == id
      && r.record.value.date == t.sessionStartTime.value
      && r.record.value.duration == Max(TotalDuration(t.config) - t.timeRemaining, 60)
      && r.record.value.duration >= 60
      && r.record.value.sessionType == t.config.sessionType
      && r.record.value.isCompleted
      && r.record.value.startTime == t.sessionStartTime
      && r.record.value.endTime == Some(now)
      && r.timer == t.(isRunning := false, sessionCompleted := true)
  {
    match t.sessionStartTime
    case None => Finished(t, None)
    case Some(start) =>
      var elapsed := Max(TotalDuration(t.config) - t.timeRemaining, 60);
      var record := Session(id, start, elapsed, t.config.sessionType, "", [], true,
                            Some(start), Some(now), None);
      Finished(t.(isRunning := false, sessionCompleted := true), Some(record))
  }

  /** `resetSession`: back to idle with the full duration loaded; configuration untouched. */
  function ResetSession(t: Timer): (r: Timer)
    ensures r.config == t.config
    ensures r.sessionStartTime.None? && !r.isRunning && !r.sessionCompleted && !r.timerFinished
    ensures r.timeRemaining == TotalDuration(t.config)
    ensures ConfigInRange(t.config) ==> Valid(r)
  {
    t.(isRunning := false, sessionStartTime := None, timeRemaining := TotalDuration(t.config),
       sessionCompleted := false, timerFinished := false)
  }

  /**
   * `discardSession`: the counterpart of finishing that saves nothing. The
   * timer goes back to idle with the full duration loaded and the
   * configuration kept, and no record is produced.
   */
  function DiscardSession(t: Timer): (r: Finished)
    ensures r.record.None?
    ensures r.timer.config == t.config
    ensures r.timer.sessionStartTime.None? && !r.timer.isRunning
    ensures !r.timer.sessionCompleted && !r.timer.timerFinished
    ensures r.timer.timeRemaining == TotalDuration(t.config)
    ensures ConfigInRange(t.config) ==> Valid(r.timer)
  {
    Finished(ResetSession(t), None)
  }

  /** What `continueAfterSession` leaves behind: the timer, and whether it asked to show the Sessions tab. */
  datatype Continued = Continued(timer: Timer, navigateToSessions: bool)

  /**
   * `continueAfterSession`: after a finished session, back to idle with the
   * full duration loaded and the configuration kept, then a request to show
   * the Sessions tab.
   */
  function ContinueAfterSession(t: Timer): (r: Continued)
    ensures r.timer.config == t.config
    ensures r.timer.sessionStartTime.None? && !r.timer.isRunning
    ensures !r.timer.sessionCompleted && !r.timer.timerFinished
    ensures r.timer.timeRemaining == TotalDuration(t.config)
    ensures r.navigateToSessions
  {
    Continued(ResetSession(t), true)
  }

  /** A step of a running session from the coordinator's side: some firings, a pause or a resume. */
  datatype Step = Fire(n: nat) | Pause | Resume

  /** Applies the steps in order; none of them starts, finishes or resets a session. */
  function Run(t: Timer, steps: seq<Step>): Timer
    decreases |steps|
  {
    if |steps| == 0 then t
    else
      var next := match steps[0]
        case Fire(n) => Advance(t, n)
        case Pause => PauseSession(t)
        case Resume => ResumeSession(t);
      Run(next, steps[1..])
  }

  /** No firing, pause or resume touches the configuration, the start time or the completed flag. */
  lemma {:induction false} RunKeepsSetup(t: Timer, steps: seq<Step>)
    ensures Run(t, steps).config == t.config
    ensures Run(t, steps).sessionStartTime == t.sessionStartTime
    ensures Run(t, steps).sessionCompleted == t.sessionCompleted
    decreases |steps|
  {
    if |steps| > 0 {
      var next := match steps[0]
        case Fire(n) => Advance(t, n)
        case Pause => PauseSession(t)
        case Resume => ResumeSession(t);
      RunKeepsSetup(next, steps[1..]);
    }
  }

  /**
   * Discarding undoes a session: started from idle and taken through any
   * firings, pauses and resumes, a discard leaves the timer as it was before
   * the start, with the duration reloaded.
   */
  lemma DiscardUndoesStart(t: Timer, now: int, steps: seq<Step>)
    requires Valid(t) && t.sessionStartTime.None?
    ensures DiscardSession(Run(StartSession(t, now), steps)) == Finished(UpdateTimeRemaining(t), None)
  {
    RunKeepsSetup(StartSession(t, now), steps);
  }

  /**
   * Continuing after a finished session returns to the idle timer before the
   * start, with the duration reloaded, and asks for the Sessions tab.
   */
  lemma ContinueAfterFinish(t: Timer, now: int, steps: seq<Step>, later: int, id: int)
    requires Valid(t) && t.sessionStartTime.None?
    ensures var f := FinishSession(Run(StartSession(t, now), steps), later, id);
      f.record.Some? && ContinueAfterSession(f.timer) == Continued(UpdateTimeRemaining(t), true)
  {
    RunKeepsSetup(StartSession(t, now), steps);
  }

  /** `updateTimeRemaining`: reloads the full duration, but only before a session starts. */
  function UpdateTimeRemaining(t: Timer): (r: Timer)
    ensures t.sessionStartTime.None? ==> r == t.(timeRemaining := TotalDuration(t.config))
    ensures t.sessionStartTime.Some? ==> r == t
  {
    if t.sessionStartTime.None? then t.(timeRemaining := TotalDuration(t.config)) else t
  }

  // ------------------------------------------------------------ derived values

  /** `playButtonIcon`. */
  function PlayButtonIcon(t: Timer): string {
    if t.sessionStartTime.None? || (!t.isRunning && !t.sessionCompleted) then "play.fill" else "pause.fill"
  }

  /** In a reachable state that is not completed, the icon shows pause exactly while running. */
  lemma PlayButtonIconShowsRunning(t: Timer)
    requires Valid(t) && !t.sessionCompleted
    ensures PlayButtonIcon(t) == "pause.fill" <==> t.isRunning
  {
  }

  /**
   * `progressValue`: elapsed over total, as an exact ratio. The source divides
   * without a zero check, and 0 / 0 is not a number, so a non-zero total is
   * required; in every reachable started state the ratio lies in [0, 1].
   */
  function ProgressValue(t: Timer): (r: real)
    requires TotalDuration(t.config) != 0
    ensures Valid(t) && t.sessionStartTime.Some? ==> 0.0 <= r <= 1.0
    ensures r * TotalDuration(t.config) as real == (TotalDuration(t.config) - t.timeRemaining) as real
  {
    var total := TotalDuration(t.config);
    var r := (total - t.timeRemaining) as real / total as real;
    ElapsedFraction(total - t.timeRemaining, total);
    r
  }

  /** An elapsed part of a non-zero total, as a fraction: it scales back, and lies in [0, 1] when the part does. */
  lemma ElapsedFraction(elapsed: int, total: int)
    requires total != 0
    ensures (elapsed as real / total as real) * total as real == elapsed as real
    ensures 0 <= elapsed <= total ==> 0.0 <= elapsed as real / total as real <= 1.0
  {
  }

  // --------------------------------------------------------------- countdown

  /**
   * Delivers up to `k` timer firings. Firings stop once the timer is no longer
   * running, as the invalidated Timer delivers none.
   */
  function Advance(t: Timer, k: nat): (r: Timer)
    ensures r.config == t.config && r.sessionStartTime == t.sessionStartTime
    ensures r.sessionCompleted == t.sessionCompleted
    ensures r.timeRemaining <= t.timeRemaining
    ensures t.isRunning && 0 <= t.timeRemaining < k ==> !r.isRunning && r.timerFinished
    decreases k
  {
    if k == 0 || !t.isRunning then t else Advance(Tick(t), k - 1)
  }

  /** While time remains, each firing takes exactly one second off and changes nothing else. */
  lemma {:induction false} AdvanceCountsDown(t: Timer, k: nat)
    requires t.isRunning && k <= t.timeRemaining
    ensures Advance(t, k) == t.(timeRemaining := t.timeRemaining - k)
    decreases k
  {
    if k > 0 {
      AdvanceCountsDown(Tick(t), k - 1);
    }
  }

  /** Firings can be delivered in two batches. */
  lemma {:induction false} AdvanceSplit(t: Timer, a: nat, b: nat)
    ensures Advance(t, a + b) == Advance(Advance(t, a), b)
    decreases a
  {
    if a > 0 && t.isRunning {
      AdvanceSplit(Tick(t), a - 1, b);
    }
  }

  /**
   * A running timer with `n` seconds left reaches zero after `n` firings, still
   * running, and is finished by firing `n + 1`, with nothing left.
   */
  lemma AdvanceFinishes(t: Timer)
    requires t.isRunning && t.timeRemaining >= 0
    ensures Advance(t, t.timeRemaining) == t.(timeRemaining := 0)
    ensures Advance(t, t.timeRemaining + 1)
      == t.(timeRemaining := 0, isRunning := false, timerFinished := true)
  {
    AdvanceCountsDown(t, t.timeRemaining);
    AdvanceSplit(t, t.timeRemaining, 1);
  }

  /** A paused timer receives no firings: any number of them leaves it as it is. */
  lemma StoppedTimerIgnoresTicks(t: Timer, k: nat)
    requires !t.isRunning
    ensures Advance(t, k) == t
  {
  }

  /**
   * After starting a session with a warm-up of `w` seconds, the warm-up phase
   * holds exactly for the first `w` seconds of the countdown.
   */
  lemma WarmupPhaseSpan(t: Timer, now: int, k: nat)
    requires ConfigInRange(t.config) && k <= TotalDuration(t.config)
    ensures IsInWarmupPhase(Advance(StartSession(t, now), k)) <==> k < t.config.warmupSeconds
  {
    AdvanceCountsDown(StartSession(t, now), k);
  }
}
