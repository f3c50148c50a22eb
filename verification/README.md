# Mindful Minutes in Dafny

A Dafny model of the logic of Mindful Minutes, an iOS meditation timer and
practice tracker. Two parts of the app are modelled.

- **The session timer.** The timer is a state machine. Its configuration is
  hours, minutes, warm-up seconds and session type. Its runtime state is
  running, time remaining, start time, finished and completed. The model has
  the transitions start, pause, resume, finish, discard, continue, reset and
  reload. The one-second `Timer` closure becomes an explicit `Tick` step, and
  `Advance` delivers several ticks at once. The button table of the timer
  screen decides which transition each control fires. The screen starts a
  session through a guarded start that refuses a zero total (see
  "## Findings"). The clock face, the
  duration label, the VoiceOver text and the warm-up labels are modelled
  with parsers, so that what a label says can be proved.
- **The analytics engine over a snapshot of the session list.** This part
  covers:
  - totals, averages and the today, week and month buckets;
  - the current streak (with its one-day grace for today), the longest
    streak, the streak history and the streak status;
  - milestone progress, with its completion invariant;
  - the profile update rules, including the clamp of the weekly goal;
  - the session store with its filters;
  - the data coordinator, which recomputes the milestones after every change;
  - the view helpers that group, count and lay out sessions.

Timestamps are integer seconds. A day is a fixed 86400 seconds, and the day
of `t` is `t / 86400`. "Now", today's day index, the week bounds and the
month bounds are parameters (`Calendar.Clock`); they stand in for `Date()`
and `Calendar.current`. Persistent stores are in-memory sequences. A failed
fetch is `None`. Identifiers are integers passed in. Doubles are exact
`real` ratios.

Module layout follows the source files, one module per file:

| Module | Models |
|---|---|
| `SessionTimer` | the timer state and its transitions |
| `TimerFormat` | the formatting helpers of the timer |
| `SessionTimerView` | the timer screen's controls |
| `DataModels` | the persisted records |
| `ProgressCalculator` | totals and buckets |
| `StreakCalculator` | streaks |
| `MilestoneManager` | milestones |
| `UserProfileManager` | the profile |
| `SessionRepository` | the session store |
| `SharedEnums` | the session filters |
| `MindfulDataCoordinator` | the coordinator |
| `SessionsView` | the session list |
| `MonthlyCalendar` | the calendar grid |
| `HomeView` | the home screen |

Shared helpers live in `Calendar`, `Text` (numerals, splitting, case, trimming),
`Seqs` (filter, sort, prefix), `Numbers` and `Wrappers`.

Where the app's documented intent and its code disagree, the model follows the code:
- **A zero duration can be started.** `startSession` has no guard, and the
  model's `StartSession` has none either. The duration sheet's pickers write
  the hours, minutes and warm-up straight into the coordinator; the Save
  button's check only disables Save. Picking 0 h, 0 m and no warm-up
  therefore leaves an idle timer with a total of 0 under the play button
  (`ZeroDurationReachable`). The coordinator alone would run that session,
  finish it on the first firing and record the one-minute minimum
  (`ZeroDurationSession`). The app does not get that far: the timer screen
  prints `Int(progressValue * 100)` of 0 / 0 and traps
  (`ZeroDurationStartTraps`). This is the one place where the model departs
  from the code: the screen uses the documented guard (`StartChecked`),
  recorded under "## Findings".
- **A session's duration is counted-down time.** A finished session records
  the seconds counted down, at least 60. It does not record the wall-clock
  time between start and end.
- **Sessions have tags.** The session record declares no `tags` field, but
  the search reads one, so the model's `Session` has `tags: seq<string>`.
- **Clamping is in one place.** The weekly goal is clamped by
  `setWeeklyGoal` and not by `updateProfile`; `UpdateDoesNotClamp` shows the
  difference.
- **Ranges differ at their ends.** `sessionsInDateRange` includes both ends,
  while the calculators use half-open intervals; `DateRangeIncludesWeekEnd`
  shows a session that one counts and the other does not.
- **Completion comes one tick late.** The tick that finds no time left is
  the one that finishes the timer, so completion comes one tick after the
  face shows zero. `AdvanceFinishes` and `TenMinuteSession` state this.

## Model

| member | source | states |
|---|---|---|
| SessionTimer.InitialTimerValid | mindful-minutes/mindful-minutes/SessionCoordinator.swift:7-18 | The coordinator as constructed is idle, in a reachable state, with the full duration of 10 minutes loaded. |
| SessionTimer.StartSession | mindful-minutes/mindful-minutes/SessionCoordinator.swift:35-45 | Start stamps the start time, loads the total duration, including the warm-up, and runs. It leaves the configuration and flags alone and has no guard. |
| SessionTimer.Tick | mindful-minutes/mindful-minutes/SessionCoordinator.swift:115-138 | A firing with time left takes off exactly one second and changes nothing else. A firing that finds nothing left stops the timer and marks it finished, with the remaining time unchanged. |
| SessionTimer.PauseSession | mindful-minutes/mindful-minutes/SessionCoordinator.swift:47-53 | Pause stops the countdown, keeps the remaining time and changes nothing but the running flag. |
| SessionTimer.ResumeSession | mindful-minutes/mindful-minutes/SessionCoordinator.swift:55-61 | Resume restarts the countdown from the remaining time and changes nothing but the running flag. |
| SessionTimer.FinishSession | mindful-minutes/mindful-minutes/SessionCoordinator.swift:63-85 | With a start time, finish yields a completed record. The record is dated at the start, lasts max(total − remaining, 60) ≥ 60 seconds, carries the selected type and ends now. The timer becomes stopped and completed. Without a start time nothing changes and no record is produced. |
| SessionTimer.ResetSession | mindful-minutes/mindful-minutes/SessionCoordinator.swift:104-111 | Reset returns to idle with the full duration loaded, all flags cleared and the configuration untouched. It yields a reachable state. |
| SessionTimer.DiscardSession | mindful-minutes/mindful-minutes/SessionCoordinator.swift:87-93 | Discard saves nothing. The timer is idle again, stopped, with no start time, no flags, the full duration loaded and the configuration kept. |
| SessionTimer.ContinueAfterSession | mindful-minutes/mindful-minutes/SessionCoordinator.swift:95-102 | Continue returns the timer to the same idle state as discard, and asks to show the Sessions tab. |
| SessionTimer.DiscardUndoesStart | mindful-minutes/mindful-minutes/SessionCoordinator.swift:35-93 | Start from idle, then any firings, pauses and resumes, then discard: the timer is back where it was before the start, with the duration reloaded, and nothing is recorded. |
| SessionTimer.ContinueAfterFinish | mindful-minutes/mindful-minutes/SessionCoordinator.swift:35-102 | Start from idle, then any firings, pauses and resumes, then finish: one record is produced. Continue then returns to the timer before the start, with the duration reloaded, and asks for the Sessions tab. |
| SessionTimer.RunKeepsSetup | mindful-minutes/mindful-minutes/SessionCoordinator.swift:47-61 | No firing, pause or resume changes the configuration, the start time or the completed flag. |
| SessionTimer.UpdateTimeRemaining | mindful-minutes/mindful-minutes/SessionCoordinator.swift:142-146 | The total duration is reloaded only before a session starts; a started timer is left as it is. |
| SessionTimer.PlayButtonIconShowsRunning | mindful-minutes/mindful-minutes/SessionCoordinator.swift:194-200 | In a reachable, not-completed state the icon is "pause.fill" exactly while the timer runs. |
| SessionTimer.ProgressValue | mindful-minutes/mindful-minutes/SessionCoordinator.swift:202-205 | The progress ratio times the total is the elapsed time. It lies in [0, 1] in every reachable started state. |
| SessionTimer.StartChecked | mindful-minutes/mindful-minutes/SessionCoordinator.swift:35-45 | The guarded start refuses exactly a zero total. Otherwise it is `startSession`, and for an in-range configuration it starts with time left. |
| SessionTimer.Advance | mindful-minutes/mindful-minutes/SessionCoordinator.swift:115-128 | Firings keep the configuration, the start time and the completed flag, and never add time. When there are more firings than seconds left, the timer ends stopped and finished. |
| SessionTimer.AdvanceCountsDown | mindful-minutes/mindful-minutes/SessionCoordinator.swift:115-122 | While time remains, k firings take off exactly k seconds and change nothing else. |
| SessionTimer.AdvanceSplit | mindful-minutes/mindful-minutes/SessionCoordinator.swift:115-122 | Delivering a + b firings is the same as delivering a, then b. |
| SessionTimer.AdvanceFinishes | mindful-minutes/mindful-minutes/SessionCoordinator.swift:115-138 | A running timer with n seconds left shows 0 after n firings and is still running. Firing n + 1 finishes it. |
| SessionTimer.StoppedTimerIgnoresTicks | mindful-minutes/mindful-minutes/SessionCoordinator.swift:125-128 | A stopped timer receives no firings; any number of them leaves it unchanged. |
| SessionTimer.WarmupPhaseSpan | mindful-minutes/mindful-minutes/SessionCoordinator.swift:28-31 | After a start, the warm-up phase holds exactly for the first w seconds of the countdown, where w is the warm-up. |
| TimerFormat.ClockDecomposition | mindful-minutes/mindful-minutes/SessionCoordinator.swift:164-166 | The hours, minutes-within-hour and seconds-within-minute add back up to the seconds, and the minutes stay below 60. |
| TimerFormat.TimeDisplayRoundTrip | mindful-minutes/mindful-minutes/SessionCoordinator.swift:163-173 | The "HH:MM:SS" or "MM:SS" face reads back to exactly the remaining seconds. |
| TimerFormat.LongDisplayRoundTrip | mindful-minutes/mindful-minutes/SessionCoordinator.swift:168-169 | From one hour up, the three-field face reads back to the seconds. |
| TimerFormat.ShortDisplayRoundTrip | mindful-minutes/mindful-minutes/SessionCoordinator.swift:170-171 | Below one hour, the two-field face reads back to the seconds. |
| TimerFormat.DurationStringRoundTrip | mindful-minutes/mindful-minutes/SessionCoordinator.swift:152-161 | The "Hh Mm" or "Mm" label loses only the seconds: it reads back to the whole minutes. |
| TimerFormat.DurationLabelRoundTrip | mindful-minutes/mindful-minutes/SessionCoordinator.swift:156-160 | A label built from hours and minutes reads back to the minutes they add up to. |
| TimerFormat.TotalDurationLabel | mindful-minutes/mindful-minutes/SessionCoordinator.swift:148-150 | For picker values, the total-duration label names the configured hours and minutes and leaves out the warm-up. |
| TimerFormat.TotalDurationParts | mindful-minutes/mindful-minutes/SessionCoordinator.swift:148-150 | The label of the configured duration is built from exactly the picked hours and minutes. |
| TimerFormat.FormatTimeForVoiceOver | mindful-minutes/mindful-minutes/SessionCoordinator.swift:175-192 | The spoken text is empty exactly for 0 seconds and never starts or ends with a space. |
| TimerFormat.VoiceOverRoundTrip | mindful-minutes/mindful-minutes/SessionCoordinator.swift:175-192 | The spoken text reads back to the hours, the minutes within the hour, and the seconds within the minute when under an hour (0 otherwise). So it says the remaining time exactly below an hour, and the whole minutes from an hour up. |
| TimerFormat.VoiceOverTextReadsBack | mindful-minutes/mindful-minutes/SessionCoordinator.swift:180-191 | For any hours, minutes and seconds, the joined parts read back to those values, with the seconds dropped when there are hours. |
| TimerFormat.VoiceOverText | mindful-minutes/mindful-minutes/SessionCoordinator.swift:180-191 | The trimmed parts are empty exactly when hours, minutes and seconds are all 0. |
| TimerFormat.VoiceOverDropsSecondsWithHours | mindful-minutes/mindful-minutes/SessionCoordinator.swift:187 | From one hour up, the seconds are not spoken: the text equals that of the whole minute. |
| TimerFormat.VoiceOverUnderMinute | mindful-minutes/mindful-minutes/SessionCoordinator.swift:187-188 | Below a minute, the text is "N second(s)" alone. |
| TimerFormat.VoiceOverWholeHours | mindful-minutes/mindful-minutes/SessionCoordinator.swift:181-183 | A whole number of hours is spoken as "N hour(s)" with no trailing space. |
| TimerFormat.CountNounUntrimmed | mindful-minutes/mindful-minutes/SessionCoordinator.swift:191 | Trimming keeps a count and noun intact, and removes the one trailing space after a part. |
| SessionTimerView.WarmupLabelIsWarmupPhase | mindful-minutes/mindful-minutes/SessionTimerView.swift:249-257 | The face shows "Warming up..." exactly in the coordinator's warm-up phase. |
| SessionTimerView.ZeroDurationReachable | mindful-minutes/mindful-minutes/SessionTimerView.swift:73-86 | From any idle timer the pickers can select 0 h and 0 m, and the warm-up 0 is a choice. This leaves a reachable idle timer with a total of 0, which Save refuses while the play button stays on screen. |
| SessionTimerView.ZeroDurationSession | mindful-minutes/mindful-minutes/SessionCoordinator.swift:35-138 | On the coordinator alone, a zero-length session starts with 0 left, finishes on the first firing, and Finish records 60 seconds. |
| SessionTimerView.ZeroDurationStartTraps | mindful-minutes/mindful-minutes/SessionTimerView.swift:249-261 | As written, play starts a zero-total session. The timer section then shows the percentage rather than the warm-up label, and that percentage is `Int` of 0 / 0, a trap. |
| SessionTimerView.ZeroDurationNotStarted | mindful-minutes/mindful-minutes/SessionTimerView.swift:284-291 | With the guarded start, play on a zero total leaves the timer idle and produces no record. |
| SessionTimerView.RingPercent | mindful-minutes/mindful-minutes/SessionTimerView.swift:254-261 | The printed percentage traps exactly for a zero total. In a reachable started state it lies in [0, 100] and is 100 exactly when nothing remains. |
| SessionTimerView.PercentOfFraction | mindful-minutes/mindful-minutes/SessionTimerView.swift:254 | The truncated percentage of an elapsed fraction lies in [0, 100] and is 100 exactly when nothing remains. |
| SessionTimerView.ApplyKeepsRingDefined | mindful-minutes/mindful-minutes/SessionTimerView.swift:43-55 | With the guarded start, no enabled event puts the timer section on screen with a percentage that traps. |
| SessionTimerView.PlayNeverTraps | mindful-minutes/mindful-minutes/SessionTimerView.swift:43-55 | From a reachable state whose percentage is defined, any sequence of enabled events keeps the timer reachable and the percentage defined. |
| SessionTimerView.NoTrapFromLaunch | mindful-minutes/mindful-minutes/SessionTimerView.swift:43-55 | From launch, no sequence of enabled events reaches a timer section whose percentage traps. |
| SessionTimerView.SavedDurationIsPositive | mindful-minutes/mindful-minutes/SessionTimerView.swift:472-474 | A duration the Save button accepts (hours or minutes positive) gives a total of at least 60 seconds. |
| SessionTimerView.ControlsByPhase | mindful-minutes/mindful-minutes/SessionTimerView.swift:264-349 | The controls shown in each reachable state are: (1) play/pause, which fires start when idle, pause when running and resume when paused; (2) Continue, only once completed; (3) Finish and Discard, exactly when paused or finished; (4) the setup section, only when idle. |
| SessionTimerView.ApplyPreservesValid | mindful-minutes/mindful-minutes/SessionTimerView.swift:268-344 | Every event whose control is on screen keeps the timer in a reachable state. Only Finish produces a session record. |
| SessionTimerView.FinishFromPausedOrFinished | mindful-minutes/mindful-minutes/SessionTimerView.swift:311-344 | Finish is offered after a pause and after the countdown ran out. In both cases it records a session and completes the timer. |
| SessionTimerView.ProgressInRange | mindful-minutes/mindful-minutes/SessionCoordinator.swift:202-205 | While a session of positive total length is started, the progress ring's value lies in [0, 1]. |
| SessionTimerView.TenMinuteSession | mindful-minutes/mindful-minutes/SessionCoordinator.swift:115-138 | In a 10-minute session, the face shows 0 after 600 firings with the timer still running, and firing 601 finishes it. Finish then records 600 seconds, while Discard records nothing. |
| SessionTimerView.ShortSessionRecordsOneMinute | mindful-minutes/mindful-minutes/SessionCoordinator.swift:69 | Pausing after 30 seconds ignores later firings. Finishing then records the one-minute minimum. |
| SessionTimerView.WarmupLabelsAgree | mindful-minutes/mindful-minutes/SessionTimerView.swift:615-624 | Two warm-up labels are equal exactly when the values are equal, or when both are at least a minute with the same whole minutes. |
| SessionTimerView.WarmupPresetLabelsDistinct | mindful-minutes/mindful-minutes/SessionTimerView.swift:470 | The duration sheet's warm-up choices all get distinct labels. |
| DataModels.SessionTypeCases | mindful-minutes/mindful-minutes/DataModels.swift:66-74 | There are eight session types, each listed once, with pairwise distinct raw values. |
| DataModels.DisplayName | mindful-minutes/mindful-minutes/DataModels.swift:76-78 | The display name is the type's raw value. It is never empty, and no other type has that raw value. |
| DataModels.DisplayNamesDistinct | mindful-minutes/mindful-minutes/DataModels.swift:76-78 | Distinct session types get distinct display names. |
| DataModels.DurationInMinutes | mindful-minutes/mindful-minutes/DataModels.swift:38-40 | The whole minutes of a session, with the seconds below a minute truncated. |
| DataModels.FormatDuration | mindful-minutes/mindful-minutes/DataModels.swift:42-50 | The text has no colon exactly when the duration is a whole number of minutes. |
| DataModels.FormatDurationRoundTrip | mindful-minutes/mindful-minutes/DataModels.swift:42-50 | "M min" or "M:SS" reads back to exactly the session's seconds. |
| DataModels.CappedRatio | mindful-minutes/mindful-minutes/DataModels.swift:152-155 | min(num / den, 1) is at most 1, non-negative for non-negative num and 0 for a non-positive den. It is 1 exactly when num ≥ den > 0, and below that it is the exact ratio. |
| DataModels.Progress | mindful-minutes/mindful-minutes/DataModels.swift:152-155 | A milestone's progress is in [0, 1] and is 0 for a non-positive target. It is 1 exactly when the target is reached. |
| DataModels.ProgressTextRoundTrip | mindful-minutes/mindful-minutes/DataModels.swift:157-159 | "current/target" reads back to exactly the current and target values. |
| DataModels.DefaultMilestones | mindful-minutes/mindful-minutes/DataModels.swift:182-225 | The seeded catalog has seven entries. Each starts at 0, is not completed, has no date and has a positive target. Their ids are distinct. |
| DataModels.DefaultMilestoneTargets | mindful-minutes/mindful-minutes/DataModels.swift:182-225 | The targets are 1, 7, 25, 600, 30, 100 and 3000, with the listed kinds, in order. |
| DataModels.FirstStepsHeadsCatalog | mindful-minutes/mindful-minutes/DataModels.swift:183-188 | "First Steps" opens the catalog. It is a session count with target 1. |
| DataModels.NewUserProfile | mindful-minutes/mindful-minutes/DataModels.swift:94-118 | A new profile has weekly goal 150, preferred duration 10, types [mindfulness], notifications on and no streak start date. |
| ProgressCalculator.SumMinutesAppend | mindful-minutes/mindful-minutes/ProgressCalculator.swift:15-17 | The minutes of two lists of sessions add up. |
| ProgressCalculator.TotalMinutesBounds | mindful-minutes/mindful-minutes/ProgressCalculator.swift:15-17 | Truncating each session separately loses under a minute per session: total minutes × 60 ≤ summed seconds < (total minutes + count) × 60. |
| ProgressCalculator.TruncationIsPerSession | mindful-minutes/mindful-minutes/ProgressCalculator.swift:15-17 | Two 90-second sessions count 2 minutes, though together they last 3. |
| ProgressCalculator.AverageSessionDuration | mindful-minutes/mindful-minutes/ProgressCalculator.swift:19-22 | The average is the floor of total minutes over the number of sessions, and 0 without sessions. |
| ProgressCalculator.MinutesOnDayIsSessionsOnDay | mindful-minutes/mindful-minutes/ProgressCalculator.swift:25-30 | A day's minutes are the minutes of the sessions dated on that day. |
| ProgressCalculator.TodaysMinutes | mindful-minutes/mindful-minutes/ProgressCalculator.swift:25-30 | Today's minutes never exceed the total minutes. |
| ProgressCalculator.TodaysSessionCount | mindful-minutes/mindful-minutes/ProgressCalculator.swift:32-35 | Today's session count never exceeds the total session count. |
| ProgressCalculator.DayIntervalMinutes | mindful-minutes/mindful-minutes/ProgressCalculator.swift:62-68 | The half-open interval of a day holds exactly that day's minutes. |
| ProgressCalculator.MinutesBetweenSplit | mindful-minutes/mindful-minutes/ProgressCalculator.swift:43-47 | Adjacent half-open intervals split the minutes between them. |
| ProgressCalculator.MinutesOverDays | mindful-minutes/mindful-minutes/ProgressCalculator.swift:60-72 | The minutes over a run of whole days are the sum of the days' minutes. |
| ProgressCalculator.WeeklyProgressOf | mindful-minutes/mindful-minutes/ProgressCalculator.swift:38-51 | The goal is returned unchanged. The percentage lies in [0, 1] and is 0 for a non-positive goal. It is 1 exactly when the goal is met, and below that it is completed / goal. |
| ProgressCalculator.WeeklyData | mindful-minutes/mindful-minutes/ProgressCalculator.swift:53-75 | There are exactly seven entries, one per day from the week's start. Each holds that day's minutes and is marked today exactly on today. |
| ProgressCalculator.WeeklyDataSumsToWeek | mindful-minutes/mindful-minutes/ProgressCalculator.swift:53-75 | On a week starting at midnight, the seven bars add up to the week's completed minutes. |
| ProgressCalculator.WeeklyDataToday | mindful-minutes/mindful-minutes/ProgressCalculator.swift:65-72 | When today is in the week, its bar is marked today and shows today's minutes. |
| ProgressCalculator.MonthlyData | mindful-minutes/mindful-minutes/ProgressCalculator.swift:78-94 | There is one entry per day of the month, holding that day's minutes. Its session flag is set exactly when the minutes are positive. |
| ProgressCalculator.MonthlyDataSumsToMonth | mindful-minutes/mindful-minutes/ProgressCalculator.swift:96-104 | On a month starting at midnight, the days' entries add up to the month's minutes over [start, end). |
| StreakCalculator.Run | mindful-minutes/mindful-minutes/StreakCalculator.swift:19-35 | The run ending at a day covers consecutive session days and stops at the first day without a session. |
| StreakCalculator.RunUnique | mindful-minutes/mindful-minutes/StreakCalculator.swift:19-35 | The run ending at a day is the only count with those two properties. |
| StreakCalculator.CurrentStreak | mindful-minutes/mindful-minutes/StreakCalculator.swift:11-38 | The current streak is the run of session days ending today, or ending yesterday when today has no session yet. |
| StreakCalculator.CountCurrentStreak | mindful-minutes/mindful-minutes/StreakCalculator.swift:19-35 | The walk back from today, which may skip an empty today once, computes exactly the current streak. |
| StreakCalculator.SortedDays | mindful-minutes/mindful-minutes/StreakCalculator.swift:45 | The sessions' days in date order are non-decreasing and are the days of the sessions. |
| StreakCalculator.StepNextDay | mindful-minutes/mindful-minutes/StreakCalculator.swift:56-58 | A session on the day after the latest extends the current run, keeping the scan's summary. |
| StreakCalculator.StepGap | mindful-minutes/mindful-minutes/StreakCalculator.swift:62-66 | A session after a gap closes the run and starts a new one of length 1, keeping the scan's summary. |
| StreakCalculator.ScanInvariant | mindful-minutes/mindful-minutes/StreakCalculator.swift:50-73 | After any prefix of the sorted days, the scan holds the run ending at the latest day and the longest run seen so far. Same-day repeats are ignored. |
| StreakCalculator.LongestStreak | mindful-minutes/mindful-minutes/StreakCalculator.swift:41-76 | The longest streak bounds every run of consecutive session days and is reached by one of them. It is 0 without sessions. |
| StreakCalculator.LongestAtLeastCurrent | mindful-minutes/mindful-minutes/StreakCalculator.swift:11-76 | The current streak never exceeds the longest one. |
| StreakCalculator.LongestPositive | mindful-minutes/mindful-minutes/StreakCalculator.swift:67-75 | Any session makes the longest streak at least one day. |
| StreakCalculator.ThreeConsecutiveDays | mindful-minutes/mindful-minutes/StreakCalculator.swift:41-76 | Sessions on three consecutive days give a longest streak of 3, and a current streak of 3 on the third day. |
| StreakCalculator.EarliestDate | mindful-minutes/mindful-minutes/StreakCalculator.swift:83 | The earliest date is that of some session and is no later than any session's date. |
| StreakCalculator.StreakHistory | mindful-minutes/mindful-minutes/StreakCalculator.swift:79-100 | There is one entry per day from the earliest session's day through today. An entry is marked exactly when a session falls on its day. Without sessions the history is empty. |
| StreakCalculator.HistoryMarksSessionDays | mindful-minutes/mindful-minutes/StreakCalculator.swift:90-97 | Every session day up to today is a marked entry of the history. |
| StreakCalculator.HistoryShowsCurrentStreak | mindful-minutes/mindful-minutes/StreakCalculator.swift:79-100 | Every day of the current streak is a marked entry of the history. |
| StreakCalculator.StreakActiveIffCurrent | mindful-minutes/mindful-minutes/StreakCalculator.swift:102-118 | The streak is active (a session today or yesterday) exactly when the current streak is positive. |
| StreakCalculator.DaysUntilStreakBreaks | mindful-minutes/mindful-minutes/StreakCalculator.swift:120-127 | There is no countdown exactly when today has a session. It is 1 exactly when only yesterday has one, and 0 exactly when the current streak is 0. |
| MilestoneManager.UpdateOne | mindful-minutes/mindful-minutes/MilestoneManager.swift:48-75 | One milestone's update takes the statistic of its kind, using the better streak for streaks. Completion then holds exactly when the target is reached. First reaching the target stamps now. Falling below it clears the date, and staying completed keeps the date. Identity and consistency are kept. |
| MilestoneManager.CompletionEvents | mindful-minutes/mindful-minutes/MilestoneManager.swift:64-69 | The completion events are exactly the milestones that first reach their target, as updated and in catalog order. There are none when nothing fires. |
| MilestoneManager.UpdateProgress | mindful-minutes/mindful-minutes/MilestoneManager.swift:39-79 | Every milestone is updated in place. Afterwards every milestone is completed exactly when it has reached its target. The events are the first completions, in catalog order. |
| MilestoneManager.UpdateKeepsCatalog | mindful-minutes/mindful-minutes/MilestoneManager.swift:47-76 | The update adds, removes and reorders nothing, and changes no title, target or kind. |
| MilestoneManager.UpdateKeepsConsistent | mindful-minutes/mindful-minutes/MilestoneManager.swift:64-75 | A consistent catalog stays consistent: completion matches the value, and a date is present exactly when completed. |
| MilestoneManager.UpdateIdempotent | mindful-minutes/mindful-minutes/MilestoneManager.swift:47-76 | A second update with the same statistics fires nothing and changes nothing, whatever the time. |
| MilestoneManager.CompletedMilestones | mindful-minutes/mindful-minutes/MilestoneManager.swift:82-84 | The result holds exactly the completed milestones, in catalog order. Each kept entry keeps its number of copies. |
| MilestoneManager.ActiveMilestones | mindful-minutes/mindful-minutes/MilestoneManager.swift:86-90 | The result holds exactly the incomplete milestones, as a permutation, sorted by ascending target. |
| MilestoneManager.NextMilestone | mindful-minutes/mindful-minutes/MilestoneManager.swift:92-94 | The result is an incomplete milestone of least target. There is none exactly when all are completed. |
| MilestoneManager.ActiveHeadIsLeast | mindful-minutes/mindful-minutes/MilestoneManager.swift:86-94 | The first active milestone is an incomplete one of least target. There are no active ones exactly when all are completed. |
| MilestoneManager.RecentlyCompleted | mindful-minutes/mindful-minutes/MilestoneManager.swift:96-104 | The result holds exactly the completed milestones whose completion date is no earlier than `days` days ago, in order. Each kept entry keeps its number of copies. |
| MilestoneManager.AddCustomMilestone | mindful-minutes/mindful-minutes/MilestoneManager.swift:107-111 | The new milestone is appended after the unchanged catalog. |
| MilestoneManager.DeleteMilestone | mindful-minutes/mindful-minutes/MilestoneManager.swift:113-117 | Every entry with that id is removed. The others keep their order and their number of copies. |
| MilestoneManager.DeleteUndoesAdd | mindful-minutes/mindful-minutes/MilestoneManager.swift:107-117 | Deleting a just-added milestone with a fresh id restores the catalog. |
| MilestoneManager.LoadMilestones | mindful-minutes/mindful-minutes/MilestoneManager.swift:16-26 | The load returns the fetched catalog sorted by target, or an empty catalog when the fetch fails. |
| MilestoneManager.SetupDefaultMilestones | mindful-minutes/mindful-minutes/MilestoneManager.swift:28-36 | The defaults are seeded only into an empty catalog, which is never left empty. |
| MilestoneManager.SetupIdempotent | mindful-minutes/mindful-minutes/MilestoneManager.swift:28-36 | Seeding twice is seeding once. |
| MilestoneManager.InitMilestones | mindful-minutes/mindful-minutes/MilestoneManager.swift:9-13 | After start-up the catalog is never empty. |
| MilestoneManager.InitFromNothing | mindful-minutes/mindful-minutes/MilestoneManager.swift:9-36 | A failed or empty load starts from the seven defaults, all consistent. |
| MilestoneManager.FirstSessionCompletesFirstSteps | mindful-minutes/mindful-minutes/MilestoneManager.swift:64-69 | On the default catalog, the first session completes "First Steps" and nothing else. This is one completion event, dated now. |
| MilestoneManager.OnlyFirstFires | mindful-minutes/mindful-minutes/MilestoneManager.swift:64-69 | When only the first milestone reaches its target, it is the single completion event. |
| UserProfileManager.DefaultUserProfile | mindful-minutes/mindful-minutes/UserProfileManager.swift:29-38 | The default profile is "Mindful User" at user@mindfulminutes.com, with the initialiser's defaults, joined now. |
| UserProfileManager.LoadUserProfile | mindful-minutes/mindful-minutes/UserProfileManager.swift:15-27 | The first stored profile is loaded, or a default one when none is stored or the fetch fails. Afterwards a profile always exists. |
| UserProfileManager.UpdateProfile | mindful-minutes/mindful-minutes/UserProfileManager.swift:41-61 | Each supplied field replaces the stored one and unsupplied fields stay. The weekly goal is stored unclamped. Without a profile nothing happens. |
| UserProfileManager.UpdateNothing | mindful-minutes/mindful-minutes/UserProfileManager.swift:50-58 | An update that supplies nothing changes nothing. |
| UserProfileManager.UpdateIdempotent | mindful-minutes/mindful-minutes/UserProfileManager.swift:50-58 | Applying the same update twice is applying it once. |
| UserProfileManager.UpdateStreakStartDate | mindful-minutes/mindful-minutes/UserProfileManager.swift:63-66 | When there is a profile, only the streak start date is set or cleared. |
| UserProfileManager.FallbacksMatchDefaults | mindful-minutes/mindful-minutes/UserProfileManager.swift:69-83 | Without a profile, the queries answer goal 150, duration 10, notifications on and 9:00, which is what the default profile holds. |
| UserProfileManager.ToggleNotifications | mindful-minutes/mindful-minutes/UserProfileManager.swift:102-105 | The notification flag is flipped and nothing else changes. |
| UserProfileManager.ToggleTwice | mindful-minutes/mindful-minutes/UserProfileManager.swift:102-105 | Toggling twice restores the profile. |
| UserProfileManager.ClampWeeklyGoal | mindful-minutes/mindful-minutes/UserProfileManager.swift:108 | The goal is clamped into [50, 500]: values inside are unchanged, and values outside go to the nearer bound. |
| UserProfileManager.SetWeeklyGoal | mindful-minutes/mindful-minutes/UserProfileManager.swift:107-110 | Only the goal changes, to the clamped value, when there is a profile. |
| UserProfileManager.SetWeeklyGoalIdempotent | mindful-minutes/mindful-minutes/UserProfileManager.swift:107-110 | Setting the stored goal again changes nothing. |
| UserProfileManager.UpdateDoesNotClamp | mindful-minutes/mindful-minutes/UserProfileManager.swift:54 | For 1000, the update stores 1000 while the setter stores 500. |
| UserProfileManager.AddType | mindful-minutes/mindful-minutes/UserProfileManager.swift:115-117 | The type is appended only when absent, and no duplicates are created. |
| UserProfileManager.RemoveType | mindful-minutes/mindful-minutes/UserProfileManager.swift:122 | Every occurrence is removed. The other types keep their order and their number of copies. |
| UserProfileManager.RemoveUndoesAdd | mindful-minutes/mindful-minutes/UserProfileManager.swift:112-124 | Removing a type that was just added restores a list that lacked it. |
| UserProfileManager.AddPreferredSessionType | mindful-minutes/mindful-minutes/UserProfileManager.swift:112-119 | Only the preferred types change, by `AddType`, when there is a profile. |
| UserProfileManager.AddPreferredIdempotent | mindful-minutes/mindful-minutes/UserProfileManager.swift:112-119 | Adding the same type twice is adding it once. |
| UserProfileManager.RemovePreferredSessionType | mindful-minutes/mindful-minutes/UserProfileManager.swift:121-124 | Only the preferred types change, by `RemoveType`, when there is a profile. |
| SessionRepository.LoadSessions | mindful-minutes/mindful-minutes/SessionRepository.swift:15-25 | The stored sessions are loaded newest first, as a permutation, or none when the fetch fails. |
| SessionRepository.AddSession | mindful-minutes/mindful-minutes/SessionRepository.swift:28-32 | The new session goes to index 0, and the others follow unchanged. |
| SessionRepository.DeleteSession | mindful-minutes/mindful-minutes/SessionRepository.swift:40-44 | Every entry with that id is removed. The others keep their order and their number of copies. |
| SessionRepository.DeleteUndoesAdd | mindful-minutes/mindful-minutes/SessionRepository.swift:28-44 | Deleting a just-added session with a fresh id restores the list. |
| SessionRepository.ReplaceById | mindful-minutes/mindful-minutes/SessionRepository.swift:34-38 | The edited session replaces the entries with its id, and everything else stays in place. |
| SessionRepository.UpdateSession | mindful-minutes/mindful-minutes/SessionRepository.swift:34-38 | After an edit the list is reloaded newest first, as a permutation of the edited store that contains the edit. |
| SessionRepository.FilteredSessions | mindful-minutes/mindful-minutes/SessionRepository.swift:47-81 | The result holds exactly the sessions passing the filter and a non-empty search (type, notes or a tag, ignoring case). It is an order-preserving subsequence, and each kept session keeps its number of copies. `.all` with no search returns the list. |
| SessionRepository.TodaysSessions | mindful-minutes/mindful-minutes/SessionRepository.swift:84-87 | The result holds exactly the sessions dated today, in order. Each kept entry keeps its number of copies. |
| SessionRepository.TodayFilterIsTodaysSessions | mindful-minutes/mindful-minutes/SessionRepository.swift:55-56 | The Today filter without search is `todaysSessions`. |
| SessionRepository.SessionsInDateRange | mindful-minutes/mindful-minutes/SessionRepository.swift:89-93 | The result holds exactly the sessions dated in [from, to], both ends included, in order. Each kept entry keeps its number of copies. |
| SessionRepository.SessionsByType | mindful-minutes/mindful-minutes/SessionRepository.swift:95-97 | The result holds exactly the sessions of that type, in order. Each kept entry keeps its number of copies. |
| SessionRepository.TypeFilterExact | mindful-minutes/mindful-minutes/SessionRepository.swift:65-68 | No type name contains another filter's name, ignoring case. So a type filter's substring test accepts exactly its own type. |
| SessionRepository.TypeFilterIsSessionsByType | mindful-minutes/mindful-minutes/SessionRepository.swift:65-68 | A type filter without search is `sessionsByType` of its type. |
| SharedEnums.FilterCases | mindful-minutes/mindful-minutes/SharedEnums.swift:4-15 | There are exactly eleven filters, each listed once. |
| SharedEnums.FilterSessionType | mindful-minutes/mindful-minutes/SharedEnums.swift:17-28 | A filter has no session type exactly for All, Today, This Week and This Month. |
| SharedEnums.FilterTypeByRawValue | mindful-minutes/mindful-minutes/SharedEnums.swift:9-25 | A filter maps to a type exactly when the type is not custom and has the filter's raw value. |
| MindfulDataCoordinator.CurrentStats | mindful-minutes/mindful-minutes/MindfulDataCoordinator.swift:209-221 | The milestone inputs are the session count, the total minutes, the two streaks (current ≤ longest) and the week's and month's minutes, which never exceed the total. With no sessions all are 0. |
| MindfulDataCoordinator.StatsIgnoreCatalogAndGoal | mindful-minutes/mindful-minutes/MindfulDataCoordinator.swift:44-70 | Every statistic is a function of the session list alone, whatever the profile and milestones. |
| MindfulDataCoordinator.UpdateSettles | mindful-minutes/mindful-minutes/MilestoneManager.swift:48-75 | An update settles a milestone against the statistics, and a settled milestone is a fixed point of the update. |
| MindfulDataCoordinator.Recompute | mindful-minutes/mindful-minutes/MindfulDataCoordinator.swift:209-221 | The milestones come out up to date with the sessions, keeping identity and consistency. Sessions and profile are untouched, and an up-to-date state is left as it is. |
| MindfulDataCoordinator.RecomputeSettles | mindful-minutes/mindful-minutes/MindfulDataCoordinator.swift:209-221 | The updated catalog is settled, and a catalog that was already settled is unchanged. |
| MindfulDataCoordinator.Init | mindful-minutes/mindful-minutes/MindfulDataCoordinator.swift:18-25 | Construction loads the sessions newest first, always has a profile and a non-empty catalog, and leaves the milestones up to date. |
| MindfulDataCoordinator.InitFromNothing | mindful-minutes/mindful-minutes/MindfulDataCoordinator.swift:18-25 | With nothing stored, the coordinator starts with no sessions, the default profile and the untouched default catalog. |
| MindfulDataCoordinator.AddSession | mindful-minutes/mindful-minutes/MindfulDataCoordinator.swift:28-31 | The session goes in front, the profile stays, and the milestones keep their identities and come out up to date. |
| MindfulDataCoordinator.UpdateSession | mindful-minutes/mindful-minutes/MindfulDataCoordinator.swift:33-36 | The store takes the edit and is reloaded newest first, and the milestones come out up to date. |
| MindfulDataCoordinator.DeleteSession | mindful-minutes/mindful-minutes/MindfulDataCoordinator.swift:38-41 | Exactly the sessions with other ids remain, and the milestones come out up to date. |
| MindfulDataCoordinator.DeleteUndoesAdd | mindful-minutes/mindful-minutes/MindfulDataCoordinator.swift:28-41 | Adding then deleting a fresh session restores the sessions and profile. Every milestone shows the original statistics again, so a completion reached meanwhile is undone. |
| MindfulDataCoordinator.UpdateUserProfile | mindful-minutes/mindful-minutes/MindfulDataCoordinator.swift:123-146 | The profile takes the update. Milestones change only when a weekly goal is supplied. |
| MindfulDataCoordinator.GoalChangeMovesNoMilestone | mindful-minutes/mindful-minutes/MindfulDataCoordinator.swift:142-145 | No statistic depends on the goal, so on an up-to-date state the recompute a goal change triggers moves no milestone. |
| MindfulDataCoordinator.WeeklyProgress | mindful-minutes/mindful-minutes/MindfulDataCoordinator.swift:72-74 | The weekly goal is the profile's, or 150 without one. The completed minutes are the milestone input, and the percentage lies in [0, 1]. |
| MindfulDataCoordinator.FinishAndRecord | mindful-minutes/mindful-minutes/SessionCoordinator.swift:63-85 | Finishing a started session adds exactly one completed session, dated at its start, which adds at least a minute, and leaves the milestones up to date. An unstarted timer records nothing. |
| MindfulDataCoordinator.FinishingTodayKeepsStreak | mindful-minutes/mindful-minutes/SessionCoordinator.swift:63-85 | A session started today and finished makes the streak active with no countdown, and the current streak at least 1. |
| MindfulDataCoordinator.FirstFinishedSessionCompletesFirstSteps | mindful-minutes/mindful-minutes/MindfulDataCoordinator.swift:28-31 | On a fresh install, the first finished session completes "First Steps" with value 1. |
| MindfulDataCoordinator.FinishedSessionCounts | mindful-minutes/mindful-minutes/MindfulDataCoordinator.swift:209-221 | A finished session moves a session-count milestone to the new count, completed exactly when the count reaches its target. |
| MindfulDataCoordinator.DateRangeIncludesWeekEnd | mindful-minutes/mindful-minutes/SessionRepository.swift:89-93 | A session dated exactly at the week's end is listed by the inclusive date range but not counted in the half-open weekly minutes. |
| SessionsView.Runs | mindful-minutes/mindful-minutes/SessionsView.swift:131-141 | Cutting the list into same-day stretches loses and reorders nothing, and the first stretch is keyed by the first session's day. |
| SessionsView.RunsSorted | mindful-minutes/mindful-minutes/SessionsView.swift:136-140 | On a newest-first list, the stretches have strictly older days, each stretch newest first. |
| SessionsView.RunsWellKeyed | mindful-minutes/mindful-minutes/SessionsView.swift:132-134 | Every stretch is non-empty and keyed by the start of its sessions' day. |
| SessionsView.GroupSessionsByDate | mindful-minutes/mindful-minutes/SessionsView.swift:131-141 | There is one section per day with sessions, newest day first. Each section holds exactly that day's sessions, newest first. Sections are never empty, and all sessions together are a permutation of the list. |
| SessionsView.GroupsCountEverySession | mindful-minutes/mindful-minutes/SessionsView.swift:131-141 | The sections hold as many sessions as the list. |
| SessionsView.EachSessionInOneGroup | mindful-minutes/mindful-minutes/SessionsView.swift:132-134 | Each session is in exactly one section. |
| SessionsView.EmptyStateMessage | mindful-minutes/mindful-minutes/SessionsView.swift:119-125 | One message is shown exactly for the All filter, and the other for every other filter. |
| SessionsView.EmptyMessageTellsOnlyAll | mindful-minutes/mindful-minutes/SessionsView.swift:119-125 | Two filters show the same message exactly when both or neither are All. |
| SessionsView.FilterCount | mindful-minutes/mindful-minutes/SessionsView.swift:127-129 | A chip's count is at most the number of sessions, and All counts every session. |
| SessionsView.TypeChipCountsType | mindful-minutes/mindful-minutes/SessionsView.swift:127-129 | A type filter's chip counts exactly the sessions of its type. |
| SessionsView.TodayChipCountsToday | mindful-minutes/mindful-minutes/SessionsView.swift:127-129 | The Today chip counts exactly the sessions dated today. |
| MonthlyCalendar.CurrentMonth | mindful-minutes/mindful-minutes/MonthlyCalendar.swift:18-20 | The current month is the first entry's date, or now when there are no entries. |
| MonthlyCalendar.CurrentMonthOfMonthlyData | mindful-minutes/mindful-minutes/MonthlyCalendar.swift:18-20 | For the month's own data, the calendar shows the month starting at its first day. |
| MonthlyCalendar.FirstOnDay | mindful-minutes/mindful-minutes/MonthlyCalendar.swift:34 | The result is the earliest entry on the day, or none exactly when no entry falls on it. |
| MonthlyCalendar.DaysFromSpaced | mindful-minutes/mindful-minutes/MonthlyCalendar.swift:30-46 | The walk visits the start and every following day, one day apart, before the end, and stops at the first day at or past the end. |
| MonthlyCalendar.Weeks | mindful-minutes/mindful-minutes/MonthlyCalendar.swift:22-56 | Every row has exactly seven slots. Read in order, the rows are the slots of the walked days, followed by empty padding of under a row. |
| MonthlyCalendar.FullRows | mindful-minutes/mindful-minutes/MonthlyCalendar.swift:28-46 | The loop emits full rows of seven and keeps an unfinished row of under seven. Together they are the slots of the walked days. |
| MonthlyCalendar.PadRow | mindful-minutes/mindful-minutes/MonthlyCalendar.swift:48-53 | The last row is padded with empty cells up to seven. |
| MonthlyCalendar.GridCell | mindful-minutes/mindful-minutes/MonthlyCalendar.swift:32-53 | Row w, column c of the grid is walked day 7w + c, or empty padding after the walk. |
| MonthlyCalendar.GridCoversMonth | mindful-minutes/mindful-minutes/MonthlyCalendar.swift:23-32 | Started at a day boundary on or before the 1st, the walk reaches every day of the month, in order. |
| MonthlyCalendar.GridShowsEachDaysEntry | mindful-minutes/mindful-minutes/MonthlyCalendar.swift:33-35 | On the month's own data, every day of the month shows its own entry. |
| MonthlyCalendar.CellColorOf | mindful-minutes/mindful-minutes/MonthlyCalendar.swift:124-132 | A cell is grey exactly without a session. It is the primary colour exactly with a session of 20 or more minutes, and the secondary colour otherwise. |
| MonthlyCalendar.TextColorOf | mindful-minutes/mindful-minutes/MonthlyCalendar.swift:134-140 | The text is white exactly from 20 minutes up. |
| MonthlyCalendar.CellBucketsAgree | mindful-minutes/mindful-minutes/MonthlyCalendar.swift:124-140 | On the month's own data, a cell is grey exactly on days without minutes, and its text is white exactly on high-activity cells. |
| HomeView.Greeting | mindful-minutes/mindful-minutes/HomeView.swift:6-14 | The greeting is "Good morning" exactly for hours 5–11, "Good afternoon" exactly for 12–16, "Good evening" exactly for 17–21, and "Good night" otherwise. |
| HomeView.GreetingMatchesTable | mindful-minutes/mindful-minutes/HomeView.swift:8-13 | Over the 24 hours of a clock, the greeting agrees with an hour-by-hour table. |
| HomeView.TodaysAverage | mindful-minutes/mindful-minutes/HomeView.swift:74-81 | The average is shown exactly when today has minutes, and it is the floor of the minutes over max(count, 1). |
| HomeView.TodaysAverageDividesBySessions | mindful-minutes/mindful-minutes/HomeView.swift:78 | A day with minutes has at least one session, so the shown average divides by the true count. |
| HomeView.RemainingMinutes | mindful-minutes/mindful-minutes/HomeView.swift:117 | The remaining minutes are never negative. They are 0 exactly when the goal is met, and otherwise they complete the goal. |
| HomeView.PercentComplete | mindful-minutes/mindful-minutes/HomeView.swift:113 | The percentage is truncated, and lies in [0, 100] for a ratio in [0, 1]. It is 100 exactly at a ratio of 1. |
| HomeView.RemainingZeroIffFullPercent | mindful-minutes/mindful-minutes/HomeView.swift:113-117 | With a positive goal, nothing remains exactly when the card shows 100 percent. |
| HomeView.RecentSessions | mindful-minutes/mindful-minutes/HomeView.swift:143 | The recent sessions are the first three of the list, or all of it when shorter. |
| HomeView.RecentAreNewest | mindful-minutes/mindful-minutes/HomeView.swift:143 | On the newest-first list, no recent session is older than a session left out. |
| HomeView.TimeAgoOf | mindful-minutes/mindful-minutes/HomeView.swift:188-210 | Today's dates are given in whole hours, else whole minutes, else "just now", with the truncated counts bracketing the elapsed time. Yesterday's dates are "Yesterday", and older dates are given by date. |
| HomeView.TimeAgoTextCount | mindful-minutes/mindful-minutes/HomeView.swift:196-204 | An "N hour(s) ago" or "N minute(s) ago" label gives back its N. The fixed labels carry no count. |
| HomeView.TimeAgoLabels | mindful-minutes/mindful-minutes/HomeView.swift:197-199 | The labels use the singular for 1 ("1 hour ago") and the plural otherwise ("5 minutes ago"). |

## Findings

| source | as written | input that shows it | evidently intended | confidence | as-written member | corrected member |
|---|---|---|---|---|---|---|
| mindful-minutes/mindful-minutes/SessionTimerView.swift:254 | Play starts any total, and the timer section prints `Int(progressValue * 100)`, which is `Int(0 / 0)` for a zero total (also at line 261) | In the duration sheet pick 0 hours, 0 minutes and warm-up None, close the sheet and tap play | A zero duration is never started, so the percentage is always defined | high; not executed | SessionTimerView.ZeroDurationStartTraps | SessionTimerView.PlayNeverTraps |

## Left out

- **Persistence.** SwiftData persistence is out: fetch, insert, delete, save, and the print-on-failure handlers. The stores are in-memory sequences, and a failed fetch is `None`.
- **Platform side effects.** Haptic feedback is out. The NotificationCenter "NavigateToSessions" post becomes the `navigateToSessions` flag; the tab switch it triggers is out. The repeating `Timer` is out too: it becomes the `Tick` step, delivered only while the timer runs.
- **Calendar and clock.** `Date()`, `Calendar.current`, locale week-start rules and daylight-saving changes are out. Every day is 86400 seconds, and now, week bounds and month bounds are parameters.
- **Formatted dates.** `DateFormatter` output is out: weekday names, "MMMM yyyy", short and long dates, `formatSectionDate`, `memberSince` and the day number of a calendar cell. `WeeklyData` carries the day's timestamp instead of its name, and `FormatTimeAgo` takes the short date as a parameter.
- **Layout.** Layout, animation, colours and the Sunday-first weekday header are out.
- **Demo and pass-through code.** `createSampleData` is demo data. The coordinator's read properties only forward to the calculators, which are modelled directly.
- **Membership length.** `daysSinceMember` is a calendar day difference between the join date and now.
- **Unused warm-up presets.** The `warmupPresets` list of the timer view (SessionTimerView.swift:31, which includes 90) is never read; the sheet's list (line 470) is the one modelled.
- **Unused duration formatter.** The private `formatDurationString` of the duration sheet (SessionTimerView.swift:600-613) is never called.
- **Milestone completion hook.** `onMilestoneCompleted` has an empty body. The coordinator drops the completion events, which `MilestoneManager.UpdateProgress` returns.
- **Stable sort order.** The order among sessions with equal dates, and among milestones with equal targets, follows the model's sort. Swift's sort does not fix that order.
- Text.ContainsIgnoringCase: case folding covers ASCII letters only, not the full Unicode folding of `localizedCaseInsensitiveContains`. All session type names are ASCII.
- TimerFormat.FormatTimeForVoiceOver: takes a natural number of seconds. The app never passes a negative remaining time.
- SessionTimer.ProgressValue: requires a non-zero total duration. The source divides without a check, and a zero total is reachable (`ZeroDurationReachable`). The NaN of 0 / 0 is not modelled as a value; it reaches an `Int(...)` conversion on the timer screen, which `RingPercent` models as the trap.
- SessionTimerView.ZeroDurationSession: holds of the coordinator alone. In the app the timer screen traps before the first firing (`ZeroDurationStartTraps`), and the screen model uses the guarded start instead.
- Session durations: `duration` is a Double `TimeInterval` in the source and whole seconds (`nat`) here. Every producer in the app writes whole seconds.
- ProgressCalculator.WeeklyProgressOf, DataModels.CappedRatio and HomeView.PercentComplete: Double arithmetic is modelled as exact `real` arithmetic, so rounding is ignored.
