/**
 * The persisted records: meditation sessions, the user profile and
 * milestones, with the small derived values the records define themselves.
 */
module DataModels {
  import opened Wrappers
  import opened Text
  import opened Numbers

  // ---------------------------------------------------------------- SessionType

  datatype SessionType =
    | Mindfulness | Breathing | BodyScan | LovingKindness
    | Focus | Movement | Sleep | Custom

  /** The enum's raw string value. */
  function RawValue(t: SessionType): string {
    match t
    case Mindfulness => "Mindfulness"
    case Breathing => "Breathing"
    case BodyScan => "Body Scan"
    case LovingKindness => "Metta"
    case Focus => "Focus"
    case Movement => "Movement"
    case Sleep => "Sleep"
    case Custom => "Custom"
  }

  /** The label shown for a type is its raw value, so no two types share a label. */
  function DisplayName(t: SessionType): (r: string)
    ensures r == RawValue(t) && |r| > 0
    ensures forall u :: RawValue(u) == r ==> u == t
  {
    RawValue(t)
  }

  /** Distinct session types are shown with distinct labels. */
  lemma DisplayNamesDistinct(t: SessionType, u: SessionType)
    requires t != u
    ensures DisplayName(t) != DisplayName(u)
  {
  }

  /** `SessionType.allCases`, in declaration order. */
  const AllSessionTypes: seq<SessionType> :=
    [Mindfulness, Breathing, BodyScan, LovingKindness, Focus, Movement, Sleep, Custom]

  /** There are eight session types, each listed once, with pairwise distinct raw values. */
  lemma SessionTypeCases()
    ensures |AllSessionTypes| == 8
    ensures forall t :: t in AllSessionTypes
    ensures forall i, j :: 0 <= i < j < |AllSessionTypes| ==>
      RawValue(AllSessionTypes[i]) != RawValue(AllSessionTypes[j])
  {
    forall t ensures t in AllSessionTypes {
      match t
      case Mindfulness => assert AllSessionTypes[0] == t;
      case Breathing => assert AllSessionTypes[1] == t;
      case BodyScan => assert AllSessionTypes[2] == t;
      case LovingKindness => assert AllSessionTypes[3] == t;
      case Focus => assert AllSessionTypes[4] == t;
      case Movement => assert AllSessionTypes[5] == t;
      case Sleep => assert AllSessionTypes[6] == t;
      case Custom => assert AllSessionTypes[7] == t;
    }
  }

  // -------------------------------------------------------------------- Session

  /**
   * One meditation session. `date` and the optional start/end times are
   * timestamps in seconds; `duration` is whole seconds. `tags` is used by the
   * session search although the record's declaration omits it.
   */
  datatype Session = Session(
    id: int,
    date: int,
    duration: nat,
    sessionType: SessionType,
    notes: string,
    tags: seq<string>,
    isCompleted: bool,
    startTime: Option<int>,
    endTime: Option<int>,
    sessionNumber: Option<int>)

  /** Whole minutes of a session, the seconds truncated. */
  function DurationInMinutes(s: Session): (m: nat)
    ensures m * 60 <= s.duration < m * 60 + 60
  {
    s.duration / 60
  }

  /** `formattedDuration`: "M min" on a whole minute, otherwise "M:SS". */
  function FormatDuration(seconds: nat): (r: string)
    ensures seconds % 60 == 0 <==> ':' !in r
  {
    DurationText(seconds / 60, seconds % 60)
  }

  /** The text for whole minutes and leftover seconds. */
  function DurationText(minutes: nat, secs: nat): (r: string)
    ensures secs == 0 <==> ':' !in r
  {
    if secs == 0 then
      NatToString(minutes) + " min"
    else
      assert (NatToString(minutes) + [':'] + Pad2(secs))[|NatToString(minutes)|] == ':';
      NatToString(minutes) + [':'] + Pad2(secs)
  }

  function FormattedDuration(s: Session): string {
    FormatDuration(s.duration)
  }

  /** The seconds that minutes and seconds add up to. */
  function MinutesAndSeconds(minutes: nat, secs: nat): nat {
    60 * minutes + secs
  }

  /** Reads "M min" or "M:SS" back to seconds. */
  function ParseDuration(text: string): Option<nat> {
    match SplitFirst(text, ':')
    case Some((m, ss)) =>
      if IsNumeral(m) && IsNumeral(ss) then Some(MinutesAndSeconds(StringToNat(m), StringToNat(ss))) else None
    case None =>
      if |text| >= 4 && text[|text| - 4..] == " min" && IsNumeral(text[..|text| - 4]) then
        Some(MinutesAndSeconds(StringToNat(text[..|text| - 4]), 0))
      else None
  }

  /** The formatted duration loses nothing: it reads back to the exact number of seconds. */
  lemma FormatDurationRoundTrip(seconds: nat)
    ensures ParseDuration(FormatDuration(seconds)) == Some(seconds)
  {
    var minutes, secs := seconds / 60, seconds % 60;
    assert MinutesAndSeconds(minutes, secs) == seconds;
    if secs == 0 {
      WholeMinutesRoundTrip(minutes, secs);
    } else {
      PartMinuteRoundTrip(minutes, secs);
    }
  }

  /** "M min" reads back to the whole minutes. */
  lemma WholeMinutesRoundTrip(minutes: nat, secs: nat)
    requires secs == 0
    ensures ParseDuration(DurationText(minutes, secs)) == Some(MinutesAndSeconds(minutes, secs))
  {
    var text := DurationText(minutes, secs);
    NatToStringRoundTrip(minutes);
    assert text[..|text| - 4] == NatToString(minutes);
    assert text[|text| - 4..] == " min";
  }

  /** "M:SS" splits at its colon and reads both numbers. */
  lemma PartMinuteRoundTrip(minutes: nat, secs: nat)
    requires secs > 0
    ensures ParseDuration(DurationText(minutes, secs)) == Some(MinutesAndSeconds(minutes, secs))
  {
    var m := NatToString(minutes);
    NatToStringRoundTrip(minutes);
    assert ':' !in m by {
      forall i | 0 <= i < |m| ensures m[i] != ':' {
        assert IsDigit(m[i]);
      }
    }
    SplitFirstOf(m, ':', Pad2(secs));
  }

  // ------------------------------------------------------------------ Milestone

  datatype MilestoneKind = Streak | TotalSessions | TotalMinutes | WeeklyGoal | MonthlyGoal

  datatype Milestone = Milestone(
    id: int,
    title: string,
    details: string,
    targetValue: int,
    currentValue: int,
    isCompleted: bool,
    completedDate: Option<int>,
    kind: MilestoneKind)

  /**
   * `min(num / den, 1.0)` with 0 for a non-positive denominator, the shape
   * shared by milestone progress and the weekly goal percentage.
   */
  function CappedRatio(num: int, den: int): (r: real)
    ensures r <= 1.0
    ensures num >= 0 ==> r >= 0.0
    ensures den <= 0 ==> r == 0.0
    ensures r == 1.0 <==> den > 0 && num >= den
    ensures den > 0 && num < den ==> r * den as real == num as real
  {
    if den <= 0 then 0.0
    else
      var q := num as real / den as real;
      assert q * den as real == num as real;
      MinReal(q, 1.0)
  }

  /** Fraction of the target reached: never above 1, 0 for a non-positive target. */
  function Progress(m: Milestone): (r: real)
    ensures r <= 1.0
    ensures m.currentValue >= 0 ==> r >= 0.0
    ensures m.targetValue <= 0 ==> r == 0.0
    ensures r == 1.0 <==> m.targetValue > 0 && m.currentValue >= m.targetValue
  {
    CappedRatio(m.currentValue, m.targetValue)
  }

  /** "current/target". */
  function ProgressText(m: Milestone): string {
    IntToString(m.currentValue) + "/" + IntToString(m.targetValue)
  }

  /** Reads "current/target" back to the pair. */
  function ParseProgressText(text: string): Option<(int, int)> {
    match SplitFirst(text, '/')
    case None => None
    case Some((a, b)) =>
      match (ParseInt(a), ParseInt(b))
      case (Some(c), Some(t)) => Some((c, t))
      case _ => None
  }

  /** The progress text names the current and target values exactly. */
  lemma ProgressTextRoundTrip(m: Milestone)
    ensures ParseProgressText(ProgressText(m)) == Some((m.currentValue, m.targetValue))
  {
    SplitFirstOf(IntToString(m.currentValue), '/', IntToString(m.targetValue));
    IntToStringRoundTrip(m.currentValue);
    IntToStringRoundTrip(m.targetValue);
  }

  /** A milestone as its initialiser creates it: no progress, not completed. */
  function NewMilestone(id: int, title: string, details: string, target: int, kind: MilestoneKind): Milestone {
    Milestone(id, title, details, target, 0, false, None, kind)
  }

  /**
   * The seeded catalog. Identifiers stand in for the fresh UUIDs each
   * default receives.
   */
  function DefaultMilestones(): (r: seq<Milestone>)
    ensures |r| == 7
    ensures forall i :: 0 <= i < |r| ==>
      r[i].currentValue == 0 && !r[i].isCompleted && r[i].completedDate == None && r[i].targetValue > 0
    ensures forall i, j :: 0 <= i < j < |r| ==> r[i].id != r[j].id
  {
    [ NewMilestone(1, "First Steps", "Complete your first meditation session", 1, TotalSessions),
      NewMilestone(2, "First Week", "Complete 7 days in a row", 7, Streak),
      NewMilestone(3, "Dedicated Practitioner", "Complete 25 meditation sessions", 25, TotalSessions),
      NewMilestone(4, "Mindful Hours", "Meditate for 10 total hours", 600, TotalMinutes),
      NewMilestone(5, "Consistent Meditator", "Reach a 30-day streak", 30, Streak),
      NewMilestone(6, "Century Club", "Complete 100 meditation sessions", 100, TotalSessions),
      NewMilestone(7, "Meditation Master", "Meditate for 50 total hours", 3000, TotalMinutes) ]
  }

  /** The targets and kinds of the seeded catalog, in order. */
  lemma DefaultMilestoneTargets()
    ensures var d := DefaultMilestones();
      [d[0].targetValue, d[1].targetValue, d[2].targetValue, d[3].targetValue,
       d[4].targetValue, d[5].targetValue, d[6].targetValue] == [1, 7, 25, 600, 30, 100, 3000]
    ensures var d := DefaultMilestones();
      [d[0].kind, d[1].kind, d[2].kind, d[3].kind, d[4].kind, d[5].kind, d[6].kind]
        == [TotalSessions, Streak, TotalSessions, TotalMinutes, Streak, TotalSessions, TotalMinutes]
  {
  }

  /** The catalog opens with "First Steps": one session completes it. */
  lemma FirstStepsHeadsCatalog()
    ensures |DefaultMilestones()| > 0
    ensures DefaultMilestones()[0].title == "First Steps"
    ensures DefaultMilestones()[0].kind == TotalSessions && DefaultMilestones()[0].targetValue == 1
  {
  }

  // ---------------------------------------------------------------- UserProfile

  datatype UserProfile = UserProfile(
    id: int,
    name: string,
    email: string,
    joinDate: int,
    weeklyGoalMinutes: int,
    preferredSessionDuration: int,
    preferredSessionTypes: seq<SessionType>,
    notificationsEnabled: bool,
    reminderTime: int,
    streakStartDate: Option<int>)

  const DefaultWeeklyGoalMinutes: int := 150
  const DefaultPreferredSessionDuration: int := 10

  /**
   * A profile with the initialiser's defaults. `reminderTime` is the 9:00
   * timestamp the calendar would compute, passed in.
   */
  function NewUserProfile(id: int, name: string, email: string, joinDate: int, reminderTime: int): (p: UserProfile)
    ensures p.weeklyGoalMinutes == 150 && p.preferredSessionDuration == 10
    ensures p.preferredSessionTypes == [Mindfulness] && p.notificationsEnabled
    ensures p.streakStartDate == None
    ensures p.name == name && p.email == email && p.joinDate == joinDate
  {
    UserProfile(id, name, email, joinDate, DefaultWeeklyGoalMinutes, DefaultPreferredSessionDuration,
                [Mindfulness], true, reminderTime, None)
  }
}
