/**
 * The user profile store: loading with a default profile, the optional-field
 * update, the settings helpers and the fallbacks used when no profile exists.
 * The store holds at most one profile, so it is an `Option<UserProfile>`.
 */
module UserProfileManager {
  import opened Wrappers
  import opened DataModels
  import opened Seqs
  import opened Numbers

  const DefaultName: string := "Mindful User"
  const DefaultEmail: string := "user@mindfulminutes.com"

  /** Values a new profile needs from outside: a fresh id, the current time and the fallback 9:00 reminder time. */
  datatype Fresh = Fresh(id: int, now: int, nineOClock: int)

  /** `createDefaultUserProfile`. */
  function DefaultUserProfile(env: Fresh): (p: UserProfile)
    ensures p.name == "Mindful User" && p.email == "user@mindfulminutes.com"
    ensures p.weeklyGoalMinutes == DefaultWeeklyGoalMinutes && p.preferredSessionDuration == DefaultPreferredSessionDuration
    ensures p.notificationsEnabled && p.preferredSessionTypes == [Mindfulness]
    ensures p.joinDate == env.now && p.reminderTime == env.nineOClock
  {
    NewUserProfile(env.id, DefaultName, DefaultEmail, env.now, env.nineOClock)
  }

  /**
   * `loadUserProfile`: the first stored profile; a default one when none is
   * stored or the fetch fails. Afterwards a profile always exists.
   */
  function LoadUserProfile(fetched: Option<seq<UserProfile>>, env: Fresh): (r: Option<UserProfile>)
    ensures r.Some?
    ensures fetched.Some? && |fetched.value| > 0 ==> r == Some(fetched.value[0])
    ensures fetched.None? || fetched == Some([]) ==> r == Some(DefaultUserProfile(env))
  {
    match fetched
    case Some(profiles) =>
      if |profiles| > 0 then Some(profiles[0]) else Some(DefaultUserProfile(env))
    case None => Some(DefaultUserProfile(env))
  }

  /** The optional arguments of `updateProfile`; `None` leaves a field alone. */
  datatype ProfileUpdate = ProfileUpdate(
    name: Option<string>,
    email: Option<string>,
    weeklyGoalMinutes: Option<int>,
    preferredSessionDuration: Option<int>,
    preferredSessionTypes: Option<seq<SessionType>>,
    notificationsEnabled: Option<bool>,
    reminderTime: Option<int>)

  const NoChanges: ProfileUpdate := ProfileUpdate(None, None, None, None, None, None, None)

  /**
   * `updateProfile`: each supplied field replaces the stored one, unsupplied
   * ones stay; nothing happens without a profile. The weekly goal is stored
   * as given, with no clamp.
   */
  function UpdateProfile(p: Option<UserProfile>, u: ProfileUpdate): (r: Option<UserProfile>)
    ensures p.None? <==> r.None?
    ensures p.Some? ==>
      && r.value.name == u.name.GetOr(p.value.name)
      && r.value.email == u.email.GetOr(p.value.email)
      && r.value.weeklyGoalMinutes == u.weeklyGoalMinutes.GetOr(p.value.weeklyGoalMinutes)
      && r.value.preferredSessionDuration == u.preferredSessionDuration.GetOr(p.value.preferredSessionDuration)
      && r.value.preferredSessionTypes == u.preferredSessionTypes.GetOr(p.value.preferredSessionTypes)
      && r.value.notificationsEnabled == u.notificationsEnabled.GetOr(p.value.notificationsEnabled)
      && r.value.reminderTime == u.reminderTime.GetOr(p.value.reminderTime)
      && r.value.id == p.value.id && r.value.joinDate == p.value.joinDate
      && r.value.streakStartDate == p.value.streakStartDate
  {
    match p
    case None => None
    case Some(q) =>
      Some(q.(
        name := u.name.GetOr(q.name),
        email := u.email.GetOr(q.email),
        weeklyGoalMinutes := u.weeklyGoalMinutes.GetOr(q.weeklyGoalMinutes),
        preferredSessionDuration := u.preferredSessionDuration.GetOr(q.preferredSessionDuration),
        preferredSessionTypes := u.preferredSessionTypes.GetOr(q.preferredSessionTypes),
        notificationsEnabled := u.notificationsEnabled.GetOr(q.notificationsEnabled),
        reminderTime := u.reminderTime.GetOr(q.reminderTime)))
  }

  /** An update with no fields supplied changes nothing. */
  lemma UpdateNothing(p: Option<UserProfile>)
    ensures UpdateProfile(p, NoChanges) == p
  {
  }

  /** Applying the same update twice is applying it once. */
  lemma UpdateIdempotent(p: Option<UserProfile>, u: ProfileUpdate)
    ensures UpdateProfile(UpdateProfile(p, u), u) == UpdateProfile(p, u)
  {
  }

  /** `updateStreakStartDate`: sets (or clears) the date, when there is a profile. */
  function UpdateStreakStartDate(p: Option<UserProfile>, date: Option<int>): (r: Option<UserProfile>)
    ensures r.None? <==> p.None?
    ensures p.Some? ==> r == Some(p.value.(streakStartDate := date))
  {
    match p
    case None => None
    case Some(q) => Some(q.(streakStartDate := date))
  }

  // ------------------------------------------------------------- queries

  function WeeklyGoalMinutes(p: Option<UserProfile>): int {
    if p.Some? then p.value.weeklyGoalMinutes else 150
  }

  function PreferredSessionDuration(p: Option<UserProfile>): int {
    if p.Some? then p.value.preferredSessionDuration else 10
  }

  function NotificationsEnabled(p: Option<UserProfile>): bool {
    if p.Some? then p.value.notificationsEnabled else true
  }

  function ReminderTime(p: Option<UserProfile>, nineOClock: int): int {
    if p.Some? then p.value.reminderTime else nineOClock
  }

  /** Without a profile the queries answer what a default profile would. */
  lemma FallbacksMatchDefaults(env: Fresh)
    ensures WeeklyGoalMinutes(None) == DefaultUserProfile(env).weeklyGoalMinutes
    ensures PreferredSessionDuration(None) == DefaultUserProfile(env).preferredSessionDuration
    ensures NotificationsEnabled(None) == DefaultUserProfile(env).notificationsEnabled
    ensures ReminderTime(None, env.nineOClock) == DefaultUserProfile(env).reminderTime
  {
  }

  // ------------------------------------------------------------ settings

  /** `toggleNotifications`: flips the flag and nothing else. */
  function ToggleNotifications(p: Option<UserProfile>): (r: Option<UserProfile>)
    ensures r.None? <==> p.None?
    ensures p.Some? ==> NotificationsEnabled(r) == !NotificationsEnabled(p)
    ensures p.Some? ==> r.value.(notificationsEnabled := p.value.notificationsEnabled) == p.value
  {
    match p
    case None => None
    case Some(q) => Some(q.(notificationsEnabled := !q.notificationsEnabled))
  }

  lemma ToggleTwice(p: Option<UserProfile>)
    ensures ToggleNotifications(ToggleNotifications(p)) == p
  {
  }

  const MinWeeklyGoal: int := 50
  const MaxWeeklyGoal: int := 500

  /** The clamp of `setWeeklyGoal`: into [50, 500], values inside unchanged. */
  function ClampWeeklyGoal(minutes: int): (r: int)
    ensures MinWeeklyGoal <= r <= MaxWeeklyGoal
    ensures MinWeeklyGoal <= minutes <= MaxWeeklyGoal ==> r == minutes
    ensures minutes < MinWeeklyGoal ==> r == MinWeeklyGoal
    ensures minutes > MaxWeeklyGoal ==> r == MaxWeeklyGoal
  {
    Max(MinWeeklyGoal, Min(minutes, MaxWeeklyGoal))
  }

  /** `setWeeklyGoal`: stores the clamped goal, when there is a profile. */
  function SetWeeklyGoal(p: Option<UserProfile>, minutes: int): (r: Option<UserProfile>)
    ensures r.None? <==> p.None?
    ensures p.Some? ==> r == Some(p.value.(weeklyGoalMinutes := ClampWeeklyGoal(minutes)))
  {
    match p
    case None => None
    case Some(q) => Some(q.(weeklyGoalMinutes := ClampWeeklyGoal(minutes)))
  }

  /** Clamping is idempotent: setting the stored goal again changes nothing. */
  lemma SetWeeklyGoalIdempotent(p: Option<UserProfile>, minutes: int)
    ensures var once := SetWeeklyGoal(p, minutes);
      SetWeeklyGoal(once, WeeklyGoalMinutes(once)) == once
  {
  }

  /**
   * The two ways of setting the goal disagree outside [50, 500]: the update
   * stores 1000 as given, the setter stores 500.
   */
  lemma UpdateDoesNotClamp(q: UserProfile)
    ensures WeeklyGoalMinutes(UpdateProfile(Some(q), NoChanges.(weeklyGoalMinutes := Some(1000)))) == 1000
    ensures WeeklyGoalMinutes(SetWeeklyGoal(Some(q), 1000)) == 500
  {
  }

  // ------------------------------------------------------ preferred types

  predicate NoDuplicates(ts: seq<SessionType>) {
    forall i, j :: 0 <= i < j < |ts| ==> ts[i] != ts[j]
  }

  /** Appends `t` unless already present. */
  function AddType(ts: seq<SessionType>, t: SessionType): (r: seq<SessionType>)
    ensures t in r
    ensures forall x :: x in r <==> x in ts || x == t
    ensures t in ts ==> r == ts
    ensures t !in ts ==> r == ts + [t]
    ensures NoDuplicates(ts) ==> NoDuplicates(r)
  {
    if t in ts then ts else ts + [t]
  }

  /** Drops every occurrence of `t`, keeping the others in order. */
  function RemoveType(ts: seq<SessionType>, t: SessionType): (r: seq<SessionType>)
    ensures t !in r
    ensures forall x :: x in r <==> x in ts && x != t
    ensures forall x :: multiset(r)[x] == if x != t then multiset(ts)[x] else 0
    ensures IsSubseq(r, ts)
  {
    var p := (x: SessionType) => x != t;
    forall x ensures x in Filter(ts, p) <==> x in ts && p(x) {
      FilterMember(ts, p, x);
    }
    Filter(ts, p)
  }

  /** Adding a type and removing it again restores a list that lacked it. */
  lemma RemoveUndoesAdd(ts: seq<SessionType>, t: SessionType)
    requires t !in ts
    ensures RemoveType(AddType(ts, t), t) == ts
  {
    var p := (x: SessionType) => x != t;
    FilterAppend(ts, [t], p);
    FilterAll(ts, p);
    assert Filter([t], p) == [];
  }

  /** `addPreferredSessionType`: no duplicates, and adding twice is adding once. */
  function AddPreferredSessionType(p: Option<UserProfile>, t: SessionType): (r: Option<UserProfile>)
    ensures r.None? <==> p.None?
    ensures p.Some? ==> r == Some(p.value.(preferredSessionTypes := AddType(p.value.preferredSessionTypes, t)))
  {
    match p
    case None => None
    case Some(q) => Some(q.(preferredSessionTypes := AddType(q.preferredSessionTypes, t)))
  }

  lemma AddPreferredIdempotent(p: Option<UserProfile>, t: SessionType)
    ensures AddPreferredSessionType(AddPreferredSessionType(p, t), t) == AddPreferredSessionType(p, t)
  {
  }

  /** `removePreferredSessionType`. */
  function RemovePreferredSessionType(p: Option<UserProfile>, t: SessionType): (r: Option<UserProfile>)
    ensures r.None? <==> p.None?
    ensures p.Some? ==> r == Some(p.value.(preferredSessionTypes := RemoveType(p.value.preferredSessionTypes, t)))
  {
    match p
    case None => None
    case Some(q) => Some(q.(preferredSessionTypes := RemoveType(q.preferredSessionTypes, t)))
  }
}
