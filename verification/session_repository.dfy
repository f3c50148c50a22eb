/**
 * The session store as an in-memory list, newest first: insertion, deletion,
 * reload after an edit, and the filters the views use. The clock is a
 * parameter; string matching folds ASCII case only.
 */
module SessionRepository {
  import opened Wrappers
  import opened Text
  import opened DataModels
  import opened Calendar
  import opened Seqs
  import SharedEnums

  type SessionFilter = SharedEnums.SessionFilter

  /** Dates never increase along the list. */
  ghost predicate NewestFirst(ss: seq<Session>) {
    forall i, j :: 0 <= i < j < |ss| ==> ss[i].date >= ss[j].date
  }

  /** `loadSessions`: the stored sessions newest first, or none when the fetch fails. */
  function LoadSessions(fetched: Option<seq<Session>>): (r: seq<Session>)
    ensures fetched.None? ==> r == []
    ensures fetched.Some? ==> multiset(r) == multiset(fetched.value)
    ensures NewestFirst(r)
  {
    match fetched
    case None => []
    case Some(stored) => SortBy(stored, (s: Session) => 0 - s.date)
  }

  /** `addSession`: the new session goes in front; the rest follow unchanged. */
  function AddSession(ss: seq<Session>, s: Session): (r: seq<Session>)
    ensures |r| == |ss| + 1 && r[0] == s && r[1..] == ss
  {
    [s] + ss
  }

  /** `deleteSession`: every entry with that id goes; the rest keep their order and their number of copies. */
  function DeleteSession(ss: seq<Session>, id: int): (r: seq<Session>)
    ensures forall x :: x in r <==> x in ss && x.id != id
    ensures forall x :: multiset(r)[x] == if x.id != id then multiset(ss)[x] else 0
    ensures IsSubseq(r, ss)
  {
    var p := (x: Session) => x.id != id;
    forall x ensures x in Filter(ss, p) <==> x in ss && p(x) {
      FilterMember(ss, p, x);
    }
    Filter(ss, p)
  }

  /** Deleting a just-added session with a fresh id restores the list. */
  lemma DeleteUndoesAdd(ss: seq<Session>, s: Session)
    requires forall x :: x in ss ==> x.id != s.id
    ensures DeleteSession(AddSession(ss, s), s.id) == ss
  {
    var p := (x: Session) => x.id != s.id;
    FilterAppend([s], ss, p);
    FilterAll(ss, p);
    assert Filter([s], p) == [];
  }

  /** The store after editing session `s` in place: entries with its id now hold it. */
  function ReplaceById(ss: seq<Session>, s: Session): (r: seq<Session>)
    ensures |r| == |ss|
    ensures forall i :: 0 <= i < |ss| ==> r[i] == (if ss[i].id == s.id then s else ss[i])
  {
    seq(|ss|, i requires 0 <= i < |ss| => if ss[i].id == s.id then s else ss[i])
  }

  /**
   * `updateSession`: the edit is already in the store, and the list is
   * reloaded from it, so it comes back newest first.
   */
  function UpdateSession(ss: seq<Session>, s: Session): (r: seq<Session>)
    ensures NewestFirst(r)
    ensures multiset(r) == multiset(ReplaceById(ss, s))
    ensures (exists i :: 0 <= i < |ss| && ss[i].id == s.id) ==> s in r
  {
    var stored := ReplaceById(ss, s);
    assert (exists i :: 0 <= i < |ss| && ss[i].id == s.id) ==> s in multiset(stored) by {
      if exists i :: 0 <= i < |ss| && ss[i].id == s.id {
        var i :| 0 <= i < |ss| && ss[i].id == s.id;
        assert stored[i] == s;
      }
    }
    LoadSessions(Some(stored))
  }

  // ------------------------------------------------------------ filters

  /** Whether the type filter `f` accepts type `t`: its lower-cased name contains the filter's. */
  predicate TypeNameMatches(f: SessionFilter, t: SessionType) {
    Contains(Lower(RawValue(t)), Lower(SharedEnums.RawValue(f)))
  }

  /** The date or type part of `filteredSessions`. */
  predicate MatchesFilter(s: Session, f: SessionFilter, clock: Clock) {
    match f
    case All => true
    case Today => DayOf(s.date) == clock.Today()
    case ThisWeek => clock.weekStart <= s.date < clock.weekEnd
    case ThisMonth => clock.monthStart <= s.date < clock.monthEnd
    case _ => TypeNameMatches(f, s.sessionType)
  }

  /** The search part: the type, the notes or some tag contains the text. */
  predicate MatchesSearch(s: Session, text: string) {
    || ContainsIgnoringCase(RawValue(s.sessionType), text)
    || ContainsIgnoringCase(s.notes, text)
    || exists tag :: tag in s.tags && ContainsIgnoringCase(tag, text)
  }

  /**
   * `filteredSessions`: the sessions passing the filter and, when the search
   * text is not empty, the search, in list order.
   */
  function FilteredSessions(ss: seq<Session>, f: SessionFilter, search: string, clock: Clock): (r: seq<Session>)
    ensures forall x :: x in r <==> x in ss && MatchesFilter(x, f, clock) && (search == "" || MatchesSearch(x, search))
    ensures forall x :: multiset(r)[x] == if MatchesFilter(x, f, clock) && (search == "" || MatchesSearch(x, search))
                          then multiset(ss)[x] else 0
    ensures IsSubseq(r, ss)
    ensures f == SharedEnums.SessionFilter.All && search == "" ==> r == ss
  {
    var p := (x: Session) => MatchesFilter(x, f, clock);
    var q := (x: Session) => MatchesSearch(x, search);
    if search == "" then
      FilterMembers(ss, p);
      if f == SharedEnums.SessionFilter.All then FilterAll(ss, p); Filter(ss, p) else Filter(ss, p)
    else
      FilterTwice(ss, p, q);
      Filter(Filter(ss, p), q)
  }

  /** `todaysSessions`: the sessions dated today, in list order. */
  function TodaysSessions(ss: seq<Session>, clock: Clock): (r: seq<Session>)
    ensures forall x :: x in r <==> x in ss && DayOf(x.date) == clock.Today()
    ensures forall x :: multiset(r)[x] == if DayOf(x.date) == clock.Today() then multiset(ss)[x] else 0
    ensures IsSubseq(r, ss)
  {
    var p := (x: Session) => DayOf(x.date) == clock.Today();
    forall x ensures x in Filter(ss, p) <==> x in ss && p(x) {
      FilterMember(ss, p, x);
    }
    Filter(ss, p)
  }

  /** The Today filter without search text is `todaysSessions`. */
  lemma TodayFilterIsTodaysSessions(ss: seq<Session>, clock: Clock)
    ensures FilteredSessions(ss, SharedEnums.SessionFilter.Today, "", clock) == TodaysSessions(ss, clock)
  {
    FilterExt(ss, (x: Session) => MatchesFilter(x, SharedEnums.SessionFilter.Today, clock),
                  (x: Session) => DayOf(x.date) == clock.Today());
  }

  /** `sessionsInDateRange`: dates in [from, to], both ends included. */
  function SessionsInDateRange(ss: seq<Session>, from: int, to: int): (r: seq<Session>)
    ensures forall x :: x in r <==> x in ss && from <= x.date <= to
    ensures forall x :: multiset(r)[x] == if from <= x.date <= to then multiset(ss)[x] else 0
    ensures IsSubseq(r, ss)
  {
    var p := (x: Session) => from <= x.date <= to;
    forall x ensures x in Filter(ss, p) <==> x in ss && p(x) {
      FilterMember(ss, p, x);
    }
    Filter(ss, p)
  }

  /** `sessionsByType`: exactly the sessions of that type, in list order. */
  function SessionsByType(ss: seq<Session>, t: SessionType): (r: seq<Session>)
    ensures forall x :: x in r <==> x in ss && x.sessionType == t
    ensures forall x :: multiset(r)[x] == if x.sessionType == t then multiset(ss)[x] else 0
    ensures IsSubseq(r, ss)
  {
    var p := (x: Session) => x.sessionType == t;
    forall x ensures x in Filter(ss, p) <==> x in ss && p(x) {
      FilterMember(ss, p, x);
    }
    Filter(ss, p)
  }

  // -------------------------------------------------- type filter names

  lemma LowerTypeNames()
    ensures Lower("Mindfulness") == "mindfulness"
    ensures Lower("Breathing") == "breathing"
    ensures Lower("Body Scan") == "body scan"
    ensures Lower("Metta") == "metta"
    ensures Lower("Focus") == "focus"
    ensures Lower("Movement") == "movement"
    ensures Lower("Sleep") == "sleep"
    ensures Lower("Custom") == "custom"
  {
  }

  lemma ContainsSelf(s: string)
    ensures Contains(s, s)
  {
    assert OccursAt(s, s, 0) by {
      assert s[0..|s|] == s;
    }
  }

  /** A needle with a character the hay lacks does not occur in it. */
  lemma MissingChar(hay: string, needle: string, c: char)
    requires c in needle && c !in hay
    ensures !Contains(hay, needle)
  {
    var j :| 0 <= j < |needle| && needle[j] == c;
    forall i | 0 <= i <= |hay| ensures !OccursAt(hay, needle, i) {
      if i <= |hay| - |needle| {
        assert hay[i..i + |needle|][j] == hay[i + j] != needle[j];
      }
    }
  }

  /** A needle longer than the hay does not occur in it. */
  lemma TooLong(hay: string, needle: string)
    requires |needle| > |hay|
    ensures !Contains(hay, needle)
  {
  }

  /** Only the mindfulness type's lower-cased name contains "mindfulness". */
  lemma NameOnlyInMindfulness(t: SessionType)
    ensures Contains(Lower(RawValue(t)), "mindfulness") <==> t == SessionType.Mindfulness
  {
    LowerTypeNames();
    var hay := Lower(RawValue(t));
    match t
    case Mindfulness => ContainsSelf(hay);
    case _ => TooLong(hay, "mindfulness");
  }

  /** Only the breathing type's lower-cased name contains "breathing". */
  lemma NameOnlyInBreathing(t: SessionType)
    ensures Contains(Lower(RawValue(t)), "breathing") <==> t == SessionType.Breathing
  {
    LowerTypeNames();
    var hay := Lower(RawValue(t));
    match t
    case Breathing => ContainsSelf(hay);
    case Mindfulness => MissingChar(hay, "breathing", 'b');
    case BodyScan => MissingChar(hay, "breathing", 'r');
    case _ => TooLong(hay, "breathing");
  }

  /** Only the body scan type's lower-cased name contains "body scan". */
  lemma NameOnlyInBodyScan(t: SessionType)
    ensures Contains(Lower(RawValue(t)), "body scan") <==> t == SessionType.BodyScan
  {
    LowerTypeNames();
    var hay := Lower(RawValue(t));
    match t
    case BodyScan => ContainsSelf(hay);
    case Mindfulness => MissingChar(hay, "body scan", 'b');
    case Breathing => MissingChar(hay, "body scan", 'o');
    case _ => TooLong(hay, "body scan");
  }

  /** Only the metta type's lower-cased name contains "metta". */
  lemma NameOnlyInLovingKindness(t: SessionType)
    ensures Contains(Lower(RawValue(t)), "metta") <==> t == SessionType.LovingKindness
  {
    LowerTypeNames();
    var hay := Lower(RawValue(t));
    match t
    case LovingKindness => ContainsSelf(hay);
    case Mindfulness => MissingChar(hay, "metta", 't');
    case Breathing => MissingChar(hay, "metta", 'm');
    case BodyScan => MissingChar(hay, "metta", 'm');
    case Focus => MissingChar(hay, "metta", 'm');
    case Movement => MissingChar(hay, "metta", 'a');
    case Sleep => MissingChar(hay, "metta", 'm');
    case Custom => MissingChar(hay, "metta", 'e');
  }

  /** Only the focus type's lower-cased name contains "focus". */
  lemma NameOnlyInFocus(t: SessionType)
    ensures Contains(Lower(RawValue(t)), "focus") <==> t == SessionType.Focus
  {
    LowerTypeNames();
    var hay := Lower(RawValue(t));
    match t
    case Focus => ContainsSelf(hay);
    case Mindfulness => MissingChar(hay, "focus", 'o');
    case Breathing => MissingChar(hay, "focus", 'f');
    case BodyScan => MissingChar(hay, "focus", 'f');
    case LovingKindness => MissingChar(hay, "focus", 'f');
    case Movement => MissingChar(hay, "focus", 'f');
    case Sleep => MissingChar(hay, "focus", 'f');
    case Custom => MissingChar(hay, "focus", 'f');
  }

  /** Only the movement type's lower-cased name contains "movement". */
  lemma NameOnlyInMovement(t: SessionType)
    ensures Contains(Lower(RawValue(t)), "movement") <==> t == SessionType.Movement
  {
    LowerTypeNames();
    var hay := Lower(RawValue(t));
    match t
    case Movement => ContainsSelf(hay);
    case Mindfulness => MissingChar(hay, "movement", 'o');
    case Breathing => MissingChar(hay, "movement", 'm');
    case BodyScan => MissingChar(hay, "movement", 'm');
    case _ => TooLong(hay, "movement");
  }

  /** Only the sleep type's lower-cased name contains "sleep". */
  lemma NameOnlyInSleep(t: SessionType)
    ensures Contains(Lower(RawValue(t)), "sleep") <==> t == SessionType.Sleep
  {
    LowerTypeNames();
    var hay := Lower(RawValue(t));
    match t
    case Sleep => ContainsSelf(hay);
    case Mindfulness => MissingChar(hay, "sleep", 'p');
    case Breathing => MissingChar(hay, "sleep", 's');
    case BodyScan => MissingChar(hay, "sleep", 'l');
    case LovingKindness => MissingChar(hay, "sleep", 's');
    case Focus => MissingChar(hay, "sleep", 'l');
    case Movement => MissingChar(hay, "sleep", 's');
    case Custom => MissingChar(hay, "sleep", 'l');
  }

  /**
   * No type name contains another type filter's name, so a type filter
   * accepts exactly the type it stands for.
   */
  lemma TypeFilterExact(f: SessionFilter, t: SessionType)
    requires SharedEnums.FilterSessionType(f).Some?
    ensures TypeNameMatches(f, t) <==> SharedEnums.FilterSessionType(f) == Some(t)
  {
    LowerTypeNames();
    match f
    case Mindfulness => NameOnlyInMindfulness(t);
    case Breathing => NameOnlyInBreathing(t);
    case BodyScan => NameOnlyInBodyScan(t);
    case LovingKindness => NameOnlyInLovingKindness(t);
    case Focus => NameOnlyInFocus(t);
    case Movement => NameOnlyInMovement(t);
    case Sleep => NameOnlyInSleep(t);
  }

  /** A type filter without search text is `sessionsByType` of its type. */
  lemma TypeFilterIsSessionsByType(ss: seq<Session>, f: SessionFilter, t: SessionType, clock: Clock)
    requires SharedEnums.FilterSessionType(f) == Some(t)
    ensures FilteredSessions(ss, f, "", clock) == SessionsByType(ss, t)
  {
    forall x: Session ensures MatchesFilter(x, f, clock) == (x.sessionType == t) {
      TypeFilterExact(f, x.sessionType);
    }
    FilterExt(ss, (x: Session) => MatchesFilter(x, f, clock), (x: Session) => x.sessionType == t);
  }
}
