/**
 * The timer's text renderings of a number of seconds: the clock face, the
 * configured duration and the VoiceOver reading. Callers only pass
 * non-negative values (remaining or configured seconds), so inputs are `nat`.
 */
module TimerFormat {
  import opened Wrappers
  import opened Text

  /** `seconds` split into hours, minutes within the hour and seconds within the minute. */
  lemma ClockDecomposition(seconds: nat)
    ensures seconds == 3600 * (seconds / 3600) + 60 * ((seconds % 3600) / 60) + seconds % 60
    ensures (seconds % 3600) / 60 < 60
    ensures seconds / 3600 == 0 ==> (seconds % 3600) / 60 == seconds / 60
    ensures 60 * (seconds / 3600) + (seconds % 3600) / 60 == seconds / 60
  {
    var h, rest := seconds / 3600, seconds % 3600;
    var m, s := rest / 60, rest % 60;
    assert seconds == 3600 * h + rest;
    assert rest == 60 * m + s;
    assert seconds == 60 * (60 * h + m) + s;
    assert seconds % 60 == s;
  }

  /** `formatTimeDisplay`: "HH:MM:SS" from one hour up, otherwise "MM:SS", zero-padded. */
  function FormatTimeDisplay(seconds: nat): string {
    ClockFace(seconds / 3600, (seconds % 3600) / 60, seconds % 60)
  }

  /** The face for given hours, minutes and seconds; the hours only when there are some. */
  function ClockFace(hours: nat, minutes: nat, secs: nat): string {
    if hours > 0 then Pad2(hours) + [':'] + (Pad2(minutes) + [':'] + Pad2(secs))
    else Pad2(minutes) + [':'] + Pad2(secs)
  }

  /** The seconds that hours, minutes and seconds add up to. */
  function ClockSeconds(hours: nat, minutes: nat, secs: nat): nat {
    3600 * hours + 60 * minutes + secs
  }

  /** Reads a clock face "H:M:S" or "M:S" back to seconds. */
  function ParseTimeDisplay(text: string): Option<nat> {
    match SplitFirst(text, ':')
    case None => None
    case Some((a, rest)) =>
      if !IsNumeral(a) then None
      else match SplitFirst(rest, ':')
        case None =>
          if IsNumeral(rest) then Some(ClockSeconds(0, StringToNat(a), StringToNat(rest))) else None
        case Some((b, c)) =>
          if IsNumeral(b) && IsNumeral(c)
          then Some(ClockSeconds(StringToNat(a), StringToNat(b), StringToNat(c)))
          else None
  }

  /** Three numerals joined by colons read as hours, minutes and seconds. */
  lemma ParseThreeParts(a: string, b: string, c: string, x: nat, y: nat, z: nat)
    requires IsNumeral(a) && IsNumeral(b) && IsNumeral(c)
    requires StringToNat(a) == x && StringToNat(b) == y && StringToNat(c) == z
    ensures ParseTimeDisplay(a + [':'] + (b + [':'] + c)) == Some(ClockSeconds(x, y, z))
  {
    NoColonInNumeral(a);
    NoColonInNumeral(b);
    NoColonInNumeral(c);
    SplitFirstOf(a, ':', b + [':'] + c);
    SplitFirstOf(b, ':', c);
  }

  /** Two numerals joined by a colon read as minutes and seconds. */
  lemma ParseTwoParts(b: string, c: string, y: nat, z: nat)
    requires IsNumeral(b) && IsNumeral(c)
    requires StringToNat(b) == y && StringToNat(c) == z
    ensures ParseTimeDisplay(b + [':'] + c) == Some(ClockSeconds(0, y, z))
  {
    NoColonInNumeral(b);
    NoColonInNumeral(c);
    SplitFirstOf(b, ':', c);
    assert SplitFirst(c, ':').None?;
  }

  /** Digits hold no colon. */
  lemma NoColonInNumeral(a: string)
    requires IsNumeral(a)
    ensures ':' !in a
  {
    forall i | 0 <= i < |a| ensures a[i] != ':' {
      assert IsDigit(a[i]);
    }
  }

  /** A face with hours splits at its two colons. */
  lemma ParseClockThree(x: nat, y: nat, z: nat)
    requires x > 0
    ensures ParseTimeDisplay(ClockFace(x, y, z)) == Some(ClockSeconds(x, y, z))
  {
    ParseThreeParts(Pad2(x), Pad2(y), Pad2(z), x, y, z);
  }

  /** A face without hours splits at its one colon. */
  lemma ParseClockTwo(x: nat, y: nat, z: nat)
    requires x == 0
    ensures ParseTimeDisplay(ClockFace(x, y, z)) == Some(ClockSeconds(x, y, z))
  {
    ParseTwoParts(Pad2(y), Pad2(z), y, z);
  }

  /** The clock face shows the remaining time exactly: it reads back to the same seconds. */
  lemma TimeDisplayRoundTrip(seconds: nat)
    ensures ParseTimeDisplay(FormatTimeDisplay(seconds)) == Some(seconds)
  {
    if seconds >= 3600 {
      LongDisplayRoundTrip(seconds);
    } else {
      ShortDisplayRoundTrip(seconds);
    }
  }

  /** From one hour up the face reads back through its three fields. */
  lemma LongDisplayRoundTrip(seconds: nat)
    requires seconds >= 3600
    ensures ParseTimeDisplay(FormatTimeDisplay(seconds)) == Some(seconds)
  {
    var h, m, z := seconds / 3600, (seconds % 3600) / 60, seconds % 60;
    assert ClockSeconds(h, m, z) == seconds && h > 0 by {
      ClockDecomposition(seconds);
    }
    ParseClockThree(h, m, z);
  }

  /** Below one hour the face reads back through its two fields. */
  lemma ShortDisplayRoundTrip(seconds: nat)
    requires seconds < 3600
    ensures ParseTimeDisplay(FormatTimeDisplay(seconds)) == Some(seconds)
  {
    var h, m, z := seconds / 3600, (seconds % 3600) / 60, seconds % 60;
    assert ClockSeconds(h, m, z) == seconds && h == 0 by {
      ClockDecomposition(seconds);
    }
    ParseClockTwo(h, m, z);
  }

  /** `formatDurationString`: "Hh Mm" from one hour up, otherwise "Mm"; seconds are dropped. */
  function FormatDurationString(seconds: nat): string {
    DurationLabel(seconds / 3600, (seconds % 3600) / 60)
  }

  /** The label for given hours and minutes; the hours only when there are some. */
  function DurationLabel(hours: nat, minutes: nat): string {
    if hours > 0 then NatToString(hours) + "h " + NatToString(minutes) + "m"
    else NatToString(minutes) + "m"
  }

  /** The minutes that hours and minutes add up to. */
  function TotalMinutes(hours: nat, minutes: nat): nat {
    60 * hours + minutes
  }

  /** Reads "Hh Mm" or "Mm" back to whole minutes. */
  function ParseDurationString(text: string): Option<nat> {
    if |text| == 0 || text[|text| - 1] != 'm' then None
    else
      var body := text[..|text| - 1];
      match SplitFirst(body, 'h')
      case None => if IsNumeral(body) then Some(TotalMinutes(0, StringToNat(body))) else None
      case Some((a, rest)) =>
        if IsNumeral(a) && |rest| > 0 && rest[0] == ' ' && IsNumeral(rest[1..])
        then Some(TotalMinutes(StringToNat(a), StringToNat(rest[1..])))
        else None
  }

  /** The duration label loses only the seconds: it reads back to the whole minutes. */
  lemma DurationStringRoundTrip(seconds: nat)
    ensures ParseDurationString(FormatDurationString(seconds)) == Some(seconds / 60)
  {
    var h, m := seconds / 3600, (seconds % 3600) / 60;
    assert TotalMinutes(h, m) == seconds / 60 by {
      ClockDecomposition(seconds);
    }
    DurationLabelRoundTrip(h, m);
  }

  /** A label reads back to the minutes its parts add up to. */
  lemma DurationLabelRoundTrip(hours: nat, minutes: nat)
    ensures ParseDurationString(DurationLabel(hours, minutes)) == Some(TotalMinutes(hours, minutes))
  {
    if hours > 0 {
      HoursLabelRoundTrip(hours, minutes);
    } else {
      MinutesLabelRoundTrip(hours, minutes);
    }
  }

  /** "Hh Mm" splits at the 'h' and reads both numbers. */
  lemma HoursLabelRoundTrip(hours: nat, minutes: nat)
    requires hours > 0
    ensures ParseDurationString(DurationLabel(hours, minutes)) == Some(TotalMinutes(hours, minutes))
  {
    var text := DurationLabel(hours, minutes);
    var hs, ms := NatToString(hours), NatToString(minutes);
    NatToStringRoundTrip(hours);
    NatToStringRoundTrip(minutes);
    assert text[..|text| - 1] == hs + ['h'] + (" " + ms);
    assert 'h' !in hs by { assert IsNumeral(hs); }
    SplitFirstOf(hs, 'h', " " + ms);
    assert (" " + ms)[1..] == ms;
  }

  /** "Mm" has no 'h' and reads as the minutes. */
  lemma MinutesLabelRoundTrip(hours: nat, minutes: nat)
    requires hours == 0
    ensures ParseDurationString(DurationLabel(hours, minutes)) == Some(TotalMinutes(hours, minutes))
  {
    var text := DurationLabel(hours, minutes);
    var ms := NatToString(minutes);
    NatToStringRoundTrip(minutes);
    assert text[..|text| - 1] == ms;
    assert 'h' !in ms by { assert IsNumeral(ms); }
  }

  /** `formatTotalDuration`: the label of the configured hours and minutes, without the warm-up. */
  function FormatTotalDuration(hours: nat, minutes: nat): string {
    FormatDurationString(hours * 3600 + minutes * 60)
  }

  /** For picker values (minutes below 60) the label names the configured hours and minutes. */
  lemma TotalDurationLabel(hours: nat, minutes: nat)
    requires minutes < 60
    ensures ParseDurationString(FormatTotalDuration(hours, minutes)) == Some(TotalMinutes(hours, minutes))
  {
    TotalDurationParts(hours, minutes);
    DurationLabelRoundTrip(hours, minutes);
  }

  /** Picker values are the parts the duration label splits their seconds back into. */
  lemma TotalDurationParts(hours: nat, minutes: nat)
    requires minutes < 60
    ensures FormatTotalDuration(hours, minutes) == DurationLabel(hours, minutes)
  {
    HourSplit(hours, minutes * 60);
    MinuteSplit(minutes, 0);
  }

  /** Seconds built from whole hours and a remainder split back into them. */
  lemma HourSplit(q: nat, r: nat)
    requires r < 3600
    ensures (q * 3600 + r) / 3600 == q && (q * 3600 + r) % 3600 == r
  {
  }

  /** Seconds built from whole minutes and a remainder split back into them. */
  lemma MinuteSplit(q: nat, r: nat)
    requires r < 60
    ensures (q * 60 + r) / 60 == q && (q * 60 + r) % 60 == r
  {
  }

  /**
   * `formatTimeForVoiceOver`: "H hour(s) M minute(s) S second(s)", leaving out
   * zero parts and the seconds once there are hours, trimmed of spaces.
   */
  function FormatTimeForVoiceOver(seconds: nat): (r: string)
    ensures r == "" <==> seconds == 0
    ensures |r| > 0 ==> r[0] != ' ' && r[|r| - 1] != ' '
  {
    ClockDecomposition(seconds);
    VoiceOverText(seconds / 3600, (seconds % 3600) / 60, seconds % 60)
  }

  /** The spoken parts for given hours, minutes and seconds, trimmed. */
  function VoiceOverText(hours: nat, minutes: nat, secs: nat): (r: string)
    ensures r == "" <==> hours == 0 && minutes == 0 && secs == 0
    ensures |r| > 0 ==> r[0] != ' ' && r[|r| - 1] != ' '
  {
    var a := if hours > 0 then CountNoun(hours, "hour") + " " else "";
    var b := if minutes > 0 then CountNoun(minutes, "minute") + " " else "";
    var c := if secs > 0 && hours == 0 then CountNoun(secs, "second") else "";
    var raw := a + b + c;
    assert hours > 0 || minutes > 0 || secs > 0 ==> raw[0] != ' ' by {
      if hours > 0 {
        assert raw[0] == NatToString(hours)[0];
      } else if minutes > 0 {
        assert raw[0] == NatToString(minutes)[0];
      } else if secs > 0 {
        assert raw[0] == NatToString(secs)[0];
      }
    }
    TrimSpaces(raw)
  }

  /** Once there are hours, the seconds are not spoken: the label is that of the whole minute. */
  lemma VoiceOverDropsSecondsWithHours(seconds: nat)
    requires seconds >= 3600
    ensures FormatTimeForVoiceOver(seconds) == FormatTimeForVoiceOver(seconds - seconds % 60)
  {
    var h, m := seconds / 3600, (seconds % 3600) / 60;
    ClockDecomposition(seconds);
    assert seconds - seconds % 60 == h * 3600 + m * 60;
    HourSplit(h, m * 60);
    MinuteSplit(m, 0);
    assert VoiceOverText(h, m, seconds % 60) == VoiceOverText(h, m, 0);
  }

  /** Below a minute only the seconds are spoken. */
  lemma VoiceOverUnderMinute(seconds: nat)
    requires 0 < seconds < 60
    ensures FormatTimeForVoiceOver(seconds) == CountNoun(seconds, "second")
  {
    HourSplit(0, seconds);
    MinuteSplit(0, seconds);
    CountNounUntrimmed(seconds, "second");
    assert "" + "" + CountNoun(seconds, "second") == CountNoun(seconds, "second");
    assert VoiceOverText(0, 0, seconds) == CountNoun(seconds, "second");
  }

  /** Whole hours are spoken as hours alone. */
  lemma VoiceOverWholeHours(hours: nat)
    requires hours > 0
    ensures FormatTimeForVoiceOver(hours * 3600) == CountNoun(hours, "hour")
  {
    HourSplit(hours, 0);
    var x := CountNoun(hours, "hour");
    CountNounUntrimmed(hours, "hour");
    assert x + " " + "" + "" == x + " ";
    assert VoiceOverText(hours, 0, 0) == x;
  }

  /** A count and a noun carry no space at either end, so trimming keeps them, with or without one trailing space. */
  lemma CountNounUntrimmed(n: nat, word: string)
    requires |word| > 0 && word[|word| - 1] != ' '
    ensures TrimSpaces(CountNoun(n, word)) == CountNoun(n, word)
    ensures TrimSpaces(CountNoun(n, word) + " ") == CountNoun(n, word)
  {
    var x := CountNoun(n, word);
    assert x[0] == NatToString(n)[0] && IsDigit(x[0]);
    assert x[|x| - 1] != ' ';
    assert (x + " ")[..|x|] == x;
  }

  // ---------------------------------------------------- VoiceOver read back

  /** The units the VoiceOver text speaks. */
  datatype Unit = Hour | Minute | Second

  /** The unit's word, as `formatTimeForVoiceOver` writes it. */
  function Word(u: Unit): string {
    match u
    case Hour => "hour"
    case Minute => "minute"
    case Second => "second"
  }

  /** The unit word after a count: singular for 1, plural otherwise. */
  function UnitWord(n: nat, word: string): string {
    word + (if n == 1 then "" else "s")
  }

  /** The unit a word names, when it agrees in number with its count. */
  function UnitNamed(n: nat, word: string): Option<Unit> {
    if word == UnitWord(n, "hour") then Some(Hour)
    else if word == UnitWord(n, "minute") then Some(Minute)
    else if word == UnitWord(n, "second") then Some(Second)
    else None
  }

  /** What a listener hears: a count of hours, of minutes and of seconds. */
  datatype Reading = Reading(hours: nat, minutes: nat, secs: nat)

  /** Adds `n` of a unit to a reading, if there is one. */
  function AddUnit(r: Option<Reading>, u: Unit, n: nat): Option<Reading> {
    match r
    case None => None
    case Some(x) =>
      match u
      case Hour => Some(x.(hours := x.hours + n))
      case Minute => Some(x.(minutes := x.minutes + n))
      case Second => Some(x.(secs := x.secs + n))
  }

  /** The text between single spaces, in order; a stray space yields an empty word. */
  function Words(text: string): seq<string>
    decreases |text|
  {
    match SplitFirst(text, ' ')
    case None => [text]
    case Some((w, rest)) => [w] + Words(rest)
  }

  /** Reads words as "N unit" pairs, each unit agreeing in number with its count. */
  function ReadWords(ws: seq<string>): Option<Reading>
    decreases |ws|
  {
    if |ws| == 0 then Some(Reading(0, 0, 0))
    else if |ws| == 1 || !IsNumeral(ws[0]) then None
    else
      var n := StringToNat(ws[0]);
      match UnitNamed(n, ws[1])
      case None => None
      case Some(u) => AddUnit(ReadWords(ws[2..]), u, n)
  }

  /** Reads spoken text back: nothing for the empty text, otherwise its "N unit" pairs. */
  function ParseSpoken(text: string): Option<Reading> {
    if |text| == 0 then Some(Reading(0, 0, 0)) else ReadWords(Words(text))
  }

  /** The seconds a reading adds up to. */
  function ReadingSeconds(r: Reading): nat {
    ClockSeconds(r.hours, r.minutes, r.secs)
  }

  /** A unit word holds no space and names its unit. */
  lemma UnitWordReads(n: nat, unit: Unit)
    ensures ' ' !in UnitWord(n, Word(unit))
    ensures UnitNamed(n, UnitWord(n, Word(unit))) == Some(unit)
  {
    var u := UnitWord(n, Word(unit));
    forall i | 0 <= i < |u| ensures u[i] != ' ' {
      assert u[i] in "hoursminutesecond";
    }
    if n == 1 {
      assert UnitWord(n, "hour") == "hour" && UnitWord(n, "minute") == "minute";
      assert UnitWord(n, "second") == "second" && "second"[0] != "minute"[0];
    } else {
      assert UnitWord(n, "hour") == "hours" && UnitWord(n, "minute") == "minutes";
      assert UnitWord(n, "second") == "seconds" && "seconds"[0] != "minutes"[0];
    }
  }

  /** Digits hold no space. */
  lemma NoSpaceInNumeral(a: string)
    requires IsNumeral(a)
    ensures ' ' !in a
  {
    forall i | 0 <= i < |a| ensures a[i] != ' ' {
      assert IsDigit(a[i]);
    }
  }

  /** A count and noun is the numeral and the unit word around one space. */
  lemma CountNounSplit(n: nat, unit: Unit)
    ensures CountNoun(n, Word(unit)) == NatToString(n) + [' '] + UnitWord(n, Word(unit))
    ensures ' ' !in NatToString(n) && ' ' !in UnitWord(n, Word(unit))
  {
    NoSpaceInNumeral(NatToString(n));
    UnitWordReads(n, unit);
  }

  /** A last "N unit" part is two words. */
  lemma LastPartWords(n: nat, unit: Unit)
    ensures Words(CountNoun(n, Word(unit))) == [NatToString(n), UnitWord(n, Word(unit))]
  {
    var ns, uw := NatToString(n), UnitWord(n, Word(unit));
    CountNounSplit(n, unit);
    SplitFirstOf(ns, ' ', uw);
  }

  /** An "N unit" part, a space and more text are two words, then the words of the rest. */
  lemma PartThenWords(n: nat, unit: Unit, rest: string)
    ensures Words(CountNoun(n, Word(unit)) + " " + rest)
      == [NatToString(n), UnitWord(n, Word(unit))] + Words(rest)
  {
    var ns, uw := NatToString(n), UnitWord(n, Word(unit));
    CountNounSplit(n, unit);
    assert CountNoun(n, Word(unit)) + " " + rest == ns + [' '] + (uw + [' '] + rest);
    SplitFirstOf(ns, ' ', uw + [' '] + rest);
    SplitFirstOf(uw, ' ', rest);
  }

  /** A leading "N unit" pair adds N of the unit to the reading of the words after it. */
  lemma ReadPair(n: nat, unit: Unit, ws: seq<string>)
    ensures ReadWords([NatToString(n), UnitWord(n, Word(unit))] + ws) == AddUnit(ReadWords(ws), unit, n)
  {
    var xs := [NatToString(n), UnitWord(n, Word(unit))] + ws;
    assert xs[2..] == ws;
    NatToStringRoundTrip(n);
    UnitWordReads(n, unit);
  }

  /** Text with no space at either end is kept by trimming, with or without one trailing space. */
  lemma TrimKeeps(x: string)
    requires |x| > 0 && x[0] != ' ' && x[|x| - 1] != ' '
    ensures TrimSpaces(x) == x
    ensures TrimSpaces(x + " ") == x
  {
    assert (x + " ")[..|x|] == x;
  }

  /** Two parts joined by a space are kept by trimming, with or without one trailing space. */
  lemma TrimPair(p: string, q: string)
    requires |p| > 0 && |q| > 0 && p[0] != ' ' && q[|q| - 1] != ' '
    ensures TrimSpaces(p + " " + q) == p + " " + q
    ensures TrimSpaces(p + " " + q + " ") == p + " " + q
  {
    var x := p + " " + q;
    assert x[0] == p[0] && x[|x| - 1] == q[|q| - 1];
    TrimKeeps(x);
  }

  /** A count and noun starts with a digit and ends with a letter. */
  lemma CountNounEnds(n: nat, unit: Unit)
    ensures var x := CountNoun(n, Word(unit)); |x| > 0 && IsDigit(x[0]) && x[|x| - 1] != ' '
  {
    var x := CountNoun(n, Word(unit));
    assert x[0] == NatToString(n)[0];
    assert x[|x| - 1] in "hoursminutesecond";
  }

  /** One spoken part reads as that many of its unit. */
  lemma ReadOnePart(n: nat, u: Unit)
    ensures ReadWords(Words(CountNoun(n, Word(u)))) == AddUnit(Some(Reading(0, 0, 0)), u, n)
  {
    LastPartWords(n, u);
    ReadPair(n, u, []);
    assert [NatToString(n), UnitWord(n, Word(u))] + [] == [NatToString(n), UnitWord(n, Word(u))];
  }

  /** Two spoken parts read as the first unit added to the reading of the second. */
  lemma ReadTwoParts(m: nat, u: Unit, n: nat, v: Unit)
    ensures ReadWords(Words(CountNoun(m, Word(u)) + " " + CountNoun(n, Word(v))))
      == AddUnit(AddUnit(Some(Reading(0, 0, 0)), v, n), u, m)
  {
    PartThenWords(m, u, CountNoun(n, Word(v)));
    ReadPair(m, u, Words(CountNoun(n, Word(v))));
    ReadOnePart(n, v);
  }

  /**
   * The spoken parts read back as the hours and minutes, plus the seconds
   * when there are no hours.
   */
  lemma VoiceOverTextReadsBack(hours: nat, minutes: nat, secs: nat)
    ensures ParseSpoken(VoiceOverText(hours, minutes, secs))
      == Some(Reading(hours, minutes, if hours == 0 then secs else 0))
  {
    if hours > 0 && minutes > 0 {
      HoursAndMinutesText(hours, minutes, secs);
      ReadTwoParts(hours, Hour, minutes, Minute);
    } else if hours > 0 {
      OnePartText(hours, minutes, secs);
      ReadOnePart(hours, Hour);
    } else if minutes > 0 && secs > 0 {
      MinutesAndSecondsText(minutes, secs);
      ReadTwoParts(minutes, Minute, secs, Second);
    } else if minutes > 0 {
      OnePartText(hours, minutes, secs);
      ReadOnePart(minutes, Minute);
    } else if secs > 0 {
      OnePartText(hours, minutes, secs);
      ReadOnePart(secs, Second);
    }
  }

  /** With hours and minutes, the text is the two parts joined by a space. */
  lemma HoursAndMinutesText(hours: nat, minutes: nat, secs: nat)
    requires hours > 0 && minutes > 0
    ensures VoiceOverText(hours, minutes, secs) == CountNoun(hours, "hour") + " " + CountNoun(minutes, "minute")
  {
    var a, b := CountNoun(hours, "hour"), CountNoun(minutes, "minute");
    CountNounEnds(hours, Hour);
    CountNounEnds(minutes, Minute);
    TrimPair(a, b);
    assert (a + " ") + (b + " ") + "" == a + " " + b + " ";
  }

  /** Without hours, minutes and seconds are the two parts joined by a space. */
  lemma MinutesAndSecondsText(minutes: nat, secs: nat)
    requires minutes > 0 && secs > 0
    ensures VoiceOverText(0, minutes, secs) == CountNoun(minutes, "minute") + " " + CountNoun(secs, "second")
  {
    var b, c := CountNoun(minutes, "minute"), CountNoun(secs, "second");
    CountNounEnds(minutes, Minute);
    CountNounEnds(secs, Second);
    TrimPair(b, c);
    assert "" + (b + " ") + c == b + " " + c;
  }

  /** With a single non-zero part spoken, the text is that part alone. */
  lemma OnePartText(hours: nat, minutes: nat, secs: nat)
    requires (hours > 0 && minutes == 0) || (hours == 0 && (minutes == 0 || secs == 0) && (minutes > 0 || secs > 0))
    ensures hours > 0 ==> VoiceOverText(hours, minutes, secs) == CountNoun(hours, "hour")
    ensures hours == 0 && minutes > 0 ==> VoiceOverText(hours, minutes, secs) == CountNoun(minutes, "minute")
    ensures hours == 0 && secs > 0 ==> VoiceOverText(hours, minutes, secs) == CountNoun(secs, "second")
  {
    var a, b, c := CountNoun(hours, "hour"), CountNoun(minutes, "minute"), CountNoun(secs, "second");
    if hours > 0 {
      CountNounEnds(hours, Hour);
      TrimKeeps(a);
      assert (a + " ") + "" + "" == a + " ";
    } else if minutes > 0 {
      CountNounEnds(minutes, Minute);
      TrimKeeps(b);
      assert "" + (b + " ") + "" == b + " ";
    } else {
      CountNounEnds(secs, Second);
      TrimKeeps(c);
      assert "" + "" + c == c;
    }
  }

  /**
   * The VoiceOver text names the remaining time: it reads back as the
   * clock's hours and minutes, and the seconds only below an hour, so it
   * adds up to the exact seconds below an hour and to the whole minutes
   * from an hour up.
   */
  lemma VoiceOverRoundTrip(seconds: nat)
    ensures ParseSpoken(FormatTimeForVoiceOver(seconds))
      == Some(Reading(seconds / 3600, (seconds % 3600) / 60, if seconds < 3600 then seconds % 60 else 0))
    ensures ReadingSeconds(ParseSpoken(FormatTimeForVoiceOver(seconds)).value)
      == if seconds >= 3600 then seconds - seconds % 60 else seconds
  {
    var h, m, s := seconds / 3600, (seconds % 3600) / 60, seconds % 60;
    assert ClockSeconds(h, m, if h == 0 then s else 0)
      == (if seconds >= 3600 then seconds - seconds % 60 else seconds) by {
      ClockDecomposition(seconds);
    }
    assert FormatTimeForVoiceOver(seconds) == VoiceOverText(h, m, s);
    VoiceOverTextReadsBack(h, m, s);
  }
}
