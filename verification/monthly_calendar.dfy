/**
 * The monthly calendar: the month it shows, the grid of week rows it lays
 * the days of that month out in, and the colour buckets of a day cell.
 * The week's first day and the month's bounds are parameters; a day is
 * always 86400 seconds long.
 */
module MonthlyCalendar {
  import opened Wrappers
  import opened Calendar
  import DataModels
  import PC = ProgressCalculator

  /** One entry of the month's data: the day, its minutes, whether it had a session. */
  type DaySession = PC.MonthDay

  /** A grid slot: a day of the month with its entry, or an empty cell. */
  type Slot = Option<DaySession>

  /** `currentMonth`: the first entry's date, or now when there are no entries. */
  function CurrentMonth(data: seq<DaySession>, now: int): (r: int)
    ensures |data| > 0 ==> r == data[0].date
    ensures |data| == 0 ==> r == now
  {
    if |data| > 0 then data[0].date else now
  }

  /** For the month's own data the calendar shows the month that starts at its first day. */
  lemma CurrentMonthOfMonthlyData(ss: seq<DataModels.Session>, monthStart: int, daysInMonth: nat, now: int)
    requires daysInMonth > 0
    ensures CurrentMonth(PC.MonthlyData(ss, monthStart, daysInMonth), now) == monthStart
  {
    assert PC.MonthlyData(ss, monthStart, daysInMonth)[0].date == monthStart + 0 * SecondsPerDay;
  }

  /** `monthData.first { same day }`: the earliest entry on `day`. */
  function FirstOnDay(data: seq<DaySession>, day: int): (r: Option<DaySession>)
    ensures r.None? <==> forall i :: 0 <= i < |data| ==> DayOf(data[i].date) != day
    ensures r.Some? ==> exists i :: (0 <= i < |data| && data[i] == r.value && DayOf(data[i].date) == day
                                    && forall j :: 0 <= j < i ==> DayOf(data[j].date) != day)
  {
    if |data| == 0 then None
    else if DayOf(data[0].date) == day then Some(data[0])
    else
      var r := FirstOnDay(data[1..], day);
      assert r.Some? ==> exists i :: (0 <= i < |data| && data[i] == r.value && DayOf(data[i].date) == day
                                     && forall j :: 0 <= j < i ==> DayOf(data[j].date) != day) by {
        if r.Some? {
          var i :| 0 <= i < |data| - 1 && data[1..][i] == r.value && DayOf(data[1..][i].date) == day
            && forall j :: 0 <= j < i ==> DayOf(data[1..][j].date) != day;
          assert data[i + 1] == r.value;
          forall j | 0 <= j < i + 1 ensures DayOf(data[j].date) != day {
            if j > 0 {
              assert data[j] == data[1..][j - 1];
            }
          }
        }
      }
      assert r.None? ==> forall i :: 0 <= i < |data| ==> DayOf(data[i].date) != day by {
        if r.None? {
          forall i | 0 <= i < |data| ensures DayOf(data[i].date) != day {
            if i > 0 {
              assert data[i] == data[1..][i - 1];
            }
          }
        }
      }
      r
  }

  /** What the grid shows for the day starting at `date`: its entry inside the month, nothing outside. */
  function SlotFor(data: seq<DaySession>, monthStart: int, monthEnd: int, date: int): Slot {
    if monthStart <= date < monthEnd then FirstOnDay(data, DayOf(date)) else None
  }

  /** The days the grid walks: from `start`, a day at a time, while before `end`. */
  function DaysFrom(start: int, end: int): (r: seq<int>)
    ensures |r| > 0 <==> start < end
    decreases end - start
  {
    if start >= end then [] else [start] + DaysFrom(start + SecondsPerDay, end)
  }

  /**
   * The walk visits `start` and the days after it, one day apart, all
   * before `end`, and stops at the first day at or past `end`.
   */
  lemma {:induction false} DaysFromSpaced(start: int, end: int)
    ensures var r := DaysFrom(start, end);
      && (forall k :: 0 <= k < |r| ==> r[k] == start + k * SecondsPerDay && r[k] < end)
      && (|r| > 0 ==> end <= start + |r| * SecondsPerDay)
    decreases end - start
  {
    if start < end {
      DaysFromSpaced(start + SecondsPerDay, end);
      var rest := DaysFrom(start + SecondsPerDay, end);
      var r := DaysFrom(start, end);
      assert forall k :: 1 <= k < |r| ==> r[k] == rest[k - 1];
    }
  }

  /** The slot of each day walked, in order. */
  function SlotsOf(data: seq<DaySession>, monthStart: int, monthEnd: int, days: seq<int>): (r: seq<Slot>)
    ensures |r| == |days|
    ensures forall k :: 0 <= k < |days| ==> r[k] == SlotFor(data, monthStart, monthEnd, days[k])
  {
    seq(|days|, k requires 0 <= k < |days| => SlotFor(data, monthStart, monthEnd, days[k]))
  }

  /** `n` empty cells. */
  function Blank(n: nat): (r: seq<Slot>)
    ensures |r| == n && forall c :: 0 <= c < n ==> r[c] == None
  {
    seq(n, c => None)
  }

  /** The rows read one after the other. */
  function Concat(rows: seq<seq<Slot>>): seq<Slot> {
    if |rows| == 0 then [] else Concat(rows[..|rows| - 1]) + rows[|rows| - 1]
  }

  lemma ConcatSnoc(rows: seq<seq<Slot>>, row: seq<Slot>)
    ensures Concat(rows + [row]) == Concat(rows) + row
  {
    assert (rows + [row])[..|rows|] == rows;
  }

  /** In rows of seven, row `w` column `c` is cell `7w + c` of the concatenation. */
  lemma {:induction false} ConcatIndex(rows: seq<seq<Slot>>, w: int, c: int)
    requires forall v :: 0 <= v < |rows| ==> |rows[v]| == 7
    requires 0 <= w < |rows| && 0 <= c < 7
    ensures |Concat(rows)| == |rows| * 7
    ensures Concat(rows)[w * 7 + c] == rows[w][c]
  {
    var init := rows[..|rows| - 1];
    ConcatLength(init);
    if w < |rows| - 1 {
      ConcatIndex(init, w, c);
    }
  }

  lemma {:induction false} ConcatLength(rows: seq<seq<Slot>>)
    requires forall v :: 0 <= v < |rows| ==> |rows[v]| == 7
    ensures |Concat(rows)| == |rows| * 7
  {
    if |rows| > 0 {
      ConcatLength(rows[..|rows| - 1]);
    }
  }

  /**
   * `weeks`: rows of seven slots over the days from the week start to the
   * month's end, the last row padded with empty cells.
   */
  method Weeks(data: seq<DaySession>, weekStart: int, monthStart: int, monthEnd: int)
    returns (weeks: seq<seq<Slot>>)
    ensures forall w :: 0 <= w < |weeks| ==> |weeks[w]| == 7
    ensures var days := DaysFrom(weekStart, monthEnd);
      |weeks| * 7 - 7 < |days| <= |weeks| * 7
      && Concat(weeks) == SlotsOf(data, monthStart, monthEnd, days) + Blank(|weeks| * 7 - |days|)
  {
    ghost var slots := SlotsOf(data, monthStart, monthEnd, DaysFrom(weekStart, monthEnd));
    var currentWeek;
    weeks, currentWeek := FullRows(data, weekStart, monthStart, monthEnd);
    if |currentWeek| > 0 {
      var padded := PadRow(currentWeek);
      assert Concat(weeks) + padded == slots + Blank(7 - |currentWeek|);
      ConcatSnoc(weeks, padded);
      weeks := weeks + [padded];
    } else {
      assert Blank(0) == [];
    }
  }

  /** The walk over the days: the completed rows of seven, and the unfinished last row. */
  method FullRows(data: seq<DaySession>, weekStart: int, monthStart: int, monthEnd: int)
    returns (weeks: seq<seq<Slot>>, currentWeek: seq<Slot>)
    ensures forall w :: 0 <= w < |weeks| ==> |weeks[w]| == 7
    ensures |currentWeek| < 7 && |Concat(weeks)| == |weeks| * 7
    ensures Concat(weeks) + currentWeek == SlotsOf(data, monthStart, monthEnd, DaysFrom(weekStart, monthEnd))
  {
    ghost var days := DaysFrom(weekStart, monthEnd);
    ghost var slots := SlotsOf(data, monthStart, monthEnd, days);
    ghost var k := 0;
    weeks := [];
    currentWeek := [];
    var currentDate := weekStart;
    while currentDate < monthEnd
      invariant 0 <= k <= |days|
      invariant DaysFrom(currentDate, monthEnd) == days[k..]
      invariant |currentWeek| < 7
      invariant forall w :: 0 <= w < |weeks| ==> |weeks[w]| == 7
      invariant |Concat(weeks)| == |weeks| * 7
      invariant Concat(weeks) + currentWeek == slots[..k]
      decreases monthEnd - currentDate
    {
      assert days[k] == currentDate && days[k + 1..] == DaysFrom(currentDate + SecondsPerDay, monthEnd);
      var cell: Slot;
      if monthStart <= currentDate < monthEnd {
        cell := FirstOnDay(data, DayOf(currentDate));
      } else {
        cell := None;
      }
      assert slots[..k + 1] == slots[..k] + [cell];
      currentWeek := currentWeek + [cell];
      if |currentWeek| == 7 {
        ConcatSnoc(weeks, currentWeek);
        weeks := weeks + [currentWeek];
        currentWeek := [];
      }
      currentDate := currentDate + SecondsPerDay;
      k := k + 1;
    }
    assert k == |days| && slots[..k] == slots;
  }

  /** The padding of the last row: empty cells appended up to seven. */
  method PadRow(row: seq<Slot>) returns (padded: seq<Slot>)
    requires |row| <= 7
    ensures padded == row + Blank(7 - |row|)
  {
    padded := row;
    while |padded| < 7
      invariant |row| <= |padded| <= 7
      invariant padded == row + Blank(|padded| - |row|)
      decreases 7 - |padded|
    {
      assert Blank(|padded| - |row| + 1) == Blank(|padded| - |row|) + [None];
      padded := padded + [None];
    }
  }

  /** The grid cell in row `w`, column `c`: the day `7w + c` of the walk, or empty padding after it. */
  lemma GridCell(rows: seq<seq<Slot>>, data: seq<DaySession>, weekStart: int, monthStart: int, monthEnd: int, w: int, c: int)
    requires forall v :: 0 <= v < |rows| ==> |rows[v]| == 7
    requires var days := DaysFrom(weekStart, monthEnd);
      |days| <= |rows| * 7 && Concat(rows) == SlotsOf(data, monthStart, monthEnd, days) + Blank(|rows| * 7 - |days|)
    requires 0 <= w < |rows| && 0 <= c < 7
    ensures var days := DaysFrom(weekStart, monthEnd);
      rows[w][c] == if w * 7 + c < |days| then SlotFor(data, monthStart, monthEnd, days[w * 7 + c]) else None
  {
    ConcatIndex(rows, w, c);
  }

  /**
   * Started at a day boundary on or before the month's first day, the walk
   * reaches every day of the month: day `i` of the month is walked day `o + i`,
   * `o` being the days from the week start to the month start.
   */
  lemma GridCoversMonth(weekStart: int, monthStart: int, daysInMonth: nat, i: int)
    requires weekStart <= monthStart && (monthStart - weekStart) % SecondsPerDay == 0
    requires 0 <= i < daysInMonth
    ensures var days := DaysFrom(weekStart, monthStart + daysInMonth * SecondsPerDay);
      var o := (monthStart - weekStart) / SecondsPerDay;
      o + i < |days| && days[o + i] == monthStart + i * SecondsPerDay
  {
    var end := monthStart + daysInMonth * SecondsPerDay;
    DaysFromSpaced(weekStart, end);
    var days := DaysFrom(weekStart, end);
    var o := (monthStart - weekStart) / SecondsPerDay;
    assert monthStart - weekStart == o * SecondsPerDay;
    assert |days| > 0;
    assert days[|days| - 1] < end;
    assert o + i < |days|;
  }

  /** The grid shows every day of the month with its own entry of the month's data. */
  lemma GridShowsEachDaysEntry(ss: seq<DataModels.Session>, monthStart: int, daysInMonth: nat, i: int)
    requires 0 <= i < daysInMonth
    ensures var data := PC.MonthlyData(ss, monthStart, daysInMonth);
      SlotFor(data, monthStart, monthStart + daysInMonth * SecondsPerDay, monthStart + i * SecondsPerDay) == Some(data[i])
  {
    var data := PC.MonthlyData(ss, monthStart, daysInMonth);
    var day := DayOf(monthStart + i * SecondsPerDay);
    DayOfShift(monthStart, i);
    forall j | 0 <= j < daysInMonth ensures DayOf(data[j].date) == DayOf(monthStart) + j {
      DayOfShift(monthStart, j);
    }
    var r := FirstOnDay(data, day);
    assert DayOf(data[i].date) == day;
    var i' :| 0 <= i' < |data| && data[i'] == r.value && DayOf(data[i'].date) == day
      && forall j :: 0 <= j < i' ==> DayOf(data[j].date) != day;
    assert i' == i;
  }

  // ------------------------------------------------------------ day cells

  /** At this many minutes a day counts as high activity. */
  const HighActivityMinutes: int := 20

  datatype CellColor = NoActivity | SomeActivity | HighActivity
  datatype TextColor = PrimaryText | WhiteText

  /** `cellColor`: grey without a session, the primary colour from 20 minutes, the secondary otherwise. */
  function CellColorOf(d: DaySession): (r: CellColor)
    ensures r == NoActivity <==> !d.hasSession
    ensures r == HighActivity <==> d.hasSession && d.minutes >= HighActivityMinutes
    ensures r == SomeActivity <==> d.hasSession && d.minutes < HighActivityMinutes
  {
    if !d.hasSession then NoActivity
    else if d.minutes >= HighActivityMinutes then HighActivity
    else SomeActivity
  }

  /** `textColor`: white from 20 minutes, whether or not the entry claims a session. */
  function TextColorOf(d: DaySession): (r: TextColor)
    ensures r == WhiteText <==> d.minutes >= HighActivityMinutes
  {
    if d.minutes >= HighActivityMinutes then WhiteText else PrimaryText
  }

  /**
   * On the month's own data a cell is grey exactly on days without minutes,
   * and white text appears exactly on the high-activity cells.
   */
  lemma CellBucketsAgree(ss: seq<DataModels.Session>, monthStart: int, daysInMonth: nat, i: int)
    requires 0 <= i < daysInMonth
    ensures var d := PC.MonthlyData(ss, monthStart, daysInMonth)[i];
      && (CellColorOf(d) == NoActivity <==> d.minutes == 0)
      && (TextColorOf(d) == WhiteText <==> CellColorOf(d) == HighActivity)
  {
    var d := PC.MonthlyData(ss, monthStart, daysInMonth)[i];
    assert d.hasSession <==> d.minutes > 0;
  }
}
