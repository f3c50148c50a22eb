/**
 * Calendar arithmetic over timestamps.
 *
 * A timestamp is an integer number of seconds in the user's local time and a
 * calendar day is a fixed 86400-second interval; `DayOf` is the index of the
 * day holding a timestamp, so `StartOfDay` plays the part of
 * `Calendar.startOfDay(for:)` and "same day as" is equality of day indices.
 * Week and month bounds are not derived here: they are passed to the
 * operations that need them.
 */
module Calendar {

  const SecondsPerDay: int := 86400
  const SecondsPerHour: int := 3600
  const SecondsPerMinute: int := 60

  /** Index of the calendar day containing `t` (floor division). */
  function DayOf(t: int): int {
    t / SecondsPerDay
  }

  /** First second of the day containing `t`. */
  function StartOfDay(t: int): (r: int)
    ensures r <= t < r + SecondsPerDay
    ensures DayOf(r) == DayOf(t)
  {
    DayOf(t) * SecondsPerDay
  }

  /** A timestamp lies on day `day` exactly when it is inside that day's half-open interval. */
  lemma DayOfInterval(t: int, day: int)
    ensures DayOf(t) == day <==> day * SecondsPerDay <= t < day * SecondsPerDay + SecondsPerDay
  {
    var q, r := t / SecondsPerDay, t % SecondsPerDay;
    assert t == q * SecondsPerDay + r && 0 <= r < SecondsPerDay;
    if day < q {
      assert day * SecondsPerDay + SecondsPerDay <= q * SecondsPerDay;
    } else if day > q {
      assert q * SecondsPerDay + SecondsPerDay <= day * SecondsPerDay;
    }
  }

  /** Later timestamps never fall on earlier days. */
  lemma DayOfMonotone(a: int, b: int)
    requires a <= b
    ensures DayOf(a) <= DayOf(b)
  {
    DayOfInterval(a, DayOf(a));
    DayOfInterval(b, DayOf(b));
  }

  /** Adding whole days to a timestamp moves its day index by the same amount. */
  lemma DayOfShift(t: int, k: int)
    ensures DayOf(t + k * SecondsPerDay) == DayOf(t) + k
  {
    DayOfInterval(t, DayOf(t));
    DayOfInterval(t + k * SecondsPerDay, DayOf(t) + k);
  }

  /** Swift's integer division, which truncates toward zero (Dafny's `/` is Euclidean). */
  function TruncDiv(a: int, b: int): int
    requires b > 0
  {
    if a >= 0 then a / b else -((-a) / b)
  }

  /**
   * What the code asks `Date()` and `Calendar.current`: the current time,
   * the bounds [weekStart, weekEnd) of the current week and [monthStart,
   * monthEnd) of the current month, and the number of days in that month.
   */
  datatype Clock = Clock(now: int, weekStart: int, weekEnd: int, monthStart: int, monthEnd: int, daysInMonth: nat) {
    function Today(): int {
      DayOf(now)
    }
  }
}
