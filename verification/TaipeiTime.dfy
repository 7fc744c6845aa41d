/**
  Wall-clock arithmetic shared by the stream workers.  A wall time is the number
  of microseconds that a clock in the event's own time zone shows since midnight
  of day 0; days, minutes and trade dates are plain integers.
 */
module TaipeiTime {

  const MICROS_PER_SECOND := 1_000_000
  const MICROS_PER_MINUTE := 60_000_000
  const MICROS_PER_HOUR := 3_600_000_000
  const MICROS_PER_DAY := 86_400_000_000
  const TAIPEI_OFFSET_SECONDS := 28_800

  function DayOf(wall: int): int { wall / MICROS_PER_DAY }

  function HourOf(wall: int): int { wall % MICROS_PER_DAY / MICROS_PER_HOUR }

  function MinuteOf(wall: int): int { wall % MICROS_PER_HOUR / MICROS_PER_MINUTE }

  function SecondOf(wall: int): int { wall % MICROS_PER_MINUTE / MICROS_PER_SECOND }

  function MinuteFloor(wall: int): int { wall - wall % MICROS_PER_MINUTE }

  /** Python's ordering of (hour, minute, second) tuples. */
  predicate TupleAtLeast(h: int, m: int, s: int, h0: int, m0: int, s0: int) {
    h > h0 || (h == h0 && (m > m0 || (m == m0 && s >= s0)))
  }

  function TradeDateFor(wall: int): int {
    if TupleAtLeast(HourOf(wall), MinuteOf(wall), SecondOf(wall), 15, 0, 0)
    then DayOf(wall)
    else DayOf(wall) - 1
  }

  /** The Taipei wall time of a whole Unix second. */
  function TaipeiWall(unixSecond: int): int {
    (unixSecond + TAIPEI_OFFSET_SECONDS) * MICROS_PER_SECOND
  }

  /** The hour/minute/second comparison is floor division by a day that starts at 15:00. */
  lemma TradeDateIsShiftedFloor(wall: int)
    ensures TradeDateFor(wall) == (wall - 15 * MICROS_PER_HOUR) / MICROS_PER_DAY
  {
    var tod := wall % MICROS_PER_DAY;
    assert wall == DayOf(wall) * MICROS_PER_DAY + tod;
    assert tod >= 15 * MICROS_PER_HOUR <==> HourOf(wall) >= 15;
  }

  lemma TradeDateMonotone(w1: int, w2: int)
    requires w1 <= w2
    ensures TradeDateFor(w1) <= TradeDateFor(w2)
  {
    TradeDateIsShiftedFloor(w1);
    TradeDateIsShiftedFloor(w2);
  }

  /** No minute straddles two trade dates. */
  lemma TradeDateConstantInMinute(w1: int, w2: int)
    requires MinuteFloor(w1) == MinuteFloor(w2)
    ensures TradeDateFor(w1) == TradeDateFor(w2)
  {
    TradeDateIsShiftedFloor(w1);
    TradeDateIsShiftedFloor(w2);
    var shift, minutes := 15 * 60, 24 * 60;
    var q1, q2 := w1 / MICROS_PER_MINUTE, w2 / MICROS_PER_MINUTE;
    assert q1 == q2;
    FloorThroughMinutes(w1);
    FloorThroughMinutes(w2);
  }

  lemma FloorThroughMinutes(w: int)
    ensures (w - 15 * MICROS_PER_HOUR) / MICROS_PER_DAY == (w / MICROS_PER_MINUTE - 900) / 1440
  {
    var m := w / MICROS_PER_MINUTE;
    var d := (m - 900) / 1440;
    assert w - 15 * MICROS_PER_HOUR == (m - 900) * MICROS_PER_MINUTE + w % MICROS_PER_MINUTE;
    assert (m - 900) == d * 1440 + (m - 900) % 1440;
  }
}
