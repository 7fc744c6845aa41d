/**
  Folding ticks into minute bars.  The class mutates its fields as the worker does and is
  proved against `Apply`; TickTheorems relates every run to batch grouping.
 */
module TickBars {
  import opened RealArithmetic
  import opened Wrappers
  import opened TaipeiTime

  /** A tick: its instant in UTC microseconds, the UTC offset it was written with, and its numbers. */
  datatype Tick = Tick(at: int, offset: int, price: Option<real>, volume: Option<real>)

  datatype Bar = Bar(
    tradeDate: int, minute: int, open: real, high: real, low: real, close: real, volume: real, lastAt: int,
    dayOpen: Option<real>, dayHigh: Option<real>, dayLow: Option<real>)

  datatype Machine = Machine(
    current: Option<Bar>, tradeDate: Option<int>,
    dayOpen: Option<real>, dayHigh: Option<real>, dayLow: Option<real>)

  const Initial := Machine(None, None, None, None, None)

  /** The instant at which the tick's minute starts, on the tick's own clock. */
  function MinuteStart(t: Tick): int {
    MinuteFloor(t.at + t.offset) - t.offset
  }

  function DateOf(t: Tick): int {
    TradeDateFor(t.at + t.offset)
  }

  /** Day session by the Taipei clock, 08:45:00 to 13:45:00 inclusive. */
  predicate InSession(t: Tick) {
    var local := (t.at + TAIPEI_OFFSET_SECONDS * MICROS_PER_SECOND) % MICROS_PER_DAY;
    8 * MICROS_PER_HOUR + 45 * MICROS_PER_MINUTE <= local <= 13 * MICROS_PER_HOUR + 45 * MICROS_PER_MINUTE
  }

  function VolumeOf(t: Tick): real {
    t.volume.GetOr(0.0)
  }

  function UpdateDay(m: Machine, t: Tick): Machine
    requires t.price.Some?
  {
    var p := t.price.value;
    var m := if m.tradeDate != Some(DateOf(t)) then Machine(m.current, Some(DateOf(t)), None, None, None) else m;
    if !InSession(t) then m
    else
      var m := if m.dayOpen.None? then m.(dayOpen := Some(p)) else m;
      if m.dayHigh.None? || m.dayLow.None? then m.(dayHigh := Some(p), dayLow := Some(p))
      else m.(dayHigh := Some(Max(m.dayHigh.value, p)), dayLow := Some(Min(m.dayLow.value, p)))
  }

  function OpenBar(m: Machine, t: Tick): Bar
    requires t.price.Some?
  {
    var p := t.price.value;
    Bar(DateOf(t), MinuteStart(t), p, p, p, p, VolumeOf(t), t.at, m.dayOpen, m.dayHigh, m.dayLow)
  }

  function ExtendBar(b: Bar, m: Machine, t: Tick): Bar
    requires t.price.Some?
  {
    var p := t.price.value;
    b.(high := Max(b.high, p), low := Min(b.low, p), close := p, volume := b.volume + VolumeOf(t), lastAt := t.at,
       dayOpen := m.dayOpen, dayHigh := m.dayHigh, dayLow := m.dayLow)
  }

  predicate Drops(m: Machine, t: Tick) {
    t.price.None? || (m.current.Some? && MinuteStart(t) < m.current.value.minute)
  }

  /** New state and the bar that the tick completes, if any. */
  function Apply(m: Machine, t: Tick): (Machine, Option<Bar>) {
    if Drops(m, t) then (m, None)
    else
      var d := UpdateDay(m, t);
      if m.current.None? then (d.(current := Some(OpenBar(d, t))), None)
      else if MinuteStart(t) == m.current.value.minute then
        (d.(current := Some(ExtendBar(m.current.value, d, t))), None)
      else (d.(current := Some(OpenBar(d, t))), m.current)
  }

  class TickStateMachine {
    var current: Option<Bar>
    var tradeDate: Option<int>
    var dayOpen: Option<real>
    var dayHigh: Option<real>
    var dayLow: Option<real>

    ghost function State(): Machine
      reads this
    {
      Machine(current, tradeDate, dayOpen, dayHigh, dayLow)
    }

    constructor ()
      ensures State() == Initial
    {
      current, tradeDate, dayOpen, dayHigh, dayLow := None, None, None, None, None;
    }

    method ApplyTick(t: Tick) returns (archived: Option<Bar>, dropped: bool)
      modifies this
      ensures (State(), archived) == Apply(old(State()), t)
      ensures dropped == Drops(old(State()), t)
    {
      archived, dropped := None, false;
      if t.price.None? {
        return None, true;
      }
      var price, volume := t.price.value, t.volume.GetOr(0.0);
      var minute := MinuteStart(t);
      if current.None? {
        UpdateDayState(t);
        current := Some(Bar(DateOf(t), minute, price, price, price, price, volume, t.at, dayOpen, dayHigh, dayLow));
        return;
      }
      var bar := current.value;
      if minute < bar.minute {
        return None, true;
      }
      UpdateDayState(t);
      if minute == bar.minute {
        current := Some(bar.(high := Max(bar.high, price), low := Min(bar.low, price), close := price,
                             volume := bar.volume + volume, lastAt := t.at,
                             dayOpen := dayOpen, dayHigh := dayHigh, dayLow := dayLow));
        return;
      }
      archived := Some(bar);
      current := Some(Bar(DateOf(t), minute, price, price, price, price, volume, t.at, dayOpen, dayHigh, dayLow));
    }

    method UpdateDayState(t: Tick)
      requires t.price.Some?
      modifies this
      ensures State() == UpdateDay(old(State()), t)
    {
      var price := t.price.value;
      if tradeDate != Some(DateOf(t)) {
        tradeDate := Some(DateOf(t));
        dayOpen, dayHigh, dayLow := None, None, None;
      }
      if !InSession(t) {
        return;
      }
      if dayOpen.None? {
        dayOpen := Some(price);
      }
      if dayHigh.None? || dayLow.None? {
        dayHigh := Some(price);
        dayLow := Some(price);
        return;
      }
      dayHigh := Some(Max(dayHigh.value, price));
      dayLow := Some(Min(dayLow.value, price));
    }
  }
}
