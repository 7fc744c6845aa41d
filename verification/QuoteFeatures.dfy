/**
  Quote features: volume split by side, the long/short force and its day extremes, and the last
  snapshot of each minute.
 */
module QuoteFeatures {
  import opened Wrappers
  import opened TaipeiTime
  import BidAskSampler

  /** A quote event: UTC microseconds and offset of its time stamp, and its numbers with defaults filled in. */
  datatype Quote = Quote(at: int, offset: int, asks: real, bids: real, volume: real, outside: bool)

  datatype Range = Range(low: real, high: real)

  datatype Snapshot = Snapshot(
    at: int, offset: int, chip: real, chipDay: Range, chipStrength: real,
    force: real, forceDay: Range, forceStrength: real)

  datatype Machine = Machine(
    outside: real, inside: real, chipDay: Option<Range>, forceDay: Option<Range>,
    tradeDate: Option<int>, minute: Option<int>, last: Option<Snapshot>)

  const Initial := Machine(0.0, 0.0, None, None, None, None, None)

  /** The instant at which the minute of a time stamp starts, on its own clock. */
  function StampMinute(at: int, offset: int): int {
    MinuteFloor(at + offset) - offset
  }

  function MinuteStart(q: Quote): int {
    StampMinute(q.at, q.offset)
  }

  function DateOf(q: Quote): int {
    TradeDateFor(q.at + q.offset)
  }

  function Chip(q: Quote): real {
    q.asks - q.bids
  }

  function Widen(r: Option<Range>, x: real): Range {
    if r.None? then Range(x, x)
    else Range(if x < r.value.low then x else r.value.low, if r.value.high < x then x else r.value.high)
  }

  function Strength(x: real, r: Range): real {
    BidAskSampler.Clamp01(BidAskSampler.Strength(x, r.low, r.high))
  }

  function Reset(q: Quote): Machine {
    Machine(0.0, 0.0, None, None, Some(DateOf(q)), Some(MinuteStart(q)), None)
  }

  function Started(m: Machine, q: Quote): Machine {
    if m.tradeDate != Some(DateOf(q)) then Reset(q) else m
  }

  function SnapshotOf(m: Machine, q: Quote): Snapshot {
    var s := Started(m, q);
    var force := (if q.outside then s.outside + q.volume else s.outside)
               - (if q.outside then s.inside else s.inside + q.volume);
    var chipDay, forceDay := Widen(s.chipDay, Chip(q)), Widen(s.forceDay, force);
    Snapshot(q.at, q.offset, Chip(q), chipDay, Strength(Chip(q), chipDay), force, forceDay, Strength(force, forceDay))
  }

  /** The snapshot a quote pushes into the archive. */
  function ArchivedBy(m: Machine, q: Quote): Option<Snapshot> {
    var s := Started(m, q);
    if s.minute.Some? && MinuteStart(q) > s.minute.value then s.last else None
  }

  function Next(m: Machine, q: Quote): Machine {
    var s, snapshot := Started(m, q), SnapshotOf(m, q);
    Machine(
      if q.outside then s.outside + q.volume else s.outside,
      if q.outside then s.inside else s.inside + q.volume,
      Some(snapshot.chipDay), Some(snapshot.forceDay), s.tradeDate,
      if s.minute.None? || MinuteStart(q) > s.minute.value then Some(MinuteStart(q)) else s.minute,
      Some(snapshot))
  }

  class QuoteFeatureState {
    var outsideVolume: real
    var insideVolume: real
    var chipDay: Option<Range>
    var forceDay: Option<Range>
    var lastTradeDate: Option<int>
    var currentMinute: Option<int>
    var currentMinuteLastSnapshot: Option<Snapshot>

    ghost function State(): Machine
      reads this
    {
      Machine(outsideVolume, insideVolume, chipDay, forceDay, lastTradeDate, currentMinute, currentMinuteLastSnapshot)
    }

    constructor ()
      ensures State() == Initial
    {
      outsideVolume, insideVolume, chipDay, forceDay := 0.0, 0.0, None, None;
      lastTradeDate, currentMinute, currentMinuteLastSnapshot := None, None, None;
    }

    method ResetForTradeDate(q: Quote)
      modifies this
      ensures State() == Reset(q)
    {
      outsideVolume, insideVolume, chipDay, forceDay := 0.0, 0.0, None, None;
      currentMinute := Some(MinuteStart(q));
      currentMinuteLastSnapshot := None;
      lastTradeDate := Some(DateOf(q));
    }

    method Apply(q: Quote) returns (snapshot: Snapshot, archived: Option<Snapshot>)
      modifies this
      ensures State() == Next(old(State()), q)
      ensures snapshot == SnapshotOf(old(State()), q) && archived == ArchivedBy(old(State()), q)
    {
      if lastTradeDate != Some(DateOf(q)) {
        ResetForTradeDate(q);
      }
      var chip := q.asks - q.bids;
      if q.outside {
        outsideVolume := outsideVolume + q.volume;
      } else {
        insideVolume := insideVolume + q.volume;
      }
      var force := outsideVolume - insideVolume;
      chipDay := Some(Widen(chipDay, chip));
      forceDay := Some(Widen(forceDay, force));
      snapshot := Snapshot(q.at, q.offset, chip, chipDay.value, Strength(chip, chipDay.value),
                           force, forceDay.value, Strength(force, forceDay.value));
      archived := None;
      var minute := MinuteStart(q);
      if currentMinute.None? {
        currentMinute := Some(minute);
      } else if minute > currentMinute.value {
        archived := currentMinuteLastSnapshot;
        currentMinute := Some(minute);
        currentMinuteLastSnapshot := None;
      }
      currentMinuteLastSnapshot := Some(snapshot);
    }
  }
}
