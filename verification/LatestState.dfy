/**
  The latest-state worker: one in-memory state per symbol, a set of dirty symbols, batched
  write-back to Redis, and acknowledgement only once nothing is dirty.
 */
module LatestState {
  import opened RealArithmetic
  import opened Wrappers
  import opened TextOrder

  /** Each is stored with a score that it determines: 2, -2, 1, -1 and 0. */
  datatype Strength = NewHigh | NewLow | StrongUp | StrongDown | Flat

  datatype Gap = Gap(value: real, pct: real, up: bool, down: bool)

  datatype SpotState = SpotState(
    lastPrice: real, open: real, high: real, low: real, close: real, sessionHigh: real, sessionLow: real,
    isNewHigh: bool, isNewLow: bool, strength: Strength, updatedAt: int,
    priceChg: Option<real>, pctChg: Option<real>, referencePrice: Option<real>, gap: Option<Gap>)

  /** A parsed stream entry; a blank symbol stands for an entry without symbol or time stamp. */
  datatype Entry = Entry(
    id: int, symbol: string, at: int, tradeDate: int, ingestSeq: int, lastPrice: Option<real>, open: Option<real>,
    close: Option<real>, high: Option<real>, low: Option<real>, referencePrice: Option<real>,
    priceChg: Option<real>, pctChg: Option<real>)

  function ResolveStrength(newHigh: bool, newLow: bool, open: real, last: real): Strength {
    if newHigh then NewHigh
    else if newLow then NewLow
    else if open == 0.0 then Flat
    else
      var pct := (last - open) / open * 100.0;
      if pct >= 0.8 then StrongUp else if pct <= -0.8 then StrongDown else Flat
  }

  /** An event with its defaults filled in. */
  datatype Event = Event(
    at: int, tradeDate: int, last: real, open: real, close: real, high: real, low: real,
    referencePrice: Option<real>, priceChg: Option<real>, pctChg: Option<real>)

  datatype Parsed = Ignored | Broken | Usable(event: Event)

  /**
    The reading of an entry after the sequence check.  Without a price it is ignored.  It is
    broken when the reference must be derived from a close price that is not there.
   */
  function Parse(x: Entry): Parsed {
    var last := if x.lastPrice.Some? then x.lastPrice else x.close;
    if last.None? then Ignored
    else if x.referencePrice.None? && x.priceChg.Some? && x.close.None? then Broken
    else
      var reference := if x.referencePrice.None? && x.priceChg.Some?
        then Some(x.close.value - x.priceChg.value) else x.referencePrice;
      var close := x.close.GetOr(last.value);
      var open := x.open.GetOr(close);
      Usable(Event(x.at, x.tradeDate, last.value, open, close, x.high.GetOr(Max(open, close)),
                   x.low.GetOr(Min(open, close)), reference, x.priceChg, x.pctChg))
  }

  function GapOf(open: real, reference: real): Gap {
    var value := open - reference;
    Gap(value, if reference == 0.0 then 0.0 else value / reference * 100.0, value > 0.0, value < 0.0)
  }

  function Either<T>(a: Option<T>, b: Option<T>): Option<T> {
    if a.Some? then a else b
  }

  /** The first event of a symbol. */
  function FirstState(e: Event): SpotState {
    SpotState(e.last, e.open, e.high, e.low, e.close, e.high, e.low, false, false,
              ResolveStrength(false, false, e.open, e.last), e.at, e.priceChg, e.pctChg, e.referencePrice,
              if e.referencePrice.Some? then Some(GapOf(e.open, e.referencePrice.value)) else None)
  }

  predicate TakesReference(s: SpotState, locked: Option<int>, e: Event) {
    e.referencePrice.Some? && (s.referencePrice.None? || locked != Some(e.tradeDate))
  }

  function NextState(s: SpotState, locked: Option<int>, e: Event): SpotState {
    var newHigh, newLow := e.high > s.sessionHigh, e.low < s.sessionLow;
    var reference := if TakesReference(s, locked, e) then e.referencePrice else s.referencePrice;
    SpotState(e.last, s.open, Max(s.high, e.high), Min(s.low, e.low), e.close,
              Max(s.sessionHigh, e.high), Min(s.sessionLow, e.low), newHigh, newLow,
              ResolveStrength(newHigh, newLow, s.open, e.last), e.at,
              Either(e.priceChg, s.priceChg), Either(e.pctChg, s.pctChg), reference,
              if reference.Some? then Some(GapOf(s.open, reference.value)) else s.gap)
  }

  // ----- the worker

  datatype Worker = Worker(
    latest: map<string, SpotState>, lastSeq: map<string, int>, referenceDate: map<string, int>,
    dirty: set<string>, redis: map<string, SpotState>, lastFlushAt: real)

  const Initial := Worker(map[], map[], map[], {}, map[], 0.0)

  function LastSeq(w: Worker, symbol: string): int {
    if symbol in w.lastSeq then w.lastSeq[symbol] else 0
  }

  predicate Stale(w: Worker, x: Entry) {
    x.ingestSeq > 0 && x.ingestSeq <= LastSeq(w, x.symbol)
  }

  predicate Applies(w: Worker, x: Entry) {
    x.symbol != "" && !Stale(w, x) && Parse(x).Usable?
  }

  /** False is the exception path: the entry stays pending. */
  predicate Handled(w: Worker, x: Entry) {
    x.symbol == "" || Stale(w, x) || !Parse(x).Broken?
  }

  function LockedDate(w: Worker, symbol: string): Option<int> {
    if symbol in w.referenceDate then Some(w.referenceDate[symbol]) else None
  }

  function StateAfter(w: Worker, symbol: string, e: Event): SpotState {
    if symbol in w.latest then NextState(w.latest[symbol], LockedDate(w, symbol), e) else FirstState(e)
  }

  predicate LocksDate(w: Worker, symbol: string, e: Event) {
    if symbol in w.latest then TakesReference(w.latest[symbol], LockedDate(w, symbol), e) else e.referencePrice.Some?
  }

  function Handle(w: Worker, x: Entry): Worker {
    if !Applies(w, x) then w
    else
      var e := Parse(x).event;
      Worker(w.latest[x.symbol := StateAfter(w, x.symbol, e)],
             if x.ingestSeq > 0 then w.lastSeq[x.symbol := x.ingestSeq] else w.lastSeq,
             if LocksDate(w, x.symbol, e) then w.referenceDate[x.symbol := e.tradeDate] else w.referenceDate,
             w.dirty + {x.symbol}, w.redis, w.lastFlushAt)
  }

  // ----- sorting the dirty set

  predicate IsLeast(s: set<string>, k: string) {
    k in s && forall j | j in s && j != k :: LexLess(k, j)
  }

  lemma LeastExists(s: set<string>)
    requires s != {}
    ensures exists k :: IsLeast(s, k)
  {
    var k :| k in s;
    var rest := s - {k};
    if rest == {} {
      assert s == {k};
      assert IsLeast(s, k);
    } else {
      LeastExists(rest);
      var r :| IsLeast(rest, r);
      LexTotal(k, r);
      if LexLess(k, r) {
        forall j | j in s && j != k
          ensures LexLess(k, j)
        {
          if j != r {
            LexTransitive(k, r, j);
          }
        }
        assert IsLeast(s, k);
      } else {
        assert IsLeast(s, r);
      }
    }
  }

  lemma LeastUnique(s: set<string>, a: string, b: string)
    requires IsLeast(s, a) && IsLeast(s, b)
    ensures a == b
  {
    if a != b {
      LexTransitive(a, b, a);
      LexIrreflexive(a);
    }
  }

  ghost function Least(s: set<string>): (k: string)
    requires s != {}
    ensures IsLeast(s, k)
  {
    LeastExists(s);
    var k :| IsLeast(s, k);
    k
  }

  ghost function Sorted(s: set<string>): (r: seq<string>)
    ensures |r| == |s| && forall x :: x in r <==> x in s
  {
    if s == {} then [] else [Least(s)] + Sorted(s - {Least(s)})
  }

  method SortSymbols(s: set<string>) returns (r: seq<string>)
    ensures r == Sorted(s)
  {
    r := [];
    var rest := s;
    while rest != {}
      invariant r + Sorted(rest) == Sorted(s)
      decreases rest
    {
      LeastExists(rest);
      var k :| k in rest && forall j | j in rest && j != k :: LexLess(k, j);
      LeastUnique(rest, k, Least(rest));
      assert r + ([k] + Sorted(rest - {k})) == (r + [k]) + Sorted(rest - {k});
      r := r + [k];
      rest := rest - {k};
    }
  }

  // ----- write-back

  /** A flush succeeds, or raises after some of its writes went through. */
  datatype Fate = Succeeds | Fails(wrote: set<string>)

  /** The symbols one flush writes: all dirty ones, or the first batch in symbol order. */
  ghost function Batch(w: Worker, size: nat, all: bool): seq<string> {
    var sorted := Sorted(w.dirty);
    if all || |sorted| <= size then sorted else sorted[..size]
  }

  function Members(s: seq<string>): (r: set<string>)
    ensures forall x :: x in r <==> x in s
  {
    set x | x in s
  }

  function Written(w: Worker, symbols: set<string>): map<string, SpotState> {
    map k | k in w.redis.Keys + (symbols * w.latest.Keys) ::
      if k in symbols && k in w.latest then w.latest[k] else w.redis[k]
  }

  ghost function Flush(w: Worker, size: nat, interval: real, force: bool, all: bool, now: real, fate: Fate): Worker {
    if w.dirty == {} || (!force && now - w.lastFlushAt < interval) then w
    else
      var batch := Members(Batch(w, size, all));
      match fate
      case Succeeds => w.(redis := Written(w, batch), dirty := w.dirty - batch, lastFlushAt := now)
      case Fails(wrote) => w.(redis := Written(w, batch * wrote))
  }

  ghost function HandleAll(w: Worker, entries: seq<Entry>): Worker {
    if entries == [] then w else Handle(HandleAll(w, entries[..|entries| - 1]), entries[|entries| - 1])
  }

  /** The ids of the entries that were handled without an exception. */
  ghost function Acceptable(w: Worker, entries: seq<Entry>): seq<int> {
    if entries == [] then []
    else
      var init, x := entries[..|entries| - 1], entries[|entries| - 1];
      if Handled(HandleAll(w, init), x) then Acceptable(w, init) + [x.id] else Acceptable(w, init)
  }

  class LatestStateRunner {
    const flushBatchSize: nat
    const flushInterval: real
    var latestState: map<string, SpotState>
    var lastIngestSeq: map<string, int>
    var referenceTradeDate: map<string, int>
    var dirtySymbols: set<string>
    var redis: map<string, SpotState>
    var lastFlushAt: real

    ghost function State(): Worker
      reads this
    {
      Worker(latestState, lastIngestSeq, referenceTradeDate, dirtySymbols, redis, lastFlushAt)
    }

    constructor (batchSize: int, interval: real)
      ensures State() == Initial && flushBatchSize >= 1
    {
      flushBatchSize := if batchSize < 1 then 1 else batchSize;
      flushInterval := interval;
      latestState, lastIngestSeq, referenceTradeDate, dirtySymbols, redis := map[], map[], map[], {}, map[];
      lastFlushAt := 0.0;
    }

    method HandleSpotEntry(x: Entry) returns (handled: bool)
      modifies this
      ensures State() == Handle(old(State()), x) && handled == Handled(old(State()), x)
    {
      if x.symbol == "" {
        return true;
      }
      var lastSeq := if x.symbol in lastIngestSeq then lastIngestSeq[x.symbol] else 0;
      if x.ingestSeq > 0 && x.ingestSeq <= lastSeq {
        return true;
      }
      var parsed := Parse(x);
      if parsed.Ignored? {
        return true;
      }
      if parsed.Broken? {
        return false;
      }
      var e := parsed.event;
      UpdateSymbol(x.symbol, e);
      if x.ingestSeq > 0 {
        lastIngestSeq := lastIngestSeq[x.symbol := x.ingestSeq];
      }
      dirtySymbols := dirtySymbols + {x.symbol};
      handled := true;
    }

    /** The two branches that create or change the state of one symbol. */
    method UpdateSymbol(symbol: string, e: Event)
      modifies this`latestState, this`referenceTradeDate
      ensures latestState == old(latestState)[symbol := StateAfter(old(State()), symbol, e)]
      ensures referenceTradeDate == if LocksDate(old(State()), symbol, e)
                                    then old(referenceTradeDate)[symbol := e.tradeDate] else old(referenceTradeDate)
    {
      if symbol !in latestState {
        latestState := latestState[symbol := FirstState(e)];
        if e.referencePrice.Some? {
          referenceTradeDate := referenceTradeDate[symbol := e.tradeDate];
        }
        return;
      }
      var current := AdvanceState(symbol, latestState[symbol], e);
      latestState := latestState[symbol := current];
    }

    method AdvanceState(symbol: string, s: SpotState, e: Event) returns (current: SpotState)
      modifies this`referenceTradeDate
      ensures current == NextState(s, LockedDate(old(State()), symbol), e)
      ensures referenceTradeDate == if TakesReference(s, LockedDate(old(State()), symbol), e)
                                    then old(referenceTradeDate)[symbol := e.tradeDate] else old(referenceTradeDate)
    {
      current := s;
      var previousHigh, previousLow := current.sessionHigh, current.sessionLow;
      current := current.(
        isNewHigh := e.high > previousHigh, isNewLow := e.low < previousLow, lastPrice := e.last,
        high := Max(current.high, e.high), low := Min(current.low, e.low), close := e.close,
        sessionHigh := Max(previousHigh, e.high), sessionLow := Min(previousLow, e.low));
      current := current.(strength := ResolveStrength(current.isNewHigh, current.isNewLow, current.open, e.last));
      if e.priceChg.Some? {
        current := current.(priceChg := e.priceChg);
      }
      if e.pctChg.Some? {
        current := current.(pctChg := e.pctChg);
      }
      var locked := if symbol in referenceTradeDate then Some(referenceTradeDate[symbol]) else None;
      if e.referencePrice.Some? && (current.referencePrice.None? || locked.None? || locked.value != e.tradeDate) {
        current := current.(referencePrice := e.referencePrice);
        referenceTradeDate := referenceTradeDate[symbol := e.tradeDate];
      }
      if current.referencePrice.Some? {
        current := current.(gap := Some(GapOf(current.open, current.referencePrice.value)));
      }
      current := current.(updatedAt := e.at);
    }

    method FlushDirtyOnce(force: bool, flushAll: bool, now: real, fate: Fate) returns (flushed: nat)
      modifies this`dirtySymbols, this`redis, this`lastFlushAt
      ensures State() == Flush(old(State()), flushBatchSize, flushInterval, force, flushAll, now, fate)
      ensures flushed == if fate.Fails? || (!force && now - old(lastFlushAt) < flushInterval) then 0
                         else |Batch(old(State()), flushBatchSize, flushAll)|
    {
      if dirtySymbols == {} {
        return 0;
      }
      if !force && now - lastFlushAt < flushInterval {
        return 0;
      }
      var toFlush := SortSymbols(dirtySymbols);
      if !flushAll && |toFlush| > flushBatchSize {
        toFlush := toFlush[..flushBatchSize];
      }
      var symbols := Members(toFlush);
      match fate {
        case Fails(wrote) =>
          WriteStates(symbols * wrote);
          return 0;
        case Succeeds =>
          WriteStates(symbols);
          dirtySymbols := dirtySymbols - symbols;
          lastFlushAt := now;
          return |toFlush|;
      }
    }

    method WriteStates(symbols: set<string>)
      modifies this`redis
      ensures redis == Written(old(State()), symbols)
    {
      redis := map k | k in redis.Keys + (symbols * latestState.Keys) ::
        if k in symbols && k in latestState then latestState[k] else redis[k];
    }

    /** Handle the claimed and new entries, flush everything, acknowledge only if nothing is dirty. */
    method ConsumeOnce(entries: seq<Entry>, now: real, fate: Fate) returns (acked: seq<int>)
      modifies this
      ensures var h, ids := HandleAll(old(State()), entries), Acceptable(old(State()), entries);
              && State() == (if ids == [] then h else Flush(h, flushBatchSize, flushInterval, true, true, now, fate))
              && acked == (if State().dirty == {} then ids else [])
    {
      var pendingAcks: seq<int> := [];
      for i := 0 to |entries|
        invariant State() == HandleAll(old(State()), entries[..i])
        invariant pendingAcks == Acceptable(old(State()), entries[..i])
      {
        assert entries[..i + 1][..i] == entries[..i];
        var handled := HandleSpotEntry(entries[i]);
        if handled {
          pendingAcks := pendingAcks + [entries[i].id];
        }
      }
      assert entries[..|entries|] == entries;
      acked := [];
      if pendingAcks != [] {
        var _ := FlushDirtyOnce(true, true, now, fate);
        if dirtySymbols == {} {
          acked := pendingAcks;
        }
      }
    }
  }
}
