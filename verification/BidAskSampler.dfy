/**
  The 1 Hz bid/ask sampler: irregular quotes go in, one sample per second comes out.
  The class at the end mutates its fields as the worker does; each of its methods is
  proved against the step functions on `Emitter` below, and the theorems about whole
  runs are stated about those functions in BidAskTheorems.
 */
module BidAskSampler {
  import opened RealArithmetic
  import opened Wrappers
  import opened TaipeiTime

  /** A metrics dictionary.  Time stamps are stored as the whole second they denote. */
  type Metrics = map<string, real>

  /** A quote payload after number extraction; an absent number is None. */
  datatype Quote = Quote(
    bid: Option<real>, ask: Option<real>, bidSize: Option<real>, askSize: Option<real>,
    bidTotal: Option<real>, askTotal: Option<real>)

  datatype Sample = Sample(second: int, full: Metrics, series: Metrics)

  datatype Emitter = Emitter(
    latest: Option<Metrics>,
    pending: map<int, Metrics>,
    lastSecond: Option<int>,
    lastSeries: Option<Metrics>,
    lastFull: Option<Metrics>,
    tradeDate: Option<int>,
    dayHigh: Option<real>,
    dayLow: Option<real>)

  const Initial := Emitter(None, map[], None, None, None, None, None, None)

  function Put(m: Metrics, key: string, v: Option<real>): Metrics {
    if v.Some? then m[key := v.value] else m
  }

  function Compute(q: Quote): Metrics {
    var m := Put(Put(map[], "bid", q.bid), "ask", q.ask);
    var m := if q.bid.Some? && q.ask.Some?
      then m["mid" := (q.bid.value + q.ask.value) / 2.0]["spread" := q.ask.value - q.bid.value]
      else m;
    var m := Put(Put(m, "bid_size", q.bidSize), "ask_size", q.askSize);
    var m := Put(Put(m, "bid_total_vol", q.bidTotal), "ask_total_vol", q.askTotal);
    if q.bidTotal.Some? && q.askTotal.Some? then
      var m := m["imbalance" := q.bidTotal.value - q.askTotal.value]
        ["sum_total_vol" := q.bidTotal.value + q.askTotal.value];
      if q.askTotal.value > 0.0 then m["ratio" := q.bidTotal.value / q.askTotal.value] else m
    else m
  }

  function UpdateLatest(e: Emitter, second: int, m: Metrics): Emitter {
    e.(latest := Some(m), pending := e.pending[second := m])
  }

  function Strength(v: real, low: real, high: real): real {
    if high == low then 0.5 else (v - low) / (high - low)
  }

  function Clamp01(x: real): real { Max(0.0, Min(x, 1.0)) }

  /** The four main-force fields written for one imbalance value. */
  function WithMainForce(m: Metrics, v: real, high: real, low: real): Metrics {
    m["main_force_big_order" := v]["main_force_big_order_day_high" := high]
      ["main_force_big_order_day_low" := low]
      ["main_force_big_order_strength" := Clamp01(Strength(v, low, high))]
  }

  /** New (trade date, day high, day low) after an imbalance v on trade date d. */
  function TrackExtremes(e: Emitter, d: int, v: real): Emitter {
    if e.tradeDate != Some(d) then
      e.(tradeDate := Some(d), dayHigh := Some(v), dayLow := Some(v))
    else
      var high := if e.dayHigh.None? || e.dayLow.None? then v else e.dayHigh.value;
      var low := if e.dayHigh.None? || e.dayLow.None? then v else e.dayLow.value;
      e.(dayHigh := Some(Max(high, v)), dayLow := Some(Min(low, v)))
  }

  function ApplyMainForce(e: Emitter, m: Metrics, wall: int): (Emitter, Metrics) {
    if "imbalance" !in m then (e, m)
    else
      var v := m["imbalance"];
      var e' := TrackExtremes(e, TradeDateFor(wall), v);
      (e', WithMainForce(m, v, e'.dayHigh.value, e'.dayLow.value))
  }

  function Delta(sample: Metrics, previous: Metrics, field: string): real {
    if field !in sample || field !in previous then 0.0 else sample[field] - previous[field]
  }

  function DeltaIf(sample: Metrics, previous: Metrics, fields: set<string>, name: string, field: string): Metrics {
    if name in fields then sample[name := Delta(sample, previous, field)] else sample
  }

  function WithDeltas(sample: Metrics, previous: Option<Metrics>, fields: set<string>): Metrics {
    if previous.None? then sample
    else
      var s := DeltaIf(sample, previous.value, fields, "delta_1s", "mid");
      var s := DeltaIf(s, previous.value, fields, "delta_bid_total_vol_1s", "bid_total_vol");
      DeltaIf(s, previous.value, fields, "delta_ask_total_vol_1s", "ask_total_vol")
  }

  function Project(full: Metrics, fields: set<string>, second: int): Metrics {
    (map k | k in full && k in fields :: full[k])["ts" := second as real]
  }

  /** One iteration of the emission loop; no sample when there is nothing to carry. */
  function EmitSecond(e: Emitter, second: int, fields: set<string>): (Emitter, seq<Sample>) {
    var popped := e.(pending := e.pending - {second});
    if second !in e.pending && e.lastFull.None? then (popped, [])
    else
      var source := if second in e.pending then e.pending[second] else e.lastFull.value;
      var (e', full) := ApplyMainForce(popped, source["event_ts" := second as real], TaipeiWall(second));
      var series := WithDeltas(Project(full, fields, second), e.lastSeries, fields);
      (e'.(lastFull := Some(full), lastSeries := Some(series), lastSecond := Some(second)),
       [Sample(second, full, series)])
  }

  function EmitRange(e: Emitter, lo: int, hi: int, fields: set<string>): (Emitter, seq<Sample>)
    decreases hi - lo
  {
    if lo > hi then (e, [])
    else
      var (e1, s1) := EmitSecond(e, lo, fields);
      var (e2, s2) := EmitRange(e1, lo + 1, hi, fields);
      (e2, s1 + s2)
  }

  predicate IsLeast(m: map<int, Metrics>, k: int) {
    k in m && forall j | j in m :: k <= j
  }

  lemma LeastExists(m: map<int, Metrics>)
    requires m != map[]
    ensures exists k :: IsLeast(m, k)
  {
    assert exists k :: k in m by {
      if forall k :: k !in m {
        assert false;
      }
    }
    var k :| k in m;
    var rest := m - {k};
    if rest == map[] {
      assert forall j | j in m :: j == k || j in rest;
      assert IsLeast(m, k);
    } else {
      assert |rest.Keys| < |m.Keys|;
      LeastExists(rest);
      var r :| IsLeast(rest, r);
      assert forall j | j in m :: j == k || j in rest;
      assert IsLeast(m, if k < r then k else r);
    }
  }

  ghost function LeastKey(m: map<int, Metrics>): (k: int)
    requires m != map[]
    ensures IsLeast(m, k)
  {
    LeastExists(m);
    var k :| IsLeast(m, k);
    k
  }

  ghost function Start(e: Emitter): int
    requires e.lastSecond.Some? || e.pending != map[]
  {
    if e.lastSecond.Some? then e.lastSecond.value + 1 else LeastKey(e.pending)
  }

  ghost function EmitUpTo(e: Emitter, maxSecond: int, fields: set<string>): (Emitter, seq<Sample>) {
    if maxSecond < 0 || (e.lastSecond.None? && e.pending == map[]) then (e, [])
    else EmitRange(e, Start(e), maxSecond, fields)
  }

  /** The worker's per-code sampler object. */
  class BidAskStateMachine {
    var latest: Option<Metrics>
    var latestBySecond: map<int, Metrics>
    var lastEmittedSecond: Option<int>
    var lastEmittedSeries: Option<Metrics>
    var lastEmittedFull: Option<Metrics>
    var tradeDate: Option<int>
    var mainForceDayHigh: Option<real>
    var mainForceDayLow: Option<real>

    ghost function State(): Emitter
      reads this
    {
      Emitter(latest, latestBySecond, lastEmittedSecond, lastEmittedSeries, lastEmittedFull,
              tradeDate, mainForceDayHigh, mainForceDayLow)
    }

    constructor ()
      ensures State() == Initial
    {
      latest, latestBySecond := None, map[];
      lastEmittedSecond, lastEmittedSeries, lastEmittedFull := None, None, None;
      tradeDate, mainForceDayHigh, mainForceDayLow := None, None, None;
    }

    method Update(second: int, quote: Quote) returns (metrics: Metrics)
      modifies this
      ensures metrics == Compute(quote)["event_ts" := second as real]
      ensures State() == UpdateLatest(old(State()), second, metrics)
    {
      metrics := Compute(quote);
      metrics := metrics["event_ts" := second as real];
      latestBySecond := latestBySecond[second := metrics];
      latest := Some(metrics);
    }

    /** Where the loop stands: what it has emitted and what it will make `whole` of the call. */
    ghost predicate Emitting(second: int, maxSecond: int, fields: set<string>, emitted: seq<Sample>,
                             whole: (Emitter, seq<Sample>))
      reads this
    {
      var rest := EmitRange(State(), second, maxSecond, fields);
      whole == (rest.0, emitted + rest.1)
    }

    lemma EmittedOne(e: Emitter, second: int, maxSecond: int, fields: set<string>, emitted: seq<Sample>,
                     samples: seq<Sample>, whole: (Emitter, seq<Sample>))
      requires second <= maxSecond && (State(), samples) == EmitSecond(e, second, fields)
      requires var rest := EmitRange(e, second, maxSecond, fields);
               whole == (rest.0, emitted + rest.1)
      ensures Emitting(second + 1, maxSecond, fields, emitted + samples, whole)
    {
      var rest := EmitRange(State(), second + 1, maxSecond, fields).1;
      assert emitted + (samples + rest) == (emitted + samples) + rest;
    }

    method EmitSamplesUpTo(maxSecond: int, fields: set<string>) returns (emitted: seq<Sample>)
      modifies this
      ensures (State(), emitted) == EmitUpTo(old(State()), maxSecond, fields)
    {
      emitted := [];
      if maxSecond < 0 {
        return;
      }
      var second: int;
      if lastEmittedSecond.None? {
        if latestBySecond == map[] {
          return;
        }
        second := LeastSecond();
      } else {
        second := lastEmittedSecond.value + 1;
      }
      ghost var whole := EmitUpTo(State(), maxSecond, fields);
      assert [] + whole.1 == whole.1;
      while second <= maxSecond
        invariant Emitting(second, maxSecond, fields, emitted, whole)
        decreases maxSecond - second
      {
        ghost var e := State();
        var samples := EmitOne(second, fields);
        EmittedOne(e, second, maxSecond, fields, emitted, samples, whole);
        emitted := emitted + samples;
        second := second + 1;
      }
      assert emitted + [] == emitted;
    }

    /** One pass through the emission loop, including the `continue` that skips a second. */
    method EmitOne(second: int, fields: set<string>) returns (samples: seq<Sample>)
      modifies this
      ensures (State(), samples) == EmitSecond(old(State()), second, fields)
    {
      var source := if second in latestBySecond then Some(latestBySecond[second]) else None;
      latestBySecond := latestBySecond - {second};
      if source.None? && lastEmittedFull.None? {
        return [];
      }
      var full := if source.Some? then source.value else lastEmittedFull.value;
      full := ApplyMainForceFields(full["event_ts" := second as real], TaipeiWall(second));
      var series := map k | k in full && k in fields :: full[k];
      series := series["ts" := second as real];
      series := ApplySeriesDeltas(series, fields);
      lastEmittedFull := Some(full);
      lastEmittedSeries := Some(series);
      lastEmittedSecond := Some(second);
      samples := [Sample(second, full, series)];
    }

    method LeastSecond() returns (k: int)
      requires latestBySecond != map[]
      ensures k == LeastKey(latestBySecond)
    {
      LeastExists(latestBySecond);
      k :| k in latestBySecond && forall j | j in latestBySecond :: k <= j;
    }

    method ApplyMainForceFields(metrics: Metrics, wall: int) returns (result: Metrics)
      modifies this
      ensures (State(), result) == ApplyMainForce(old(State()), metrics, wall)
    {
      result := metrics;
      var date := TradeDateFor(wall);
      if "imbalance" !in metrics {
        return;
      }
      var v := metrics["imbalance"];
      if tradeDate != Some(date) {
        tradeDate := Some(date);
        mainForceDayHigh := Some(v);
        mainForceDayLow := Some(v);
      } else {
        if mainForceDayHigh.None? || mainForceDayLow.None? {
          mainForceDayHigh := Some(v);
          mainForceDayLow := Some(v);
        }
        mainForceDayHigh := Some(Max(mainForceDayHigh.value, v));
        mainForceDayLow := Some(Min(mainForceDayLow.value, v));
      }
      var high, low := mainForceDayHigh.value, mainForceDayLow.value;
      var strength := if high == low then 0.5 else (v - low) / (high - low);
      result := result["main_force_big_order" := v];
      result := result["main_force_big_order_day_high" := high];
      result := result["main_force_big_order_day_low" := low];
      result := result["main_force_big_order_strength" := Max(0.0, Min(strength, 1.0))];
    }

    method ApplySeriesDeltas(sample: Metrics, fields: set<string>) returns (result: Metrics)
      ensures result == WithDeltas(sample, lastEmittedSeries, fields)
    {
      result := sample;
      if lastEmittedSeries.None? {
        return;
      }
      var previous := lastEmittedSeries.value;
      if "delta_1s" in fields {
        if "mid" in result && "mid" in previous {
          result := result["delta_1s" := result["mid"] - previous["mid"]];
        } else {
          result := result["delta_1s" := 0.0];
        }
      }
      if "delta_bid_total_vol_1s" in fields {
        result := result["delta_bid_total_vol_1s" := Delta(result, previous, "bid_total_vol")];
      }
      if "delta_ask_total_vol_1s" in fields {
        result := result["delta_ask_total_vol_1s" := Delta(result, previous, "ask_total_vol")];
      }
    }
  }
}
