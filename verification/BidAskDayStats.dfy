/** Trade-day extremes, strength and per-second deltas over every run of the 1 Hz sampler. */
module BidAskDayStats {
  import opened RealArithmetic
  import opened Wrappers
  import opened TaipeiTime
  import opened BidAskSampler
  import opened BidAskTheorems

  /** The trade date at the second of a sample, eight hours ahead of UTC. */
  ghost function DateOf(s: Sample): int {
    TradeDateFor(s.second * MICROS_PER_SECOND + 8 * MICROS_PER_HOUR)
  }

  /** The k-th sample carries an imbalance and belongs to trade date d. */
  ghost predicate On(out: seq<Sample>, k: nat, d: int)
    requires k < |out|
  {
    "imbalance" in out[k].full && DateOf(out[k]) == d
  }

  ghost function Imbalance(s: Sample): real
    requires "imbalance" in s.full
  {
    s.full["imbalance"]
  }

  ghost predicate IsHigh(out: seq<Sample>, d: int, h: real) {
    && (forall j | 0 <= j < |out| && On(out, j, d) :: Imbalance(out[j]) <= h)
    && exists j | 0 <= j < |out| && On(out, j, d) :: Imbalance(out[j]) == h
  }

  ghost predicate IsLow(out: seq<Sample>, d: int, l: real) {
    && (forall j | 0 <= j < |out| && On(out, j, d) :: l <= Imbalance(out[j]))
    && exists j | 0 <= j < |out| && On(out, j, d) :: Imbalance(out[j]) == l
  }

  /**
    The main-force fields of the k-th sample: the day high and low are the extreme
    imbalances of its trade date up to and including itself, and the strength says
    where it lies between them.
   */
  ghost predicate MainForceCorrect(out: seq<Sample>, k: nat)
    requires k < |out|
  {
    var full := out[k].full;
    "imbalance" in full ==>
      && "main_force_big_order" in full && "main_force_big_order_day_high" in full
      && "main_force_big_order_day_low" in full && "main_force_big_order_strength" in full
      && var v, h, l := full["imbalance"], full["main_force_big_order_day_high"], full["main_force_big_order_day_low"];
         && full["main_force_big_order"] == v
         && IsHigh(out[..k + 1], DateOf(out[k]), h) && IsLow(out[..k + 1], DateOf(out[k]), l)
         && Places(full["main_force_big_order_strength"], v, l, h)
  }

  /** s is where v lies between l and h: 0 at l, 1 at h, in proportion, and one half when they are the same. */
  ghost predicate Places(s: real, v: real, l: real, h: real) {
    && l <= v <= h && 0.0 <= s <= 1.0
    && if l == h then s == 0.5 else s * (h - l) == v - l
  }

  /** The tracker holds the extremes of the latest trade date that has an imbalance. */
  ghost predicate Tracks(e: Emitter, out: seq<Sample>) {
    && e.tradeDate.Some? == e.dayHigh.Some? == e.dayLow.Some?
    && (forall k | 0 <= k < |out| && "imbalance" in out[k].full ::
          e.tradeDate.Some? && DateOf(out[k]) <= e.tradeDate.value)
    && (e.tradeDate.Some? ==>
          IsHigh(out, e.tradeDate.value, e.dayHigh.value) && IsLow(out, e.tradeDate.value, e.dayLow.value))
  }

  /** Clamping never changes a strength, and it places the value. */
  lemma StrengthInUnit(v: real, l: real, h: real)
    requires l <= v <= h
    ensures 0.0 <= Strength(v, l, h) <= 1.0
    ensures Places(Clamp01(Strength(v, l, h)), v, l, h)
  {
    if l < h {
      RatioInUnit(v - l, h - l);
    }
  }

  lemma HighStep(out: seq<Sample>, x: Sample, h: real)
    requires "imbalance" in x.full
    ensures IsHigh(out, DateOf(x), h) || (h == Imbalance(x) && forall j | 0 <= j < |out| :: !On(out, j, DateOf(x))) ==>
              IsHigh(out + [x], DateOf(x), Max(h, Imbalance(x)))
  {
    var d, all, n := DateOf(x), out + [x], |out|;
    assert all[n] == x && On(all, n, d);
    assert forall j | 0 <= j < n :: all[j] == out[j] && (On(all, j, d) <==> On(out, j, d));
  }

  lemma LowStep(out: seq<Sample>, x: Sample, l: real)
    requires "imbalance" in x.full
    ensures IsLow(out, DateOf(x), l) || (l == Imbalance(x) && forall j | 0 <= j < |out| :: !On(out, j, DateOf(x))) ==>
              IsLow(out + [x], DateOf(x), Min(l, Imbalance(x)))
  {
    var d, all, n := DateOf(x), out + [x], |out|;
    assert all[n] == x && On(all, n, d);
    assert forall j | 0 <= j < n :: all[j] == out[j] && (On(all, j, d) <==> On(out, j, d));
  }

  /** One more sample on date d, where d is not older than the tracked date. */
  lemma ExtremesStep(e: Emitter, out: seq<Sample>, x: Sample)
    requires Tracks(e, out) && "imbalance" in x.full
    requires e.tradeDate.Some? ==> e.tradeDate.value <= DateOf(x)
    ensures var e' := TrackExtremes(e, DateOf(x), Imbalance(x));
            && e'.dayHigh.Some? && e'.dayLow.Some?
            && IsHigh(out + [x], DateOf(x), e'.dayHigh.value) && IsLow(out + [x], DateOf(x), e'.dayLow.value)
            && Tracks(e', out + [x])
  {
    var v, all := Imbalance(x), out + [x];
    if e.tradeDate == Some(DateOf(x)) {
      HighStep(out, x, e.dayHigh.value);
      LowStep(out, x, e.dayLow.value);
    } else {
      assert forall j | 0 <= j < |out| :: !On(out, j, DateOf(x));
      HighStep(out, x, v);
      LowStep(out, x, v);
    }
    assert forall k | 0 <= k < |all| :: all[k] == if k < |out| then out[k] else x;
  }

  /** A sample without an imbalance leaves the tracker's claims alone. */
  lemma ExtremesSkip(e: Emitter, out: seq<Sample>, x: Sample)
    requires Tracks(e, out) && "imbalance" !in x.full
    ensures Tracks(e, out + [x])
  {
    var all := out + [x];
    assert forall k | 0 <= k < |all| :: all[k] == if k < |out| then out[k] else x;
    if e.tradeDate.Some? {
      var d := e.tradeDate.value;
      assert forall j | 0 <= j < |out| :: On(all, j, d) <==> On(out, j, d);
      var jh :| 0 <= jh < |out| && On(out, jh, d) && Imbalance(out[jh]) == e.dayHigh.value;
      var jl :| 0 <= jl < |out| && On(out, jl, d) && Imbalance(out[jl]) == e.dayLow.value;
      assert On(all, jh, d) && On(all, jl, d);
    }
  }

  /** The emitted fields of one second, and how the tracker moves. */
  lemma SecondMainForce(e: Emitter, s: int, fields: set<string>)
    requires CanEmit(e, s)
    ensures var (e', samples) := EmitSecond(e, s, fields);
            |samples| == 1 && samples[0].second == s &&
            var x := samples[0];
            var full := x.full;
            if "imbalance" in full then
              var t := TrackExtremes(e, DateOf(x), Imbalance(x));
              && e'.tradeDate == t.tradeDate && e'.dayHigh == t.dayHigh && e'.dayLow == t.dayLow
              && full == WithMainForce(full, Imbalance(x), t.dayHigh.value, t.dayLow.value)
            else e'.tradeDate == e.tradeDate && e'.dayHigh == e.dayHigh && e'.dayLow == e.dayLow
  {
  }

  ghost predicate Later(out: seq<Sample>, s: int) {
    forall k | 0 <= k < |out| :: out[k].second < s
  }

  lemma TracksIgnoresRest(e: Emitter, t: Emitter, out: seq<Sample>)
    requires Tracks(t, out)
    requires e.tradeDate == t.tradeDate && e.dayHigh == t.dayHigh && e.dayLow == t.dayLow
    ensures Tracks(e, out)
  {
  }

  lemma TrackedDateIsPast(e: Emitter, out: seq<Sample>, s: int)
    ensures Tracks(e, out) && Later(out, s) && e.tradeDate.Some? ==>
              e.tradeDate.value <= TradeDateFor(s * MICROS_PER_SECOND + 8 * MICROS_PER_HOUR)
  {
    if Tracks(e, out) && Later(out, s) && e.tradeDate.Some? {
      var j :| 0 <= j < |out| && On(out, j, e.tradeDate.value);
      TradeDateMonotone(out[j].second * MICROS_PER_SECOND + 8 * MICROS_PER_HOUR, s * MICROS_PER_SECOND + 8 * MICROS_PER_HOUR);
    }
  }

  lemma SecondKeepsDay(e: Emitter, out: seq<Sample>, s: int, fields: set<string>, e': Emitter, x: Sample)
    requires Tracks(e, out) && CanEmit(e, s) && Later(out, s)
    requires EmitSecond(e, s, fields) == (e', [x])
    ensures Tracks(e', out + [x]) && MainForceCorrect(out + [x], |out|)
  {
    SecondMainForce(e, s, fields);
    if "imbalance" in x.full {
      if e.tradeDate.Some? {
        TrackedDateIsPast(e, out, s);
      }
      ExtremesStep(e, out, x);
      var t := TrackExtremes(e, DateOf(x), Imbalance(x));
      TracksIgnoresRest(e', t, out + [x]);
      HighCovers(out, x, t.dayHigh.value, t.dayLow.value);
    } else {
      ExtremesSkip(e, out, x);
      TracksIgnoresRest(e', e, out + [x]);
    }
  }

  lemma HighCovers(out: seq<Sample>, x: Sample, h: real, l: real)
    requires "imbalance" in x.full
    ensures x.full == WithMainForce(x.full, Imbalance(x), h, l)
            && IsHigh(out + [x], DateOf(x), h) && IsLow(out + [x], DateOf(x), l) ==>
              MainForceCorrect(out + [x], |out|)
  {
    var all, n := out + [x], |out|;
    var full := WithMainForce(x.full, Imbalance(x), h, l);
    if x.full == full && IsHigh(all, DateOf(x), h) && IsLow(all, DateOf(x), l) {
      assert all[n] == x && On(all, n, DateOf(x)) && all[..n + 1] == all;
      StrengthInUnit(Imbalance(x), l, h);
      assert full["main_force_big_order_day_high"] == h && full["main_force_big_order_day_low"] == l;
    }
  }

  ghost predicate DayInvariant(e: Emitter, out: seq<Sample>) {
    Tracks(e, out) && forall k | 0 <= k < |out| :: MainForceCorrect(out, k)
  }

  lemma MainForceOfPrefix(out: seq<Sample>, more: seq<Sample>)
    requires forall k | 0 <= k < |out| :: MainForceCorrect(out, k)
    ensures forall k | 0 <= k < |out| :: MainForceCorrect(out + more, k)
  {
    forall k | 0 <= k < |out|
      ensures MainForceCorrect(out + more, k)
    {
      assert MainForceCorrect(out, k) && (out + more)[..k + 1] == out[..k + 1];
    }
  }

  lemma {:induction false} RangeKeepsDay(e: Emitter, out: seq<Sample>, lo: int, hi: int, fields: set<string>)
    requires DayInvariant(e, out) && CanEmit(e, lo) && Later(out, lo)
    ensures var (e', added) := EmitRange(e, lo, hi, fields);
            DayInvariant(e', out + added)
    decreases hi - lo
  {
    if lo > hi {
      assert out + [] == out;
    } else {
      RangeShape(e, lo, lo, fields);
      var (e1, s1) := EmitSecond(e, lo, fields);
      assert s1 == [s1[0]];
      SecondKeepsDay(e, out, lo, fields, e1, s1[0]);
      MainForceOfPrefix(out, s1);
      RangeKeepsDay(e1, out + s1, lo + 1, hi, fields);
      RangeCons(e, lo, hi, fields, out);
    }
  }

  /** In every run, every sample's main-force fields are those of its trade date so far. */
  lemma {:induction false} MainForceOverEveryRun(ops: seq<Op>, fields: set<string>)
    ensures DayInvariant(Run(ops, fields).0, Run(ops, fields).1)
  {
    if ops != [] {
      var init, op := ops[..|ops| - 1], ops[|ops| - 1];
      MainForceOverEveryRun(init, fields);
      RunKeepsLog(init, fields);
      var (e, out) := Run(init, fields);
      assert out + [] == out;
      match op {
        case Update(s, m) =>
          TracksIgnoresRest(UpdateLatest(e, s, m), e, out);
        case Emit(m) =>
          EmitUpToCases(e, m, fields);
          if !(m < 0 || (e.lastSecond.None? && e.pending == map[]) || Start(e) > m) {
            RangeKeepsDay(e, out, Start(e), m, fields);
          }
      }
    }
  }

  // ----- per-second deltas

  /** The three (delta field, underlying field) pairs of the series. */
  ghost predicate IsDelta(name: string, field: string) {
    || (name == "delta_1s" && field == "mid")
    || (name == "delta_bid_total_vol_1s" && field == "bid_total_vol")
    || (name == "delta_ask_total_vol_1s" && field == "ask_total_vol")
  }

  const DELTAS := {"delta_1s", "delta_bid_total_vol_1s", "delta_ask_total_vol_1s"}

  /** The change of a field from one series sample to the next; 0 where either lacks it. */
  ghost function Change(now: Metrics, before: Metrics, field: string): real {
    if field in now && field in before then now[field] - before[field] else 0.0
  }

  /** Every configured field of the full sample, with its value. */
  ghost predicate HasField(x: Sample, fields: set<string>, f: string) {
    && (f in x.series <==> f in fields && f in x.full)
    && (f in x.series ==> x.series[f] == x.full[f])
  }

  /** The delta of a field, from the second sample on. */
  ghost predicate HasDelta(x: Sample, previous: Option<Metrics>, fields: set<string>, name: string, field: string) {
    if previous.None? then HasField(x, fields, name)
    else
      && (name in x.series <==> name in fields)
      && (name in fields ==> x.series[name] == Change(x.series, previous.value, field))
  }

  /**
    A series sample: its second, every configured field of the full one with its value, the configured
    deltas to the previous sample, and nothing else.
   */
  ghost predicate SeriesCorrect(x: Sample, previous: Option<Metrics>, fields: set<string>) {
    && "ts" in x.series && x.series["ts"] == x.second as real
    && (forall f {:trigger HasField(x, fields, f)} | f != "ts" && f !in DELTAS :: HasField(x, fields, f))
    && (forall name, field {:trigger HasDelta(x, previous, fields, name, field)} | IsDelta(name, field) ::
          HasDelta(x, previous, fields, name, field))
  }

  lemma SecondSeries(e: Emitter, s: int, fields: set<string>)
    requires CanEmit(e, s)
    ensures var (e', samples) := EmitSecond(e, s, fields);
            |samples| == 1 && SeriesCorrect(samples[0], e.lastSeries, fields)
            && e'.lastSeries == Some(samples[0].series)
  {
    var x := EmitSecond(e, s, fields).1[0];
    var p := Project(x.full, fields, s);
    assert x.series == WithDeltas(p, e.lastSeries, fields);
    assert p["ts"] == s as real && forall f | f != "ts" :: f in p <==> f in fields && f in x.full;
    forall f | f !in DELTAS
      ensures f != "ts" ==> HasField(x, fields, f)
      ensures f == "ts" ==> f in x.series && x.series[f] == p[f]
    {
      DeltasKeep(p, e.lastSeries, fields, f);
    }
    forall name, field | IsDelta(name, field)
      ensures HasDelta(x, e.lastSeries, fields, name, field)
    {
      DeltaOf(p, e.lastSeries, fields, name, field);
    }
  }

  lemma DeltasKeep(p: Metrics, previous: Option<Metrics>, fields: set<string>, f: string)
    requires f !in DELTAS
    ensures var r := WithDeltas(p, previous, fields);
            (f in r <==> f in p) && (f in p ==> r[f] == p[f])
  {
  }

  lemma DeltaOf(p: Metrics, previous: Option<Metrics>, fields: set<string>, name: string, field: string)
    requires IsDelta(name, field)
    ensures var r := WithDeltas(p, previous, fields);
            if previous.None? then r == p
            else if name in fields then name in r && r[name] == Change(r, previous.value, field)
            else name in r <==> name in p
  {
  }

  ghost function SeriesBefore(out: seq<Sample>, k: nat): Option<Metrics>
    requires k <= |out|
  {
    if k == 0 then None else Some(out[k - 1].series)
  }

  ghost predicate CorrectAt(out: seq<Sample>, fields: set<string>, k: nat)
    requires k < |out|
  {
    SeriesCorrect(out[k], SeriesBefore(out, k), fields)
  }

  ghost predicate SeriesChain(out: seq<Sample>, fields: set<string>) {
    forall k {:trigger CorrectAt(out, fields, k)} | 0 <= k < |out| :: CorrectAt(out, fields, k)
  }

  lemma SameAt(out: seq<Sample>, x: Sample, fields: set<string>, k: nat)
    requires k < |out| && CorrectAt(out, fields, k)
    ensures CorrectAt(out + [x], fields, k)
  {
    var y, previous := out[k], SeriesBefore(out, k);
    assert (out + [x])[k] == y && SeriesBefore(out + [x], k) == previous;
  }

  lemma ChainSnoc(out: seq<Sample>, x: Sample, fields: set<string>)
    requires SeriesChain(out, fields) && SeriesCorrect(x, SeriesBefore(out, |out|), fields)
    ensures SeriesChain(out + [x], fields)
  {
    var all := out + [x];
    forall k | 0 <= k < |all|
      ensures CorrectAt(all, fields, k)
    {
      if k < |out| {
        assert CorrectAt(out, fields, k);
        SameAt(out, x, fields, k);
      }
    }
  }

  lemma SecondMemory(e: Emitter, s: int, fields: set<string>, out: seq<Sample>)
    requires CanEmit(e, s)
    ensures var (e', samples) := EmitSecond(e, s, fields);
            |samples| == 1 && CanEmit(e', s + 1) && RemembersLast(e', out + samples)
  {
  }

  lemma SecondKeepsChain(e: Emitter, out: seq<Sample>, s: int, fields: set<string>) returns (e': Emitter, x: Sample)
    requires SeriesChain(out, fields) && RemembersLast(e, out) && CanEmit(e, s)
    ensures EmitSecond(e, s, fields) == (e', [x])
    ensures SeriesChain(out + [x], fields) && RemembersLast(e', out + [x]) && CanEmit(e', s + 1)
  {
    SecondMemory(e, s, fields, out);
    SecondSeries(e, s, fields);
    e', x := EmitSecond(e, s, fields).0, EmitSecond(e, s, fields).1[0];
    ChainSnoc(out, x, fields);
    assert EmitSecond(e, s, fields).1 == [x];
  }

  lemma {:induction false} RangeSeries(e: Emitter, out: seq<Sample>, lo: int, hi: int, fields: set<string>)
    requires SeriesChain(out, fields) && RemembersLast(e, out) && CanEmit(e, lo)
    ensures SeriesChain(out + EmitRange(e, lo, hi, fields).1, fields)
    decreases hi - lo
  {
    if lo > hi {
      assert out + [] == out;
    } else {
      var e1, x := SecondKeepsChain(e, out, lo, fields);
      RangeSeries(e1, out + [x], lo + 1, hi, fields);
      RangeCons(e, lo, hi, fields, out);
    }
  }

  lemma {:induction false} SeriesOverEveryRun(ops: seq<Op>, fields: set<string>)
    ensures SeriesChain(Run(ops, fields).1, fields)
  {
    if ops != [] {
      var init, op := ops[..|ops| - 1], ops[|ops| - 1];
      SeriesOverEveryRun(init, fields);
      RunKeepsLog(init, fields);
      var (e, out) := Run(init, fields);
      assert out + [] == out;
      if op.Emit? {
        EmitUpToCases(e, op.maxSecond, fields);
        if !(op.maxSecond < 0 || (e.lastSecond.None? && e.pending == map[]) || Start(e) > op.maxSecond) {
          RangeSeries(e, out, Start(e), op.maxSecond, fields);
        }
      }
    }
  }

  /** Sum of a delta field over all samples but the first. */
  ghost function DeltaSum(out: seq<Sample>, name: string): real
    requires forall k | 1 <= k < |out| :: name in out[k].series
  {
    if |out| <= 1 then 0.0
    else DeltaSum(out[..|out| - 1], name) + out[|out| - 1].series[name]
  }

  /** What the k-th delta is, in terms of the full samples. */
  ghost predicate DeltaFact(out: seq<Sample>, fields: set<string>, name: string, field: string, k: nat)
    requires 1 <= k < |out|
  {
    && name in out[k].series
    && (field in fields && field in out[k].full && field in out[k - 1].full ==>
          out[k].series[name] == out[k].full[field] - out[k - 1].full[field])
    && (field !in fields ==> out[k].series[name] == 0.0)
  }

  lemma DeltaAt(out: seq<Sample>, fields: set<string>, name: string, field: string, k: nat)
    requires SeriesChain(out, fields) && IsDelta(name, field) && name in fields && 1 <= k < |out|
    ensures DeltaFact(out, fields, name, field, k)
  {
    assert CorrectAt(out, fields, k) && CorrectAt(out, fields, k - 1);
    assert HasDelta(out[k], SeriesBefore(out, k), fields, name, field);
    assert HasField(out[k], fields, field) && HasField(out[k - 1], fields, field);
  }

  lemma {:induction false} SumTelescopes(out: seq<Sample>, name: string, field: string)
    requires out != [] && forall k | 0 <= k < |out| :: field in out[k].full
    requires forall k | 1 <= k < |out| ::
               name in out[k].series && out[k].series[name] == out[k].full[field] - out[k - 1].full[field]
    ensures DeltaSum(out, name) == out[|out| - 1].full[field] - out[0].full[field]
  {
    if |out| > 1 {
      SumTelescopes(out[..|out| - 1], name, field);
    }
  }

  lemma {:induction false} SumOfZeros(out: seq<Sample>, name: string)
    requires forall k | 1 <= k < |out| :: name in out[k].series && out[k].series[name] == 0.0
    ensures DeltaSum(out, name) == 0.0
  {
    if |out| > 1 {
      SumOfZeros(out[..|out| - 1], name);
    }
  }

  /**
    The deltas of a field add up to last minus first when the field is among the
    configured series fields and in every sample.  When it is not configured (say
    delta_1s without mid) they add up to 0, whatever the quotes did.
   */
  ghost predicate Telescopes(out: seq<Sample>, fields: set<string>, name: string, field: string) {
    && (forall k | 1 <= k < |out| :: name in out[k].series)
    && (field in fields && out != [] && (forall k | 0 <= k < |out| :: field in out[k].full) ==>
          DeltaSum(out, name) == out[|out| - 1].full[field] - out[0].full[field])
    && (field !in fields ==> DeltaSum(out, name) == 0.0)
  }

  lemma FactsTelescope(out: seq<Sample>, fields: set<string>, name: string, field: string)
    requires forall k | 1 <= k < |out| :: DeltaFact(out, fields, name, field, k)
    ensures Telescopes(out, fields, name, field)
  {
    assert forall k | 1 <= k < |out| :: DeltaFact(out, fields, name, field, k) ==> name in out[k].series;
    if field !in fields {
      SumOfZeros(out, name);
    } else if out != [] && forall k | 0 <= k < |out| :: field in out[k].full {
      forall k | 1 <= k < |out|
        ensures name in out[k].series && out[k].series[name] == out[k].full[field] - out[k - 1].full[field]
      {
        assert DeltaFact(out, fields, name, field, k);
      }
      SumTelescopes(out, name, field);
    }
  }

  lemma DeltasTelescope(ops: seq<Op>, fields: set<string>, name: string, field: string)
    requires IsDelta(name, field) && name in fields
    ensures Telescopes(Run(ops, fields).1, fields, name, field)
  {
    SeriesOverEveryRun(ops, fields);
    var out := Run(ops, fields).1;
    forall k | 1 <= k < |out|
      ensures DeltaFact(out, fields, name, field, k)
    {
      DeltaAt(out, fields, name, field, k);
    }
    FactsTelescope(out, fields, name, field);
  }
}
