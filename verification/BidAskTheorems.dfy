/** Properties of every run of the 1 Hz sampler, whatever the order of updates and emissions. */
module BidAskTheorems {
  import opened Wrappers
  import opened BidAskSampler
  import TaipeiTime

  datatype Op = Update(second: int, metrics: Metrics) | Emit(maxSecond: int)

  ghost function Step(e: Emitter, op: Op, fields: set<string>): (Emitter, seq<Sample>) {
    match op
    case Update(s, m) => (UpdateLatest(e, s, m), [])
    case Emit(maxSecond) => EmitUpTo(e, maxSecond, fields)
  }

  /** State and concatenated output after a history of calls. */
  ghost function Run(ops: seq<Op>, fields: set<string>): (Emitter, seq<Sample>) {
    if ops == [] then (Initial, [])
    else
      var (e, out) := Run(ops[..|ops| - 1], fields);
      var (e', added) := Step(e, ops[|ops| - 1], fields);
      (e', out + added)
  }

  /** What the log says about a second: the last update recorded for it. */
  ghost function LastUpdate(ops: seq<Op>, s: int): Option<Metrics> {
    if ops == [] then None
    else
      var op := ops[|ops| - 1];
      if op.Update? && op.second == s then Some(op.metrics) else LastUpdate(ops[..|ops| - 1], s)
  }

  lemma RunSnoc(ops: seq<Op>, op: Op, fields: set<string>)
    ensures Run(ops + [op], fields) ==
            (Step(Run(ops, fields).0, op, fields).0, Run(ops, fields).1 + Step(Run(ops, fields).0, op, fields).1)
  {
    assert (ops + [op])[..|ops|] == ops;
  }

  lemma LastUpdateSnoc(ops: seq<Op>, op: Op, s: int)
    ensures LastUpdate(ops + [op], s) ==
            if op.Update? && op.second == s then Some(op.metrics) else LastUpdate(ops, s)
  {
    assert (ops + [op])[..|ops|] == ops;
  }

  // ----- emission over a range of seconds

  ghost predicate CanEmit(e: Emitter, s: int) {
    e.lastFull.Some? || s in e.pending
  }

  /** From e, the seconds from lo to hi were emitted as `out`, one sample each, and left e'. */
  ghost predicate Shape(e: Emitter, lo: int, hi: int, e': Emitter, out: seq<Sample>) {
    && |out| == hi - lo + 1 > 0
    && (forall k | 0 <= k < |out| :: out[k].second == lo + k)
    && e'.lastSecond == Some(hi)
    && e'.lastFull == Some(out[|out| - 1].full)
    && e'.lastSeries == Some(out[|out| - 1].series)
    && e'.latest == e.latest
    && (forall s | s > hi :: s in e'.pending <==> s in e.pending)
    && (forall s | s > hi && s in e.pending :: e'.pending[s] == e.pending[s])
  }

  lemma SecondShape(e: Emitter, s: int, fields: set<string>)
    requires CanEmit(e, s)
    ensures Shape(e, s, s, EmitSecond(e, s, fields).0, EmitSecond(e, s, fields).1)
  {
  }

  lemma ShapesJoin(e: Emitter, lo: int, mid: int, hi: int, e1: Emitter, out1: seq<Sample>, e2: Emitter, out2: seq<Sample>)
    requires Shape(e, lo, mid, e1, out1) && Shape(e1, mid + 1, hi, e2, out2)
    ensures Shape(e, lo, hi, e2, out1 + out2)
  {
  }

  lemma {:induction false} RangeShape(e: Emitter, lo: int, hi: int, fields: set<string>)
    requires lo <= hi && CanEmit(e, lo)
    ensures Shape(e, lo, hi, EmitRange(e, lo, hi, fields).0, EmitRange(e, lo, hi, fields).1)
    decreases hi - lo
  {
    var (e1, s1) := EmitSecond(e, lo, fields);
    SecondShape(e, lo, fields);
    var (e2, s2) := EmitRange(e1, lo + 1, hi, fields);
    if lo < hi {
      RangeShape(e1, lo + 1, hi, fields);
      ShapesJoin(e, lo, lo, hi, e1, s1, e2, s2);
    } else {
      assert s1 + [] == s1;
    }
  }

  /** The first second of a range and then the rest, appended to earlier output. */
  lemma RangeCons(e: Emitter, lo: int, hi: int, fields: set<string>, out: seq<Sample>)
    requires lo <= hi
    ensures var (e1, s1) := EmitSecond(e, lo, fields);
            var (e2, s2) := EmitRange(e1, lo + 1, hi, fields);
            EmitRange(e, lo, hi, fields).0 == e2 && out + EmitRange(e, lo, hi, fields).1 == (out + s1) + s2
  {
    var (e1, s1) := EmitSecond(e, lo, fields);
    var (e2, s2) := EmitRange(e1, lo + 1, hi, fields);
    assert out + (s1 + s2) == (out + s1) + s2;
  }

  lemma {:induction false} RangeSplit(e: Emitter, lo: int, mid: int, hi: int, fields: set<string>)
    requires lo - 1 <= mid <= hi
    ensures var (e1, o1) := EmitRange(e, lo, mid, fields);
            var (e2, o2) := EmitRange(e1, mid + 1, hi, fields);
            EmitRange(e, lo, hi, fields) == (e2, o1 + o2)
    decreases mid - lo
  {
    var (e1, s1) := EmitSecond(e, lo, fields);
    if lo <= mid {
      RangeSplit(e1, lo + 1, mid, hi, fields);
      var (a, oa) := EmitRange(e1, lo + 1, mid, fields);
      var (b, ob) := EmitRange(a, mid + 1, hi, fields);
      assert s1 + (oa + ob) == (s1 + oa) + ob;
    } else {
      var o := EmitRange(e, lo, hi, fields).1;
      assert [] + o == o;
    }
  }

  // ----- emission does not depend on call boundaries

  ghost predicate Consistent(e: Emitter) {
    e.lastSecond.Some? == e.lastFull.Some? == e.lastSeries.Some?
  }

  lemma EmitUpToCases(e: Emitter, m: int, fields: set<string>)
    requires Consistent(e)
    ensures Consistent(EmitUpTo(e, m, fields).0)
    ensures m < 0 || (e.lastSecond.None? && e.pending == map[]) || Start(e) > m ==>
              EmitUpTo(e, m, fields) == (e, [])
    ensures m >= 0 && (e.lastSecond.Some? || e.pending != map[]) && Start(e) <= m ==>
              CanEmit(e, Start(e)) && EmitUpTo(e, m, fields).0.lastSecond == Some(m)
  {
    if m >= 0 && (e.lastSecond.Some? || e.pending != map[]) && Start(e) <= m {
      RangeShape(e, Start(e), m, fields);
    }
  }

  /** Two emissions with no update in between are one emission up to the later bound. */
  lemma EmitMerge(e: Emitter, a: int, b: int, fields: set<string>)
    requires Consistent(e)
    ensures var (e1, o1) := EmitUpTo(e, a, fields);
            var (e2, o2) := EmitUpTo(e1, b, fields);
            EmitUpTo(e, if a < b then b else a, fields) == (e2, o1 + o2)
  {
    EmitUpToCases(e, a, fields);
    var (e1, o1) := EmitUpTo(e, a, fields);
    EmitUpToCases(e1, b, fields);
    var o2 := EmitUpTo(e1, b, fields).1;
    assert [] + o2 == o2 && o1 + [] == o1;
    if (e1, o1) != (e, []) {
      if a < b {
        RangeSplit(e, Start(e), a, b, fields);
      }
    } else if a >= b {
      EmitUpToCases(e, b, fields);
    }
  }

  lemma SecondCommutes(e: Emitter, second: int, s: int, m: Metrics, fields: set<string>)
    requires s != second
    ensures var (e1, o1) := EmitSecond(e, second, fields);
            EmitSecond(UpdateLatest(e, s, m), second, fields) == (UpdateLatest(e1, s, m), o1)
  {
    var u := UpdateLatest(e, s, m);
    assert u.pending - {second} == (e.pending - {second})[s := m];
    if CanEmit(e, second) {
      var source := if second in e.pending then e.pending[second] else e.lastFull.value;
      var popped := e.(pending := e.pending - {second});
      MainForceCommutes(popped, s, m, source["event_ts" := second as real], TaipeiTime.TaipeiWall(second));
    }
  }

  lemma MainForceCommutes(e: Emitter, s: int, m: Metrics, full: Metrics, wall: int)
    ensures var (e1, full1) := ApplyMainForce(e, full, wall);
            ApplyMainForce(UpdateLatest(e, s, m), full, wall) == (UpdateLatest(e1, s, m), full1)
  {
  }

  lemma {:induction false} RangeCommutes(e: Emitter, lo: int, hi: int, s: int, m: Metrics, fields: set<string>)
    requires s > hi
    ensures var (e1, o1) := EmitRange(e, lo, hi, fields);
            EmitRange(UpdateLatest(e, s, m), lo, hi, fields) == (UpdateLatest(e1, s, m), o1)
    decreases hi - lo
  {
    if lo <= hi {
      SecondCommutes(e, lo, s, m, fields);
      RangeCommutes(EmitSecond(e, lo, fields).0, lo + 1, hi, s, m, fields);
    }
  }

  /** An update for a later second can be moved in front of an emission. */
  lemma UpdateCommutes(e: Emitter, a: int, s: int, m: Metrics, fields: set<string>)
    requires Consistent(e) && (a < 0 || s > a)
    ensures var (e1, o1) := EmitUpTo(e, a, fields);
            EmitUpTo(UpdateLatest(e, s, m), a, fields) == (UpdateLatest(e1, s, m), o1)
  {
    var u := UpdateLatest(e, s, m);
    if a >= 0 {
      assert s in u.pending;
      if e.lastSecond.Some? || e.pending != map[] {
        RangeCommutes(e, Start(e), a, s, m, fields);
        if e.lastSecond.None? {
          assert LeastKey(e.pending) in u.pending;
          assert forall j | j in u.pending :: j == s || j in e.pending;
        }
      } else {
        assert u.pending.Keys == {s};
      }
    }
  }

  /** No update arrives after an emission has already passed its second. */
  ghost predicate OnTime(ops: seq<Op>) {
    forall i, j | 0 <= i < j < |ops| && ops[i].Emit? && ops[j].Update? ::
      ops[i].maxSecond < 0 || ops[j].second > ops[i].maxSecond
  }

  ghost function UpdatesOnly(ops: seq<Op>): Emitter {
    if ops == [] then Initial
    else
      var e, op := UpdatesOnly(ops[..|ops| - 1]), ops[|ops| - 1];
      if op.Update? then UpdateLatest(e, op.second, op.metrics) else e
  }

  ghost function LastBound(ops: seq<Op>): (m: int)
    ensures m >= 0 ==> exists i :: 0 <= i < |ops| && ops[i] == Emit(m)
  {
    if ops == [] then -1
    else
      var m, op := LastBound(ops[..|ops| - 1]), ops[|ops| - 1];
      if op.Emit? && op.maxSecond > m then op.maxSecond else m
  }

  /**
    Online equals batch: with no late update, any placement of the emission calls
    yields the samples, and leaves the state, of recording the whole log first and
    emitting once.
   */
  lemma {:induction false} OnlineEqualsBatch(ops: seq<Op>, fields: set<string>)
    requires OnTime(ops)
    ensures Run(ops, fields) == EmitUpTo(UpdatesOnly(ops), LastBound(ops), fields)
    ensures Consistent(UpdatesOnly(ops))
  {
    if ops != [] {
      var init, op := ops[..|ops| - 1], ops[|ops| - 1];
      OnlineEqualsBatch(init, fields);
      var u, a := UpdatesOnly(init), LastBound(init);
      var (e, out) := EmitUpTo(u, a, fields);
      match op {
        case Update(s, m) =>
          assert a < 0 || s > a;
          UpdateCommutes(u, a, s, m, fields);
          assert out + [] == out;
        case Emit(b) =>
          EmitMerge(u, a, b, fields);
      }
    }
  }

  // ----- every sample is explained by the log

  const STAMP := "event_ts"
  const DERIVED := {STAMP, "main_force_big_order", "main_force_big_order_day_high",
                    "main_force_big_order_day_low", "main_force_big_order_strength"}

  /** Same market reading: everything but the stamp and the main-force fields. */
  ghost predicate SameReading(a: Metrics, b: Metrics) {
    forall k | k !in DERIVED :: (k in a <==> k in b) && (k in a ==> a[k] == b[k])
  }

  /** The pending updates are those of the log, for every second not yet emitted. */
  ghost predicate PendingIsLog(ops: seq<Op>, e: Emitter) {
    forall s | e.lastSecond.None? || s > e.lastSecond.value ::
      LastUpdate(ops, s) == if s in e.pending then Some(e.pending[s]) else None
  }

  ghost predicate RemembersLast(e: Emitter, out: seq<Sample>) {
    if out == [] then e.lastSecond == None && e.lastFull == None && e.lastSeries == None
    else
      var last := out[|out| - 1];
      e.lastSecond == Some(last.second) && e.lastFull == Some(last.full) && e.lastSeries == Some(last.series)
  }

  ghost predicate Consecutive(out: seq<Sample>) {
    forall k | 0 <= k < |out| :: out[k].second == out[0].second + k
  }

  lemma {:induction false} RunKeepsLog(ops: seq<Op>, fields: set<string>)
    ensures var (e, out) := Run(ops, fields);
            PendingIsLog(ops, e) && RemembersLast(e, out) && Consecutive(out)
  {
    if ops != [] {
      var init, op := ops[..|ops| - 1], ops[|ops| - 1];
      assert ops == init + [op];
      RunKeepsLog(init, fields);
      var (e, out) := Run(init, fields);
      var (e', added) := Step(e, op, fields);
      forall s { LastUpdateSnoc(init, op, s); }
      if op.Emit? {
        EmitUpToCases(e, op.maxSecond, fields);
        if (e', added) == (e, []) {
          assert out + [] == out;
        } else {
          RangeShape(e, Start(e), op.maxSecond, fields);
          EmissionKeepsLog(init, op, e, out, Start(e), e', added);
        }
      }
    }
  }

  lemma EmissionKeepsLog(ops: seq<Op>, op: Op, e: Emitter, out: seq<Sample>, lo: int, e': Emitter, added: seq<Sample>)
    requires PendingIsLog(ops, e) && RemembersLast(e, out) && Consecutive(out)
    requires op.Emit? && Shape(e, lo, op.maxSecond, e', added) && (e.lastSecond.Some? ==> lo == e.lastSecond.value + 1)
    ensures PendingIsLog(ops + [op], e') && RemembersLast(e', out + added) && Consecutive(out + added)
  {
    forall s | s > op.maxSecond
      ensures LastUpdate(ops + [op], s) == if s in e'.pending then Some(e'.pending[s]) else None
    {
      LastUpdateSnoc(ops, op, s);
      assert s in e'.pending <==> s in e.pending;
    }
    var all := out + added;
    assert all[|all| - 1] == added[|added| - 1] && forall k | 0 <= k < |out| :: all[k] == out[k];
  }

  // ----- updates that come too late

  /** The seconds for which an update was recorded after they had been emitted or passed over. */
  ghost function LateSeconds(ops: seq<Op>, fields: set<string>): set<int> {
    if ops == [] then {}
    else
      var init, op := ops[..|ops| - 1], ops[|ops| - 1];
      var last := Run(init, fields).0.lastSecond;
      if op.Update? && last.Some? && op.second <= last.value then LateSeconds(init, fields) + {op.second}
      else LateSeconds(init, fields)
  }

  lemma {:induction false} RangePops(e: Emitter, lo: int, hi: int, fields: set<string>, s: int)
    ensures var p := EmitRange(e, lo, hi, fields).0.pending;
            if lo <= s <= hi then s !in p else (s in p <==> s in e.pending) && (s in p ==> p[s] == e.pending[s])
    decreases hi - lo
  {
    if lo <= hi {
      var e' := SecondPops(e, lo, hi, fields);
      RangePops(e', lo + 1, hi, fields, s);
    }
  }

  lemma SecondPops(e: Emitter, lo: int, hi: int, fields: set<string>) returns (e': Emitter)
    requires lo <= hi
    ensures e'.pending == e.pending - {lo}
    ensures EmitRange(e, lo, hi, fields).0 == EmitRange(e', lo + 1, hi, fields).0
  {
    e' := EmitSecond(e, lo, fields).0;
  }

  /** What is held for second s: the last update of the log, if it is yet to be emitted or came too late. */
  ghost predicate HeldFor(ops: seq<Op>, late: set<int>, e: Emitter, s: int) {
    && (s in late ==> e.lastSecond.Some? && s <= e.lastSecond.value && LastUpdate(ops, s).Some?)
    && if e.lastSecond.None? || s > e.lastSecond.value || s in late
       then LastUpdate(ops, s) == (if s in e.pending then Some(e.pending[s]) else None)
       else s !in e.pending
  }

  lemma EmissionHolds(ops: seq<Op>, late: set<int>, e: Emitter, m: int, fields: set<string>, s: int)
    requires Consistent(e) && HeldFor(ops, late, e, s)
    ensures HeldFor(ops + [Emit(m)], late, EmitUpTo(e, m, fields).0, s)
  {
    LastUpdateSnoc(ops, Emit(m), s);
    EmitUpToCases(e, m, fields);
    if EmitUpTo(e, m, fields) != (e, []) {
      RangePops(e, Start(e), m, fields, s);
    }
  }

  /**
    After any run the updates held are exactly the last ones of the seconds yet to be emitted and of the
    seconds of late updates, which are held for ever.
   */
  lemma {:induction false} LateUpdatesStay(ops: seq<Op>, fields: set<string>)
    ensures forall s :: HeldFor(ops, LateSeconds(ops, fields), Run(ops, fields).0, s)
  {
    if ops != [] {
      var init, op := ops[..|ops| - 1], ops[|ops| - 1];
      assert ops == init + [op];
      LateUpdatesStay(init, fields);
      RunKeepsLog(init, fields);
      var e, late := Run(init, fields).0, LateSeconds(init, fields);
      forall s
        ensures HeldFor(ops, LateSeconds(ops, fields), Run(ops, fields).0, s)
      {
        assert HeldFor(init, late, e, s);
        if op.Emit? {
          EmissionHolds(init, late, e, op.maxSecond, fields, s);
        } else {
          LastUpdateSnoc(init, op, s);
        }
      }
    }
  }

  /** `full` is the reading `source`, stamped with second s and decorated when it has an imbalance. */
  ghost predicate Reads(full: Metrics, source: Metrics, s: int) {
    && STAMP in full && full[STAMP] == s as real && SameReading(full, source)
    && ("imbalance" !in source ==> full == source[STAMP := s as real])
  }

  lemma SecondReading(e: Emitter, s: int, fields: set<string>, sample: Sample)
    requires CanEmit(e, s) && EmitSecond(e, s, fields).1 == [sample]
    ensures Reads(sample.full, if s in e.pending then e.pending[s] else e.lastFull.value, s)
  {
  }

  lemma RangeHead(e: Emitter, lo: int, hi: int, fields: set<string>)
    requires lo <= hi && CanEmit(e, lo)
    ensures var out := EmitRange(e, lo, hi, fields).1;
            out != [] && EmitSecond(e, lo, fields).1 == [out[0]]
  {
  }

  /** The k-th second of a range is emitted from the state that the first k seconds leave. */
  lemma RangeAt(e: Emitter, lo: int, hi: int, fields: set<string>, k: nat) returns (mid: Emitter)
    requires lo <= hi && CanEmit(e, lo) && k <= hi - lo
    ensures var out := EmitRange(e, lo, hi, fields).1;
            && CanEmit(mid, lo + k) && k < |out| && EmitSecond(mid, lo + k, fields).1 == [out[k]]
            && mid.lastFull == (if k > 0 then Some(out[k - 1].full) else e.lastFull)
            && (lo + k in mid.pending <==> lo + k in e.pending)
            && (lo + k in e.pending ==> mid.pending[lo + k] == e.pending[lo + k])
  {
    var first: seq<Sample>;
    mid, first := e, [];
    if k > 0 {
      mid, first := EmitRange(e, lo, lo + k - 1, fields).0, EmitRange(e, lo, lo + k - 1, fields).1;
      RangeSplit(e, lo, lo + k - 1, hi, fields);
      RangeShape(e, lo, lo + k - 1, fields);
    }
    RangeHead(mid, lo + k, hi, fields);
    var rest := EmitRange(mid, lo + k, hi, fields).1;
    assert EmitRange(e, lo, hi, fields).1 == first + rest;
    assert |first| == k && (first + rest)[k] == rest[0];
  }

  /** The k-th of the `added` samples, as a function of the pending updates. */
  ghost predicate ReadsFrom(e: Emitter, lo: int, added: seq<Sample>, k: nat)
    requires k < |added|
  {
    && (lo + k in e.pending ==> Reads(added[k].full, e.pending[lo + k], lo + k))
    && (lo + k !in e.pending && k == 0 ==> e.lastFull.Some? && Reads(added[0].full, e.lastFull.value, lo))
    && (lo + k !in e.pending && k > 0 ==> Reads(added[k].full, added[k - 1].full, lo + k))
  }

  lemma RangeReads(e: Emitter, lo: int, hi: int, fields: set<string>, added: seq<Sample>, k: nat)
    requires lo <= hi && CanEmit(e, lo) && k <= hi - lo
    requires added == EmitRange(e, lo, hi, fields).1
    ensures k < |added| && ReadsFrom(e, lo, added, k)
  {
    var mid := RangeAt(e, lo, hi, fields, k);
    SecondReading(mid, lo + k, fields, added[k]);
  }

  /**
    The k-th sample, with its predecessor, explained by the log: it holds the last update
    recorded for its second, or else carries the previous sample.
   */
  ghost predicate Explained(ops: seq<Op>, out: seq<Sample>, k: nat)
    requires k < |out|
  {
    var s := out[k].second;
    match LastUpdate(ops, s)
    case Some(m) => Reads(out[k].full, m, s)
    case None => k > 0 && Reads(out[k].full, out[k - 1].full, s)
  }

  lemma AddedExplained(ops: seq<Op>, e: Emitter, out: seq<Sample>, lo: int, added: seq<Sample>, k: nat)
    requires PendingIsLog(ops, e) && RemembersLast(e, out)
    requires e.lastSecond.Some? ==> lo == e.lastSecond.value + 1
    requires k < |added| && added[k].second == lo + k && ReadsFrom(e, lo, added, k)
    ensures Explained(ops, out + added, |out| + k)
  {
    var all, i := out + added, |out| + k;
    assert all[i] == added[k];
    assert i > 0 ==> all[i - 1] == if k > 0 then added[k - 1] else out[|out| - 1];
  }

  /** The bounds of what one emission call adds to `out`, given the log. */
  ghost predicate CoversUpTo(ops: seq<Op>, out: seq<Sample>, out': seq<Sample>, m: int) {
    && out <= out' && Consecutive(out')
    && (|out| < |out'| ==> 0 <= m && out'[|out'| - 1].second == m)
    && (out == out' ==> m < 0 || (if out == [] then forall s | LastUpdate(ops, s).Some? :: m < s
                                  else m <= out[|out| - 1].second))
    && (out == [] && out' != [] ==>
          LastUpdate(ops, out'[0].second).Some? &&
          forall s | LastUpdate(ops, s).Some? :: out'[0].second <= s)
  }

  ghost predicate ExplainedFrom(ops: seq<Op>, out: seq<Sample>, n: nat) {
    forall k | n <= k < |out| :: Explained(ops, out, k)
  }

  lemma NewSamplesExplained(ops: seq<Op>, e: Emitter, out: seq<Sample>, m: int, fields: set<string>)
    requires PendingIsLog(ops, e) && RemembersLast(e, out)
    requires (e.lastSecond.Some? || e.pending != map[]) && Start(e) <= m
    ensures var out' := out + EmitRange(e, Start(e), m, fields).1;
            ExplainedFrom(ops, out', |out|)
  {
    var lo, added := Start(e), EmitRange(e, Start(e), m, fields).1;
    RangeShape(e, lo, m, fields);
    forall k | |out| <= k < |out + added|
      ensures Explained(ops, out + added, k)
    {
      RangeReads(e, lo, m, fields, added, k - |out|);
      AddedExplained(ops, e, out, lo, added, k - |out|);
    }
  }

  lemma NewSamplesCover(ops: seq<Op>, e: Emitter, out: seq<Sample>, m: int, fields: set<string>)
    requires PendingIsLog(ops, e) && RemembersLast(e, out) && Consecutive(out)
    ensures CoversUpTo(ops, out, out + EmitUpTo(e, m, fields).1, m)
  {
    EmitUpToCases(e, m, fields);
    assert out == [] ==> forall s | LastUpdate(ops, s).Some? :: s in e.pending;
    if m < 0 || (e.lastSecond.None? && e.pending == map[]) || Start(e) > m {
      assert out + [] == out;
    } else {
      RangeShape(e, Start(e), m, fields);
    }
  }

  /**
    One emission call, seen from the log alone: it never touches what was emitted
    before; the new samples are the consecutive seconds after the last emitted one
    (or from the least second in the log) up to the bound; each is explained by the log.
   */
  lemma EmissionFollowsLog(ops: seq<Op>, m: int, fields: set<string>)
    ensures var out, out' := Run(ops, fields).1, Run(ops + [Emit(m)], fields).1;
            && CoversUpTo(ops, out, out', m)
            && ExplainedFrom(ops, out', |out|)
  {
    RunKeepsLog(ops, fields);
    RunSnoc(ops, Emit(m), fields);
    var (e, out) := Run(ops, fields);
    NewSamplesCover(ops, e, out, m, fields);
    EmitUpToCases(e, m, fields);
    if m < 0 || (e.lastSecond.None? && e.pending == map[]) || Start(e) > m {
      assert out + [] == out;
    } else {
      NewSamplesExplained(ops, e, out, m, fields);
    }
  }

  /** Updates, late or not, emit nothing and leave every emitted sample alone. */
  lemma UpdatesEmitNothing(ops: seq<Op>, s: int, m: Metrics, fields: set<string>)
    ensures Run(ops + [Update(s, m)], fields).1 == Run(ops, fields).1
  {
    RunSnoc(ops, Update(s, m), fields);
  }

  /** The emitter never produces two samples, hence two database rows, for one second. */
  lemma SecondsAreDistinct(ops: seq<Op>, fields: set<string>)
    ensures var out := Run(ops, fields).1;
            forall i, j | 0 <= i < j < |out| :: out[i].second != out[j].second
  {
    RunKeepsLog(ops, fields);
  }

  // ----- the metrics of one quote

  /** A number is stored under its name if it is there. */
  ghost predicate Stores(m: Metrics, name: string, v: Option<real>) {
    (name in m <==> v.Some?) && (v.Some? ==> m[name] == v.value)
  }

  const QUOTED := {"bid", "ask", "bid_size", "ask_size", "bid_total_vol", "ask_total_vol"}
  const COMPUTED := {"mid", "spread", "imbalance", "sum_total_vol", "ratio"}

  /** The quoted numbers are stored under their names, and nothing else is but the derived metrics. */
  lemma MetricsAreStored(q: Quote)
    ensures var m := Compute(q);
            && Stores(m, "bid", q.bid) && Stores(m, "ask", q.ask)
            && Stores(m, "bid_size", q.bidSize) && Stores(m, "ask_size", q.askSize)
            && Stores(m, "bid_total_vol", q.bidTotal) && Stores(m, "ask_total_vol", q.askTotal)
            && m.Keys <= QUOTED + COMPUTED
  {
  }

  /** The derived metrics and the numbers they come from determine each other. */
  lemma MetricsInvert(q: Quote)
    ensures var m := Compute(q);
            && ("mid" in m <==> "spread" in m) && ("imbalance" in m <==> "sum_total_vol" in m)
            && ("mid" in m <==> q.bid.Some? && q.ask.Some?) && ("imbalance" in m <==> q.bidTotal.Some? && q.askTotal.Some?)
            && ("mid" in m ==> q.bid == Some(m["mid"] - m["spread"] / 2.0) && q.ask == Some(m["mid"] + m["spread"] / 2.0))
            && ("imbalance" in m ==>
                  && q.bidTotal == Some((m["sum_total_vol"] + m["imbalance"]) / 2.0)
                  && q.askTotal == Some((m["sum_total_vol"] - m["imbalance"]) / 2.0))
            && ("ratio" in m <==> "imbalance" in m && m["ask_total_vol"] > 0.0)
            && ("ratio" in m ==> m["ratio"] * m["ask_total_vol"] == m["bid_total_vol"])
  {
  }
}
