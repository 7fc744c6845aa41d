/** Which entries are applied and as what, what a flush stores, and when entries are acknowledged. */
module LatestStateDelivery {
  import opened Wrappers
  import opened TextOrder
  import opened LatestState
  import opened LatestStateTheorems

  // ----- reading an entry

  /** The event has the entry's numbers; a missing one is taken from those that are there. */
  ghost predicate IsEventOf(e: Event, x: Entry) {
    && e.at == x.at && e.tradeDate == x.tradeDate && e.priceChg == x.priceChg && e.pctChg == x.pctChg
    && Some(e.last) == (if x.lastPrice.Some? then x.lastPrice else x.close)
    && e.close == (if x.close.Some? then x.close.value else e.last)
    && e.open == (if x.open.Some? then x.open.value else e.close)
    && (if x.high.Some? then e.high == x.high.value
        else e.open <= e.high && e.close <= e.high && (e.high == e.open || e.high == e.close))
    && (if x.low.Some? then e.low == x.low.value
        else e.low <= e.open && e.low <= e.close && (e.low == e.open || e.low == e.close))
    && (if x.referencePrice.Some? then e.referencePrice == x.referencePrice
        else if x.priceChg.Some? then x.close.Some? && e.referencePrice == Some(x.close.value - x.priceChg.value)
        else e.referencePrice == None)
  }

  /** Without any price an entry is ignored; it breaks exactly when the close it needs for the reference is missing. */
  lemma ParseReads(x: Entry)
    ensures Parse(x).Ignored? <==> x.lastPrice.None? && x.close.None?
    ensures Parse(x).Broken? <==>
            x.lastPrice.Some? && x.close.None? && x.referencePrice.None? && x.priceChg.Some?
    ensures Parse(x).Usable? ==> IsEventOf(Parse(x).event, x)
  {
  }

  // ----- which entries are applied

  /** The positive sequence numbers of the entries applied for a symbol. */
  ghost function AppliedSeqs(entries: seq<Entry>, s: string): set<int> {
    if entries == [] then {}
    else
      var init, x := entries[..|entries| - 1], entries[|entries| - 1];
      if x.symbol == s && x.ingestSeq > 0 && Applies(HandleAll(Initial, init), x) then AppliedSeqs(init, s) + {x.ingestSeq}
      else AppliedSeqs(init, s)
  }

  /** The last sequence number kept is the greatest one applied, or 0. */
  ghost predicate IsGreatest(last: int, seqs: set<int>) {
    && (forall q | q in seqs :: 0 < q <= last)
    && (if seqs == {} then last == 0 else last in seqs)
  }

  lemma {:induction false} LastIsGreatest(entries: seq<Entry>, s: string)
    ensures IsGreatest(LastSeq(HandleAll(Initial, entries), s), AppliedSeqs(entries, s))
  {
    if entries != [] {
      LastIsGreatest(entries[..|entries| - 1], s);
    }
  }

  /**
    After any entries, one is applied if and only if it has a symbol, can be read, and is not numbered at or
    below a number applied for its symbol before.
   */
  lemma AppliesExactly(entries: seq<Entry>, x: Entry)
    ensures Applies(HandleAll(Initial, entries), x) <==>
            x.symbol != "" && Parse(x).Usable? && IsLater(x.ingestSeq, AppliedSeqs(entries, x.symbol))
  {
    LastIsGreatest(entries, x.symbol);
    LaterThanGreatest(x.ingestSeq, LastSeq(HandleAll(Initial, entries), x.symbol), AppliedSeqs(entries, x.symbol));
  }

  /** Without a positive number, or with one above all those given. */
  ghost predicate IsLater(n: int, seqs: set<int>) {
    n <= 0 || forall q | q in seqs :: q < n
  }

  lemma LaterThanGreatest(n: int, last: int, seqs: set<int>)
    requires IsGreatest(last, seqs)
    ensures IsLater(n, seqs) <==> !(0 < n <= last)
  {
  }

  /** All entries that a run consumes, in order. */
  ghost function Consumed(ops: seq<Op>): seq<Entry> {
    if ops == [] then []
    else
      var op := ops[|ops| - 1];
      Consumed(ops[..|ops| - 1]) + (if op.Consume? then op.entries else [])
  }

  /** Two workers that differ at most in what is dirty, stored and when it was flushed. */
  ghost predicate SameStates(w: Worker, v: Worker) {
    w.latest == v.latest && w.lastSeq == v.lastSeq && w.referenceDate == v.referenceDate
  }

  lemma {:induction false} HandleAllAgrees(w: Worker, v: Worker, before: seq<Entry>, entries: seq<Entry>)
    requires SameStates(w, HandleAll(v, before))
    ensures SameStates(HandleAll(w, entries), HandleAll(v, before + entries))
  {
    if entries == [] {
      assert before + entries == before;
    } else {
      var n := |entries| - 1;
      HandleAllAgrees(w, v, before, entries[..n]);
      assert (before + entries)[..|before| + n] == before + entries[..n];
      HandleAgrees(HandleAll(w, entries[..n]), HandleAll(v, before + entries[..n]), entries[n]);
    }
  }

  lemma HandleAgrees(w: Worker, v: Worker, x: Entry)
    requires SameStates(w, v)
    ensures SameStates(Handle(w, x), Handle(v, x))
  {
  }

  lemma FlushAgrees(w: Worker, size: nat, interval: real, force: bool, all: bool, now: real, fate: Fate)
    ensures SameStates(Flush(w, size, interval, force, all, now, fate), w)
  {
    if w.dirty == {} || (!force && now - w.lastFlushAt < interval) {
      assert Flush(w, size, interval, force, all, now, fate) == w;
    } else {
      var w' := Flush(w, size, interval, force, all, now, fate);
      assert w'.latest == w.latest && w'.lastSeq == w.lastSeq && w'.referenceDate == w.referenceDate;
    }
  }

  lemma StepAgrees(c: Config, w: Worker, op: Op)
    ensures SameStates(Step(c, w, op), if op.Consume? then HandleAll(w, op.entries) else w)
  {
    match op {
      case Consume(entries, now, fate) =>
        FlushAgrees(HandleAll(w, entries), c.size, c.interval, true, true, now, fate);
      case FlushCall(force, now, fate) =>
        FlushAgrees(w, c.size, c.interval, force, false, now, fate);
    }
  }

  /** Flushes never change a state: after any run the states are those that the consumed entries lead to. */
  lemma {:induction false} RunIsHandleAll(c: Config, ops: seq<Op>)
    ensures SameStates(Run(c, Initial, ops), HandleAll(Initial, Consumed(ops)))
  {
    if ops != [] {
      var init, op := ops[..|ops| - 1], ops[|ops| - 1];
      RunIsHandleAll(c, init);
      var w := Run(c, Initial, init);
      StepAgrees(c, w, op);
      if op.Consume? {
        HandleAllAgrees(w, Initial, Consumed(init), op.entries);
      } else {
        assert Consumed(init) + [] == Consumed(init);
      }
    }
  }

  // ----- what a flush stores

  lemma {:induction false} SortedAscends(s: set<string>)
    ensures forall i, j | 0 <= i < j < |Sorted(s)| :: LexLess(Sorted(s)[i], Sorted(s)[j])
  {
    if s != {} {
      var k := Least(s);
      SortedAscends(s - {k});
      var rest := Sorted(s - {k});
      forall i, j | 0 <= i < j < |Sorted(s)|
        ensures LexLess(Sorted(s)[i], Sorted(s)[j])
      {
        assert Sorted(s)[j] == rest[j - 1] && rest[j - 1] in rest;
        assert i > 0 ==> Sorted(s)[i] == rest[i - 1];
      }
    }
  }

  /** There is something to flush, and it is time or forced. */
  ghost predicate Due(w: Worker, interval: real, force: bool, now: real) {
    w.dirty != {} && (force || now >= w.lastFlushAt + interval)
  }

  /** The symbols written: all dirty ones, or the first `size` of them in the order of symbols. */
  ghost predicate IsChoice(chosen: set<string>, dirty: set<string>, size: nat, all: bool) {
    && chosen <= dirty && |chosen| == (if all || |dirty| <= size then |dirty| else size)
    && forall a, b | a in chosen && b in dirty - chosen :: LexLess(a, b)
  }

  lemma BatchIsChoice(w: Worker, size: nat, all: bool)
    ensures IsChoice(Members(Batch(w, size, all)), w.dirty, size, all)
  {
    var sorted, batch := Sorted(w.dirty), Batch(w, size, all);
    SortedAscends(w.dirty);
    SortedDistinct(w.dirty);
    MembersSize(batch);
    forall a, b | a in batch && b in w.dirty && b !in batch
      ensures LexLess(a, b)
    {
      var i :| 0 <= i < |batch| && batch[i] == a;
      assert b in sorted && sorted == batch + sorted[|batch|..];
      var j :| 0 <= j < |sorted| - |batch| && sorted[|batch|..][j] == b;
      assert LexLess(sorted[i], sorted[|batch| + j]);
    }
  }

  /** The states of the chosen symbols are stored, and nothing else is. */
  ghost predicate StoresOnly(w: Worker, w': Worker, chosen: set<string>) {
    && (forall s | s in chosen && s in w.latest :: s in w'.redis && w'.redis[s] == w.latest[s])
    && (forall s | s !in chosen || s !in w.latest ::
          (s in w'.redis <==> s in w.redis) && (s in w.redis ==> w'.redis[s] == w.redis[s]))
  }

  /**
    A flush that is due and succeeds stores the chosen symbols' states and makes them clean; one that fails
    stores at most those and leaves all dirty; one that is not due does nothing.
   */
  lemma FlushStores(w: Worker, size: nat, interval: real, force: bool, all: bool, now: real, fate: Fate)
    ensures var w' := Flush(w, size, interval, force, all, now, fate);
            var chosen := Members(Batch(w, size, all));
            && IsChoice(chosen, w.dirty, size, all) && SameStates(w', w)
            && if !Due(w, interval, force, now) then w' == w
               else if fate.Succeeds? then StoresOnly(w, w', chosen) && w'.dirty == w.dirty - chosen && w'.lastFlushAt == now
               else StoresOnly(w, w', chosen * fate.wrote) && w'.dirty == w.dirty && w'.lastFlushAt == w.lastFlushAt
  {
    BatchIsChoice(w, size, all);
  }

  /**
    When a turn has entries to acknowledge, it acknowledges all of them if its flush succeeds or nothing was
    left to flush, and otherwise none.
   */
  lemma AckedExactly(c: Config, w: Worker, op: Op)
    requires op.Consume? && Acceptable(w, op.entries) != []
    ensures Acked(c, w, op) ==
            if op.fate.Succeeds? || HandleAll(w, op.entries).dirty == {} then Acceptable(w, op.entries) else []
  {
    var h := HandleAll(w, op.entries);
    FlushStores(h, c.size, c.interval, true, true, op.now, op.fate);
    var chosen := Members(Batch(h, c.size, true));
    if chosen < h.dirty {
      ProperSubsetSize(chosen, h.dirty);
    }
  }

  lemma ProperSubsetSize(a: set<string>, b: set<string>)
    requires a < b
    ensures |a| < |b|
  {
    assert b == a + (b - a) && |b - a| > 0;
  }
}
