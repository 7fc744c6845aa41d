/** Write-back safety, acknowledgement safety and redelivery over every run of the worker. */
module LatestStateTheorems {
  import opened Wrappers
  import opened RealArithmetic
  import opened LatestState

  /** A clean symbol is stored exactly as it is held in memory. */
  ghost predicate Stored(w: Worker, s: string) {
    s in w.latest && s !in w.dirty ==> s in w.redis && w.redis[s] == w.latest[s]
  }

  ghost predicate Safe(w: Worker) {
    w.dirty <= w.latest.Keys && forall s {:trigger Stored(w, s)} :: Stored(w, s)
  }

  lemma HandleKeepsSafe(w: Worker, x: Entry)
    requires Safe(w)
    ensures Safe(Handle(w, x))
  {
    var w' := Handle(w, x);
    forall s
      ensures Stored(w', s)
    {
      assert Stored(w, s);
    }
  }

  lemma FlushKeepsSafe(w: Worker, size: nat, interval: real, force: bool, all: bool, now: real, fate: Fate)
    requires Safe(w)
    ensures Safe(Flush(w, size, interval, force, all, now, fate))
  {
    var w' := Flush(w, size, interval, force, all, now, fate);
    forall s
      ensures Stored(w', s)
    {
      assert Stored(w, s);
    }
  }

  lemma {:induction false} HandleAllKeepsSafe(w: Worker, entries: seq<Entry>)
    requires Safe(w)
    ensures Safe(HandleAll(w, entries))
  {
    if entries != [] {
      HandleAllKeepsSafe(w, entries[..|entries| - 1]);
      HandleKeepsSafe(HandleAll(w, entries[..|entries| - 1]), entries[|entries| - 1]);
    }
  }

  // ----- runs of the worker loop

  /** One turn: consume what was delivered, or a flush between deliveries. */
  datatype Op = Consume(entries: seq<Entry>, now: real, fate: Fate)
              | FlushCall(force: bool, now: real, fate: Fate)

  datatype Config = Config(size: nat, interval: real)

  ghost function Step(c: Config, w: Worker, op: Op): Worker {
    match op
    case Consume(entries, now, fate) =>
      var h := HandleAll(w, entries);
      if Acceptable(w, entries) == [] then h else Flush(h, c.size, c.interval, true, true, now, fate)
    case FlushCall(force, now, fate) => Flush(w, c.size, c.interval, force, false, now, fate)
  }

  ghost function Acked(c: Config, w: Worker, op: Op): seq<int> {
    if op.Consume? && Step(c, w, op).dirty == {} then Acceptable(w, op.entries) else []
  }

  ghost function Run(c: Config, w: Worker, ops: seq<Op>): Worker {
    if ops == [] then w else Step(c, Run(c, w, ops[..|ops| - 1]), ops[|ops| - 1])
  }

  lemma StepKeepsSafe(c: Config, w: Worker, op: Op)
    requires Safe(w)
    ensures Safe(Step(c, w, op))
  {
    match op {
      case Consume(entries, now, fate) =>
        HandleAllKeepsSafe(w, entries);
        FlushKeepsSafe(HandleAll(w, entries), c.size, c.interval, true, true, now, fate);
      case FlushCall(force, now, fate) =>
        FlushKeepsSafe(w, c.size, c.interval, force, false, now, fate);
    }
  }

  /** In every reachable state, under any pattern of failing flushes, a clean symbol is stored. */
  lemma {:induction false} CleanMeansStored(c: Config, ops: seq<Op>)
    ensures Safe(Run(c, Initial, ops))
  {
    if ops != [] {
      CleanMeansStored(c, ops[..|ops| - 1]);
      StepKeepsSafe(c, Run(c, Initial, ops[..|ops| - 1]), ops[|ops| - 1]);
    }
  }

  /**
    When a turn acknowledges anything, every state in memory, so every effect ever applied,
    is stored at that moment; and only entries that raised nothing are acknowledged.
   */
  lemma AckMeansStored(c: Config, ops: seq<Op>, op: Op)
    ensures var w := Run(c, Initial, ops);
            var w' := Step(c, w, op);
            Acked(c, w, op) != [] ==>
              && (forall s | s in w'.latest :: s in w'.redis && w'.redis[s] == w'.latest[s])
              && Acked(c, w, op) == Acceptable(w, op.entries)
  {
    CleanMeansStored(c, ops);
    var w := Run(c, Initial, ops);
    StepKeepsSafe(c, w, op);
    var w' := Step(c, w, op);
    forall s | s in w'.latest && w'.dirty == {}
      ensures s in w'.redis && w'.redis[s] == w'.latest[s]
    {
      assert Stored(w', s);
    }
  }

  /** With a broken entry in the batch, the others are acknowledged and it alone is left pending. */
  lemma {:induction false} BrokenStaysPending(w: Worker, entries: seq<Entry>, i: nat)
    requires i < |entries| && forall j, k | 0 <= j < k < |entries| :: entries[j].id != entries[k].id
    ensures entries[i].id in Acceptable(w, entries) <==> Handled(HandleAll(w, entries[..i]), entries[i])
    ensures forall id | id in Acceptable(w, entries) :: exists k :: 0 <= k < |entries| && entries[k].id == id
  {
    var n := |entries| - 1;
    var init := entries[..n];
    forall id | id in Acceptable(w, entries)
      ensures exists k :: 0 <= k < |entries| && entries[k].id == id
    {
      var k := AcceptableIsThere(w, entries, id);
    }
    if i < n {
      BrokenStaysPending(w, init, i);
      assert init[..i] == entries[..i];
    } else if entries[n].id in Acceptable(w, init) {
      var k := AcceptableIsThere(w, init, entries[n].id);
    }
  }

  lemma {:induction false} AcceptableIsThere(w: Worker, entries: seq<Entry>, id: int) returns (k: nat)
    requires id in Acceptable(w, entries)
    ensures k < |entries| && entries[k].id == id
  {
    k := |entries| - 1;
    if entries[k].id != id {
      k := AcceptableIsThere(w, entries[..k], id);
    }
  }

  // ----- redelivery

  lemma HandleSeqMonotone(w: Worker, x: Entry, s: string)
    ensures LastSeq(Handle(w, x), s) >= LastSeq(w, s)
  {
  }

  lemma {:induction false} HandleAllSeqMonotone(w: Worker, entries: seq<Entry>, s: string)
    ensures LastSeq(HandleAll(w, entries), s) >= LastSeq(w, s)
  {
    if entries != [] {
      HandleAllSeqMonotone(w, entries[..|entries| - 1], s);
      HandleSeqMonotone(HandleAll(w, entries[..|entries| - 1]), entries[|entries| - 1], s);
    }
  }

  lemma {:induction false} RunSeqMonotone(c: Config, w: Worker, ops: seq<Op>, s: string)
    ensures LastSeq(Run(c, w, ops), s) >= LastSeq(w, s)
  {
    if ops != [] {
      var op, p := ops[|ops| - 1], Run(c, w, ops[..|ops| - 1]);
      RunSeqMonotone(c, w, ops[..|ops| - 1], s);
      StepSeqMonotone(c, p, op, s);
    }
  }

  lemma StepSeqMonotone(c: Config, w: Worker, op: Op, s: string)
    ensures LastSeq(Step(c, w, op), s) >= LastSeq(w, s)
  {
    if op.Consume? {
      HandleAllSeqMonotone(w, op.entries, s);
    }
  }

  /** However long after, delivering an applied entry with a positive sequence number again changes nothing. */
  lemma RedeliveryIsNoOp(c: Config, w: Worker, x: Entry, ops: seq<Op>)
    requires Applies(w, x) && x.ingestSeq > 0
    ensures var w' := Run(c, Handle(w, x), ops);
            Handle(w', x) == w' && Handled(w', x)
  {
    RunSeqMonotone(c, Handle(w, x), ops, x.symbol);
  }

  /** Without a positive sequence number, an immediate redelivery is harmless unless the event set a new extreme. */
  lemma UnsequencedRedelivery(w: Worker, x: Entry)
    requires Applies(w, x) && x.ingestSeq <= 0
    ensures var e := Parse(x).event;
            Handle(Handle(w, x), x) == Handle(w, x) <==>
            !(x.symbol in w.latest && (e.high > w.latest[x.symbol].sessionHigh || e.low < w.latest[x.symbol].sessionLow))
  {
    var e, w1 := Parse(x).event, Handle(w, x);
    var s1 := w1.latest[x.symbol];
    var w2 := Handle(w1, x);
    assert w2.latest[x.symbol] == NextState(s1, LockedDate(w1, x.symbol), e);
    assert w2.dirty == w1.dirty;
    SecondApplication(w, x.symbol, e);
    if w2.latest[x.symbol] == s1 {
      assert w2.latest == w1.latest;
    }
    assert w2.referenceDate == w1.referenceDate;
  }

  /** Applying one event twice: what is left different, and that the reference is not taken twice. */
  lemma SecondApplication(w: Worker, symbol: string, e: Event)
    ensures var s1 := StateAfter(w, symbol, e);
            var locked := if LocksDate(w, symbol, e) then Some(e.tradeDate) else LockedDate(w, symbol);
            && (NextState(s1, locked, e) == s1 <==> !s1.isNewHigh && !s1.isNewLow)
            && (TakesReference(s1, locked, e) ==> locked == Some(e.tradeDate))
  {
  }

  // ----- batched flushes

  lemma {:induction false} SortedDistinct(s: set<string>)
    ensures forall i, j | 0 <= i < j < |Sorted(s)| :: Sorted(s)[i] != Sorted(s)[j]
  {
    if s != {} {
      SortedDistinct(s - {Least(s)});
    }
  }

  lemma {:induction false} MembersSize(r: seq<string>)
    requires forall i, j | 0 <= i < j < |r| :: r[i] != r[j]
    ensures |Members(r)| == |r|
  {
    if r != [] {
      var init, x := r[..|r| - 1], r[|r| - 1];
      MembersSize(init);
      assert x !in init;
      assert Members(r) == Members(init) + {x};
    } else {
      assert Members(r) == {};
    }
  }

  lemma SuccessfulFlushShrinks(w: Worker, size: nat, interval: real, now: real)
    ensures |Flush(w, size, interval, true, false, now, Succeeds).dirty|
            == AfterOne(|w.dirty|, size)
  {
    if w.dirty != {} {
      var batch := Batch(w, size, false);
      SortedDistinct(w.dirty);
      MembersSize(batch);
      assert Members(batch) <= w.dirty;
      assert |w.dirty - Members(batch)| == |w.dirty| - |Members(batch)|;
    }
  }

  function AfterOne(n: nat, size: nat): nat {
    if n <= size then 0 else n - size
  }

  /** n minus one batch per round, as long as there is something left. */
  function Remaining(n: nat, size: nat, rounds: nat): nat {
    if rounds == 0 then n else AfterOne(Remaining(n, size, rounds - 1), size)
  }

  function CeilDiv(n: nat, size: nat): nat
    requires size >= 1
  {
    (n + size - 1) / size
  }

  lemma {:induction false} RemainingIsDifference(n: nat, size: nat, rounds: nat)
    ensures Remaining(n, size, rounds) == if n <= rounds * size then 0 else n - rounds * size
  {
    if rounds > 0 {
      RemainingIsDifference(n, size, rounds - 1);
      assert rounds * size == (rounds - 1) * size + size;
    }
  }

  lemma CeilBound(n: nat, size: nat, rounds: nat)
    requires size >= 1
    ensures n <= rounds * size <==> rounds >= (n + size - 1) / size
  {
    var q, r := (n + size - 1) / size, (n + size - 1) % size;
    assert n + size - 1 == q * size + r;
    if rounds >= q {
      assert rounds * size >= q * size;
    } else {
      assert (rounds + 1) * size <= q * size;
    }
  }

  lemma RemainingIsCeil(n: nat, size: nat, rounds: nat)
    requires size >= 1
    ensures Remaining(n, size, rounds) == 0 <==> rounds >= CeilDiv(n, size)
  {
    RemainingIsDifference(n, size, rounds);
    CeilBound(n, size, rounds);
  }

  /** w' is w after a successful forced flush of one batch, at some time. */
  ghost predicate Round(c: Config, w: Worker, w': Worker) {
    exists now: real :: w' == Flush(w, c.size, c.interval, true, false, now, Succeeds)
  }

  ghost predicate Rounds(c: Config, ws: seq<Worker>) {
    ws != [] && forall i {:trigger Round(c, ws[i], ws[i + 1])} | 0 <= i < |ws| - 1 :: Round(c, ws[i], ws[i + 1])
  }

  lemma RoundShrinks(c: Config, w: Worker, w': Worker)
    requires Round(c, w, w')
    ensures |w'.dirty| == AfterOne(|w.dirty|, c.size)
  {
    var now: real :| w' == Flush(w, c.size, c.interval, true, false, now, Succeeds);
    SuccessfulFlushShrinks(w, c.size, c.interval, now);
  }

  lemma {:induction false} DirtyAfterRounds(c: Config, ws: seq<Worker>, k: nat)
    requires Rounds(c, ws) && k < |ws|
    ensures |ws[k].dirty| == Remaining(|ws[0].dirty|, c.size, k)
  {
    if k > 0 {
      DirtyAfterRounds(c, ws, k - 1);
      var i := k - 1;
      assert Round(c, ws[i], ws[i + 1]);
      RoundShrinks(c, ws[i], ws[i + 1]);
    }
  }

  /** Successful batched flushes: the dirty set is empty after ceil(n / size) rounds and not before. */
  lemma RoundsToClean(c: Config, ws: seq<Worker>, k: nat)
    requires c.size >= 1 && Rounds(c, ws) && k < |ws|
    ensures ws[k].dirty == {} <==> k >= CeilDiv(|ws[0].dirty|, c.size)
  {
    DirtyAfterRounds(c, ws, k);
    RemainingIsCeil(|ws[0].dirty|, c.size, k);
  }

  // ----- what the state of a symbol means

  /** The events applied to symbol s while the entries are handled from the start. */
  ghost function EventsOf(entries: seq<Entry>, s: string): seq<Event> {
    if entries == [] then []
    else
      var init, x := entries[..|entries| - 1], entries[|entries| - 1];
      if x.symbol == s && Applies(HandleAll(Initial, init), x) then EventsOf(init, s) + [Parse(x).event]
      else EventsOf(init, s)
  }

  /** The state of a symbol is the summary of its events: first open, extremes, and whether the last one set a new one. */
  ghost predicate Summary(s: SpotState, es: seq<Event>)
    requires es != []
  {
    var last := es[|es| - 1];
    && s.open == es[0].open && s.lastPrice == last.last && s.close == last.close && s.updatedAt == last.at
    && (forall i | 0 <= i < |es| :: s.sessionLow <= es[i].low && es[i].high <= s.sessionHigh)
    && (exists i | 0 <= i < |es| :: es[i].high == s.sessionHigh) && (exists i | 0 <= i < |es| :: es[i].low == s.sessionLow)
    && s.high == s.sessionHigh && s.low == s.sessionLow
    && (s.isNewHigh <==> |es| > 1 && forall i | 0 <= i < |es| - 1 :: es[i].high < last.high)
    && (s.isNewLow <==> |es| > 1 && forall i | 0 <= i < |es| - 1 :: last.low < es[i].low)
  }

  lemma SummaryMore(s: SpotState, es: seq<Event>, locked: Option<int>, e: Event)
    requires es != [] && Summary(s, es)
    ensures Summary(NextState(s, locked, e), es + [e])
  {
    var es', n := es + [e], |es|;
    assert es'[n] == e && forall i | 0 <= i < n :: es'[i] == es[i];
    var ih :| 0 <= ih < n && es[ih].high == s.sessionHigh;
    var il :| 0 <= il < n && es[il].low == s.sessionLow;
    assert es'[ih].high == s.sessionHigh && es'[il].low == s.sessionLow;
  }

  lemma {:induction false} StateSummarizesEvents(entries: seq<Entry>, s: string)
    ensures var w, es := HandleAll(Initial, entries), EventsOf(entries, s);
            && (s in w.latest <==> es != [])
            && (es != [] ==> Summary(w.latest[s], es))
  {
    if entries != [] {
      var init, x := entries[..|entries| - 1], entries[|entries| - 1];
      StateSummarizesEvents(init, s);
      var w, es := HandleAll(Initial, init), EventsOf(init, s);
      if x.symbol == s && Applies(w, x) {
        var e := Parse(x).event;
        if es == [] {
          assert ([] + [e])[0] == e;
        } else {
          SummaryMore(w.latest[s], es, LockedDate(w, s), e);
        }
      }
    }
  }

  /** The last change, percentage or reference among the events that has a value. */
  ghost function LastGiven(xs: seq<Option<real>>): Option<real> {
    if xs == [] then None
    else if xs[|xs| - 1].Some? then xs[|xs| - 1]
    else LastGiven(xs[..|xs| - 1])
  }

  ghost function PriceChanges(es: seq<Event>): seq<Option<real>> {
    seq(|es|, i requires 0 <= i < |es| => es[i].priceChg)
  }

  ghost function PctChanges(es: seq<Event>): seq<Option<real>> {
    seq(|es|, i requires 0 <= i < |es| => es[i].pctChg)
  }

  /** The gap from the reference to the open, as a part of the reference in percent, and its direction. */
  ghost predicate IsGap(g: Gap, open: real, reference: real) {
    && g.value == open - reference && (g.up <==> open > reference) && (g.down <==> open < reference)
    && if reference == 0.0 then g.pct == 0.0 else g.pct * reference == 100.0 * g.value
  }

  /**
    A new extreme counts first, a high before a low.  Otherwise the price is strong when it is at least 0.8
    percent of the open away from it; upwards for an open above 0.
   */
  ghost predicate IsStrength(x: Strength, newHigh: bool, newLow: bool, open: real, last: real) {
    && (x.NewHigh? <==> newHigh) && (x.NewLow? <==> newLow && !newHigh)
    && (!newHigh && !newLow ==>
          && (open == 0.0 ==> x.Flat?)
          && (open > 0.0 ==> (x.StrongUp? <==> last >= 1.008 * open) && (x.StrongDown? <==> last <= 0.992 * open))
          && (open < 0.0 ==> (x.StrongUp? <==> last <= 1.008 * open) && (x.StrongDown? <==> last >= 0.992 * open)))
  }

  lemma GapReads(open: real, reference: real)
    ensures IsGap(GapOf(open, reference), open, reference)
  {
    if reference != 0.0 {
      var q := (open - reference) / reference;
      assert q * reference == open - reference;
      assert q * 100.0 * reference == 100.0 * (q * reference);
    }
  }

  /** Comparing a quotient is comparing products, the other way round for a negative divisor. */
  lemma QuotientAtLeast(n: real, d: real, c: real)
    requires d != 0.0
    ensures d > 0.0 ==> (n / d >= c <==> n >= c * d) && (n / d <= c <==> n <= c * d)
    ensures d < 0.0 ==> (n / d >= c <==> n <= c * d) && (n / d <= c <==> n >= c * d)
  {
    var q := n / d;
    assert q * d == n;
    if d > 0.0 {
      ScaleKeepsOrder(q, c, d);
      ScaleKeepsOrder(c, q, d);
    } else {
      ScaleKeepsOrder(q, c, -d);
      ScaleKeepsOrder(c, q, -d);
      assert q * -d == -n && c * -d == -(c * d);
    }
  }

  lemma StrengthReads(newHigh: bool, newLow: bool, open: real, last: real)
    ensures IsStrength(ResolveStrength(newHigh, newLow, open, last), newHigh, newLow, open, last)
  {
    if !newHigh && !newLow && open != 0.0 {
      QuotientAtLeast(last - open, open, 0.008);
      QuotientAtLeast(last - open, open, -0.008);
    }
  }

  /** The changes are the last ones given, and gap and strength are those of the state's own fields. */
  ghost predicate Derived(s: SpotState, es: seq<Event>) {
    && s.priceChg == LastGiven(PriceChanges(es)) && s.pctChg == LastGiven(PctChanges(es))
    && s.gap == (if s.referencePrice.Some? then Some(GapOf(s.open, s.referencePrice.value)) else None)
    && s.strength == ResolveStrength(s.isNewHigh, s.isNewLow, s.open, s.lastPrice)
  }

  /** What that means in prices. */
  ghost predicate ReadsRight(s: SpotState) {
    && (s.gap.Some? <==> s.referencePrice.Some?)
    && (s.gap.Some? ==> IsGap(s.gap.value, s.open, s.referencePrice.value))
    && IsStrength(s.strength, s.isNewHigh, s.isNewLow, s.open, s.lastPrice)
  }

  /** In every state that a symbol reaches, gap and strength are right in terms of its prices. */
  lemma GapAndStrengthRead(entries: seq<Entry>, s: string)
    ensures var w := HandleAll(Initial, entries);
            s in w.latest ==> ReadsRight(w.latest[s])
  {
    StateIsDerived(entries, s);
    var w := HandleAll(Initial, entries);
    if s in w.latest {
      var st := w.latest[s];
      StrengthReads(st.isNewHigh, st.isNewLow, st.open, st.lastPrice);
      if st.referencePrice.Some? {
        GapReads(st.open, st.referencePrice.value);
      }
    }
  }

  /** The i-th event fixed the reference: later references are of its date, the one before it was not. */
  ghost predicate Fixes(es: seq<Event>, i: nat)
    requires i < |es|
  {
    && es[i].referencePrice.Some?
    && (forall j | i < j < |es| && es[j].referencePrice.Some? :: es[j].tradeDate == es[i].tradeDate)
    && (forall j | 0 <= j < i && es[j].referencePrice.Some? && es[j].tradeDate == es[i].tradeDate ::
          exists k | j < k < i :: es[k].referencePrice.Some? && es[k].tradeDate != es[i].tradeDate)
  }

  ghost predicate Referenced(reference: Option<real>, locked: Option<int>, es: seq<Event>) {
    if forall i | 0 <= i < |es| :: es[i].referencePrice.None? then reference == None && locked == None
    else exists i | 0 <= i < |es| :: Fixes(es, i) && reference == es[i].referencePrice && locked == Some(es[i].tradeDate)
  }

  lemma LastGivenMore(xs: seq<Option<real>>, x: Option<real>)
    ensures LastGiven(xs + [x]) == if x.Some? then x else LastGiven(xs)
  {
    assert (xs + [x])[..|xs|] == xs;
  }

  lemma DerivedMore(s: SpotState, es: seq<Event>, locked: Option<int>, e: Event)
    requires Derived(s, es)
    ensures Derived(NextState(s, locked, e), es + [e])
  {
    assert PriceChanges(es + [e]) == PriceChanges(es) + [e.priceChg];
    assert PctChanges(es + [e]) == PctChanges(es) + [e.pctChg];
    LastGivenMore(PriceChanges(es), e.priceChg);
    LastGivenMore(PctChanges(es), e.pctChg);
  }

  lemma FixesMore(es: seq<Event>, e: Event, i: nat)
    requires i < |es| && Fixes(es, i)
    ensures e.referencePrice.None? || e.tradeDate == es[i].tradeDate ==> Fixes(es + [e], i)
    ensures e.referencePrice.Some? && e.tradeDate != es[i].tradeDate ==> Fixes(es + [e], |es|)
  {
    var more := es + [e];
    assert forall j | 0 <= j < |es| :: more[j] == es[j];
    if e.referencePrice.Some? && e.tradeDate != es[i].tradeDate {
      forall j | 0 <= j < |es| && more[j].referencePrice.Some? && more[j].tradeDate == e.tradeDate
        ensures exists k | j < k < |es| :: more[k].referencePrice.Some? && more[k].tradeDate != e.tradeDate
      {
        assert j < i && more[i].referencePrice.Some?;
      }
    }
  }

  lemma ReferencedMore(reference: Option<real>, locked: Option<int>, es: seq<Event>, e: Event)
    requires Referenced(reference, locked, es)
    ensures var takes := e.referencePrice.Some? && (reference.None? || locked != Some(e.tradeDate));
            Referenced(if takes then e.referencePrice else reference, if takes then Some(e.tradeDate) else locked, es + [e])
  {
    var more := es + [e];
    assert more[|es|] == e && forall j | 0 <= j < |es| :: more[j] == es[j];
    if forall i | 0 <= i < |es| :: es[i].referencePrice.None? {
      if e.referencePrice.Some? {
        assert Fixes(more, |es|);
      }
    } else {
      var i :| 0 <= i < |es| && Fixes(es, i) && reference == es[i].referencePrice && locked == Some(es[i].tradeDate);
      FixesMore(es, e, i);
      assert more[i].referencePrice.Some?;
    }
  }

  lemma FirstStateFits(e: Event)
    ensures Derived(FirstState(e), [e])
    ensures Referenced(e.referencePrice, if e.referencePrice.Some? then Some(e.tradeDate) else None, [e])
  {
    assert PriceChanges([e]) == [] + [e.priceChg] && PctChanges([e]) == [] + [e.pctChg];
    LastGivenMore([], e.priceChg);
    LastGivenMore([], e.pctChg);
    if e.referencePrice.Some? {
      assert Fixes([e], 0);
    }
  }

  /**
    Price changes carry over from the last event that had one.  The reference price is fixed by the first
    event of a trade date that has one, until an event of another date has one; the gap always goes with it.
   */
  lemma {:induction false} StateIsDerived(entries: seq<Entry>, s: string)
    ensures var w, es := HandleAll(Initial, entries), EventsOf(entries, s);
            if es == [] then s !in w.latest && s !in w.referenceDate
            else s in w.latest && Derived(w.latest[s], es) && Referenced(w.latest[s].referencePrice, LockedDate(w, s), es)
  {
    if entries != [] {
      var init, x := entries[..|entries| - 1], entries[|entries| - 1];
      StateIsDerived(init, s);
      var w, es := HandleAll(Initial, init), EventsOf(init, s);
      if x.symbol == s && Applies(w, x) {
        var e := Parse(x).event;
        if es == [] {
          assert [] + [e] == [e];
          FirstStateFits(e);
        } else {
          DerivedMore(w.latest[s], es, LockedDate(w, s), e);
          ReferencedMore(w.latest[s].referencePrice, LockedDate(w, s), es, e);
        }
      }
    }
  }

  // ----- delivering an event without a sequence number again, however much later

  /** The last of the events set a new extreme. */
  ghost predicate SetsExtreme(es: seq<Event>)
    requires es != []
  {
    var last := es[|es| - 1];
    |es| > 1 && ((forall i | 0 <= i < |es| - 1 :: es[i].high < last.high) || forall i | 0 <= i < |es| - 1 :: last.low < es[i].low)
  }

  /** After the events, which had e among them, e has nothing new to say. */
  ghost predicate NothingNew(es: seq<Event>, locked: Option<int>, e: Event)
    requires es != []
  {
    var last := es[|es| - 1];
    && last.last == e.last && last.close == e.close && last.at == e.at && !SetsExtreme(es)
    && (e.priceChg.None? || LastGiven(PriceChanges(es)) == e.priceChg)
    && (e.pctChg.None? || LastGiven(PctChanges(es)) == e.pctChg)
    && (e.referencePrice.None? || locked == Some(e.tradeDate))
  }

  /** Of a state that sums up the events, one of them applied again keeps both parts exactly when it says nothing new. */
  lemma AppliedAgain(s: SpotState, locked: Option<int>, es: seq<Event>, i: nat)
    requires i < |es| && Summary(s, es) && Derived(s, es) && Referenced(s.referencePrice, locked, es)
    ensures NextState(s, locked, es[i]) == s && !TakesReference(s, locked, es[i]) <==> NothingNew(es, locked, es[i])
  {
    assert s.sessionLow <= es[i].low && es[i].high <= s.sessionHigh;
    assert es[i].referencePrice.Some? ==> s.referencePrice.Some?;
  }

  /**
    An entry that was applied before, delivered again without a positive sequence number after any other
    entries, leaves the worker's states, sequence numbers and reference dates as they are if and only if its
    event has nothing new to say: the last event of its symbol had the same price, close and time and set no
    new extreme, the last changes given are its own, and the reference is locked for its date.
   */
  lemma UnsequencedLater(entries: seq<Entry>, x: Entry)
    requires Applies(HandleAll(Initial, entries), x) && x.ingestSeq <= 0
    requires Parse(x).event in EventsOf(entries, x.symbol)
    ensures var w := HandleAll(Initial, entries);
            var w' := Handle(w, x);
            w'.latest == w.latest && w'.lastSeq == w.lastSeq && w'.referenceDate == w.referenceDate <==>
            NothingNew(EventsOf(entries, x.symbol), LockedDate(w, x.symbol), Parse(x).event)
  {
    StateSummarizesEvents(entries, x.symbol);
    StateIsDerived(entries, x.symbol);
    var w, es := HandleAll(Initial, entries), EventsOf(entries, x.symbol);
    var i :| 0 <= i < |es| && es[i] == Parse(x).event;
    AppliedAgain(w.latest[x.symbol], LockedDate(w, x.symbol), es, i);
    HandleSame(w, x);
  }

  /** When handling an entry of a known symbol leaves all but the dirty set alone. */
  lemma HandleSame(w: Worker, x: Entry)
    requires Applies(w, x) && x.ingestSeq <= 0 && x.symbol in w.latest
    requires w.latest[x.symbol].referencePrice.Some? ==> x.symbol in w.referenceDate
    ensures var s, locked, e, w' := w.latest[x.symbol], LockedDate(w, x.symbol), Parse(x).event, Handle(w, x);
            w'.latest == w.latest && w'.lastSeq == w.lastSeq && w'.referenceDate == w.referenceDate <==>
            NextState(s, locked, e) == s && !TakesReference(s, locked, e)
  {
    var s, locked, e, w' := w.latest[x.symbol], LockedDate(w, x.symbol), Parse(x).event, Handle(w, x);
    assert w'.latest == w.latest[x.symbol := NextState(s, locked, e)];
    assert w'.latest[x.symbol] == NextState(s, locked, e);
    if TakesReference(s, locked, e) {
      assert w'.referenceDate[x.symbol] == e.tradeDate;
    } else if NextState(s, locked, e) == s {
      assert w.latest[x.symbol := s] == w.latest;
    }
  }
}
