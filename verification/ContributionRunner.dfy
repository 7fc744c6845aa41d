/** The worker around the engine: daily reset, constituent lookup and redelivery. */
module ContributionRunner {
  import opened Wrappers
  import opened TaipeiTime
  import opened IndexContribution
  import opened ContributionTheorems

  datatype Constituent = Constituent(name: string, weight: real, tableSector: Option<string>)

  datatype Inputs = Inputs(indexPrevClose: real, constituents: map<string, Constituent>, sectorMapping: map<string, string>)

  /** What the daily input loader does when it is asked. */
  datatype Load = NoLoader | Loaded(inputs: Inputs) | LoadFails

  /** A parsed spot entry; times are UTC microseconds. */
  datatype Entry = Entry(id: string, symbol: string, lastPrice: real, prevClose: real, at: int, ingestSeq: Option<int>)

  datatype Worker = Worker(
    engine: Engine, constituents: map<string, Constituent>, sectorMapping: map<string, string>,
    activeDate: Option<int>, lastSeq: map<string, int>, lastFlushedMinute: Option<int>)

  function TaipeiDate(at: int): int {
    DayOf(MinuteFloor(at + TAIPEI_OFFSET_SECONDS * MICROS_PER_SECOND))
  }

  function Lookup(m: map<string, string>, k: string): Option<string> {
    if k in m then Some(m[k]) else None
  }

  function UpdateFor(w: Worker, x: Entry): Update
    requires x.symbol in w.constituents
  {
    var meta := w.constituents[x.symbol];
    Update(x.symbol, meta.name, Lookup(w.sectorMapping, x.symbol), meta.tableSector,
           x.lastPrice, x.prevClose, meta.weight, x.at, Some(x.id))
  }

  /** Everything is cleared before the new inputs are loaded, so a failing load leaves an empty engine. */
  function DailyReset(w: Worker, date: int, load: Load): Worker {
    var p := if load.Loaded? then load.inputs.indexPrevClose else w.engine.indexPrevClose;
    Worker(Engine(p, map[], map[], {}),
           if load.Loaded? then load.inputs.constituents else w.constituents,
           if load.Loaded? then load.inputs.sectorMapping else w.sectorMapping,
           Some(date), map[], None)
  }

  predicate NeedsReset(w: Worker, x: Entry) {
    w.activeDate.Some? && TaipeiDate(x.at) > w.activeDate.value
  }

  /** The worker as it stands when the engine is asked: after a date change, if there was one. */
  function Rolled(w: Worker, x: Entry, load: Load): Worker {
    if w.activeDate.None? then w.(activeDate := Some(TaipeiDate(x.at)))
    else if NeedsReset(w, x) then DailyReset(w, TaipeiDate(x.at), load)
    else w
  }

  predicate Accepts(w: Worker, x: Entry) {
    x.symbol in w.constituents && !Dropped(w.engine, UpdateFor(w, x))
  }

  function Process(w: Worker, x: Entry, load: Load): Worker {
    var r := Rolled(w, x, load);
    if NeedsReset(w, x) && load.LoadFails? then r
    else if x.symbol !in r.constituents then r
    else r.(engine := Apply(r.engine, UpdateFor(r, x)))
  }

  predicate SeqDrops(w: Worker, x: Entry) {
    x.ingestSeq.Some? && x.symbol in w.lastSeq && x.ingestSeq.value <= w.lastSeq[x.symbol]
  }

  /** `_last_ingest_seq.get(symbol, -1)`: a first sequence number below 0 is dropped as well. */
  predicate SeqTooSmall(w: Worker, x: Entry) {
    x.ingestSeq.Some? && x.symbol !in w.lastSeq && x.ingestSeq.value <= -1
  }

  function Handle(w: Worker, x: Entry, load: Load, publishOk: bool): Worker {
    if SeqDrops(w, x) || SeqTooSmall(w, x) then w
    else
      var r := Process(w, x, load);
      var accepted := !(NeedsReset(w, x) && load.LoadFails?) && Accepts(Rolled(w, x, load), x);
      if accepted && publishOk && x.ingestSeq.Some? then r.(lastSeq := r.lastSeq[x.symbol := x.ingestSeq.value]) else r
  }

  class IndexContributionRunner {
    const engine: IndexContributionEngine
    var constituents: map<string, Constituent>
    var sectorMapping: map<string, string>
    var activeTradeDate: Option<int>
    var lastIngestSeq: map<string, int>
    var lastFlushedMinute: Option<int>

    ghost function State(): Worker
      reads this, engine
    {
      Worker(engine.State(), constituents, sectorMapping, activeTradeDate, lastIngestSeq, lastFlushedMinute)
    }

    constructor (indexPrevClose: real)
      ensures State() == Worker(Fresh(indexPrevClose), map[], map[], None, map[], None)
      ensures fresh(engine)
    {
      engine := new IndexContributionEngine(indexPrevClose);
      constituents, sectorMapping, activeTradeDate, lastIngestSeq, lastFlushedMinute := map[], map[], None, map[], None;
    }

    /** Returns false when the loader raises. */
    method InitializeDailyInputs(load: Load) returns (ok: bool)
      modifies this, engine
      ensures ok == !load.LoadFails?
      ensures var w := old(State());
              State() == if !load.Loaded? then w
                         else w.(engine := w.engine.(indexPrevClose := load.inputs.indexPrevClose),
                                 constituents := load.inputs.constituents, sectorMapping := load.inputs.sectorMapping)
    {
      match load {
        case NoLoader => ok := true;
        case LoadFails => ok := false;
        case Loaded(inputs) =>
          engine.indexPrevClose := inputs.indexPrevClose;
          constituents := inputs.constituents;
          sectorMapping := inputs.sectorMapping;
          ok := true;
      }
    }

    method ResetDay(date: int, load: Load) returns (ok: bool)
      modifies this, engine
      ensures State() == DailyReset(old(State()), date, load) && ok == !load.LoadFails?
    {
      engine.Clear();
      lastIngestSeq := map[];
      lastFlushedMinute := None;
      activeTradeDate := Some(date);
      ok := InitializeDailyInputs(load);
    }

    /** None when the call raises. */
    method ProcessMarketUpdate(x: Entry, load: Load) returns (accepted: Option<bool>)
      modifies this, engine
      ensures State() == Process(old(State()), x, load)
      ensures accepted == if NeedsReset(old(State()), x) && load.LoadFails? then None
                          else Some(Accepts(Rolled(old(State()), x, load), x))
    {
      if activeTradeDate.None? {
        activeTradeDate := Some(TaipeiDate(x.at));
      } else if TaipeiDate(x.at) > activeTradeDate.value {
        var ok := ResetDay(TaipeiDate(x.at), load);
        if !ok {
          return None;
        }
      }
      if x.symbol !in constituents {
        return Some(false);
      }
      var meta := constituents[x.symbol];
      var a := engine.ApplyUpdate(Update(x.symbol, meta.name, Lookup(sectorMapping, x.symbol), meta.tableSector,
                                         x.lastPrice, x.prevClose, meta.weight, x.at, Some(x.id)));
      accepted := Some(a);
    }

    /** True when the entry will be acknowledged; `published` when its state went out. */
    method HandleSpotEntry(x: Entry, load: Load, publishOk: bool) returns (ack: bool, published: bool)
      modifies this, engine
      ensures State() == Handle(old(State()), x, load, publishOk)
      ensures ack == Acknowledges(old(State()), x, load, publishOk)
      ensures published == (Publishes(old(State()), x, load) && publishOk)
    {
      published := false;
      if x.ingestSeq.Some? {
        var last := if x.symbol in lastIngestSeq then lastIngestSeq[x.symbol] else -1;
        if x.ingestSeq.value <= last {
          return true, false;
        }
      }
      var accepted := ProcessMarketUpdate(x, load);
      if accepted.None? {
        return false, false;
      }
      if !accepted.value {
        return true, false;
      }
      if !publishOk {
        return false, false;
      }
      if x.ingestSeq.Some? {
        lastIngestSeq := lastIngestSeq[x.symbol := x.ingestSeq.value];
      }
      return true, true;
    }
  }

  predicate Publishes(w: Worker, x: Entry, load: Load) {
    && !SeqDrops(w, x) && !SeqTooSmall(w, x) && !(NeedsReset(w, x) && load.LoadFails?)
    && Accepts(Rolled(w, x, load), x)
  }

  predicate Acknowledges(w: Worker, x: Entry, load: Load, publishOk: bool) {
    || SeqDrops(w, x) || SeqTooSmall(w, x)
    || (!(NeedsReset(w, x) && load.LoadFails?) && (!Accepts(Rolled(w, x, load), x) || publishOk))
  }

  // ----- whole runs

  datatype Call = Call(entry: Entry, load: Load, publishOk: bool)

  ghost function RunCalls(w: Worker, calls: seq<Call>): Worker {
    if calls == [] then w
    else
      var c := calls[|calls| - 1];
      Handle(RunCalls(w, calls[..|calls| - 1]), c.entry, c.load, c.publishOk)
  }

  lemma HandleKeepsExact(w: Worker, c: Call)
    requires Exact(w.engine)
    ensures Exact(Handle(w, c.entry, c.load, c.publishOk).engine)
  {
    var r := Rolled(w, c.entry, c.load);
    if NeedsReset(w, c.entry) {
      EmptyIsExact(r.engine.indexPrevClose);
    }
    if c.entry.symbol in r.constituents {
      ApplyKeepsExact(r.engine, UpdateFor(r, c.entry));
    }
  }

  /**
    Over every run of entries, date changes, failing loads and failing publishes, with
    symbols moving between sectors as the inputs change: every sector total is exactly the
    sum of its symbols' points, no total names an empty sector, and no total has drifted; and each
    symbol's points are what its move is worth, rounded.
   */
  lemma {:induction false} TotalsExactOverEveryRun(w: Worker, calls: seq<Call>, sector: string)
    requires Exact(w.engine)
    ensures var e := RunCalls(w, calls).engine;
            && Exact(e) && SectorExact(e, sector)
            && Abs(Total(e.sectors, sector) - SumBy(e.symbols, UnroundedOf(e.indexPrevClose, sector)))
               <= 0.0000005 * SumBy(e.symbols, CountOf(sector))
            && forall s | s in e.symbols :: Worth(e.indexPrevClose, e.symbols[s])
  {
    if calls != [] {
      TotalsExactOverEveryRun(w, calls[..|calls| - 1], sector);
      HandleKeepsExact(RunCalls(w, calls[..|calls| - 1]), calls[|calls| - 1]);
    }
    var e := RunCalls(w, calls).engine;
    assert SectorExact(e, sector);
    TotalsDoNotDrift(e, sector);
    forall s | s in e.symbols {
      PointsAreWorth(e, s);
    }
  }

  // ----- which entries get through

  /** The Taipei day that an instant is in. */
  lemma TaipeiDateReads(at: int)
    ensures var wall := at + 8 * MICROS_PER_HOUR;
            TaipeiDate(at) * MICROS_PER_DAY <= wall < (TaipeiDate(at) + 1) * MICROS_PER_DAY
  {
    var wall := at + TAIPEI_OFFSET_SECONDS * MICROS_PER_SECOND;
    var minutes := wall / MICROS_PER_MINUTE;
    var day := minutes / 1440;
    assert MinuteFloor(wall) == minutes * MICROS_PER_MINUTE;
    assert MinuteFloor(wall) == day * MICROS_PER_DAY + minutes % 1440 * MICROS_PER_MINUTE;
    DayIs(MinuteFloor(wall), day, minutes % 1440 * MICROS_PER_MINUTE);
  }

  lemma DayIs(wall: int, day: int, time: int)
    requires wall == day * MICROS_PER_DAY + time && 0 <= time < MICROS_PER_DAY
    ensures DayOf(wall) == day
  {
  }

  /** The last sequence number published for the symbol since the last reset; -1 when there is none. */
  ghost function LastSeqOf(w: Worker, symbol: string): int {
    if symbol in w.lastSeq then w.lastSeq[symbol] else -1
  }

  /** The entry has a sequence number that is not above the last published one of its symbol. */
  ghost predicate IsOld(w: Worker, x: Entry) {
    x.ingestSeq.Some? && x.ingestSeq.value <= LastSeqOf(w, x.symbol)
  }

  /** The entry is of a later date than the worker's. */
  ghost predicate IsLaterDay(w: Worker, x: Entry) {
    w.activeDate.Some? && w.activeDate.value < TaipeiDate(x.at)
  }

  /** The worker that meets the entry: emptied for a later day, with new inputs if there are any. */
  ghost predicate Meets(w: Worker, x: Entry, load: Load, r: Worker) {
    if !IsLaterDay(w, x) then r == w.(activeDate := if w.activeDate.Some? then w.activeDate else Some(TaipeiDate(x.at)))
    else
      && r.activeDate == Some(TaipeiDate(x.at)) && r.lastSeq == map[] && r.lastFlushedMinute == None
      && r.engine.symbols == map[] && r.engine.sectors == map[] && r.engine.processed == {}
      && (if load.Loaded?
          then r.engine.indexPrevClose == load.inputs.indexPrevClose && r.constituents == load.inputs.constituents
               && r.sectorMapping == load.inputs.sectorMapping
          else r.engine.indexPrevClose == w.engine.indexPrevClose && r.constituents == w.constituents
               && r.sectorMapping == w.sectorMapping)
  }

  /** What the engine is asked to apply. */
  ghost predicate IsUpdateOf(u: Update, r: Worker, x: Entry)
    requires x.symbol in r.constituents
  {
    var meta := r.constituents[x.symbol];
    && u.symbol == x.symbol && u.lastPrice == x.lastPrice && u.prevClose == x.prevClose && u.updatedAt == x.at
    && u.name == meta.name && u.weight == meta.weight && u.tableSector == meta.tableSector && u.eventId == Some(x.id)
    && (if x.symbol in r.sectorMapping then u.mappingSector == Some(r.sectorMapping[x.symbol]) else u.mappingSector == None)
  }

  /** The constituent's update is new and valid to the engine. */
  ghost predicate GetsThrough(r: Worker, x: Entry) {
    && x.symbol in r.constituents
    && (x.id != "" ==> x.id !in r.engine.processed)
    && (x.symbol in r.engine.symbols ==> r.engine.symbols[x.symbol].updatedAt < x.at)
    && Valid(r.engine.indexPrevClose, UpdateFor(r, x))
  }

  lemma MeetsOwnDay(w: Worker, x: Entry, load: Load)
    ensures Meets(w, x, load, Rolled(w, x, load)) && (NeedsReset(w, x) <==> IsLaterDay(w, x))
  {
  }

  lemma UpdateReads(r: Worker, x: Entry)
    ensures Accepts(r, x) <==> GetsThrough(r, x)
    ensures x.symbol in r.constituents ==> IsUpdateOf(UpdateFor(r, x), r, x)
    ensures x.symbol in r.constituents && !GetsThrough(r, x) ==> Apply(r.engine, UpdateFor(r, x)) == r.engine
  {
    if x.symbol in r.constituents {
      DroppedExactly(r.engine, UpdateFor(r, x));
    }
  }

  /** An old entry is acknowledged and changes nothing. */
  lemma OldIsIgnored(w: Worker, x: Entry, load: Load, publishOk: bool)
    ensures IsOld(w, x) <==> SeqDrops(w, x) || SeqTooSmall(w, x)
    ensures IsOld(w, x) ==>
              Handle(w, x, load, publishOk) == w && Acknowledges(w, x, load, publishOk) && !Publishes(w, x, load)
  {
  }

  /**
    One entry, for every state of the worker.  An old one is acknowledged and changes nothing.  Otherwise it
    meets the worker of its own day; it is published exactly when its update gets through, and its sequence
    number is remembered once the publication went out.  It stays pending only when the loading or the
    publication failed.
   */
  lemma HandlingReads(w: Worker, x: Entry, load: Load, publishOk: bool)
    ensures IsOld(w, x) ==>
              Handle(w, x, load, publishOk) == w && Acknowledges(w, x, load, publishOk) && !Publishes(w, x, load)
    ensures !IsOld(w, x) ==>
              var r, v := Rolled(w, x, load), Handle(w, x, load, publishOk);
              var failed := IsLaterDay(w, x) && load.LoadFails?;
              && Meets(w, x, load, r) && (x.symbol in r.constituents ==> IsUpdateOf(UpdateFor(r, x), r, x))
              && (Publishes(w, x, load) <==> !failed && GetsThrough(r, x))
              && (Acknowledges(w, x, load, publishOk) <==> !failed && (GetsThrough(r, x) ==> publishOk))
              && v.constituents == r.constituents && v.sectorMapping == r.sectorMapping && v.activeDate == r.activeDate
              && (if failed || !GetsThrough(r, x) then v == r else v.engine == Apply(r.engine, UpdateFor(r, x)))
              && v.lastSeq == (if !failed && GetsThrough(r, x) && publishOk && x.ingestSeq.Some?
                               then r.lastSeq[x.symbol := x.ingestSeq.value] else r.lastSeq)
  {
    var r := Rolled(w, x, load);
    OldIsIgnored(w, x, load, publishOk);
    MeetsOwnDay(w, x, load);
    UpdateReads(r, x);
    if !IsOld(w, x) {
      NewIsHandled(w, x, load, publishOk, r);
    }
  }

  lemma NewIsHandled(w: Worker, x: Entry, load: Load, publishOk: bool, r: Worker)
    requires !SeqDrops(w, x) && !SeqTooSmall(w, x) && r == Rolled(w, x, load)
    ensures var v, failed := Handle(w, x, load, publishOk), NeedsReset(w, x) && load.LoadFails?;
            && (Publishes(w, x, load) <==> !failed && Accepts(r, x))
            && (Acknowledges(w, x, load, publishOk) <==> !failed && (Accepts(r, x) ==> publishOk))
            && v.constituents == r.constituents && v.sectorMapping == r.sectorMapping && v.activeDate == r.activeDate
            && v.engine == (if failed || x.symbol !in r.constituents then r.engine else Apply(r.engine, UpdateFor(r, x)))
            && v.lastFlushedMinute == r.lastFlushedMinute
            && v.lastSeq == (if !failed && Accepts(r, x) && publishOk && x.ingestSeq.Some?
                             then r.lastSeq[x.symbol := x.ingestSeq.value] else r.lastSeq)
  {
  }

  // ----- redelivery

  /** The active date never goes back, and while it stays no processed id is forgotten. */
  lemma HandleGrows(w: Worker, c: Call)
    requires w.activeDate.Some?
    ensures var v := Handle(w, c.entry, c.load, c.publishOk);
            && v.activeDate.Some? && w.activeDate.value <= v.activeDate.value
            && (v.activeDate == w.activeDate ==> w.engine.processed <= v.engine.processed)
  {
  }

  lemma {:induction false} RunGrows(w: Worker, calls: seq<Call>)
    requires w.activeDate.Some?
    ensures var v := RunCalls(w, calls);
            && v.activeDate.Some? && w.activeDate.value <= v.activeDate.value
            && (v.activeDate == w.activeDate ==> w.engine.processed <= v.engine.processed)
  {
    if calls != [] {
      RunGrows(w, calls[..|calls| - 1]);
      HandleGrows(RunCalls(w, calls[..|calls| - 1]), calls[|calls| - 1]);
    }
  }

  /** What accepting an entry leaves: its id, and a date that is not before its own. */
  lemma AcceptanceIsKept(w: Worker, x: Entry, load: Load, publishOk: bool)
    ensures var v := Handle(w, x, load, publishOk);
            x.id != "" && Publishes(w, x, load) ==>
              x.id in v.engine.processed && v.activeDate.Some? && TaipeiDate(x.at) <= v.activeDate.value
  {
    if x.id != "" && Publishes(w, x, load) {
      assert HasId(UpdateFor(Rolled(w, x, load), x));
    }
  }

  /** A processed entry that is not of a later date is dropped. */
  lemma ProcessedIsDropped(v: Worker, x: Entry, load: Load, publishOk: bool)
    requires x.id != "" && x.id in v.engine.processed && v.activeDate.Some? && TaipeiDate(x.at) <= v.activeDate.value
    ensures Handle(v, x, load, publishOk) == v
    ensures Acknowledges(v, x, load, publishOk) && !Publishes(v, x, load)
  {
    if x.symbol in v.constituents {
      assert HasId(UpdateFor(v, x));
    }
  }

  /**
    Delivering an accepted entry again, after any calls that did not reset the worker for a later date,
    changes nothing.  It is acknowledged without being published, even when the first delivery's
    publication failed and it was never sent out.
   */
  lemma RedeliveryChangesNothing(w: Worker, x: Entry, load: Load, publishOk: bool, between: seq<Call>,
                                 load': Load, publishOk': bool)
    ensures var w' := Handle(w, x, load, publishOk);
            var v := RunCalls(w', between);
            x.id != "" && Publishes(w, x, load) && v.activeDate == w'.activeDate ==>
              Handle(v, x, load', publishOk') == v && Acknowledges(v, x, load', publishOk') && !Publishes(v, x, load')
  {
    var w' := Handle(w, x, load, publishOk);
    var v := RunCalls(w', between);
    if x.id != "" && Publishes(w, x, load) && v.activeDate == w'.activeDate {
      AcceptanceIsKept(w, x, load, publishOk);
      RunGrows(w', between);
      ProcessedIsDropped(v, x, load', publishOk');
    }
  }

  // ----- which accepted entries are never published

  /** The worker before the i-th call. */
  ghost function At(w: Worker, calls: seq<Call>, i: nat): Worker
    requires i <= |calls|
  {
    RunCalls(w, calls[..i])
  }

  ghost predicate Accepted(w: Worker, calls: seq<Call>, x: Entry, i: nat)
    requires i < |calls|
  {
    calls[i].entry == x && Publishes(At(w, calls, i), x, calls[i].load)
  }

  ghost predicate Acked(w: Worker, calls: seq<Call>, x: Entry, i: nat)
    requires i < |calls|
  {
    calls[i].entry == x && Acknowledges(At(w, calls, i), x, calls[i].load, calls[i].publishOk)
  }

  /** One of the first n calls published the entry. */
  ghost predicate Published(w: Worker, calls: seq<Call>, x: Entry, n: nat)
    requires n <= |calls|
  {
    exists k | 0 <= k < n :: Accepted(w, calls, x, k) && calls[k].publishOk
  }

  lemma RunConcat(w: Worker, calls: seq<Call>, i: nat, j: nat)
    requires i <= j <= |calls|
    ensures At(w, calls, j) == RunCalls(At(w, calls, i), calls[i..j])
    decreases j
  {
    if i == j {
      assert calls[i..j] == [];
    } else {
      RunConcat(w, calls, i, j - 1);
      assert calls[..j][..j - 1] == calls[..j - 1];
      assert calls[i..j][..j - i - 1] == calls[i..j - 1];
    }
  }

  lemma AfterCall(w: Worker, calls: seq<Call>, i: nat)
    requires i < |calls|
    ensures At(w, calls, i + 1) == Handle(At(w, calls, i), calls[i].entry, calls[i].load, calls[i].publishOk)
  {
    assert calls[..i + 1][..i] == calls[..i];
  }

  /** From an acceptance to a later delivery: the date has not gone back, and without a reset the entry is dropped. */
  lemma AcceptedThenDelivered(w: Worker, calls: seq<Call>, x: Entry, j: nat, i: nat)
    requires x.id != "" && j < i < |calls| && Accepted(w, calls, x, j) && calls[i].entry == x
    ensures At(w, calls, i).activeDate.Some? && TaipeiDate(x.at) <= At(w, calls, i).activeDate.value
    ensures At(w, calls, i).activeDate == At(w, calls, j + 1).activeDate ==>
              !Accepted(w, calls, x, i) && Acked(w, calls, x, i)
  {
    AcceptanceIsKept(At(w, calls, j), x, calls[j].load, calls[j].publishOk);
    AfterCall(w, calls, j);
    RunConcat(w, calls, j + 1, i);
    RunGrows(At(w, calls, j + 1), calls[j + 1..i]);
    if At(w, calls, i).activeDate == At(w, calls, j + 1).activeDate {
      ProcessedIsDropped(At(w, calls, i), x, calls[i].load, calls[i].publishOk);
    }
  }

  /**
    When an entry accepted before, but not published, is delivered again, it is acknowledged and still not
    published if and only if it is not accepted now.  It is not accepted now if no later date reset the worker since an acceptance; after such a reset it is accepted exactly
    when its sequence number and the engine let it through.
   */
  lemma AcknowledgedUnpublished(w: Worker, calls: seq<Call>, x: Entry, j: nat, i: nat)
    requires x.id != "" && j < i < |calls| && Accepted(w, calls, x, j) && calls[i].entry == x
    ensures !Published(w, calls, x, i) ==>
              (Acked(w, calls, x, i) && !Published(w, calls, x, i + 1) <==> !Accepted(w, calls, x, i))
    ensures At(w, calls, i).activeDate == At(w, calls, j + 1).activeDate ==> !Accepted(w, calls, x, i)
    ensures var v := At(w, calls, i);
            Accepted(w, calls, x, i) <==> !SeqDrops(v, x) && !SeqTooSmall(v, x) && Accepts(v, x)
  {
    AcceptedThenDelivered(w, calls, x, j, i);
  }

  /** The j-th call is the entry's first acceptance, and no later date resets the worker after it. */
  ghost predicate AcceptedForGood(w: Worker, calls: seq<Call>, x: Entry, j: nat)
    requires j < |calls|
  {
    && Accepted(w, calls, x, j) && (forall k | 0 <= k < j :: !Accepted(w, calls, x, k))
    && At(w, calls, |calls|).activeDate == At(w, calls, j + 1).activeDate
  }

  /**
    Over a run whose date stays the same after an entry's first acceptance: the entry is acknowledged
    but never published exactly when its first publication failed and it was delivered again.
   */
  lemma LostPublications(w: Worker, calls: seq<Call>, x: Entry, j: nat)
    requires j < |calls|
    ensures x.id != "" && AcceptedForGood(w, calls, x, j) ==>
              ((exists i | j <= i < |calls| :: Acked(w, calls, x, i)) && !Published(w, calls, x, |calls|)
               <==> !calls[j].publishOk && exists i | j < i < |calls| :: calls[i].entry == x)
  {
    if x.id != "" && AcceptedForGood(w, calls, x, j) {
      forall i | j < i < |calls| && calls[i].entry == x
        ensures !Accepted(w, calls, x, i) && Acked(w, calls, x, i)
      {
        SameDateBetween(w, calls, x, j, i);
        AcceptedThenDelivered(w, calls, x, j, i);
      }
    }
  }

  lemma SameDateBetween(w: Worker, calls: seq<Call>, x: Entry, j: nat, i: nat)
    requires j < i < |calls|
    ensures x.id != "" && AcceptedForGood(w, calls, x, j) ==>
              At(w, calls, i).activeDate == At(w, calls, j + 1).activeDate
  {
    if x.id != "" && AcceptedForGood(w, calls, x, j) {
      AcceptanceIsKept(At(w, calls, j), x, calls[j].load, calls[j].publishOk);
      AfterCall(w, calls, j);
      DateGrows(w, calls, j + 1, i);
      DateGrows(w, calls, i, |calls|);
    }
  }

  lemma DateGrows(w: Worker, calls: seq<Call>, i: nat, j: nat)
    requires i <= j <= |calls| && At(w, calls, i).activeDate.Some?
    ensures At(w, calls, j).activeDate.Some? && At(w, calls, i).activeDate.value <= At(w, calls, j).activeDate.value
  {
    RunConcat(w, calls, i, j);
    RunGrows(At(w, calls, i), calls[i..j]);
  }
}
