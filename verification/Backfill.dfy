/** The historical backfill job: day chunks, row validation, conflict handling, checkpoints. */
module Backfill {
  import opened Wrappers
  import opened TaipeiTime

  // ----- rows

  /** A fetched row after parsing; times are UTC microseconds, unparsable numbers are None. */
  datatype RawRow = RawRow(
    ts: Option<int>, open: Option<real>, high: Option<real>, low: Option<real>, close: Option<real>,
    volume: Option<real>)

  /** A validated bar; the minute is a Taipei wall time. */
  datatype Bar = Bar(tradeDate: int, minute: int, open: real, high: real, low: real, close: real, volume: real)

  /** A stored row.  The two amplitude columns are never written by the backfill. */
  datatype DbRow = DbRow(bar: Bar, amplitude: real, amplitudePct: real)

  datatype Mode = ClosedOnly | Force

  /** The rows of one instrument code, by minute. */
  type Table = map<int, DbRow>

  function TaipeiMinute(ts: int): int {
    MinuteFloor(ts + TAIPEI_OFFSET_SECONDS * MICROS_PER_SECOND)
  }

  function TradingSessionDate(minute: int): int {
    var time := minute % MICROS_PER_DAY;
    if time >= 15 * MICROS_PER_HOUR then DayOf(minute)
    else if time < 5 * MICROS_PER_HOUR then DayOf(minute) - 1
    else DayOf(minute)
  }

  predicate IsValidRow(r: RawRow) {
    && r.ts.Some? && r.open.Some? && r.high.Some? && r.low.Some? && r.close.Some?
    && r.low.value <= r.open.value <= r.high.value && r.low.value <= r.close.value <= r.high.value
  }

  function ToBar(r: RawRow): Bar
    requires IsValidRow(r)
  {
    var minute := TaipeiMinute(r.ts.value);
    Bar(TradingSessionDate(minute), minute, r.open.value, r.high.value, r.low.value, r.close.value, r.volume.GetOr(0.0))
  }

  ghost function ValidBars(rows: seq<RawRow>): seq<Bar> {
    if rows == [] then []
    else
      var init, r := ValidBars(rows[..|rows| - 1]), rows[|rows| - 1];
      if IsValidRow(r) then init + [ToBar(r)] else init
  }

  /** Every row is either kept or counted as invalid. */
  method TransformHistoricalRows(rows: seq<RawRow>) returns (valid: seq<Bar>, invalidCount: nat)
    ensures valid == ValidBars(rows) && |valid| + invalidCount == |rows|
    ensures forall b | b in valid :: b.low <= b.open <= b.high && b.low <= b.close <= b.high
  {
    valid, invalidCount := [], 0;
    for i := 0 to |rows|
      invariant valid == ValidBars(rows[..i]) && |valid| + invalidCount == i
      invariant forall b | b in valid :: b.low <= b.open <= b.high && b.low <= b.close <= b.high
    {
      assert rows[..i + 1][..i] == rows[..i];
      var r := rows[i];
      if r.ts.None? || r.open.None? || r.high.None? || r.low.None? || r.close.None? {
        invalidCount := invalidCount + 1;
      } else if !(r.low.value <= r.open.value <= r.high.value && r.low.value <= r.close.value <= r.high.value) {
        invalidCount := invalidCount + 1;
      } else {
        valid := valid + [ToBar(r)];
      }
    }
    assert rows[..|rows|] == rows;
  }

  // ----- chunks

  /** None is the ValueError of a reversed range. */
  method ChunkDateRange(startDate: int, endDate: int) returns (chunks: Option<seq<(int, int)>>)
    ensures chunks.None? <==> startDate > endDate
    ensures chunks.Some? ==> |chunks.value| == endDate - startDate + 1
    ensures chunks.Some? ==>
              forall i | 0 <= i < |chunks.value| :: chunks.value[i] == (startDate + i, startDate + i)
  {
    if startDate > endDate {
      return None;
    }
    var out: seq<(int, int)> := [];
    var cursor := startDate;
    while cursor <= endDate
      invariant startDate <= cursor <= endDate + 1 && |out| == cursor - startDate
      invariant forall i | 0 <= i < |out| :: out[i] == (startDate + i, startDate + i)
    {
      out := out + [(cursor, cursor)];
      cursor := cursor + 1;
    }
    chunks := Some(out);
  }

  // ----- conflict handling

  predicate IsClosedMinute(minute: int) {
    minute % MICROS_PER_DAY >= 13 * MICROS_PER_HOUR + 45 * MICROS_PER_MINUTE
  }

  predicate Overwrites(mode: Mode, minute: int) {
    mode == Force || (mode == ClosedOnly && IsClosedMinute(minute))
  }

  function NewRow(b: Bar): DbRow {
    DbRow(b, 0.0, 0.0)
  }

  function Merge(old_: DbRow, b: Bar): DbRow {
    old_.(bar := b)
  }

  /**
    A database session without autoflush: queries see the stored rows (with the changes
    made to them), but not the rows added and not yet flushed.
   */
  datatype Session = Session(stored: Table, added: seq<Bar>)

  function UpsertOne(mode: Mode, s: Session, b: Bar): Session {
    if b.minute !in s.stored then s.(added := s.added + [b])
    else if Overwrites(mode, b.minute) then s.(stored := s.stored[b.minute := Merge(s.stored[b.minute], b)])
    else s
  }

  /** How many of the bars are new, or may replace the stored row. */
  function CountWrites(mode: Mode, stored: set<int>, bars: seq<Bar>): nat {
    if bars == [] then 0
    else
      var n, b := CountWrites(mode, stored, bars[..|bars| - 1]), bars[|bars| - 1];
      if b.minute !in stored || Overwrites(mode, b.minute) then n + 1 else n
  }

  function UpsertAll(mode: Mode, s: Session, bars: seq<Bar>): Session {
    if bars == [] then s
    else UpsertOne(mode, UpsertAll(mode, s, bars[..|bars| - 1]), bars[|bars| - 1])
  }

  predicate DistinctMinutes(bars: seq<Bar>) {
    forall i, j | 0 <= i < j < |bars| :: bars[i].minute != bars[j].minute
  }

  function InsertAll(t: Table, bars: seq<Bar>): Table {
    if bars == [] then t
    else InsertAll(t, bars[..|bars| - 1])[bars[|bars| - 1].minute := NewRow(bars[|bars| - 1])]
  }

  /** Flush and commit; the unique key on (code, minute) rejects two added rows for one minute. */
  function Commit(s: Session): Option<Table> {
    if DistinctMinutes(s.added) then Some(InsertAll(s.stored, s.added)) else None
  }

  /** One chunk's transaction; None when it is rolled back. */
  function UpsertChunk(mode: Mode, t: Table, bars: seq<Bar>): Option<Table> {
    Commit(UpsertAll(mode, Session(t, []), bars))
  }

  class DbSession {
    var stored: Table
    var added: seq<Bar>

    ghost function State(): Session
      reads this
    {
      Session(stored, added)
    }

    constructor (t: Table)
      ensures State() == Session(t, [])
    {
      stored, added := t, [];
    }

    /** Returns (rows written, rows skipped on conflict). */
    method UpsertKbars(bars: seq<Bar>, mode: Mode) returns (written: nat, skipped: nat)
      modifies this
      ensures State() == UpsertAll(mode, old(State()), bars)
      ensures written + skipped == |bars|
      ensures written == CountWrites(mode, old(stored).Keys, bars)
    {
      written, skipped := 0, 0;
      for i := 0 to |bars|
        invariant State() == UpsertAll(mode, old(State()), bars[..i])
        invariant stored.Keys == old(stored).Keys
        invariant written + skipped == i
        invariant written == CountWrites(mode, old(stored).Keys, bars[..i])
      {
        assert bars[..i + 1][..i] == bars[..i];
        var b := bars[i];
        if b.minute !in stored {
          added := added + [b];
          written := written + 1;
        } else if mode == Force || (mode == ClosedOnly && IsClosedMinute(b.minute)) {
          stored := stored[b.minute := Merge(stored[b.minute], b)];
          written := written + 1;
        } else {
          skipped := skipped + 1;
        }
      }
      assert bars[..|bars|] == bars;
    }
  }

  // ----- one execution

  /**
    What happens to one chunk: it fails before its commit, between commit and report, or after its report
    (when the heartbeat, which repeats the report, raises), or not at all.
   */
  datatype Fate = FailsBeforeCommit | FailsBeforeReport | FailsAfterReport | Succeeds

  /** The job's fixed parameters; `fetch` is what the vendor returns for a day. */
  datatype Job = Job(startDate: int, endDate: int, mode: Mode, fetch: int -> seq<RawRow>) {
    function Chunks(): nat {
      if startDate <= endDate then endDate - startDate + 1 else 0
    }

    ghost function Bars(i: nat): seq<Bar> {
      ValidBars(fetch(startDate + i))
    }
  }

  /** What outlives a crash: the bar table and the last reported cursor. */
  datatype World = World(table: Table, cursor: Option<int>)

  datatype Counters = Counters(processed: nat, written: nat, failed: nat, skipped: nat)

  function ResumeIndex(j: Job, checkpoint: Option<int>): nat {
    if checkpoint.None? || checkpoint.value < j.startDate then 0
    else if checkpoint.value - j.startDate + 1 <= j.Chunks() then checkpoint.value - j.startDate + 1
    else j.Chunks()
  }

  /** One pass of the chunk loop; the flag tells whether the loop goes on. */
  ghost function RunOne(j: Job, w: World, i: nat, fate: Fate): (World, bool) {
    var t := UpsertChunk(j.mode, w.table, j.Bars(i));
    if fate == FailsBeforeCommit || t.None? then (w, false)
    else if fate == FailsBeforeReport then (w.(table := t.value), false)
    else (World(t.value, Some(j.startDate + i)), fate == Succeeds)
  }

  /** The chunk loop from index i; the flag tells whether it reached the end. */
  ghost function RunChunks(j: Job, w: World, i: nat, fate: int -> Fate): (World, bool)
    decreases j.Chunks() - i
  {
    if i >= j.Chunks() then (w, true)
    else
      var (v, goesOn) := RunOne(j, w, i, fate(i));
      if goesOn then RunChunks(j, v, i + 1, fate) else (v, false)
  }

  /** One execution with the given checkpoint parameter, which is reported first; a reversed range raises. */
  ghost function Execute(j: Job, w: World, checkpoint: Option<int>, fate: int -> Fate): (World, bool) {
    if j.startDate > j.endDate then (w, false)
    else RunChunks(j, w.(cursor := if checkpoint.Some? then checkpoint else w.cursor), ResumeIndex(j, checkpoint), fate)
  }

  // ----- counters

  function Add(a: Counters, b: Counters): Counters {
    Counters(a.processed + b.processed, a.written + b.written, a.failed + b.failed, a.skipped + b.skipped)
  }

  lemma {:induction false} FewerValid(rows: seq<RawRow>)
    ensures |ValidBars(rows)| <= |rows|
  {
    if rows != [] {
      FewerValid(rows[..|rows| - 1]);
    }
  }

  lemma {:induction false} FewerWritten(mode: Mode, stored: set<int>, bars: seq<Bar>)
    ensures CountWrites(mode, stored, bars) <= |bars|
  {
    if bars != [] {
      FewerWritten(mode, stored, bars[..|bars| - 1]);
    }
  }

  /** What one day's chunk counts, given the table it is written to. */
  ghost function ChunkCounters(j: Job, t: Table, day: int): (c: Counters)
    ensures c.processed == c.written + c.failed + c.skipped
  {
    var rows, bars := j.fetch(day), ValidBars(j.fetch(day));
    var written := CountWrites(j.mode, t.Keys, bars);
    FewerValid(rows);
    FewerWritten(j.mode, t.Keys, bars);
    Counters(|rows|, written, |rows| - |bars|, |bars| - written)
  }

  /** The running counters after one pass: those of the chunk are added when it is reported. */
  ghost function CountOne(j: Job, w: World, c: Counters, i: nat, fate: Fate): Counters {
    if fate == FailsBeforeCommit || fate == FailsBeforeReport || UpsertChunk(j.mode, w.table, j.Bars(i)).None? then c
    else Add(c, ChunkCounters(j, w.table, j.startDate + i))
  }

  /** The loop with its running counters. */
  ghost function Loop(j: Job, w: World, c: Counters, i: nat, fate: int -> Fate): (World, Counters, bool)
    decreases j.Chunks() - i
  {
    if i >= j.Chunks() then (w, c, true)
    else
      var (v, goesOn) := RunOne(j, w, i, fate(i));
      var d := CountOne(j, w, c, i, fate(i));
      if goesOn then Loop(j, v, d, i + 1, fate) else (v, d, false)
  }

  /** An execution with what it reported; a reversed range raises before anything is reported. */
  ghost function ExecuteCounted(j: Job, w: World, c: Counters, checkpoint: Option<int>, fate: int -> Fate)
    : (World, Counters, bool)
  {
    if j.startDate > j.endDate then (w, c, false)
    else Loop(j, w.(cursor := if checkpoint.Some? then checkpoint else w.cursor), Counters(0, 0, 0, 0),
              ResumeIndex(j, checkpoint), fate)
  }

  class BackfillJob {
    var table: Table
    var cursor: Option<int>
    var reported: Counters

    ghost function State(): World
      reads this
    {
      World(table, cursor)
    }

    constructor (t: Table)
      ensures State() == World(t, None)
    {
      table, cursor, reported := t, None, Counters(0, 0, 0, 0);
    }

    /** The batch repository keeps the old cursor when none is given. */
    method UpdateProgress(c: Counters, checkpoint: Option<int>)
      modifies this
      ensures State() == old(State()).(cursor := if checkpoint.Some? then checkpoint else old(cursor))
      ensures reported == c
    {
      reported := c;
      if checkpoint.Some? {
        cursor := checkpoint;
      }
    }

    /** The whole job; `done` is false when an exception ended it. */
    method Run(j: Job, checkpoint: Option<int>, fate: int -> Fate) returns (done: bool)
      modifies this
      ensures (State(), reported, done) == ExecuteCounted(j, old(State()), old(reported), checkpoint, fate)
    {
      var chunks := ChunkDateRange(j.startDate, j.endDate);
      if chunks.None? {
        return false;
      }
      var index := FindResumeIndex(j, chunks.value, checkpoint);
      UpdateProgress(Counters(0, 0, 0, 0), checkpoint);
      done := RunLoop(j, chunks.value, index, fate);
    }

    /** Where the loop stands: at this index, with these counters, it ends as it is to end. */
    ghost predicate Heads(j: Job, c: Counters, index: nat, fate: int -> Fate, goal: (World, Counters, bool))
      reads this
    {
      Loop(j, State(), c, index, fate) == goal && reported == c
    }

    /** After a pass it stands at the next index, or it has ended. */
    lemma Moved(j: Job, w: World, c: Counters, index: nat, fate: int -> Fate, goal: (World, Counters, bool))
      requires index < j.Chunks() && Loop(j, w, c, index, fate) == goal
      requires State() == RunOne(j, w, index, fate(index)).0 && reported == CountOne(j, w, c, index, fate(index))
      ensures if RunOne(j, w, index, fate(index)).1 then Heads(j, reported, index + 1, fate, goal)
              else goal == (State(), reported, false)
    {
    }

    method RunLoop(j: Job, chunks: seq<(int, int)>, resume: nat, fate: int -> Fate) returns (done: bool)
      requires |chunks| == j.Chunks() && resume <= |chunks|
      requires forall i | 0 <= i < |chunks| :: chunks[i] == (j.startDate + i, j.startDate + i)
      requires reported == Counters(0, 0, 0, 0)
      modifies this
      ensures Loop(j, old(State()), Counters(0, 0, 0, 0), resume, fate) == (State(), reported, done)
    {
      var c, index := Counters(0, 0, 0, 0), resume;
      ghost var goal := Loop(j, State(), c, index, fate);
      while index < |chunks|
        invariant resume <= index <= |chunks|
        invariant Heads(j, c, index, fate, goal)
      {
        ghost var w, c0 := State(), c;
        c, done := ProcessChunk(j, index, chunks[index].0, fate(index), c);
        Moved(j, w, c0, index, fate, goal);
        if !done {
          return;
        }
        index := index + 1;
      }
      done := true;
    }

    method FindResumeIndex(j: Job, chunks: seq<(int, int)>, checkpoint: Option<int>) returns (resume: nat)
      requires j.startDate <= j.endDate && |chunks| == j.Chunks()
      requires forall i | 0 <= i < |chunks| :: chunks[i] == (j.startDate + i, j.startDate + i)
      ensures resume == ResumeIndex(j, checkpoint)
    {
      resume := 0;
      if checkpoint.Some? {
        for idx := 0 to |chunks|
          invariant resume == if checkpoint.value < j.startDate then 0
                              else if checkpoint.value - j.startDate + 1 <= idx then checkpoint.value - j.startDate + 1
                              else idx
        {
          if chunks[idx].0 <= checkpoint.value {
            resume := idx + 1;
          }
        }
      }
    }

    /** The loop body: transaction, then counters and checkpoint. */
    method ProcessChunk(j: Job, ghost i: nat, day: int, fate: Fate, c0: Counters) returns (c: Counters, ok: bool)
      requires reported == c0 && day == j.startDate + i
      modifies this
      ensures (State(), ok) == RunOne(j, old(State()), i, fate)
      ensures c == reported == CountOne(j, old(State()), c0, i, fate)
    {
      c, ok := c0, false;
      var t, processed, written, failed, skipped := RunChunk(j, day, fate);
      if t.None? {
        return;
      }
      table := t.value;
      if fate == FailsBeforeReport {
        return;
      }
      c := Counters(c.processed + processed, c.written + written, c.failed + failed, c.skipped + skipped);
      UpdateProgress(c, Some(day));
      ok := fate == Succeeds;
    }

    /** Fetch, transform and upsert one day in one transaction. */
    method RunChunk(j: Job, day: int, fate: Fate)
        returns (t: Option<Table>, processed: nat, written: nat, failed: nat, skipped: nat)
      ensures t == if fate == FailsBeforeCommit then None else UpsertChunk(j.mode, table, ValidBars(j.fetch(day)))
      ensures t.Some? ==> Counters(processed, written, failed, skipped) == ChunkCounters(j, table, day)
    {
      processed, written, failed, skipped := 0, 0, 0, 0;
      if fate == FailsBeforeCommit {
        return None, 0, 0, 0, 0;
      }
      var valid, invalid := TransformHistoricalRows(j.fetch(day));
      var session := new DbSession(table);
      written, skipped := session.UpsertKbars(valid, j.mode);
      t := Commit(Session(session.stored, session.added));
      processed, failed := |valid| + invalid, invalid;
    }
  }
}
