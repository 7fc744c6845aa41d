/**
  Histories that mix the job runner's retries, which repeat the parameters, with resumptions from the
  last reported cursor: when they end with the table of one uninterrupted run.
 */
module BackfillMixed {
  import opened Wrappers
  import opened Backfill
  import opened BackfillTheorems

  // ----- the rest of the range, seen from one minute

  /** What the chunks from the n-th on make of the row at k. */
  ghost function PutFrom(j: Job, k: int, row: Option<DbRow>, n: nat): Option<DbRow>
    decreases j.Chunks() - n
  {
    if n >= j.Chunks() then row else PutFrom(j, k, Put(j.mode, k, row, LastFor(j.Bars(n), k)), n + 1)
  }

  /** The last bar for minute k in the chunks from the n-th on. */
  ghost function LastFrom(j: Job, k: int, n: nat): Option<Bar>
    decreases j.Chunks() - n
  {
    if n >= j.Chunks() then None
    else if LastFrom(j, k, n + 1).Some? then LastFrom(j, k, n + 1)
    else LastFor(j.Bars(n), k)
  }

  /** A bar written over a row, or stored as a new one. */
  function Over(row: Option<DbRow>, b: Bar): DbRow {
    if row.Some? then Merge(row.value, b) else NewRow(b)
  }

  /** A minute that may be overwritten ends with its last bar, any other stored one as it is. */
  lemma {:induction false} PutFromIs(j: Job, k: int, row: Option<DbRow>, n: nat)
    requires Overwrites(j.mode, k) || row.Some?
    ensures PutFrom(j, k, row, n) ==
            if Overwrites(j.mode, k) && LastFrom(j, k, n).Some? then Some(Over(row, LastFrom(j, k, n).value)) else row
    decreases j.Chunks() - n
  {
    if n < j.Chunks() {
      PutFromIs(j, k, Put(j.mode, k, row, LastFor(j.Bars(n), k)), n + 1);
    }
  }

  lemma {:induction false} LastFromLower(j: Job, k: int, s: nat, n: nat)
    requires s <= n && LastFrom(j, k, n).Some?
    ensures LastFrom(j, k, s) == LastFrom(j, k, n)
    decreases n - s
  {
    if s < n {
      LastFromLower(j, k, s + 1, n);
    }
  }

  lemma {:induction false} LastFromExists(j: Job, k: int, s: nat, i: nat)
    requires s <= i < j.Chunks() && LastFor(j.Bars(i), k).Some?
    ensures LastFrom(j, k, s).Some?
    decreases i - s
  {
    if s < i {
      LastFromExists(j, k, s + 1, i);
    }
  }

  /** No chunk from the s-th up to the n-th has minute k. */
  ghost predicate Untouched(j: Job, k: int, s: nat, n: nat) {
    forall i | s <= i < n :: LastFor(j.Bars(i), k).None?
  }

  lemma {:induction false} SkipUntouched(j: Job, k: int, row: Option<DbRow>, s: nat, n: nat)
    requires s <= n <= j.Chunks() && Untouched(j, k, s, n)
    ensures PutFrom(j, k, row, s) == PutFrom(j, k, row, n)
    decreases n - s
  {
    if s < n {
      SkipUntouched(j, k, row, s + 1, n);
    }
  }

  // ----- which minutes are stored

  lemma {:induction false} AfterKeys(j: Job, t: Table, h: nat, k: int)
    requires h <= j.Chunks() && After(j, t, h).Some?
    ensures k in After(j, t, h).value <==> k in t || !Untouched(j, k, 0, h)
  {
    if h > 0 {
      AfterKeys(j, t, h - 1, k);
      ChunkAt(j.mode, After(j, t, h - 1).value, j.Bars(h - 1), k);
      if !Untouched(j, k, 0, h) && Untouched(j, k, 0, h - 1) {
        assert LastFor(j.Bars(h - 1), k).Some?;
      }
    }
  }

  lemma CommitsByKeys(mode: Mode, t: Table, t': Table, bars: seq<Bar>)
    requires t.Keys == t'.Keys
    ensures UpsertChunk(mode, t, bars).Some? <==> UpsertChunk(mode, t', bars).Some?
  {
    if UpsertChunk(mode, t, bars).Some? {
      ChunkStillCommits(mode, t, t', bars);
    }
    if UpsertChunk(mode, t', bars).Some? {
      ChunkStillCommits(mode, t', t, bars);
    }
  }

  /** The table has the minutes that h chunks of a clean run store. */
  ghost predicate Stores(j: Job, t: Table, x: Table, h: nat) {
    h <= j.Chunks() && After(j, t, h).Some? && x.Keys == After(j, t, h).value.Keys
  }

  lemma StoredMinute(j: Job, t: Table, x: Table, h: nat, k: int)
    requires Stores(j, t, x, h)
    ensures k in x <==> k in t || !Untouched(j, k, 0, h)
  {
    AfterKeys(j, t, h, k);
    assert k in x.Keys <==> k in After(j, t, h).value.Keys;
  }

  lemma ChunkCommits(j: Job, t: Table, x: Table, h: nat, m: nat)
    requires Stores(j, t, x, h) && m <= h && m < j.Chunks()
    ensures UpsertChunk(j.mode, x, j.Bars(m)).Some? <==> m < h || After(j, t, h + 1).Some?
  {
    if m < h {
      PrefixKeys(j, t, m, h);
      PrefixKeys(j, t, m + 1, h);
      ChunkStillCommits(j.mode, After(j, t, m).value, x, j.Bars(m));
    } else {
      CommitsByKeys(j.mode, x, After(j, t, h).value, j.Bars(h));
    }
  }

  lemma ChunkMinute(j: Job, t: Table, x: Table, x': Table, h: nat, m: nat, k: int)
    requires Stores(j, t, x, h) && m <= h && m < j.Chunks() && UpsertChunk(j.mode, x, j.Bars(m)) == Some(x')
    requires m == h ==> After(j, t, h + 1).Some?
    ensures k in x' <==> k in After(j, t, if m == h then h + 1 else h).value
  {
    var h' := if m == h then h + 1 else h;
    ChunkAt(j.mode, x, j.Bars(m), k);
    StoredMinute(j, t, x, h, k);
    AfterKeys(j, t, h', k);
    assert LastFor(j.Bars(m), k).Some? ==> !Untouched(j, k, 0, h');
    assert Untouched(j, k, 0, h') ==> Untouched(j, k, 0, h);
    assert Untouched(j, k, 0, h) && LastFor(j.Bars(m), k).None? ==> Untouched(j, k, 0, h');
  }

  /** The chunk m <= h on such a table: it commits where a clean run can, and stores what that stores. */
  lemma ChunkStores(j: Job, t: Table, x: Table, h: nat, m: nat) returns (h': nat)
    requires Stores(j, t, x, h) && m <= h && m < j.Chunks()
    ensures h' == if m == h then h + 1 else h
    ensures var x' := UpsertChunk(j.mode, x, j.Bars(m));
            && (x'.Some? <==> m < h || After(j, t, h + 1).Some?)
            && (x'.Some? ==> Stores(j, t, x'.value, h'))
  {
    h' := if m == h then h + 1 else h;
    ChunkCommits(j, t, x, h, m);
    var x' := UpsertChunk(j.mode, x, j.Bars(m));
    if x'.Some? {
      assert After(j, t, h').Some?;
      forall k
        ensures k in x'.value.Keys <==> k in After(j, t, h').value.Keys
      {
        ChunkMinute(j, t, x, x'.value, h, m, k);
      }
    }
  }

  // ----- tables that the rest of the range completes

  ghost predicate RowGood(j: Job, t: Table, x: Table, n: nat, k: int) {
    PutFrom(j, k, At(x, k), n) == PutFrom(j, k, At(t, k), 0)
  }

  /** Applying the chunks from the n-th on to x gives, minute by minute, what a clean run gives on t. */
  ghost predicate Good(j: Job, t: Table, x: Table, n: nat, h: nat) {
    && Stores(j, t, x, h) && n <= h
    && forall k {:trigger RowGood(j, t, x, n, k)} :: RowGood(j, t, x, n, k)
  }

  lemma StartsGood(j: Job, t: Table)
    ensures Good(j, t, t, 0, 0)
  {
  }

  lemma LowerRow(j: Job, t: Table, x: Table, n: nat, h: nat, s: nat, k: int)
    requires Stores(j, t, x, h) && s <= n <= h && RowGood(j, t, x, n, k)
    ensures RowGood(j, t, x, s, k)
  {
    StoredMinute(j, t, x, h, k);
    var r := At(x, k);
    if r.None? {
      SkipUntouched(j, k, r, s, n);
    } else {
      PutFromIs(j, k, r, n);
      PutFromIs(j, k, r, s);
      if LastFrom(j, k, n).Some? {
        LastFromLower(j, k, s, n);
      } else if Overwrites(j.mode, k) && LastFrom(j, k, s).Some? {
        LastFromLower(j, k, 0, s);
        PutFromIs(j, k, At(t, k), 0);
      }
    }
  }

  /** Starting earlier does no harm. */
  lemma LowerGood(j: Job, t: Table, x: Table, n: nat, h: nat, s: nat)
    requires Good(j, t, x, n, h) && s <= n
    ensures Good(j, t, x, s, h)
  {
    forall k
      ensures RowGood(j, t, x, s, k)
    {
      assert RowGood(j, t, x, n, k);
      LowerRow(j, t, x, n, h, s, k);
    }
  }

  lemma ChunkRow(j: Job, t: Table, x: Table, x': Table, m: nat, k: int)
    requires m < j.Chunks() && UpsertChunk(j.mode, x, j.Bars(m)) == Some(x') && RowGood(j, t, x, m, k)
    ensures RowGood(j, t, x', m, k) && RowGood(j, t, x', m + 1, k)
  {
    ChunkAt(j.mode, x, j.Bars(m), k);
    assert Put(j.mode, k, At(x', k), LastFor(j.Bars(m), k)) == At(x', k);
  }

  /** The next chunk, reported or not. */
  lemma ChunkGood(j: Job, t: Table, x: Table, m: nat, h: nat) returns (h': nat)
    requires Good(j, t, x, m, h) && m < j.Chunks()
    ensures var x' := UpsertChunk(j.mode, x, j.Bars(m));
            x'.Some? ==> m < h' && Good(j, t, x'.value, m, h') && Good(j, t, x'.value, m + 1, h')
  {
    h' := ChunkStores(j, t, x, h, m);
    var x' := UpsertChunk(j.mode, x, j.Bars(m));
    if x'.Some? {
      forall k
        ensures RowGood(j, t, x'.value, m, k)
      {
        assert RowGood(j, t, x, m, k);
        ChunkRow(j, t, x, x'.value, m, k);
      }
      var n := m + 1;
      forall k
        ensures RowGood(j, t, x'.value, n, k)
      {
        assert RowGood(j, t, x, m, k);
        ChunkRow(j, t, x, x'.value, m, k);
      }
    }
  }

  /** Any chunk on a table that the whole range completes. */
  lemma BaseChunk(j: Job, t: Table, x: Table, m: nat, h: nat) returns (h': nat)
    requires Good(j, t, x, 0, h) && m <= h && m < j.Chunks()
    ensures var x' := UpsertChunk(j.mode, x, j.Bars(m));
            x'.Some? ==> h <= h' && m < h' && Good(j, t, x'.value, 0, h')
  {
    h' := ChunkStores(j, t, x, h, m);
    var x' := UpsertChunk(j.mode, x, j.Bars(m));
    if x'.Some? {
      forall k
        ensures RowGood(j, t, x'.value, 0, k)
      {
        assert RowGood(j, t, x, 0, k);
        BaseRow(j, t, x, x'.value, m, h, k);
      }
    }
  }

  lemma BaseRow(j: Job, t: Table, x: Table, x': Table, m: nat, h: nat, k: int)
    requires Stores(j, t, x, h) && m <= h && m < j.Chunks() && RowGood(j, t, x, 0, k)
    requires UpsertChunk(j.mode, x, j.Bars(m)) == Some(x')
    ensures RowGood(j, t, x', 0, k)
  {
    ChunkAt(j.mode, x, j.Bars(m), k);
    StoredMinute(j, t, x, h, k);
    var r, b := At(x, k), LastFor(j.Bars(m), k);
    if b.Some? {
      LastFromExists(j, k, 0, m);
      PutFromIs(j, k, At(x', k), 0);
      if r.Some? {
        PutFromIs(j, k, r, 0);
      } else {
        assert m == h;
        SkipUntouched(j, k, r, 0, m);
        PutFromIs(j, k, At(x', k), m + 1);
        if Overwrites(j.mode, k) {
          PutFromIs(j, k, r, 0);
        }
      }
    }
  }

  // ----- one execution

  lemma RunKeepsGood(j: Job, t: Table, w: World, m: nat, h: nat, fate: int -> Fate) returns (v: World, h': nat)
    requires Good(j, t, w.table, m, h) && ResumeIndex(j, w.cursor) == m
    ensures v == RunChunks(j, w, m, fate).0 && Good(j, t, v.table, ResumeIndex(j, v.cursor), h')
  {
    var P := (x: World, i: nat, g: nat) => Good(j, t, x.table, i, g) && ResumeIndex(j, x.cursor) == i;
    forall x, k: nat, g: nat, f | k < j.Chunks() && P(x, k, g)
      ensures PassKeeps(j, P, x, k, g, f)
    {
      var g' := OneKeepsGood(j, t, x, k, g, f);
      var y := RunOne(j, x, k, f).0;
      assert P(y, ResumeIndex(j, y.cursor), g');
    }
    var i;
    v, i, h' := LoopKeeps(j, P, w, m, h, fate);
  }

  lemma OneKeepsGood(j: Job, t: Table, w: World, m: nat, h: nat, fate: Fate) returns (h': nat)
    requires Good(j, t, w.table, m, h) && ResumeIndex(j, w.cursor) == m && m < j.Chunks()
    ensures var (v, goesOn) := RunOne(j, w, m, fate);
            Good(j, t, v.table, ResumeIndex(j, v.cursor), h') && (goesOn ==> ResumeIndex(j, v.cursor) == m + 1)
  {
    h' := ChunkGood(j, t, w.table, m, h);
    if UpsertChunk(j.mode, w.table, j.Bars(m)).None? || fate == FailsBeforeCommit {
      h' := h;
    }
  }

  /** The whole range completes the table, and nothing is reported beyond what h chunks of a clean run store. */
  ghost predicate Base(j: Job, t: Table, w: World, h: nat) {
    Good(j, t, w.table, 0, h) && ResumeIndex(j, w.cursor) <= h
  }

  lemma OneKeepsBase(j: Job, t: Table, w: World, m: nat, h: nat, fate: Fate) returns (h': nat)
    requires Base(j, t, w, h) && m <= h && m < j.Chunks()
    ensures Base(j, t, RunOne(j, w, m, fate).0, h') && (RunOne(j, w, m, fate).1 ==> m < h')
  {
    h' := BaseChunk(j, t, w.table, m, h);
    if UpsertChunk(j.mode, w.table, j.Bars(m)).None? || fate == FailsBeforeCommit {
      h' := h;
    }
  }

  lemma RunKeepsBase(j: Job, t: Table, w: World, m: nat, h: nat, fate: int -> Fate) returns (v: World, h': nat)
    requires Base(j, t, w, h) && m <= h
    ensures v == RunChunks(j, w, m, fate).0 && Base(j, t, v, h')
  {
    var P := (x: World, i: nat, g: nat) => Base(j, t, x, g) && i <= g;
    forall x, k: nat, g: nat, f | k < j.Chunks() && P(x, k, g)
      ensures PassKeeps(j, P, x, k, g, f)
    {
      var g' := OneKeepsBase(j, t, x, k, g, f);
      var one := RunOne(j, x, k, f);
      assert P(one.0, if one.1 then k + 1 else 0, g');
    }
    var i;
    v, i, h' := LoopKeeps(j, P, w, m, h, fate);
  }

  /** One chunk of a run without a crash. */
  lemma OneStores(j: Job, t: Table, w: World, m: nat, h: nat) returns (g: nat)
    requires Stores(j, t, w.table, h) && m <= h && m < j.Chunks()
    ensures var (v, goesOn) := RunOne(j, w, m, Succeeds);
            if goesOn then m < g && Stores(j, t, v.table, g) else After(j, t, j.Chunks()).None?
  {
    g := ChunkStores(j, t, w.table, h, m);
    if !RunOne(j, w, m, Succeeds).1 {
      NeverRecovers(j, t, h + 1, j.Chunks());
    }
  }

  /** Wherever a run with the clean run's minutes starts, it finishes exactly when a clean run does. */
  lemma {:induction false} RunFinishes(j: Job, t: Table, w: World, m: nat, h: nat) returns (done: bool)
    requires Stores(j, t, w.table, h) && m <= h
    ensures done == RunChunks(j, w, m, NoCrash()).1 && (done <==> After(j, t, j.Chunks()).Some?)
    decreases j.Chunks() - m
  {
    if m < j.Chunks() {
      var one := RunOne(j, w, m, Succeeds);
      var g := OneStores(j, t, w, m, h);
      done := one.1;
      if done {
        done := RunFinishes(j, t, one.0, m + 1, g);
      }
    } else {
      assert h == j.Chunks();
      done := true;
    }
  }

  lemma {:induction false} RunCompletes(j: Job, t: Table, w: World, m: nat, h: nat)
    requires Good(j, t, w.table, m, h) && RunChunks(j, w, m, NoCrash()).1
    ensures forall k {:trigger RowGood(j, t, RunChunks(j, w, m, NoCrash()).0.table, j.Chunks(), k)} ::
              RowGood(j, t, RunChunks(j, w, m, NoCrash()).0.table, j.Chunks(), k)
    decreases j.Chunks() - m
  {
    if m < j.Chunks() {
      var x' := UpsertChunk(j.mode, w.table, j.Bars(m));
      var g := ChunkGood(j, t, w.table, m, h);
      RunCompletes(j, t, World(x'.value, Some(j.startDate + m)), m + 1, g);
    }
  }

  /** A run that completes a good table ends with the table of a clean run. */
  lemma GoodEndsClean(j: Job, t: Table, w: World, m: nat, h: nat)
    requires j.startDate <= j.endDate && Good(j, t, w.table, m, h)
    ensures var (v, done) := RunChunks(j, w, m, NoCrash());
            var clean := Execute(j, World(t, None), None, NoCrash());
            done == clean.1 && (done ==> v.table == clean.0.table)
  {
    StartsGood(j, t);
    var done := RunFinishes(j, t, w, m, h);
    done := RunFinishes(j, t, World(t, None), 0, 0);
    if RunChunks(j, w, m, NoCrash()).1 {
      RunCompletes(j, t, w, m, h);
      RunCompletes(j, t, World(t, None), 0, 0);
      var x, y := RunChunks(j, w, m, NoCrash()).0.table, RunChunks(j, World(t, None), 0, NoCrash()).0.table;
      forall k
        ensures At(x, k) == At(y, k)
      {
        assert RowGood(j, t, x, j.Chunks(), k) && RowGood(j, t, y, j.Chunks(), k);
      }
      SameTable(x, y);
    }
  }

  // ----- histories

  /** One execution: the checkpoint among its parameters, if any, and how it went. */
  datatype Start = Start(checkpoint: Option<int>, fate: int -> Fate)

  /**
    An execution may start from the beginning, from the last reported cursor or from any earlier one: not
    beyond what was reported.
   */
  predicate Permitted(j: Job, w: World, checkpoint: Option<int>) {
    ResumeIndex(j, checkpoint) <= ResumeIndex(j, w.cursor)
  }

  ghost function Mixed(j: Job, w: World, starts: seq<Start>): World {
    if starts == [] then w
    else
      var p, s := Mixed(j, w, starts[..|starts| - 1]), starts[|starts| - 1];
      if Permitted(j, p, s.checkpoint) then Execute(j, p, s.checkpoint, s.fate).0 else p
  }

  /** Once more than the first chunk is reported, every execution is given a checkpoint. */
  ghost predicate Checkpointed(j: Job, w: World, starts: seq<Start>) {
    if starts == [] then true
    else
      var p := Mixed(j, w, starts[..|starts| - 1]);
      && Checkpointed(j, w, starts[..|starts| - 1])
      && (starts[|starts| - 1].checkpoint.Some? || ResumeIndex(j, p.cursor) <= 1)
  }

  /** No minute of the first chunk that may be overwritten ends with a bar of a later chunk. */
  ghost predicate FirstChunkPrevails(j: Job) {
    j.Chunks() > 0 ==>
      forall k | Overwrites(j.mode, k) && LastFor(j.Bars(0), k).Some? :: LastFrom(j, k, 0) == LastFor(j.Bars(0), k)
  }

  /** Then the first chunk can be repeated without repeating the ones after it. */
  lemma RedoFirst(j: Job, t: Table, x: Table, n: nat, h: nat) returns (h': nat)
    requires j.Chunks() > 0 && Good(j, t, x, n, h) && n >= 1 && (FirstChunkPrevails(j) || n == 1)
    ensures var x' := UpsertChunk(j.mode, x, j.Bars(0));
            x'.Some? ==> Good(j, t, x'.value, n, h')
  {
    if n == 1 {
      LowerGood(j, t, x, 1, h, 0);
      h' := ChunkGood(j, t, x, 0, h);
    } else {
      h' := ChunkStores(j, t, x, h, 0);
      var x' := UpsertChunk(j.mode, x, j.Bars(0));
      if x'.Some? {
        forall k
          ensures RowGood(j, t, x'.value, n, k)
        {
          assert RowGood(j, t, x, n, k);
          RedoFirstRow(j, t, x, x'.value, n, h, k);
        }
      }
    }
  }

  lemma RedoFirstRow(j: Job, t: Table, x: Table, x': Table, n: nat, h: nat, k: int)
    requires j.Chunks() > 0 && Stores(j, t, x, h) && 1 <= n <= h && RowGood(j, t, x, n, k) && FirstChunkPrevails(j)
    requires UpsertChunk(j.mode, x, j.Bars(0)) == Some(x')
    ensures RowGood(j, t, x', n, k)
  {
    ChunkAt(j.mode, x, j.Bars(0), k);
    StoredMinute(j, t, x, h, k);
    var r, b := At(x, k), LastFor(j.Bars(0), k);
    if b.Some? && Overwrites(j.mode, k) {
      assert !Untouched(j, k, 0, h);
      PutFromIs(j, k, r, n);
      PutFromIs(j, k, At(x', k), n);
      PutFromIs(j, k, At(t, k), 0);
      if LastFrom(j, k, n).Some? {
        LastFromLower(j, k, 0, n);
      }
    } else if b.Some? {
      assert !Untouched(j, k, 0, h);
    }
  }

  lemma StartKeepsGood(j: Job, t: Table, w: World, h: nat, s: Start) returns (h': nat)
    requires j.startDate <= j.endDate && Good(j, t, w.table, ResumeIndex(j, w.cursor), h)
    requires Permitted(j, w, s.checkpoint)
    requires FirstChunkPrevails(j) || s.checkpoint.Some? || ResumeIndex(j, w.cursor) <= 1
    ensures var v := Execute(j, w, s.checkpoint, s.fate).0;
            Good(j, t, v.table, ResumeIndex(j, v.cursor), h')
  {
    var n, m := ResumeIndex(j, w.cursor), ResumeIndex(j, s.checkpoint);
    LowerGood(j, t, w.table, n, h, m);
    if s.checkpoint.Some? || n == 0 {
      var p := w.(cursor := if s.checkpoint.Some? then s.checkpoint else w.cursor);
      var v;
      v, h' := RunKeepsGood(j, t, p, m, h, s.fate);
    } else {
      h' := FirstKeepsGood(j, t, w, n, h, s.fate(0));
      var one := RunOne(j, w, 0, s.fate(0));
      if one.1 {
        var v;
        v, h' := RunKeepsGood(j, t, one.0, 1, h', s.fate);
      }
    }
  }

  /** The first pass of a retry from the beginning. */
  lemma FirstKeepsGood(j: Job, t: Table, w: World, n: nat, h: nat, fate: Fate) returns (h': nat)
    requires j.Chunks() > 0 && n >= 1 && n == ResumeIndex(j, w.cursor)
    requires Good(j, t, w.table, n, h) && Good(j, t, w.table, 0, h) && (FirstChunkPrevails(j) || n == 1)
    ensures var (v, goesOn) := RunOne(j, w, 0, fate);
            Good(j, t, v.table, ResumeIndex(j, v.cursor), h') && (goesOn ==> ResumeIndex(j, v.cursor) == 1)
  {
    if UpsertChunk(j.mode, w.table, j.Bars(0)).None? || fate == FailsBeforeCommit {
      h' := h;
    } else if fate == FailsBeforeReport {
      h' := RedoFirst(j, t, w.table, n, h);
    } else {
      h' := ChunkGood(j, t, w.table, 0, h);
    }
  }

  lemma {:induction false} HistoryKeepsGood(j: Job, t: Table, starts: seq<Start>) returns (h: nat)
    requires j.startDate <= j.endDate && (FirstChunkPrevails(j) || Checkpointed(j, World(t, None), starts))
    ensures var w := Mixed(j, World(t, None), starts);
            Good(j, t, w.table, ResumeIndex(j, w.cursor), h)
  {
    if starts == [] {
      StartsGood(j, t);
      h := 0;
    } else {
      var s := starts[|starts| - 1];
      h := HistoryKeepsGood(j, t, starts[..|starts| - 1]);
      var p := Mixed(j, World(t, None), starts[..|starts| - 1]);
      if Permitted(j, p, s.checkpoint) {
        h := StartKeepsGood(j, t, p, h, s);
      }
    }
  }

  lemma {:induction false} HistoryKeepsBase(j: Job, t: Table, starts: seq<Start>) returns (h: nat)
    requires j.startDate <= j.endDate
    ensures Base(j, t, Mixed(j, World(t, None), starts), h)
  {
    if starts == [] {
      StartsGood(j, t);
      h := 0;
    } else {
      var s := starts[|starts| - 1];
      h := HistoryKeepsBase(j, t, starts[..|starts| - 1]);
      var p := Mixed(j, World(t, None), starts[..|starts| - 1]);
      if Permitted(j, p, s.checkpoint) {
        var q := p.(cursor := if s.checkpoint.Some? then s.checkpoint else p.cursor);
        var v;
        v, h := RunKeepsBase(j, t, q, ResumeIndex(j, s.checkpoint), h, s.fate);
      }
    }
  }

  // ----- the results

  /** After any history, resuming without a crash ends with the table of a clean run. */
  ghost predicate ResumesClean(j: Job, t: Table, starts: seq<Start>) {
    var w := Mixed(j, World(t, None), starts);
    Execute(j, w, w.cursor, NoCrash()).0.table == Execute(j, World(t, None), None, NoCrash()).0.table
  }

  /** Whatever was mixed, resuming finishes exactly when a clean run does. */
  lemma MixedFinishes(j: Job, t: Table, starts: seq<Start>)
    requires j.startDate <= j.endDate
    ensures var w := Mixed(j, World(t, None), starts);
            Execute(j, w, w.cursor, NoCrash()).1 == Execute(j, World(t, None), None, NoCrash()).1
  {
    var h := HistoryKeepsBase(j, t, starts);
    var w := Mixed(j, World(t, None), starts);
    var done := RunFinishes(j, t, w, ResumeIndex(j, w.cursor), h);
    done := RunFinishes(j, t, World(t, None), 0, 0);
  }

  /** And whatever was mixed, one more execution from the beginning puts everything right. */
  lemma RestartEqualsCleanRun(j: Job, t: Table, starts: seq<Start>)
    requires j.startDate <= j.endDate
    ensures var restarted := Execute(j, Mixed(j, World(t, None), starts), None, NoCrash());
            var clean := Execute(j, World(t, None), None, NoCrash());
            restarted.1 == clean.1 && (clean.1 ==> restarted.0.table == clean.0.table)
  {
    var h := HistoryKeepsBase(j, t, starts);
    GoodEndsClean(j, t, Mixed(j, World(t, None), starts), 0, h);
  }

  lemma ResumeOfGood(j: Job, t: Table, starts: seq<Start>, h: nat)
    requires j.startDate <= j.endDate && Execute(j, World(t, None), None, NoCrash()).1
    requires var w := Mixed(j, World(t, None), starts);
             Good(j, t, w.table, ResumeIndex(j, w.cursor), h)
    ensures ResumesClean(j, t, starts)
  {
    var w := Mixed(j, World(t, None), starts);
    GoodEndsClean(j, t, w, ResumeIndex(j, w.cursor), h);
    assert w.(cursor := if w.cursor.Some? then w.cursor else w.cursor) == w;
  }

  /**
    Retries whose parameters carry a checkpoint can be mixed with resumptions freely; only a retry from the
    beginning after more than the first chunk was reported is excluded.
   */
  lemma CheckpointedEqualsCleanRun(j: Job, t: Table, starts: seq<Start>)
    requires j.startDate <= j.endDate && Execute(j, World(t, None), None, NoCrash()).1
    requires Checkpointed(j, World(t, None), starts)
    ensures ResumesClean(j, t, starts)
  {
    var h := HistoryKeepsGood(j, t, starts);
    ResumeOfGood(j, t, starts, h);
  }

  /** An execution that dies after its last report, with all chunks done. */
  ghost function DiesAtTheEnd(j: Job): int -> Fate {
    (i: int) => if i + 1 == j.Chunks() then FailsAfterReport else Succeeds
  }

  /** A retry from the beginning that dies after its first commit, before its first report. */
  ghost function DiesAtOnce(): int -> Fate {
    (i: int) => FailsBeforeReport
  }

  /** Every execution of the history failed, as those that are started again have. */
  ghost predicate AllFailed(j: Job, w: World, starts: seq<Start>) {
    forall i | 0 <= i < |starts| :: !Execute(j, Mixed(j, w, starts[..i]), starts[i].checkpoint, starts[i].fate).1
  }

  lemma {:induction false} DiesDone(j: Job, w: World, m: nat)
    requires m < j.Chunks() && RunChunks(j, w, m, NoCrash()).1
    ensures RunChunks(j, w, m, DiesAtTheEnd(j)) == (RunChunks(j, w, m, NoCrash()).0, false)
    decreases j.Chunks() - m
  {
    if m + 1 < j.Chunks() {
      DiesDone(j, World(UpsertChunk(j.mode, w.table, j.Bars(m)).value, Some(j.startDate + m)), m + 1);
    }
  }

  /**
    After an execution that failed behind its last report, such a retry leaves the first chunk's bar where
    a later one belongs.
   */
  lemma RetrySpoils(j: Job, t: Table, k: int)
    requires j.startDate <= j.endDate && Execute(j, World(t, None), None, NoCrash()).1
    requires Overwrites(j.mode, k) && LastFor(j.Bars(0), k).Some? && LastFrom(j, k, 0) != LastFor(j.Bars(0), k)
    ensures var starts := [Start(None, DiesAtTheEnd(j)), Start(None, DiesAtOnce())];
            AllFailed(j, World(t, None), starts) && !ResumesClean(j, t, starts)
  {
    var full, retry := Start(None, DiesAtTheEnd(j)), Start(None, DiesAtOnce());
    var clean := Execute(j, World(t, None), None, NoCrash()).0;
    CleanCursor(j, World(t, None), 0);
    DiesDone(j, World(t, None), 0);
    assert [full][..0] == [] && [full, retry][..1] == [full];
    assert Mixed(j, World(t, None), [full]) == clean;
    StartsGood(j, t);
    RunCompletes(j, t, World(t, None), 0, 0);
    assert RowGood(j, t, clean.table, j.Chunks(), k);
    LastFromExists(j, k, 0, 0);
    PutFromIs(j, k, At(t, k), 0);
    var h := HistoryKeepsBase(j, t, [full]);
    var g := ChunkStores(j, t, clean.table, h, 0);
    var x' := UpsertChunk(j.mode, clean.table, j.Bars(0)).value;
    ChunkAt(j.mode, clean.table, j.Bars(0), k);
    assert Mixed(j, World(t, None), [full, retry]) == clean.(table := x');
    assert At(x', k) != At(clean.table, k);
  }

  lemma {:induction false} CleanCursor(j: Job, w: World, m: nat)
    requires m < j.Chunks() && RunChunks(j, w, m, NoCrash()).1
    ensures RunChunks(j, w, m, NoCrash()).0.cursor == Some(j.endDate)
    decreases j.Chunks() - m
  {
    if m + 1 < j.Chunks() {
      CleanCursor(j, World(UpsertChunk(j.mode, w.table, j.Bars(m)).value, Some(j.startDate + m)), m + 1);
    }
  }

  /**
    Histories that also retry from the beginning all end with the clean table if and only if no minute of
    the first chunk that may be overwritten ends with a bar of a later chunk, and so do those of failing
    executions only: such a retry keeps the old
    cursor until it has reported its first chunk, so a crash in between makes the resumption skip the
    chunks that would put the later bars back.
   */
  lemma MixedExactly(j: Job, t: Table)
    requires j.startDate <= j.endDate && Execute(j, World(t, None), None, NoCrash()).1
    ensures FirstChunkPrevails(j) <==> forall starts :: ResumesClean(j, t, starts)
    ensures FirstChunkPrevails(j) <==>
            forall starts | AllFailed(j, World(t, None), starts) :: ResumesClean(j, t, starts)
  {
    if FirstChunkPrevails(j) {
      forall starts
        ensures ResumesClean(j, t, starts)
      {
        var h := HistoryKeepsGood(j, t, starts);
        ResumeOfGood(j, t, starts, h);
      }
    } else {
      var k :| Overwrites(j.mode, k) && LastFor(j.Bars(0), k).Some? && LastFrom(j, k, 0) != LastFor(j.Bars(0), k);
      RetrySpoils(j, t, k);
    }
  }
}
