/** Crashing and resuming the backfill ends with the table of one uninterrupted run. */
module BackfillTheorems {
  import opened TaipeiTime
  import opened Wrappers
  import opened Backfill

  // ----- one chunk, seen from one minute

  function At(t: Table, k: int): Option<DbRow> {
    if k in t then Some(t[k]) else None
  }

  /** The last bar of a chunk for minute k. */
  ghost function LastFor(bars: seq<Bar>, k: int): Option<Bar> {
    if bars == [] then None
    else if bars[|bars| - 1].minute == k then Some(bars[|bars| - 1])
    else LastFor(bars[..|bars| - 1], k)
  }

  /** What a chunk whose last bar for k is `b` does to the row at k. */
  function Put(mode: Mode, k: int, row: Option<DbRow>, b: Option<Bar>): Option<DbRow> {
    if b.None? then row
    else if row.None? then Some(NewRow(b.value))
    else if Overwrites(mode, k) then Some(Merge(row.value, b.value))
    else row
  }

  ghost predicate SessionAt(mode: Mode, t: Table, bars: seq<Bar>, s: Session, k: int) {
    && (k in s.stored <==> k in t)
    && (k in t ==> At(s.stored, k) == Put(mode, k, At(t, k), LastFor(bars, k)) && LastFor(s.added, k) == None)
    && (k !in t ==> LastFor(s.added, k) == LastFor(bars, k))
  }

  lemma {:induction false} UpsertAt(mode: Mode, t: Table, bars: seq<Bar>, k: int)
    ensures SessionAt(mode, t, bars, UpsertAll(mode, Session(t, []), bars), k)
  {
    if bars != [] {
      var init, b := bars[..|bars| - 1], bars[|bars| - 1];
      UpsertAt(mode, t, init, k);
      UpsertAt(mode, t, init, b.minute);
      var s := UpsertAll(mode, Session(t, []), init);
      assert (s.added + [b])[..|s.added|] == s.added;
    }
  }

  lemma {:induction false} InsertAt(t: Table, bars: seq<Bar>, k: int)
    ensures At(InsertAll(t, bars), k) == if LastFor(bars, k).Some? then Some(NewRow(LastFor(bars, k).value)) else At(t, k)
  {
    if bars != [] {
      InsertAt(t, bars[..|bars| - 1], k);
    }
  }

  /** A committed chunk acts on every minute on its own. */
  lemma ChunkAt(mode: Mode, t: Table, bars: seq<Bar>, k: int)
    ensures var t' := UpsertChunk(mode, t, bars);
            t'.Some? ==> At(t'.value, k) == Put(mode, k, At(t, k), LastFor(bars, k))
  {
    UpsertAt(mode, t, bars, k);
    var s := UpsertAll(mode, Session(t, []), bars);
    InsertAt(s.stored, s.added, k);
  }

  ghost function NewBars(t: Table, bars: seq<Bar>): seq<Bar> {
    if bars == [] then []
    else
      var init, b := NewBars(t, bars[..|bars| - 1]), bars[|bars| - 1];
      if b.minute in t then init else init + [b]
  }

  lemma {:induction false} AddedAreNew(mode: Mode, t: Table, bars: seq<Bar>)
    ensures UpsertAll(mode, Session(t, []), bars).added == NewBars(t, bars)
  {
    if bars != [] {
      AddedAreNew(mode, t, bars[..|bars| - 1]);
      UpsertAt(mode, t, bars[..|bars| - 1], bars[|bars| - 1].minute);
    }
  }

  lemma {:induction false} FewerAreNew(t: Table, t': Table, bars: seq<Bar>)
    requires t.Keys <= t'.Keys
    ensures DistinctMinutes(NewBars(t, bars)) ==> DistinctMinutes(NewBars(t', bars))
    ensures forall b :: b in NewBars(t', bars) ==> b in NewBars(t, bars)
  {
    if bars != [] {
      var init, b := bars[..|bars| - 1], bars[|bars| - 1];
      FewerAreNew(t, t', init);
      var n, n' := NewBars(t, init), NewBars(t', init);
      if DistinctMinutes(NewBars(t, bars)) && b.minute !in t {
        assert NewBars(t, bars) == n + [b];
        assert forall i | 0 <= i < |n| :: (n + [b])[i] == n[i];
        assert DistinctMinutes(n);
      }
      if DistinctMinutes(NewBars(t, bars)) && b.minute !in t' {
        forall i | 0 <= i < |n'|
          ensures n'[i].minute != b.minute
        {
          assert n'[i] in n;
          var x :| 0 <= x < |n| && n[x] == n'[i];
          assert (n + [b])[x].minute != (n + [b])[|n|].minute;
        }
        assert DistinctMinutes(n' + [b]);
      }
    }
  }

  ghost predicate HasMinute(bars: seq<Bar>, k: int) {
    exists i :: 0 <= i < |bars| && bars[i].minute == k
  }

  /** Minutes that occur twice are stored already. */
  ghost predicate RepeatsOnlyStored(t: Table, bars: seq<Bar>) {
    forall i, j | 0 <= i < j < |bars| && bars[i].minute == bars[j].minute :: bars[i].minute in t
  }

  lemma HasMinuteSnoc(bars: seq<Bar>, b: Bar, k: int)
    ensures HasMinute(bars + [b], k) <==> HasMinute(bars, k) || b.minute == k
  {
    var all := bars + [b];
    assert all[|bars|] == b && forall i | 0 <= i < |bars| :: all[i] == bars[i];
  }

  lemma DistinctSnoc(bars: seq<Bar>, b: Bar)
    ensures DistinctMinutes(bars + [b]) <==> DistinctMinutes(bars) && !HasMinute(bars, b.minute)
  {
    var all := bars + [b];
    assert all[|bars|] == b && forall i | 0 <= i < |bars| :: all[i] == bars[i];
  }

  lemma RepeatsSnoc(t: Table, bars: seq<Bar>, b: Bar)
    ensures RepeatsOnlyStored(t, bars + [b]) <==>
            RepeatsOnlyStored(t, bars) && (HasMinute(bars, b.minute) ==> b.minute in t)
  {
    var all := bars + [b];
    assert all[|bars|] == b && forall i | 0 <= i < |bars| :: all[i] == bars[i];
  }

  lemma {:induction false} NewHas(t: Table, bars: seq<Bar>, k: int)
    ensures HasMinute(NewBars(t, bars), k) <==> k !in t && HasMinute(bars, k)
  {
    if bars != [] {
      var n := |bars| - 1;
      NewHas(t, bars[..n], k);
      assert bars == bars[..n] + [bars[n]];
      HasMinuteSnoc(bars[..n], bars[n], k);
      HasMinuteSnoc(NewBars(t, bars[..n]), bars[n], k);
    }
  }

  lemma {:induction false} NewAreDistinct(t: Table, bars: seq<Bar>)
    ensures DistinctMinutes(NewBars(t, bars)) <==> RepeatsOnlyStored(t, bars)
  {
    if bars != [] {
      var n := |bars| - 1;
      var init, b := bars[..n], bars[n];
      assert bars == init + [b];
      NewAreDistinct(t, init);
      RepeatsSnoc(t, init, b);
      NewHas(t, init, b.minute);
      DistinctSnoc(NewBars(t, init), b);
    }
  }

  /** A chunk is rolled back exactly when two of its bars are for one minute that was not stored before. */
  lemma CommitsExactly(mode: Mode, t: Table, bars: seq<Bar>)
    ensures UpsertChunk(mode, t, bars).Some? <==> RepeatsOnlyStored(t, bars)
  {
    AddedAreNew(mode, t, bars);
    NewAreDistinct(t, bars);
  }

  /** With more rows stored, a chunk that could be committed still can. */
  lemma ChunkStillCommits(mode: Mode, t: Table, t': Table, bars: seq<Bar>)
    requires t.Keys <= t'.Keys && UpsertChunk(mode, t, bars).Some?
    ensures UpsertChunk(mode, t', bars).Some?
  {
    AddedAreNew(mode, t, bars);
    AddedAreNew(mode, t', bars);
    FewerAreNew(t, t', bars);
  }

  lemma SameTable(t: Table, t': Table)
    requires forall k :: At(t, k) == At(t', k)
    ensures t == t'
  {
    assert forall k :: (k in t <==> At(t, k).Some?) && (k in t' <==> At(t', k).Some?);
    forall k | k in t
      ensures k in t' && t[k] == t'[k]
    {
      assert At(t, k) == At(t', k);
    }
    assert forall k | k in t' :: k in t;
  }

  lemma KeysGrow(mode: Mode, t: Table, bars: seq<Bar>)
    ensures UpsertChunk(mode, t, bars).Some? ==> t.Keys <= UpsertChunk(mode, t, bars).value.Keys
  {
    forall k | k in t
      ensures UpsertChunk(mode, t, bars).Some? ==> k in UpsertChunk(mode, t, bars).value
    {
      ChunkAt(mode, t, bars, k);
    }
  }

  /** Committing a chunk twice is committing it once. */
  lemma ChunkIdempotent(mode: Mode, t: Table, bars: seq<Bar>)
    requires UpsertChunk(mode, t, bars).Some?
    ensures var t' := UpsertChunk(mode, t, bars).value;
            UpsertChunk(mode, t', bars) == Some(t')
  {
    var t' := UpsertChunk(mode, t, bars).value;
    KeysGrow(mode, t, bars);
    ChunkStillCommits(mode, t, t', bars);
    var t'' := UpsertChunk(mode, t', bars).value;
    forall k
      ensures At(t'', k) == At(t', k)
    {
      ChunkAt(mode, t, bars, k);
      ChunkAt(mode, t', bars, k);
    }
    SameTable(t'', t');
  }

  // ----- the clean run

  ghost function NoCrash(): int -> Fate {
    (i: int) => Succeeds
  }

  /** The table after the first n chunks of an uninterrupted run; None when one cannot be committed. */
  ghost function After(j: Job, t: Table, n: nat): Option<Table>
    requires n <= j.Chunks()
  {
    if n == 0 then Some(t)
    else
      var p := After(j, t, n - 1);
      if p.None? then None else UpsertChunk(j.mode, p.value, j.Bars(n - 1))
  }

  ghost function CursorAt(j: Job, n: nat): Option<int> {
    if n == 0 then None else Some(j.startDate + n - 1)
  }

  // ----- resuming from the last reported cursor

  /** Cursor at chunk n; the table has the first n chunks, or one more that was not reported. */
  ghost predicate Between(j: Job, t: Table, w: World, n: nat) {
    && n <= j.Chunks() && w.cursor == CursorAt(j, n)
    && (|| After(j, t, n) == Some(w.table)
        || (n < j.Chunks() && After(j, t, n).Some? && After(j, t, n + 1) == Some(w.table)))
  }

  lemma ResumesThere(j: Job, n: nat)
    requires n <= j.Chunks()
    ensures ResumeIndex(j, CursorAt(j, n)) == n
  {
  }

  /** Skipped on resuming are exactly the chunks that do not start after the checkpoint. */
  lemma SkippedExactly(j: Job, checkpoint: Option<int>, i: nat)
    requires i < j.Chunks()
    ensures i < ResumeIndex(j, checkpoint) <==> checkpoint.Some? && j.startDate + i <= checkpoint.value
    ensures ResumeIndex(j, checkpoint) <= j.Chunks()
  {
  }

  /** At chunk n, redoing that chunk leads to the table of n + 1 chunks, whether or not it was done. */
  lemma RedoChunk(j: Job, t: Table, w: World, n: nat)
    requires Between(j, t, w, n) && n < j.Chunks()
    ensures UpsertChunk(j.mode, w.table, j.Bars(n)) == After(j, t, n + 1)
  {
    if After(j, t, n) != Some(w.table) {
      ChunkIdempotent(j.mode, After(j, t, n).value, j.Bars(n));
    }
  }

  /** From chunk i with bound h, one pass keeps P, for the next chunk if the loop goes on. */
  ghost predicate PassKeeps(j: Job, P: (World, nat, nat) -> bool, w: World, i: nat, h: nat, fate: Fate) {
    var (v, goesOn) := RunOne(j, w, i, fate);
    exists i': nat, h': nat :: P(v, i', h') && (goesOn ==> i' == i + 1)
  }

  /** What every pass keeps, the loop keeps. */
  lemma {:induction false} LoopKeeps(j: Job, P: (World, nat, nat) -> bool, w: World, i: nat, h: nat, fate: int -> Fate)
    returns (v: World, i': nat, h': nat)
    requires P(w, i, h)
    requires forall x, k: nat, g: nat, f {:trigger PassKeeps(j, P, x, k, g, f)} | k < j.Chunks() && P(x, k, g) ::
               PassKeeps(j, P, x, k, g, f)
    ensures v == RunChunks(j, w, i, fate).0 && P(v, i', h')
    decreases j.Chunks() - i
  {
    v, i', h' := w, i, h;
    if i < j.Chunks() {
      var one := RunOne(j, w, i, fate(i));
      assert PassKeeps(j, P, w, i, h, fate(i));
      v := one.0;
      i', h' :| P(v, i', h') && (one.1 ==> i' == i + 1);
      if one.1 {
        v, i', h' := LoopKeeps(j, P, v, i + 1, h', fate);
      }
    }
  }

  lemma RunStaysBetween(j: Job, t: Table, w: World, n: nat, fate: int -> Fate) returns (v: World, m: nat)
    requires Between(j, t, w, n)
    ensures v == RunChunks(j, w, n, fate).0 && Between(j, t, v, m)
  {
    var P := (x: World, i: nat, h: nat) => Between(j, t, x, i);
    forall x, k: nat, g: nat, f | k < j.Chunks() && P(x, k, g)
      ensures PassKeeps(j, P, x, k, g, f)
    {
      var i := ChunkStaysBetween(j, t, x, k, f);
      assert P(RunOne(j, x, k, f).0, i, g);
    }
    var h;
    v, m, h := LoopKeeps(j, P, w, n, 0, fate);
  }

  lemma ChunkStaysBetween(j: Job, t: Table, w: World, n: nat, fate: Fate) returns (m: nat)
    requires Between(j, t, w, n) && n < j.Chunks()
    ensures Between(j, t, RunOne(j, w, n, fate).0, m) && (RunOne(j, w, n, fate).1 ==> m == n + 1)
  {
    RedoChunk(j, t, w, n);
    m := if RunOne(j, w, n, fate).0.cursor == w.cursor then n else n + 1;
  }

  lemma {:induction false} RunToTheEnd(j: Job, t: Table, w: World, v: World, n: nat)
    requires Between(j, t, w, n) && Between(j, t, v, n)
    requires n == j.Chunks() ==> w.table == v.table
    ensures RunChunks(j, w, n, NoCrash()).1 == RunChunks(j, v, n, NoCrash()).1
    ensures RunChunks(j, w, n, NoCrash()).1 ==>
              RunChunks(j, w, n, NoCrash()).0 == RunChunks(j, v, n, NoCrash()).0
    ensures RunChunks(j, w, n, NoCrash()).1 ==> Some(RunChunks(j, w, n, NoCrash()).0.table) == After(j, t, j.Chunks())
    ensures After(j, t, j.Chunks()).Some? ==> RunChunks(j, w, n, NoCrash()).1
    decreases j.Chunks() - n
  {
    if n < j.Chunks() {
      RedoChunk(j, t, w, n);
      RedoChunk(j, t, v, n);
      var t' := After(j, t, n + 1);
      if t'.Some? {
        var x := World(t'.value, Some(j.startDate + n));
        RunToTheEnd(j, t, x, x, n + 1);
      } else {
        NeverRecovers(j, t, n + 1, j.Chunks());
      }
    }
  }

  lemma {:induction false} NeverRecovers(j: Job, t: Table, n: nat, m: nat)
    requires n <= m <= j.Chunks() && After(j, t, n).None?
    ensures After(j, t, m).None?
    decreases m - n
  {
    if n < m {
      NeverRecovers(j, t, n + 1, m);
    }
  }

  /** A history of executions, each started with the cursor that was last reported. */
  ghost function Resume(j: Job, w: World, fates: seq<int -> Fate>): World {
    if fates == [] then w
    else
      var p := Resume(j, w, fates[..|fates| - 1]);
      Execute(j, p, p.cursor, fates[|fates| - 1]).0
  }

  lemma {:induction false} HistoryStaysBetween(j: Job, t: Table, fates: seq<int -> Fate>) returns (m: nat)
    requires j.startDate <= j.endDate
    ensures Between(j, t, Resume(j, World(t, None), fates), m)
  {
    if fates == [] {
      m := 0;
    } else {
      var n := HistoryStaysBetween(j, t, fates[..|fates| - 1]);
      var w := Resume(j, World(t, None), fates[..|fates| - 1]);
      ResumesThere(j, n);
      var v;
      v, m := RunStaysBetween(j, t, w, n, fates[|fates| - 1]);
    }
  }

  /**
    Whatever executions crashed, before a commit, between a commit and its report or after it,
    resuming from the last reported cursor finishes exactly when one clean run does, and
    then with the same table.  Histories that only resume need no assumption on the fetched rows;
    BackfillMixed tells which others do.
   */
  lemma CrashResumeEqualsCleanRun(j: Job, t: Table, fates: seq<int -> Fate>)
    requires j.startDate <= j.endDate
    ensures var w := Resume(j, World(t, None), fates);
            var resumed, clean := Execute(j, w, w.cursor, NoCrash()), Execute(j, World(t, None), None, NoCrash());
            && resumed.1 == clean.1
            && (clean.1 ==> resumed.0.table == clean.0.table && Some(clean.0.table) == After(j, t, j.Chunks()))
  {
    var n := HistoryStaysBetween(j, t, fates);
    var w := Resume(j, World(t, None), fates);
    ResumesThere(j, n);
    RunToTheEnd(j, t, World(t, None), World(t, None), 0);
    RunToTheEnd(j, t, w, w, n);
    if RunChunks(j, w, n, NoCrash()).1 {
      assert After(j, t, j.Chunks()).Some?;
    }
  }

  // ----- retrying with the original parameters

  ghost function PutAll(j: Job, k: int, row: Option<DbRow>, n: nat): Option<DbRow>
    requires n <= j.Chunks()
  {
    if n == 0 then row else Put(j.mode, k, PutAll(j, k, row, n - 1), LastFor(j.Bars(n - 1), k))
  }

  /** Rows that agree up to their bar, or up to nothing where the mode keeps the first. */
  ghost predicate Similar(j: Job, k: int, a: Option<DbRow>, b: Option<DbRow>) {
    if Overwrites(j.mode, k)
    then a.Some? && b.Some? && a.value.amplitude == b.value.amplitude && a.value.amplitudePct == b.value.amplitudePct
    else a == b
  }

  lemma {:induction false} PutKeepsAmplitude(j: Job, k: int, row: Option<DbRow>, n: nat)
    requires n <= j.Chunks() && row.Some?
    ensures Similar(j, k, PutAll(j, k, row, n), row)
  {
    if n > 0 {
      PutKeepsAmplitude(j, k, row, n - 1);
    }
  }

  /** For one minute: redoing the first n chunks after them changes nothing. */
  lemma {:induction false} PrefixAbsorbed(j: Job, k: int, row: Option<DbRow>, n: nat)
    requires n <= j.Chunks()
    ensures PutAll(j, k, PutAll(j, k, row, n), n) == PutAll(j, k, row, n)
  {
    if n > 0 {
      var x, b := PutAll(j, k, row, n - 1), LastFor(j.Bars(n - 1), k);
      PrefixAbsorbed(j, k, row, n - 1);
      if b.Some? {
        if x.Some? {
          PutKeepsAmplitude(j, k, x, n - 1);
          PutKeepsAmplitude(j, k, Put(j.mode, k, x, b), n - 1);
        } else {
          PutKeepsAmplitude(j, k, Put(j.mode, k, x, b), n - 1);
        }
      }
    }
  }

  lemma {:induction false} PutAllFrom(j: Job, k: int, a: Option<DbRow>, b: Option<DbRow>, n: nat, m: nat)
    requires n <= m <= j.Chunks() && PutAll(j, k, a, n) == PutAll(j, k, b, n)
    ensures PutAll(j, k, a, m) == PutAll(j, k, b, m)
  {
    if n < m {
      PutAllFrom(j, k, a, b, n, m - 1);
    }
  }

  lemma {:induction false} AfterAt(j: Job, t: Table, n: nat, k: int)
    requires n <= j.Chunks()
    ensures After(j, t, n).Some? ==> At(After(j, t, n).value, k) == PutAll(j, k, At(t, k), n)
  {
    if n > 0 {
      AfterAt(j, t, n - 1, k);
      if After(j, t, n).Some? {
        ChunkAt(j.mode, After(j, t, n - 1).value, j.Bars(n - 1), k);
      }
    }
  }

  /**
    Retried tables: x holds the minutes of the first n chunks over t, and redoing at least
    n chunks on it gives, minute by minute, what they give on t.
   */
  ghost predicate Absorbs(j: Job, t: Table, x: Table, n: nat) {
    && n <= j.Chunks() && After(j, t, n).Some? && x.Keys == After(j, t, n).value.Keys
    && forall k, m: nat {:trigger PutAll(j, k, At(x, k), m)} | n <= m <= j.Chunks() ::
         PutAll(j, k, At(x, k), m) == PutAll(j, k, At(t, k), m)
  }

  lemma {:induction false} PrefixKeys(j: Job, t: Table, n: nat, m: nat)
    requires n <= m <= j.Chunks() && After(j, t, m).Some?
    ensures After(j, t, n).Some? && After(j, t, n).value.Keys <= After(j, t, m).value.Keys
  {
    if n < m {
      PrefixKeys(j, t, n, m - 1);
      KeysGrow(j.mode, After(j, t, m - 1).value, j.Bars(m - 1));
    }
  }

  /** Redoing p <= n chunks on an absorbing table always commits and keeps its minutes. */
  lemma {:induction false} RedoPrefix(j: Job, t: Table, x: Table, n: nat, p: nat)
    requires Absorbs(j, t, x, n) && p <= n
    ensures After(j, x, p).Some? && After(j, x, p).value.Keys == x.Keys
  {
    if p > 0 {
      RedoPrefix(j, t, x, n, p - 1);
      var y := After(j, x, p - 1).value;
      var a := ChunkWithin(j, t, p - 1, n);
      RedoMinutes(j.mode, a, y, j.Bars(p - 1));
    }
  }

  /** A chunk of a run that went further: the table it met and the minutes it left. */
  lemma ChunkWithin(j: Job, t: Table, p: nat, n: nat) returns (a: Table)
    requires p < n <= j.Chunks() && After(j, t, n).Some?
    ensures UpsertChunk(j.mode, a, j.Bars(p)).Some?
    ensures a.Keys <= UpsertChunk(j.mode, a, j.Bars(p)).value.Keys <= After(j, t, n).value.Keys
  {
    PrefixKeys(j, t, p + 1, n);
    PrefixKeys(j, t, p, n);
    a := After(j, t, p).value;
    KeysGrow(j.mode, a, j.Bars(p));
  }

  /** A chunk commits on a table that has all minutes it leaves on another one, and adds none. */
  lemma RedoMinutes(mode: Mode, a: Table, y: Table, bars: seq<Bar>)
    requires UpsertChunk(mode, a, bars).Some? && a.Keys <= y.Keys
    requires UpsertChunk(mode, a, bars).value.Keys <= y.Keys
    ensures UpsertChunk(mode, y, bars).Some? && UpsertChunk(mode, y, bars).value.Keys == y.Keys
  {
    ChunkStillCommits(mode, a, y, bars);
    var a', y' := UpsertChunk(mode, a, bars).value, UpsertChunk(mode, y, bars).value;
    KeysGrow(mode, y, bars);
    forall k | k in y'
      ensures k in y
    {
      ChunkAt(mode, y, bars, k);
      ChunkAt(mode, a, bars, k);
      assert LastFor(bars, k).Some? ==> k in a'.Keys;
    }
  }

  /** Redoing p >= n chunks on an absorbing table is doing them on the original one. */
  lemma {:induction false} RedoBeyond(j: Job, t: Table, x: Table, n: nat, p: nat)
    requires Absorbs(j, t, x, n) && n <= p <= j.Chunks()
    ensures After(j, x, p) == After(j, t, p)
  {
    if p == n {
      RedoPrefix(j, t, x, n, n);
      forall k
        ensures At(After(j, x, n).value, k) == At(After(j, t, n).value, k)
      {
        AfterAt(j, x, n, k);
        AfterAt(j, t, n, k);
      }
      SameTable(After(j, x, n).value, After(j, t, n).value);
    } else {
      RedoBeyond(j, t, x, n, p - 1);
    }
  }

  lemma RetryKeepsAbsorbing(j: Job, t: Table, x: Table, n: nat, p: nat) returns (n': nat)
    requires Absorbs(j, t, x, n) && p <= j.Chunks() && After(j, x, p).Some?
    ensures Absorbs(j, t, After(j, x, p).value, n')
  {
    var y := After(j, x, p).value;
    n' := if p <= n then n else p;
    if p <= n {
      RedoPrefix(j, t, x, n, p);
    } else {
      RedoBeyond(j, t, x, n, p);
    }
    forall k, m: nat | n' <= m <= j.Chunks()
      ensures PutAll(j, k, At(y, k), m) == PutAll(j, k, At(t, k), m)
    {
      AfterAt(j, x, p, k);
      PrefixAbsorbed(j, k, At(x, k), p);
      PutAllFrom(j, k, PutAll(j, k, At(x, k), p), At(x, k), p, m);
      assert PutAll(j, k, At(x, k), m) == PutAll(j, k, At(t, k), m);
    }
  }

  /** Running the loop from the first chunk commits some prefix of the chunks, all of them if it finishes. */
  lemma {:induction false} LoopIsPrefix(j: Job, x: Table, w: World, i: nat, fate: int -> Fate)
    returns (v: World, done: bool, p: nat)
    requires i <= j.Chunks() && After(j, x, i) == Some(w.table)
    ensures (v, done) == RunChunks(j, w, i, fate)
    ensures i <= p <= j.Chunks() && After(j, x, p) == Some(v.table) && (done ==> p == j.Chunks())
    decreases j.Chunks() - i
  {
    v, done, p := w, true, i;
    if i < j.Chunks() {
      var one := RunOne(j, w, i, fate(i));
      p := ChunkIsNext(j, x, w, i, fate(i));
      v, done := one.0, one.1;
      if done {
        v, done, p := LoopIsPrefix(j, x, v, i + 1, fate);
      }
    }
  }

  lemma ChunkIsNext(j: Job, x: Table, w: World, i: nat, fate: Fate) returns (p: nat)
    requires i < j.Chunks() && After(j, x, i) == Some(w.table)
    ensures i <= p <= i + 1 && After(j, x, p) == Some(RunOne(j, w, i, fate).0.table)
    ensures RunOne(j, w, i, fate).1 ==> p == i + 1
  {
    p := if UpsertChunk(j.mode, w.table, j.Bars(i)).None? || fate == FailsBeforeCommit then i else i + 1;
  }

  /** Without a crash the loop finishes when every chunk can be committed. */
  lemma {:induction false} LoopFinishes(j: Job, x: Table, w: World, i: nat)
    requires i <= j.Chunks() && After(j, x, i) == Some(w.table) && After(j, x, j.Chunks()).Some?
    ensures RunChunks(j, w, i, NoCrash()).1
    decreases j.Chunks() - i
  {
    if i < j.Chunks() {
      var v := RunOne(j, w, i, Succeeds).0;
      NextCommits(j, x, w, i);
      LoopFinishes(j, x, v, i + 1);
    }
  }

  lemma NextCommits(j: Job, x: Table, w: World, i: nat)
    requires i < j.Chunks() && After(j, x, i) == Some(w.table) && After(j, x, j.Chunks()).Some?
    ensures RunOne(j, w, i, Succeeds).1 && After(j, x, i + 1) == Some(RunOne(j, w, i, Succeeds).0.table)
  {
    PrefixKeys(j, x, i + 1, j.Chunks());
  }

  /** A history of executions that all start from the beginning, as in-process retries do. */
  ghost function Retry(j: Job, w: World, fates: seq<int -> Fate>): World {
    if fates == [] then w
    else Execute(j, Retry(j, w, fates[..|fates| - 1]), None, fates[|fates| - 1]).0
  }

  lemma {:induction false} RetriesAbsorb(j: Job, t: Table, fates: seq<int -> Fate>) returns (n: nat)
    requires j.startDate <= j.endDate
    ensures Absorbs(j, t, Retry(j, World(t, None), fates).table, n)
  {
    if fates == [] {
      n := 0;
    } else {
      var m := RetriesAbsorb(j, t, fates[..|fates| - 1]);
      var w := Retry(j, World(t, None), fates[..|fates| - 1]);
      var v, done, p := LoopIsPrefix(j, w.table, w, 0, fates[|fates| - 1]);
      n := RetryKeepsAbsorbing(j, t, w.table, m, p);
    }
  }

  /**
    The job runner's own retries repeat the whole range and ignore the checkpoint.  They
    too finish exactly when a clean run does, with the same table, in both modes and even
    when the fetched days overlap in some minutes.
   */
  lemma RetriesEqualCleanRun(j: Job, t: Table, fates: seq<int -> Fate>)
    requires j.startDate <= j.endDate
    ensures var w := Retry(j, World(t, None), fates);
            var retried, clean := Execute(j, w, None, NoCrash()), Execute(j, World(t, None), None, NoCrash());
            && retried.1 == clean.1
            && (clean.1 ==> retried.0.table == clean.0.table)
  {
    var n := RetriesAbsorb(j, t, fates);
    var w := Retry(j, World(t, None), fates);
    var v, done, p := LoopIsPrefix(j, w.table, w, 0, NoCrash());
    v, done, p := LoopIsPrefix(j, t, World(t, None), 0, NoCrash());
    RedoBeyond(j, t, w.table, n, j.Chunks());
    if After(j, t, j.Chunks()).Some? {
      LoopFinishes(j, w.table, w, 0);
      LoopFinishes(j, t, World(t, None), 0);
    }
  }

  // ----- what an execution reports

  /** How many rows the vendor returns for the chunks from the i-th on. */
  ghost function Fetched(j: Job, i: nat): nat
    decreases j.Chunks() - i
  {
    if i >= j.Chunks() then 0 else |j.fetch(j.startDate + i)| + Fetched(j, i + 1)
  }

  /** Counters that account for every processed row. */
  ghost predicate Balanced(c: Counters) {
    c.processed == c.written + c.skipped + c.failed
  }

  /** The loop of the job, counters aside, is the loop that the theorems above are about. */
  lemma {:induction false} LoopIsRun(j: Job, w: World, c: Counters, i: nat, fate: int -> Fate)
    ensures RunChunks(j, w, i, fate) == (Loop(j, w, c, i, fate).0, Loop(j, w, c, i, fate).2)
    decreases j.Chunks() - i
  {
    if i < j.Chunks() {
      var (v, goesOn) := RunOne(j, w, i, fate(i));
      if goesOn {
        LoopIsRun(j, v, CountOne(j, w, c, i, fate(i)), i + 1, fate);
      }
    }
  }

  /** How many of the rows are not well-formed. */
  ghost function Malformed(rows: seq<RawRow>): nat {
    if rows == [] then 0 else Malformed(rows[..|rows| - 1]) + (if WellFormed(rows[|rows| - 1]) then 0 else 1)
  }

  /** How many malformed rows the vendor returns for the chunks from the i-th on. */
  ghost function AllMalformed(j: Job, i: nat): nat
    decreases j.Chunks() - i
  {
    if i >= j.Chunks() then 0 else Malformed(j.fetch(j.startDate + i)) + AllMalformed(j, i + 1)
  }

  lemma {:induction false} MalformedCount(rows: seq<RawRow>)
    ensures Malformed(rows) == |rows| - |ValidBars(rows)|
  {
    if rows != [] {
      MalformedCount(rows[..|rows| - 1]);
    }
  }

  /** What a day counts: all its rows, the malformed ones, the bars that are written and those that are not. */
  lemma ChunkCountsRead(j: Job, t: Table, day: int)
    ensures var c, rows, bars := ChunkCounters(j, t, day), j.fetch(day), ValidBars(j.fetch(day));
            && c.processed == |rows| && c.failed == Malformed(rows)
            && c.written == |Written(j.mode, t.Keys, bars)| && c.skipped == |bars| - |Written(j.mode, t.Keys, bars)|
  {
    MalformedCount(j.fetch(day));
    WrittenCount(j.mode, t.Keys, ValidBars(j.fetch(day)));
  }

  /** From chunk i on, the loop reported the chunks up to the m-th: the cursor says so, and so do the counters. */
  ghost predicate Covers(j: Job, cursor: Option<int>, c: Counters, i: nat, cursor': Option<int>, d: Counters, m: nat) {
    && i <= m && cursor' == (if m == i then cursor else Some(j.startDate + m - 1))
    && Balanced(d) && d.processed + Fetched(j, m) == c.processed + Fetched(j, i)
    && d.failed + AllMalformed(j, m) == c.failed + AllMalformed(j, i)
  }

  /** One pass: the chunk is reported, as the cursor and in the counters, or neither changes. */
  lemma PassCovers(j: Job, w: World, c: Counters, i: nat, fate: Fate) returns (m: nat)
    requires i < j.Chunks() && Balanced(c)
    ensures var v, d := RunOne(j, w, i, fate).0, CountOne(j, w, c, i, fate);
            Covers(j, w.cursor, c, i, v.cursor, d, m) && m <= i + 1
    ensures RunOne(j, w, i, fate).1 ==> m == i + 1
  {
    m := i;
    if fate != FailsBeforeCommit && fate != FailsBeforeReport && UpsertChunk(j.mode, w.table, j.Bars(i)).Some? {
      ChunkCountsRead(j, w.table, j.startDate + i);
      m := i + 1;
    }
  }

  lemma CoversJoin(j: Job, a: Option<int>, c: Counters, i: nat, b: Option<int>, d: Counters, e: Option<int>, f: Counters, m: nat)
    requires Covers(j, a, c, i, b, d, i + 1) && Covers(j, b, d, i + 1, e, f, m)
    ensures Covers(j, a, c, i, e, f, m)
  {
  }

  lemma {:induction false} LoopCovers(j: Job, w: World, c: Counters, i: nat, fate: int -> Fate)
    returns (v: World, d: Counters, done: bool, m: nat)
    requires Balanced(c)
    ensures (v, d, done) == Loop(j, w, c, i, fate) && Covers(j, w.cursor, c, i, v.cursor, d, m)
    ensures done ==> m >= j.Chunks()
    decreases j.Chunks() - i
  {
    v, d, done, m := w, c, true, i;
    if i < j.Chunks() {
      var one, e := RunOne(j, w, i, fate(i)), CountOne(j, w, c, i, fate(i));
      m := PassCovers(j, w, c, i, fate(i));
      v, d, done := one.0, e, one.1;
      if done {
        v, d, done, m := LoopCovers(j, one.0, e, i + 1, fate);
        CoversJoin(j, w.cursor, c, i, one.0.cursor, e, v.cursor, d, m);
      }
    }
  }

  /**
    Each execution is the one of the theorems above.  Its counters cover exactly the chunks it reported,
    from the resume point up to the cursor it leaves: processed are their rows, which are those written,
    skipped on conflict or failing validation, and failed are the malformed ones.  When it ends normally
    these are all the rest.
   */
  lemma CountersAddUp(j: Job, w: World, c: Counters, checkpoint: Option<int>, fate: int -> Fate) returns (m: nat)
    requires j.startDate <= j.endDate
    ensures var (v, d, done) := ExecuteCounted(j, w, c, checkpoint, fate);
            var start := if checkpoint.Some? then checkpoint else w.cursor;
            && Execute(j, w, checkpoint, fate) == (v, done)
            && Covers(j, start, Counters(0, 0, 0, 0), ResumeIndex(j, checkpoint), v.cursor, d, m)
            && (done ==> m >= j.Chunks() && d.processed == Fetched(j, ResumeIndex(j, checkpoint))
                         && d.failed == AllMalformed(j, ResumeIndex(j, checkpoint)))
  {
    var started := w.(cursor := if checkpoint.Some? then checkpoint else w.cursor);
    LoopIsRun(j, started, Counters(0, 0, 0, 0), ResumeIndex(j, checkpoint), fate);
    var v, d, done;
    v, d, done, m := LoopCovers(j, started, Counters(0, 0, 0, 0), ResumeIndex(j, checkpoint), fate);
  }

  /** A reversed range raises before anything happens. */
  lemma ReversedRaises(j: Job, w: World, c: Counters, checkpoint: Option<int>, fate: int -> Fate)
    requires j.startDate > j.endDate
    ensures Execute(j, w, checkpoint, fate) == (w, false)
    ensures ExecuteCounted(j, w, c, checkpoint, fate) == (w, c, false)
  {
  }

  /** The i-th chunk has the bars of the well-formed rows that the vendor returns for the i-th day from the start. */
  lemma ChunkIsDay(j: Job, i: nat)
    ensures var rows, bars := j.fetch(j.startDate + i), j.Bars(i);
            && |bars| == |WellFormedAt(rows)|
            && forall k | 0 <= k < |bars| ::
                 WellFormedAt(rows)[k] < |rows| && WellFormed(rows[WellFormedAt(rows)[k]])
                 && IsBarOf(bars[k], rows[WellFormedAt(rows)[k]])
  {
    KeptAreWellFormed(j.fetch(j.startDate + i));
  }

  // ----- what is overwritten, by the clock

  /** 13:45 or later on its day. */
  ghost predicate AfterClose(minute: int) {
    HourOf(minute) > 13 || (HourOf(minute) == 13 && MinuteOf(minute) >= 45)
  }

  lemma ClosedByTheClock(minute: int)
    ensures IsClosedMinute(minute) <==> AfterClose(minute)
  {
    var time := minute % MICROS_PER_DAY;
    var hour, rest := time / MICROS_PER_HOUR, time % MICROS_PER_HOUR;
    assert minute == (DayOf(minute) * 24 + hour) * MICROS_PER_HOUR + rest;
    assert minute % MICROS_PER_HOUR == rest;
  }

  /** A stored row gives way to a fetched bar in force mode, and otherwise from 13:45 on. */
  ghost predicate GivesWay(mode: Mode, minute: int) {
    mode == Force || AfterClose(minute)
  }

  /**
    A committed chunk stores the last bar of every minute that was not stored, and of every stored one
    that gives way, whose amplitudes it leaves alone; every other row stays as it is.
   */
  lemma ChunkByTheClock(mode: Mode, t: Table, bars: seq<Bar>, k: int)
    requires UpsertChunk(mode, t, bars).Some?
    ensures var t', b := UpsertChunk(mode, t, bars).value, LastFor(bars, k);
            if b.None? || (k in t && !GivesWay(mode, k)) then At(t', k) == At(t, k)
            else k in t' && t'[k] == if k in t then t[k].(bar := b.value) else DbRow(b.value, 0.0, 0.0)
  {
    ChunkAt(mode, t, bars, k);
    ClosedByTheClock(k);
  }

  /** The bars a chunk writes: those of minutes that are new or give way. */
  ghost function Written(mode: Mode, stored: set<int>, bars: seq<Bar>): set<nat> {
    set i | 0 <= i < |bars| && (bars[i].minute !in stored || GivesWay(mode, bars[i].minute))
  }

  lemma {:induction false} WrittenCount(mode: Mode, stored: set<int>, bars: seq<Bar>)
    ensures CountWrites(mode, stored, bars) == |Written(mode, stored, bars)|
  {
    if bars == [] {
      assert Written(mode, stored, bars) == {};
    } else {
      var n := |bars| - 1;
      var before := Written(mode, stored, bars[..n]);
      WrittenCount(mode, stored, bars[..n]);
      ClosedByTheClock(bars[n].minute);
      assert Written(mode, stored, bars)
          == if bars[n].minute !in stored || GivesWay(mode, bars[n].minute) then before + {n} else before;
    }
  }

  /** The rows stored in x that do not give way are the same in y, and none is gone. */
  ghost predicate KeepsRows(mode: Mode, x: Table, y: Table) {
    forall k | k in x :: k in y && (!GivesWay(mode, k) ==> y[k] == x[k])
  }

  lemma ChunkKeepsRows(mode: Mode, t: Table, x: Table, bars: seq<Bar>)
    requires KeepsRows(mode, t, x) && UpsertChunk(mode, x, bars).Some?
    ensures KeepsRows(mode, t, UpsertChunk(mode, x, bars).value)
  {
    forall k | k in t
      ensures At(UpsertChunk(mode, x, bars).value, k).Some?
      ensures !GivesWay(mode, k) ==> At(UpsertChunk(mode, x, bars).value, k) == At(x, k)
    {
      ChunkByTheClock(mode, x, bars, k);
    }
  }

  /**
    However an execution goes, it removes no row, and in closed-only mode it leaves every row stored
    before 13:45 of its day exactly as it was.
   */
  lemma ExecutionKeepsRows(j: Job, w: World, checkpoint: Option<int>, fate: int -> Fate)
    ensures KeepsRows(j.mode, w.table, Execute(j, w, checkpoint, fate).0.table)
  {
    if j.startDate <= j.endDate {
      var P := (x: World, i: nat, h: nat) => KeepsRows(j.mode, w.table, x.table);
      forall x, k: nat, g: nat, f | k < j.Chunks() && P(x, k, g)
        ensures PassKeeps(j, P, x, k, g, f)
      {
        var one := RunOne(j, x, k, f);
        if UpsertChunk(j.mode, x.table, j.Bars(k)).Some? {
          ChunkKeepsRows(j.mode, w.table, x.table, j.Bars(k));
        }
        assert P(one.0, k + 1, g);
      }
      var started := w.(cursor := if checkpoint.Some? then checkpoint else w.cursor);
      var v, i, h := LoopKeeps(j, P, started, ResumeIndex(j, checkpoint), 0, fate);
    }
  }

  // ----- which rows are kept, and as what

  /** The row has a time stamp and four prices, open and close within low and high. */
  ghost predicate WellFormed(r: RawRow) {
    && r.ts.Some? && r.open.Some? && r.high.Some? && r.low.Some? && r.close.Some?
    && r.low.value <= r.open.value && r.open.value <= r.high.value
    && r.low.value <= r.close.value && r.close.value <= r.high.value
  }

  /** The bar has the row's numbers and the Taipei minute that its time stamp is in. */
  ghost predicate IsBarOf(b: Bar, r: RawRow)
    requires WellFormed(r)
  {
    var wall := r.ts.value + 8 * MICROS_PER_HOUR;
    && b.minute % MICROS_PER_MINUTE == 0 && b.minute <= wall < b.minute + MICROS_PER_MINUTE
    && b.open == r.open.value && b.high == r.high.value && b.low == r.low.value && b.close == r.close.value
    && b.volume == (if r.volume.Some? then r.volume.value else 0.0)
    && b.tradeDate == TradeDateFor(b.minute)
                      + (if 5 * MICROS_PER_HOUR <= b.minute % MICROS_PER_DAY < 15 * MICROS_PER_HOUR then 1 else 0)
  }

  /** Where the well-formed rows are. */
  ghost function WellFormedAt(rows: seq<RawRow>): seq<nat> {
    if rows == [] then []
    else
      var n := |rows| - 1;
      if WellFormed(rows[n]) then WellFormedAt(rows[..n]) + [n] else WellFormedAt(rows[..n])
  }

  lemma BarOfRow(r: RawRow)
    requires WellFormed(r)
    ensures IsValidRow(r) && IsBarOf(ToBar(r), r)
  {
    var wall := r.ts.value + TAIPEI_OFFSET_SECONDS * MICROS_PER_SECOND;
    FloorIsMinute(wall);
    SessionDateAgrees(MinuteFloor(wall));
  }

  lemma FloorIsMinute(wall: int)
    ensures MinuteFloor(wall) % MICROS_PER_MINUTE == 0 && MinuteFloor(wall) <= wall < MinuteFloor(wall) + MICROS_PER_MINUTE
  {
    assert MinuteFloor(wall) == wall / MICROS_PER_MINUTE * MICROS_PER_MINUTE;
  }

  /** The kept bars are those of the well-formed rows, one each, in order. */
  lemma {:induction false} KeptAreWellFormed(rows: seq<RawRow>)
    ensures var bars, at := ValidBars(rows), WellFormedAt(rows);
            && |bars| == |at|
            && forall k | 0 <= k < |at| :: at[k] < |rows| && WellFormed(rows[at[k]]) && IsBarOf(bars[k], rows[at[k]])
  {
    if rows != [] {
      var n := |rows| - 1;
      KeptAreWellFormed(rows[..n]);
      if WellFormed(rows[n]) {
        BarOfRow(rows[n]);
      }
    }
  }

  // ----- two notions of the trade date

  /**
    The backfill's trade date of a minute is the stream worker's exactly outside 05:00 to 15:00; in
    between, so through the whole day session, it is one day later.
   */
  lemma SessionDateAgrees(minute: int)
    ensures TradingSessionDate(minute) == TradeDateFor(minute)
       <==> !(5 * MICROS_PER_HOUR <= minute % MICROS_PER_DAY < 15 * MICROS_PER_HOUR)
    ensures TradingSessionDate(minute) != TradeDateFor(minute) ==>
              TradingSessionDate(minute) == TradeDateFor(minute) + 1
  {
    TradeDateIsShiftedFloor(minute);
    var time := minute % MICROS_PER_DAY;
    assert minute == DayOf(minute) * MICROS_PER_DAY + time;
  }

  /** A valid row of the day session is stored under the day after the trade date its own tick would have. */
  lemma DaySessionRowsDiffer(r: RawRow)
    requires IsValidRow(r)
    requires var local := (r.ts.value + TAIPEI_OFFSET_SECONDS * MICROS_PER_SECOND) % MICROS_PER_DAY;
             8 * MICROS_PER_HOUR + 45 * MICROS_PER_MINUTE <= local <= 13 * MICROS_PER_HOUR + 45 * MICROS_PER_MINUTE
    ensures ToBar(r).tradeDate == TradeDateFor(r.ts.value + TAIPEI_OFFSET_SECONDS * MICROS_PER_SECOND) + 1
  {
    var wall := r.ts.value + TAIPEI_OFFSET_SECONDS * MICROS_PER_SECOND;
    FloorKeepsDay(wall);
    TradeDateConstantInMinute(wall, MinuteFloor(wall));
    SessionDateAgrees(MinuteFloor(wall));
  }

  lemma DayAndTime(day: int, time: int)
    requires 0 <= time < MICROS_PER_DAY
    ensures (day * MICROS_PER_DAY + time) % MICROS_PER_DAY == time
  {
  }

  /** A minute starts on its own day, within a minute before any of its instants. */
  lemma FloorKeepsDay(wall: int)
    ensures MinuteFloor(MinuteFloor(wall)) == MinuteFloor(wall)
    ensures wall % MICROS_PER_DAY - MICROS_PER_MINUTE < MinuteFloor(wall) % MICROS_PER_DAY <= wall % MICROS_PER_DAY
  {
    var minutes, micros := wall / MICROS_PER_MINUTE, wall % MICROS_PER_MINUTE;
    var day, minute := minutes / 1440, minutes % 1440;
    assert wall == day * MICROS_PER_DAY + (minute * MICROS_PER_MINUTE + micros);
    DayAndTime(day, minute * MICROS_PER_MINUTE + micros);
    assert MinuteFloor(wall) == day * MICROS_PER_DAY + minute * MICROS_PER_MINUTE;
    DayAndTime(day, minute * MICROS_PER_MINUTE);
  }
}
