/**
  The sinks together with what they write: the queue that all codes share, the batches that are
  attempted, and the tables after any run.
 */
module SinkTables {
  import opened BidAskSampler
  import opened Persistence
  import DbSink
  import Sampler = BidAskTheorems

  // ----- the shared queue of the 1 Hz samples

  /** One call on the sampler of a code, and how many of the samples it emits are put on the queue before a raise. */
  datatype Turn = Turn(code: string, op: Sampler.Op, enqueued: nat)

  /** The calls on one code's sampler among the first n. */
  ghost function OpsOf(turns: seq<Turn>, n: nat, code: string): seq<Sampler.Op>
    requires n <= |turns|
  {
    if n == 0 then []
    else if turns[n - 1].code == code then OpsOf(turns, n - 1, code) + [turns[n - 1].op]
    else OpsOf(turns, n - 1, code)
  }

  /** All samples of one code after the first n calls. */
  ghost function OutOf(turns: seq<Turn>, n: nat, fields: set<string>, code: string): seq<Sample>
    requires n <= |turns|
  {
    Sampler.Run(OpsOf(turns, n, code), fields).1
  }

  /** The rows that the (n+1)-st call puts on the queue. */
  ghost function RowsOfTurn(turns: seq<Turn>, n: nat, fields: set<string>): seq<Row<(string, int), Metrics>>
    requires n < |turns|
  {
    var code := turns[n].code;
    var out, out' := OutOf(turns, n, fields, code), OutOf(turns, n + 1, fields, code);
    var added := if |out'| < |out| then 0 else |out'| - |out|;
    var m := if turns[n].enqueued < added then turns[n].enqueued else added;
    seq(m, i requires 0 <= i < m => SampleRow(code, out', |out| + i))
  }

  /** The shared queue's rows, in the order in which they were put. */
  ghost function SharedRows(turns: seq<Turn>, n: nat, fields: set<string>): seq<Row<(string, int), Metrics>>
    requires n <= |turns|
  {
    Joined(seq(n, i requires 0 <= i < n => RowsOfTurn(turns, i, fields)))
  }

  ghost function Joined<T>(parts: seq<seq<T>>): seq<T> {
    if parts == [] then [] else Joined(parts[..|parts| - 1]) + parts[|parts| - 1]
  }

  /** Where an element of the whole comes from. */
  lemma {:induction false} JoinedFrom<T>(parts: seq<seq<T>>, i: nat) returns (m: nat, k: nat)
    requires i < |Joined(parts)|
    ensures m < |parts| && k < |parts[m]| && Joined(parts)[i] == parts[m][k]
  {
    var n := |parts| - 1;
    if i < |Joined(parts[..n])| {
      m, k := JoinedFrom(parts[..n], i);
    } else {
      m, k := n, i - |Joined(parts[..n])|;
    }
  }

  /** No row of one part has the key of a row of a later one. */
  ghost predicate PartsDiffer<K, V>(parts: seq<seq<Row<K, V>>>) {
    forall m, n, i, j | 0 <= m < n < |parts| && 0 <= i < |parts[m]| && 0 <= j < |parts[n]| ::
      parts[m][i].key != parts[n][j].key
  }

  lemma {:induction false} JoinedDistinct<K, V>(parts: seq<seq<Row<K, V>>>)
    requires (forall m | 0 <= m < |parts| :: DistinctKeys(parts[m])) && PartsDiffer(parts)
    ensures DistinctKeys(Joined(parts))
  {
    if parts != [] {
      var n := |parts| - 1;
      var before := Joined(parts[..n]);
      JoinedDistinct(parts[..n]);
      forall i, j | 0 <= i < |before| && 0 <= j < |parts[n]|
        ensures before[i].key != parts[n][j].key
      {
        var m, k := JoinedFrom(parts[..n], i);
        assert parts[..n][m] == parts[m];
      }
      DistinctConcat(before, parts[n]);
    }
  }

  lemma DistinctConcat<K, V>(a: seq<Row<K, V>>, b: seq<Row<K, V>>)
    requires DistinctKeys(a) && DistinctKeys(b)
    requires forall i, j | 0 <= i < |a| && 0 <= j < |b| :: a[i].key != b[j].key
    ensures DistinctKeys(a + b)
  {
  }

  lemma OutGrows(turns: seq<Turn>, n: nat, fields: set<string>, code: string)
    requires n < |turns|
    ensures OutOf(turns, n, fields, code) <= OutOf(turns, n + 1, fields, code)
  {
    if turns[n].code == code {
      Sampler.RunSnoc(OpsOf(turns, n, code), turns[n].op, fields);
    }
  }

  /** The samples that the (n+1)-st call emits. */
  ghost function AddedBy(turns: seq<Turn>, n: nat, fields: set<string>): seq<Sample>
    requires n < |turns|
  {
    Sampler.Step(Sampler.Run(OpsOf(turns, n, turns[n].code), fields).0, turns[n].op, fields).1
  }

  lemma OutOfTurn(turns: seq<Turn>, n: nat, fields: set<string>)
    requires n < |turns|
    ensures OutOf(turns, n + 1, fields, turns[n].code) == OutOf(turns, n, fields, turns[n].code) + AddedBy(turns, n, fields)
  {
    Sampler.RunSnoc(OpsOf(turns, n, turns[n].code), turns[n].op, fields);
  }

  lemma RowIsSample(code: string, out: seq<Sample>, added: seq<Sample>, out': seq<Sample>, i: nat)
    requires out' == out + added && i < |added|
    ensures SampleRow(code, out', |out| + i) == Row((code, added[i].second), added[i].full)
  {
    assert out'[|out| + i] == added[i];
  }

  /** The rows a call puts are those of the first samples it emits, up to a raise. */
  lemma TurnReads(turns: seq<Turn>, n: nat, fields: set<string>)
    requires n < |turns|
    ensures var added, rows, code := AddedBy(turns, n, fields), RowsOfTurn(turns, n, fields), turns[n].code;
            && |rows| == (if turns[n].enqueued < |added| then turns[n].enqueued else |added|)
            && forall i | 0 <= i < |rows| :: rows[i] == Row((code, added[i].second), added[i].full)
  {
    var code := turns[n].code;
    var out, added, out' := OutOf(turns, n, fields, code), AddedBy(turns, n, fields), OutOf(turns, n + 1, fields, code);
    OutOfTurn(turns, n, fields);
    forall i | 0 <= i < |added| {
      RowIsSample(code, out, added, out', i);
    }
  }

  /** And it is recorded for its own code only. */
  lemma TurnIsLogged(turns: seq<Turn>, n: nat, code: string)
    requires n < |turns|
    ensures OpsOf(turns, 0, code) == []
    ensures OpsOf(turns, n + 1, code) == OpsOf(turns, n, code) + (if turns[n].code == code then [turns[n].op] else [])
  {
  }

  /** A row is that of a sample its code has emitted. */
  ghost predicate Emitted(turns: seq<Turn>, n: nat, fields: set<string>, row: Row<(string, int), Metrics>)
    requires n <= |turns|
  {
    exists k | 0 <= k < |OutOf(turns, n, fields, row.key.0)| ::
      row == SampleRow(row.key.0, OutOf(turns, n, fields, row.key.0), k)
  }

  lemma EmittedStays(turns: seq<Turn>, n: nat, fields: set<string>, row: Row<(string, int), Metrics>)
    requires n < |turns| && Emitted(turns, n, fields, row)
    ensures Emitted(turns, n + 1, fields, row)
  {
    var out, out' := OutOf(turns, n, fields, row.key.0), OutOf(turns, n + 1, fields, row.key.0);
    OutGrows(turns, n, fields, row.key.0);
    var k :| 0 <= k < |out| && row == SampleRow(row.key.0, out, k);
    assert row == SampleRow(row.key.0, out', k);
  }

  /** Which sample a row of the call is of. */
  lemma RowOfTurn(turns: seq<Turn>, n: nat, fields: set<string>, i: nat) returns (k: nat)
    requires n < |turns| && i < |RowsOfTurn(turns, n, fields)|
    ensures var code := turns[n].code;
            && k == |OutOf(turns, n, fields, code)| + i && k < |OutOf(turns, n + 1, fields, code)|
            && RowsOfTurn(turns, n, fields)[i] == SampleRow(code, OutOf(turns, n + 1, fields, code), k)
  {
    OutGrows(turns, n, fields, turns[n].code);
    k := |OutOf(turns, n, fields, turns[n].code)| + i;
  }

  lemma TurnIsEmitted(turns: seq<Turn>, n: nat, fields: set<string>, i: nat)
    requires n < |turns| && i < |RowsOfTurn(turns, n, fields)|
    ensures Emitted(turns, n + 1, fields, RowsOfTurn(turns, n, fields)[i])
  {
    var k := RowOfTurn(turns, n, fields, i);
  }

  /** A row of a call is of a sample that was not emitted before it. */
  lemma TurnIsNew(turns: seq<Turn>, n: nat, fields: set<string>, row: Row<(string, int), Metrics>, i: nat)
    requires n < |turns| && i < |RowsOfTurn(turns, n, fields)| && Emitted(turns, n, fields, row)
    ensures row.key != RowsOfTurn(turns, n, fields)[i].key
  {
    var code := turns[n].code;
    var l := RowOfTurn(turns, n, fields, i);
    if row.key.0 == code {
      var out, out' := OutOf(turns, n, fields, code), OutOf(turns, n + 1, fields, code);
      OutGrows(turns, n, fields, code);
      var k :| 0 <= k < |out| && row == SampleRow(code, out, k);
      assert out'[k] == out[k];
      DifferentSeconds(OpsOf(turns, n + 1, code), fields, k, l);
    }
  }

  lemma TurnIsDistinct(turns: seq<Turn>, n: nat, fields: set<string>)
    requires n < |turns|
    ensures DistinctKeys(RowsOfTurn(turns, n, fields))
  {
    var rows := RowsOfTurn(turns, n, fields);
    forall i, j | 0 <= i < j < |rows|
      ensures rows[i].key != rows[j].key
    {
      var k := RowOfTurn(turns, n, fields, i);
      var l := RowOfTurn(turns, n, fields, j);
      DifferentSeconds(OpsOf(turns, n + 1, turns[n].code), fields, k, l);
    }
  }

  lemma {:induction false} EmittedSince(turns: seq<Turn>, m: nat, n: nat, fields: set<string>, row: Row<(string, int), Metrics>)
    requires m <= n <= |turns| && Emitted(turns, m, fields, row)
    ensures Emitted(turns, n, fields, row)
    decreases n - m
  {
    if m < n {
      EmittedStays(turns, m, fields, row);
      EmittedSince(turns, m + 1, n, fields, row);
    }
  }

  lemma TurnsDiffer(turns: seq<Turn>, m: nat, n: nat, fields: set<string>, i: nat, j: nat)
    requires m < n < |turns| && i < |RowsOfTurn(turns, m, fields)| && j < |RowsOfTurn(turns, n, fields)|
    ensures RowsOfTurn(turns, m, fields)[i].key != RowsOfTurn(turns, n, fields)[j].key
  {
    var row := RowsOfTurn(turns, m, fields)[i];
    TurnIsEmitted(turns, m, fields, i);
    EmittedSince(turns, m + 1, n, fields, row);
    TurnIsNew(turns, n, fields, row, j);
  }

  /** The queue never holds two rows with one key, whatever the codes and wherever a call was cut short. */
  lemma SharedRowsDistinct(turns: seq<Turn>, n: nat, fields: set<string>)
    requires n <= |turns|
    ensures DistinctKeys(SharedRows(turns, n, fields))
  {
    var parts := seq(n, i requires 0 <= i < n => RowsOfTurn(turns, i, fields));
    forall m | 0 <= m < n
      ensures DistinctKeys(parts[m])
    {
      TurnIsDistinct(turns, m, fields);
    }
    forall m, l, i, j | 0 <= m < l < n && 0 <= i < |parts[m]| && 0 <= j < |parts[l]|
      ensures parts[m][i].key != parts[l][j].key
    {
      TurnsDiffer(turns, m, l, fields, i, j);
    }
    JoinedDistinct(parts);
  }

  // ----- the batches that are attempted

  /** An attempted batch is a piece of the enqueued sequence. */
  ghost predicate IsPiece<T>(all: seq<T>, a: DbSink.Attempt<T>) {
    a.start + |a.batch| <= |all| && a.batch == all[a.start..a.start + |a.batch|]
  }

  ghost predicate AllPieces<T>(all: seq<T>, s: DbSink.Sink<T>) {
    forall i | 0 <= i < |s.attempts| :: IsPiece(all, s.attempts[i])
  }

  lemma FlushPiece<T>(c: DbSink.Config, s: DbSink.Sink<T>, ok: bool, i: nat)
    requires c.Valid() && i < |DbSink.Flush(c, s, ok).0.attempts|
    requires AllPieces(DbSink.Unhanded(s), s)
    ensures IsPiece(DbSink.Unhanded(s), DbSink.Flush(c, s, ok).0.attempts[i])
  {
    DbSink.AcquireConserves(c, s);
    var a := DbSink.Acquire(c, s);
    if i == |s.attempts| {
      assert DbSink.Unhanded(a)[|s.handed|..|s.handed| + |a.pending|] == a.pending;
    }
  }

  lemma {:induction false} AttemptsArePieces<T>(c: DbSink.Config, ops: seq<DbSink.Op<T>>)
    requires c.Valid()
    ensures AllPieces(DbSink.Enqueued(c, ops), DbSink.Run(c, ops))
  {
    DbSink.SinkConserves(c, ops);
    if ops != [] {
      var init, op := ops[..|ops| - 1], ops[|ops| - 1];
      AttemptsArePieces(c, init);
      DbSink.SinkConserves(c, init);
      var s := DbSink.Run(c, init);
      var all := DbSink.Enqueued(c, ops);
      match op {
        case Put(x) =>
          forall i | 0 <= i < |s.attempts|
            ensures IsPiece(all, s.attempts[i])
          {
            var a := s.attempts[i];
            assert IsPiece(DbSink.Enqueued(c, init), a);
            assert all[a.start..a.start + |a.batch|] == DbSink.Enqueued(c, init)[a.start..a.start + |a.batch|];
          }
        case FlushCall(ok) =>
          forall i | 0 <= i < |DbSink.Run(c, ops).attempts|
            ensures IsPiece(all, DbSink.Run(c, ops).attempts[i])
          {
            FlushPiece(c, s, ok, i);
          }
      }
    }
  }

  lemma PieceDistinct<K, V>(rows: seq<Row<K, V>>, lo: nat, hi: nat)
    requires lo <= hi <= |rows| && DistinctKeys(rows)
    ensures DistinctKeys(rows[lo..hi])
  {
    assert forall i | 0 <= i < hi - lo :: rows[lo..hi][i] == rows[lo + i];
  }

  /** Both writers can write the batch on the table, and leave the same one. */
  ghost predicate WritersSucceed<K, V>(t: map<K, V>, batch: seq<Row<K, V>>) {
    UpsertStatement(t, batch).Some? && UpsertStatement(t, batch) == CommitSession(WriteLoop(t, batch))
  }

  lemma PieceSucceeds<K, V>(all: seq<Row<K, V>>, a: DbSink.Attempt<Row<K, V>>, t: map<K, V>)
    requires DistinctKeys(all) && IsPiece(all, a)
    ensures WritersSucceed(t, a.batch)
  {
    PieceDistinct(all, a.start, a.start + |a.batch|);
    WritersAgree(t, a.batch);
  }

  ghost predicate AttemptsSucceed<K, V>(t: map<K, V>, s: DbSink.Sink<Row<K, V>>) {
    forall i | 0 <= i < |s.attempts| :: WritersSucceed(t, s.attempts[i].batch)
  }

  lemma PiecesSucceed<K, V>(all: seq<Row<K, V>>, s: DbSink.Sink<Row<K, V>>, t: map<K, V>)
    requires DistinctKeys(all) && AllPieces(all, s)
    ensures AttemptsSucceed(t, s)
  {
    forall i | 0 <= i < |s.attempts|
      ensures WritersSucceed(t, s.attempts[i].batch)
    {
      PieceSucceeds(all, s.attempts[i], t);
    }
  }

  lemma DistinctAttemptsSucceed<K, V>(c: DbSink.Config, ops: seq<DbSink.Op<Row<K, V>>>, t: map<K, V>)
    requires c.Valid() && DistinctKeys(DbSink.Enqueued(c, ops))
    ensures AttemptsSucceed(t, DbSink.Run(c, ops))
  {
    AttemptsArePieces(c, ops);
    PiecesSucceed(DbSink.Enqueued(c, ops), DbSink.Run(c, ops), t);
  }

  /**
    Every batch that the sink of the samples ever attempts, first time or again, can be written by both
    writers on any table, and they agree.
   */
  lemma AttemptedBatchesAgree(c: DbSink.Config, ops: seq<DbSink.Op<Row<(string, int), Metrics>>>,
                              turns: seq<Turn>, fields: set<string>, t: map<(string, int), Metrics>)
    requires c.Valid()
    ensures DbSink.Enqueued(c, ops) == SharedRows(turns, |turns|, fields) ==> AttemptsSucceed(t, DbSink.Run(c, ops))
  {
    SharedRowsDistinct(turns, |turns|, fields);
    var rows := SharedRows(turns, |turns|, fields);
    if DbSink.Enqueued(c, ops) == rows {
      DistinctAttemptsSucceed(c, ops, t);
    }
  }

  // ----- the table of samples

  lemma {:induction false} PutAppend<K, V>(t: map<K, V>, a: seq<Row<K, V>>, b: seq<Row<K, V>>)
    ensures PutAll(t, a + b) == PutAll(PutAll(t, a), b)
  {
    if b == [] {
      assert a + b == a;
    } else {
      var n := |b| - 1;
      PutAppend(t, a, b[..n]);
      assert (a + b)[..|a + b| - 1] == a + b[..n];
    }
  }

  /** The marked rows, in order. */
  ghost function Select<T>(rows: seq<T>, marks: seq<bool>): seq<T>
    requires |rows| == |marks|
  {
    if rows == [] then []
    else
      var n := |rows| - 1;
      if marks[n] then Select(rows[..n], marks[..n]) + [rows[n]] else Select(rows[..n], marks[..n])
  }

  lemma {:induction false} SelectAppend<T>(a: seq<T>, m: seq<bool>, b: seq<T>, n: seq<bool>)
    requires |a| == |m| && |b| == |n|
    ensures Select(a + b, m + n) == Select(a, m) + Select(b, n)
  {
    if b == [] {
      assert a + b == a && m + n == m;
    } else {
      var k := |b| - 1;
      SelectAppend(a, m, b[..k], n[..k]);
      assert (a + b)[..|a + b| - 1] == a + b[..k] && (m + n)[..|m + n| - 1] == m + n[..k];
    }
  }

  /** The first r of n rows marked. */
  ghost function Prefix(n: nat, r: nat): seq<bool> {
    seq(n, i => i < r)
  }

  lemma {:induction false} SelectPrefix<T>(a: seq<T>, r: nat)
    requires r <= |a|
    ensures Select(a, Prefix(|a|, r)) == a[..r]
  {
    if a != [] {
      var n := |a| - 1;
      assert Prefix(|a|, r)[..n] == Prefix(n, r);
      if r == |a| {
        assert Prefix(n, r) == Prefix(n, n);
        SelectPrefix(a[..n], n);
        assert a[..r] == a[..n] + [a[n]];
      } else {
        SelectPrefix(a[..n], r);
        assert a[..n][..r] == a[..r];
      }
    }
  }

  ghost function Marks<T>(h: seq<DbSink.Handed<T>>): seq<bool> {
    seq(|h|, i requires 0 <= i < |h| => h[i].Persisted?)
  }

  /** The rows handed to the database, in order. */
  ghost function PersistedRows<T>(h: seq<DbSink.Handed<T>>): seq<T> {
    Select(DbSink.Rows(h), Marks(h))
  }

  lemma PersistedTag<T>(h: seq<DbSink.Handed<T>>, rows: seq<T>, ok: bool)
    ensures PersistedRows(h + DbSink.Tag(rows, ok)) == PersistedRows(h) + (if ok then rows else [])
  {
    DbSink.RowsOfTag(h, rows, ok);
    var r := if ok then |rows| else 0;
    assert Marks(h + DbSink.Tag(rows, ok)) == Marks(h) + Prefix(|rows|, r);
    SelectAppend(DbSink.Rows(h), Marks(h), rows, Prefix(|rows|, r));
    SelectPrefix(rows, r);
  }

  /** The sink of the samples and its table; a batch that cannot be written raises like any other failure. */
  ghost function SampleRun<K, V>(c: DbSink.Config, t: map<K, V>, ops: seq<DbSink.Op<Row<K, V>>>)
    : (DbSink.Sink<Row<K, V>>, map<K, V>)
  {
    if ops == [] then (DbSink.Initial(), t)
    else
      var (s, table) := SampleRun(c, t, ops[..|ops| - 1]);
      match ops[|ops| - 1]
      case Put(x) => (DbSink.Enqueue(c, s, x), table)
      case FlushCall(ok) =>
        var written := UpsertStatement(table, DbSink.Acquire(c, s).pending);
        if ok && written.Some? then (DbSink.Flush(c, s, true).0, written.value)
        else (DbSink.Flush(c, s, false).0, table)
  }

  lemma {:induction false} EnqueuedGrows<T>(c: DbSink.Config, ops: seq<DbSink.Op<T>>)
    requires ops != []
    ensures DbSink.Enqueued(c, ops[..|ops| - 1]) <= DbSink.Enqueued(c, ops)
  {
  }

  /** What is pending is a piece of what was enqueued. */
  lemma PendingIsPiece<T>(c: DbSink.Config, s: DbSink.Sink<T>)
    requires c.Valid()
    ensures var a := DbSink.Acquire(c, s);
            && |s.handed| + |a.pending| <= |DbSink.Unhanded(s)|
            && a.pending == DbSink.Unhanded(s)[|s.handed|..|s.handed| + |a.pending|]
  {
    DbSink.AcquireConserves(c, s);
  }

  /** What a flush hands off: the pending batch, marked by its fate, or nothing yet. */
  lemma FlushHands<T>(c: DbSink.Config, s: DbSink.Sink<T>, ok: bool)
    ensures var a, s' := DbSink.Acquire(c, s).pending, DbSink.Flush(c, s, ok).0;
            && (s'.pending == [] ==> s'.handed == s.handed + DbSink.Tag(a, ok))
            && (s'.pending != [] ==> !ok && s'.handed == s.handed && s'.pending == a)
  {
    assert s.handed + [] == s.handed;
  }

  /** One flush of the sink of the samples. */
  lemma FlushFolds<K, V>(c: DbSink.Config, t: map<K, V>, s: DbSink.Sink<Row<K, V>>, table: map<K, V>, ok: bool)
    requires c.Valid() && DistinctKeys(DbSink.Unhanded(s)) && table == PutAll(t, PersistedRows(s.handed))
    ensures var written, s' := UpsertStatement(table, DbSink.Acquire(c, s).pending), DbSink.Flush(c, s, ok).0;
            && written.Some?
            && PutAll(t, PersistedRows(s'.handed)) == if ok then written.value else table
  {
    var a := DbSink.Acquire(c, s).pending;
    PendingIsPiece(c, s);
    PieceDistinct(DbSink.Unhanded(s), |s.handed|, |s.handed| + |a|);
    PersistedTag(s.handed, a, ok);
    PutAppend(t, PersistedRows(s.handed), a);
    FlushHands(c, s, ok);
    assert PersistedRows(s.handed) + [] == PersistedRows(s.handed);
  }

  /**
    Over every run with distinct keys, as the samples' are, the table is the persisted rows written in the
    order in which they were enqueued, for every pattern of failures.
   */
  lemma {:induction false} SampleTableIsFold<K, V>(c: DbSink.Config, t: map<K, V>, ops: seq<DbSink.Op<Row<K, V>>>)
    requires c.Valid() && DistinctKeys(DbSink.Enqueued(c, ops))
    ensures var (s, table) := SampleRun(c, t, ops);
            s == DbSink.Run(c, ops) && table == PutAll(t, PersistedRows(s.handed))
  {
    if ops != [] {
      var init, op := ops[..|ops| - 1], ops[|ops| - 1];
      EnqueuedGrows(c, ops);
      var all, some := DbSink.Enqueued(c, ops), DbSink.Enqueued(c, init);
      PieceDistinct(all, 0, |some|);
      assert all[0..|some|] == some;
      SampleTableIsFold(c, t, init);
      DbSink.SinkConserves(c, init);
      if op.FlushCall? {
        FlushFolds(c, t, DbSink.Run(c, init), SampleRun(c, t, init).1, op.ok);
      }
    }
  }

  // ----- the table of bars

  datatype StoreOp<K, V> = Offer(row: Row<K, V>) | Try(ok: bool, wrote: nat)

  /** `reach` rows of the pending batch are stored already; `marks` tells which handed-off rows are. */
  datatype Store<K, V> = Store(sink: DbSink.Sink<Row<K, V>>, table: map<K, V>, reach: nat, marks: seq<bool>)

  function Plain<K, V>(op: StoreOp<K, V>): DbSink.Op<Row<K, V>> {
    match op
    case Offer(row) => DbSink.Put(row)
    case Try(ok, _) => DbSink.FlushCall(ok)
  }

  function PlainAll<K, V>(ops: seq<StoreOp<K, V>>): seq<DbSink.Op<Row<K, V>>> {
    seq(|ops|, i requires 0 <= i < |ops| => Plain(ops[i]))
  }

  /** How far a persist call gets: to the end, or, when it raises, through the first `wrote` rows. */
  function Reached(n: nat, ok: bool, wrote: nat): nat {
    if ok || wrote > n then n else wrote
  }

  function Larger(a: nat, b: nat): nat { if a < b then b else a }

  ghost function StoreStep<K, V>(c: DbSink.Config, s: Store<K, V>, op: StoreOp<K, V>): Store<K, V> {
    match op
    case Offer(row) => s.(sink := DbSink.Enqueue(c, s.sink, row))
    case Try(ok, wrote) =>
      var a, sink := DbSink.Acquire(c, s.sink).pending, DbSink.Flush(c, s.sink, ok).0;
      var n := Reached(|a|, ok, wrote);
      var table, reach := InsertAll(s.table, a[..n]), Larger(s.reach, n);
      if sink.pending == [] then Store(sink, table, 0, s.marks + Prefix(|a|, reach))
      else Store(sink, table, reach, s.marks)
  }

  ghost function StoreRun<K, V>(c: DbSink.Config, t: map<K, V>, ops: seq<StoreOp<K, V>>): Store<K, V> {
    if ops == [] then Store(DbSink.Initial(), t, 0, []) else StoreStep(c, StoreRun(c, t, ops[..|ops| - 1]), ops[|ops| - 1])
  }

  /** Two attempts at a batch store what the one that got further stores. */
  lemma PrefixesMerge<K, V>(t: map<K, V>, rows: seq<Row<K, V>>, r: nat, n: nat)
    requires r <= |rows| && n <= |rows|
    ensures InsertAll(InsertAll(t, rows[..r]), rows[..n]) == InsertAll(t, rows[..Larger(r, n)])
  {
    if n <= r {
      assert rows[..r][..n] == rows[..n];
      StoredAlready(t, rows[..r], n);
    } else {
      assert rows[..n][..r] == rows[..r];
      RetryAfterPrefix(t, rows[..n], r);
    }
  }

  lemma StoredAlready<K, V>(t: map<K, V>, rows: seq<Row<K, V>>, n: nat)
    requires n <= |rows|
    ensures InsertAll(InsertAll(t, rows), rows[..n]) == InsertAll(t, rows)
  {
    var p := InsertAll(t, rows);
    forall i | 0 <= i < n
      ensures rows[..n][i].key in p
    {
      InsertAllKeys(t, rows, rows[i].key);
    }
    InsertStored(p, rows[..n]);
  }

  /** The table holds, inserted in the order of enqueueing, the marked rows and what is reached of the pending batch. */
  ghost predicate TableIsFold<K, V>(t: map<K, V>, s: Store<K, V>) {
    && |s.marks| == |s.sink.handed| && s.reach <= |s.sink.pending|
    && s.table == InsertAll(t, Select(DbSink.Rows(s.sink.handed), s.marks) + s.sink.pending[..s.reach])
    && forall i | 0 <= i < |s.marks| && s.sink.handed[i].Persisted? :: s.marks[i]
  }

  lemma TryKeepsFold<K, V>(c: DbSink.Config, t: map<K, V>, s: Store<K, V>, ok: bool, wrote: nat)
    requires c.Valid() && TableIsFold(t, s)
    ensures TableIsFold(t, StoreStep(c, s, Try(ok, wrote)))
  {
    var a, sink := DbSink.Acquire(c, s.sink).pending, DbSink.Flush(c, s.sink, ok).0;
    var n := Reached(|a|, ok, wrote);
    var reach, kept := Larger(s.reach, n), Select(DbSink.Rows(s.sink.handed), s.marks);
    assert s.sink.pending[..s.reach] == a[..s.reach];
    InsertAppend(t, kept, a[..s.reach]);
    PrefixesMerge(InsertAll(t, kept), a, s.reach, n);
    InsertAppend(t, kept, a[..reach]);
    FlushHands(c, s.sink, ok);
    if sink.pending == [] {
      HandedFold(s.sink.handed, s.marks, a, ok, reach);
      assert sink.pending[..0] == [];
      assert kept + a[..reach] + [] == kept + a[..reach];
    }
  }

  /** Handing off a batch of which the first rows are stored. */
  lemma HandedFold<K, V>(handed: seq<DbSink.Handed<Row<K, V>>>, marks: seq<bool>, a: seq<Row<K, V>>, ok: bool, reach: nat)
    requires |marks| == |handed| && reach <= |a|
    ensures Select(DbSink.Rows(handed + DbSink.Tag(a, ok)), marks + Prefix(|a|, reach))
         == Select(DbSink.Rows(handed), marks) + a[..reach]
  {
    DbSink.RowsOfTag(handed, a, ok);
    SelectAppend(DbSink.Rows(handed), marks, a, Prefix(|a|, reach));
    SelectPrefix(a, reach);
  }

  /**
    Over every run, with every pattern of failures and wherever a failing persist call broke off, the table
    is the fold of the stored rows in the order in which they were enqueued; every persisted row is among
    them.
   */
  lemma {:induction false} BarTableIsFold<K, V>(c: DbSink.Config, t: map<K, V>, ops: seq<StoreOp<K, V>>)
    requires c.Valid()
    ensures var s := StoreRun(c, t, ops);
            s.sink == DbSink.Run(c, PlainAll(ops)) && TableIsFold(t, s)
  {
    if ops == [] {
      assert PlainAll(ops) == [];
    } else {
      var init, op := ops[..|ops| - 1], ops[|ops| - 1];
      BarTableIsFold(c, t, init);
      assert PlainAll(ops)[..|ops| - 1] == PlainAll(init);
      if op.Try? {
        TryKeepsFold(c, t, StoreRun(c, t, init), op.ok, op.wrote);
      }
    }
  }

  /** No row is stored that was not persisted. */
  ghost predicate OnlyPersisted<K, V>(s: Store<K, V>) {
    s.marks == Marks(s.sink.handed) && s.reach == 0
  }

  lemma TryKeepsPersisted<K, V>(c: DbSink.Config, s: Store<K, V>, ok: bool, wrote: nat)
    requires OnlyPersisted(s) && (ok || wrote == 0)
    ensures OnlyPersisted(StoreStep(c, s, Try(ok, wrote)))
  {
    FlushHands(c, s.sink, ok);
    var a := DbSink.Acquire(c, s.sink).pending;
    assert Marks(s.sink.handed + DbSink.Tag(a, ok)) == Marks(s.sink.handed) + Prefix(|a|, if ok then |a| else 0);
  }

  lemma {:induction false} RunKeepsPersisted<K, V>(c: DbSink.Config, t: map<K, V>, ops: seq<StoreOp<K, V>>)
    requires forall i | 0 <= i < |ops| && ops[i].Try? && !ops[i].ok :: ops[i].wrote == 0
    ensures OnlyPersisted(StoreRun(c, t, ops))
  {
    if ops != [] {
      var init, op := ops[..|ops| - 1], ops[|ops| - 1];
      RunKeepsPersisted(c, t, init);
      if op.Try? {
        TryKeepsPersisted(c, StoreRun(c, t, init), op.ok, op.wrote);
      }
    }
  }

  /** When failing calls write nothing, the stored rows are exactly the persisted ones. */
  lemma BarTableIsPersistedRows<K, V>(c: DbSink.Config, t: map<K, V>, ops: seq<StoreOp<K, V>>)
    requires c.Valid() && forall i | 0 <= i < |ops| && ops[i].Try? && !ops[i].ok :: ops[i].wrote == 0
    ensures var s := StoreRun(c, t, ops);
            s.sink == DbSink.Run(c, PlainAll(ops)) && s.table == InsertAll(t, PersistedRows(s.sink.handed))
  {
    BarTableIsFold(c, t, ops);
    RunKeepsPersisted(c, t, ops);
    var s := StoreRun(c, t, ops);
    assert Select(DbSink.Rows(s.sink.handed), s.marks) + s.sink.pending[..0] == PersistedRows(s.sink.handed);
  }
}
