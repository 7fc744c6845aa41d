/**
  How the sinks write a batch: a bulk insert with a row-by-row fallback for bars, and for
  1 Hz samples either one upsert statement or a query-then-write loop.
 */
module Persistence {
  import opened Wrappers
  import opened BidAskSampler
  import opened BidAskTheorems

  /** A row with its unique key. */
  datatype Row<K, V> = Row(key: K, value: V)

  predicate DistinctKeys<K(==), V>(rows: seq<Row<K, V>>) {
    forall i, j | 0 <= i < j < |rows| :: rows[i].key != rows[j].key
  }

  predicate AllNew<K(==), V>(t: map<K, V>, rows: seq<Row<K, V>>) {
    DistinctKeys(rows) && forall i | 0 <= i < |rows| :: rows[i].key !in t
  }

  // ----- insert with duplicate tolerance

  function InsertIfAbsent<K(==), V>(t: map<K, V>, r: Row<K, V>): map<K, V> {
    if r.key in t then t else t[r.key := r.value]
  }

  function InsertAll<K(==), V>(t: map<K, V>, rows: seq<Row<K, V>>): map<K, V> {
    if rows == [] then t else InsertIfAbsent(InsertAll(t, rows[..|rows| - 1]), rows[|rows| - 1])
  }

  function PutAll<K(==), V>(t: map<K, V>, rows: seq<Row<K, V>>): map<K, V> {
    if rows == [] then t else PutAll(t, rows[..|rows| - 1])[rows[|rows| - 1].key := rows[|rows| - 1].value]
  }

  lemma {:induction false} InsertAllKeys<K, V>(t: map<K, V>, rows: seq<Row<K, V>>, k: K)
    ensures k in InsertAll(t, rows) <==> k in t || exists i :: 0 <= i < |rows| && rows[i].key == k
  {
    if rows != [] {
      var n := |rows| - 1;
      InsertAllKeys(t, rows[..n], k);
      if exists i :: 0 <= i < |rows| && rows[i].key == k {
        var i :| 0 <= i < |rows| && rows[i].key == k;
        assert i < n ==> rows[..n][i].key == k;
      }
    }
  }

  /** When every key is new, the bulk insert is the fold of insert-if-absent. */
  lemma {:induction false} BulkIsFold<K, V>(t: map<K, V>, rows: seq<Row<K, V>>)
    requires AllNew(t, rows)
    ensures PutAll(t, rows) == InsertAll(t, rows)
  {
    if rows != [] {
      var n := |rows| - 1;
      BulkIsFold(t, rows[..n]);
      InsertAllKeys(t, rows[..n], rows[n].key);
      assert forall i | 0 <= i < n :: rows[..n][i].key == rows[i].key;
    }
  }

  lemma {:induction false} InsertKeepsStored<K, V>(t: map<K, V>, rows: seq<Row<K, V>>)
    ensures forall k | k in t :: k in InsertAll(t, rows) && InsertAll(t, rows)[k] == t[k]
  {
    if rows != [] {
      InsertKeepsStored(t, rows[..|rows| - 1]);
    }
  }

  lemma {:induction false} InsertStored<K, V>(t: map<K, V>, rows: seq<Row<K, V>>)
    requires forall i | 0 <= i < |rows| :: rows[i].key in t
    ensures InsertAll(t, rows) == t
  {
    if rows != [] {
      InsertStored(t, rows[..|rows| - 1]);
    }
  }

  lemma {:induction false} InsertAppend<K, V>(t: map<K, V>, a: seq<Row<K, V>>, b: seq<Row<K, V>>)
    ensures InsertAll(t, a + b) == InsertAll(InsertAll(t, a), b)
  {
    if b == [] {
      assert a + b == a;
    } else {
      InsertAppend(t, a, b[..|b| - 1]);
      assert (a + b)[..|a + b| - 1] == a + b[..|b| - 1];
    }
  }

  /** A retry after the first n rows went in ends where an undisturbed insert does. */
  lemma RetryAfterPrefix<K, V>(t: map<K, V>, rows: seq<Row<K, V>>, n: nat)
    requires n <= |rows|
    ensures InsertAll(InsertAll(t, rows[..n]), rows) == InsertAll(t, rows)
  {
    var p := InsertAll(t, rows[..n]);
    forall i | 0 <= i < n
      ensures rows[..n][i].key in p
    {
      InsertAllKeys(t, rows[..n], rows[i].key);
      assert rows[..n][i].key == rows[i].key;
    }
    InsertStored(p, rows[..n]);
    InsertAppend(p, rows[..n], rows[n..]);
    InsertAppend(t, rows[..n], rows[n..]);
    assert rows[..n] + rows[n..] == rows;
  }

  /**
    Bulk insert, and on a duplicate the rows one by one.  `breaks` is the number of commits
    after which the database fails with anything but a duplicate; `done` says that it did not.
   */
  method PersistWithDuplicateTolerance<K(==), V>(t: map<K, V>, rows: seq<Row<K, V>>, breaks: nat)
      returns (t': map<K, V>, done: bool)
    ensures done ==> t' == InsertAll(t, rows)
    ensures !done ==> exists n :: 0 <= n <= |rows| && t' == InsertAll(t, rows[..n])
    ensures breaks > |rows| ==> done
  {
    t', done := t, true;
    if rows == [] {
      return;
    }
    if breaks == 0 {
      assert rows[..0] == [];
      return t, false;
    }
    if AllNew(t, rows) {
      BulkIsFold(t, rows);
      return PutAll(t, rows), true;
    }
    for i := 0 to |rows|
      invariant t' == InsertAll(t, rows[..i]) && i < breaks
    {
      if breaks == i + 1 {
        done := false;
        return;
      }
      assert rows[..i + 1][..i] == rows[..i];
      if rows[i].key !in t' {
        t' := t'[rows[i].key := rows[i].value];
      }
    }
    assert rows[..|rows|] == rows;
  }

  /** Any number of broken attempts before a complete one changes nothing. */
  lemma {:induction false} AttemptsConverge<K, V>(t: map<K, V>, rows: seq<Row<K, V>>, broken: seq<nat>)
    requires forall i | 0 <= i < |broken| :: broken[i] <= |rows|
    ensures InsertAll(AfterBroken(t, rows, broken), rows) == InsertAll(t, rows)
  {
    if broken != [] {
      var n := |broken| - 1;
      AttemptsConverge(t, rows, broken[..n]);
      RetryAfterPrefix(AfterBroken(t, rows, broken[..n]), rows, broken[n]);
    }
  }

  /** The table after attempts that broke off after the given numbers of rows. */
  ghost function AfterBroken<K, V>(t: map<K, V>, rows: seq<Row<K, V>>, broken: seq<nat>): map<K, V>
    requires forall i | 0 <= i < |broken| :: broken[i] <= |rows|
  {
    if broken == [] then t
    else InsertAll(AfterBroken(t, rows, broken[..|broken| - 1]), rows[..broken[|broken| - 1]])
  }

  // ----- the two ways of writing a sample batch

  /** One `INSERT ... ON CONFLICT DO UPDATE`: it may not touch a row twice. */
  function UpsertStatement<K(==), V>(t: map<K, V>, rows: seq<Row<K, V>>): Option<map<K, V>> {
    if DistinctKeys(rows) then Some(PutAll(t, rows)) else None
  }

  /** The session of the query-then-write loop: stored rows as changed, and added rows not yet flushed. */
  datatype Session<K, V> = Session(stored: map<K, V>, added: seq<Row<K, V>>)

  ghost function WriteLoop<K, V>(t: map<K, V>, rows: seq<Row<K, V>>): Session<K, V> {
    if rows == [] then Session(t, [])
    else
      var s, r := WriteLoop(t, rows[..|rows| - 1]), rows[|rows| - 1];
      if r.key in s.stored then s.(stored := s.stored[r.key := r.value]) else s.(added := s.added + [r])
  }

  /** Committing inserts the added rows, unless two of them have one key. */
  function CommitSession<K(==), V>(s: Session<K, V>): Option<map<K, V>> {
    if DistinctKeys(s.added) then Some(PutAll(s.stored, s.added)) else None
  }

  method QueryThenWrite<K(==), V>(t: map<K, V>, rows: seq<Row<K, V>>) returns (t': Option<map<K, V>>)
    ensures t' == CommitSession(WriteLoop(t, rows))
  {
    var stored, added := t, [];
    for i := 0 to |rows|
      invariant Session(stored, added) == WriteLoop(t, rows[..i])
    {
      assert rows[..i + 1][..i] == rows[..i];
      if rows[i].key !in stored {
        added := added + [rows[i]];
        continue;
      }
      stored := stored[rows[i].key := rows[i].value];
    }
    assert rows[..|rows|] == rows;
    t' := CommitSession(Session(stored, added));
  }

  /** The rows of a batch whose key is not stored. */
  ghost function Absent<K, V>(t: map<K, V>, rows: seq<Row<K, V>>): seq<Row<K, V>> {
    if rows == [] then []
    else
      var a, r := Absent(t, rows[..|rows| - 1]), rows[|rows| - 1];
      if r.key in t then a else a + [r]
  }

  lemma {:induction false} LoopAdds<K, V>(t: map<K, V>, rows: seq<Row<K, V>>)
    ensures WriteLoop(t, rows).added == Absent(t, rows) && WriteLoop(t, rows).stored.Keys == t.Keys
  {
    if rows != [] {
      LoopAdds(t, rows[..|rows| - 1]);
    }
  }

  ghost function LastValue<K, V>(rows: seq<Row<K, V>>, k: K): Option<V> {
    if rows == [] then None
    else if rows[|rows| - 1].key == k then Some(rows[|rows| - 1].value)
    else LastValue(rows[..|rows| - 1], k)
  }

  ghost function Lookup<K, V>(t: map<K, V>, k: K): Option<V> {
    if k in t then Some(t[k]) else None
  }

  lemma {:induction false} PutAllAt<K, V>(t: map<K, V>, rows: seq<Row<K, V>>, k: K)
    ensures Lookup(PutAll(t, rows), k) == if LastValue(rows, k).Some? then LastValue(rows, k) else Lookup(t, k)
  {
    if rows != [] {
      PutAllAt(t, rows[..|rows| - 1], k);
    }
  }

  lemma {:induction false} LoopAt<K, V>(t: map<K, V>, rows: seq<Row<K, V>>, k: K)
    ensures var s := WriteLoop(t, rows);
            if k in t then
              && LastValue(s.added, k) == None
              && Lookup(s.stored, k) == (if LastValue(rows, k).Some? then LastValue(rows, k) else Lookup(t, k))
            else k !in s.stored && LastValue(s.added, k) == LastValue(rows, k)
  {
    if rows != [] {
      var init, r := rows[..|rows| - 1], rows[|rows| - 1];
      LoopAt(t, init, k);
      LoopAdds(t, init);
      var s := WriteLoop(t, init);
      assert (s.added + [r])[..|s.added|] == s.added;
    }
  }

  lemma SameMap<K, V>(a: map<K, V>, b: map<K, V>)
    requires forall k :: Lookup(a, k) == Lookup(b, k)
    ensures a == b
  {
    forall k
      ensures (k in a <==> k in b) && (k in a ==> a[k] == b[k])
    {
      assert Lookup(a, k) == Lookup(b, k);
    }
  }

  /** Whenever the loop commits, it leaves what writing the rows in order would. */
  lemma LoopWritesInOrder<K, V>(t: map<K, V>, rows: seq<Row<K, V>>)
    ensures var r := CommitSession(WriteLoop(t, rows));
            && (r.Some? <==> DistinctKeys(Absent(t, rows)))
            && (r.Some? ==> r.value == PutAll(t, rows))
  {
    LoopAdds(t, rows);
    var s := WriteLoop(t, rows);
    var a, b := PutAll(s.stored, s.added), PutAll(t, rows);
    forall k
      ensures Lookup(a, k) == Lookup(b, k)
    {
      PutAllAt(s.stored, s.added, k);
      PutAllAt(t, rows, k);
      LoopAt(t, rows, k);
    }
    SameMap(a, b);
  }

  lemma {:induction false} AbsentDistinct<K, V>(t: map<K, V>, rows: seq<Row<K, V>>)
    requires DistinctKeys(rows)
    ensures DistinctKeys(Absent(t, rows))
    ensures forall r | r in Absent(t, rows) :: r in rows
  {
    if rows != [] {
      var n := |rows| - 1;
      AbsentDistinct(t, rows[..n]);
      var a := Absent(t, rows[..n]);
      forall i | 0 <= i < |a|
        ensures a[i].key != rows[n].key
      {
        assert a[i] in rows[..n];
        var j :| 0 <= j < n && rows[..n][j] == a[i];
        assert rows[j] == a[i];
      }
    }
  }

  /**
    The two writers agree exactly when the batch has distinct keys, or repeats a key that is
    not stored: in the first case both succeed with one table, in the second both fail.
    With a repeated key whose every repetition is stored, only the loop succeeds.
   */
  lemma WritersAgree<K, V>(t: map<K, V>, rows: seq<Row<K, V>>)
    ensures UpsertStatement(t, rows) == CommitSession(WriteLoop(t, rows))
            <==> DistinctKeys(rows) || !DistinctKeys(Absent(t, rows))
  {
    LoopWritesInOrder(t, rows);
    if DistinctKeys(rows) {
      AbsentDistinct(t, rows);
    }
  }

  // ----- the 1 Hz rows

  /** A history of calls for each code; a pick names a code and one of the samples it emitted. */
  ghost predicate Picks(histories: map<string, seq<Op>>, fields: set<string>, picks: seq<(string, nat)>) {
    forall i | 0 <= i < |picks| ::
      picks[i].0 in histories && picks[i].1 < |Run(histories[picks[i].0], fields).1|
  }

  /** The database row of the k-th of a code's samples, keyed by (code, second). */
  ghost function SampleRow(code: string, out: seq<Sample>, k: nat): Row<(string, int), Metrics>
    requires k < |out|
  {
    Row((code, out[k].second), out[k].full)
  }

  ghost function SampleRows(histories: map<string, seq<Op>>, fields: set<string>, picks: seq<(string, nat)>)
    : seq<Row<(string, int), Metrics>>
    requires Picks(histories, fields, picks)
  {
    seq(|picks|, i requires 0 <= i < |picks| => SampleRow(picks[i].0, Run(histories[picks[i].0], fields).1, picks[i].1))
  }

  lemma DifferentSeconds(ops: seq<Op>, fields: set<string>, k: nat, l: nat)
    requires k < |Run(ops, fields).1| && l < |Run(ops, fields).1| && k != l
    ensures Run(ops, fields).1[k].second != Run(ops, fields).1[l].second
  {
    SecondsAreDistinct(ops, fields);
  }

  /**
    No code's sampler emits a second twice, so for any batch of different samples, of any codes and in any
    order, both writers succeed and leave the same table.
   */
  lemma EmittedBatchesAgree(histories: map<string, seq<Op>>, fields: set<string>, picks: seq<(string, nat)>,
                            t: map<(string, int), Metrics>)
    requires Picks(histories, fields, picks) && forall i, j | 0 <= i < j < |picks| :: picks[i] != picks[j]
    ensures var batch := SampleRows(histories, fields, picks);
            && UpsertStatement(t, batch).Some?
            && UpsertStatement(t, batch) == CommitSession(WriteLoop(t, batch))
  {
    var batch := SampleRows(histories, fields, picks);
    forall i, j | 0 <= i < j < |batch|
      ensures batch[i].key != batch[j].key
    {
      if picks[i].0 == picks[j].0 {
        DifferentSeconds(histories[picks[i].0], fields, picks[i].1, picks[j].1);
      }
    }
    WritersAgree(t, batch);
  }
}
