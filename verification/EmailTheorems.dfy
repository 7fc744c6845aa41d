/** What every run of the email pipeline keeps, whatever fails. */
module EmailTheorems {
  import opened EmailOutbox

  // ----- counting

  function Count(ids: seq<Id>, id: Id): nat {
    multiset(ids)[id]
  }

  /** The log entries of one task, in order. */
  function LogOf(log: seq<LogEntry>, id: Id): seq<LogEntry> {
    if log == [] then []
    else
      var n := |log| - 1;
      LogOf(log[..n], id) + (if log[n].id == id then [log[n]] else [])
  }

  lemma LogOfAppend(log: seq<LogEntry>, e: LogEntry, id: Id)
    ensures LogOf(log + [e], id) == LogOf(log, id) + (if e.id == id then [e] else [])
  {
    assert (log + [e])[..|log|] == log;
  }

  // ----- the invariant

  /**
    A task's log: attempt numbers strictly increase, none is beyond the attempts counted in the row,
    and a "sent" entry is the last one, of a row that is sent.
   */
  ghost predicate LogOk(l: seq<LogEntry>, t: Task) {
    && (forall i, j | 0 <= i < j < |l| :: l[i].attempt < l[j].attempt)
    && (forall i | 0 <= i < |l| && !l[i].sent :: 1 <= l[i].attempt <= t.retryCount)
    && (forall i | 0 <= i < |l| && l[i].sent :: i == |l| - 1 && t.status.Sent? && l[i].attempt == t.retryCount + 1)
  }

  /** The provider took a task's mail once for its row being sent, and once for each time that was lost. */
  ghost predicate TaskOk(w: World, id: Id)
    requires id in w.rows
  {
    && Count(w.accepted, id) == Count(w.lost, id) + (if w.rows[id].status.Sent? then 1 else 0)
    && LogOk(LogOf(w.log, id), w.rows[id])
  }

  ghost predicate Unknown(w: World, id: Id) {
    Count(w.accepted, id) == 0 && Count(w.lost, id) == 0 && LogOf(w.log, id) == []
  }

  ghost predicate Inv(w: World) {
    && (forall k | 0 <= k < |w.stream| :: w.stream[k] in w.rows)
    && (forall k | k in w.acked :: k < |w.stream| && Settled(w.rows[w.stream[k]]))
    && (forall id | id in w.rows :: TaskOk(w, id))
    && (forall id | id !in w.rows :: Unknown(w, id))
  }

  // ----- what a step may do to a row

  /** What dispatching may do to a row: nothing if it is settled, otherwise anything but send it. */
  ghost predicate Mild(t: Task, u: Task) {
    t == u || (!Settled(t) && !u.status.Sent? && t.retryCount <= u.retryCount)
  }

  /** One world follows another by dispatching alone. */
  ghost predicate Milder(w: World, v: World) {
    && v.rows.Keys == w.rows.Keys
    && (forall id | id in w.rows :: Mild(w.rows[id], v.rows[id]))
    && v.log == w.log && v.acked == w.acked && v.accepted == w.accepted && v.lost == w.lost
    && w.stream <= v.stream
    && (forall k | |w.stream| <= k < |v.stream| :: v.stream[k] in w.rows && !Settled(w.rows[v.stream[k]]))
  }

  lemma MilderKeepsInv(w: World, v: World)
    requires Inv(w) && Milder(w, v)
    ensures Inv(v)
  {
    forall id | id in v.rows
      ensures TaskOk(v, id)
    {
      assert TaskOk(w, id);
      assert Mild(w.rows[id], v.rows[id]);
    }
    forall id | id !in v.rows
      ensures Unknown(v, id)
    {
      assert Unknown(w, id);
    }
  }

  /** The rows offered to the stream were taken from pending to processing by this very dispatch. */
  ghost predicate Offering(w: World, v: World, d: Dispatching, n: nat)
    requires n <= |d.pending|
  {
    forall i | n <= i < |d.pending| :: d.pending[i] in v.rows && d.pending[i] in w.rows
                                       && v.rows[d.pending[i]].status.Processing?
                                       && !Settled(w.rows[d.pending[i]])
                                       && w.rows[d.pending[i]].retryCount <= v.rows[d.pending[i]].retryCount
  }

  lemma AfterClaimIsMild(w: World, d: Dispatching)
    requires Queried(w, d)
    ensures Milder(w, AfterClaim(w, d))
    ensures d.claims >= |d.pending| ==> Offering(w, AfterClaim(w, d), d, 0)
  {
    var r := AfterRecovery(w, d);
    assert Milder(w, r);
    assert r.rows.Keys == w.rows.Keys;
    forall i | 0 <= i < |d.pending|
      ensures d.pending[i] in w.rows && r.rows[d.pending[i]].status.Pending? && !Settled(w.rows[d.pending[i]])
    {
      assert Wanted(r.rows, d.pending[i], 0, false);
    }
  }

  ghost predicate Distinct(ids: seq<Id>) {
    forall i, j | 0 <= i < j < |ids| :: ids[i] != ids[j]
  }

  lemma PushOneIsMild(w: World, v: World, d: Dispatching, n: nat, a: Add)
    requires n < |d.pending| && Milder(w, v) && Offering(w, v, d, n)
    requires Distinct(d.pending)
    ensures Milder(w, PushOne(v, d.pending[n], a, d.now))
    ensures Offering(w, PushOne(v, d.pending[n], a, d.now), d, n + 1)
  {
  }

  lemma {:induction false} PushIsMild(w: World, v: World, d: Dispatching, n: nat) returns (p: Pushed)
    requires n <= |d.pending| && Milder(w, v) && Offering(w, v, d, 0)
    requires Distinct(d.pending)
    ensures p == Push(v, d, n) && Milder(w, p.world) && (!p.raised ==> Offering(w, p.world, d, n))
  {
    if n == 0 {
      p := Push(v, d, 0);
    } else {
      p := PushIsMild(w, v, d, n - 1);
      p := PushNext(w, v, d, n, p);
    }
  }

  lemma PushNext(w: World, v: World, d: Dispatching, n: nat, p: Pushed) returns (p': Pushed)
    requires 0 < n <= |d.pending| && Distinct(d.pending)
    requires p == Push(v, d, n - 1) && Milder(w, p.world) && (!p.raised ==> Offering(w, p.world, d, n - 1))
    ensures p' == Push(v, d, n) && Milder(w, p'.world) && (!p'.raised ==> Offering(w, p'.world, d, n))
  {
    p' := p;
    if !p.raised {
      PushOneIsMild(w, p.world, d, n - 1, AddOf(d, n - 1));
      p' := Push(v, d, n);
    }
  }

  /** Dispatching, however it fails, leaves settled rows alone and streams only rows that are not. */
  lemma DispatchIsMild(w: World, d: Dispatching)
    requires Queried(w, d)
    ensures Milder(w, Dispatch(w, d).world)
  {
    AfterClaimIsMild(w, d);
    if d.recoverOk && d.claims >= |d.pending| {
      var p := PushIsMild(w, AfterClaim(w, d), d, |d.pending|);
    }
  }

  // ----- what dispatching does

  lemma RecoveredRows(rows: Rows, ids: seq<Id>, now: int)
    ensures Recovered(rows, ids, now).Keys == rows.Keys
    ensures forall id | id in rows ::
              if id in ids then Recovered(rows, ids, now)[id] == rows[id].(status := Pending, updatedAt := now)
              else Recovered(rows, ids, now)[id] == rows[id]
  {
  }

  /** No call of the dispatch fails. */
  predicate Smooth(d: Dispatching) {
    d.recoverOk && d.claims >= |d.pending| && forall i | 0 <= i < |d.pending| :: AddOf(d, i).Added?
  }

  lemma {:induction false} PushAll(w: World, d: Dispatching, n: nat)
    requires Smooth(d) && n <= |d.pending|
    ensures Push(w, d, n) == Pushed(w.(stream := w.stream + d.pending[..n]), n, false)
  {
    if n == 0 {
      assert w.stream + d.pending[..0] == w.stream;
    } else {
      PushAll(w, d, n - 1);
      assert w.stream + d.pending[..n] == (w.stream + d.pending[..n - 1]) + [d.pending[n - 1]];
    }
  }

  /** A row after a smooth dispatch: claimed and in processing, recovered and pending, or untouched. */
  ghost predicate DispatchedRow(t: Task, u: Task, d: Dispatching, id: Id) {
    if id in d.pending then u == t.(status := Processing, updatedAt := d.now)
    else if id in d.stale then u == t.(status := Pending, updatedAt := d.now)
    else u == t
  }

  /**
    A dispatch without failures puts every stale row it found back to pending, claims the pending rows it
    found, those just recovered among them, and adds each of them to the stream once, in that order; it
    touches nothing else.
   */
  lemma SmoothDispatch(w: World, d: Dispatching)
    requires Queried(w, d) && Smooth(d)
    ensures var p := Dispatch(w, d);
            && !p.raised && p.count == |d.pending| && p.world.stream == w.stream + d.pending
            && p.world.rows.Keys == w.rows.Keys
            && (forall id | id in w.rows :: DispatchedRow(w.rows[id], p.world.rows[id], d, id))
            && p.world.log == w.log && p.world.acked == w.acked
            && p.world.accepted == w.accepted && p.world.lost == w.lost
  {
    PushAll(AfterClaim(w, d), d, |d.pending|);
    assert d.pending[..|d.pending|] == d.pending;
    RecoveredRows(w.rows, d.stale, d.now);
    var r := AfterRecovery(w, d);
    forall id | id in d.pending
      ensures id in r.rows && r.rows[id].status.Pending?
    {
      assert Wanted(r.rows, id, 0, false);
    }
  }

  /**
    What the two queries find: rows in processing for more than 60 seconds, least recently changed first, and
    then pending rows, oldest first; one that is left out is no older than any found, and the limit is used up.
   */
  lemma OldestAreFound(w: World, d: Dispatching)
    requires Queried(w, d)
    ensures var rows := AfterRecovery(w, d).rows;
            && |d.stale| <= d.limit && |d.pending| <= d.limit
            && (forall id | id in d.stale :: id in w.rows && w.rows[id].status.Processing? && w.rows[id].updatedAt + 60 < d.now)
            && (forall id | id in d.pending :: id in rows && rows[id].status.Pending?)
            && (forall i, j | 0 <= i < j < |d.stale| :: w.rows[d.stale[i]].updatedAt <= w.rows[d.stale[j]].updatedAt)
            && (forall i, j | 0 <= i < j < |d.pending| :: rows[d.pending[i]].createdAt <= rows[d.pending[j]].createdAt)
            && (forall id | id in rows && rows[id].status.Pending? && id !in d.pending ::
                  |d.pending| == d.limit && forall found | found in d.pending :: rows[found].createdAt <= rows[id].createdAt)
  {
    var rows := AfterRecovery(w, d).rows;
    forall id | id in d.stale
      ensures id in w.rows && w.rows[id].status.Processing? && w.rows[id].updatedAt + 60 < d.now
    {
      assert Wanted(w.rows, id, d.now - STALE_AFTER, true);
    }
    forall id | id in d.pending
      ensures id in rows && rows[id].status.Pending?
    {
      assert Wanted(rows, id, 0, false);
    }
    forall id | id in rows && rows[id].status.Pending? && id !in d.pending
      ensures |d.pending| == d.limit && forall found | found in d.pending :: rows[found].createdAt <= rows[id].createdAt
    {
      assert Wanted(rows, id, 0, false);
    }
  }

  /** The add of the i-th row raises and so does marking it failed: the dispatch ends there. */
  predicate Stops(d: Dispatching, i: nat) {
    AddOf(d, i).Refused? && !AddOf(d, i).marked
  }

  /** The rows among the first n that reached the stream, in order. */
  ghost function Streamed(d: Dispatching, n: nat): seq<Id>
    requires n <= |d.pending|
  {
    if n == 0 then []
    else
      var a := AddOf(d, n - 1);
      if a.Added? || a.tookEffect then Streamed(d, n - 1) + [d.pending[n - 1]] else Streamed(d, n - 1)
  }

  /** How many of the first n adds returned. */
  ghost function Returned(d: Dispatching, n: nat): set<nat> {
    set i | 0 <= i < n && AddOf(d, i).Added?
  }

  /** The add of this row, one of the first n, raised, and the row was marked failed. */
  ghost predicate GivenUp(d: Dispatching, n: nat, id: Id)
    requires n <= |d.pending|
  {
    exists i :: 0 <= i < n && d.pending[i] == id && AddOf(d, i).Refused? && AddOf(d, i).marked
  }

  /**
    After n adds, of which none but perhaps the last ended the dispatch: the stream has the rows whose adds
    took effect, even when they raised; rows whose adds raised are failed with one retry more; and the count
    is that of the adds that returned.
   */
  ghost predicate PushReads(v: World, d: Dispatching, n: nat, p: Pushed)
    requires n <= |d.pending|
  {
    && p.world.stream == v.stream + Streamed(d, n) && p.count == |Returned(d, n)|
    && (p.raised <==> n > 0 && Stops(d, n - 1))
    && p.world.rows.Keys == v.rows.Keys
    && (forall id {:trigger RowReads(v, d, n, p.world, id)} | id in v.rows :: RowReads(v, d, n, p.world, id))
  }

  ghost predicate RowReads(v: World, d: Dispatching, n: nat, v': World, id: Id)
    requires n <= |d.pending| && id in v.rows
  {
    && id in v'.rows
    && v'.rows[id] == if GivenUp(d, n, id)
                      then v.rows[id].(status := Failed, retryCount := v.rows[id].retryCount + 1, updatedAt := d.now)
                      else v.rows[id]
  }

  lemma {:induction false} AddsRead(v: World, d: Dispatching, n: nat)
    requires n <= |d.pending| && Distinct(d.pending) && forall i | 0 <= i < n - 1 :: !Stops(d, i)
    ensures PushReads(v, d, n, Push(v, d, n))
  {
    if n == 0 {
      assert Returned(d, 0) == {} && v.stream + [] == v.stream;
    } else {
      AddsRead(v, d, n - 1);
      AddReads(v, d, n, Push(v, d, n - 1), Push(v, d, n));
    }
  }

  lemma AddReads(v: World, d: Dispatching, n: nat, p: Pushed, p': Pushed)
    requires 0 < n <= |d.pending| && Distinct(d.pending) && PushReads(v, d, n - 1, p) && !p.raised
    requires var a := AddOf(d, n - 1);
             p' == Pushed(PushOne(p.world, d.pending[n - 1], a, d.now), if a.Added? then p.count + 1 else p.count,
                          a.Refused? && !a.marked)
    ensures PushReads(v, d, n, p')
  {
    var a := AddOf(d, n - 1);
    ReturnedNext(d, n);
    Regroup(v.stream, Streamed(d, n - 1), [d.pending[n - 1]]);
    forall id | id in v.rows
      ensures RowReads(v, d, n, p'.world, id)
    {
      assert RowReads(v, d, n - 1, p.world, id);
      GivenUpNext(d, n, id);
    }
  }

  lemma ReturnedNext(d: Dispatching, n: nat)
    requires n > 0
    ensures |Returned(d, n)| == if AddOf(d, n - 1).Added? then |Returned(d, n - 1)| + 1 else |Returned(d, n - 1)|
  {
    assert Returned(d, n) == if AddOf(d, n - 1).Added? then Returned(d, n - 1) + {n - 1} else Returned(d, n - 1);
  }

  lemma Regroup(a: seq<Id>, b: seq<Id>, c: seq<Id>)
    ensures (a + b) + c == a + (b + c)
  {
  }

  lemma GivenUpNext(d: Dispatching, n: nat, id: Id)
    requires 0 < n <= |d.pending| && Distinct(d.pending)
    ensures var a := AddOf(d, n - 1);
            GivenUp(d, n, id) <==> GivenUp(d, n - 1, id) || (id == d.pending[n - 1] && a.Refused? && a.marked)
    ensures id == d.pending[n - 1] ==> !GivenUp(d, n - 1, id)
  {
  }

  /**
    A dispatch for every pattern of failures: when recovery fails nothing has changed; when a claim fails the
    rows before it are claimed and none is streamed; otherwise the claimed rows are offered as AddsRead says,
    up to the first that ends the dispatch.
   */
  lemma DispatchReads(w: World, d: Dispatching, n: nat)
    requires Queried(w, d)
    requires n <= |d.pending| && (forall i | 0 <= i < n - 1 :: !Stops(d, i))
    requires n == |d.pending| || (n > 0 && Stops(d, n - 1))
    ensures var p := Dispatch(w, d);
            if !d.recoverOk then p == Pushed(w, 0, true)
            else if d.claims < |d.pending|
            then p.raised && p.count == 0 && p.world.stream == w.stream && p.world.rows.Keys == w.rows.Keys
                 && forall id | id in w.rows && id !in d.stale && id !in d.pending[..d.claims] :: p.world.rows[id] == w.rows[id]
            else p.raised == Push(AfterClaim(w, d), d, n).raised && PushReads(AfterClaim(w, d), d, n, p)
  {
    if d.recoverOk && d.claims >= |d.pending| {
      AddsRead(AfterClaim(w, d), d, n);
      PushEnds(AfterClaim(w, d), d, n, |d.pending|);
    }
  }

  lemma {:induction false} PushEnds(v: World, d: Dispatching, n: nat, m: nat)
    requires n <= m <= |d.pending| && (n == m || Push(v, d, n).raised)
    ensures Push(v, d, m) == Push(v, d, n)
  {
    if n < m {
      PushEnds(v, d, n, m - 1);
    }
  }

  /** The rows that a query wants. */
  ghost function AllWanted(rows: Rows, cutoff: int, stale: bool): set<Id> {
    set id | id in rows && Wanted(rows, id, cutoff, stale)
  }

  /** An answer within the limit has every wanted row. */
  lemma AnswerIsComplete(rows: Rows, cutoff: int, stale: bool, limit: nat, ids: seq<Id>, id: Id)
    requires Answer(rows, cutoff, stale, limit, ids) && Wanted(rows, id, cutoff, stale)
    requires |AllWanted(rows, cutoff, stale)| <= limit
    ensures id in ids
  {
    if id !in ids {
      var all := AllWanted(rows, cutoff, stale);
      var got := set x | x in ids;
      SizeOfDistinct(ids);
      forall x | x in got
        ensures x in all - {id}
      {
        assert Wanted(rows, x, cutoff, stale);
      }
      SubsetSize(got, all - {id});
      assert false;
    }
  }

  lemma {:induction false} SizeOfDistinct(ids: seq<Id>)
    requires Distinct(ids)
    ensures |set x | x in ids| == |ids|
  {
    if ids != [] {
      var n := |ids| - 1;
      SizeOfDistinct(ids[..n]);
      assert (set x | x in ids) == (set x | x in ids[..n]) + {ids[n]};
    }
  }

  lemma SubsetSize(a: set<Id>, b: set<Id>)
    requires a <= b
    ensures |a| <= |b|
  {
    assert b == a + (b - a);
  }

  /**
    A row stuck in processing is streamed again: by a dispatch without failures more than 60 seconds after
    its last change, if the limit leaves room for all stale rows and then for all pending ones.
   */
  lemma StuckIsStreamed(w: World, d: Dispatching, id: Id)
    requires Queried(w, d) && Smooth(d)
    requires id in w.rows && w.rows[id].status.Processing? && w.rows[id].updatedAt + 60 < d.now
    requires |AllWanted(w.rows, d.now - STALE_AFTER, true)| <= d.limit
    requires |AllWanted(AfterRecovery(w, d).rows, 0, false)| <= d.limit
    ensures var v := Dispatch(w, d).world;
            && (exists k :: |w.stream| <= k < |v.stream| && v.stream[k] == id)
            && id in v.rows && v.rows[id].status.Processing?
  {
    AnswerIsComplete(w.rows, d.now - STALE_AFTER, true, d.limit, d.stale, id);
    RecoveredRows(w.rows, d.stale, d.now);
    AnswerIsComplete(AfterRecovery(w, d).rows, 0, false, d.limit, d.pending, id);
    SmoothDispatch(w, d);
    var i :| 0 <= i < |d.pending| && d.pending[i] == id;
    assert Dispatch(w, d).world.stream[|w.stream| + i] == id;
    assert DispatchedRow(w.rows[id], Dispatch(w, d).world.rows[id], d, id);
  }

  // ----- handling

  /** The provider's answer reached the table. */
  predicate Settles(o: Outcome) {
    o.Answers? && o.marked
  }

  /** The provider took the mail. */
  predicate Takes(o: Outcome) {
    (o.CallRaises? && o.taken) || (o.Answers? && o.accepts)
  }

  /**
    One message of a row that is not sent, for every outcome: whether the provider has the mail, what
    becomes of the row, what is logged with which attempt, and the verdict.
   */
  lemma HandlingReads(w: World, id: Id, now: int, o: Outcome)
    requires id in w.rows && !w.rows[id].status.Sent?
    ensures var t, h := w.rows[id], Handle(w, id, now, o);
            var v := h.world;
            && v.stream == w.stream && v.acked == w.acked
            && v.accepted == (if Takes(o) then w.accepted + [id] else w.accepted)
            && v.lost == (if Takes(o) && !Settles(o) then w.lost + [id] else w.lost)
            && v.rows == (if !Settles(o) then w.rows
                          else if o.accepts then w.rows[id := t.(status := Sent, updatedAt := now)]
                          else w.rows[id := t.(status := Failed, retryCount := t.retryCount + 1, updatedAt := now)])
            && v.log == (if Settles(o) && o.logged then w.log + [LogEntry(id, t.retryCount + 1, o.accepts)] else w.log)
            && (h.verdict == IsSent <==> Settles(o) && o.logged && o.accepts)
            && (h.verdict == IsFailed <==> Settles(o) && o.logged && !o.accepts)
            && (h.verdict == IsSent || h.verdict == IsFailed || h.verdict == Raises)
  {
  }

  /** Which of the first n deliveries are acknowledged: their handling returned and the acknowledgement went through. */
  ghost function Flags(w: World, xs: seq<Delivery>, n: nat): (flags: seq<bool>)
    requires n <= |xs| && forall i | 0 <= i < |xs| :: xs[i].entry < |w.stream|
    ensures |flags| == n
  {
    if n == 0 then []
    else
      var x := xs[n - 1];
      var verdict := Handle(Deliveries(w, xs, n - 1), w.stream[x.entry], x.now, x.outcome).verdict;
      Flags(w, xs, n - 1) + [x.ackOk && verdict != Raises]
  }

  function CountTrue(flags: seq<bool>): nat {
    if flags == [] then 0 else CountTrue(flags[..|flags| - 1]) + (if flags[|flags| - 1] then 1 else 0)
  }

  /** The entries of the flagged deliveries. */
  function Flagged(xs: seq<Delivery>, flags: seq<bool>): set<nat>
    requires |flags| <= |xs|
  {
    if flags == [] then {}
    else
      var n := |flags| - 1;
      Flagged(xs, flags[..n]) + (if flags[n] then {xs[n].entry} else {})
  }

  lemma FlagsNext(w: World, xs: seq<Delivery>, n: nat) returns (acks: bool)
    requires 0 < n <= |xs| && forall i | 0 <= i < |xs| :: xs[i].entry < |w.stream|
    ensures Flags(w, xs, n) == Flags(w, xs, n - 1) + [acks]
    ensures CountAcks(w, xs, n) == CountAcks(w, xs, n - 1) + (if acks then 1 else 0)
    ensures Deliveries(w, xs, n).acked == Deliveries(w, xs, n - 1).acked + (if acks then {xs[n - 1].entry} else {})
  {
    var before, x := Deliveries(w, xs, n - 1), xs[n - 1];
    acks := Acks(before, x);
    DeliverAcks(before, x);
  }

  lemma FlagsSnoc(xs: seq<Delivery>, flags: seq<bool>, b: bool)
    requires |flags| < |xs|
    ensures CountTrue(flags + [b]) == CountTrue(flags) + (if b then 1 else 0)
    ensures Flagged(xs, flags + [b]) == Flagged(xs, flags) + (if b then {xs[|flags|].entry} else {})
  {
    assert (flags + [b])[..|flags|] == flags;
  }

  /** Those are counted, and exactly their entries are acknowledged. */
  lemma {:induction false} AcksRead(w: World, xs: seq<Delivery>, n: nat)
    requires n <= |xs| && forall i | 0 <= i < |xs| :: xs[i].entry < |w.stream|
    ensures CountAcks(w, xs, n) == CountTrue(Flags(w, xs, n))
    ensures Deliveries(w, xs, n).acked == w.acked + Flagged(xs, Flags(w, xs, n))
  {
    if n > 0 {
      AcksRead(w, xs, n - 1);
      var acks := FlagsNext(w, xs, n);
      FlagsSnoc(xs, Flags(w, xs, n - 1), acks);
    }
  }

  lemma DeliverAcks(w: World, x: Delivery)
    requires x.entry < |w.stream|
    ensures Deliver(w, x).acked == w.acked + (if Acks(w, x) then {x.entry} else {})
    ensures Acks(w, x) <==> x.ackOk && Handle(w, w.stream[x.entry], x.now, x.outcome).verdict != Raises
  {
  }

  /** A sent row is skipped, and a created one is pending with no retries; neither changes another row. */
  lemma OtherStepsRead(w: World, id: Id, now: int, o: Outcome, key: string, maxRetry: int)
    ensures id in w.rows && w.rows[id].status.Sent? && !o.Unreadable? ==> Handle(w, id, now, o) == Handled(w, IsSkipped)
    ensures o.Unreadable? ==> Handle(w, id, now, o) == Handled(w, Raises)
    ensures var v := Step(w, Create(id, key, maxRetry, now));
            if id !in w.rows && (forall other | other in w.rows :: w.rows[other].key != key)
            then v == w.(rows := w.rows[id := Task(Pending, 0, maxRetry, key, now, now)]) else v == w
  {
  }

  /** A change that concerns one task only. */
  ghost predicate Touches(w: World, v: World, id: Id) {
    && v.stream == w.stream && v.acked == w.acked
    && (v.rows == w.rows || (id in w.rows && id in v.rows && v.rows == w.rows[id := v.rows[id]]))
    && (v.log == w.log || exists e: LogEntry :: e.id == id && v.log == w.log + [e])
    && (v.accepted == w.accepted || v.accepted == w.accepted + [id])
    && (v.lost == w.lost || v.lost == w.lost + [id])
  }

  lemma HandleTouches(w: World, id: Id, now: int, o: Outcome)
    ensures Touches(w, Handle(w, id, now, o).world, id)
  {
    if id in w.rows {
      var yes, no := LogEntry(id, w.rows[id].retryCount + 1, true), LogEntry(id, w.rows[id].retryCount + 1, false);
      assert yes.id == id && no.id == id;
      var v := Handle(w, id, now, o).world;
      assert v.log == w.log || v.log == w.log + [yes] || v.log == w.log + [no];
    }
  }

  lemma TouchesNoOther(w: World, v: World, id: Id, other: Id)
    requires Touches(w, v, id) && other != id
    ensures (other in v.rows <==> other in w.rows) && (other in w.rows ==> v.rows[other] == w.rows[other])
    ensures Count(v.accepted, other) == Count(w.accepted, other) && Count(v.lost, other) == Count(w.lost, other)
    ensures LogOf(v.log, other) == LogOf(w.log, other)
  {
    if v.log != w.log {
      var e: LogEntry :| e.id == id && v.log == w.log + [e];
      LogOfAppend(w.log, e, other);
    }
  }

  lemma LogOkMore(l: seq<LogEntry>, t: Task, e: LogEntry, u: Task)
    requires LogOk(l, t) && !t.status.Sent? && e.attempt == t.retryCount + 1
    requires if e.sent then u.status.Sent? && u.retryCount == t.retryCount else u.retryCount == t.retryCount + 1
    ensures LogOk(l, u) && LogOk(l + [e], u)
  {
  }

  /** The provider answered and the row was updated: logged or not, its mail stays in order. */
  lemma AnswerKeepsTask(w: World, v: World, id: Id, e: LogEntry, u: Task)
    requires id in w.rows && TaskOk(w, id) && !w.rows[id].status.Sent?
    requires e == LogEntry(id, w.rows[id].retryCount + 1, e.sent)
    requires if e.sent then u.status.Sent? && u.retryCount == w.rows[id].retryCount
             else u.status.Failed? && u.retryCount == w.rows[id].retryCount + 1
    requires id in v.rows && v.rows[id] == u && (v.log == w.log || v.log == w.log + [e])
    requires v.accepted == (if e.sent then w.accepted + [id] else w.accepted) && v.lost == w.lost
    ensures TaskOk(v, id)
  {
    LogOfAppend(w.log, e, id);
    LogOkMore(LogOf(w.log, id), w.rows[id], e, u);
  }

  lemma HandleKeepsTask(w: World, id: Id, now: int, o: Outcome)
    requires id in w.rows && TaskOk(w, id)
    ensures var h := Handle(w, id, now, o);
            && id in h.world.rows && TaskOk(h.world, id)
            && h.verdict != IsMissing && (h.verdict != Raises ==> Settled(h.world.rows[id]))
            && (Settled(w.rows[id]) ==> Settled(h.world.rows[id]))
  {
    var t, h := w.rows[id], Handle(w, id, now, o);
    if t.status.Sent? {
    } else if o.Answers? && o.marked {
      var u := if o.accepts then Marked(t, Sent, now) else MarkedFailed(t, now);
      AnswerKeepsTask(w, h.world, id, LogEntry(id, t.retryCount + 1, o.accepts), u);
    } else {
      RaisingKeepsTask(w, id, now, o);
    }
  }

  /** When nothing is written the mail may still have been taken, and that acceptance is lost. */
  lemma RaisingKeepsTask(w: World, id: Id, now: int, o: Outcome)
    requires id in w.rows && TaskOk(w, id) && !w.rows[id].status.Sent? && !(o.Answers? && o.marked)
    ensures var h := Handle(w, id, now, o);
            h.world.rows == w.rows && TaskOk(h.world, id) && h.verdict == Raises
  {
    assert Handle(w, id, now, o).world.log == w.log;
  }

  lemma TouchesKeepsInv(w: World, v: World, id: Id)
    requires Inv(w) && Touches(w, v, id) && id in w.rows && TaskOk(v, id)
    requires Settled(w.rows[id]) ==> Settled(v.rows[id])
    ensures Inv(v)
  {
    forall other | other != id
      ensures other in v.rows <==> other in w.rows
      ensures other in w.rows ==> v.rows[other] == w.rows[other] && TaskOk(v, other)
      ensures other !in w.rows ==> Unknown(v, other)
    {
      TouchesNoOther(w, v, id, other);
      assert if other in w.rows then TaskOk(w, other) else Unknown(w, other);
    }
  }

  lemma AckKeepsInv(w: World, k: nat)
    requires Inv(w) && k < |w.stream| && Settled(w.rows[w.stream[k]])
    ensures Inv(w.(acked := w.acked + {k}))
  {
    var v := w.(acked := w.acked + {k});
    forall id | id in v.rows
      ensures TaskOk(v, id)
    {
      assert TaskOk(w, id);
    }
    forall id | id !in v.rows
      ensures Unknown(v, id)
    {
      assert Unknown(w, id);
    }
  }

  lemma DeliverKeepsInv(w: World, x: Delivery)
    requires Inv(w) && x.entry < |w.stream|
    ensures Inv(Deliver(w, x))
    ensures Handle(w, w.stream[x.entry], x.now, x.outcome).verdict != IsMissing
  {
    var id := w.stream[x.entry];
    var h := Handle(w, id, x.now, x.outcome);
    assert TaskOk(w, id);
    HandleKeepsTask(w, id, x.now, x.outcome);
    HandleTouches(w, id, x.now, x.outcome);
    TouchesKeepsInv(w, h.world, id);
    if Acks(w, x) {
      AckKeepsInv(h.world, x.entry);
    }
  }

  lemma CreateKeepsInv(w: World, id: Id, key: string, maxRetry: int, now: int)
    requires Inv(w) && Creatable(w.rows, id, key)
    ensures Inv(Step(w, Create(id, key, maxRetry, now)))
  {
    var v := Step(w, Create(id, key, maxRetry, now));
    assert Unknown(w, id);
    forall other | other in v.rows
      ensures TaskOk(v, other)
    {
      assert other != id ==> TaskOk(w, other);
    }
    forall other | other !in v.rows
      ensures Unknown(v, other)
    {
      assert Unknown(w, other);
    }
  }

  lemma StepKeepsInv(w: World, op: Op)
    requires Inv(w)
    ensures Inv(Step(w, op))
  {
    match op
    case Create(id, key, maxRetry, now) =>
      if Creatable(w.rows, id, key) {
        CreateKeepsInv(w, id, key, maxRetry, now);
      }
    case Dispatches(d) =>
      if Queried(w, d) {
        DispatchIsMild(w, d);
        MilderKeepsInv(w, Dispatch(w, d).world);
      }
    case Delivers(x) =>
      if x.entry < |w.stream| && x.entry !in w.acked {
        DeliverKeepsInv(w, x);
      }
  }

  /**
    Over every run and every failure pattern: every streamed id has a row, so no handling finds its row
    missing; only settled tasks are acknowledged; the provider took a task's mail exactly once for a
    sent row plus once per lost acceptance; and each task's log is in order.
   */
  lemma {:induction false} EveryRunKeepsInv(ops: seq<Op>)
    ensures Inv(Run(Empty, ops))
  {
    if ops != [] {
      EveryRunKeepsInv(ops[..|ops| - 1]);
      StepKeepsInv(Run(Empty, ops[..|ops| - 1]), ops[|ops| - 1]);
    }
  }

  lemma MissingNeverHappens(ops: seq<Op>, x: Delivery)
    requires x.entry < |Run(Empty, ops).stream|
    ensures var w := Run(Empty, ops);
            Handle(w, w.stream[x.entry], x.now, x.outcome).verdict != IsMissing
  {
    EveryRunKeepsInv(ops);
    DeliverKeepsInv(Run(Empty, ops), x);
  }
}
