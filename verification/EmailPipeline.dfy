/** The outbox table and the pipeline worker as the objects of the program. */
module EmailPipeline {
  import opened EmailOutbox

  class EmailOutboxRepository {
    var rows: Rows

    constructor ()
      ensures rows == map[]
    {
      rows := map[];
    }

    /** False is the duplicate error. */
    method CreateTask(id: Id, key: string, maxRetry: int, now: int) returns (ok: bool)
      requires id !in rows
      modifies this
      ensures ok <==> Creatable(old(rows), id, key)
      ensures rows == if ok then old(rows)[id := NewTask(key, maxRetry, now)] else old(rows)
    {
      if exists other | other in rows :: rows[other].key == key {
        return false;
      }
      rows := rows[id := NewTask(key, maxRetry, now)];
      ok := true;
    }

    method MarkSent(id: Id, now: int)
      modifies this
      ensures rows == if id in old(rows) then old(rows)[id := Marked(old(rows)[id], Sent, now)] else old(rows)
    {
      if id in rows {
        rows := rows[id := Marked(rows[id], Sent, now)];
      }
    }

    method MarkProcessing(id: Id, now: int) returns (claimed: bool)
      modifies this
      ensures claimed <==> id in old(rows) && old(rows)[id].status.Pending?
      ensures rows == if claimed then old(rows)[id := Marked(old(rows)[id], Processing, now)] else old(rows)
    {
      if id !in rows || !rows[id].status.Pending? {
        return false;
      }
      rows := rows[id := Marked(rows[id], Processing, now)];
      claimed := true;
    }

    method MarkFailedAndIncrementRetry(id: Id, now: int)
      modifies this
      ensures rows == if id in old(rows) then old(rows)[id := MarkedFailed(old(rows)[id], now)] else old(rows)
    {
      if id in rows {
        rows := rows[id := MarkedFailed(rows[id], now)];
      }
    }

    /** `ids` is the answer to the query; the change is committed in one piece. */
    method RecoverStaleProcessing(ids: seq<Id>, now: int) returns (recovered: nat)
      requires forall i | 0 <= i < |ids| :: ids[i] in rows
      modifies this
      ensures recovered == |ids| && rows == Recovered(old(rows), ids, now)
    {
      recovered := 0;
      var working := rows;
      while recovered < |ids|
        invariant recovered <= |ids| && working == Recovered(rows, ids[..recovered], now)
      {
        working := working[ids[recovered] := Marked(working[ids[recovered]], Pending, now)];
        recovered := recovered + 1;
      }
      assert ids[..recovered] == ids;
      rows := working;
    }

    /** Claims the rows the query answered, until `claims` of them are done. */
    method ClaimPending(ids: seq<Id>, claims: nat, now: int) returns (claimed: seq<Id>, raised: bool)
      requires forall i | 0 <= i < |ids| :: ids[i] in rows && rows[ids[i]].status.Pending?
      requires forall i, j | 0 <= i < j < |ids| :: ids[i] != ids[j]
      modifies this
      ensures raised <==> claims < |ids|
      ensures claimed == ids[..if claims < |ids| then claims else |ids|]
      ensures rows == Claimed(old(rows), claimed, now)
    {
      claimed, raised := [], false;
      var n := 0;
      while n < |ids|
        invariant n <= |ids| && n <= claims && claimed == ids[..n] && rows == Claimed(old(rows), claimed, now)
      {
        if n == claims {
          return claimed, true;
        }
        var won := MarkProcessing(ids[n], now);
        if won {
          claimed := claimed + [ids[n]];
        }
        n := n + 1;
      }
    }
  }

  class EmailPipelineWorker {
    const outbox: EmailOutboxRepository
    var log: seq<LogEntry>
    var stream: seq<Id>
    var acked: set<nat>
    ghost var accepted: seq<Id>
    ghost var lost: seq<Id>

    ghost function State(): World
      reads this, outbox
    {
      World(outbox.rows, log, stream, acked, accepted, lost)
    }

    constructor (repository: EmailOutboxRepository)
      requires repository.rows == map[]
      ensures outbox == repository && State() == Empty
    {
      outbox := repository;
      log, stream, acked, accepted, lost := [], [], {}, [], [];
    }

    /** The loop that offers the claimed rows to the stream. */
    method PushClaimed(d: Dispatching) returns (dispatched: nat, raised: bool)
      modifies this, outbox
      ensures Push(old(State()), d, |d.pending|) == Pushed(State(), dispatched, raised)
    {
      dispatched, raised := 0, false;
      for n := 0 to |d.pending|
        invariant Push(old(State()), d, n) == Pushed(State(), dispatched, false)
      {
        var id := d.pending[n];
        if AddOf(d, n).Added? {
          stream := stream + [id];
          dispatched := dispatched + 1;
        } else {
          if AddOf(d, n).tookEffect {
            stream := stream + [id];
          }
          if !AddOf(d, n).marked {
            PushStops(old(State()), d, n + 1, |d.pending|);
            return dispatched, true;
          }
          outbox.MarkFailedAndIncrementRetry(id, d.now);
        }
      }
    }

    method DispatchOnce(d: Dispatching) returns (dispatched: nat, raised: bool)
      requires Queried(State(), d)
      modifies this, outbox
      ensures Dispatch(old(State()), d) == Pushed(State(), dispatched, raised)
    {
      if !d.recoverOk {
        return 0, true;
      }
      var _ := outbox.RecoverStaleProcessing(d.stale, d.now);
      var claimed, stopped := outbox.ClaimPending(d.pending, d.claims, d.now);
      if stopped {
        return 0, true;
      }
      assert claimed == d.pending[..|d.pending|] == d.pending;
      dispatched, raised := PushClaimed(d);
    }

    method HandleMessage(id: Id, now: int, o: Outcome) returns (verdict: Verdict)
      modifies this, outbox
      ensures var h := Handle(old(State()), id, now, o);
              State() == h.world && verdict == h.verdict
      ensures stream == old(stream)
    {
      if o.Unreadable? {
        return Raises;
      }
      if id !in outbox.rows {
        return IsMissing;
      }
      var task := outbox.rows[id];
      if task.status.Sent? {
        return IsSkipped;
      }
      var attempt := task.retryCount + 1;
      if o.CallRaises? {
        if o.taken {
          accepted, lost := accepted + [id], lost + [id];
        }
        return Raises;
      }
      if o.accepts {
        accepted := accepted + [id];
        if !o.marked {
          lost := lost + [id];
          return Raises;
        }
        outbox.MarkSent(id, now);
        if !o.logged {
          return Raises;
        }
        log := log + [LogEntry(id, attempt, true)];
        return IsSent;
      }
      if !o.marked {
        return Raises;
      }
      outbox.MarkFailedAndIncrementRetry(id, now);
      if !o.logged {
        return Raises;
      }
      log := log + [LogEntry(id, attempt, false)];
      verdict := IsFailed;
    }

    method HandleEntries(xs: seq<Delivery>) returns (handled: nat)
      requires forall i | 0 <= i < |xs| :: xs[i].entry < |stream|
      modifies this, outbox
      ensures State() == Deliveries(old(State()), xs, |xs|)
      ensures handled == CountAcks(old(State()), xs, |xs|)
    {
      handled := 0;
      for n := 0 to |xs|
        invariant stream == old(stream)
        invariant State() == Deliveries(old(State()), xs, n) && handled == CountAcks(old(State()), xs, n)
      {
        var verdict := HandleMessage(stream[xs[n].entry], xs[n].now, xs[n].outcome);
        if verdict != Raises && xs[n].ackOk {
          acked := acked + {xs[n].entry};
          handled := handled + 1;
        }
      }
    }
  }

  /** Once an add has raised, the rest of the claimed rows are left as they are. */
  lemma {:induction false} PushStops(w: World, d: Dispatching, n: nat, m: nat)
    requires n <= m <= |d.pending| && Push(w, d, n).raised
    ensures Push(w, d, m) == Push(w, d, n)
  {
    if n < m {
      PushStops(w, d, n, m - 1);
    }
  }
}
