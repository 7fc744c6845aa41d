/** What the invariant of the email pipeline means for a single mail. */
module EmailGuarantees {
  import opened Wrappers
  import opened EmailOutbox
  import opened EmailTheorems

  // ----- finished tasks

  /** No entry of a finished task can lead to another send: it is sent, or failed with every entry acknowledged. */
  ghost predicate Finished(w: World, id: Id) {
    && id in w.rows
    && (w.rows[id].status.Sent? ||
        (w.rows[id].status.Failed? && forall k | 0 <= k < |w.stream| && w.stream[k] == id :: k in w.acked))
  }

  ghost predicate Frozen(w: World, v: World, id: Id) {
    && id in w.rows && id in v.rows && v.rows[id] == w.rows[id]
    && Count(v.accepted, id) == Count(w.accepted, id) && Count(v.lost, id) == Count(w.lost, id)
    && LogOf(v.log, id) == LogOf(w.log, id)
  }

  lemma FinishedUnderDispatch(w: World, v: World, id: Id)
    requires Inv(w) && Finished(w, id) && Milder(w, v)
    ensures Frozen(w, v, id) && Finished(v, id)
  {
    assert Mild(w.rows[id], v.rows[id]);
    forall k | 0 <= k < |v.stream| && v.stream[k] == id && !w.rows[id].status.Sent?
      ensures k in v.acked
    {
      assert k < |w.stream|;
    }
  }

  lemma FinishedUnderDelivery(w: World, x: Delivery, id: Id)
    requires Finished(w, id) && x.entry < |w.stream| && x.entry !in w.acked
    ensures Frozen(w, Deliver(w, x), id) && Finished(Deliver(w, x), id)
  {
    var streamed := w.stream[x.entry];
    var v := Handle(w, streamed, x.now, x.outcome).world;
    if streamed == id {
      assert v == w;
    } else {
      HandleTouches(w, streamed, x.now, x.outcome);
      TouchesNoOther(w, v, streamed, id);
    }
  }

  lemma FinishedStep(w: World, op: Op, id: Id)
    requires Inv(w) && Finished(w, id)
    ensures Frozen(w, Step(w, op), id) && Finished(Step(w, op), id)
  {
    match op
    case Create(_, _, _, _) =>
    case Dispatches(d) =>
      if Queried(w, d) {
        DispatchIsMild(w, d);
        FinishedUnderDispatch(w, Dispatch(w, d).world, id);
      }
    case Delivers(x) =>
      if x.entry < |w.stream| && x.entry !in w.acked {
        FinishedUnderDelivery(w, x, id);
      }
  }

  lemma {:induction false} FinishedForGood(w: World, ops: seq<Op>, id: Id)
    requires Inv(w) && Finished(w, id)
    ensures Inv(Run(w, ops)) && Frozen(w, Run(w, ops), id) && Finished(Run(w, ops), id)
  {
    if ops != [] {
      var before := ops[..|ops| - 1];
      FinishedForGood(w, before, id);
      FinishedStep(Run(w, before), ops[|ops| - 1], id);
      StepKeepsInv(Run(w, before), ops[|ops| - 1]);
    }
  }

  /** In every later state a sent task is sent, and the provider has not been given its mail again. */
  lemma SentStaysSent(ops: seq<Op>, more: seq<Op>, id: Id)
    requires id in Run(Empty, ops).rows && Run(Empty, ops).rows[id].status.Sent?
    ensures var w := Run(Empty, ops);
            var v := Run(w, more);
            && id in v.rows && v.rows[id].status.Sent? && Count(v.accepted, id) == Count(w.accepted, id)
            && LogOf(v.log, id) == LogOf(w.log, id)
  {
    EveryRunKeepsInv(ops);
    FinishedForGood(Run(Empty, ops), more, id);
  }

  /** The run that hands entry k over once more, and the provider takes the mail. */
  function Again(k: nat, now: int): seq<Op> {
    [Delivers(Delivery(k, now, Answers(true, true, true), true))]
  }

  lemma RunOne(w: World, op: Op)
    ensures Run(w, [op]) == Step(w, op)
  {
    assert [op][..0] == [];
  }

  /** That delivery, of a mail that is not sent: the provider takes it, and its row is sent. */
  lemma AgainSends(w: World, k: nat, now: int)
    requires k < |w.stream| && k !in w.acked && w.stream[k] in w.rows && !w.rows[w.stream[k]].status.Sent?
    ensures var id, v := w.stream[k], Run(w, Again(k, now));
            id in v.rows && v.rows[id].status.Sent? && Count(v.accepted, id) == Count(w.accepted, id) + 1
  {
    RunOne(w, Again(k, now)[0]);
  }

  lemma NotFrozen(w: World, id: Id, k: nat)
    requires id in w.rows && w.rows[id].status.Failed? && k < |w.stream| && w.stream[k] == id && k !in w.acked
    ensures !Frozen(w, Run(w, Again(k, 0)), id)
  {
    AgainSends(w, k, 0);
  }

  /**
    A failed task can still change exactly when one of its entries is unacknowledged.  A rejected mail
    whose entry was acknowledged is therefore never tried again, whatever its `max_retry`.
   */
  lemma FailedIsFinal(w: World, id: Id)
    requires Inv(w) && id in w.rows && w.rows[id].status.Failed?
    ensures (forall k | 0 <= k < |w.stream| && w.stream[k] == id :: k in w.acked)
       <==> (forall ops :: Frozen(w, Run(w, ops), id))
  {
    if k: nat :| k < |w.stream| && w.stream[k] == id && k !in w.acked {
      NotFrozen(w, id, k);
    } else {
      forall ops
        ensures Frozen(w, Run(w, ops), id)
      {
        FinishedForGood(w, ops, id);
      }
    }
  }

  // ----- at most once

  /** No acceptance is lost: the call does not raise after the mail was taken, and the update commits. */
  predicate KeepsAcceptance(op: Op) {
    op.Delivers? ==> match op.x.outcome
                     case Unreadable => true
                     case CallRaises(taken) => !taken
                     case Answers(accepts, marked, _) => accepts ==> marked
  }

  lemma {:induction false} NothingLost(ops: seq<Op>)
    requires forall i | 0 <= i < |ops| :: KeepsAcceptance(ops[i])
    ensures Run(Empty, ops).lost == []
  {
    if ops != [] {
      var before, op := Run(Empty, ops[..|ops| - 1]), ops[|ops| - 1];
      NothingLost(ops[..|ops| - 1]);
      if op.Dispatches? && Queried(before, op.d) {
        DispatchIsMild(before, op.d);
      }
      assert KeepsAcceptance(op);
    }
  }

  /** While no acceptance is lost, the provider takes a mail once if its row is sent, and otherwise never. */
  lemma AcceptedAtMostOnce(ops: seq<Op>, id: Id)
    requires forall i | 0 <= i < |ops| :: KeepsAcceptance(ops[i])
    ensures var w := Run(Empty, ops);
            Count(w.accepted, id) == if id in w.rows && w.rows[id].status.Sent? then 1 else 0
  {
    EveryRunKeepsInv(ops);
    NothingLost(ops);
    var w := Run(Empty, ops);
    assert if id in w.rows then TaskOk(w, id) else Unknown(w, id);
  }

  /** An acceptance that is lost leaves the entry pending and the row as it was; the next delivery sends again. */
  lemma LostAcceptanceIsRepeated(w: World, x: Delivery, now: int)
    requires Inv(w) && x.entry < |w.stream| && x.entry !in w.acked
    requires !w.rows[w.stream[x.entry]].status.Sent? && !KeepsAcceptance(Delivers(x))
    ensures var id, v := w.stream[x.entry], Run(Step(w, Delivers(x)), Again(x.entry, now));
            Count(v.accepted, id) == Count(w.accepted, id) + 2
  {
    LosesAcceptance(w, x);
    AgainSends(Step(w, Delivers(x)), x.entry, now);
  }

  lemma LosesAcceptance(w: World, x: Delivery)
    requires Inv(w) && x.entry < |w.stream| && x.entry !in w.acked
    requires !w.rows[w.stream[x.entry]].status.Sent? && !KeepsAcceptance(Delivers(x))
    ensures var id, v := w.stream[x.entry], Step(w, Delivers(x));
            && v.stream == w.stream && v.acked == w.acked && v.rows == w.rows
            && Count(v.accepted, id) == Count(w.accepted, id) + 1
  {
  }

  // ----- the log and the acknowledgements

  /** A task's log has strictly increasing attempt numbers, and a "sent" entry is last and belongs to a sent row. */
  lemma LogInOrder(ops: seq<Op>, id: Id)
    ensures var w := Run(Empty, ops);
            var l := LogOf(w.log, id);
            && (forall i, j | 0 <= i < j < |l| :: l[i].attempt < l[j].attempt)
            && (forall i | 0 <= i < |l| && l[i].sent :: i == |l| - 1 && id in w.rows && w.rows[id].status.Sent?)
  {
    EveryRunKeepsInv(ops);
    var w := Run(Empty, ops);
    assert if id in w.rows then TaskOk(w, id) else Unknown(w, id);
  }

  /** Only entries of tasks that are sent or failed are acknowledged. */
  lemma AcknowledgedIsSettled(ops: seq<Op>, k: nat)
    requires k in Run(Empty, ops).acked
    ensures var w := Run(Empty, ops);
            k < |w.stream| && w.stream[k] in w.rows && Settled(w.rows[w.stream[k]])
  {
    EveryRunKeepsInv(ops);
  }

  // ----- retries are not limited

  lemma RunAppend(w: World, ops: seq<Op>, op: Op)
    ensures Run(w, ops + [op]) == Step(Run(w, ops), op)
  {
    assert (ops + [op])[..|ops|] == ops;
  }

  const First := "a"

  const FirstDispatch := Dispatching(0, 1, [], [First], true, 1, [])

  /** The world once the first task was created. */
  ghost function Created(maxRetry: int): World {
    Empty.(rows := map[First := NewTask(First, maxRetry, 0)])
  }

  lemma FirstIsQueried(maxRetry: int)
    ensures Queried(Created(maxRetry), FirstDispatch)
    ensures AfterRecovery(Created(maxRetry), FirstDispatch) == Created(maxRetry)
  {
    var w := Created(maxRetry);
    assert AfterRecovery(w, FirstDispatch).rows == w.rows;
    assert Answer(w.rows, 0 - STALE_AFTER, true, 1, []);
    assert Wanted(w.rows, First, 0, false);
    assert Answer(w.rows, 0, false, 1, [First]);
  }

  lemma FirstIsDispatched(maxRetry: int)
    ensures Step(Created(maxRetry), Dispatches(FirstDispatch)) ==
            Empty.(rows := map[First := Task(Processing, 0, maxRetry, First, 0, 0)], stream := [First])
  {
    FirstIsQueried(maxRetry);
    var w, d := Created(maxRetry), FirstDispatch;
    assert d.pending[..1] == [First];
    var c := AfterClaim(w, d);
    assert c.rows == map[First := Task(Processing, 0, maxRetry, First, 0, 0)];
    assert Push(c, d, 0).world == c;
    assert Push(c, d, 1).world == c.(stream := c.stream + [First]);
  }

  lemma FirstIsStreamed(maxRetry: int) returns (ops: seq<Op>)
    ensures var w := Run(Empty, ops);
            && w.stream == [First] && w.acked == {} && First in w.rows
            && w.rows[First] == Task(Processing, 0, maxRetry, First, 0, 0)
  {
    var create, dispatch := Create(First, First, maxRetry, 0), Dispatches(FirstDispatch);
    RunOne(Empty, create);
    assert Step(Empty, create) == Created(maxRetry);
    RunAppend(Empty, [create], dispatch);
    FirstIsDispatched(maxRetry);
    ops := [create] + [dispatch];
  }

  /** Whatever `max_retry` says, the same mail can be rejected, and then tried again, any number of times. */
  lemma {:induction false} RetriesAreUnlimited(maxRetry: int, n: nat) returns (ops: seq<Op>)
    ensures var w := Run(Empty, ops);
            && w.stream == [First] && w.acked == {}
            && First in w.rows && w.rows[First].retryCount == n && w.rows[First].maxRetry == maxRetry
            && !w.rows[First].status.Sent?
  {
    if n == 0 {
      ops := FirstIsStreamed(maxRetry);
    } else {
      var fewer := RetriesAreUnlimited(maxRetry, n - 1);
      var op := Delivers(Delivery(0, 0, Answers(false, true, true), false));
      RunAppend(Empty, fewer, op);
      ops := fewer + [op];
    }
  }

  // ----- handlings that overlap

  /** A handling that read its row earlier: the row as read, and how the calls that followed went. */
  datatype Overlapping = Overlapping(read: Task, now: int, outcome: Outcome)

  /** Handlings of one row that had all read it before, in the order in which they update it. */
  ghost function FinishAll(w: World, id: Id, hs: seq<Overlapping>): (v: World)
    requires id in w.rows && forall i | 0 <= i < |hs| :: !hs[i].outcome.Unreadable?
    ensures id in v.rows
  {
    if hs == [] then w
    else
      var h := hs[|hs| - 1];
      Finish(FinishAll(w, id, hs[..|hs| - 1]), id, h.read, h.now, h.outcome).world
  }

  /** The status that a handling's update leaves, if it commits one. */
  function Leaves(o: Outcome): Option<Status> {
    if o.Answers? && o.marked then Some(if o.accepts then Sent else Failed) else None
  }

  /** The i-th handling is the last to update the row. */
  ghost predicate LastUpdate(hs: seq<Overlapping>, i: nat)
    requires i < |hs|
  {
    Leaves(hs[i].outcome).Some? && forall j | i < j < |hs| :: Leaves(hs[j].outcome).None?
  }

  /** How many of the handlings had their mail taken by the provider. */
  function Taken(hs: seq<Overlapping>): nat {
    if hs == [] then 0
    else
      var o := hs[|hs| - 1].outcome;
      Taken(hs[..|hs| - 1]) + (if (o.CallRaises? && o.taken) || (o.Answers? && o.accepts) then 1 else 0)
  }

  lemma LastUpdateMore(hs: seq<Overlapping>, i: nat)
    requires 0 < |hs| && i < |hs| - 1
    ensures LastUpdate(hs, i) <==> LastUpdate(hs[..|hs| - 1], i) && Leaves(hs[|hs| - 1].outcome).None?
  {
    assert forall j | i < j < |hs| - 1 :: hs[..|hs| - 1][j] == hs[j];
  }

  /** Unless no handling updates the row, one of them is the last to do so. */
  lemma {:induction false} SomeLastUpdate(hs: seq<Overlapping>)
    ensures (exists i | 0 <= i < |hs| :: LastUpdate(hs, i)) <==> exists i | 0 <= i < |hs| :: Leaves(hs[i].outcome).Some?
  {
    if hs != [] {
      var n := |hs| - 1;
      SomeLastUpdate(hs[..n]);
      if Leaves(hs[n].outcome).Some? {
        assert LastUpdate(hs, n);
      } else if i :| 0 <= i < n && Leaves(hs[i].outcome).Some? {
        assert Leaves(hs[..n][i].outcome).Some?;
        var l :| 0 <= l < n && LastUpdate(hs[..n], l);
        LastUpdateMore(hs, l);
      }
    }
  }

  /**
    However many handlings of a row overlap, and whatever their outcomes and order: the last committed
    update alone decides the status, so the row ends as sent if and only if that update follows an
    acceptance, or there is none and it was sent before; and the provider takes the mail once for every
    one of them that reached it.
   */
  lemma {:induction false} LastUpdateDecides(w: World, id: Id, hs: seq<Overlapping>)
    requires id in w.rows && forall i | 0 <= i < |hs| :: !hs[i].outcome.Unreadable?
    ensures var v := FinishAll(w, id, hs);
            && Decided(w.rows[id].status, v.rows[id].status, hs)
            && Count(v.accepted, id) == Count(w.accepted, id) + Taken(hs)
  {
    if hs != [] {
      var n := |hs| - 1;
      var init, h := hs[..n], hs[n];
      assert hs == init + [h];
      LastUpdateDecides(w, id, init);
      var v := FinishAll(w, id, init);
      FinishLeaves(v, id, h);
      DecidedMore(w.rows[id].status, v.rows[id].status, init, h, FinishAll(w, id, hs).rows[id].status);
    }
  }

  /** From status `before`, handlings end with status `after`: that of the last update, if there is one. */
  ghost predicate Decided(before: Status, after: Status, hs: seq<Overlapping>) {
    && (forall i | 0 <= i < |hs| && LastUpdate(hs, i) :: Leaves(hs[i].outcome) == Some(after))
    && ((forall i | 0 <= i < |hs| :: Leaves(hs[i].outcome).None?) ==> after == before)
  }

  lemma DecidedMore(before: Status, mid: Status, hs: seq<Overlapping>, h: Overlapping, after: Status)
    requires Decided(before, mid, hs)
    requires if Leaves(h.outcome).None? then after == mid else Leaves(h.outcome) == Some(after)
    ensures Decided(before, after, hs + [h])
  {
    var all := hs + [h];
    assert all[..|hs|] == hs && forall i | 0 <= i < |hs| :: all[i] == hs[i];
    forall i | 0 <= i < |all| && LastUpdate(all, i)
      ensures Leaves(all[i].outcome) == Some(after)
    {
      if i < |hs| {
        LastUpdateMore(all, i);
      }
    }
    assert all[|hs|] == h;
  }

  lemma FinishLeaves(w: World, id: Id, h: Overlapping)
    requires id in w.rows && !h.outcome.Unreadable?
    ensures var v := Finish(w, id, h.read, h.now, h.outcome).world;
            && id in v.rows
            && (if Leaves(h.outcome).None? then v.rows[id].status == w.rows[id].status
                else Leaves(h.outcome) == Some(v.rows[id].status))
            && Count(v.accepted, id) == Count(w.accepted, id) + Taken([h])
  {
    assert [h][..0] == [];
  }

  /** Exactly when two overlapping handlings undo a sent status: the second rejection is marked after the first acceptance. */
  lemma OverlapUndoesSent(w: World, id: Id, a: Overlapping, b: Overlapping)
    requires id in w.rows && !w.rows[id].status.Sent? && !a.outcome.Unreadable? && !b.outcome.Unreadable?
    ensures FinishAll(w, id, [a]).rows[id].status.Sent? && !FinishAll(w, id, [a, b]).rows[id].status.Sent?
       <==> Leaves(a.outcome) == Some(Sent) && Leaves(b.outcome) == Some(Failed)
    ensures FinishAll(w, id, [a, b]).rows[id].status.Sent?
       <==> Leaves(b.outcome) == Some(Sent) || (Leaves(a.outcome) == Some(Sent) && Leaves(b.outcome).None?)
  {
    OverlapOne(w, id, a);
    OverlapTwo(w, id, a, b);
  }

  lemma OverlapTwo(w: World, id: Id, a: Overlapping, b: Overlapping)
    requires id in w.rows && !a.outcome.Unreadable? && !b.outcome.Unreadable?
    ensures FinishAll(w, id, [a, b]).rows[id].status ==
            if Leaves(b.outcome).Some? then Leaves(b.outcome).value else FinishAll(w, id, [a]).rows[id].status
  {
    FinishNext(w, id, [a], b);
    assert [a] + [b] == [a, b];
    FinishLeaves(FinishAll(w, id, [a]), id, b);
  }

  lemma FinishNext(w: World, id: Id, hs: seq<Overlapping>, h: Overlapping)
    requires id in w.rows && !h.outcome.Unreadable? && forall i | 0 <= i < |hs| :: !hs[i].outcome.Unreadable?
    ensures FinishAll(w, id, hs + [h]) == Finish(FinishAll(w, id, hs), id, h.read, h.now, h.outcome).world
  {
    assert (hs + [h])[..|hs|] == hs;
  }

  lemma OverlapOne(w: World, id: Id, a: Overlapping)
    requires id in w.rows && !a.outcome.Unreadable?
    ensures FinishAll(w, id, [a]).rows[id].status ==
            if Leaves(a.outcome).Some? then Leaves(a.outcome).value else w.rows[id].status
  {
    assert [a][..0] == [];
    FinishLeaves(w, id, a);
  }
}
