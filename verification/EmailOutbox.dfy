/**
  The email outbox protocol: rows in a table, a Redis stream of dispatched rows, a delivery log,
  and a provider that is called once per handled stream entry.  Every external call may fail;
  which ones do is a parameter of the step.
 */
module EmailOutbox {

  type Id = string

  datatype Status = Pending | Processing | Sent | Failed

  datatype Task = Task(status: Status, retryCount: nat, maxRetry: int, key: string, createdAt: int, updatedAt: int)

  type Rows = map<Id, Task>

  datatype LogEntry = LogEntry(id: Id, attempt: nat, sent: bool)

  /**
    `accepted` is the provider's own record of the mails it took; `lost` those among them whose
    acceptance never reached the table.
   */
  datatype World = World(
    rows: Rows, log: seq<LogEntry>, stream: seq<Id>, acked: set<nat>, accepted: seq<Id>, lost: seq<Id>)

  const Empty := World(map[], [], [], {}, [], [])

  /** How long a row may stay in processing, in seconds. */
  const STALE_AFTER := 60

  predicate Settled(t: Task) {
    t.status.Sent? || t.status.Failed?
  }

  // ----- the table

  function Marked(t: Task, status: Status, now: int): Task {
    t.(status := status, updatedAt := now)
  }

  function MarkedFailed(t: Task, now: int): Task {
    t.(status := Failed, retryCount := t.retryCount + 1, updatedAt := now)
  }

  function Recovered(rows: Rows, ids: seq<Id>, now: int): Rows {
    map id | id in rows :: if id in ids then Marked(rows[id], Pending, now) else rows[id]
  }

  function Claimed(rows: Rows, ids: seq<Id>, now: int): Rows {
    map id | id in rows :: if id in ids && rows[id].status.Pending? then Marked(rows[id], Processing, now) else rows[id]
  }

  /** With a cutoff, rows in processing since before it; without one, pending rows. */
  ghost predicate Wanted(rows: Rows, id: Id, cutoff: int, stale: bool) {
    id in rows && if stale then rows[id].status.Processing? && rows[id].updatedAt < cutoff else rows[id].status.Pending?
  }

  function Age(t: Task, stale: bool): int {
    if stale then t.updatedAt else t.createdAt
  }

  /** What the database may answer: the oldest wanted rows, at most `limit`, in order of age. */
  ghost predicate Answer(rows: Rows, cutoff: int, stale: bool, limit: nat, ids: seq<Id>) {
    && |ids| <= limit
    && (forall i, j | 0 <= i < j < |ids| :: ids[i] != ids[j])
    && (forall i | 0 <= i < |ids| :: Wanted(rows, ids[i], cutoff, stale))
    && (forall i, j | 0 <= i < j < |ids| :: Age(rows[ids[i]], stale) <= Age(rows[ids[j]], stale))
    && (forall id | Wanted(rows, id, cutoff, stale) && id !in ids ::
          |ids| == limit && forall i | 0 <= i < |ids| :: Age(rows[ids[i]], stale) <= Age(rows[id], stale))
  }

  // ----- dispatching

  /**
    Adding a row to the stream.  When that raises, with or without having taken effect, the row is
    marked failed, unless that raises too.
   */
  datatype Add = Added | Refused(tookEffect: bool, marked: bool)

  /** The failures of one dispatch: recovery raises, or the claim after `claims` rows does, or the adds go as listed. */
  datatype Dispatching = Dispatching(
    now: int, limit: nat, stale: seq<Id>, pending: seq<Id>, recoverOk: bool, claims: nat, adds: seq<Add>)

  datatype Pushed = Pushed(world: World, count: nat, raised: bool)

  function AddOf(d: Dispatching, i: nat): Add {
    if i < |d.adds| then d.adds[i] else Added
  }

  function PushOne(w: World, id: Id, a: Add, now: int): World {
    match a
    case Added => w.(stream := w.stream + [id])
    case Refused(tookEffect, marked) =>
      w.(stream := if tookEffect then w.stream + [id] else w.stream,
         rows := if marked && id in w.rows then w.rows[id := MarkedFailed(w.rows[id], now)] else w.rows)
  }

  /** The first n claimed rows offered to the stream; a raise stops the loop. */
  function Push(w: World, d: Dispatching, n: nat): Pushed
    requires n <= |d.pending|
  {
    if n == 0 then Pushed(w, 0, false)
    else
      var p := Push(w, d, n - 1);
      if p.raised then p
      else
        var a := AddOf(d, n - 1);
        Pushed(PushOne(p.world, d.pending[n - 1], a, d.now),
               if a.Added? then p.count + 1 else p.count,
               a.Refused? && !a.marked)
  }

  function AfterRecovery(w: World, d: Dispatching): World {
    w.(rows := Recovered(w.rows, d.stale, d.now))
  }

  function AfterClaim(w: World, d: Dispatching): World {
    var n := if d.claims < |d.pending| then d.claims else |d.pending|;
    var r := AfterRecovery(w, d);
    r.(rows := Claimed(r.rows, d.pending[..n], d.now))
  }

  function Dispatch(w: World, d: Dispatching): Pushed {
    if !d.recoverOk then Pushed(w, 0, true)
    else if d.claims < |d.pending| then Pushed(AfterClaim(w, d), 0, true)
    else Push(AfterClaim(w, d), d, |d.pending|)
  }

  /** The two queries of a dispatch got answers the database may give. */
  ghost predicate Queried(w: World, d: Dispatching) {
    && Answer(w.rows, d.now - STALE_AFTER, true, d.limit, d.stale)
    && Answer(AfterRecovery(w, d).rows, 0, false, d.limit, d.pending)
  }

  // ----- handling

  /**
    What happens while an entry is handled: the row cannot be read; the provider call raises, having
    taken the mail or not; or the provider answers, and then the update and the log append commit or raise.
   */
  datatype Outcome = Unreadable | CallRaises(taken: bool) | Answers(accepts: bool, marked: bool, logged: bool)

  datatype Verdict = IsMissing | IsSkipped | IsSent | IsFailed | Raises

  datatype Handled = Handled(world: World, verdict: Verdict)

  function Take(w: World, id: Id, marked: bool): World {
    w.(accepted := w.accepted + [id], lost := if marked then w.lost else w.lost + [id])
  }

  function Logged(w: World, e: LogEntry, ok: bool): Handled {
    if ok then Handled(w.(log := w.log + [e]), if e.sent then IsSent else IsFailed) else Handled(w, Raises)
  }

  /** Sending and what follows it; `read` is the row as it was read, which fixes the attempt number. */
  function Finish(w: World, id: Id, read: Task, now: int, o: Outcome): Handled
    requires id in w.rows && !o.Unreadable?
  {
    var t := w.rows[id];
    match o
    case CallRaises(taken) => Handled(if taken then Take(w, id, false) else w, Raises)
    case Answers(true, false, _) => Handled(Take(w, id, false), Raises)
    case Answers(true, true, logged) =>
      Logged(Take(w, id, true).(rows := w.rows[id := Marked(t, Sent, now)]), LogEntry(id, read.retryCount + 1, true), logged)
    case Answers(false, false, _) => Handled(w, Raises)
    case Answers(false, true, logged) =>
      Logged(w.(rows := w.rows[id := MarkedFailed(t, now)]), LogEntry(id, read.retryCount + 1, false), logged)
  }

  /** One message, with nothing else happening between the read and the update. */
  function Handle(w: World, id: Id, now: int, o: Outcome): Handled {
    if o.Unreadable? then Handled(w, Raises)
    else if id !in w.rows then Handled(w, IsMissing)
    else if w.rows[id].status.Sent? then Handled(w, IsSkipped)
    else Finish(w, id, w.rows[id], now, o)
  }

  /** A stream entry handed to the worker, and whether its acknowledgement gets through. */
  datatype Delivery = Delivery(entry: nat, now: int, outcome: Outcome, ackOk: bool)

  predicate Acks(w: World, x: Delivery)
    requires x.entry < |w.stream|
  {
    Handle(w, w.stream[x.entry], x.now, x.outcome).verdict != Raises && x.ackOk
  }

  function Deliver(w: World, x: Delivery): (r: World)
    requires x.entry < |w.stream|
    ensures r.stream == w.stream
  {
    var after := Handle(w, w.stream[x.entry], x.now, x.outcome).world;
    if Acks(w, x) then after.(acked := after.acked + {x.entry}) else after
  }

  /** The world after the first n of a list of deliveries. */
  function Deliveries(w: World, xs: seq<Delivery>, n: nat): (r: World)
    requires n <= |xs| && forall i | 0 <= i < |xs| :: xs[i].entry < |w.stream|
    ensures r.stream == w.stream
  {
    if n == 0 then w else Deliver(Deliveries(w, xs, n - 1), xs[n - 1])
  }

  function CountAcks(w: World, xs: seq<Delivery>, n: nat): nat
    requires n <= |xs| && forall i | 0 <= i < |xs| :: xs[i].entry < |w.stream|
  {
    if n == 0 then 0
    else CountAcks(w, xs, n - 1) + (if Acks(Deliveries(w, xs, n - 1), xs[n - 1]) then 1 else 0)
  }

  // ----- runs

  datatype Op = Create(id: Id, key: string, maxRetry: int, now: int) | Dispatches(d: Dispatching) | Delivers(x: Delivery)

  /** A new id, and a key no row has. */
  predicate Creatable(rows: Rows, id: Id, key: string) {
    id !in rows && forall other | other in rows :: rows[other].key != key
  }

  function NewTask(key: string, maxRetry: int, now: int): Task {
    Task(Pending, 0, maxRetry, key, now, now)
  }

  ghost function Step(w: World, op: Op): World {
    match op
    case Create(id, key, maxRetry, now) =>
      if Creatable(w.rows, id, key) then w.(rows := w.rows[id := NewTask(key, maxRetry, now)]) else w
    case Dispatches(d) => if Queried(w, d) then Dispatch(w, d).world else w
    case Delivers(x) => if x.entry < |w.stream| && x.entry !in w.acked then Deliver(w, x) else w
  }

  ghost function Run(w: World, ops: seq<Op>): World {
    if ops == [] then w else Step(Run(w, ops[..|ops| - 1]), ops[|ops| - 1])
  }
}
