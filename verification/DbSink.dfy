/**
  The database sinks of the stream worker: a bounded queue, one pending batch that is
  retried, and a dead-letter stream for batches whose retries are used up.
 */
module DbSink {
  datatype Handed<T> = Persisted(row: T) | DeadLettered(row: T)

  /** One call of the persist function: where its batch starts in the enqueued sequence. */
  datatype Attempt<T> = Attempt(start: nat, batch: seq<T>, ok: bool)

  datatype Sink<T> = Sink(
    queue: seq<T>, pending: seq<T>, retries: nat,
    handed: seq<Handed<T>>, attempts: seq<Attempt<T>>)

  datatype Config = Config(batchSize: nat, maxRetries: nat, queueMax: nat) {
    ghost predicate Valid() {
      batchSize >= 1 && maxRetries >= 1
    }
  }

  datatype Flushed = Count(rows: nat) | Raised

  function Initial<T>(): Sink<T> {
    Sink([], [], 0, [], [])
  }

  /** asyncio queues are unbounded when their size is 0. */
  predicate Full<T>(c: Config, s: Sink<T>) {
    c.queueMax > 0 && |s.queue| >= c.queueMax
  }

  function Enqueue<T>(c: Config, s: Sink<T>, x: T): Sink<T> {
    if Full(c, s) then s else s.(queue := s.queue + [x])
  }

  function Acquire<T>(c: Config, s: Sink<T>): Sink<T> {
    if s.pending != [] then s
    else
      var n := if |s.queue| < c.batchSize then |s.queue| else c.batchSize;
      s.(pending := s.queue[..n], queue := s.queue[n..])
  }

  function Tag<T>(rows: seq<T>, persisted: bool): (r: seq<Handed<T>>)
    ensures |r| == |rows|
  {
    seq(|rows|, i requires 0 <= i < |rows| => if persisted then Persisted(rows[i]) else DeadLettered(rows[i]))
  }

  /** One flush; `ok` says whether the persist call returns or raises. */
  function Flush<T>(c: Config, s0: Sink<T>, ok: bool): (Sink<T>, Flushed) {
    var s := Acquire(c, s0);
    if s.pending == [] then (s.(retries := 0), Count(0))
    else
      var tried := s.(attempts := s.attempts + [Attempt(|s.handed|, s.pending, ok)]);
      if ok then
        (tried.(pending := [], retries := 0, handed := s.handed + Tag(s.pending, true)), Count(|s.pending|))
      else if s.retries + 1 > c.maxRetries then
        (tried.(pending := [], retries := 0, handed := s.handed + Tag(s.pending, false)), Count(0))
      else (tried.(retries := s.retries + 1), Raised)
  }

  class DbSinkWorker<T> {
    const config: Config
    var queue: seq<T>
    var pending: seq<T>
    var retries: nat
    ghost var handed: seq<Handed<T>>
    ghost var attempts: seq<Attempt<T>>

    ghost function State(): Sink<T>
      reads this
    {
      Sink(queue, pending, retries, handed, attempts)
    }

    constructor (batchSize: int, maxRetries: int, queueMax: nat)
      ensures State() == Initial() && config.Valid()
    {
      config := Config(if batchSize < 1 then 1 else batchSize, if maxRetries < 1 then 1 else maxRetries, queueMax);
      queue, pending, retries, handed, attempts := [], [], 0, [], [];
    }

    /** False is the QueueFull exception. */
    method PutNowait(x: T) returns (ok: bool)
      modifies this
      ensures State() == Enqueue(config, old(State()), x) && ok == !Full(config, old(State()))
    {
      if config.queueMax > 0 && |queue| >= config.queueMax {
        return false;
      }
      queue := queue + [x];
      ok := true;
    }

    method DrainQueueBatch() returns (batch: seq<T>)
      requires config.Valid()
      modifies this`queue
      ensures var n := if |old(queue)| < config.batchSize then |old(queue)| else config.batchSize;
              batch == old(queue)[..n] && queue == old(queue)[n..]
    {
      batch := [];
      while |batch| < config.batchSize && queue != []
        invariant |batch| <= config.batchSize && |batch| <= |old(queue)|
        invariant batch == old(queue)[..|batch|] && queue == old(queue)[|batch|..]
        decreases |queue|
      {
        batch := batch + [queue[0]];
        queue := queue[1..];
      }
    }

    method AcquireBatch() returns (batch: seq<T>)
      requires config.Valid()
      modifies this`queue, this`pending
      ensures State() == Acquire(config, old(State())) && batch == pending
    {
      if pending != [] {
        return pending;
      }
      batch := DrainQueueBatch();
      pending := batch;
    }

    method FlushOnce(persistOk: bool) returns (result: Flushed)
      requires config.Valid()
      modifies this
      ensures (State(), result) == Flush(config, old(State()), persistOk)
    {
      var batch := AcquireBatch();
      if batch == [] {
        retries := 0;
        return Count(0);
      }
      attempts := attempts + [Attempt(|handed|, batch, persistOk)];
      if persistOk {
        handed := handed + Tag(batch, true);
        pending := [];
        retries := 0;
        return Count(|batch|);
      }
      retries := retries + 1;
      if retries > config.maxRetries {
        handed := handed + Tag(batch, false);
        pending := [];
        retries := 0;
        return Count(0);
      }
      result := Raised;
    }
  }

  /** A flush seen from outside: how the backlog shrinks, and that no row is lost, repeated or reordered. */
  method FlushCounted<T>(sink: DbSinkWorker<T>, ok: bool) returns (r: Flushed)
    requires sink.config.Valid()
    modifies sink
    ensures Unhanded(sink.State()) == old(Unhanded(sink.State()))
    ensures ok ==> r.Count? && Backlog(sink.State()) + r.rows == old(Backlog(sink.State()))
    ensures ok && r.rows == 0 ==> Backlog(sink.State()) == 0
    ensures Backlog(sink.State()) <= old(Backlog(sink.State()))
    ensures r.Count? && r.rows > 0 ==> Backlog(sink.State()) < old(Backlog(sink.State()))
  {
    FlushConserves(sink.config, sink.State(), ok);
    r := sink.FlushOnce(ok);
  }

  /** Rows not yet handed off. */
  ghost function Backlog<T>(s: Sink<T>): nat {
    |s.pending| + |s.queue|
  }

  /** Both sinks flushed in turn until neither moves a row; an exception ends it. */
  method FlushDbSinksOnce<T, U>(tick: DbSinkWorker<T>, bidask: DbSinkWorker<U>, tickOk: nat -> bool, bidaskOk: nat -> bool)
      returns (result: Flushed)
    requires tick as object != bidask && tick.config.Valid() && bidask.config.Valid()
    modifies tick, bidask
    ensures (forall n :: tickOk(n) && bidaskOk(n)) ==>
              && result == Count(old(Backlog(tick.State()) + Backlog(bidask.State())))
              && tick.queue == tick.pending == [] && bidask.queue == bidask.pending == []
    ensures Unhanded(tick.State()) == old(Unhanded(tick.State()))
    ensures Unhanded(bidask.State()) == old(Unhanded(bidask.State()))
  {
    var total: nat, n: nat := 0, 0;
    ghost var allOk := forall n :: tickOk(n) && bidaskOk(n);
    while true
      invariant allOk ==> total + Backlog(tick.State()) + Backlog(bidask.State())
                          == old(Backlog(tick.State()) + Backlog(bidask.State()))
      invariant Unhanded(tick.State()) == old(Unhanded(tick.State()))
      invariant Unhanded(bidask.State()) == old(Unhanded(bidask.State()))
      decreases Backlog(tick.State()) + Backlog(bidask.State())
    {
      var a := FlushCounted(tick, tickOk(n));
      if a.Raised? {
        return Raised;
      }
      var b := FlushCounted(bidask, bidaskOk(n));
      if b.Raised? {
        return Raised;
      }
      total := total + a.rows + b.rows;
      if a.rows + b.rows == 0 {
        return Count(total);
      }
      n := n + 1;
    }
  }

  // ----- conservation

  ghost function Rows<T>(h: seq<Handed<T>>): (r: seq<T>)
    ensures |r| == |h|
  {
    seq(|h|, i requires 0 <= i < |h| => h[i].row)
  }

  /** Every enqueued row, in order: handed off, pending, queued. */
  ghost function Unhanded<T>(s: Sink<T>): seq<T> {
    Rows(s.handed) + s.pending + s.queue
  }

  lemma RowsOfTag<T>(h: seq<Handed<T>>, rows: seq<T>, persisted: bool)
    ensures Rows(h + Tag(rows, persisted)) == Rows(h) + rows
  {
  }

  lemma AcquireConserves<T>(c: Config, s: Sink<T>)
    requires c.Valid()
    ensures var a := Acquire(c, s);
            && Unhanded(a) == Unhanded(s) && Backlog(a) == Backlog(s)
            && (a.pending == [] ==> a.queue == [])
  {
    var a := Acquire(c, s);
    assert a.handed == s.handed && a.pending + a.queue == s.pending + s.queue;
    Regroup(Rows(s.handed), a.pending, a.queue);
    Regroup(Rows(s.handed), s.pending, s.queue);
  }

  lemma Regroup<T>(a: seq<T>, b: seq<T>, c: seq<T>)
    ensures a + b + c == a + (b + c)
  {
  }

  /** A flush neither loses, repeats nor reorders a row; a returning one frees the pending slot. */
  lemma FlushConserves<T>(c: Config, s: Sink<T>, ok: bool)
    requires c.Valid()
    ensures var (s', r) := Flush(c, s, ok);
            && Unhanded(s') == Unhanded(s) && Backlog(s') <= Backlog(s)
            && (r.Count? ==> s'.pending == [])
            && (r.Count? && r.rows == 0 && ok ==> Backlog(s') == 0)
            && (r.Count? && r.rows > 0 ==> Backlog(s') + r.rows == Backlog(s))
            && (ok ==> r.Count? && Backlog(s') + r.rows == Backlog(s))
  {
    var a := Acquire(c, s);
    AcquireConserves(c, s);
    RowsOfTag(a.handed, a.pending, true);
    RowsOfTag(a.handed, a.pending, false);
    var h := Rows(a.handed);
    assert (h + a.pending) + [] + a.queue == h + a.pending + a.queue;
  }

  // ----- every run

  datatype Op<T> = Put(x: T) | FlushCall(ok: bool)

  ghost function Step<T>(c: Config, s: Sink<T>, op: Op<T>): Sink<T> {
    match op
    case Put(x) => Enqueue(c, s, x)
    case FlushCall(ok) => Flush(c, s, ok).0
  }

  ghost function Run<T>(c: Config, ops: seq<Op<T>>): Sink<T> {
    if ops == [] then Initial() else Step(c, Run(c, ops[..|ops| - 1]), ops[|ops| - 1])
  }

  /** The rows that the queue took, in order. */
  ghost function Enqueued<T>(c: Config, ops: seq<Op<T>>): seq<T> {
    if ops == [] then []
    else
      var op, rest := ops[|ops| - 1], Enqueued(c, ops[..|ops| - 1]);
      if op.Put? && !Full(c, Run(c, ops[..|ops| - 1])) then rest + [op.x] else rest
  }

  /** FIFO conservation, at every point of every run, for every pattern of failures. */
  lemma {:induction false} SinkConserves<T>(c: Config, ops: seq<Op<T>>)
    requires c.Valid()
    ensures Unhanded(Run(c, ops)) == Enqueued(c, ops)
  {
    if ops != [] {
      var init, op := ops[..|ops| - 1], ops[|ops| - 1];
      SinkConserves(c, init);
      var s := Run(c, init);
      match op {
        case Put(x) =>
          assert Rows(s.handed) + s.pending + (s.queue + [x]) == Rows(s.handed) + s.pending + s.queue + [x];
        case FlushCall(ok) =>
          FlushConserves(c, s, ok);
      }
    }
  }

  ghost function Tries<T>(attempts: seq<Attempt<T>>, start: nat): nat {
    if attempts == [] then 0
    else
      var n := Tries(attempts[..|attempts| - 1], start);
      if attempts[|attempts| - 1].start == start then n + 1 else n
  }

  lemma TriesSnoc<T>(attempts: seq<Attempt<T>>, a: Attempt<T>, start: nat)
    ensures Tries(attempts + [a], start) == Tries(attempts, start) + (if a.start == start then 1 else 0)
  {
    assert (attempts + [a])[..|attempts|] == attempts;
  }

  lemma {:induction false} NoTriesAhead<T>(attempts: seq<Attempt<T>>, start: nat)
    requires forall i | 0 <= i < |attempts| :: attempts[i].start < start
    ensures Tries(attempts, start) == 0
  {
    if attempts != [] {
      NoTriesAhead(attempts[..|attempts| - 1], start);
    }
  }

  /** An attempt at the batch that starts at the current position is a failed one at the pending batch. */
  ghost predicate AttemptCurrent<T>(s: Sink<T>, a: Attempt<T>) {
    && a.start <= |s.handed| && a.batch != []
    && (a.start == |s.handed| ==> s.pending != [] && a.batch == s.pending && !a.ok)
  }

  ghost predicate TriesBounded<T>(c: Config, s: Sink<T>, start: nat) {
    Tries(s.attempts, start) <= c.maxRetries + 1
  }

  /** The retry counter is the number of attempts at the pending batch; no batch ever exceeds its bound. */
  ghost predicate Bounded<T>(c: Config, s: Sink<T>) {
    && s.retries <= c.maxRetries && Tries(s.attempts, |s.handed|) == s.retries
    && (s.pending == [] ==> s.retries == 0)
    && (forall i {:trigger AttemptCurrent(s, s.attempts[i])} | 0 <= i < |s.attempts| :: AttemptCurrent(s, s.attempts[i]))
    && (forall start: nat {:trigger TriesBounded(c, s, start)} :: TriesBounded(c, s, start))
  }

  /** Whether a flush attempts a batch at all. */
  ghost predicate Attempts<T>(c: Config, s: Sink<T>) {
    Acquire(c, s).pending != []
  }

  lemma AttemptStays<T>(c: Config, s: Sink<T>, ok: bool, e: Attempt<T>)
    requires AttemptCurrent(s, e)
    ensures AttemptCurrent(Flush(c, s, ok).0, e)
  {
  }

  /** What a flush that attempts a batch adds, and where the retry counter is afterwards. */
  lemma FlushAttempts<T>(c: Config, s: Sink<T>, ok: bool) returns (x: Attempt<T>)
    requires c.Valid() && Attempts(c, s) && s.retries <= c.maxRetries
    ensures var s' := Flush(c, s, ok).0;
            && x.start == |s.handed| && s'.attempts == s.attempts + [x] && AttemptCurrent(s', x)
            && s'.retries <= c.maxRetries && (s'.pending == [] ==> s'.retries == 0)
            && if |s'.handed| == |s.handed| then s'.retries == s.retries + 1
               else |s'.handed| > |s.handed| && s'.retries == 0
  {
    x := Attempt(|s.handed|, Acquire(c, s).pending, ok);
  }

  lemma TriesAfterFlush<T>(c: Config, s: Sink<T>, ok: bool)
    requires c.Valid() && Bounded(c, s) && Attempts(c, s)
    ensures var s' := Flush(c, s, ok).0;
            Tries(s'.attempts, |s'.handed|) == s'.retries && forall start: nat :: TriesBounded(c, s', start)
  {
    var s' := Flush(c, s, ok).0;
    var x := FlushAttempts(c, s, ok);
    forall start: nat
      ensures TriesBounded(c, s', start)
    {
      assert TriesBounded(c, s, start);
      TriesSnoc(s.attempts, x, start);
    }
    TriesSnoc(s.attempts, x, |s'.handed|);
    if |s'.handed| > |s.handed| {
      forall i | 0 <= i < |s.attempts|
        ensures s.attempts[i].start < |s'.handed|
      {
        assert AttemptCurrent(s, s.attempts[i]);
      }
      NoTriesAhead(s.attempts, |s'.handed|);
    }
  }

  lemma FlushKeepsBounded<T>(c: Config, s: Sink<T>, ok: bool)
    requires c.Valid() && Bounded(c, s)
    ensures Bounded(c, Flush(c, s, ok).0)
  {
    var s' := Flush(c, s, ok).0;
    if Attempts(c, s) {
      TriesAfterFlush(c, s, ok);
      var x := FlushAttempts(c, s, ok);
      forall i | 0 <= i < |s'.attempts|
        ensures AttemptCurrent(s', s'.attempts[i])
      {
        if i < |s.attempts| {
          assert AttemptCurrent(s, s.attempts[i]);
          AttemptStays(c, s, ok, s.attempts[i]);
        }
      }
    } else {
      IdleFlush(c, s, ok);
    }
  }

  lemma IdleFlush<T>(c: Config, s: Sink<T>, ok: bool)
    requires c.Valid() && Bounded(c, s) && !Attempts(c, s)
    ensures Bounded(c, Flush(c, s, ok).0)
  {
    var s' := Flush(c, s, ok).0;
    forall i | 0 <= i < |s'.attempts|
      ensures AttemptCurrent(s', s'.attempts[i])
    {
      assert AttemptCurrent(s, s.attempts[i]);
      AttemptStays(c, s, ok, s.attempts[i]);
    }
    forall start: nat
      ensures TriesBounded(c, s', start)
    {
      assert TriesBounded(c, s, start);
    }
  }

  /** Over every run, each batch is tried at most maxRetries + 1 times, and never again once it is handed off. */
  lemma {:induction false} AttemptsBounded<T>(c: Config, ops: seq<Op<T>>)
    requires c.Valid()
    ensures Bounded(c, Run(c, ops))
  {
    if ops != [] {
      var init, op := ops[..|ops| - 1], ops[|ops| - 1];
      AttemptsBounded(c, init);
      var s := Run(c, init);
      match op {
        case Put(x) =>
          var s' := Enqueue(c, s, x);
          forall i | 0 <= i < |s'.attempts|
            ensures AttemptCurrent(s', s'.attempts[i])
          {
            assert AttemptCurrent(s, s.attempts[i]);
          }
          forall start: nat
            ensures TriesBounded(c, s', start)
          {
            assert TriesBounded(c, s, start);
          }
        case FlushCall(ok) =>
          FlushKeepsBounded(c, s, ok);
      }
    }
  }

  // ----- when a row is given up

  /** Every attempt at the batch that starts here failed. */
  ghost predicate AllFailed<T>(attempts: seq<Attempt<T>>, start: nat) {
    forall k | 0 <= k < |attempts| && attempts[k].start == start :: !attempts[k].ok
  }

  /** The k-th attempt was the last at its batch and decided it: persisted, or given up after all retries. */
  ghost predicate Decides<T>(c: Config, attempts: seq<Attempt<T>>, k: nat, persisted: bool)
    requires k < |attempts|
  {
    var start := attempts[k].start;
    && attempts[k].ok == persisted
    && (forall l | 0 <= l < |attempts| && l != k && attempts[l].start == start :: l < k && !attempts[l].ok)
    && (!persisted ==> AllFailed(attempts, start) && Tries(attempts, start) == c.maxRetries + 1)
  }

  /** The i-th row was handed off with the batch of an attempt that decided it. */
  ghost predicate HandedBy<T>(c: Config, s: Sink<T>, i: nat, k: nat)
    requires i < |s.handed| && k < |s.attempts|
  {
    var a := s.attempts[k];
    && a.start <= i < a.start + |a.batch| <= |s.handed| && s.handed[i].row == a.batch[i - a.start]
    && Decides(c, s.attempts, k, s.handed[i].Persisted?)
  }

  ghost predicate Explained<T>(c: Config, s: Sink<T>, i: nat)
    requires i < |s.handed|
  {
    exists k :: 0 <= k < |s.attempts| && HandedBy(c, s, i, k)
  }

  ghost predicate AllExplained<T>(c: Config, s: Sink<T>) {
    forall i {:trigger Explained(c, s, i)} | 0 <= i < |s.handed| :: Explained(c, s, i)
  }

  /** A later attempt at another batch changes nothing about a decided one. */
  lemma StaysExplained<T>(c: Config, s: Sink<T>, s': Sink<T>, x: Attempt<T>, i: nat)
    requires i < |s.handed| && Explained(c, s, i) && s.handed <= s'.handed
    requires s'.attempts == s.attempts || (s'.attempts == s.attempts + [x] && x.start == |s.handed|)
    ensures Explained(c, s', i)
  {
    var k :| 0 <= k < |s.attempts| && HandedBy(c, s, i, k);
    var start := s.attempts[k].start;
    if s'.attempts != s.attempts {
      TriesSnoc(s.attempts, x, start);
      assert forall l | 0 <= l < |s.attempts| :: s'.attempts[l] == s.attempts[l];
    }
    assert HandedBy(c, s', i, k);
  }

  /**
    How a flush decides, told by the attempts at the pending batch alone: it is handed off as persisted
    when the call succeeds, given up with the attempt that follows maxRetries failed ones, and otherwise
    kept for the next flush, which raises.
   */
  lemma FlushDecides<T>(c: Config, s: Sink<T>, ok: bool)
    requires c.Valid() && Bounded(c, s) && Attempts(c, s)
    ensures var batch, (s', r) := Acquire(c, s).pending, Flush(c, s, ok);
            var n := Tries(s.attempts, |s.handed|);
            && s'.attempts == s.attempts + [Attempt(|s.handed|, batch, ok)]
            && if ok then s'.handed == s.handed + Tag(batch, true) && s'.pending == [] && r == Count(|batch|)
               else if n < c.maxRetries then s'.handed == s.handed && s'.pending == batch && r == Raised
               else s'.handed == s.handed + Tag(batch, false) && s'.pending == [] && r == Count(0)
  {
  }

  lemma BatchExplained<T>(c: Config, s: Sink<T>, ok: bool, i: nat)
    requires c.Valid() && Bounded(c, s) && Attempts(c, s)
    requires |s.handed| <= i < |Flush(c, s, ok).0.handed|
    ensures Explained(c, Flush(c, s, ok).0, i)
  {
    var s', start, k := Flush(c, s, ok).0, |s.handed|, |s.attempts|;
    FlushDecides(c, s, ok);
    TriesSnoc(s.attempts, s'.attempts[k], start);
    forall l | 0 <= l < k && s'.attempts[l].start == start
      ensures !s'.attempts[l].ok
    {
      assert AttemptCurrent(s, s.attempts[l]);
    }
    assert HandedBy(c, s', i, k);
  }

  lemma FlushKeepsExplained<T>(c: Config, s: Sink<T>, ok: bool)
    requires c.Valid() && Bounded(c, s) && AllExplained(c, s)
    ensures AllExplained(c, Flush(c, s, ok).0)
  {
    var s' := Flush(c, s, ok).0;
    forall i | 0 <= i < |s'.handed|
      ensures Explained(c, s', i)
    {
      if i < |s.handed| {
        StaysExplained(c, s, s', Attempt(|s.handed|, Acquire(c, s).pending, ok), i);
      } else {
        BatchExplained(c, s, ok, i);
      }
    }
  }

  /**
    Over every run and failure pattern, a row handed off is persisted if and only if the last attempt at
    its batch succeeded, and given up only with a batch that was tried maxRetries + 1 times, always in vain.
   */
  lemma {:induction false} GivenUpExactly<T>(c: Config, ops: seq<Op<T>>)
    requires c.Valid()
    ensures AllExplained(c, Run(c, ops))
  {
    if ops != [] {
      var init, op := ops[..|ops| - 1], ops[|ops| - 1];
      GivenUpExactly(c, init);
      AttemptsBounded(c, init);
      var s := Run(c, init);
      match op {
        case Put(x) =>
          forall i | 0 <= i < |s.handed|
            ensures Explained(c, Enqueue(c, s, x), i)
          {
            StaysExplained(c, s, Enqueue(c, s, x), Attempt(0, [], false), i);
          }
        case FlushCall(ok) =>
          FlushKeepsExplained(c, s, ok);
      }
    }
  }

  /** A refused row is one that finds a bounded queue full; the queue never grows beyond its bound. */
  lemma {:induction false} QueueStaysBounded<T>(c: Config, ops: seq<Op<T>>, x: T)
    requires c.Valid()
    ensures var s := Run(c, ops);
            && (c.queueMax > 0 ==> |s.queue| <= c.queueMax)
            && Unhanded(Enqueue(c, s, x)) ==
               if c.queueMax > 0 && |s.queue| == c.queueMax then Unhanded(s) else Unhanded(s) + [x]
  {
    if ops != [] {
      QueueStaysBounded(c, ops[..|ops| - 1], x);
    }
    var s := Run(c, ops);
    Regroup(Rows(s.handed) + s.pending, s.queue, [x]);
  }

  /** A pending batch is tried again as it is; a new one is the longest the queue and the batch size allow. */
  lemma NewBatchIsLongest<T>(c: Config, s: Sink<T>)
    ensures var a := Acquire(c, s);
            if s.pending != [] then a == s
            else a.pending + a.queue == s.queue && |a.pending| <= c.batchSize
                 && (a.queue != [] ==> |a.pending| == c.batchSize)
  {
  }

  /** The flush of a run that has a batch to try: as FlushDecides says, in every reachable state. */
  lemma RetriesBeforeGivingUp<T>(c: Config, ops: seq<Op<T>>, ok: bool)
    requires c.Valid() && Attempts(c, Run(c, ops))
    ensures var s := Run(c, ops);
            var batch, (s', r) := Acquire(c, s).pending, Flush(c, s, ok);
            && (r.Raised? <==> !ok && Tries(s.attempts, |s.handed|) < c.maxRetries)
            && (r.Raised? ==> s'.pending == batch && s'.handed == s.handed)
            && (!r.Raised? ==> s'.pending == [] && s'.handed == s.handed + Tag(batch, ok))
            && (r.Count? ==> r.rows == if ok then |batch| else 0)
  {
    AttemptsBounded(c, ops);
    FlushDecides(c, Run(c, ops), ok);
  }
}
