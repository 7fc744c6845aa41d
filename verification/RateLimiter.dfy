/** The sliding-window request limiter and the guard on open event streams. */
module RateLimiter {
  /** The outcome of a checked request; a limit below 1 makes the code index an empty queue. */
  datatype Verdict = Allowed | Denied(retryAfter: int) | IndexError

  function Ceil(x: real): int { -((-x).Floor) }

  function AtLeastOne(n: int): int { if n < 1 then 1 else n }

  /** The queue without the leading entries that are older than the cutoff. */
  function Pruned(q: seq<real>, cutoff: real): seq<real> {
    if q != [] && q[0] < cutoff then Pruned(q[1..], cutoff) else q
  }

  predicate Admits(q: seq<real>, limit: int, window: real, now: real) {
    |Pruned(q, now - window)| < limit
  }

  function QueueAfter(q: seq<real>, limit: int, window: real, now: real): seq<real> {
    var p := Pruned(q, now - window);
    if |p| < limit then p + [now] else p
  }

  function RetryAfter(p: seq<real>, window: real, now: real): int
    requires p != []
  {
    AtLeastOne(Ceil(p[0] + window - now))
  }

  function Check(q: seq<real>, limit: int, window: real, now: real): Verdict {
    var p := Pruned(q, now - window);
    if |p| < limit then Allowed
    else if p == [] then IndexError
    else Denied(RetryAfter(p, window, now))
  }

  function QueueOf(requests: map<string, seq<real>>, key: string): seq<real> {
    if key in requests then requests[key] else []
  }

  function Active(sse: map<string, int>, key: string): int {
    if key in sse then sse[key] else 0
  }

  function Open(sse: map<string, int>, key: string, limit: int): map<string, int> {
    if Active(sse, key) >= limit then sse else sse[key := Active(sse, key) + 1]
  }

  function Close(sse: map<string, int>, key: string): map<string, int> {
    if Active(sse, key) <= 1 then sse - {key} else sse[key := Active(sse, key) - 1]
  }

  class SimpleRateLimiter {
    var requests: map<string, seq<real>>
    var sseActive: map<string, int>

    constructor ()
      ensures requests == map[] && sseActive == map[]
    {
      requests, sseActive := map[], map[];
    }

    method Prune(key: string, cutoff: real) returns (queue: seq<real>)
      ensures queue == Pruned(QueueOf(requests, key), cutoff)
    {
      queue := if key in requests then requests[key] else [];
      while queue != [] && queue[0] < cutoff
        invariant Pruned(queue, cutoff) == Pruned(QueueOf(requests, key), cutoff)
        decreases |queue|
      {
        queue := queue[1..];
      }
    }

    method AllowRequest(key: string, limit: int, window: int, now: real) returns (ok: bool)
      modifies this`requests
      ensures ok == Admits(old(QueueOf(requests, key)), limit, window as real, now)
      ensures requests == old(requests)[key := QueueAfter(old(QueueOf(requests, key)), limit, window as real, now)]
    {
      var queue := Prune(key, now - window as real);
      requests := requests[key := queue];
      if |queue| >= limit {
        return false;
      }
      requests := requests[key := queue + [now]];
      ok := true;
    }

    method CheckRequest(key: string, limit: int, window: int, now: real) returns (verdict: Verdict)
      modifies this`requests
      ensures verdict == Check(old(QueueOf(requests, key)), limit, window as real, now)
      ensures requests == old(requests)[key := QueueAfter(old(QueueOf(requests, key)), limit, window as real, now)]
    {
      var queue := Prune(key, now - window as real);
      requests := requests[key := queue];
      if |queue| >= limit {
        if queue == [] {
          return IndexError;
        }
        return Denied(AtLeastOne(Ceil((queue[0] + window as real) - now)));
      }
      requests := requests[key := queue + [now]];
      verdict := Allowed;
    }

    method TryOpenSse(key: string, limit: int) returns (ok: bool)
      modifies this`sseActive
      ensures sseActive == Open(old(sseActive), key, limit) && ok == (Active(old(sseActive), key) < limit)
    {
      var current := if key in sseActive then sseActive[key] else 0;
      if current >= limit {
        return false;
      }
      sseActive := sseActive[key := current + 1];
      ok := true;
    }

    method CloseSse(key: string)
      modifies this`sseActive
      ensures sseActive == Close(old(sseActive), key)
    {
      var current := if key in sseActive then sseActive[key] else 0;
      if current <= 1 {
        sseActive := sseActive - {key};
      } else {
        sseActive := sseActive[key := current - 1];
      }
    }
  }

  // ----- one key, a fixed limit and window, a clock that never goes back

  datatype Settings = Settings(limit: int, window: real)

  /** The window is a duration. */
  type Config = c: Settings | c.window >= 0.0 witness Settings(1, 0.0)

  ghost predicate AllAtMost(xs: seq<real>, top: real) {
    forall i | 0 <= i < |xs| :: xs[i] <= top
  }

  ghost predicate Ascending(xs: seq<real>) {
    xs != [] ==> AllAtMost(xs, xs[|xs| - 1]) && Ascending(xs[..|xs| - 1])
  }

  ghost function Queue(c: Config, nows: seq<real>): seq<real> {
    if nows == [] then []
    else QueueAfter(Queue(c, nows[..|nows| - 1]), c.limit, c.window, nows[|nows| - 1])
  }

  /** The times of the admitted requests, in order. */
  ghost function Admitted(c: Config, nows: seq<real>): seq<real> {
    if nows == [] then []
    else
      var init, now := nows[..|nows| - 1], nows[|nows| - 1];
      if Admits(Queue(c, init), c.limit, c.window, now) then Admitted(c, init) + [now] else Admitted(c, init)
  }

  /** The members of xs in the closed interval [lo, hi]. */
  ghost function Within(xs: seq<real>, lo: real, hi: real): seq<real> {
    if xs == [] then []
    else
      var init, x := Within(xs[..|xs| - 1], lo, hi), xs[|xs| - 1];
      if lo <= x <= hi then init + [x] else init
  }

  lemma WithinSnoc(xs: seq<real>, x: real, lo: real, hi: real)
    ensures Within(xs + [x], lo, hi) == if lo <= x <= hi then Within(xs, lo, hi) + [x] else Within(xs, lo, hi)
  {
    assert (xs + [x])[..|xs|] == xs;
  }

  lemma {:induction false} PrunedTwice(xs: seq<real>, lo: real, lo': real)
    requires lo <= lo'
    ensures Pruned(Pruned(xs, lo), lo') == Pruned(xs, lo')
  {
    if xs != [] && xs[0] < lo {
      PrunedTwice(xs[1..], lo, lo');
    }
  }

  lemma {:induction false} PrunedSnoc(xs: seq<real>, x: real, lo: real)
    requires lo <= x
    ensures Pruned(xs + [x], lo) == Pruned(xs, lo) + [x]
  {
    if xs != [] && xs[0] < lo {
      PrunedSnoc(xs[1..], x, lo);
      assert (xs + [x])[1..] == xs[1..] + [x];
    }
  }

  /** The clock has not gone back before `now`. */
  ghost predicate InOrder(nows: seq<real>, now: real) {
    Ascending(nows) && (nows != [] ==> nows[|nows| - 1] <= now)
  }

  /** The queue is what the pruning rule leaves of all admissions so far. */
  lemma {:induction false} QueueIsPruned(c: Config, nows: seq<real>)
    requires Ascending(nows) && nows != []
    ensures Queue(c, nows) == Pruned(Admitted(c, nows), nows[|nows| - 1] - c.window)
    decreases |nows|, 0
  {
    var n := |nows| - 1;
    assert n > 0 ==> nows[n - 1] <= nows[n];
    var init, now := nows[..n], nows[n];
    var lo, a := now - c.window, Admitted(c, init);
    PrunedQueue(c, init, now);
    PrunedSnoc(a, now, lo);
  }

  lemma {:induction false} PrunedQueue(c: Config, nows: seq<real>, now: real)
    requires InOrder(nows, now)
    ensures Pruned(Queue(c, nows), now - c.window) == Pruned(Admitted(c, nows), now - c.window)
    decreases |nows|, 1
  {
    if nows != [] {
      QueueIsPruned(c, nows);
      PrunedTwice(Admitted(c, nows), nows[|nows| - 1] - c.window, now - c.window);
    }
  }

  lemma {:induction false} AdmittedAscend(c: Config, nows: seq<real>)
    requires Ascending(nows)
    ensures Ascending(Admitted(c, nows))
    ensures nows != [] ==> AllAtMost(Admitted(c, nows), nows[|nows| - 1])
    ensures nows == [] ==> Admitted(c, nows) == []
  {
    if nows != [] {
      var n := |nows| - 1;
      AdmittedAscend(c, nows[..n]);
      var a := Admitted(c, nows[..n]);
      assert n > 0 ==> nows[n - 1] <= nows[n];
      assert (a + [nows[n]])[..|a|] == a;
    }
  }

  lemma {:induction false} NothingWithin(xs: seq<real>, lo: real, hi: real)
    requires Ascending(xs) && (xs == [] || xs[|xs| - 1] < lo)
    ensures Within(xs, lo, hi) == [] && Pruned(xs, lo) == []
  {
    if xs != [] {
      var n := |xs| - 1;
      assert n > 0 ==> xs[n - 1] <= xs[n];
      NothingWithin(xs[..n], lo, hi);
      PruneAll(xs, lo);
    }
  }

  lemma {:induction false} PruneAll(xs: seq<real>, lo: real)
    requires forall i | 0 <= i < |xs| :: xs[i] < lo
    ensures Pruned(xs, lo) == []
  {
    if xs != [] {
      PruneAll(xs[1..], lo);
    }
  }

  /** On ascending times, pruning keeps exactly the members of the closed window. */
  lemma {:induction false} PrunedIsWithin(xs: seq<real>, lo: real, hi: real)
    requires Ascending(xs) && AllAtMost(xs, hi)
    ensures Pruned(xs, lo) == Within(xs, lo, hi)
  {
    if xs != [] {
      var n := |xs| - 1;
      assert AllAtMost(xs[..n], hi);
      if xs[n] < lo {
        NothingWithin(xs, lo, hi);
      } else {
        PrunedIsWithin(xs[..n], lo, hi);
        PrunedSnoc(xs[..n], xs[n], lo);
        assert xs == xs[..n] + [xs[n]];
      }
    }
  }

  /** The pruned queue is exactly the admissions in [now - window, now]. */
  lemma QueueIsWindow(c: Config, nows: seq<real>, now: real)
    requires InOrder(nows, now)
    ensures Pruned(Queue(c, nows), now - c.window) == Within(Admitted(c, nows), now - c.window, now)
  {
    PrunedQueue(c, nows, now);
    AdmittedAscend(c, nows);
    var a := Admitted(c, nows);
    if nows != [] {
      assert AllAtMost(a, nows[|nows| - 1]) && nows[|nows| - 1] <= now;
    }
    PrunedIsWithin(a, now - c.window, now);
  }

  /** A request is admitted exactly when fewer than `limit` admissions lie in the closed window before it. */
  lemma AdmittedIffRoom(c: Config, nows: seq<real>, now: real)
    requires InOrder(nows, now)
    ensures Admits(Queue(c, nows), c.limit, c.window, now)
            <==> |Within(Admitted(c, nows), now - c.window, now)| < c.limit
  {
    QueueIsWindow(c, nows, now);
  }

  lemma {:induction false} WithinNarrower(xs: seq<real>, lo: real, hi: real, lo': real, hi': real)
    requires lo' <= lo && AllAtMost(xs, hi')
    ensures |Within(xs, lo, hi)| <= |Within(xs, lo', hi')|
  {
    if xs != [] {
      assert AllAtMost(xs[..|xs| - 1], hi');
      WithinNarrower(xs[..|xs| - 1], lo, hi, lo', hi');
    }
  }

  /** No closed interval as long as the window ever holds more than `limit` admissions. */
  lemma {:induction false} WindowNeverExceeded(c: Config, nows: seq<real>, start: real)
    requires Ascending(nows) && c.limit >= 0
    ensures |Within(Admitted(c, nows), start, start + c.window)| <= c.limit
  {
    if nows != [] {
      var n := |nows| - 1;
      var init, now := nows[..n], nows[n];
      var end, a := start + c.window, Admitted(c, init);
      WindowNeverExceeded(c, init, start);
      WithinSnoc(a, now, start, end);
      if Admits(Queue(c, init), c.limit, c.window, now) && start <= now <= end {
        assert n > 0 ==> init[n - 1] == nows[n - 1] <= now;
        AdmittedIffRoom(c, init, now);
        AdmittedAscend(c, init);
        assert AllAtMost(a, now);
        WithinNarrower(a, start, end, now - c.window, now);
      }
    }
  }

  /** With a limit below 1 nothing is ever admitted, and a checked request raises every time. */
  lemma {:induction false} LimitBelowOne(c: Config, nows: seq<real>, now: real)
    requires c.limit < 1
    ensures Queue(c, nows) == [] && Check(Queue(c, nows), c.limit, c.window, now) == IndexError
    ensures !Admits(Queue(c, nows), c.limit, c.window, now)
  {
    if nows != [] {
      LimitBelowOne(c, nows[..|nows| - 1], now);
    }
  }

  // ----- many keys

  datatype Request = Request(key: string, now: real)

  /** The limiter's table after requests of any keys, each key with its own limit and window. */
  ghost function Served(config: string -> Config, requests: seq<Request>): map<string, seq<real>> {
    if requests == [] then map[]
    else
      var table, r := Served(config, requests[..|requests| - 1]), requests[|requests| - 1];
      var c := config(r.key);
      table[r.key := QueueAfter(QueueOf(table, r.key), c.limit, c.window, r.now)]
  }

  /** When the requests of one key came. */
  ghost function TimesOf(requests: seq<Request>, key: string): seq<real> {
    if requests == [] then []
    else
      var times, r := TimesOf(requests[..|requests| - 1], key), requests[|requests| - 1];
      if r.key == key then times + [r.now] else times
  }

  /** Keys do not disturb each other: what is kept for a key is what its own requests leave. */
  lemma {:induction false} KeysAreApart(config: string -> Config, requests: seq<Request>, key: string)
    ensures QueueOf(Served(config, requests), key) == Queue(config(key), TimesOf(requests, key))
  {
    if requests != [] {
      var n := |requests| - 1;
      KeysAreApart(config, requests[..n], key);
      if requests[n].key == key {
        QueueAfterRequest(config(key), TimesOf(requests[..n], key), requests[n].now);
      }
    }
  }

  // ----- being told to retry

  lemma CeilBounds(x: real)
    ensures Ceil(x) as real - 1.0 < x <= Ceil(x) as real
  {
    var f := (-x).Floor;
    assert f as real <= -x < f as real + 1.0;
  }

  /** The queue at a denial: full, oldest first, and its oldest entry within the window. */
  ghost predicate DeniedAt(c: Config, p: seq<real>, now: real) {
    |p| == c.limit && p != [] && now - c.window <= p[0] <= now
  }

  lemma DenialShape(c: Config, nows: seq<real>, now: real)
    requires InOrder(nows, now) && c.limit >= 1
    requires Check(Queue(c, nows), c.limit, c.window, now).Denied?
    ensures var p := Pruned(Queue(c, nows), now - c.window);
            DeniedAt(c, p, now) && Queue(c, nows + [now]) == p
  {
    QueueBounded(c, nows);
    PrunedShorter(Queue(c, nows), now - c.window);
    OldestInWindow(c, nows, now);
    QueueAfterRequest(c, nows, now);
  }

  lemma OldestInWindow(c: Config, nows: seq<real>, now: real)
    requires InOrder(nows, now)
    ensures var p := Pruned(Queue(c, nows), now - c.window);
            p != [] ==> now - c.window <= p[0] <= now
  {
    QueueIsWindow(c, nows, now);
    if Pruned(Queue(c, nows), now - c.window) != [] {
      WithinMembers(Admitted(c, nows), now - c.window, now, 0);
    }
  }

  lemma QueueAfterRequest(c: Config, nows: seq<real>, now: real)
    ensures Queue(c, nows + [now]) == QueueAfter(Queue(c, nows), c.limit, c.window, now)
  {
    assert (nows + [now])[..|nows|] == nows;
  }

  lemma {:induction false} WithinMembers(xs: seq<real>, lo: real, hi: real, i: nat)
    requires i < |Within(xs, lo, hi)|
    ensures lo <= Within(xs, lo, hi)[i] <= hi
  {
    if i < |Within(xs[..|xs| - 1], lo, hi)| {
      WithinMembers(xs[..|xs| - 1], lo, hi, i);
    }
  }

  lemma {:induction false} PrunedShorter(q: seq<real>, lo: real)
    ensures |Pruned(q, lo)| <= |q|
  {
    if q != [] && q[0] < lo {
      PrunedShorter(q[1..], lo);
    }
  }

  lemma {:induction false} QueueBounded(c: Config, nows: seq<real>)
    requires c.limit >= 0
    ensures |Queue(c, nows)| <= c.limit
  {
    if nows != [] {
      QueueBounded(c, nows[..|nows| - 1]);
      PrunedShorter(Queue(c, nows[..|nows| - 1]), nows[|nows| - 1] - c.window);
    }
  }

  /** The advertised wait is at least a second and never longer than the window. */
  lemma RetryAfterBounds(c: Config, nows: seq<real>, now: real)
    requires InOrder(nows, now) && c.limit >= 1
    ensures var v := Check(Queue(c, nows), c.limit, c.window, now);
            v.Denied? ==> 1 <= v.retryAfter <= AtLeastOne(Ceil(c.window))
  {
    var v := Check(Queue(c, nows), c.limit, c.window, now);
    if v.Denied? {
      DenialShape(c, nows, now);
      var p := Pruned(Queue(c, nows), now - c.window);
      CeilBounds(p[0] + c.window - now);
    }
  }

  lemma PruneFirstOnly(q: seq<real>, lo: real)
    requires q != []
    ensures |Pruned(q, lo)| < |q| <==> q[0] < lo
  {
    if q[0] < lo {
      PrunedShorter(q[1..], lo);
    }
  }

  /** The times of all requests up to the retry: those before the denial, the denied one, and polls since. */
  ghost function Polled(nows: seq<real>, now: real, polls: seq<real>): seq<real> {
    nows + [now] + polls
  }

  /** None of the requests since the denial was admitted. */
  ghost predicate NoneAdmitted(c: Config, nows: seq<real>, now: real, polls: seq<real>) {
    Admitted(c, Polled(nows, now, polls)) == Admitted(c, nows)
  }

  /** When the queue that a request was denied on has room again: after its oldest entry has left the window. */
  ghost function RoomAfter(c: Config, nows: seq<real>, now: real): real {
    var p := Pruned(Queue(c, nows), now - c.window);
    if p == [] then now else p[0] + c.window
  }

  lemma {:induction false} OrderedPrefix(nows: seq<real>, k: nat)
    requires Ascending(nows) && k <= |nows|
    ensures Ascending(nows[..k])
  {
    if k == |nows| {
      assert nows[..k] == nows;
    } else {
      var init := nows[..|nows| - 1];
      OrderedPrefix(init, k);
      assert init[..k] == nows[..k];
    }
  }

  lemma PolledOrder(nows: seq<real>, now: real, polls: seq<real>, later: real)
    requires InOrder(Polled(nows, now, polls), later)
    ensures InOrder(nows, now) && now <= later
  {
    var all, n := Polled(nows, now, polls), |nows|;
    OrderedPrefix(all, n + 1);
    OrderedPrefix(all[..n + 1], n);
    assert all[..n + 1][..n] == nows && all[..n + 1][n] == now;
  }

  /**
    After a denial, and as long as nothing else is admitted, a retry succeeds exactly when the oldest
    queued admission has left the closed window, whatever requests were denied in between.
   */
  lemma RetryOutcome(c: Config, nows: seq<real>, now: real, polls: seq<real>, later: real)
    requires c.limit >= 1 && Check(Queue(c, nows), c.limit, c.window, now).Denied?
    requires InOrder(Polled(nows, now, polls), later) && NoneAdmitted(c, nows, now, polls)
    ensures Check(Queue(c, Polled(nows, now, polls)), c.limit, c.window, later).Allowed?
            <==> RoomAfter(c, nows, now) < later
  {
    var all, a := Polled(nows, now, polls), Admitted(c, nows);
    var lo, lo' := now - c.window, later - c.window;
    PolledOrder(nows, now, polls, later);
    DenialShape(c, nows, now);
    PrunedQueue(c, nows, now);
    PrunedQueue(c, all, later);
    PrunedTwice(a, lo, lo');
    PruneFirstOnly(Pruned(a, lo), lo');
    PrunedShorter(Pruned(a, lo), lo');
  }

  /** Nothing is admitted in between exactly when no request comes after that instant. */
  lemma {:induction false} NoneAdmittedExactly(c: Config, nows: seq<real>, now: real, polls: seq<real>)
    requires c.limit >= 1 && Check(Queue(c, nows), c.limit, c.window, now).Denied?
    requires Ascending(Polled(nows, now, polls))
    ensures NoneAdmitted(c, nows, now, polls) <==> AllAtMost(polls, RoomAfter(c, nows, now))
  {
    if polls == [] {
      assert Polled(nows, now, polls)[..|nows|] == nows;
    } else {
      var n := |polls| - 1;
      PolledInit(nows, now, polls[..n], polls[n]);
      assert polls == polls[..n] + [polls[n]];
      NoneAdmittedExactly(c, nows, now, polls[..n]);
      NextPoll(c, nows, now, polls[..n], polls[n]);
    }
  }

  lemma PolledInit(nows: seq<real>, now: real, polls: seq<real>, x: real)
    ensures Polled(nows, now, polls + [x]) == Polled(nows, now, polls) + [x]
    ensures Ascending(Polled(nows, now, polls + [x])) ==>
              Ascending(Polled(nows, now, polls)) && InOrder(Polled(nows, now, polls), x)
  {
    var init, all := Polled(nows, now, polls), Polled(nows, now, polls + [x]);
    assert all == init + [x] && all[..|init|] == init;
    assert init[|init| - 1] == all[|init| - 1];
  }

  lemma NextPoll(c: Config, nows: seq<real>, now: real, polls: seq<real>, x: real)
    requires c.limit >= 1 && Check(Queue(c, nows), c.limit, c.window, now).Denied?
    requires InOrder(Polled(nows, now, polls), x)
    ensures NoneAdmitted(c, nows, now, polls + [x]) <==> NoneAdmitted(c, nows, now, polls) && x <= RoomAfter(c, nows, now)
  {
    var init := Polled(nows, now, polls);
    PolledInit(nows, now, polls, x);
    AdmittedSnoc(c, init, x);
    PollsOnlyAdd(c, nows, now, polls);
    if NoneAdmitted(c, nows, now, polls) {
      PollAdmitted(c, nows, now, polls, x);
    }
  }

  lemma PollsOnlyAdd(c: Config, nows: seq<real>, now: real, polls: seq<real>)
    ensures Admitted(c, nows) <= Admitted(c, Polled(nows, now, polls))
  {
    AdmittedGrows(c, nows, [now] + polls);
    assert nows + ([now] + polls) == Polled(nows, now, polls);
  }

  lemma PollAdmitted(c: Config, nows: seq<real>, now: real, polls: seq<real>, x: real)
    requires c.limit >= 1 && Check(Queue(c, nows), c.limit, c.window, now).Denied?
    requires InOrder(Polled(nows, now, polls), x) && NoneAdmitted(c, nows, now, polls)
    ensures Admits(Queue(c, Polled(nows, now, polls)), c.limit, c.window, x) <==> RoomAfter(c, nows, now) < x
  {
    RetryOutcome(c, nows, now, polls, x);
    CheckAdmits(Queue(c, Polled(nows, now, polls)), c.limit, c.window, x);
  }

  lemma AdmittedSnoc(c: Config, nows: seq<real>, now: real)
    ensures Admitted(c, nows + [now]) ==
            if Admits(Queue(c, nows), c.limit, c.window, now) then Admitted(c, nows) + [now] else Admitted(c, nows)
  {
    assert (nows + [now])[..|nows|] == nows;
  }

  lemma CheckAdmits(q: seq<real>, limit: int, window: real, now: real)
    ensures Check(q, limit, window, now).Allowed? <==> Admits(q, limit, window, now)
  {
  }

  lemma {:induction false} AdmittedGrows(c: Config, nows: seq<real>, more: seq<real>)
    ensures Admitted(c, nows) <= Admitted(c, nows + more)
  {
    if more == [] {
      assert nows + more == nows;
    } else {
      var n := |more| - 1;
      AdmittedGrows(c, nows, more[..n]);
      assert (nows + more)[..|nows + more| - 1] == nows + more[..n];
    }
  }

  /** Waiting longer than advertised works, if nothing else was admitted meanwhile. */
  lemma RetryLaterSucceeds(c: Config, nows: seq<real>, now: real, polls: seq<real>, later: real)
    requires c.limit >= 1 && Check(Queue(c, nows), c.limit, c.window, now).Denied?
    requires InOrder(Polled(nows, now, polls), later) && NoneAdmitted(c, nows, now, polls)
    ensures later > now + Check(Queue(c, nows), c.limit, c.window, now).retryAfter as real ==>
              Check(Queue(c, Polled(nows, now, polls)), c.limit, c.window, later).Allowed?
  {
    RetryOutcome(c, nows, now, polls, later);
    CeilBounds(RoomAfter(c, nows, now) - now);
  }

  /**
    Waiting exactly as long as advertised works if and only if the remaining wait is not a
    whole number of seconds (of at least one): the window is closed, so at that instant the
    oldest admission still counts.
   */
  lemma RetryExactly(c: Config, nows: seq<real>, now: real, polls: seq<real>)
    requires c.limit >= 1 && Check(Queue(c, nows), c.limit, c.window, now).Denied?
    requires NoneAdmitted(c, nows, now, polls)
    ensures var later := now + Check(Queue(c, nows), c.limit, c.window, now).retryAfter as real;
            var wait := RoomAfter(c, nows, now) - now;
            InOrder(Polled(nows, now, polls), later) ==>
              (Check(Queue(c, Polled(nows, now, polls)), c.limit, c.window, later).Allowed?
               <==> wait < 1.0 || wait.Floor as real != wait)
  {
    var later := now + Check(Queue(c, nows), c.limit, c.window, now).retryAfter as real;
    if InOrder(Polled(nows, now, polls), later) {
      RetryOutcome(c, nows, now, polls, later);
      CeilIsWhole(RoomAfter(c, nows, now) - now);
    }
  }

  lemma FloorUnique(x: real, n: int)
    requires n as real <= x < n as real + 1.0
    ensures x.Floor == n
  {
  }

  lemma CeilIsWhole(x: real)
    ensures x < Ceil(x) as real <==> x.Floor as real != x
    ensures x < AtLeastOne(Ceil(x)) as real <==> x < 1.0 || x.Floor as real != x
  {
    CeilBounds(x);
    var n := Ceil(x);
    if x == n as real {
      FloorUnique(x, n);
    } else {
      FloorUnique(x, n - 1);
    }
  }

  // ----- open streams

  /** A request for a stream, or the end of the stream that an earlier request opened. */
  datatype StreamEvent = Attempt(key: string) | Ends(stream: nat)

  ghost function KeyOf(events: seq<StreamEvent>, i: nat): string {
    if i < |events| && events[i].Attempt? then events[i].key else ""
  }

  /** The limiter's counts after the first n events; the end of a stream closes the key it was opened for. */
  ghost function Counts(events: seq<StreamEvent>, limit: int, n: nat): map<string, int>
    requires n <= |events|
  {
    if n == 0 then map[]
    else
      var sse := Counts(events, limit, n - 1);
      match events[n - 1]
      case Attempt(key) => Open(sse, key, limit)
      case Ends(i) => Close(sse, KeyOf(events, i))
  }

  /** The accepted requests whose streams have not ended. */
  ghost function OpenStreams(events: seq<StreamEvent>, limit: int, n: nat): set<nat>
    requires n <= |events|
  {
    if n == 0 then {}
    else
      var streams := OpenStreams(events, limit, n - 1);
      match events[n - 1]
      case Attempt(key) => if Active(Counts(events, limit, n - 1), key) < limit then streams + {n - 1} else streams
      case Ends(i) => streams - {i}
  }

  /** Every stream that ends is open. */
  ghost predicate Matched(events: seq<StreamEvent>, limit: int, n: nat)
    requires n <= |events|
  {
    n > 0 ==>
      && Matched(events, limit, n - 1)
      && (events[n - 1].Ends? ==> events[n - 1].stream in OpenStreams(events, limit, n - 1))
  }

  ghost function OfKey(events: seq<StreamEvent>, streams: set<nat>, key: string): set<nat> {
    set i | i in streams && KeyOf(events, i) == key
  }

  /** The count of a key is the number of its streams, and a key without streams is forgotten. */
  ghost predicate Counted(events: seq<StreamEvent>, sse: map<string, int>, streams: set<nat>, key: string) {
    && Active(sse, key) == |OfKey(events, streams, key)|
    && (key in sse <==> OfKey(events, streams, key) != {})
  }

  lemma OpenCounted(events: seq<StreamEvent>, sse: map<string, int>, streams: set<nat>, i: nat, limit: int, key: string)
    requires i !in streams && Active(sse, KeyOf(events, i)) < limit && Counted(events, sse, streams, key)
    ensures Counted(events, Open(sse, KeyOf(events, i), limit), streams + {i}, key)
  {
    var mine := OfKey(events, streams, key);
    assert OfKey(events, streams + {i}, key) == if KeyOf(events, i) == key then mine + {i} else mine;
  }

  lemma CloseCounted(events: seq<StreamEvent>, sse: map<string, int>, streams: set<nat>, i: nat, key: string)
    requires i in streams && Counted(events, sse, streams, key)
    ensures Counted(events, Close(sse, KeyOf(events, i)), streams - {i}, key)
  {
    var mine := OfKey(events, streams, key);
    assert OfKey(events, streams - {i}, key) == if KeyOf(events, i) == key then mine - {i} else mine;
    assert KeyOf(events, i) == key ==> |mine - {i}| == |mine| - 1;
    assert |mine - {i}| == 0 ==> mine - {i} == {};
  }

  lemma {:induction false} StreamsAreEarlier(events: seq<StreamEvent>, limit: int, n: nat)
    requires n <= |events|
    ensures forall i | i in OpenStreams(events, limit, n) :: i < n
  {
    if n > 0 {
      StreamsAreEarlier(events, limit, n - 1);
    }
  }

  /**
    However requests and ends of streams interleave, the count of every key is the number of its open
    streams, of which there are never more than `limit`.
   */
  lemma {:induction false} StreamsAreCounted(events: seq<StreamEvent>, limit: int, n: nat, key: string)
    requires n <= |events| && Matched(events, limit, n)
    ensures Counted(events, Counts(events, limit, n), OpenStreams(events, limit, n), key)
    ensures |OfKey(events, OpenStreams(events, limit, n), key)| <= if limit < 0 then 0 else limit
  {
    if n == 0 {
      assert OfKey(events, {}, key) == {};
    } else {
      StreamsAreCounted(events, limit, n - 1, key);
      StreamsAreEarlier(events, limit, n - 1);
      var sse, streams := Counts(events, limit, n - 1), OpenStreams(events, limit, n - 1);
      if events[n - 1].Ends? {
        CloseCounted(events, sse, streams, events[n - 1].stream, key);
        assert OpenStreams(events, limit, n) == streams - {events[n - 1].stream};
        FewerOf(events, streams - {events[n - 1].stream}, streams, key);
      } else if Active(sse, KeyOf(events, n - 1)) < limit {
        OpenCounted(events, sse, streams, n - 1, limit, key);
      }
    }
  }

  /** A stream is opened exactly when fewer than `limit` of its key are open. */
  lemma AcceptedIffRoom(events: seq<StreamEvent>, limit: int, n: nat)
    requires n < |events| && events[n].Attempt? && Matched(events, limit, n)
    ensures n in OpenStreams(events, limit, n + 1) <==>
            |OfKey(events, OpenStreams(events, limit, n), events[n].key)| < limit
  {
    StreamsAreCounted(events, limit, n, events[n].key);
    StreamsAreEarlier(events, limit, n);
  }

  lemma FewerOf(events: seq<StreamEvent>, a: set<nat>, b: set<nat>, key: string)
    requires a <= b
    ensures |OfKey(events, a, key)| <= |OfKey(events, b, key)|
  {
    SubsetSize(OfKey(events, a, key), OfKey(events, b, key));
  }

  lemma SubsetSize(a: set<nat>, b: set<nat>)
    requires a <= b
    ensures |a| <= |b|
  {
    assert b == a + (b - a);
  }
}
