/**
  Tracing why a heap object is retained: the reverse adjacency of a flat snapshot, and
  the bounded breadth-first search from a target object up to a root.
 */
module HeapPaths {
  import opened Wrappers

  // ----- root names

  predicate StartsWith(s: string, prefix: string) {
    prefix <= s
  }

  predicate Includes(s: string, sub: string) {
    exists i | 0 <= i <= |s| :: sub <= s[i..]
  }

  predicate IsRootName(name: string) {
    name != "" &&
    (|| StartsWith(name, "(") || StartsWith(name, "Window")
     || (Includes(name, "global") && Includes(name, "Window"))
     || Includes(name, "Startup") || Includes(name, "Eternal") || Includes(name, "Global handles"))
  }

  /**
    The names of roots: those that begin with a parenthesis or with Window, those that mention both global
    and Window, and those that mention Startup, Eternal or Global handles; the empty name is none.
   */
  lemma RootNames(a: string, b: string)
    ensures IsRootName("(" + a) && IsRootName("Window" + a)
    ensures IsRootName(a + "Startup" + b) && IsRootName(a + "Eternal" + b) && IsRootName(a + "Global handles" + b)
    ensures Includes(a, "global") && Includes(a, "Window") ==> IsRootName(a)
    ensures IsRootName(a) ==>
              || (a != "" && a[0] == '(') || (|a| >= 6 && a[..6] == "Window")
              || (Includes(a, "global") && Includes(a, "Window"))
              || Includes(a, "Startup") || Includes(a, "Eternal") || Includes(a, "Global handles")
    ensures !IsRootName("")
  {
    Mentions(a, "Startup", b);
    Mentions(a, "Eternal", b);
    Mentions(a, "Global handles", b);
    assert ("(" + a)[0] == '(';
    assert ("Window" + a)[..6] == "Window";
  }

  /** A name mentions what stands anywhere in it. */
  lemma Mentions(a: string, sub: string, b: string)
    ensures Includes(a + sub + b, sub)
  {
    assert (a + sub + b)[|a|..] == sub + b;
  }

  /** And only that. */
  lemma MentionsExactly(s: string, sub: string)
    ensures Includes(s, sub) <==> exists a, b :: s == a + sub + b
  {
    if Includes(s, sub) {
      var i :| 0 <= i <= |s| && sub <= s[i..];
      var a, b := s[..i], s[i..][|sub|..];
      assert s == a + sub + b;
    }
    if a, b :| s == a + sub + b {
      Mentions(a, sub, b);
    }
  }

  // ----- reverse adjacency

  /** A snapshot: two flat tables of integers, and where the interesting fields lie. */
  datatype Snapshot = Snapshot(
    nodes: seq<int>, edges: seq<int>,
    nodeFieldCount: nat, edgeFieldCount: nat, edgeCountIdx: nat, toNodeIdx: nat)
  {
    /** Otherwise the script stops with an error before it builds anything. */
    ghost predicate Valid() {
      && 0 <= edgeCountIdx < nodeFieldCount && toNodeIdx < edgeFieldCount
      && |nodes| % nodeFieldCount == 0
    }

    function NodeCount(): nat
      requires nodeFieldCount > 0
    {
      |nodes| / nodeFieldCount
    }

    function EdgeCount(n: nat): int
      requires Valid() && n < NodeCount()
    {
      RowInRange(n);
      nodes[n * nodeFieldCount + edgeCountIdx]
    }

    lemma RowInRange(n: nat)
      requires Valid() && n < NodeCount()
      ensures 0 <= n * nodeFieldCount + edgeCountIdx < |nodes|
    {
      var c := NodeCount();
      assert |nodes| == c * nodeFieldCount;
      assert (n + 1) * nodeFieldCount <= c * nodeFieldCount by { MulMono(n + 1, c, nodeFieldCount); }
    }

    /** Where the edges of node n start in the edge table. */
    ghost function Offset(n: nat): int
      requires Valid() && n <= NodeCount()
    {
      if n == 0 then 0 else Offset(n - 1) + EdgeCount(n - 1) * edgeFieldCount
    }

    /** The to_node field of the e-th edge at an offset; reading past the table finds nothing. */
    function TargetAt(offset: int, e: nat): Option<int> {
      var i := offset + e * edgeFieldCount + toNodeIdx;
      if 0 <= i < |edges| then Some(edges[i]) else None
    }

    ghost function TargetsOf(n: nat): (ts: seq<Option<int>>)
      requires Valid() && n < NodeCount()
      ensures |ts| == if EdgeCount(n) < 0 then 0 else EdgeCount(n)
    {
      var c := if EdgeCount(n) < 0 then 0 else EdgeCount(n);
      seq(c, e requires 0 <= e < c => TargetAt(Offset(n), e))
    }
  }

  lemma MulMono(a: nat, b: nat, c: nat)
    requires a <= b
    ensures a * c <= b * c
  {
  }

  function Repeat(n: nat, times: nat): (r: seq<nat>)
    ensures |r| == times && forall i | 0 <= i < times :: r[i] == n
  {
    seq(times, _ => n)
  }

  /** The targets of every node's edges, as the flat tables list them. */
  ghost function Adjacency(s: Snapshot): seq<seq<Option<int>>>
    requires s.Valid()
  {
    seq(s.NodeCount(), n requires 0 <= n < s.NodeCount() => s.TargetsOf(n))
  }

  /** The sources that the first n nodes record for node t, in order. */
  ghost function Sources(adj: seq<seq<Option<int>>>, n: nat, t: nat): seq<nat>
    requires n <= |adj|
  {
    if n == 0 then [] else Sources(adj, n - 1, t) + Repeat(n - 1, multiset(adj[n - 1])[Some(t)])
  }

  lemma RepeatMore(n: nat, times: nat)
    ensures Repeat(n, times) + [n] == Repeat(n, times + 1)
  {
  }

  method BuildIncoming(s: Snapshot) returns (incoming: array<seq<nat>>)
    requires s.Valid()
    ensures fresh(incoming) && incoming.Length == s.NodeCount()
    ensures forall t | 0 <= t < incoming.Length :: incoming[t] == Sources(Adjacency(s), s.NodeCount(), t)
  {
    var count := s.NodeCount();
    incoming := new seq<nat>[count](_ => []);
    var eOffset := 0;
    for n := 0 to count
      invariant eOffset == s.Offset(n)
      invariant forall t | 0 <= t < count :: incoming[t] == Sources(Adjacency(s), n, t)
    {
      PushEdges(s, incoming, n, eOffset);
      eOffset := eOffset + s.EdgeCount(n) * s.edgeFieldCount;
    }
  }

  /** The inner loop: push node n once for each of its edges whose target exists. */
  method PushEdges(s: Snapshot, incoming: array<seq<nat>>, n: nat, eOffset: int)
    requires s.Valid() && n < s.NodeCount() == incoming.Length && eOffset == s.Offset(n)
    modifies incoming
    ensures forall t | 0 <= t < incoming.Length ::
              incoming[t] == old(incoming[t]) + Repeat(n, multiset(s.TargetsOf(n))[Some(t)])
  {
    ghost var targets := s.TargetsOf(n);
    var ecount := s.EdgeCount(n);
    var e := 0;
    while e < ecount
      invariant 0 <= e <= |targets|
      invariant forall t | 0 <= t < incoming.Length ::
                  incoming[t] == old(incoming[t]) + Repeat(n, multiset(targets[..e])[Some(t)])
    {
      var toNode := s.TargetAt(eOffset, e);
      assert toNode == targets[e];
      assert targets[..e + 1] == targets[..e] + [toNode];
      if toNode.Some? && 0 <= toNode.value < incoming.Length {
        RepeatMore(n, multiset(targets[..e])[toNode]);
        incoming[toNode.value] := incoming[toNode.value] + [n];
      }
      e := e + 1;
    }
    assert targets[..e] == targets;
  }

  lemma RepeatCount(n: nat, times: nat, m: nat)
    ensures multiset(Repeat(n, times))[m] == if m == n then times else 0
  {
    if times > 0 {
      RepeatCount(n, times - 1, m);
      RepeatMore(n, times - 1);
    } else {
      assert Repeat(n, times) == [];
    }
  }

  lemma CountConcat(a: seq<nat>, b: seq<nat>, m: nat)
    ensures multiset(a + b)[m] == multiset(a)[m] + multiset(b)[m]
  {
  }

  /** `incoming` is the exact reverse adjacency: n occurs in incoming[t] once per edge n -> t. */
  lemma {:induction false} SourcesCount(adj: seq<seq<Option<int>>>, n: nat, t: nat, m: nat)
    requires n <= |adj|
    ensures multiset(Sources(adj, n, t))[m] == if m < n then multiset(adj[m])[Some(t)] else 0
  {
    if n > 0 {
      SourcesCount(adj, n - 1, t, m);
      var times := multiset(adj[n - 1])[Some(t)];
      RepeatCount(n - 1, times, m);
      CountConcat(Sources(adj, n - 1, t), Repeat(n - 1, times), m);
    }
  }

  /**
    The snapshot `s` lists the adjacency lists `out`, node after node and edge after edge, naming node t
    by the number scale * t.  With scale 1 that is the node's number; V8 writes its offset in the node
    table, so there the scale is the number of node fields.
   */
  ghost predicate Encodes(s: Snapshot, out: seq<seq<nat>>, scale: nat) {
    && s.Valid() && |s.nodes| == |out| * s.nodeFieldCount
    && (forall n {:trigger CountsEdges(s, n, |out[n]|)} | 0 <= n < |out| :: CountsEdges(s, n, |out[n]|))
    && (forall n, e {:trigger Names(s, EdgesBefore(out, n), e, scale * out[n][e])} | 0 <= n < |out| && 0 <= e < |out[n]| ::
          Names(s, EdgesBefore(out, n), e, scale * out[n][e]))
  }

  /** Row n of the node table says that the node has that many edges. */
  ghost predicate CountsEdges(s: Snapshot, n: nat, count: nat) {
    var i := n * s.nodeFieldCount + s.edgeCountIdx;
    0 <= i < |s.nodes| && s.nodes[i] == count
  }

  /** Row `before + e` of the edge table leads to the node of that name. */
  ghost predicate Names(s: Snapshot, before: nat, e: nat, name: int) {
    var i := (before + e) * s.edgeFieldCount + s.toNodeIdx;
    0 <= i < |s.edges| && s.edges[i] == name
  }

  lemma NodeCountIs(s: Snapshot, count: nat)
    requires s.Valid() && |s.nodes| == count * s.nodeFieldCount
    ensures s.NodeCount() == count
  {
    DivisionUndoes(count, s.nodeFieldCount);
  }

  lemma DivisionUndoes(a: nat, d: nat)
    requires d > 0
    ensures a * d / d == a
  {
    var q := a * d / d;
    assert q * d <= a * d < q * d + d;
    assert (q + 1) * d == q * d + d && (a + 1) * d == a * d + d;
    ProductOrder(a, q + 1, d);
    ProductOrder(q, a + 1, d);
  }

  lemma ProductOrder(a: nat, b: nat, d: nat)
    requires a * d < b * d
    ensures a < b
  {
    if b <= a {
      MulMono(b, a, d);
    }
  }

  /** What the script reads from such tables. */
  lemma EncodedTables(s: Snapshot, out: seq<seq<nat>>, scale: nat)
    requires Encodes(s, out, scale)
    ensures s.NodeCount() == |out| && forall n | 0 <= n < |out| :: s.EdgeCount(n) == |out[n]|
    ensures forall n, e | 0 <= n < |out| && 0 <= e < |out[n]| ::
              s.TargetAt(EdgesBefore(out, n) * s.edgeFieldCount, e) == Some(scale * out[n][e])
  {
    NodeCountIs(s, |out|);
    forall n | 0 <= n < |out|
      ensures s.EdgeCount(n) == |out[n]|
    {
      assert CountsEdges(s, n, |out[n]|);
    }
    forall n, e | 0 <= n < |out| && 0 <= e < |out[n]|
      ensures s.TargetAt(EdgesBefore(out, n) * s.edgeFieldCount, e) == Some(scale * out[n][e])
    {
      assert Names(s, EdgesBefore(out, n), e, scale * out[n][e]);
      assert (EdgesBefore(out, n) + e) * s.edgeFieldCount == EdgesBefore(out, n) * s.edgeFieldCount + e * s.edgeFieldCount;
    }
  }

  ghost function EdgesBefore(out: seq<seq<nat>>, n: nat): nat
    requires n <= |out|
  {
    if n == 0 then 0 else EdgesBefore(out, n - 1) + |out[n - 1]|
  }

  lemma {:induction false} OffsetOfEncoding(s: Snapshot, out: seq<seq<nat>>, scale: nat, n: nat)
    requires Encodes(s, out, scale) && n <= |out|
    ensures s.NodeCount() == |out| && s.Offset(n) == EdgesBefore(out, n) * s.edgeFieldCount
  {
    EncodedTables(s, out, scale);
    if n > 0 {
      OffsetOfEncoding(s, out, scale, n - 1);
      assert EdgesBefore(out, n) * s.edgeFieldCount
          == EdgesBefore(out, n - 1) * s.edgeFieldCount + |out[n - 1]| * s.edgeFieldCount;
    }
  }

  /** How many of the numbers, scaled, are t. */
  ghost function CountScaled(xs: seq<nat>, scale: nat, t: nat): nat {
    if xs == [] then 0
    else CountScaled(xs[..|xs| - 1], scale, t) + (if scale * xs[|xs| - 1] == t then 1 else 0)
  }

  lemma {:induction false} ScaledCount(xs: seq<nat>, ys: seq<Option<int>>, scale: nat, t: nat)
    requires |ys| == |xs| && forall i | 0 <= i < |xs| :: ys[i] == Some(scale * xs[i])
    ensures multiset(ys)[Some(t)] == CountScaled(xs, scale, t)
  {
    if xs != [] {
      var k := |xs| - 1;
      ScaledCount(xs[..k], ys[..k], scale, t);
      assert ys == ys[..k] + [ys[k]];
    }
  }

  lemma {:induction false} NoneScaled(xs: seq<nat>, scale: nat, t: nat)
    requires forall i | 0 <= i < |xs| :: scale * xs[i] != t
    ensures CountScaled(xs, scale, t) == 0
  {
    if xs != [] {
      NoneScaled(xs[..|xs| - 1], scale, t);
    }
  }

  lemma {:induction false} ScalingIgnored(xs: seq<nat>, scale: nat, t: nat)
    requires forall i | 0 <= i < |xs| :: scale * xs[i] == t <==> xs[i] == t
    ensures CountScaled(xs, scale, t) == multiset(xs)[t]
  {
    if xs != [] {
      var k := |xs| - 1;
      ScalingIgnored(xs[..k], scale, t);
      assert xs == xs[..k] + [xs[k]];
    }
  }

  /** What is read back, whatever the scale: n is a source of t once for each of its edges to a node named t. */
  lemma EncodingIsReversed(s: Snapshot, out: seq<seq<nat>>, scale: nat, t: nat, n: nat)
    requires Encodes(s, out, scale) && n < |out|
    ensures s.NodeCount() == |out|
    ensures multiset(Sources(Adjacency(s), |out|, t))[n] == CountScaled(out[n], scale, t)
    ensures scale == 1 ==> multiset(Sources(Adjacency(s), |out|, t))[n] == multiset(out[n])[t]
  {
    EncodedTables(s, out, scale);
    SourcesCount(Adjacency(s), |out|, t, n);
    OffsetOfEncoding(s, out, scale, n);
    ScaledCount(out[n], s.TargetsOf(n), scale, t);
    if scale == 1 {
      ScalingIgnored(out[n], scale, t);
    }
  }

  /** The reading of the snapshot reverses every edge of the graph, with multiplicity. */
  ghost predicate Reverses(s: Snapshot, out: seq<seq<nat>>)
    requires s.Valid() && s.NodeCount() == |out|
  {
    forall t, n | 0 <= t < |out| && 0 <= n < |out| ::
      multiset(Sources(Adjacency(s), |out|, t))[n] == multiset(out[n])[t]
  }

  ghost predicate OnlyToFirst(out: seq<seq<nat>>) {
    forall n, e | 0 <= n < |out| && 0 <= e < |out[n]| :: out[n][e] == 0
  }

  ghost predicate IsLeastPositive(xs: seq<nat>, v: nat) {
    v in xs && v > 0 && forall x | x in xs && x > 0 :: v <= x
  }

  /** The least positive member of a list that has one. */
  lemma LeastPositive(xs: seq<nat>, e: nat) returns (v: nat)
    requires e < |xs| && xs[e] > 0
    ensures IsLeastPositive(xs, v)
  {
    v := xs[e];
    for k := 0 to |xs|
      invariant v in xs && v > 0 && forall j | 0 <= j < k && xs[j] > 0 :: v <= xs[j]
    {
      if 0 < xs[k] < v {
        v := xs[k];
      }
    }
  }

  lemma ScaledIsMore(scale: nat, x: nat)
    requires scale >= 2 && x > 0
    ensures scale * x > x
  {
    assert scale * x == x + (scale - 1) * x;
    MulMono(1, scale - 1, x);
  }

  /** The least positive target of a node is not the scaled number of any target of it. */
  lemma LeastTargetMissed(s: Snapshot, out: seq<seq<nat>>, scale: nat, n: nat, v: nat)
    requires s.Valid() && s.NodeCount() == |out| && n < |out|
    ensures scale >= 2 && Encodes(s, out, scale) && IsLeastPositive(out[n], v) ==>
              multiset(Sources(Adjacency(s), |out|, v))[n] == 0 < multiset(out[n])[v]
  {
    if scale >= 2 && Encodes(s, out, scale) && IsLeastPositive(out[n], v) {
      EncodingIsReversed(s, out, scale, v, n);
      forall i | 0 <= i < |out[n]|
        ensures scale * out[n][i] != v
      {
        assert out[n][i] in out[n];
        if out[n][i] > 0 {
          ScaledIsMore(scale, out[n][i]);
        }
      }
      NoneScaled(out[n], scale, v);
    }
  }

  /**
    The script takes `to_node` for a node number.  On a snapshot that names nodes by their offsets, as V8
    does, `incoming` is the reverse of the graph if and only if there is one field per node, or every
    edge leads to node 0.
   */
  lemma OffsetsReversedExactly(s: Snapshot, out: seq<seq<nat>>)
    requires Encodes(s, out, s.nodeFieldCount)
    requires forall n, e | 0 <= n < |out| && 0 <= e < |out[n]| :: out[n][e] < |out|
    ensures s.NodeCount() == |out| && (Reverses(s, out) <==> s.nodeFieldCount == 1 || OnlyToFirst(out))
  {
    NodeCountIs(s, |out|);
    var scale := s.nodeFieldCount;
    if scale == 1 || OnlyToFirst(out) {
      UnscaledIsReversed(s, out, scale);
    } else {
      var n, e :| 0 <= n < |out| && 0 <= e < |out[n]| && out[n][e] != 0;
      var v := LeastPositive(out[n], e);
      LeastTargetMissed(s, out, scale, n, v);
      assert v < |out|;
    }
  }

  lemma UnscaledIsReversed(s: Snapshot, out: seq<seq<nat>>, scale: nat)
    requires Encodes(s, out, scale) && (scale == 1 || OnlyToFirst(out))
    ensures s.NodeCount() == |out| && Reverses(s, out)
  {
    NodeCountIs(s, |out|);
    forall t, n | 0 <= t < |out| && 0 <= n < |out|
      ensures multiset(Sources(Adjacency(s), |out|, t))[n] == multiset(out[n])[t]
    {
      UnscaledSources(s, out, scale, t, n);
    }
  }

  lemma UnscaledSources(s: Snapshot, out: seq<seq<nat>>, scale: nat, t: nat, n: nat)
    requires Encodes(s, out, scale) && (scale == 1 || OnlyToFirst(out)) && n < |out|
    ensures s.NodeCount() == |out| && multiset(Sources(Adjacency(s), |out|, t))[n] == multiset(out[n])[t]
  {
    EncodingIsReversed(s, out, scale, t, n);
    ScalingIgnored(out[n], scale, t);
  }
}
