/** The bounded breadth-first search over the reverse adjacency. */
module HeapSearch {
  import opened Wrappers
  import opened HeapPaths

  /** `incoming[v]` lists the nodes with an edge to v. */
  datatype Graph = Graph(incoming: seq<seq<nat>>, names: seq<string>) {
    ghost predicate Valid() {
      && |names| == |incoming|
      && forall v, i | 0 <= v < |incoming| && 0 <= i < |incoming[v]| :: incoming[v][i] < |incoming|
    }
  }

  /** A retaining chain: each node is followed by one that refers to it. */
  ghost predicate Chain(g: Graph, target: nat, p: seq<nat>) {
    && p != [] && p[0] == target
    && (forall i | 0 <= i < |p| :: p[i] < |g.incoming|)
    && forall i | 0 <= i < |p| - 1 :: p[i + 1] in g.incoming[p[i]]
  }

  /** A chain up to a root other than the target. */
  ghost predicate RootChain(g: Graph, target: nat, p: seq<nat>) {
    Chain(g, target, p) && Last(p) != target && Last(p) < |g.names| && IsRootName(g.names[Last(p)])
  }

  ghost function Last(p: seq<nat>): nat
    requires p != []
  {
    p[|p| - 1]
  }

  datatype Entry = Entry(node: nat, path: seq<nat>)

  /** All chains of at most `len` nodes end in a visited node. */
  ghost predicate Complete(g: Graph, target: nat, visited: set<nat>, len: nat) {
    forall p | Chain(g, target, p) && |p| <= len :: Last(p) in visited
  }

  ghost predicate Queued(q: seq<Entry>, v: nat) {
    exists i | 0 <= i < |q| :: q[i].node == v
  }

  ghost predicate GoodEntry(g: Graph, target: nat, visited: set<nat>, level: nat, x: Entry) {
    && Chain(g, target, x.path) && Last(x.path) == x.node && x.node in visited
    && level <= |x.path| <= level + 1
  }

  /** No chain of at most `level` nodes reaches a node that is queued one level deeper. */
  ghost predicate NotReachedSooner(g: Graph, target: nat, level: nat, x: Entry) {
    |x.path| == level + 1 ==> forall p | Chain(g, target, p) && |p| <= level :: Last(p) != x.node
  }

  ghost predicate Accounted(q: seq<Entry>, done: set<nat>, open: set<nat>, v: nat) {
    v in done || v in open || Queued(q, v)
  }

  ghost predicate ReferrersIn(g: Graph, visited: set<nat>, v: nat) {
    v < |g.incoming| ==> forall r | r in g.incoming[v] :: r in visited
  }

  ghost predicate Ordinary(g: Graph, target: nat, v: nat) {
    v < |g.incoming| && v < |g.names| && (v == target || !IsRootName(g.names[v]))
  }

  /**
    The search invariant while entries of `level` nodes are being expanded: `done` nodes
    have all their referrers visited, `open` ones are being expanded.  Its quantifiers are
    triggered by their predicates only, so that a proof instantiates what it names.
   */
  ghost predicate Inv(g: Graph, target: nat, q: seq<Entry>, visited: set<nat>, done: set<nat>, open: set<nat>, level: nat) {
    && level >= 1 && Complete(g, target, visited, level)
    && (forall v {:trigger Ordinary(g, target, v)} | v in visited :: Ordinary(g, target, v))
    && (forall i {:trigger GoodEntry(g, target, visited, level, q[i])} | 0 <= i < |q| ::
          GoodEntry(g, target, visited, level, q[i]))
    && (forall i {:trigger NotReachedSooner(g, target, level, q[i])} | 0 <= i < |q| ::
          NotReachedSooner(g, target, level, q[i]))
    && (forall i, j | 0 <= i < j < |q| :: |q[i].path| <= |q[j].path|)
    && (forall v {:trigger Accounted(q, done, open, v)} | v in visited :: Accounted(q, done, open, v))
    && (forall v {:trigger ReferrersIn(g, visited, v)} | v in done :: ReferrersIn(g, visited, v))
  }

  lemma InvInitially(g: Graph, target: nat)
    requires g.Valid() && target < |g.incoming|
    ensures Inv(g, target, [Entry(target, [target])], {target}, {}, {}, 1)
  {
    var q := [Entry(target, [target])];
    assert q[0].node == target;
    assert Queued(q, target);
  }

  /** No chain that short exists to a root other than the target. */
  ghost predicate NoRootWithin(g: Graph, target: nat, len: int) {
    forall p | RootChain(g, target, p) :: |p| > len
  }

  lemma CompleteMeansNoRoot(g: Graph, target: nat, q: seq<Entry>, visited: set<nat>, done: set<nat>, open: set<nat>, level: nat)
    requires g.Valid() && Inv(g, target, q, visited, done, open, level)
    ensures NoRootWithin(g, target, level)
  {
    forall p | RootChain(g, target, p)
      ensures |p| > level
    {
      assert Last(p) in visited ==> Ordinary(g, target, Last(p));
    }
  }

  /** With no entry of the current level left, every one-longer chain ends in a visited node. */
  lemma AdvanceLevel(g: Graph, target: nat, q: seq<Entry>, visited: set<nat>, done: set<nat>, level: nat)
    requires g.Valid() && Inv(g, target, q, visited, done, {}, level)
    requires q != [] && |q[0].path| == level + 1
    ensures Inv(g, target, q, visited, done, {}, level + 1)
  {
    forall i | 0 <= i < |q|
      ensures GoodEntry(g, target, visited, level + 1, q[i]) && |q[i].path| == level + 1
    {
      assert GoodEntry(g, target, visited, level, q[i]);
      assert i > 0 ==> |q[0].path| <= |q[i].path|;
    }
    forall p | Chain(g, target, p) && |p| <= level + 1
      ensures Last(p) in visited
    {
      if |p| == level + 1 {
        var u := p[..level];
        assert Chain(g, target, u) && Last(u) == p[level - 1];
        forall i | 0 <= i < |q|
          ensures q[i].node != Last(u)
        {
          assert NotReachedSooner(g, target, level, q[i]);
        }
        assert Accounted(q, done, {}, Last(u)) && ReferrersIn(g, visited, Last(u));
      }
    }
  }

  /** With an empty queue the visited set is closed, so no chain at all ends in a root. */
  lemma {:induction false} ClosedIsComplete(g: Graph, target: nat, visited: set<nat>, done: set<nat>, level: nat, p: seq<nat>)
    requires g.Valid() && Inv(g, target, [], visited, done, {}, level)
    requires Chain(g, target, p)
    ensures Last(p) in visited
  {
    if |p| == 1 {
      assert Complete(g, target, visited, level);
    } else {
      var u := p[..|p| - 1];
      assert Chain(g, target, u) && Last(u) == p[|p| - 2];
      ClosedIsComplete(g, target, visited, done, level, u);
      assert Accounted([], done, {}, Last(u)) && ReferrersIn(g, visited, Last(u));
    }
  }

  lemma ExhaustedMeansNoRoot(g: Graph, target: nat, visited: set<nat>, done: set<nat>, level: nat, len: int)
    requires g.Valid() && Inv(g, target, [], visited, done, {}, level)
    ensures NoRootWithin(g, target, len)
  {
    forall p | Chain(g, target, p)
      ensures !RootChain(g, target, p)
    {
      ClosedIsComplete(g, target, visited, done, level, p);
      assert Ordinary(g, target, Last(p));
    }
  }

  lemma Dequeue(g: Graph, target: nat, q: seq<Entry>, visited: set<nat>, done: set<nat>, level: nat)
    requires q != [] && Inv(g, target, q, visited, done, {}, level)
    ensures Inv(g, target, q[1..], visited, done, {q[0].node}, level)
  {
    var rest := q[1..];
    forall i | 0 <= i < |rest|
      ensures GoodEntry(g, target, visited, level, rest[i]) && NotReachedSooner(g, target, level, rest[i])
    {
      assert rest[i] == q[i + 1];
      assert GoodEntry(g, target, visited, level, q[i + 1]) && NotReachedSooner(g, target, level, q[i + 1]);
    }
    forall v | v in visited
      ensures Accounted(rest, done, {q[0].node}, v)
    {
      assert Accounted(q, done, {}, v);
      if v !in done && v != q[0].node {
        var i :| 0 <= i < |q| && q[i].node == v;
        assert rest[i - 1].node == v;
      }
    }
  }

  /** Queueing a referrer that was not seen before. */
  lemma Enqueue(g: Graph, target: nat, q: seq<Entry>, visited: set<nat>, done: set<nat>, open: set<nat>, level: nat, x: Entry)
    requires g.Valid() && Inv(g, target, q, visited, done, open, level)
    requires x.node < |g.incoming| && !IsRootName(g.names[x.node]) && x.node !in visited
    requires Chain(g, target, x.path) && Last(x.path) == x.node && |x.path| == level + 1
    ensures Inv(g, target, q + [x], visited + {x.node}, done, open, level)
  {
    var q', visited' := q + [x], visited + {x.node};
    assert q'[|q|] == x;
    forall i | 0 <= i < |q'|
      ensures GoodEntry(g, target, visited', level, q'[i]) && NotReachedSooner(g, target, level, q'[i])
    {
      if i < |q| {
        assert GoodEntry(g, target, visited, level, q[i]) && NotReachedSooner(g, target, level, q[i]);
      }
    }
    forall v | v in visited'
      ensures Accounted(q', done, open, v) && Ordinary(g, target, v)
    {
      if v in visited {
        assert Accounted(q, done, open, v) && Ordinary(g, target, v);
        if v !in done && v !in open {
          var i :| 0 <= i < |q| && q[i].node == v;
          assert q'[i].node == v;
        }
      }
    }
    forall i, j | 0 <= i < j < |q'|
      ensures |q'[i].path| <= |q'[j].path|
    {
      assert i < |q| ==> GoodEntry(g, target, visited, level, q[i]);
    }
    forall v | v in done
      ensures ReferrersIn(g, visited', v)
    {
      assert ReferrersIn(g, visited, v);
    }
  }

  lemma Finish(g: Graph, target: nat, q: seq<Entry>, visited: set<nat>, done: set<nat>, cur: nat, level: nat)
    requires Inv(g, target, q, visited, done, {cur}, level)
    requires cur < |g.incoming| && forall r | r in g.incoming[cur] :: r in visited
    ensures Inv(g, target, q, visited, done + {cur}, {}, level)
  {
    forall v | v in visited
      ensures Accounted(q, done + {cur}, {}, v)
    {
      assert Accounted(q, done, {cur}, v);
    }
    forall v | v in done + {cur}
      ensures ReferrersIn(g, visited, v)
    {
      assert v in done ==> ReferrersIn(g, visited, v);
    }
  }

  lemma ExtendChain(g: Graph, target: nat, p: seq<nat>, r: nat)
    requires g.Valid() && Chain(g, target, p) && r in g.incoming[Last(p)]
    ensures Chain(g, target, p + [r]) && Last(p + [r]) == r && r < |g.incoming|
  {
    var p' := p + [r];
    forall i | 0 <= i < |p'| - 1
      ensures p'[i + 1] in g.incoming[p'[i]]
    {
      assert p'[i] == p[i];
    }
  }

  lemma RootFound(g: Graph, target: nat, q: seq<Entry>, visited: set<nat>, done: set<nat>, open: set<nat>, level: nat,
                  path: seq<nat>, r: nat)
    requires g.Valid() && Inv(g, target, q, visited, done, open, level)
    requires Chain(g, target, path) && r in g.incoming[Last(path)] && r !in visited
    requires r < |g.names| && IsRootName(g.names[r])
    ensures RootChain(g, target, path + [r])
  {
    ExtendChain(g, target, path, r);
    assert path[..1] == [target];
    assert Chain(g, target, path[..1]);
  }

  ghost function NodesBelow(n: nat): (r: set<nat>)
    ensures forall v: nat :: v in r <==> v < n
  {
    if n == 0 then {} else NodesBelow(n - 1) + {n - 1}
  }

  /** Once an entry is too deep to expand, the rest of the queue is too. */
  ghost predicate TooDeep(q: seq<Entry>, maxDepth: int) {
    forall i | 0 <= i < |q| :: |q[i].path| > maxDepth
  }

  lemma VisitedBelow(g: Graph, target: nat, q: seq<Entry>, visited: set<nat>, done: set<nat>, open: set<nat>, level: nat)
    requires Inv(g, target, q, visited, done, open, level)
    ensures visited <= NodesBelow(|g.incoming|)
  {
    forall v | v in visited
      ensures v < |g.incoming|
    {
      assert Ordinary(g, target, v);
    }
  }

  /** Taking the head of the queue: its path length is the level now being expanded. */
  lemma TakeHead(g: Graph, target: nat, q: seq<Entry>, visited: set<nat>, done: set<nat>, level: nat) returns (level': nat)
    requires g.Valid() && q != [] && Inv(g, target, q, visited, done, {}, level)
    ensures Inv(g, target, q[1..], visited, done, {q[0].node}, level')
    ensures Chain(g, target, q[0].path) && Last(q[0].path) == q[0].node && |q[0].path| == level'
    ensures NoRootWithin(g, target, level')
    ensures forall m: int | level' > m :: TooDeep(q[1..], m)
  {
    level' := level;
    assert GoodEntry(g, target, visited, level, q[0]);
    if |q[0].path| == level + 1 {
      AdvanceLevel(g, target, q, visited, done, level);
      level' := level + 1;
    }
    CompleteMeansNoRoot(g, target, q, visited, done, {}, level');
    Dequeue(g, target, q, visited, done, level');
  }

  /**
    The search: a shortest retaining chain to a root other than the target, or None exactly
    when every such chain has more than maxDepth edges.
   */
  method FindPath(g: Graph, target: nat, maxDepth: int) returns (found: Option<seq<nat>>)
    requires g.Valid() && target < |g.incoming|
    ensures found.Some? ==>
              && RootChain(g, target, found.value) && |found.value| - 1 <= maxDepth
              && forall p | RootChain(g, target, p) :: |found.value| <= |p|
    ensures found.None? <==> forall p | RootChain(g, target, p) :: |p| - 1 > maxDepth
  {
    var q := [Entry(target, [target])];
    var visited := {target};
    ghost var done, level, deep := {}, 1, false;
    ghost var all := NodesBelow(|g.incoming|);
    InvInitially(g, target);
    while q != []
      invariant !deep ==> Inv(g, target, q, visited, done, {}, level)
      invariant deep ==> TooDeep(q, maxDepth) && NoRootWithin(g, target, maxDepth + 1)
      invariant visited <= all
      decreases all - visited, |q|
    {
      var cur, path := q[0].node, q[0].path;
      if !deep {
        level := TakeHead(g, target, q, visited, done, level);
      }
      q := q[1..];
      if |path| > maxDepth {
        deep := true;
      } else {
        var root, q', visited' := Expand(g, target, q, visited, done, level, cur, path);
        if root.Some? {
          found := root;
          return;
        }
        Finish(g, target, q', visited', done, cur, level);
        q, visited, done := q', visited', done + {cur};
        VisitedBelow(g, target, q, visited, done, {}, level);
      }
    }
    if !deep {
      ExhaustedMeansNoRoot(g, target, visited, done, level, maxDepth + 1);
    }
    found := None;
  }

  /** The inner loop over the referrers of one node. */
  method Expand(g: Graph, target: nat, q0: seq<Entry>, visited0: set<nat>, ghost done: set<nat>, ghost level: nat,
                cur: nat, path: seq<nat>)
      returns (root: Option<seq<nat>>, q: seq<Entry>, visited: set<nat>)
    requires g.Valid() && Inv(g, target, q0, visited0, done, {cur}, level)
    requires Chain(g, target, path) && Last(path) == cur && |path| == level
    ensures root.Some? ==> RootChain(g, target, root.value) && |root.value| == level + 1
    ensures root.None? ==> Inv(g, target, q, visited, done, {cur}, level)
    ensures root.None? ==> forall r | r in g.incoming[cur] :: r in visited
    ensures root.None? ==> visited0 <= visited && (visited == visited0 ==> q == q0)
  {
    root, q, visited := None, q0, visited0;
    var refs, i := g.incoming[cur], 0;
    while i < |refs|
      invariant 0 <= i <= |refs|
      invariant Inv(g, target, q, visited, done, {cur}, level)
      invariant forall j | 0 <= j < i :: refs[j] in visited
      invariant visited0 <= visited && (visited == visited0 ==> q == q0)
    {
      root, q, visited := VisitReferrer(g, target, q, visited, done, level, cur, path, refs[i]);
      if root.Some? {
        return;
      }
      i := i + 1;
    }
    root := None;
  }

  method VisitReferrer(g: Graph, target: nat, q0: seq<Entry>, visited0: set<nat>, ghost done: set<nat>, ghost level: nat,
                       cur: nat, path: seq<nat>, r: nat)
      returns (root: Option<seq<nat>>, q: seq<Entry>, visited: set<nat>)
    requires g.Valid() && Inv(g, target, q0, visited0, done, {cur}, level)
    requires Chain(g, target, path) && Last(path) == cur && |path| == level && r in g.incoming[cur]
    ensures root.Some? ==> RootChain(g, target, root.value) && |root.value| == level + 1
    ensures root.None? ==> Inv(g, target, q, visited, done, {cur}, level)
    ensures root.None? ==> r in visited && visited0 <= visited && (visited == visited0 ==> q == q0)
  {
    root, q, visited := None, q0, visited0;
    if r in visited {
      return;
    }
    var newPath := path + [r];
    ExtendChain(g, target, path, r);
    if IsRootName(g.names[r]) {
      RootFound(g, target, q, visited, done, {cur}, level, path, r);
      root := Some(newPath);
      return;
    }
    Enqueue(g, target, q, visited, done, {cur}, level, Entry(r, newPath));
    visited := visited + {r};
    q := q + [Entry(r, newPath)];
  }

  // ----- from the flat tables to a chain of edges

  lemma SourcesAreNodes(adj: seq<seq<Option<int>>>, t: nat)
    ensures forall r: nat :: r in Sources(adj, |adj|, t) <==> r < |adj| && Some(t) in adj[r]
  {
    forall r: nat
      ensures r in Sources(adj, |adj|, t) <==> r < |adj| && Some(t) in adj[r]
    {
      SourcesCount(adj, |adj|, t, r);
      assert r in Sources(adj, |adj|, t) <==> r in multiset(Sources(adj, |adj|, t));
      assert r < |adj| ==> (Some(t) in adj[r] <==> Some(t) in multiset(adj[r]));
    }
  }

  /** p leads from the target, against the edges as the script reads them, to a root other than the target. */
  ghost predicate Retains(s: Snapshot, names: seq<string>, target: nat, p: seq<nat>)
    requires s.Valid() && |names| == s.NodeCount()
  {
    && p != [] && p[0] == target && (forall i | 0 <= i < |p| :: p[i] < s.NodeCount())
    && (forall i | 0 <= i < |p| - 1 :: Some(p[i]) in s.TargetsOf(p[i + 1]))
    && Last(p) != target && IsRootName(names[Last(p)])
  }

  lemma RetainsIsRootChain(s: Snapshot, g: Graph, target: nat, p: seq<nat>)
    requires s.Valid() && |g.incoming| == |g.names| == s.NodeCount()
    requires forall t | 0 <= t < |g.incoming| :: g.incoming[t] == Sources(Adjacency(s), s.NodeCount(), t)
    ensures Retains(s, g.names, target, p) <==> RootChain(g, target, p)
  {
    forall t | 0 <= t < |g.incoming| {
      SourcesAreNodes(Adjacency(s), t);
    }
  }

  /** The script for one target: read the tables, reverse the edges, search. */
  method TraceTarget(s: Snapshot, names: seq<string>, target: nat, maxDepth: int) returns (found: Option<seq<nat>>)
    requires s.Valid() && |names| == s.NodeCount() && target < s.NodeCount()
    ensures found.Some? ==>
              && Retains(s, names, target, found.value) && |found.value| - 1 <= maxDepth
              && forall p | Retains(s, names, target, p) :: |found.value| <= |p|
    ensures found.None? <==> forall p | Retains(s, names, target, p) :: |p| - 1 > maxDepth
  {
    var incoming := BuildIncoming(s);
    var g := Graph(incoming[..], names);
    forall t | 0 <= t < |g.incoming| {
      SourcesAreNodes(Adjacency(s), t);
    }
    assert g.Valid() by {
      forall v, i | 0 <= v < |g.incoming| && 0 <= i < |g.incoming[v]|
        ensures g.incoming[v][i] < |g.incoming|
      {
        assert g.incoming[v][i] in Sources(Adjacency(s), |Adjacency(s)|, v);
      }
    }
    forall p {
      RetainsIsRootChain(s, g, target, p);
    }
    found := FindPath(g, target, maxDepth);
  }

  // ----- what the answers mean for the graph behind the tables

  /** p leads from the target, against edges of the graph, to a root other than the target. */
  ghost predicate Leads(out: seq<seq<nat>>, names: seq<string>, target: nat, p: seq<nat>)
    requires |names| == |out|
  {
    && p != [] && p[0] == target && (forall i | 0 <= i < |p| :: p[i] < |out|)
    && (forall i | 0 <= i < |p| - 1 :: p[i] in out[p[i + 1]])
    && Last(p) != target && IsRootName(names[Last(p)])
  }

  /** The script takes n for a source of t. */
  ghost predicate Reads(s: Snapshot, t: nat, n: nat)
    requires s.Valid() && n < s.NodeCount()
  {
    Some(t) in s.TargetsOf(n)
  }

  /** On a snapshot that names node t by scale * t, the edges read are the named ones. */
  lemma EdgesRead(s: Snapshot, out: seq<seq<nat>>, scale: nat, t: nat, n: nat)
    requires Encodes(s, out, scale) && n < |out|
    ensures s.NodeCount() == |out|
    ensures Reads(s, t, n) <==> exists e | 0 <= e < |out[n]| :: scale * out[n][e] == t
  {
    EncodedTables(s, out, scale);
    OffsetOfEncoding(s, out, scale, n);
    var targets := s.TargetsOf(n);
    assert forall e | 0 <= e < |out[n]| :: targets[e] == Some(scale * out[n][e]);
    if Reads(s, t, n) {
      var e :| 0 <= e < |targets| && targets[e] == Some(t);
      assert scale * out[n][e] == t;
    }
    if e :| 0 <= e < |out[n]| && scale * out[n][e] == t {
      assert targets[e] == Some(t);
    }
  }

  /** The edges that the script follows are those of the graph. */
  ghost predicate FollowsGraph(s: Snapshot, out: seq<seq<nat>>)
    requires s.Valid() && s.NodeCount() == |out|
  {
    forall t, n | 0 <= t < |out| && 0 <= n < |out| :: Reads(s, t, n) <==> t in out[n]
  }

  lemma FollowsWhenUnscaled(s: Snapshot, out: seq<seq<nat>>, scale: nat)
    requires Encodes(s, out, scale) && (scale == 1 || OnlyToFirst(out))
    ensures s.NodeCount() == |out| && FollowsGraph(s, out)
  {
    EncodedTables(s, out, scale);
    forall t, n | 0 <= t < |out| && 0 <= n < |out|
      ensures Reads(s, t, n) <==> t in out[n]
    {
      EdgesRead(s, out, scale, t, n);
      if t in out[n] {
        var e :| 0 <= e < |out[n]| && out[n][e] == t;
        assert scale * out[n][e] == t;
      }
    }
  }

  /**
    The script follows the edges of the graph if and only if nodes are named by their numbers or every edge
    leads to node 0; then the chains that TraceTarget answers about are the retaining chains of the graph.
    Otherwise it follows other edges, those of EdgesRead.
   */
  lemma FollowsGraphExactly(s: Snapshot, out: seq<seq<nat>>, scale: nat)
    requires Encodes(s, out, scale) && scale >= 1
    requires forall n, e | 0 <= n < |out| && 0 <= e < |out[n]| :: out[n][e] < |out|
    ensures s.NodeCount() == |out| && (FollowsGraph(s, out) <==> scale == 1 || OnlyToFirst(out))
    ensures FollowsGraph(s, out) ==>
              forall names, target, p {:trigger Leads(out, names, target, p)} | |names| == |out| ::
                Retains(s, names, target, p) <==> Leads(out, names, target, p)
  {
    EncodedTables(s, out, scale);
    if scale == 1 || OnlyToFirst(out) {
      FollowsWhenUnscaled(s, out, scale);
    } else {
      var n, e :| 0 <= n < |out| && 0 <= e < |out[n]| && out[n][e] != 0;
      var v := LeastPositive(out[n], e);
      LeastUnread(s, out, scale, n, v);
    }
    if FollowsGraph(s, out) {
      forall names, target, p | |names| == |out|
        ensures Retains(s, names, target, p) <==> Leads(out, names, target, p)
      {
        SameChains(s, out, names, target, p);
      }
    }
  }

  lemma LeastUnread(s: Snapshot, out: seq<seq<nat>>, scale: nat, n: nat, v: nat)
    requires Encodes(s, out, scale) && scale >= 2 && n < |out| && IsLeastPositive(out[n], v) && v < |out|
    ensures s.NodeCount() == |out| && v in out[n] && !Reads(s, v, n) && !FollowsGraph(s, out)
  {
    EncodedTables(s, out, scale);
    EdgesRead(s, out, scale, v, n);
    forall e | 0 <= e < |out[n]|
      ensures scale * out[n][e] != v
    {
      assert out[n][e] in out[n];
      if out[n][e] > 0 {
        ScaledIsMore(scale, out[n][e]);
      }
    }
  }

  lemma SameChains(s: Snapshot, out: seq<seq<nat>>, names: seq<string>, target: nat, p: seq<nat>)
    requires s.Valid() && s.NodeCount() == |out| == |names| && FollowsGraph(s, out)
    ensures Retains(s, names, target, p) <==> Leads(out, names, target, p)
  {
    if forall i | 0 <= i < |p| :: p[i] < |out| {
      forall i | 0 <= i < |p| - 1
        ensures Some(p[i]) in s.TargetsOf(p[i + 1]) <==> p[i] in out[p[i + 1]]
      {
        assert Reads(s, p[i], p[i + 1]) <==> p[i] in out[p[i + 1]];
      }
    }
  }
}
