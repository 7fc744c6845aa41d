/** The top and bottom rankings of the symbol states. */
module ContributionRanking {
  import opened TextOrder
  import opened IndexContribution
  import opened ContributionTheorems

  datatype Side = Top | Bottom

  /** The sort keys (-points, symbol) and (points, symbol). */
  predicate Before(side: Side, a: SymbolState, b: SymbolState) {
    if a.points != b.points then (if side == Top then a.points > b.points else a.points < b.points)
    else LexLess(a.symbol, b.symbol)
  }

  ghost predicate Keyed(m: Symbols) {
    forall k | k in m :: m[k].symbol == k
  }

  lemma BeforeTotal(side: Side, a: SymbolState, b: SymbolState)
    requires a.symbol != b.symbol
    ensures Before(side, a, b) || Before(side, b, a)
  {
    LexTotal(a.symbol, b.symbol);
  }

  lemma BeforeTransitive(side: Side, a: SymbolState, b: SymbolState, c: SymbolState)
    requires Before(side, a, b) && Before(side, b, c)
    ensures Before(side, a, c)
  {
    if a.points == b.points == c.points {
      LexTransitive(a.symbol, b.symbol, c.symbol);
    }
  }

  lemma BeforeAsymmetric(side: Side, a: SymbolState, b: SymbolState)
    ensures !(Before(side, a, b) && Before(side, b, a))
  {
    if Before(side, a, b) && Before(side, b, a) {
      LexTransitive(a.symbol, b.symbol, a.symbol);
      LexIrreflexive(a.symbol);
    }
  }

  ghost predicate IsFirst(m: Symbols, side: Side, k: string) {
    k in m && forall j | j in m && j != k :: Before(side, m[k], m[j])
  }

  lemma {:induction false} FirstExists(m: Symbols, side: Side) returns (k: string)
    requires Keyed(m) && m != map[]
    ensures IsFirst(m, side, k)
    decreases |m|
  {
    k := Pick(m);
    var rest := m - {k};
    Smaller(m, k);
    if rest != map[] {
      var r := FirstExists(rest, side);
      BeforeTotal(side, m[k], m[r]);
      forall j | j in m && j != (if Before(side, m[k], m[r]) then k else r)
        ensures Before(side, m[if Before(side, m[k], m[r]) then k else r], m[j])
      {
        if Before(side, m[k], m[r]) && j != r {
          assert j in rest;
          BeforeTransitive(side, m[k], m[r], m[j]);
        } else if j != k {
          assert j in rest;
        }
      }
      k := if Before(side, m[k], m[r]) then k else r;
    } else {
      assert forall j | j in m :: j == k || j in rest;
    }
  }

  ghost function First(m: Symbols, side: Side): (k: string)
    requires Keyed(m) && m != map[]
    ensures IsFirst(m, side, k)
  {
    assert exists k :: IsFirst(m, side, k) by {
      var k := FirstExists(m, side);
    }
    var k :| IsFirst(m, side, k);
    k
  }

  /** `sorted(symbol_state.values(), key=...)`. */
  ghost function Ranked(m: Symbols, side: Side): (r: seq<SymbolState>)
    requires Keyed(m)
    ensures |r| == |m|
    decreases |m|
  {
    if m == map[] then []
    else
      var k := First(m, side);
      Smaller(m, k);
      assert |m - {k}| == |m| - 1 by { assert (m - {k}).Keys == m.Keys - {k}; }
      [m[k]] + Ranked(m - {k}, side)
  }

  /** Python's `xs[:limit]`. */
  function TakeUpTo<T>(xs: seq<T>, limit: int): seq<T> {
    if limit >= |xs| then xs
    else if limit >= 0 then xs[..limit]
    else if |xs| + limit >= 0 then xs[..|xs| + limit]
    else []
  }

  /** A slice is a prefix: of the length asked for, or short of the end by as much for a negative limit. */
  lemma SliceReads<T>(xs: seq<T>, limit: int)
    ensures TakeUpTo(xs, limit) <= xs
    ensures limit >= 0 ==> |TakeUpTo(xs, limit)| == if limit < |xs| then limit else |xs|
    ensures limit < 0 ==> |TakeUpTo(xs, limit)| == if -limit < |xs| then |xs| + limit else 0
  {
  }

  ghost function Ranking(m: Symbols, side: Side, limit: int): seq<SymbolState>
    requires Keyed(m)
  {
    TakeUpTo(Ranked(m, side), limit)
  }

  ghost predicate Sorted(side: Side, r: seq<SymbolState>) {
    forall i, j | 0 <= i < j < |r| :: Before(side, r[i], r[j])
  }

  ghost predicate ListsAll(m: Symbols, r: seq<SymbolState>) {
    forall x :: x in r <==> x.symbol in m && m[x.symbol] == x
  }

  lemma {:induction false} RankedIsSorted(m: Symbols, side: Side)
    requires Keyed(m)
    ensures Sorted(side, Ranked(m, side)) && ListsAll(m, Ranked(m, side))
    decreases |m|
  {
    if m != map[] {
      var k := First(m, side);
      var rest := Ranked(m - {k}, side);
      Smaller(m, k);
      RankedIsSorted(m - {k}, side);
      assert Ranked(m, side) == [m[k]] + rest;
      FirstThenRest(m, side, k, rest);
    }
  }

  lemma FirstThenRest(m: Symbols, side: Side, k: string, rest: seq<SymbolState>)
    requires Keyed(m) && IsFirst(m, side, k) && Sorted(side, rest) && ListsAll(m - {k}, rest)
    ensures Sorted(side, [m[k]] + rest) && ListsAll(m, [m[k]] + rest)
  {
    var r := [m[k]] + rest;
    forall x
      ensures x in r <==> x.symbol in m && m[x.symbol] == x
    {
      assert x in rest <==> x.symbol in m - {k} && m[x.symbol] == x;
    }
    forall i, j | 0 <= i < j < |r|
      ensures Before(side, r[i], r[j])
    {
      assert r[j] == rest[j - 1] && r[j] in rest;
      assert i > 0 ==> r[i] == rest[i - 1];
    }
  }

  /** A ranking's defining properties: sorted, taken from the state, and nothing better is left out. */
  ghost predicate IsRanking(m: Symbols, side: Side, n: nat, r: seq<SymbolState>) {
    && |r| == (if n < |m| then n else |m|) && Sorted(side, r)
    && (forall x | x in r :: x.symbol in m && m[x.symbol] == x)
    && forall k, x | k in m && m[k] !in r && x in r :: Before(side, x, m[k])
  }

  lemma PrefixIsBefore(side: Side, all: seq<SymbolState>, n: nat, x: SymbolState, y: SymbolState)
    requires Sorted(side, all) && n <= |all| && x in all[..n] && y in all && y !in all[..n]
    ensures Before(side, x, y)
  {
    var i :| 0 <= i < n && all[..n][i] == x;
    assert all == all[..n] + all[n..];
    var j :| 0 <= j < |all| - n && all[n..][j] == y;
    assert Before(side, all[i], all[n + j]);
  }

  lemma RankingIsBest(m: Symbols, side: Side, n: nat)
    requires Keyed(m)
    ensures IsRanking(m, side, n, Ranking(m, side, n))
  {
    RankedIsSorted(m, side);
    var all, r := Ranked(m, side), Ranking(m, side, n);
    assert all[..|r|] == r;
    forall x | x in r
      ensures x in all
    {
    }
    forall k, x | k in m && m[k] !in r && x in r
      ensures Before(side, x, m[k])
    {
      assert m[k].symbol == k && m[k] in all;
      PrefixIsBefore(side, all, |r|, x, m[k]);
    }
  }

  /** Those properties determine the ranking: ties cannot be broken in two ways. */
  lemma {:induction false} RankingIsUnique(m: Symbols, side: Side, n: nat, r: seq<SymbolState>, i: nat)
    requires Keyed(m) && IsRanking(m, side, n, r) && i < |r|
    ensures i < |Ranking(m, side, n)| && r[i] == Ranking(m, side, n)[i]
  {
    RankingIsBest(m, side, n);
    var q := Ranking(m, side, n);
    forall j | 0 <= j < i {
      RankingIsUnique(m, side, n, r, j);
    }
    assert r[i] in r && q[i] in q;
    if r[i].symbol != q[i].symbol {
      BeforeTotal(side, r[i], q[i]);
      NotEarlier(m, side, n, if Before(side, r[i], q[i]) then r else q, if Before(side, r[i], q[i]) then q else r, i);
    }
  }

  /** With equal prefixes, the next element of one ranking cannot precede that of another. */
  lemma NotEarlier(m: Symbols, side: Side, n: nat, r: seq<SymbolState>, q: seq<SymbolState>, i: nat)
    requires Keyed(m) && IsRanking(m, side, n, r) && IsRanking(m, side, n, q) && i < |r|
    requires r[i] != q[i] && forall j | 0 <= j < i :: r[j] == q[j]
    ensures !Before(side, r[i], q[i])
  {
    assert r[i] in r && q[i] in q;
    if r[i] in q {
      var j :| 0 <= j < |q| && q[j] == r[i];
      if j < i {
        assert Before(side, r[j], r[i]);
        BeforeAsymmetric(side, r[j], r[i]);
      } else {
        BeforeAsymmetric(side, q[i], q[j]);
      }
    } else {
      assert m[r[i].symbol] !in q;
      BeforeAsymmetric(side, q[i], r[i]);
    }
  }

  /** How the published order reads: the top side lists falling points, the bottom side rising ones, ties by symbol. */
  ghost predicate Reads(side: Side, r: seq<SymbolState>) {
    forall i, j | 0 <= i < j < |r| ::
      && (side == Top ==> r[i].points >= r[j].points)
      && (side == Bottom ==> r[i].points <= r[j].points)
      && (r[i].points == r[j].points ==> Earlier(r[i].symbol, r[j].symbol))
  }

  /** In code-point order: a proper prefix, or smaller at the first difference. */
  ghost predicate Earlier(a: string, b: string) {
    || a < b
    || exists n :: 0 <= n < |a| && n < |b| && a[..n] == b[..n] && a[n] < b[n]
  }

  lemma {:induction false} LexIsEarlier(a: string, b: string)
    ensures LexLess(a, b) ==> Earlier(a, b)
  {
    if LexLess(a, b) && a != "" {
      if a[0] == b[0] {
        LexIsEarlier(a[1..], b[1..]);
        assert a == [a[0]] + a[1..] && b == [b[0]] + b[1..];
        if n :| 0 <= n < |a[1..]| && n < |b[1..]| && a[1..][..n] == b[1..][..n] && a[1..][n] < b[1..][n] {
          assert a[..n + 1] == [a[0]] + a[1..][..n] && b[..n + 1] == [b[0]] + b[1..][..n];
          assert a[n + 1] < b[n + 1];
        }
      } else {
        assert a[..0] == b[..0];
      }
    }
  }

  /** A ranking reads as it should, has at most as many entries as asked for, and never more than there are. */
  lemma RankingReads(m: Symbols, side: Side, n: nat)
    requires Keyed(m)
    ensures Reads(side, Ranking(m, side, n)) && |Ranking(m, side, n)| == if n < |m| then n else |m|
  {
    RankingIsBest(m, side, n);
    var r := Ranking(m, side, n);
    forall i, j | 0 <= i < j < |r|
      ensures r[i].points == r[j].points ==> Earlier(r[i].symbol, r[j].symbol)
      ensures if side == Top then r[i].points >= r[j].points else r[i].points <= r[j].points
    {
      assert Before(side, r[i], r[j]);
      LexIsEarlier(r[i].symbol, r[j].symbol);
    }
  }

  /** The published rankings do not depend on delivery order or duplication either. */
  lemma RankingsConverge(p: real, us: seq<Update>, vs: seq<Update>, side: Side, limit: int)
    requires SameEvents(us, vs) && IdsDistinct(us) && OneLatestState(p, us)
    ensures Keyed(RunAll(Fresh(p), us).symbols) && Keyed(RunAll(Fresh(p), vs).symbols)
    ensures Ranking(RunAll(Fresh(p), us).symbols, side, limit) == Ranking(RunAll(Fresh(p), vs).symbols, side, limit)
  {
    Convergence(p, us, vs);
    RunKeepsExact(p, us);
    var e := RunAll(Fresh(p), us);
    forall s | s in e.symbols
      ensures e.symbols[s].symbol == s
    {
      assert PointsRounded(e, s);
    }
  }
}
