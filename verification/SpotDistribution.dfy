/** The distribution of percentage changes over all symbols, in buckets one percent wide. */
module SpotDistribution {
  import opened RealArithmetic
  import opened Wrappers

  datatype Bucket = Bucket(lower: int, upper: int, count: nat)

  datatype Distribution = Distribution(
    up: nat, down: nat, flat: nat, total: nat, trend: Option<real>, buckets: seq<Bucket>)

  /** How many of the present values satisfy p. */
  ghost function Count(values: seq<Option<real>>, p: real -> bool): nat {
    if values == [] then 0
    else
      var n, v := Count(values[..|values| - 1], p), values[|values| - 1];
      if v.Some? && p(v.value) then n + 1 else n
  }

  function Positive(): real -> bool { (v: real) => v > 0.0 }

  function Negative(): real -> bool { (v: real) => v < 0.0 }

  function Zero(): real -> bool { (v: real) => v == 0.0 }

  function Any(): real -> bool { (v: real) => true }

  function FloorIs(b: int): real -> bool { (v: real) => v.Floor == b }

  function FloorIn(lo: int, hi: int): real -> bool { (v: real) => lo <= v.Floor < hi }

  lemma CountSnoc(values: seq<Option<real>>, v: Option<real>, p: real -> bool)
    ensures Count(values + [v], p) == Count(values, p) + (if v.Some? && p(v.value) then 1 else 0)
  {
    assert (values + [v])[..|values|] == values;
  }

  lemma {:induction false} CountSplit(values: seq<Option<real>>, p: real -> bool, q: real -> bool, r: real -> bool)
    requires forall v :: r(v) <==> p(v) || q(v)
    requires forall v :: !(p(v) && q(v))
    ensures Count(values, r) == Count(values, p) + Count(values, q)
  {
    if values != [] {
      CountSplit(values[..|values| - 1], p, q, r);
    }
  }

  lemma {:induction false} CountSame(values: seq<Option<real>>, p: real -> bool, q: real -> bool)
    requires forall i | 0 <= i < |values| && values[i].Some? :: p(values[i].value) <==> q(values[i].value)
    ensures Count(values, p) == Count(values, q)
  {
    if values != [] {
      CountSame(values[..|values| - 1], p, q);
    }
  }

  lemma {:induction false} CountPositive(values: seq<Option<real>>, p: real -> bool, i: nat)
    requires i < |values| && values[i].Some? && p(values[i].value)
    ensures Count(values, p) > 0
  {
    if i < |values| - 1 {
      CountPositive(values[..|values| - 1], p, i);
    }
  }

  /** Python's round to six digits: the nearest millionth, ties to the even one. */
  function RoundEven6(x: real): real {
    var y := x * 1000000.0;
    var f := y.Floor;
    var d := y - f as real;
    (if d < 0.5 then f else if d > 0.5 then f + 1 else if f % 2 == 0 then f else f + 1) as real / 1000000.0
  }

  lemma RoundKeepsUnit(x: real)
    requires -1.0 <= x <= 1.0
    ensures -1.0 <= RoundEven6(x) <= 1.0
    ensures x - 0.0000005 <= RoundEven6(x) <= x + 0.0000005
  {
    var y := x * 1000000.0;
    var f := y.Floor;
    assert f as real <= y < f as real + 1.0;
    assert -1000000 <= f <= 1000000;
    assert f == 1000000 ==> y - f as real == 0.0;
  }

  /** Halfway between two millionths the even one is taken; otherwise the nearer one. */
  lemma RoundIsToEven(x: real, n: int)
    ensures x * 1000000.0 == n as real + 0.5 ==> RoundEven6(x) * 1000000.0 == (if n % 2 == 0 then n else n + 1) as real
    ensures n as real - 0.5 < x * 1000000.0 < n as real + 0.5 ==> RoundEven6(x) * 1000000.0 == n as real
  {
    var y := x * 1000000.0;
    if y == n as real + 0.5 || n as real <= y < n as real + 0.5 {
      FloorIsThat(y, n);
    } else if n as real - 0.5 < y < n as real {
      FloorIsThat(y, n - 1);
    }
  }

  lemma FloorIsThat(y: real, n: int)
    requires n as real <= y < n as real + 1.0
    ensures y.Floor == n
  {
  }

  lemma TrendInUnit(up: nat, down: nat, total: nat)
    requires 0 < total && up + down <= total
    ensures -1.0 <= (up - down) as real / total as real <= 1.0
  {
    var d, t := (up - down) as real, total as real;
    assert -t <= d <= t;
    RatioInUnit(d, t);
  }

  function Get(m: map<int, nat>, b: int): nat {
    if b in m then m[b] else 0
  }

  datatype Tally = Tally(up: nat, down: nat, flat: nat, total: nat, counts: map<int, nat>, range: Option<(int, int)>)

  ghost predicate CountsMatch(t: Tally, values: seq<Option<real>>) {
    && t.up == Count(values, Positive()) && t.down == Count(values, Negative()) && t.flat == Count(values, Zero())
    && t.total == Count(values, Any())
    && forall b :: Get(t.counts, b) == Count(values, FloorIs(b))
  }

  /** The tally is that of the values: per sign, per floor, and the least and greatest floor. */
  ghost predicate Tallies(t: Tally, values: seq<Option<real>>) {
    && CountsMatch(t, values)
    && (t.range.None? ==> forall i | 0 <= i < |values| :: values[i].None?)
    && (t.range.Some? ==> Spans(values, t.range.value.0, t.range.value.1))
  }

  ghost predicate HasFloor(values: seq<Option<real>>, b: int) {
    exists i | 0 <= i < |values| :: values[i].Some? && values[i].value.Floor == b
  }

  ghost predicate Spans(values: seq<Option<real>>, lo: int, hi: int) {
    && HasFloor(values, lo) && HasFloor(values, hi)
    && forall i | 0 <= i < |values| && values[i].Some? :: lo <= values[i].value.Floor <= hi
  }

  function AddValue(t: Tally, v: real): Tally {
    var b := v.Floor;
    Tally(if v > 0.0 then t.up + 1 else t.up,
          if v < 0.0 then t.down + 1 else t.down,
          if v == 0.0 then t.flat + 1 else t.flat,
          t.total + 1, t.counts[b := Get(t.counts, b) + 1],
          if t.range.None? then Some((b, b))
          else Some((if b < t.range.value.0 then b else t.range.value.0, if b > t.range.value.1 then b else t.range.value.1)))
  }

  lemma HasFloorSnoc(values: seq<Option<real>>, v: Option<real>, b: int)
    ensures HasFloor(values + [v], b) <==> HasFloor(values, b) || (v.Some? && v.value.Floor == b)
  {
    var all := values + [v];
    assert all[|values|] == v && forall i | 0 <= i < |values| :: all[i] == values[i];
  }

  lemma CountsSnoc(t: Tally, values: seq<Option<real>>, v: Option<real>)
    requires CountsMatch(t, values)
    ensures CountsMatch(if v.Some? then AddValue(t, v.value) else t, values + [v])
  {
    CountSnoc(values, v, Positive());
    CountSnoc(values, v, Negative());
    CountSnoc(values, v, Zero());
    CountSnoc(values, v, Any());
    var t' := if v.Some? then AddValue(t, v.value) else t;
    forall b
      ensures Get(t'.counts, b) == Count(values + [v], FloorIs(b))
    {
      CountSnoc(values, v, FloorIs(b));
    }
  }

  lemma TalliesSnoc(t: Tally, values: seq<Option<real>>, v: Option<real>)
    requires Tallies(t, values)
    ensures Tallies(if v.Some? then AddValue(t, v.value) else t, values + [v])
  {
    CountsSnoc(t, values, v);
    var all := values + [v];
    assert all[|values|] == v && forall i | 0 <= i < |values| :: all[i] == values[i];
    if t.range.Some? {
      HasFloorSnoc(values, v, t.range.value.0);
      HasFloorSnoc(values, v, t.range.value.1);
    }
    if v.Some? {
      HasFloorSnoc(values, v, v.value.Floor);
    }
  }

  // ----- the buckets

  ghost function SumCounts(bs: seq<Bucket>): nat {
    if bs == [] then 0 else SumCounts(bs[..|bs| - 1]) + bs[|bs| - 1].count
  }

  ghost function SumBelowZero(bs: seq<Bucket>): nat {
    if bs == [] then 0
    else SumBelowZero(bs[..|bs| - 1]) + (if bs[|bs| - 1].lower < 0 then bs[|bs| - 1].count else 0)
  }

  /** Contiguous buckets from `lo`, each counting the values whose floor is its lower bound. */
  ghost predicate BucketsOf(bs: seq<Bucket>, lo: int, values: seq<Option<real>>) {
    forall i | 0 <= i < |bs| :: bs[i] == Bucket(lo + i, lo + i + 1, Count(values, FloorIs(lo + i)))
  }

  lemma {:induction false} BucketSums(bs: seq<Bucket>, lo: int, values: seq<Option<real>>)
    requires BucketsOf(bs, lo, values)
    ensures SumCounts(bs) == Count(values, FloorIn(lo, lo + |bs|))
    ensures SumBelowZero(bs) == Count(values, FloorIn(lo, if lo + |bs| < 0 then lo + |bs| else if lo < 0 then 0 else lo))
  {
    if bs == [] {
      NoneIn(values, lo);
    } else {
      var n := |bs| - 1;
      BucketSums(bs[..n], lo, values);
      CountSplit(values, FloorIn(lo, lo + n), FloorIs(lo + n), FloorIn(lo, lo + n + 1));
    }
  }

  lemma {:induction false} NoneIn(values: seq<Option<real>>, lo: int)
    ensures Count(values, FloorIn(lo, lo)) == 0
  {
    if values != [] {
      NoneIn(values[..|values| - 1], lo);
    }
  }

  /** What the payload promises about the values it was built from. */
  ghost predicate Describes(d: Distribution, values: seq<Option<real>>) {
    && d.total == Count(values, Any()) == d.up + d.down + d.flat
    && d.up == Count(values, Positive()) && d.down == Count(values, Negative()) && d.flat == Count(values, Zero())
    && (d.buckets == [] <==> d.total == 0)
    && (d.buckets != [] ==>
          && BucketsOf(d.buckets, d.buckets[0].lower, values)
          && d.buckets[0].count > 0 && d.buckets[|d.buckets| - 1].count > 0)
    && SumCounts(d.buckets) == d.total
    && SumBelowZero(d.buckets) == d.down
    && (d.trend.None? <==> d.total == 0) && (d.trend.Some? ==> IsTrend(d.trend.value, d.up, d.down, d.total))
  }

  /** The balance of rises and falls, rounded, in [-1, 1]. */
  ghost predicate IsTrend(trend: real, up: nat, down: nat, total: nat) {
    && total > 0 && -1.0 <= trend <= 1.0
    && var exact := (up - down) as real / total as real;
       exact - 0.0000005 <= trend <= exact + 0.0000005
  }

  lemma TrendFits(up: nat, down: nat, total: nat)
    requires total > 0 && up + down <= total
    ensures IsTrend(RoundEven6((up - down) as real / total as real), up, down, total)
  {
    TrendInUnit(up, down, total);
    RoundKeepsUnit((up - down) as real / total as real);
  }

  lemma SignsSplit(values: seq<Option<real>>)
    ensures Count(values, Any()) == Count(values, Positive()) + Count(values, Negative()) + Count(values, Zero())
  {
    var nonPositive := (v: real) => v <= 0.0;
    CountSplit(values, Positive(), nonPositive, Any());
    CountSplit(values, Negative(), Zero(), nonPositive);
  }

  lemma FloorCounted(values: seq<Option<real>>, b: int)
    requires HasFloor(values, b)
    ensures Count(values, FloorIs(b)) > 0
  {
    var i :| 0 <= i < |values| && values[i].Some? && values[i].value.Floor == b;
    CountPositive(values, FloorIs(b), i);
  }

  lemma BucketsDescribe(values: seq<Option<real>>, lo: int, hi: int, bs: seq<Bucket>)
    requires Spans(values, lo, hi) && BucketsOf(bs, lo, values) && |bs| == hi - lo + 1
    ensures SumCounts(bs) == Count(values, Any()) && SumBelowZero(bs) == Count(values, Negative())
    ensures bs[0].count > 0 && bs[|bs| - 1].count > 0
  {
    BucketSums(bs, lo, values);
    CountSame(values, FloorIn(lo, lo + |bs|), Any());
    var end := if lo + |bs| < 0 then lo + |bs| else if lo < 0 then 0 else lo;
    CountSame(values, FloorIn(lo, end), Negative());
    FloorCounted(values, lo);
    FloorCounted(values, hi);
  }

  lemma {:induction false} NonePresent(values: seq<Option<real>>)
    requires forall i | 0 <= i < |values| :: values[i].None?
    ensures Count(values, Any()) == 0
  {
    if values != [] {
      NonePresent(values[..|values| - 1]);
    }
  }

  ghost function TallyOf(values: seq<Option<real>>): Tally {
    if values == [] then Tally(0, 0, 0, 0, map[], None)
    else
      var t, v := TallyOf(values[..|values| - 1]), values[|values| - 1];
      if v.Some? then AddValue(t, v.value) else t
  }

  lemma {:induction false} TallyOfTallies(values: seq<Option<real>>)
    ensures Tallies(TallyOf(values), values)
  {
    if values != [] {
      var n := |values| - 1;
      TallyOfTallies(values[..n]);
      assert values == values[..n] + [values[n]];
      TalliesSnoc(TallyOf(values[..n]), values[..n], values[n]);
    }
  }

  method TallyValues(values: seq<Option<real>>) returns (t: Tally)
    ensures Tallies(t, values)
  {
    var up: nat, down: nat, flat: nat, total: nat := 0, 0, 0, 0;
    var counts: map<int, nat> := map[];
    var range: Option<(int, int)> := None;
    for i := 0 to |values|
      invariant Tally(up, down, flat, total, counts, range) == TallyOf(values[..i])
    {
      assert values[..i + 1][..i] == values[..i];
      if values[i].Some? {
        var pct := values[i].value;
        total := total + 1;
        if pct > 0.0 {
          up := up + 1;
        } else if pct < 0.0 {
          down := down + 1;
        } else {
          flat := flat + 1;
        }
        var bucket := pct.Floor;
        counts := counts[bucket := Get(counts, bucket) + 1];
        range := match range
          case None => Some((bucket, bucket))
          case Some(r) => Some((if bucket < r.0 then bucket else r.0, if bucket > r.1 then bucket else r.1));
      }
    }
    assert values[..|values|] == values;
    TallyOfTallies(values);
    t := Tally(up, down, flat, total, counts, range);
  }

  method BuildSpotMarketDistribution(values: seq<Option<real>>) returns (d: Distribution)
    ensures Describes(d, values)
  {
    var t := TallyValues(values);
    var buckets: seq<Bucket> := [];
    if t.range.Some? {
      var lo, hi := t.range.value.0, t.range.value.1;
      var lower := lo;
      while lower <= hi
        invariant lo <= lower <= hi + 1 && |buckets| == lower - lo && BucketsOf(buckets, lo, values)
      {
        buckets := buckets + [Bucket(lower, lower + 1, Get(t.counts, lower))];
        lower := lower + 1;
      }
      BucketsDescribe(values, lo, hi, buckets);
    } else {
      NonePresent(values);
    }
    SignsSplit(values);
    var trend := None;
    if t.total > 0 {
      TrendFits(t.up, t.down, t.total);
      trend := Some(RoundEven6((t.up - t.down) as real / t.total as real));
    }
    d := Distribution(t.up, t.down, t.flat, t.total, trend, buckets);
  }
}
