/** Percentiles and histograms of the k-bar analytics, over reals. */
module KbarAnalytics {
  import opened RealArithmetic

  // ----- sorting

  predicate Ascending(s: seq<real>) {
    forall i, j | 0 <= i <= j < |s| :: s[i] <= s[j]
  }

  function Insert(s: seq<real>, x: real): seq<real> {
    if s == [] || x <= s[0] then [x] + s else [s[0]] + Insert(s[1..], x)
  }

  /** Python's `sorted`. */
  function Sorted(values: seq<real>): (s: seq<real>)
    ensures |s| == |values|
  {
    if values == [] then [] else InsertSize(Sorted(values[1..]), values[0]); Insert(Sorted(values[1..]), values[0])
  }

  lemma {:induction false} InsertSize(s: seq<real>, x: real)
    ensures |Insert(s, x)| == |s| + 1
  {
    if s != [] && x > s[0] {
      InsertSize(s[1..], x);
    }
  }

  lemma {:induction false} InsertKeepsAll(s: seq<real>, x: real)
    ensures multiset(Insert(s, x)) == multiset(s) + multiset{x}
  {
    if s != [] && x > s[0] {
      InsertKeepsAll(s[1..], x);
      assert s == [s[0]] + s[1..];
    }
  }

  lemma {:induction false} InsertKeepsOrder(s: seq<real>, x: real)
    requires Ascending(s)
    ensures Ascending(Insert(s, x))
    ensures Insert(s, x) != [] && Insert(s, x)[0] == if s == [] || x <= s[0] then x else s[0]
  {
    if s != [] && x > s[0] {
      var r := Insert(s[1..], x);
      assert Ascending(s[1..]);
      InsertKeepsOrder(s[1..], x);
      assert s[0] <= r[0];
    }
  }

  lemma {:induction false} SortedCorrect(values: seq<real>)
    ensures Ascending(Sorted(values)) && multiset(Sorted(values)) == multiset(values)
  {
    if values != [] {
      SortedCorrect(values[1..]);
      InsertKeepsAll(Sorted(values[1..]), values[0]);
      InsertKeepsOrder(Sorted(values[1..]), values[0]);
      assert values == [values[0]] + values[1..];
    }
  }

  // ----- percentiles

  /** Linear interpolation at a fractional position. */
  function At(o: seq<real>, position: real): real
    requires 0.0 <= position <= (|o| - 1) as real
  {
    var low := position.Floor;
    var high := if low + 1 < |o| - 1 then low + 1 else |o| - 1;
    var weight := position - low as real;
    o[low] * (1.0 - weight) + o[high] * weight
  }

  /** Where the percentile falls among n ordered values. */
  function Position(n: nat, p: real): (x: real)
    requires n >= 1 && 0.0 <= p <= 1.0
    ensures 0.0 <= x <= (n - 1) as real
  {
    ProductNonNegative((n - 1) as real, p);
    ProductNonNegative((n - 1) as real, 1.0 - p);
    assert (n - 1) as real * (1.0 - p) == (n - 1) as real - (n - 1) as real * p;
    (n - 1) as real * p
  }

  lemma PositionMonotone(n: nat, p: real, q: real)
    requires n >= 1 && 0.0 <= p <= q <= 1.0
    ensures Position(n, p) <= Position(n, q)
  {
    ProductNonNegative((n - 1) as real, q - p);
    assert (n - 1) as real * (q - p) == Position(n, q) - Position(n, p);
  }

  lemma PositionEnds(n: nat)
    requires n >= 1
    ensures Position(n, 0.0) == 0.0 && Position(n, 1.0) == (n - 1) as real
  {
  }

  function Percentile(values: seq<real>, p: real): real
    requires 0.0 <= p <= 1.0
  {
    if values == [] then 0.0
    else if |values| == 1 then Sorted(values)[0]
    else At(Sorted(values), Position(|values|, p))
  }

  lemma Between(a: real, b: real, w: real)
    requires a <= b && 0.0 <= w <= 1.0
    ensures a <= a * (1.0 - w) + b * w <= b
  {
    assert a * (1.0 - w) + b * w == a + (b - a) * w;
    ProductNonNegative(b - a, w);
    assert a * (1.0 - w) + b * w == b - (b - a) * (1.0 - w);
    ProductNonNegative(b - a, 1.0 - w);
  }

  lemma WeightMonotone(a: real, b: real, w: real, w': real)
    requires a <= b && w <= w'
    ensures a * (1.0 - w) + b * w <= a * (1.0 - w') + b * w'
  {
    assert (a * (1.0 - w') + b * w') - (a * (1.0 - w) + b * w) == (b - a) * (w' - w);
    ProductNonNegative(b - a, w' - w);
  }

  /** An interpolated value lies between the two neighbours of its position. */
  lemma AtNeighbours(o: seq<real>, x: real)
    requires Ascending(o) && 0.0 <= x <= (|o| - 1) as real
    ensures o[x.Floor] <= At(o, x)
    ensures At(o, x) <= o[if x.Floor + 1 < |o| - 1 then x.Floor + 1 else |o| - 1]
  {
    var low := x.Floor;
    var high := if low + 1 < |o| - 1 then low + 1 else |o| - 1;
    Between(o[low], o[high], x - low as real);
  }

  lemma AtEnds(o: seq<real>)
    requires |o| > 1
    ensures At(o, 0.0) == o[0] && At(o, (|o| - 1) as real) == o[|o| - 1]
  {
    var last := (|o| - 1) as real;
    assert last.Floor == |o| - 1;
  }

  lemma AtMonotone(o: seq<real>, x: real, y: real)
    requires Ascending(o) && 0.0 <= x <= y <= (|o| - 1) as real
    ensures At(o, x) <= At(o, y)
  {
    if x.Floor == y.Floor {
      var low := x.Floor;
      var high := if low + 1 < |o| - 1 then low + 1 else |o| - 1;
      WeightMonotone(o[low], o[high], x - low as real, y - low as real);
    } else {
      AtNeighbours(o, x);
      AtNeighbours(o, y);
    }
  }

  /**
    Between two neighbouring ranks the percentile moves in proportion: at the p that is k ranks and a
    fraction f up, it is the k-th ordered value and the fraction f of the step to the next.
   */
  lemma PercentileInterpolates(values: seq<real>, k: nat, f: real, p: real)
    requires k + 1 < |values| && 0.0 <= f <= 1.0 && 0.0 <= p <= 1.0
    requires AtRank(|values|, p, k as real + f)
    ensures Percentile(values, p) == PartWay(Sorted(values), k, f)
  {
    PositionIs(|values|, p, k as real + f);
    PercentileAt(values, k, f, p);
  }

  /** p is x ranks up among n values. */
  ghost predicate AtRank(n: nat, p: real, x: real) {
    (n - 1) as real * p == x
  }

  lemma PositionIs(n: nat, p: real, x: real)
    requires n >= 1 && 0.0 <= p <= 1.0 && AtRank(n, p, x)
    ensures Position(n, p) == x
  {
  }

  lemma PercentileAt(values: seq<real>, k: nat, f: real, p: real)
    requires k + 1 < |values| && 0.0 <= f <= 1.0 && 0.0 <= p <= 1.0 && Position(|values|, p) == k as real + f
    ensures Percentile(values, p) == PartWay(Sorted(values), k, f)
  {
    var v := AtInterpolates(Sorted(values), k, f, Position(|values|, p));
  }

  /** The k-th value and the fraction f of the step to the next. */
  function PartWay(o: seq<real>, k: nat, f: real): real
    requires k + 1 < |o|
  {
    o[k] + (o[k + 1] - o[k]) * f
  }

  lemma AtInterpolates(o: seq<real>, k: nat, f: real, x: real) returns (v: real)
    requires k + 1 < |o| && 0.0 <= f <= 1.0 && x == k as real + f
    ensures v == At(o, x) && v == PartWay(o, k, f)
  {
    v := At(o, x);
    if f == 1.0 {
      PartFloor(x, k + 1);
    } else {
      PartFloor(x, k);
      Mixed(o[k], o[k + 1], f);
    }
  }

  /** One value is all of its percentiles; without any they are 0. */
  lemma PercentileOfFew(values: seq<real>, p: real)
    requires |values| <= 1 && 0.0 <= p <= 1.0
    ensures Percentile(values, p) == if values == [] then 0.0 else values[0]
  {
    if values != [] {
      SortedCorrect(values);
      assert Sorted(values)[0] in multiset(values);
    }
  }

  lemma PartFloor(x: real, k: int)
    requires k as real <= x < k as real + 1.0
    ensures x.Floor == k
  {
  }

  lemma Mixed(a: real, b: real, f: real)
    ensures a * (1.0 - f) + b * f == a + (b - a) * f
  {
  }

  /** On a non-empty sample the percentile never decreases with p. */
  lemma PercentileMonotone(values: seq<real>, p: real, q: real)
    requires values != [] && 0.0 <= p <= q <= 1.0
    ensures Percentile(values, p) <= Percentile(values, q)
  {
    if |values| > 1 {
      SortedCorrect(values);
      PositionMonotone(|values|, p, q);
      AtMonotone(Sorted(values), Position(|values|, p), Position(|values|, q));
    }
  }

  lemma SortedEnds(values: seq<real>)
    requires values != []
    ensures Sorted(values)[0] in values && Sorted(values)[|values| - 1] in values
    ensures forall v | v in values :: Sorted(values)[0] <= v <= Sorted(values)[|values| - 1]
  {
    SortedCorrect(values);
    var o := Sorted(values);
    assert o[0] in multiset(o) && o[|o| - 1] in multiset(o);
    forall v | v in values
      ensures o[0] <= v <= o[|o| - 1]
    {
      assert v in multiset(values);
      assert v in o;
    }
  }

  /** At 0 it is the least value of the sample, at 1 the greatest, and in between never outside them. */
  lemma PercentileEnds(values: seq<real>, p: real)
    requires values != [] && 0.0 <= p <= 1.0
    ensures Percentile(values, 0.0) in values && Percentile(values, 1.0) in values
    ensures forall v | v in values :: Percentile(values, 0.0) <= v <= Percentile(values, 1.0)
    ensures Percentile(values, 0.0) <= Percentile(values, p) <= Percentile(values, 1.0)
  {
    SortedEnds(values);
    PercentileMonotone(values, 0.0, p);
    PercentileMonotone(values, p, 1.0);
    if |values| > 1 {
      PositionEnds(|values|);
      AtEnds(Sorted(values));
    }
  }

  /** `statistics.median`. */
  function Median(values: seq<real>): real
    requires values != []
  {
    var o, n := Sorted(values), |values|;
    if n % 2 == 1 then o[n / 2] else (o[n / 2 - 1] + o[n / 2]) / 2.0
  }

  lemma HalfPosition(n: nat)
    requires n >= 1
    ensures var x := Position(n, 0.5);
            if n % 2 == 1 then x == (n / 2) as real && x.Floor == n / 2
            else x == (n / 2 - 1) as real + 0.5 && x.Floor == n / 2 - 1
  {
    if n % 2 == 1 {
      assert n - 1 == 2 * (n / 2);
    } else {
      assert n - 1 == 2 * (n / 2 - 1) + 1;
    }
  }

  lemma HalfOf(o: seq<real>)
    requires |o| > 1
    ensures At(o, Position(|o|, 0.5)) == if |o| % 2 == 1 then o[|o| / 2] else (o[|o| / 2 - 1] + o[|o| / 2]) / 2.0
  {
    HalfPosition(|o|);
  }

  /** At 0.5 it is the median. */
  lemma PercentileHalfIsMedian(values: seq<real>)
    requires values != []
    ensures Percentile(values, 0.5) == Median(values)
  {
    if |values| > 1 {
      HalfOf(Sorted(values));
    }
  }

  // ----- histograms

  datatype Histogram = Histogram(edges: seq<real>, counts: seq<nat>, min: real, max: real, size: real)

  /** The i-th bin between two edges: half-open, the last one closed. */
  predicate InBin(edges: seq<real>, i: nat, v: real)
    requires i + 1 < |edges|
  {
    edges[i] <= v && (v < edges[i + 1] || (i + 2 == |edges| && v == edges[i + 1]))
  }

  function CountIn(values: seq<real>, edges: seq<real>, i: nat): nat
    requires i + 1 < |edges|
  {
    if values == [] then 0
    else CountIn(values[..|values| - 1], edges, i) + (if InBin(edges, i, values[|values| - 1]) then 1 else 0)
  }

  function Total(counts: seq<nat>): nat {
    if counts == [] then 0 else counts[0] + Total(counts[1..])
  }

  lemma {:induction false} TotalAfterIncrement(counts: seq<nat>, k: nat)
    requires k < |counts|
    ensures Total(counts[k := counts[k] + 1]) == Total(counts) + 1
  {
    var after := counts[k := counts[k] + 1];
    if k == 0 {
      assert after[1..] == counts[1..];
    } else {
      assert after[1..] == counts[1..][k - 1 := counts[k] + 1];
      TotalAfterIncrement(counts[1..], k - 1);
    }
  }

  lemma {:induction false} TotalOfZeros(counts: seq<nat>)
    requires forall i | 0 <= i < |counts| :: counts[i] == 0
    ensures Total(counts) == 0
  {
    if counts != [] {
      TotalOfZeros(counts[1..]);
    }
  }

  /** Where a value is counted: `int((value - min_v) / bucket_size)`, capped at the last bin. */
  function BinOf(min: real, size: real, bins: nat, v: real): int
    requires size > 0.0
  {
    var idx := ((v - min) / size).Floor;
    if idx >= bins then bins - 1 else idx
  }

  lemma AtLeastEdge(min: real, size: real, v: real, j: int)
    requires size > 0.0
    ensures min + size * j as real <= v <==> j as real <= (v - min) / size
  {
    var q := (v - min) / size;
    assert q * size == v - min;
    ScaleKeepsOrder(j as real, q, size);
    assert j as real * size == size * j as real;
  }

  /** For a value in the sample's range the index is i exactly when the value is in bin i; it is never out of range. */
  lemma BinIsInterval(min: real, max: real, size: real, bins: nat, v: real, i: nat)
    requires bins >= 1 && i < bins && size > 0.0 && size * bins as real == max - min && min <= v <= max
    ensures BinOf(min, size, bins, v) == i <==>
            min + size * i as real <= v && (v < min + size * (i + 1) as real || (i == bins - 1 && v == max))
    ensures 0 <= BinOf(min, size, bins, v) < bins
  {
    AtLeastEdge(min, size, v, 0);
    AtLeastEdge(min, size, v, i);
    AtLeastEdge(min, size, v, i + 1);
    AtLeastEdge(min, size, v, bins);
    assert size * 0 as real == 0.0;
  }

  ghost predicate Range(values: seq<real>, min: real, max: real) {
    min in values && max in values && forall v | v in values :: min <= v <= max
  }

  /** What a histogram of `values` has to say, whatever computed it. */
  ghost predicate Tallies(h: Histogram, values: seq<real>) {
    && |h.edges| == |h.counts| + 1
    && (forall i | 0 <= i < |h.counts| :: h.counts[i] == CountIn(values, h.edges, i))
    && Total(h.counts) == |values|
    && h.edges[0] == h.min && h.edges[|h.counts|] == h.max
    && (forall i | 0 <= i <= |h.counts| :: h.edges[i] == h.min + h.size * i as real)
  }

  method MinMax(values: seq<real>) returns (min: real, max: real)
    requires values != []
    ensures Range(values, min, max)
  {
    min, max := values[0], values[0];
    for k := 1 to |values|
      invariant Range(values[..k], min, max)
    {
      assert values[..k + 1] == values[..k] + [values[k]];
      if values[k] < min {
        min := values[k];
      }
      if values[k] > max {
        max := values[k];
      }
    }
    assert values[..|values|] == values;
  }

  lemma {:induction false} AllEqualCount(values: seq<real>, edges: seq<real>)
    requires |edges| == 2 && edges[0] == edges[1] && forall k | 0 <= k < |values| :: values[k] == edges[0]
    ensures CountIn(values, edges, 0) == |values|
  {
    if values != [] {
      AllEqualCount(values[..|values| - 1], edges);
    }
  }

  ghost predicate Even(edges: seq<real>, min: real, max: real, size: real, bins: nat) {
    && bins >= 1 && size > 0.0 && size * bins as real == max - min
    && |edges| == bins + 1 && forall j | 0 <= j <= bins :: edges[j] == min + size * j as real
  }

  ghost predicate Counted(counts: seq<nat>, values: seq<real>, edges: seq<real>) {
    && |edges| == |counts| + 1
    && forall i | 0 <= i < |counts| :: counts[i] == CountIn(values, edges, i)
  }

  /** Counting one more value adds one to the bin the index names and to no other. */
  lemma CountStep(values: seq<real>, k: nat, edges: seq<real>, min: real, max: real, size: real, bins: nat, i: nat)
    requires k < |values| && min <= values[k] <= max && Even(edges, min, max, size, bins) && i < bins
    ensures CountIn(values[..k + 1], edges, i)
         == CountIn(values[..k], edges, i) + (if BinOf(min, size, bins, values[k]) == i then 1 else 0)
  {
    assert values[..k + 1][..k] == values[..k];
    BinIsInterval(min, max, size, bins, values[k], i);
  }

  lemma CountedStep(counts: seq<nat>, values: seq<real>, k: nat,
                    edges: seq<real>, min: real, max: real, size: real, bins: nat)
    requires k < |values| && min <= values[k] <= max && Even(edges, min, max, size, bins)
    requires |counts| == bins && Counted(counts, values[..k], edges)
    ensures var idx := BinOf(min, size, bins, values[k]);
            && 0 <= idx < bins
            && Counted(counts[idx := counts[idx] + 1], values[..k + 1], edges)
            && Total(counts[idx := counts[idx] + 1]) == Total(counts) + 1
  {
    BinIsInterval(min, max, size, bins, values[k], 0);
    var idx := BinOf(min, size, bins, values[k]);
    TotalAfterIncrement(counts, idx);
    var after := counts[idx := counts[idx] + 1];
    forall i | 0 <= i < bins
      ensures after[i] == CountIn(values[..k + 1], edges, i)
    {
      CountStep(values, k, edges, min, max, size, bins, i);
    }
  }

  function Edges(min: real, size: real, bins: nat): seq<real> {
    seq(bins + 1, i requires 0 <= i <= bins => min + size * i as real)
  }

  lemma EdgesAreEven(min: real, max: real, bins: nat)
    requires min < max && bins >= 1
    ensures var size := (max - min) / bins as real;
            Even(Edges(min, size, bins), min, max, size, bins)
  {
    var size := (max - min) / bins as real;
    assert size * bins as real == max - min;
    var edges := Edges(min, size, bins);
    assert forall j | 0 <= j <= bins :: edges[j] == min + size * j as real;
  }

  lemma EvenTallies(h: Histogram, values: seq<real>, bins: nat)
    requires Even(h.edges, h.min, h.max, h.size, bins)
    requires |h.counts| == bins && Counted(h.counts, values, h.edges) && Total(h.counts) == |values|
    ensures Tallies(h, values)
  {
    assert h.size * 0 as real == 0.0;
  }

  /** The counting loop. */
  method Tally(values: seq<real>, edges: seq<real>, min: real, max: real, size: real, bins: nat)
    returns (tally: seq<nat>)
    requires Even(edges, min, max, size, bins) && forall k | 0 <= k < |values| :: min <= values[k] <= max
    ensures |tally| == bins && Counted(tally, values, edges) && Total(tally) == |values|
  {
    var counts := new nat[bins](_ => 0);
    TotalOfZeros(counts[..]);
    for k := 0 to |values|
      invariant Counted(counts[..], values[..k], edges)
      invariant Total(counts[..]) == k
    {
      ghost var before := counts[..];
      CountedStep(before, values, k, edges, min, max, size, bins);
      var idx := ((values[k] - min) / size).Floor;
      if idx >= bins {
        idx := bins - 1;
      }
      counts[idx] := counts[idx] + 1;
      assert counts[..] == before[idx := before[idx] + 1];
    }
    assert values[..|values|] == values;
    tally := counts[..];
  }

  method ComputeHistogram(values: seq<real>, bins: nat) returns (h: Histogram)
    requires bins >= 1
    ensures values == [] ==> h == Histogram([], [], 0.0, 0.0, 0.0)
    ensures values != [] ==> Range(values, h.min, h.max) && Tallies(h, values)
    ensures values != [] ==> |h.counts| == if h.min == h.max then 1 else bins
  {
    if values == [] {
      return Histogram([], [], 0.0, 0.0, 0.0);
    }
    var min, max := MinMax(values);
    assert forall k | 0 <= k < |values| :: values[k] in values;
    if min == max {
      AllEqualCount(values, [min, max]);
      return Histogram([min, max], [|values|], min, max, 0.0);
    }
    EdgesAreEven(min, max, bins);
    var size := (max - min) / bins as real;
    var edges := Edges(min, size, bins);
    var counts := Tally(values, edges, min, max, size, bins);
    h := Histogram(edges, counts, min, max, size);
    EvenTallies(h, values, bins);
  }
}
