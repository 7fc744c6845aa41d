/** Facts about real numbers that several components need. */
module RealArithmetic {

  function Max(a: real, b: real): real { if a < b then b else a }

  function Min(a: real, b: real): real { if b < a then b else a }

  lemma ProductPositive(x: real, y: real)
    requires x > 0.0 && y > 0.0
    ensures x * y > 0.0
  {
  }

  lemma ProductNonNegative(x: real, y: real)
    requires x >= 0.0 && y >= 0.0
    ensures x * y >= 0.0
  {
  }

  /** Multiplying by a positive number keeps the order. */
  lemma ScaleKeepsOrder(x: real, y: real, s: real)
    requires s > 0.0
    ensures x <= y <==> x * s <= y * s
    ensures x < y <==> x * s < y * s
  {
    assert (y - x) * s == y * s - x * s;
    if x < y {
      ProductPositive(y - x, s);
    }
    if y < x {
      ProductPositive(x - y, s);
      assert (x - y) * s == x * s - y * s;
    }
  }

  /** A part of a positive whole, as a ratio. */
  lemma RatioInUnit(d: real, t: real)
    requires t > 0.0
    ensures d <= t ==> d / t <= 1.0
    ensures 0.0 <= d ==> 0.0 <= d / t
    ensures -t <= d ==> -1.0 <= d / t
  {
    var q := d / t;
    assert q * t == d;
    ScaleKeepsOrder(q, 1.0, t);
    ScaleKeepsOrder(0.0, q, t);
    ScaleKeepsOrder(-1.0, q, t);
  }
}
