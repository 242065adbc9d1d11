/** A few facts about products and quotients of reals that the solver does not find by itself. */
module RealFacts {
  lemma Cancel(u: real, v: real, c: real)
    requires c != 0.0 && u * c == v * c
    ensures u == v
  {
    assert (u - v) * c == 0.0;
  }

  lemma RatioMinusOne(x: real, c: real)
    requires c != 0.0
    ensures (x - c) / c == x / c - 1.0
  {
    var u, v := (x - c) / c, x / c - 1.0;
    assert u * c == x - c;
    assert x / c * c == x;
    assert v * c == x / c * c - c;
    Cancel(u, v, c);
  }

  lemma RatioOrder(x: real, y: real, c: real)
    requires c > 0.0
    ensures x / c <= y / c <==> x <= y
  {
    var u, v := x / c, y / c;
    assert u * c == x && v * c == y;
    assert (v - u) * c == y - x;
  }

  /** A larger divisor gives a smaller ratio. */
  lemma RatioShrinks(x: real, low: real, high: real)
    requires x >= 0.0 && 0.0 < low <= high
    ensures x / high <= x / low
  {
    var u, v := x / low, x / high;
    assert u * low == x && v * high == x;
    assert u >= 0.0;
    assert u * high >= u * low;
    assert (u - v) * high >= 0.0;
  }

  lemma ProductPositive(x: real, y: real)
    requires x > 0.0 && y > 0.0
    ensures x * y > 0.0
  {}

  lemma ProductSign(x: real, y: real)
    requires x > 0.0
    ensures x * y > 0.0 <==> y > 0.0
  {}

  lemma ProductAtMost(x: real, r: real)
    requires x >= 0.0 && r <= 1.0
    ensures x * r <= x
  {
    assert x * (1.0 - r) >= 0.0;
    assert x * (1.0 - r) == x - x * r;
  }

  lemma RatioPositive(x: real, y: real)
    requires x > 0.0 && y > 0.0
    ensures x / y > 0.0
  {
    assert x / y * y == x;
  }

  function Mean(total: real, n: nat): real
    requires n > 0
  {
    total / n as real
  }

  lemma MeanTimes(total: real, n: nat)
    requires n > 0
    ensures Mean(total, n) * n as real == total
  {}

  lemma UnitMean(k: nat, n: nat)
    requires k <= n && n > 0
    ensures 0.0 <= Mean(k as real, n) <= 1.0
  {
    RatioOrder(0.0, k as real, n as real);
    RatioOrder(k as real, n as real, n as real);
  }

  lemma MeanBetween(total: real, n: nat, low: real, high: real)
    requires n > 0 && low * n as real <= total <= high * n as real
    ensures low <= Mean(total, n) <= high
  {
    var m := Mean(total, n);
    assert (m - low) * n as real >= 0.0 && (high - m) * n as real >= 0.0;
  }

  lemma MeanEnds(k: nat, n: nat)
    requires n > 0
    ensures Mean(k as real, n) == 1.0 <==> k == n
    ensures Mean(k as real, n) == 0.0 <==> k == 0
  {
    MeanTimes(k as real, n);
    hide Mean;
  }
}
