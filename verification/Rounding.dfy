/** `Math.round(value * places) / places`, as the collector and the price estimate use it. */
module Rounding {

  /** `Math.round`: the nearest integer, halves going up. */
  function Nearest(x: real): (n: int)
    ensures n as real - 0.5 <= x < n as real + 0.5
  {
    (x + 0.5).Floor
  }

  function Round(value: real, p: real): (r: real)
    requires p > 0.0
    ensures -1.0 <= 2.0 * p * (r - value) <= 1.0
  {
    var n := Nearest(value * p);
    QuotientError(value, p, n as real);
    n as real / p
  }

  lemma QuotientError(value: real, p: real, n: real)
    requires p > 0.0 && -0.5 <= n - value * p <= 0.5
    ensures -1.0 <= 2.0 * p * (n / p - value) <= 1.0
  {
    assert p * (n / p) == n;
    assert 2.0 * p * (n / p - value) == 2.0 * (n - value * p);
  }

  lemma NearestIsMonotone(x: real, y: real)
    requires x <= y
    ensures Nearest(x) <= Nearest(y)
  {
  }

  lemma QuotientIsMonotone(m: real, n: real, p: real)
    requires p > 0.0 && m <= n
    ensures m / p <= n / p
  {
    assert (n - m) / p >= 0.0;
    assert n / p - m / p == (n - m) / p;
  }

  lemma ProductIsMonotone(x: real, y: real, p: real)
    requires p >= 0.0 && x <= y
    ensures x * p <= y * p
  {
    assert (y - x) * p >= 0.0;
  }

  /** Rounding keeps the order of what it rounds. */
  lemma RoundIsMonotone(x: real, y: real, p: real)
    requires p > 0.0 && x <= y
    ensures Round(x, p) <= Round(y, p)
  {
    ProductIsMonotone(x, y, p);
    NearestIsMonotone(x * p, y * p);
    QuotientIsMonotone(Nearest(x * p) as real, Nearest(y * p) as real, p);
  }

  /** A whole number of the smallest unit is left as it is. */
  lemma RoundIsExact(value: real, n: int, p: real)
    requires p > 0.0 && value * p == n as real
    ensures Round(value, p) == value
  {
    assert Nearest(value * p) == n;
    assert (value * p) / p == value;
  }
}
