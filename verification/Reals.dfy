/** Order facts about products and quotients of reals that several modules need. */
module Reals {

  function Abs(x: real): (r: real)
    ensures r >= 0.0 && (r == x || r == -x)
  {
    if x < 0.0 then -x else x
  }

  lemma SignRule(x: real, y: real)
    ensures x * y < 0.0 <==> (x < 0.0 < y || y < 0.0 < x)
    ensures x * y == 0.0 <==> x == 0.0 || y == 0.0
  {
    if x > 0.0 && y > 0.0 { assert x * y > 0.0; }
    if x < 0.0 && y < 0.0 { assert (-x) * (-y) > 0.0; }
    if x < 0.0 && y > 0.0 { assert (-x) * y > 0.0; }
    if x > 0.0 && y < 0.0 { assert x * (-y) > 0.0; }
  }

  lemma ScaleStrict(a: real, b: real, k: real)
    requires a < b && k > 0.0
    ensures a * k < b * k && k * a < k * b
  {
    assert (b - a) * k > 0.0;
  }

  lemma SignOfProduct(x: real, k: real)
    requires k > 0.0
    ensures x * k > 0.0 <==> x > 0.0
    ensures x * k == 0.0 <==> x == 0.0
  {
    if x > 0.0 { ScaleStrict(0.0, x, k); }
    if x < 0.0 { ScaleStrict(x, 0.0, k); }
  }

  lemma BoundProduct(a: real, b: real, p: real)
    requires a <= b && p >= 0.0
    ensures a * p <= b * p
  {
    assert (b - a) * p >= 0.0;
  }

  lemma QuotientOrder(x: real, y: real, n: real)
    requires n > 0.0 && x < y
    ensures x / n < y / n
  {
  }

  lemma QuotientMonotone(x: real, y: real, n: real)
    requires n > 0.0 && x <= y
    ensures x / n <= y / n
  {
  }

  lemma FractionBelowOne(x: real, n: real)
    requires 0.0 <= x < n
    ensures 0.0 <= x / n < 1.0
  {
    assert x / n < n / n;
  }

  lemma ReciprocalOrder(p: real, q: real)
    requires 0.0 < p < q
    ensures 1.0 / q < 1.0 / p
  {
    assert 1.0 / p - 1.0 / q == (q - p) / (p * q);
  }

  lemma SquareNonneg(x: real)
    ensures x * x >= 0.0
  {
    if x < 0.0 { assert (-x) * (-x) > 0.0; }
  }

  lemma ProductNonneg(x: real, y: real)
    requires x >= 0.0 && y >= 0.0
    ensures x * y >= 0.0
  {
  }

  lemma TimesReciprocal(x: real, f: real)
    requires f > 0.0
    ensures x * (1.0 / f) == x / f
  {
  }

  function Ceiling(x: real): int {
    -(-x).Floor
  }

  lemma Distribute(k: real, a: real, b: real)
    ensures k * (a + b) == k * a + k * b
  {
  }
}
