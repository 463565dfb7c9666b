/** Facts about integer products and Euclidean division that several modules need. */
module Integers {

  /** Strictly ascending, hence free of duplicates. */
  ghost predicate Ascending(s: seq<int>) {
    forall i, j :: 0 <= i < j < |s| ==> s[i] < s[j]
  }

  lemma MulNonneg(a: int, b: int)
    requires a >= 0 && b >= 0
    ensures a * b >= 0
  {
  }

  lemma NonzeroMultipleIsLarge(b: int, k: int)
    requires b > 0 && k != 0
    ensures b * k >= b || b * k <= -b
  {
    if k > 0 {
      MulNonneg(b, k - 1);
      assert b * k == b * (k - 1) + b;
    } else {
      MulNonneg(b, -k - 1);
      assert b * k == -(b * (-k - 1)) - b;
    }
  }

  lemma FloorUnique(a: int, b: int, q: int, r: int)
    requires b > 0 && a == b * q + r && 0 <= r < b
    ensures a / b == q && a % b == r
  {
    var k := q - a / b;
    assert b * k == b * q - b * (a / b) == a % b - r;
    if k != 0 {
      NonzeroMultipleIsLarge(b, k);
      assert false;
    }
  }
}
