/** Integer division and remainder facts that the solver does not find unaided. */
module Arithmetic {

  lemma AtLeastOneMultiple(d: int, m: nat)
    requires d >= 1
    ensures d * m >= m
  {
    assert d * m == (d - 1) * m + m;
    NonNegativeProduct(d - 1, m);
  }

  lemma NonNegativeProduct(a: nat, b: nat)
    ensures a * b >= 0
  {
  }

  /** Quotient and remainder are unique. */
  lemma DivModUnique(v: int, m: nat, q: int, r: nat)
    requires r < m && v == q * m + r
    ensures v / m == q && v % m == r
  {
    var q', r' := v / m, v % m;
    assert v == q' * m + r';
    assert (q' - q) * m == r - r';
    assert (q - q') * m == r' - r;
    if q' > q {
      AtLeastOneMultiple(q' - q, m);
    } else if q' < q {
      AtLeastOneMultiple(q - q', m);
    }
  }

  /** Values that differ by a multiple of m have the same remainder. */
  lemma SameResidue(a: int, b: int, m: nat, q: int)
    requires m > 0 && a == b + q * m
    ensures a % m == b % m
  {
    var q' := b / m;
    assert b == q' * m + b % m;
    assert a == (q + q') * m + b % m by {
      assert (q + q') * m == q * m + q' * m;
    }
    DivModUnique(a, m, q + q', b % m);
  }

  lemma DivMonotone(a: nat, b: nat, m: nat)
    requires m > 0 && a <= b
    ensures a / m <= b / m
  {
    var d := a / m - b / m;
    assert d * m == (a / m) * m - (b / m) * m;
    if d >= 1 {
      AtLeastOneMultiple(d, m);
    }
  }

  /** A product grows with its factors. */
  lemma ProductBound(a: nat, b: nat, x: nat, y: nat)
    requires a <= x && b <= y
    ensures 0 <= a * b <= x * y
  {
    assert x * y == a * b + a * (y - b) + (x - a) * y;
    NonNegativeProduct(a, y - b);
    NonNegativeProduct(x - a, y);
    NonNegativeProduct(a, b);
  }

  /** Sample positions of a frame; kept apart so that proofs can treat the product as given. */
  function At(frame: nat, channels: nat): nat {
    frame * channels
  }
}
