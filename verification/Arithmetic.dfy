/** Facts about products, quotients and remainders that several modules need. */
module Arithmetic {

  lemma ProductBound(k: int, d: int)
    requires d > 0
    ensures k >= 1 ==> k * d >= d
    ensures k <= -1 ==> k * d <= -d
  {
    if k >= 1 {
      assert (k - 1) * d >= 0;
    } else if k <= -1 {
      assert (-1 - k) * d >= 0;
    }
  }

  lemma OnlyZero(k: int, d: int, m: int)
    requires d > 0 && k * d == m && -d < m < d
    ensures k == 0
  {
    ProductBound(k, d);
  }

  lemma QuotientBound(i: nat, d: nat, bound: nat)
    requires d > 0 && i < d * bound
    ensures i / d < bound
  {
    var q := i / d;
    assert i == q * d + i % d;
    assert (q - bound) * d < 0;
    ProductBound(q - bound, d);
  }

  /** Two numbers less than `d` apart with the same remainder are equal. */
  lemma SameRemainder(a: nat, b: nat, d: nat)
    requires d > 0 && a % d == b % d && a < b + d && b < a + d
    ensures a == b
  {
    assert a == (a / d) * d + a % d && b == (b / d) * d + b % d;
    assert (a / d - b / d) * d == a - b;
    OnlyZero(a / d - b / d, d, a - b);
  }

  /** Where row `t` starts in a buffer of rows of the given width: the product, kept linear for the solver. */
  function Offset(t: nat, width: nat): nat {
    if t == 0 then 0 else Offset(t - 1, width) + width
  }

  lemma {:induction false} OffsetIsProduct(t: nat, width: nat)
    ensures Offset(t, width) == t * width
  {
    if t == 0 {
    } else {
      OffsetIsProduct(t - 1, width);
      assert t * width == (t - 1) * width + width;
    }
  }

  /** Row `t` of a buffer of `rows` rows lies inside it. */
  lemma {:induction false} RowFits(t: nat, rows: nat, width: nat)
    requires t < rows
    ensures Offset(t, width) + width <= Offset(rows, width)
  {
    if t + 1 < rows {
      RowFits(t, rows - 1, width);
    }
  }
}
