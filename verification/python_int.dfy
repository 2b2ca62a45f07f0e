/** Python's integer division operators, written out for every sign.
    Dafny's `/` is Euclidean; Python's `//` rounds toward negative infinity
    and `math.ceil(a / b)` toward positive infinity. */
module PyInt {

  /** `a // b` in Python: the greatest integer `q` with `q <= a/b`,
      stated without rational numbers by multiplying through by `b`. */
  function FloorDiv(a: int, b: int): (q: int)
    requires b != 0
    ensures b > 0 ==> q * b <= a < q * b + b
    ensures b < 0 ==> q * b + b < a <= q * b
  {
    if b > 0 then a / b
    else
      var c := -b;
      var q := (-a) / c;
      assert q * c <= -a < q * c + c;
      assert q * b == -(q * c);
      q
  }

  /** `math.ceil(a / b)` in Python, taken over the exact rational `a/b`:
      the least integer `c` with `a/b <= c`. */
  function CeilDiv(a: int, b: int): (c: int)
    requires b != 0
    ensures b > 0 ==> c * b - b < a <= c * b
    ensures b < 0 ==> c * b <= a < c * b - b
  {
    var q := FloorDiv(-a, b);
    assert (-q) * b == -(q * b);
    -q
  }

  /** The bracket in `FloorDiv`'s contract pins the quotient down: any
      integer inside it is `a // b`. */
  lemma FloorDivUnique(a: int, b: int, q: int)
    requires b != 0
    requires b > 0 ==> q * b <= a < q * b + b
    requires b < 0 ==> q * b + b < a <= q * b
    ensures q == FloorDiv(a, b)
  {
    if b > 0 {
      EuclideanQuotientUnique(a, b, q);
    } else {
      // negating both operands leaves the rational quotient unchanged
      assert q * (-b) == -(q * b);
      EuclideanQuotientUnique(-a, -b, q);
    }
  }

  /** For a positive divisor there is one integer whose bracket holds `a`. */
  lemma EuclideanQuotientUnique(a: int, b: int, q: int)
    requires b > 0
    requires q * b <= a < q * b + b
    ensures q == a / b
  {
    var f := a / b;
    if q < f {
      MulMonotone(q + 1, f, b);
    } else if f < q {
      MulMonotone(f + 1, q, b);
    }
  }

  /** The bracket in `CeilDiv`'s contract pins the ceiling down. */
  lemma CeilDivUnique(a: int, b: int, c: int)
    requires b != 0
    requires b > 0 ==> c * b - b < a <= c * b
    requires b < 0 ==> c * b <= a < c * b - b
    ensures c == CeilDiv(a, b)
  {
    assert (-c) * b == -(c * b);
    FloorDivUnique(-a, b, -c);
  }

  /** A non-negative count split over a positive divisor has a non-negative ceiling. */
  lemma CeilDivNonNegative(a: int, b: int)
    requires a >= 0 && b > 0
    ensures CeilDiv(a, b) >= 0
  {
    var c := CeilDiv(a, b);
    if c < 0 {
      MulMonotone(c, -1, b);
    }
  }

  lemma MulMonotone(x: int, y: int, k: nat)
    requires x <= y
    ensures x * k <= y * k
  {
    assert y * k - x * k == (y - x) * k;
  }
}
