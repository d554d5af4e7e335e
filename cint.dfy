/**
 * C and C++ integer semantics that the compositor relies on, written out
 * over Dafny's unbounded integers.  Dafny's `/` and `%` are Euclidean; C++
 * truncates the quotient toward zero and gives the remainder the sign of the
 * dividend.
 */
module CInt {

  const Int32Min: int := -0x8000_0000
  const Int32Max: int := 0x7FFF_FFFF
  const UInt32Limit: int := 0x1_0000_0000

  /** `uint32_t`. */
  type UInt32 = u: int | 0 <= u < 0x1_0000_0000

  /** C++ `a / b` for a positive divisor: the quotient truncated toward zero. */
  function TruncDiv(a: int, b: int): (q: int)
    requires b > 0
    ensures 0 <= a ==> 0 <= q && 0 <= a - q * b < b
    ensures a < 0 ==> q <= 0 && -b < a - q * b <= 0
  {
    if a >= 0 then
      EuclideanDivision(a, b);
      a / b
    else
      EuclideanDivision(-a, b);
      assert -((-a) / b) * b == -(((-a) / b) * b);
      -((-a) / b)
  }

  /** Dafny's quotient of a non-negative dividend, stated with the factor on the right. */
  lemma EuclideanDivision(a: int, b: int)
    requires b > 0 && a >= 0
    ensures 0 <= a / b && 0 <= a - (a / b) * b < b
  {
    MulSign(a / b, b);
    assert a == b * (a / b) + a % b && 0 <= a % b < b;
    assert (a / b) * b == b * (a / b);
  }

  /** C++ `a % b` for a positive divisor: `a - b * (a / b)` with the truncating quotient. */
  function TruncRem(a: int, b: int): (r: int)
    requires b > 0
    ensures a == TruncDiv(a, b) * b + r
    ensures 0 <= a ==> 0 <= r < b
    ensures a < 0 ==> -b < r <= 0
  {
    a - TruncDiv(a, b) * b
  }

  /** The `(int)` cast of a `uint32_t`: values of 2^31 and above wrap to negatives. */
  function Int32Of(u: int): (r: int)
    requires 0 <= u < UInt32Limit
    ensures Int32Min <= r <= Int32Max
    ensures u <= Int32Max ==> r == u
  {
    if u <= Int32Max then u else u - UInt32Limit
  }

  /** The cast keeps the value modulo 2^32, so it is the unique int32 congruent to `u`. */
  lemma Int32OfIsCongruent(u: int, r: int)
    requires 0 <= u < UInt32Limit && Int32Min <= r <= Int32Max
    ensures (r - u) % UInt32Limit == 0 <==> r == Int32Of(u)
  {
    if (r - u) % UInt32Limit == 0 {
      var k := (r - u) / UInt32Limit;
      assert r - u == k * UInt32Limit;
      assert -2 < k < 1;
    }
  }

  /** The sign of a product with a positive factor is the sign of the other factor. */
  lemma {:induction false} MulSign(x: int, c: int)
    requires c > 0
    ensures x > 0 ==> x * c > 0
    ensures x < 0 ==> x * c < 0
    decreases if x < 0 then -x else x
  {
    if x > 1 {
      MulSign(x - 1, c);
      assert x * c == (x - 1) * c + c;
    } else if x < -1 {
      MulSign(x + 1, c);
      assert x * c == (x + 1) * c - c;
    }
  }

  /** Multiplying by a positive factor preserves and reflects the order. */
  lemma MulMonotone(a: int, b: int, c: int)
    requires c > 0
    ensures a <= b <==> a * c <= b * c
    ensures a < b <==> a * c < b * c
  {
    assert b * c - a * c == (b - a) * c;
    MulSign(b - a, c);
  }

  /** The truncated quotient is the only q with a == q*b + r, |r| < b and r of the sign of a. */
  lemma TruncDivUnique(a: int, b: int, q: int, r: int)
    requires b > 0 && a == q * b + r
    requires 0 <= a ==> 0 <= r < b
    requires a < 0 ==> -b < r <= 0
    ensures TruncDiv(a, b) == q
  {
    var t := TruncDiv(a, b);
    assert (q + 1) * b == q * b + b && (t + 1) * b == t * b + b;
    assert (q - 1) * b == q * b - b && (t - 1) * b == t * b - b;
    if a >= 0 {
      MulMonotone(t, q + 1, b);
      MulMonotone(q, t + 1, b);
    } else {
      MulMonotone(t - 1, q, b);
      MulMonotone(q - 1, t, b);
    }
  }

  /** Truncation divides exactly when the divisor divides the dividend. */
  lemma TruncDivExact(k: int, b: int)
    requires b > 0
    ensures TruncDiv(k * b, b) == k
  {
    TruncDivUnique(k * b, b, k, 0);
  }
}
