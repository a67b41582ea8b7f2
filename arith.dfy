/** Facts about natural-number division used by the downscale and
    frame-skip arithmetic. */
module Arith {

  /** Multiplying by a natural number keeps the order. */
  lemma MulMonotone(x: nat, y: nat, b: nat)
    requires x <= y
    ensures x * b <= y * b
  {
    assert y * b == x * b + (y - x) * b;
  }

  /** `c` is at most the quotient when `c` times the divisor fits in the dividend. */
  lemma DivAtLeast(a: nat, b: nat, c: nat)
    requires 1 <= b && c * b <= a
    ensures c <= a / b
  {
    var q := a / b;
    assert a == q * b + a % b;
    if q < c {
      MulMonotone(q + 1, c, b);
    }
  }

  /** The quotient is at most `c` when the dividend is below `c + 1` divisors. */
  lemma DivAtMost(a: nat, b: nat, c: nat)
    requires 1 <= b && a < (c + 1) * b
    ensures a / b <= c
  {
    var q := a / b;
    assert a == q * b + a % b;
    if q > c {
      MulMonotone(c + 1, q, b);
    }
  }

  /** Dividing a multiple of `b` by `b`. */
  lemma DivExact(b: nat, c: nat)
    requires 1 <= b
    ensures b * c / b == c && c * b / b == c
  {
    DivAtLeast(c * b, b, c);
    DivAtMost(c * b, b, c);
  }

  /** Euclid's bracket: the quotient times the divisor is at most the
      dividend, one more divisor exceeds it. */
  lemma DivBracket(a: nat, b: nat)
    requires 1 <= b
    ensures (a / b) * b <= a < (a / b + 1) * b
  {
    var q := a / b;
    assert a == q * b + a % b;
    assert (q + 1) * b == q * b + b;
  }
}
