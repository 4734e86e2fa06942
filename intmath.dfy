/** Integer division as Python 2 performs it on `int` operands. */
module IntMath {

  /** Python's `a // b` (and Python 2's `a / b` on ints): rounds toward negative infinity. */
  function FloorDiv(a: int, b: int): (q: int)
    requires b != 0
    ensures b > 0 ==> q * b <= a < q * b + b
    ensures b < 0 ==> q * b >= a > q * b + b
  {
    if b > 0 then a / b else (-a) / (-b)
  }

  /** The integer `ceil(a / b)` for a non-zero divisor; `math.ceil` on an exact quotient. */
  function CeilDiv(a: int, b: int): (q: int)
    requires b != 0
    ensures b > 0 ==> q * b - b < a <= q * b
    ensures b < 0 ==> q * b - b > a >= q * b
  {
    -FloorDiv(-a, b)
  }

  /** Floor division by a positive divisor is monotone in the dividend. */
  lemma FloorDivMonotone(a1: int, a2: int, b: int)
    requires b > 0 && a1 <= a2
    ensures FloorDiv(a1, b) <= FloorDiv(a2, b)
  {
    var q1 := FloorDiv(a1, b);
    var q2 := FloorDiv(a2, b);
    if q1 > q2 {
      MulMonotone(q2 + 1, q1, b);
    }
  }

  /** A dividend between 0 and `k * b` gives a quotient between 0 and `k`. */
  lemma FloorDivRange(a: int, b: int, k: int)
    requires b > 0 && 0 <= a <= k * b
    ensures 0 <= FloorDiv(a, b) <= k
  {
    var q := FloorDiv(a, b);
    if q > k {
      MulMonotone(k + 1, q, b);
    }
    if q < 0 {
      MulMonotone(q + 1, 0, b);
    }
  }

  /** `k * b / b == k` for a positive `b`. */
  lemma FloorDivExact(k: int, b: int)
    requires b > 0
    ensures FloorDiv(k * b, b) == k
  {
    var q := FloorDiv(k * b, b);
    if q > k {
      MulMonotone(k + 1, q, b);
    }
    if q < k {
      MulMonotone(q + 1, k, b);
    }
  }

  /** `n < ceil(a / b)` exactly when `n * b < a`, for a positive `b`. */
  lemma BelowCeil(a: int, b: int, n: int)
    requires b > 0
    ensures n < CeilDiv(a, b) <==> n * b < a
  {
    var q := CeilDiv(a, b);
    if n < q {
      MulMonotone(n + 1, q, b);
    } else {
      MulMonotone(q, n, b);
    }
  }

  lemma MulMonotone(x: int, y: int, b: int)
    requires b >= 0 && x <= y
    ensures x * b <= y * b
  {
  }
}
