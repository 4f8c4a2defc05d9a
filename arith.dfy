/** Integer arithmetic of Python's `//` and `%` and the facts about products and quotients the
    grid and batch computations need. */
module Arith {
  /** Python's `a // b`, which rounds toward negative infinity for either sign of b. */
  function FloorDiv(a: int, b: int): (q: int)
    requires b != 0
    ensures b > 0 ==> q * b <= a < q * b + b
    ensures b < 0 ==> q * b + b < a <= q * b
  {
    if b > 0 then a / b else (-a) / (-b)
  }

  lemma MulMono(a: int, b: int, c: int)
    requires a <= b && c >= 0
    ensures a * c <= b * c
  {
    assert b * c - a * c == (b - a) * c;
  }

  /** q * n + r with 0 <= r < n has quotient q and remainder r. */
  lemma DivModOf(q: int, r: int, n: int)
    requires n > 0 && 0 <= r < n
    ensures (q * n + r) / n == q && (q * n + r) % n == r
  {
    var k := q * n + r;
    var q', r' := k / n, k % n;
    assert q' * n + r' == q * n + r;
    assert (q' - q) * n == r - r';
    if q' > q {
      MulMono(1, q' - q, n);
    } else if q' < q {
      MulMono(1, q - q', n);
    }
  }

  /** Python's `min` and `max` of two ints. */
  function Min(a: int, b: int): int {
    if b < a then b else a
  }

  function Max(a: int, b: int): int {
    if b > a then b else a
  }
}
