// Arithmetic facts shared by the ring buffer, the pattern clocks and the exponential glides.

module Arith {
  /** f raised to the n-th power. */
  function Power(f: real, n: nat): real
    decreases n
  {
    if n == 0 then 1.0 else f * Power(f, n - 1)
  }

  // Real-number helpers

  lemma MulPositive(a: real, b: real)
    requires a > 0.0 && b > 0.0
    ensures a * b > 0.0
  {
  }

  lemma MulNonNegative(a: real, b: real)
    requires a >= 0.0 && b >= 0.0
    ensures a * b >= 0.0
  {
  }

  lemma MulAssoc(a: real, b: real, c: real)
    ensures (a * b) * c == a * (b * c)
  {
  }

  // Modular-arithmetic helpers

  lemma ModShift(x: int, q: int, n: int)
    requires 0 < n
    ensures (x + q * n) % n == x % n
  {
    var r := x % n;
    var d := x / n;
    assert x == d * n + r;
    assert x + q * n == (d + q) * n + r;
    DivModUnique(x + q * n, d + q, r, n);
  }

  lemma ModAddLeft(a: int, b: int, n: int)
    requires 0 < n
    ensures ((a % n) + b) % n == (a + b) % n
  {
    var d := a / n;
    assert a == d * n + a % n;
    ModShift(a % n + b, d, n);
  }

  lemma DivModUnique(x: int, q: int, r: int, n: int)
    requires 0 < n && 0 <= r < n && x == q * n + r
    ensures x % n == r && x / n == q
  {
    var d := q - x / n;
    assert d * n == x % n - r;
    MulSmall(d, n);
  }

  lemma NotMultiple(d: int, n: int, k: int)
    requires 0 < n && -n < k < n && k != 0
    ensures d * n != k
  {
  }

  lemma MulSmall(d: int, n: int)
    requires 0 < n && -n < d * n < n
    ensures d == 0
  {
  }
}
