/** The few facts about products and quotients that the solver needs spelled out. */
module Arith {
  lemma MulNat(a: nat, b: nat)
    ensures 0 <= a * b
  {
  }

  lemma MulMono(a: int, b: int, n: nat)
    requires a <= b
    ensures a * n <= b * n
  {
    MulNat(b - a, n);
    assert (b - a) * n == b * n - a * n;
  }

  /** A multiple of `n` strictly above another is above it by at least `n`. */
  lemma MulGap(a: int, b: int, n: nat)
    requires a < b
    ensures a * n + n <= b * n
  {
    MulMono(a + 1, b, n);
    assert (a + 1) * n == a * n + n;
  }

  /** The quotient is the one multiple that brackets the dividend. */
  lemma DivIs(x: int, n: nat, q: int)
    requires 0 < n && q * n <= x < q * n + n
    ensures x / n == q
  {
    DivBounds(x, n);
    var d := x / n;
    if d < q {
      MulGap(d, q, n);
    } else if q < d {
      MulGap(q, d, n);
    }
  }

  lemma DivBounds(x: int, n: nat)
    requires 0 < n
    ensures (x / n) * n <= x < (x / n) * n + n
  {
    var d, r := x / n, x % n;
    assert x == n * d + r;
    assert n * d == d * n;
  }
}
