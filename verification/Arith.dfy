/** The few nonlinear facts the index and modulus arguments need. */
module Arith {
  lemma Euclid(x: int, b: int)
    requires b > 0
    ensures x == (x / b) * b + x % b && 0 <= x % b < b
  {
  }

  lemma MulGe(d: int, b: int)
    requires d >= 1 && b >= 0
    ensures d * b >= b
  {
  }

  lemma Distrib(p: int, q: int, b: int)
    ensures (p - q) * b == p * b - q * b
    ensures (p + q) * b == p * b + q * b
  {
  }

  lemma Near(p: int, q: int, b: int, r: int, s: int)
    requires p * b + r == q * b + s && 0 <= r < b && 0 <= s < b
    ensures p == q && r == s
  {
    if p > q {
      MulGe(p - q, b);
      Distrib(p, q, b);
    } else if p < q {
      MulGe(q - p, b);
      Distrib(q, p, b);
    }
  }

  /** Quotient and remainder are unique. */
  lemma DivUnique(x: int, b: int, q: int, r: int)
    requires x == q * b + r && 0 <= r < b
    ensures x / b == q && x % b == r
  {
    Euclid(x, b);
    Near(x / b, q, b, x % b, r);
  }

  lemma DivStep(a: int, b: int)
    requires b > 0
    ensures (a + b) / b == a / b + 1
    ensures (a + b) % b == a % b
  {
    Euclid(a, b);
    Distrib(a / b, 1, b);
    DivUnique(a + b, b, a / b + 1, a % b);
  }

  lemma DivSmall(a: int, b: int)
    requires 0 <= a < b
    ensures a / b == 0 && a % b == a
  {
    DivUnique(a, b, 0, a);
  }
}
