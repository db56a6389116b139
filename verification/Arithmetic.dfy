/** Products, quotients and rests of numbers that are not literals. */
module Arithmetic {

  function Max(x: int, y: int): int { if x >= y then x else y }

  function Min(x: int, y: int): int { if x <= y then x else y }

  /** Different multiples are at least one multiple apart. */
  lemma {:induction false} ProductGap(a: int, b: int, d: nat)
    requires a < b
    ensures a * d + d <= b * d
    decreases b - a
  {
    assert b * d == (b - 1) * d + d;
    if a < b - 1 { ProductGap(a, b - 1, d); }
  }

  lemma QuotientUnique(d: nat, a: int, s: nat, b: int, t: nat)
    requires s < d && t < d && a * d + s == b * d + t
    ensures a == b && s == t
  {
    if a < b { ProductGap(a, b, d); } else if b < a { ProductGap(b, a, d); }
  }

  lemma DivModUnique(n: int, d: nat, q: int, t: nat)
    requires t < d && n == q * d + t
    ensures n / d == q && n % d == t
  {
    QuotientUnique(d, n / d, n % d, q, t);
  }

  lemma ModOfProduct(k: int, d: nat)
    requires d >= 1
    ensures (k * d) % d == 0 && (k * d) / d == k
  {
    DivModUnique(k * d, d, k, 0);
  }

  lemma RealProduct(a: real, b: real)
    requires a >= 0.0 && b >= 0.0
    ensures a * b >= 0.0
  {
  }

  lemma RealProductNonZero(a: real, b: real)
    requires a != 0.0 && b != 0.0
    ensures a * b != 0.0
  {
  }

  /** A quotient times its divisor is the dividend, and one of equals is one. */
  lemma RealQuotient(a: real, b: real, q: real)
    requires b != 0.0 && q == a / b
    ensures q * b == a && (a == b ==> q == 1.0)
  {
    assert q * b == a;
    assert (q - 1.0) * b == a - b;
    if q != 1.0 { RealProductNonZero(q - 1.0, b); }
  }

  lemma ScaledLe(base: real, a: real, b: real)
    requires base >= 0.0 && a <= b
    ensures base * a <= base * b
  {
    RealProduct(base, b - a);
  }
}
