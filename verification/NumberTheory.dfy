/** Divisibility and primes, as far as the smooth-number table needs them. */
module NumberTheory {
  import opened Arithmetic

  ghost predicate IsPrime(q: int) {
    q >= 2 && forall d :: 2 <= d < q ==> q % d != 0
  }

  lemma MulLe(a: int, b: int, c: nat)
    requires a <= b
    ensures a * c <= b * c
  {
    assert (b - a) * c >= 0;
  }

  lemma Factor(n: int, d: nat)
    requires d >= 1 && n % d == 0
    ensures n == (n / d) * d
  {
  }

  lemma DividesMultiple(n: int, k: int, d: nat)
    requires d >= 1 && n % d == 0
    ensures (k * n) % d == 0
  {
    Factor(n, d);
    ModOfProduct(k * (n / d), d);
    assert k * n == k * (n / d) * d;
  }

  lemma DividesDifference(a: int, b: int, d: nat)
    requires d >= 1 && a % d == 0 && b % d == 0
    ensures (a - b) % d == 0
  {
    Factor(a, d);
    Factor(b, d);
    ModOfProduct(a / d - b / d, d);
    assert a - b == (a / d - b / d) * d;
  }

  lemma DividesTrans(n: int, m: nat, d: nat)
    requires m >= 1 && d >= 1 && n % m == 0 && m % d == 0
    ensures n % d == 0
  {
    Factor(n, m);
    DividesMultiple(m, n / m, d);
  }

  /** A prime dividing r*b with 0 < r < q divides b: reduce r modulo q down to 1. */
  lemma {:induction false} EuclidSmall(q: nat, r: nat, b: int)
    requires IsPrime(q) && 0 < r < q && (r * b) % q == 0
    ensures b % q == 0
    decreases r
  {
    if r > 1 {
      var t, rest := q / r, q % r;
      assert q == t * r + rest;
      assert rest != 0;
      DividesMultiple(r * b, t, q);
      ModOfProduct(b, q);
      DividesDifference(b * q, t * (r * b), q);
      assert rest * b == b * q - t * (r * b) by { assert t * (r * b) == t * r * b; }
      EuclidSmall(q, rest, b);
    } else {
      assert r * b == b;
    }
  }

  /** Euclid: a prime dividing a product divides a factor. */
  lemma Euclid(q: nat, a: nat, b: int)
    requires IsPrime(q) && (a * b) % q == 0
    ensures a % q == 0 || b % q == 0
  {
    var t, r := a / q, a % q;
    if r != 0 {
      assert a == t * q + r;
      ModOfProduct(t * b, q);
      DividesDifference(a * b, t * b * q, q);
      assert r * b == a * b - t * b * q;
      EuclidSmall(q, r, b);
    }
  }

  lemma {:induction false} HasPrimeDivisor(n: nat) returns (q: nat)
    requires n >= 2
    ensures IsPrime(q) && n % q == 0 && q <= n
  {
    if d :| 2 <= d < n && n % d == 0 {
      q := HasPrimeDivisor(d);
      DividesTrans(n, d, q);
    } else {
      q := n;
    }
  }

  // ---- deciding primality by trial division ----

  /** `int(q ** 0.5)`: the largest r with r*r <= n. */
  function ISqrt(n: nat): (r: nat)
    ensures r * r <= n < (r + 1) * (r + 1)
  {
    if n == 0 then 0
    else
      var r := ISqrt(n - 1);
      if (r + 1) * (r + 1) <= n then r + 1 else r
  }

  /** `all(q % d for d in range(2, int(q ** 0.5) + 1))`. */
  predicate TrialPrime(q: nat) {
    forall d :: 2 <= d <= ISqrt(q) ==> q % d != 0
  }

  /** A proper divisor has a cofactor, and the smaller of the two is at most the root. */
  lemma Cofactor(q: nat, d: nat, e: nat, r: nat)
    requires 2 <= d < q && q == e * d && q < (r + 1) * (r + 1)
    ensures 2 <= e < q
    ensures d <= r || e <= r
  {
    if e <= 1 { MulLe(e, 1, d); }
    MulLe(2, d, e);
    if d > r {
      if e > r {
        MulLe(r + 1, e, d);
        MulLe(r + 1, d, r + 1);
      }
    }
  }

  lemma ISqrtLess(q: nat)
    requires q >= 2
    ensures ISqrt(q) < q
  {
    var r := ISqrt(q);
    if r >= q { MulLe(2, r, r); }
  }

  lemma NoDivisorAboveRoot(q: nat, d: nat)
    requires 2 <= d < q && TrialPrime(q)
    ensures q % d != 0
  {
    if q % d == 0 {
      var e := q / d;
      Factor(q, d);
      Cofactor(q, d, e, ISqrt(q));
      ModOfProduct(d, e);
    }
  }

  /** Trial division up to the square root decides primality. */
  lemma TrialDivision(q: nat)
    requires q >= 2
    ensures TrialPrime(q) <==> IsPrime(q)
  {
    ISqrtLess(q);
    if TrialPrime(q) {
      forall d | 2 <= d < q ensures q % d != 0 { NoDivisorAboveRoot(q, d); }
    }
  }

  /** `[q for q in range(2, bound + 1) if ...]`. */
  function Primes(bound: int): seq<int> {
    if bound < 2 then []
    else if TrialPrime(bound) then Primes(bound - 1) + [bound]
    else Primes(bound - 1)
  }

  lemma {:induction false} PrimesAreThePrimes(bound: int)
    ensures forall q :: q in Primes(bound) <==> IsPrime(q) && q <= bound
    ensures forall i, j :: 0 <= i < j < |Primes(bound)| ==> Primes(bound)[i] < Primes(bound)[j]
    decreases bound
  {
    if bound >= 2 {
      PrimesAreThePrimes(bound - 1);
      TrialDivision(bound);
      var before := Primes(bound - 1);
      assert forall i :: 0 <= i < |before| ==> before[i] in before;
    }
  }

  // ---- dividing a prime out ----

  /** The part of `n` that is free of the prime `p`. */
  ghost function Free(n: nat, p: nat): (s: nat)
    requires n >= 1 && p >= 2
    ensures 1 <= s <= n && s % p != 0
  {
    if n % p == 0 then Quotient(n, p); Free(n / p, p) else n
  }

  lemma Quotient(n: nat, p: nat)
    requires n >= 1 && p >= 2 && n % p == 0
    ensures 1 <= n / p < n && n == (n / p) * p
  {
    Factor(n, p);
    MulLe(2, p, n / p);
  }

  lemma FreeOfMultiple(s: nat, p: nat)
    requires s >= 1 && p >= 2
    ensures s * p >= 1 && Free(s * p, p) == Free(s, p)
  {
    ModOfProduct(s, p);
  }

  lemma PrimeFactors(n: nat, m: nat, p: nat, q: nat)
    requires IsPrime(p) && IsPrime(q) && n == m * p
    ensures m % q == 0 ==> n % q == 0
    ensures n % q == 0 && q != p ==> m % q == 0
  {
    if m % q == 0 { DividesMultiple(m, p, q); }
    if n % q == 0 && q != p {
      Euclid(q, m, p);
      DistinctPrimes(p, q);
    }
  }

  lemma DistinctPrimes(p: nat, q: nat)
    requires IsPrime(p) && IsPrime(q) && p != q
    ensures p % q != 0
  {
    if p < q { assert p % q == p; }
  }

  /** Dividing out p keeps exactly the other prime divisors. */
  lemma {:induction false} FreeDivisors(n: nat, p: nat, q: nat)
    requires n >= 1 && IsPrime(p) && IsPrime(q)
    ensures Free(n, p) % q == 0 <==> n % q == 0 && q != p
  {
    if n % p == 0 {
      Quotient(n, p);
      FreeDivisors(n / p, p, q);
      PrimeFactors(n, n / p, p, q);
    }
  }

  lemma QuotientGap(n: nat, v: nat, a: nat, b: nat, p: nat)
    requires p >= 2 && v <= n < v * p && n == a * p && v == b * p
    ensures b <= a < b * p
  {
    if a < b { ProductGap(a, b, p); }
    if a >= b * p { MulLe(b * p, a, p); }
  }

  lemma QuotientBelow(n: nat, v: nat, a: nat, p: nat)
    requires n < v * p && n == a * p
    ensures a < v
  {
    if a >= v { MulLe(v, a, p); }
  }

  /** The multiples of one p-free number by powers of p are a factor p apart. */
  lemma {:induction false} FreeGap(n: nat, v: nat, p: nat)
    requires p >= 2 && 1 <= v <= n < v * p && Free(n, p) == Free(v, p)
    ensures n == v
  {
    if n % p == 0 {
      Quotient(n, p);
      if v % p == 0 {
        Quotient(v, p);
        QuotientGap(n, v, n / p, v / p, p);
        FreeGap(n / p, v / p, p);
      } else {
        QuotientBelow(n, v, n / p, p);
      }
    }
  }
}
