/** Python's bitwise operations on integers of any size, in two's complement, and what they say about powers of two. */
module Bits {

  function Abs(x: int): nat { if x >= 0 then x else -x }

  /** `a & b`. */
  function BitAnd(a: int, b: int): int
    decreases Abs(a) + Abs(b)
  {
    if a == 0 || b == 0 then 0
    else if a == -1 then b
    else if b == -1 then a
    else 2 * BitAnd(a / 2, b / 2) + (if a % 2 == 1 && b % 2 == 1 then 1 else 0)
  }

  function Pow2(k: nat): nat {
    if k == 0 then 1 else 2 * Pow2(k - 1)
  }

  /** `x.bit_length()` of a positive number. */
  function BitLength(x: nat): nat {
    if x == 0 then 0 else 1 + BitLength(x / 2)
  }

  ghost predicate IsPow2(x: int) {
    exists k: nat :: x == Pow2(k)
  }

  /** Reading off the lowest bit is halving, whatever the signs. */
  lemma LowBit(a: int, b: int)
    ensures BitAnd(a, b) == 2 * BitAnd(a / 2, b / 2) + (if a % 2 == 1 && b % 2 == 1 then 1 else 0)
  {
    if a == 0 || b == 0 || a == -1 || b == -1 {
      assert 0 / 2 == 0 && -1 / 2 == -1 && -1 % 2 == 1;
    }
  }

  /** A number and its complement share no bit. */
  lemma {:induction false} Complement(q: int)
    ensures BitAnd(q, -q - 1) == 0
    decreases Abs(q)
  {
    if q != 0 && q != -1 {
      LowBit(q, -q - 1);
      Complement(q / 2);
      assert (-q - 1) / 2 == -(q / 2) - 1;
    }
  }

  lemma {:induction false} AndItself(q: int)
    ensures BitAnd(q, q) == q
    decreases Abs(q)
  {
    if q != 0 && q != -1 {
      LowBit(q, q);
      AndItself(q / 2);
    }
  }

  lemma {:induction false} Pow2Positive(k: nat)
    ensures Pow2(k) >= 1
  {
    if k > 0 { Pow2Positive(k - 1); }
  }

  lemma {:induction false} Pow2Grows(j: nat, k: nat)
    requires j <= k
    ensures Pow2(j) <= Pow2(k) && (j < k ==> Pow2(j) < Pow2(k))
    decreases k
  {
    Pow2Positive(j);
    if j < k { Pow2Grows(j, k - 1); }
  }

  /** `step` is a power of two that divides `v`, and no larger one does. */
  ghost predicate LargestPow2In(step: int, v: int) {
    exists k: nat :: step == Pow2(k) && Times2(v, k)
  }

  /** Exactly the `k`-th power of two divides `v`. */
  ghost predicate Times2(v: int, k: nat) {
    exists m: int :: m % 2 == 1 && v == m * Pow2(k)
  }

  /** `v & -v` is the largest power of two that divides `v`. */
  lemma {:induction false} LowestBit(v: int)
    requires v != 0
    ensures LargestPow2In(BitAnd(v, -v), v)
    decreases Abs(v)
  {
    LowBit(v, -v);
    if v % 2 == 1 {
      Complement(v / 2);
      assert (-v) / 2 == -(v / 2) - 1;
      assert BitAnd(v, -v) == Pow2(0) && v == v * Pow2(0);
      assert Times2(v, 0);
    } else {
      var w := v / 2;
      assert v == 2 * w && (-v) / 2 == -w;
      LowestBit(w);
      var k: nat :| BitAnd(w, -w) == Pow2(k) && Times2(w, k);
      var m: int :| m % 2 == 1 && w == m * Pow2(k);
      Doubling(m, k, w);
      assert Times2(v, k + 1);
    }
  }

  lemma Doubling(m: int, k: nat, w: int)
    requires w == m * Pow2(k)
    ensures 2 * w == m * Pow2(k + 1)
  {
  }

  /** A power of two that divides `v` divides its largest one. */
  lemma {:induction false} NoLargerPow2(v: int, k: nat, j: nat, n: int)
    requires Times2(v, k) && v == n * Pow2(j)
    ensures j <= k
    decreases k
  {
    var m: int :| m % 2 == 1 && v == m * Pow2(k);
    if j > k {
      Pow2Split(j, k);
      var rest := Pow2(j - k - 1);
      Pow2Positive(k);
      OddIsNotEven(m, Pow2(k), n, rest);
    }
  }

  lemma {:induction false} Pow2Split(j: nat, k: nat)
    requires j > k
    ensures Pow2(j) == 2 * Pow2(j - k - 1) * Pow2(k)
    decreases k
  {
    if k > 0 { Pow2Split(j - 1, k - 1); }
  }

  lemma OddIsNotEven(m: int, p: nat, n: int, rest: int)
    requires m % 2 == 1 && p >= 1
    ensures m * p != n * (2 * rest * p)
  {
    assert n * (2 * rest * p) == (2 * (n * rest)) * p;
    SameFactor(m, 2 * (n * rest), p);
  }

  lemma SameFactor(a: int, b: int, p: nat)
    requires p >= 1 && a != b
    ensures a * p != b * p
  {
  }

  /** For a positive number, `v & (v - 1)` is zero exactly for the powers of two. */
  lemma {:induction false} Pow2Test(v: nat)
    requires v >= 1
    ensures BitAnd(v, v - 1) == 0 <==> IsPow2(v)
  {
    LowBit(v, v - 1);
    if v == 1 {
      assert v == Pow2(0);
    } else if v % 2 == 0 {
      assert (v - 1) / 2 == v / 2 - 1;
      Pow2Test(v / 2);
      if k: nat :| v / 2 == Pow2(k) { assert v == Pow2(k + 1); }
      if k: nat :| v == Pow2(k) { assert v / 2 == Pow2(k - 1); }
    } else {
      AndItself(v / 2);
      assert (v - 1) / 2 == v / 2;
      forall k: nat | v == Pow2(k) ensures k == 0 {}
    }
  }

  /** One below its bit length is the exponent of the largest power of two a number holds. */
  lemma {:induction false} BitLengthBrackets(x: nat)
    requires x >= 1
    ensures BitLength(x) >= 1 && Pow2(BitLength(x) - 1) <= x < Pow2(BitLength(x))
  {
    if x >= 2 { BitLengthBrackets(x / 2); } else { assert BitLength(1) == 1 + BitLength(0); }
  }
}
