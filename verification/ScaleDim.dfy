/** Scaling a size symbol down while keeping its shape (`numerical_oracle.py`): powers of two stay powers of two and
    cubes stay cubes. */
module ScaleDim {
  import opened Arithmetic
  import opened Bits
  import opened Rounding

  function Cube(e: int): int { e * e * e }

  ghost predicate IsCube(n: int) {
    exists c: nat :: n == Cube(c)
  }

  function Pow8(k: nat): nat {
    if k == 0 then 1 else 8 * Pow8(k - 1)
  }

  ghost predicate IsPow8(x: int) {
    exists k: nat :: x == Pow8(k)
  }

  lemma CubeGrows(a: nat, b: nat)
    requires a < b
    ensures Cube(a) < Cube(b)
  {
    assert a * a <= a * b <= b * b;
    assert a * a * a <= b * b * a < b * b * b;
  }

  /** A rounded cube root is the floor or the ceiling of the exact one. */
  ghost predicate NearRoot(n: nat, r: int) {
    r >= 0 && (Cube(r) <= n < Cube(r + 1) || (r >= 1 && Cube(r - 1) < n <= Cube(r)))
  }

  /** `is_perfect_cube`, of a number and the rounded cube root Python finds for it. */
  predicate IsPerfectCube(n: int, root: int) {
    n >= 1 && ((root - 1 >= 1 && Cube(root - 1) == n) || (root >= 1 && Cube(root) == n) ||
               (root + 1 >= 1 && Cube(root + 1) == n))
  }

  /** Looking one to either side of the rounded root finds every cube. */
  lemma CubeTest(n: int, root: int)
    requires n >= 1 ==> NearRoot(n, root)
    ensures IsPerfectCube(n, root) <==> n >= 1 && IsCube(n)
  {
    if IsPerfectCube(n, root) {
      var c: nat :=
        if root >= 2 && Cube(root - 1) == n then root - 1 else if root >= 1 && Cube(root) == n then root else root + 1;
      assert n == Cube(c);
    }
    if n >= 1 && IsCube(n) {
      var c: nat :| n == Cube(c);
      if c < root - 1 { CubeGrows(c, root - 1); }
      if c > root + 1 { CubeGrows(root + 1, c); }
      assert Cube(0) == 0;
      CubeBetween(c, root, n);
    }
  }

  lemma CubeBetween(c: nat, root: nat, n: nat)
    requires n == Cube(c) && n >= 1 && NearRoot(n, root)
    ensures root - 1 <= c <= root + 1 && c >= 1
  {
    if c < root - 1 { CubeGrows(c, root - 1); CubeGrows(root - 1, root); }
    if c > root + 1 { CubeGrows(root + 1, c); CubeGrows(root, root + 1); }
  }

  // ---- numbers that are both ----

  lemma Pow2Plus3(n: nat)
    ensures Pow2(n + 3) == 8 * Pow2(n)
  {
    assert Pow2(n + 3) == 2 * Pow2(n + 2) && Pow2(n + 2) == 2 * Pow2(n + 1);
  }

  lemma {:induction false} Pow8IsPow2(k: nat)
    ensures Pow8(k) == Pow2(3 * k) && Pow8(k) == Cube(Pow2(k))
  {
    if k > 0 {
      Pow8IsPow2(k - 1);
      Pow2Plus3(3 * (k - 1));
      assert 3 * (k - 1) + 3 == 3 * k;
      EightCubes(Pow2(k - 1));
    }
  }

  lemma EightCubes(x: int)
    ensures Cube(2 * x) == 8 * Cube(x)
  {
  }

  lemma OddCube(c: int)
    requires c % 2 == 1
    ensures Cube(c) % 2 == 1
  {
    var q := c / 2;
    assert c == 2 * q + 1;
    assert Cube(c) == 2 * (4 * (q * q * q) + 6 * (q * q) + 3 * q) + 1;
  }

  lemma EvenRoot(k: nat, c: nat)
    requires k > 0 && Pow2(k) == Cube(c)
    ensures c % 2 == 0 && Pow2(k) == 8 * Cube(c / 2) && k >= 3
  {
    if c % 2 == 1 { OddCube(c); }
    EightCubes(c / 2);
    Pow2Positive(k);
    if k < 3 {
      Pow2Grows(k, 2);
      Pow2Plus3(0);
    }
  }

  /** A power of two that is a cube is a power of eight. */
  lemma {:induction false} Pow2CubeIsPow8(k: nat, c: nat)
    requires Pow2(k) == Cube(c)
    ensures k % 3 == 0 && Pow2(k) == Pow8(k / 3)
    decreases k
  {
    if k > 0 {
      EvenRoot(k, c);
      Pow2Plus3(k - 3);
      Pow2CubeIsPow8(k - 3, c / 2);
      assert (k - 3) / 3 == k / 3 - 1;
    }
  }

  /** A power of two is a perfect cube exactly when it is a power of eight. */
  lemma BothMeansPow8(n: int)
    ensures IsPow2(n) && IsCube(n) <==> IsPow8(n)
  {
    if IsPow2(n) && IsCube(n) {
      var k: nat :| n == Pow2(k);
      var c: nat :| n == Cube(c);
      Pow2CubeIsPow8(k, c);
    }
    if k: nat :| n == Pow8(k) {
      Pow8IsPow2(k);
      assert n == Pow2(3 * k) && n == Cube(Pow2(k));
    }
  }

  lemma {:induction false} Pow8Grows(j: nat, k: nat)
    requires j <= k
    ensures 1 <= Pow8(j) <= Pow8(k)
    decreases k
  {
    if j < k { Pow8Grows(j, k - 1); } else if j > 0 { Pow8Grows(j - 1, j - 1); }
  }

  // ---- the scaled size ----

  /** `t`: a size scaled by `cap` over the largest one, rounded, and at least 10. */
  function Target(v: int, cap: int, largest: int): int
    requires largest > 0
  {
    Max(RoundHalfEven(Scaled(v, cap, largest)), 10)
  }

  function Scaled(v: int, cap: int, largest: int): real
    requires largest > 0
  {
    v as real * (cap as real / largest as real)
  }

  /** The largest power of eight up to `t`. */
  method PowerOfEight(t: int) returns (p: int)
    requires t >= 8
    ensures IsPow8(p) && p <= t && forall x: int :: IsPow8(x) && x <= t ==> x <= p
  {
    p := 8;
    ghost var k := 1;
    assert Pow8(1) == 8 * Pow8(0);
    while p * 8 <= Max(t, 8)
      invariant k >= 1 && p == Pow8(k) && 8 <= p <= t
      decreases t - p
    {
      p := p * 8;
      k := k + 1;
    }
    assert Pow8(k + 1) > t;
    forall x: int | IsPow8(x) && x <= t ensures x <= p {
      var j: nat :| x == Pow8(j);
      if j <= k { Pow8Grows(j, k); } else { Pow8Grows(k + 1, j); }
    }
  }

  /** The largest power of two up to `t`, by its bit length. */
  method PowerOfTwo(t: int) returns (p: int)
    requires t >= 8
    ensures IsPow2(p) && p <= t && forall x: int :: IsPow2(x) && x <= t ==> x <= p
  {
    var bits := BitLength(Max(t, 8)) - 1;
    var shift := Max(bits, 3);
    BitLengthBrackets(t);
    assert Pow2(3) == 8 by { assert Pow2(1) == 2 && Pow2(2) == 4; }
    if bits < 3 { Pow2Grows(BitLength(t), 3); }
    p := Pow2(shift);
    forall x: int | IsPow2(x) && x <= t ensures x <= p {
      var j: nat :| x == Pow2(j);
      if j <= shift { Pow2Grows(j, shift); } else { Pow2Grows(shift + 1, j); }
    }
  }

  /** The largest cube up to `t`, from a rounded cube root of it. */
  method LargestCube(t: int, root: int) returns (cube: int)
    requires t >= 8 && NearRoot(t, root)
    ensures IsCube(cube) && cube <= t && forall x: int :: IsCube(x) && x <= t ==> x <= cube
  {
    var e := Max(root, 2);
    RootIsEnough(t, root);
    while e > 2 && e * e * e > Max(t, 8)
      invariant e >= 2 && Cube(e + 1) > t
    {
      e := e - 1;
    }
    cube := e * e * e;
    assert cube == Cube(e) && Cube(2) == 8;
    forall x: int | IsCube(x) && x <= t ensures x <= cube {
      var c: nat :| x == Cube(c);
      if c > e + 1 { CubeGrows(e + 1, c); } else if c < e { CubeGrows(c, e); }
    }
  }

  lemma RootIsEnough(t: int, root: int)
    requires t >= 8 && NearRoot(t, root)
    ensures Cube(Max(root, 2) + 1) > t
  {
    if root < 2 { CubeGrows(root + 1, 3); }
    CubeGrows(root, root + 1);
  }

  /** What a scaled size keeps: being a power of two, a cube, or both, as large as the target allows. */
  ghost predicate KeepsShape(v: int, t: int, r: int) {
    if IsPow2(v) && v > 1 && IsCube(v) then IsPow8(r) && r <= t && forall x: int :: IsPow8(x) && x <= t ==> x <= r
    else if IsPow2(v) && v > 1 then IsPow2(r) && r <= t && forall x: int :: IsPow2(x) && x <= t ==> x <= r
    else if v >= 1 && IsCube(v) then IsCube(r) && r <= t && forall x: int :: IsCube(x) && x <= t ==> x <= r
    else r == t
  }

  /** `scale_dim`. `root` and `targetRoot` are the rounded cube roots of the size and of its target. */
  method Scale(v: int, cap: int, largest: int, root: int, targetRoot: int) returns (r: int)
    requires largest > 0 && (v >= 1 ==> NearRoot(v, root)) && NearRoot(Target(v, cap, largest), targetRoot)
    ensures KeepsShape(v, Target(v, cap, largest), r)
  {
    var t := Target(v, cap, largest);
    var isPow2 := v > 1 && BitAnd(v, v - 1) == 0;
    var isCube := IsPerfectCube(v, root);
    if v > 1 { Pow2Test(v); }
    CubeTest(v, root);
    if isPow2 && isCube {
      r := PowerOfEight(t);
    } else if isPow2 {
      r := PowerOfTwo(t);
    } else if isCube {
      r := LargestCube(t, targetRoot);
    } else {
      r := t;
    }
  }

  /** A scaled size of both kinds is again of both kinds. */
  lemma BothKept(v: int, t: int, r: int)
    requires KeepsShape(v, t, r) && v > 1 && IsPow2(v) && IsCube(v)
    ensures IsPow2(r) && IsCube(r)
  {
    BothMeansPow8(r);
  }

  lemma ShareFits(v: real, cap: real, largest: real)
    requires 0.0 < largest && v <= largest && cap >= 0.0
    ensures v * (cap / largest) <= cap
  {
    var share := cap / largest;
    assert largest * share == cap;
    assert share >= 0.0;
    ScaledLe(share, v, largest);
  }

  lemma ScaledFits(v: int, cap: int, largest: int)
    requires 0 < largest && v <= largest && cap >= 0
    ensures Scaled(v, cap, largest) <= cap as real
  {
    ShareFits(v as real, cap as real, largest as real);
  }

  lemma RoundedFits(x: real, cap: int)
    requires x <= cap as real
    ensures RoundHalfEven(x) <= cap
  {
  }

  lemma TargetFits(v: int, cap: int, largest: int)
    requires 0 < largest && v <= largest && cap >= 0
    ensures Target(v, cap, largest) <= Max(cap, 10)
  {
    ScaledFits(v, cap, largest);
    RoundedFits(Scaled(v, cap, largest), cap);
  }

  /** No scaled size exceeds the cap it is scaled to, or 10. */
  lemma FitsTheCap(v: int, cap: int, largest: int, r: int)
    requires 0 < largest && v <= largest && cap >= 0 && KeepsShape(v, Target(v, cap, largest), r)
    ensures r <= Max(cap, 10)
  {
    TargetFits(v, cap, largest);
  }
}
