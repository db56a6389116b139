/** Smooth sizes of `fuzz.py`: the table of smooth numbers and the snaps of a draw to a smooth size or to a
    structural size class. */
module SmoothSizes {
  import opened Arithmetic
  import opened NumberTheory
  import opened Orders
  import opened Outcomes

  /** Every prime divisor of `n` is at most `bound`. */
  ghost predicate Smooth(n: int, bound: int) {
    n >= 1 && forall q: nat :: IsPrime(q) && n % q == 0 ==> q <= bound
  }

  /** Every prime divisor of `n` is listed. */
  ghost predicate Uses(n: int, primes: seq<int>) {
    n >= 1 && forall q: nat :: IsPrime(q) && n % q == 0 ==> q in primes
  }

  ghost predicate Ascending(s: seq<int>) {
    forall i, j :: 0 <= i < j < |s| ==> s[i] < s[j]
  }

  lemma UsesNone(n: int)
    requires Uses(n, [])
    ensures n == 1
  {
    if n >= 2 { var q := HasPrimeDivisor(n); }
  }

  lemma OneIsSmooth(q: nat)
    requires IsPrime(q)
    ensures 1 % q != 0
  {
  }

  /** Dividing `p` out of `n` leaves a number using only the other primes. */
  lemma UsesOneMore(n: nat, primes: seq<int>, p: nat)
    requires n >= 1 && IsPrime(p) && p !in primes
    ensures Uses(n, primes + [p]) <==> Uses(Free(n, p), primes)
  {
    var s := Free(n, p);
    forall q: nat | IsPrime(q) ensures s % q == 0 <==> n % q == 0 && q != p { FreeDivisors(n, p, q); }
    if Uses(s, primes) {
      forall q: nat | IsPrime(q) && n % q == 0 ensures q in primes + [p] {
        if q != p { assert s % q == 0; }
      }
    }
    if Uses(n, primes + [p]) {
      forall q: nat | IsPrime(q) && s % q == 0 ensures q in primes {
        assert n % q == 0 && q != p;
      }
    }
  }

  /** The table after the primes listed: without repeats, exactly the numbers up to `limit` that use only them. */
  ghost predicate Holds(found: seq<int>, primes: seq<int>, limit: int) {
    NoDup(found) && forall n :: n in found <==> Uses(n, primes) && (primes == [] || n <= limit)
  }

  /** The multiples by powers of `p` of the first `i` starts. */
  ghost predicate GrownFrom(grown: seq<int>, starts: seq<int>, i: nat, p: nat, limit: int)
    requires i <= |starts| && p >= 2
  {
    NoDup(grown) && forall n :: n in grown <==> 1 <= n <= limit && Free(n, p) in starts[..i]
  }

  /** Those, and the multiples of start `i` below `value`. */
  ghost predicate GrowingFrom(grown: seq<int>, starts: seq<int>, i: nat, p: nat, limit: int, value: int)
    requires i < |starts| && p >= 2
  {
    && NoDup(grown)
    && forall n :: n in grown <==>
         1 <= n <= limit && (Free(n, p) in starts[..i] || (Free(n, p) == starts[i] && n < value))
  }

  method Multiples(grown0: seq<int>, starts: seq<int>, i: nat, p: nat, limit: int) returns (grown: seq<int>)
    requires i < |starts| && p >= 2 && NoDup(starts) && starts[i] >= 1 && starts[i] % p != 0
    requires GrownFrom(grown0, starts, i, p, limit)
    ensures GrownFrom(grown, starts, i + 1, p, limit)
  {
    grown := grown0;
    var value := starts[i];
    while value <= limit
      invariant value >= 1 && Free(value, p) == starts[i]
      invariant GrowingFrom(grown, starts, i, p, limit, value)
      decreases limit - value
    {
      assert starts[i] !in starts[..i];
      FreeOfMultiple(value, p);
      AppendMultiple(grown, starts, i, p, limit, value);
      grown := grown + [value];
      value := value * p;
    }
    assert starts[..i + 1] == starts[..i] + [starts[i]];
  }

  lemma AppendMultiple(grown: seq<int>, starts: seq<int>, i: nat, p: nat, limit: int, value: int)
    requires i < |starts| && p >= 2 && 1 <= value <= limit && Free(value, p) == starts[i] && starts[i] !in starts[..i]
    requires GrowingFrom(grown, starts, i, p, limit, value)
    ensures value < value * p
    ensures GrowingFrom(grown + [value], starts, i, p, limit, value * p)
  {
    MulLe(2, p, value);
    assert value !in grown;
    forall n | 1 <= n <= limit && Free(n, p) == starts[i] ensures n < value * p <==> n < value || n == value {
      if value <= n < value * p { FreeGap(n, value, p); }
    }
  }

  method Grow(found: seq<int>, primes: seq<int>, p: nat, limit: int) returns (grown: seq<int>)
    requires Holds(found, primes, limit) && IsPrime(p) && p !in primes
    ensures Holds(grown, primes + [p], limit)
  {
    grown := [];
    for i := 0 to |found|
      invariant GrownFrom(grown, found, i, p, limit)
    {
      assert found[i] in found;
      grown := Multiples(grown, found, i, p, limit);
    }
    assert found[..|found|] == found;
    forall n ensures n in grown <==> Uses(n, primes + [p]) && n <= limit {
      if n >= 1 { UsesOneMore(n, primes, p); }
    }
  }

  /** Every `bound`-smooth integer up to `limit`, ascending. Below two there is no prime, and the table is [1] whatever
      the limit. */
  method SmoothNumbers(bound: int, limit: int) returns (table: seq<int>)
    ensures Ascending(table)
    ensures forall n :: n in table <==> Smooth(n, bound) && (n <= limit || bound < 2)
  {
    var primes := Primes(bound);
    PrimesAreThePrimes(bound);
    var found := [1];
    StartTable(limit);
    assert primes[..0] == [];
    for k := 0 to |primes|
      invariant Holds(found, primes[..k], limit)
    {
      assert primes[k] in primes;
      assert primes[k] !in primes[..k];
      assert primes[..k + 1] == primes[..k] + [primes[k]];
      found := Grow(found, primes[..k], primes[k], limit);
    }
    assert primes[..|primes|] == primes;
    table := Sort(found, IntLe);
    SortedTable(found);
    forall n ensures Uses(n, primes) <==> Smooth(n, bound) {}
    assert primes == [] <==> bound < 2 by { if bound >= 2 { TwoIsPrime(); } }
  }

  lemma StartTable(limit: int)
    ensures Holds([1], [], limit)
  {
    forall n ensures n == 1 <==> Uses(n, []) {
      if Uses(n, []) { UsesNone(n); }
      forall q: nat | IsPrime(q) ensures 1 % q != 0 { OneIsSmooth(q); }
    }
  }

  lemma TwoIsPrime()
    ensures IsPrime(2)
  {
  }

  lemma SortedTable(found: seq<int>)
    requires NoDup(found)
    ensures Ascending(Sort(found, IntLe))
    ensures forall n :: n in Sort(found, IntLe) <==> n in found
  {
    var table := Sort(found, IntLe);
    SortSorts(found, IntLe);
    NoDupPermutation(found, table);
    SameMembers(found, table);
    forall i, j | 0 <= i < j < |table| ensures table[i] < table[j] {
      assert IntLe(table[i], table[j]) && table[i] != table[j];
    }
  }

  // ---- snapping a draw to a smooth size ----

  /** `bisect.bisect_right`: how many leading entries are at most `x`. */
  function BisectRight(table: seq<int>, x: int): nat {
    if table == [] || table[0] > x then 0 else 1 + BisectRight(table[1..], x)
  }

  /** `bisect.bisect_left`: how many leading entries are below `x`. */
  function BisectLeft(table: seq<int>, x: int): nat {
    BisectRight(table, x - 1)
  }

  lemma {:induction false} BisectSplits(table: seq<int>, x: int)
    requires Ascending(table)
    ensures BisectRight(table, x) <= |table|
    ensures forall i :: 0 <= i < |table| ==> (table[i] <= x <==> i < BisectRight(table, x))
  {
    if table != [] && table[0] <= x {
      BisectSplits(table[1..], x);
      forall i | 0 <= i < |table| ensures table[i] <= x <==> i < BisectRight(table, x) {
        if i > 0 { assert table[i] == table[1..][i - 1]; }
      }
    }
  }

  ghost predicate SmoothIn(lo: int, hi: int, bound: int) {
    exists n :: lo <= n <= hi && Smooth(n, bound)
  }

  ghost predicate GreatestSmooth(r: int, top: int, bound: int) {
    Smooth(r, bound) && r <= top && forall n :: Smooth(n, bound) && n <= top ==> n <= r
  }

  ghost predicate LeastSmooth(r: int, lo: int, bound: int) {
    Smooth(r, bound) && lo <= r && forall n :: Smooth(n, bound) && lo <= n ==> r <= n
  }

  /** The largest smooth size at most the draw if that reaches `lo`, else the smallest from `lo` if that stays within
      `hi`, else the largest at most the draw all the same. */
  ghost predicate SnapsTo(r: int, value: int, lo: int, hi: int, bound: int) {
    var top := Max(1, value);
    if SmoothIn(lo, top, bound) then GreatestSmooth(r, top, bound)
    else if SmoothIn(lo, hi, bound) then LeastSmooth(r, lo, bound)
    else GreatestSmooth(r, top, bound)
  }

  lemma {:induction false} HasGreatest(top: int, bound: int) returns (r: int)
    requires top >= 1
    ensures GreatestSmooth(r, top, bound)
    decreases top
  {
    OneSmooth(bound);
    if Smooth(top, bound) {
      r := top;
    } else {
      r := HasGreatest(top - 1, bound);
    }
  }

  lemma {:induction false} HasLeast(lo: int, hi: int, bound: int) returns (r: int)
    requires SmoothIn(lo, hi, bound)
    ensures LeastSmooth(r, lo, bound)
    decreases hi - lo
  {
    if Smooth(lo, bound) {
      r := lo;
    } else {
      var n :| lo <= n <= hi && Smooth(n, bound);
      assert lo + 1 <= n;
      r := HasLeast(lo + 1, hi, bound);
    }
  }

  /** Every draw has something to snap to. */
  lemma HasSnap(value: int, lo: int, hi: int, bound: int) returns (r: int)
    ensures SnapsTo(r, value, lo, hi, bound)
  {
    var top := Max(1, value);
    if !SmoothIn(lo, top, bound) && SmoothIn(lo, hi, bound) {
      r := HasLeast(lo, hi, bound);
    } else {
      r := HasGreatest(top, bound);
    }
  }

  method SnapSmooth(value: int, lo: int, hi: int, bound: int) returns (r: int)
    ensures SnapsTo(r, value, lo, hi, bound)
  {
    var top := Max(1, value);
    var table := SmoothNumbers(bound, Max(top, hi));
    OneSmooth(bound);
    BisectSplits(table, top);
    BisectSplits(table, lo - 1);
    assert 1 in table;
    var below := table[BisectRight(table, top) - 1];
    assert below in table;
    assert GreatestSmooth(below, top, bound) by {
      SmoothBelowTwo(bound);
      forall n | Smooth(n, bound) && n <= top ensures n <= below { assert n in table; }
    }
    if below >= lo { return below; }
    var index := BisectLeft(table, lo);
    if index < |table| && table[index] <= hi {
      assert table[index] in table;
      SmoothBelowTwo(bound);
      FirstFrom(table, lo, hi, bound, index);
      return table[index];
    }
    assert !SmoothIn(lo, hi, bound) by {
      forall n | lo <= n <= hi ensures !Smooth(n, bound) { assert Smooth(n, bound) ==> n in table; }
    }
    return below;
  }

  lemma OneSmooth(bound: int)
    ensures Smooth(1, bound)
  {
    forall q: nat | IsPrime(q) ensures 1 % q != 0 { OneIsSmooth(q); }
  }

  lemma SmoothBelowTwo(bound: int)
    ensures bound < 2 ==> forall n :: Smooth(n, bound) ==> n == 1
  {
    forall n | Smooth(n, bound) && bound < 2 ensures n == 1 {
      if n >= 2 { var q := HasPrimeDivisor(n); }
    }
  }

  lemma FirstFrom(table: seq<int>, lo: int, hi: int, bound: int, index: nat)
    requires Ascending(table) && index < |table| && lo <= table[index] <= hi && Smooth(table[index], bound)
    requires forall n :: Smooth(n, bound) && n <= hi ==> n in table
    requires forall i :: 0 <= i < |table| ==> (table[i] < lo <==> i < index)
    ensures LeastSmooth(table[index], lo, bound) && SmoothIn(lo, hi, bound)
  {
    forall n | Smooth(n, bound) && lo <= n ensures table[index] <= n {
      assert n < table[index] ==> n in table;
    }
  }

  /** The snapped size is inside the interval exactly when the interval holds a smooth size and none lies above it up to
      the draw. */
  lemma SnapStaysInside(r: int, value: int, lo: int, hi: int, bound: int)
    requires SnapsTo(r, value, lo, hi, bound)
    ensures lo <= r <= hi <==> SmoothIn(lo, hi, bound) && !SmoothIn(hi + 1, Max(1, value), bound)
  {
    if SmoothIn(lo, hi, bound) {
      var n :| lo <= n <= hi && Smooth(n, bound);
    }
  }

  // ---- snapping to a structural size class ----

  datatype SizeClass = Aligned | Odd | NonPow2 | NonAligned

  const CLASS_SEARCH: nat := 128

  predicate InClass(value: int, c: SizeClass) {
    match c
    case Aligned => value % 64 == 0
    case Odd => value % 2 == 1
    case NonPow2 => value % 8 == 0 && (value / 8) % 2 == 1 && value > 8
    case NonAligned => value % 2 == 0 && value % 8 != 0
  }

  function Distance(x: int, y: int): nat { if x <= y then y - x else x - y }

  /** `r` is the member nearest `value`, the lower one of two equally near. */
  ghost predicate Nearest(r: int, value: int, members: iset<int>) {
    r in members && forall n :: n in members ==>
      Distance(r, value) < Distance(n, value) || (Distance(r, value) == Distance(n, value) && r <= n)
  }

  ghost function ClassMembers(c: SizeClass, lo: int, hi: int): iset<int> {
    iset n | lo <= n <= hi && InClass(n, c)
  }

  ghost function SmoothMembers(c: SizeClass, lo: int, hi: int, bound: int): iset<int> {
    iset n | lo <= n <= hi && InClass(n, c) && Smooth(n, bound)
  }

  lemma NonPow2Residue(v: int)
    ensures InClass(v, NonPow2) <==> v % 16 == 8 && v > 8
  {
    var a, b := v / 8, v / 16;
    if v % 16 == 8 {
      assert v == 16 * b + 8;
      assert a == 2 * b + 1;
    }
    if v % 8 == 0 && a % 2 == 1 {
      assert v == 8 * (2 * (a / 2) + 1);
    }
  }

  /** Rests by 8 shift along with the number. */
  lemma ShiftedRest(n: int, m: int)
    requires -8 < m - n < 8
    ensures var t := n % 8 + (m - n); m % 8 == if t < 0 then t + 8 else if t < 8 then t else t - 8
  {
    var p, q := n / 8, m / 8;
    assert n == 8 * p + n % 8 && m == 8 * q + m % 8;
  }

  lemma EvenRest(n: int)
    ensures n % 2 == (n % 8) % 2
  {
    var q, t := n / 8, n % 8;
    assert n == 8 * q + t;
    var a, b := n / 2, t / 2;
    assert n == 2 * a + n % 2 && t == 2 * b + t % 2;
    assert 2 * (4 * q + b - a) == n % 2 - t % 2;
  }

  lemma NonAlignedRest(n: int)
    ensures InClass(n, NonAligned) <==> n % 8 == 2 || n % 8 == 4 || n % 8 == 6
  {
    EvenRest(n);
  }

  /** A class member has one of its class on the way to `value` that is at most 128 from it, except that no
      `NonPow2` size lies below 24. */
  lemma MemberNearby(value: int, n: int, c: SizeClass) returns (m: int)
    requires InClass(n, c) && (c.NonPow2? ==> value + CLASS_SEARCH >= 24)
    ensures InClass(m, c) && Distance(m, value) <= CLASS_SEARCH
    ensures n <= m <= value || value <= m <= n
  {
    if n <= value {
      m := LastMember(c, value);
      LastIsLast(c, value, n);
      LastIsClose(c, value);
    } else {
      m := FirstMember(c, value);
      FirstIsFirst(c, value, n);
      FirstIsClose(c, value);
    }
  }

  lemma FirstIsClose(c: SizeClass, lo: int)
    ensures FirstMember(c, lo) < lo + 64 || (c.NonPow2? && lo <= 24 && FirstMember(c, lo) == 24)
  {
  }

  lemma LastIsClose(c: SizeClass, hi: int)
    ensures hi - 64 < LastMember(c, hi)
  {
  }

  ghost predicate NoneWithin(value: int, c: SizeClass, lo: int, hi: int, step: int) {
    forall n :: n in ClassMembers(c, lo, hi) ==> Distance(n, value) >= step
  }

  /** The answer of `snap_to_class`: the nearest member of the interval, or None. With a smoothness bound None means
      that there is no smooth member; without one, that no member is within 128 of the draw. */
  ghost predicate SnapsToClass(r: Option<int>, value: int, c: SizeClass, lo: int, hi: int, smooth: Option<int>) {
    match smooth
    case None =>
      && (r.None? <==> NoneWithin(value, c, lo, hi, CLASS_SEARCH + 1))
      && (r.Some? ==> Nearest(r.value, value, ClassMembers(c, lo, hi)))
    case Some(bound) =>
      && (r.None? <==> SmoothMembers(c, lo, hi, bound) == iset{})
      && (r.Some? ==> Nearest(r.value, value, SmoothMembers(c, lo, hi, bound)))
  }

  method SnapToClass(value: int, c: SizeClass, lo: int, hi: int, smooth: Option<int>) returns (r: Option<int>)
    ensures SnapsToClass(r, value, c, lo, hi, smooth)
  {
    if smooth.Some? {
      var table := SmoothNumbers(smooth.value, Max(1, hi));
      r := NearestListed(table, value, c, lo, hi);
      SmoothBelowTwo(smooth.value);
      forall n | n in SmoothMembers(c, lo, hi, smooth.value) ensures n in table {}
      assert r.Some? ==> r.value in SmoothMembers(c, lo, hi, smooth.value);
      return;
    }
    for step := 0 to CLASS_SEARCH + 1
      invariant NoneWithin(value, c, lo, hi, step)
    {
      if lo <= value - step <= hi && InClass(value - step, c) {
        assert value - step in ClassMembers(c, lo, hi);
        return Some(value - step);
      }
      if lo <= value + step <= hi && InClass(value + step, c) {
        assert value + step in ClassMembers(c, lo, hi);
        return Some(value + step);
      }
    }
    return None;
  }

  /** `min(members, key=lambda v: (abs(v - value), v))` over the listed members. */
  method NearestListed(table: seq<int>, value: int, c: SizeClass, lo: int, hi: int) returns (r: Option<int>)
    ensures r.Some? ==> Nearest(r.value, value, Listed(table, c, lo, hi))
    ensures r.None? ==> Listed(table, c, lo, hi) == iset{}
  {
    r := None;
    for i := 0 to |table|
      invariant r.Some? ==> Nearest(r.value, value, Listed(table[..i], c, lo, hi))
      invariant r.None? ==> Listed(table[..i], c, lo, hi) == iset{}
    {
      var v := table[i];
      assert Listed(table[..i + 1], c, lo, hi) == Listed(table[..i], c, lo, hi) +
        (iset n | n == v && lo <= n <= hi && InClass(n, c));
      if lo <= v <= hi && InClass(v, c) {
        if r.None? || Distance(v, value) < Distance(r.value, value) ||
          (Distance(v, value) == Distance(r.value, value) && v < r.value) {
          r := Some(v);
        }
      }
    }
    assert table[..|table|] == table;
  }

  ghost function Listed(table: seq<int>, c: SizeClass, lo: int, hi: int): iset<int> {
    iset n | n in table && lo <= n <= hi && InClass(n, c)
  }

  // ---- what the search misses ----

  /** The first member of the class from `lo` on. */
  function FirstMember(c: SizeClass, lo: int): int {
    match c
    case Aligned => if lo % 64 == 0 then lo else lo - lo % 64 + 64
    case Odd => if lo % 2 == 1 then lo else lo + 1
    case NonPow2 => if lo <= 24 then 24 else if lo % 16 <= 8 then lo - lo % 16 + 8 else lo - lo % 16 + 24
    case NonAligned =>
      var t := lo % 8;
      lo + if t == 0 then 2 else if t == 7 then 3 else if t == 2 || t == 4 || t == 6 then 0 else 1
  }

  /** The last member of the class up to `hi`; below 24 there is no `NonPow2` size, and the number is none. */
  function LastMember(c: SizeClass, hi: int): int {
    match c
    case Aligned => hi - hi % 64
    case Odd => if hi % 2 == 1 then hi else hi - 1
    case NonPow2 => if hi % 16 >= 8 then hi - hi % 16 + 8 else hi - hi % 16 - 8
    case NonAligned =>
      var t := hi % 8;
      hi - if t == 0 then 2 else if t == 1 then 3 else if t == 2 || t == 4 || t == 6 then 0 else 1
  }

  /** Numbers with one rest by 64, or by 16, are that far apart. */
  lemma Apart64(m: int, n: int)
    requires m % 64 == n % 64 && m < n
    ensures m + 64 <= n
  {
    var j, k := m / 64, n / 64;
    assert m == 64 * j + m % 64 && n == 64 * k + n % 64;
  }

  lemma Apart16(m: int, n: int)
    requires m % 16 == n % 16 && m < n
    ensures m + 16 <= n
  {
    var j, k := m / 16, n / 16;
    assert m == 16 * j + m % 16 && n == 16 * k + n % 16;
  }

  lemma Rest64(k: int)
    ensures (64 * k) % 64 == 0
  {
  }

  lemma Rest16(k: int)
    ensures (16 * k + 8) % 16 == 8
  {
  }

  lemma FirstAligned(lo: int, n: int)
    ensures InClass(FirstMember(Aligned, lo), Aligned) && lo <= FirstMember(Aligned, lo)
    ensures InClass(n, Aligned) && lo <= n ==> FirstMember(Aligned, lo) <= n
  {
    var k := lo / 64;
    assert lo == 64 * k + lo % 64;
    Rest64(k + 1);
    if InClass(n, Aligned) && lo <= n && lo % 64 != 0 { Apart64(lo - lo % 64, n); }
  }

  lemma LastAligned(hi: int, n: int)
    ensures InClass(LastMember(Aligned, hi), Aligned) && LastMember(Aligned, hi) <= hi
    ensures InClass(n, Aligned) && n <= hi ==> n <= LastMember(Aligned, hi)
  {
    var k := hi / 64;
    assert hi == 64 * k + hi % 64;
    Rest64(k);
    if InClass(n, Aligned) && n <= hi { Below64(hi, n); }
  }

  lemma Below64(hi: int, n: int)
    requires n % 64 == 0 && n <= hi
    ensures n <= hi - hi % 64
  {
    var j, k := n / 64, hi / 64;
    assert n == 64 * j && hi == 64 * k + hi % 64;
  }

  lemma FirstNonPow2(lo: int, n: int)
    ensures InClass(FirstMember(NonPow2, lo), NonPow2) && lo <= FirstMember(NonPow2, lo)
    ensures InClass(n, NonPow2) && lo <= n ==> FirstMember(NonPow2, lo) <= n
  {
    NonPow2Residue(FirstMember(NonPow2, lo));
    NonPow2Residue(n);
    var k := lo / 16;
    assert lo == 16 * k + lo % 16;
    Rest16(k);
    Rest16(k + 1);
    if n % 16 == 8 && n > 8 && lo <= n {
      if n < 24 { Apart16(8, n); }
      if lo > 24 { Above16(lo, n); }
    }
  }

  lemma Above16(lo: int, n: int)
    requires n % 16 == 8 && lo <= n
    ensures (if lo % 16 <= 8 then lo - lo % 16 + 8 else lo - lo % 16 + 24) <= n
  {
    var j, k := n / 16, lo / 16;
    assert n == 16 * j + 8 && lo == 16 * k + lo % 16;
  }

  lemma LastNonPow2(hi: int, n: int)
    ensures LastMember(NonPow2, hi) <= hi && (InClass(LastMember(NonPow2, hi), NonPow2) || hi < 24)
    ensures InClass(n, NonPow2) && n <= hi ==> n <= LastMember(NonPow2, hi) && InClass(LastMember(NonPow2, hi), NonPow2)
  {
    var last := LastMember(NonPow2, hi);
    NonPow2Residue(last);
    NonPow2Residue(n);
    var k := hi / 16;
    assert hi == 16 * k + hi % 16;
    Rest16(k);
    Rest16(k - 1);
    assert last % 16 == 8;
    if n % 16 == 8 && n > 8 && n <= hi { Below16(hi, n); }
    if hi >= 24 { Below16(hi, 24); }
  }

  lemma Below16(hi: int, n: int)
    requires n % 16 == 8 && n <= hi
    ensures n <= if hi % 16 >= 8 then hi - hi % 16 + 8 else hi - hi % 16 - 8
  {
    var j, k := n / 16, hi / 16;
    assert n == 16 * j + 8 && hi == 16 * k + hi % 16;
  }

  lemma NextOdd(n: int)
    ensures (n + 1) % 2 == 1 - n % 2 && (n - 1) % 2 == 1 - n % 2
  {
    var q := n / 2;
    assert n == 2 * q + n % 2;
  }

  lemma FirstNonAligned(lo: int, n: int)
    ensures InClass(FirstMember(NonAligned, lo), NonAligned) && lo <= FirstMember(NonAligned, lo) <= lo + 3
    ensures InClass(n, NonAligned) && lo <= n ==> FirstMember(NonAligned, lo) <= n
  {
    var first := FirstMember(NonAligned, lo);
    ShiftedRest(lo, first);
    NonAlignedRest(first);
    if lo <= n < first {
      ShiftedRest(lo, n);
      NonAlignedRest(n);
    }
  }

  lemma LastNonAligned(hi: int, n: int)
    ensures InClass(LastMember(NonAligned, hi), NonAligned) && hi - 3 <= LastMember(NonAligned, hi) <= hi
    ensures InClass(n, NonAligned) && n <= hi ==> n <= LastMember(NonAligned, hi)
  {
    var last := LastMember(NonAligned, hi);
    ShiftedRest(hi, last);
    NonAlignedRest(last);
    if last < n <= hi {
      ShiftedRest(hi, n);
      NonAlignedRest(n);
    }
  }

  lemma FirstIsFirst(c: SizeClass, lo: int, n: int)
    ensures InClass(FirstMember(c, lo), c) && lo <= FirstMember(c, lo)
    ensures InClass(n, c) && lo <= n ==> FirstMember(c, lo) <= n
  {
    match c
    case Aligned => FirstAligned(lo, n);
    case Odd => NextOdd(lo);
    case NonPow2 => FirstNonPow2(lo, n);
    case NonAligned => FirstNonAligned(lo, n);
  }

  lemma LastIsLast(c: SizeClass, hi: int, n: int)
    ensures LastMember(c, hi) <= hi && (InClass(LastMember(c, hi), c) || (c.NonPow2? && hi < 24))
    ensures InClass(n, c) && n <= hi ==> n <= LastMember(c, hi) && InClass(LastMember(c, hi), c)
  {
    match c
    case Aligned => LastAligned(hi, n);
    case Odd => NextOdd(hi);
    case NonPow2 => LastNonPow2(hi, n);
    case NonAligned => LastNonAligned(hi, n);
  }

  /** The interval holds a member, but out of reach: it lies more than 128 below the draw or above it, or it is the
      first `NonPow2` size, 24, and the draw is below -104. */
  predicate Missed(value: int, c: SizeClass, lo: int, hi: int) {
    if value > hi then lo <= LastMember(c, hi) < value - CLASS_SEARCH && InClass(LastMember(c, hi), c)
    else if value < lo then value + CLASS_SEARCH < FirstMember(c, lo) <= hi
    else c.NonPow2? && value + CLASS_SEARCH < 24 <= hi
  }

  /** The search finds the nearest member of the interval, and nothing exactly when the interval holds none or the draw
      misses those it holds: for exactly the draws that miss it answers None for an interval with members. */
  lemma SearchIsExact(r: Option<int>, value: int, c: SizeClass, lo: int, hi: int)
    requires SnapsToClass(r, value, c, lo, hi, None)
    ensures r.None? <==> ClassMembers(c, lo, hi) == iset{} || Missed(value, c, lo, hi)
    ensures Missed(value, c, lo, hi) ==> ClassMembers(c, lo, hi) != iset{}
  {
    if value > hi {
      AboveInterval(value, c, lo, hi);
    } else if value < lo {
      BelowInterval(value, c, lo, hi);
    } else {
      InsideInterval(value, c, lo, hi);
    }
  }

  lemma AboveInterval(value: int, c: SizeClass, lo: int, hi: int)
    requires value > hi
    ensures NoneWithin(value, c, lo, hi, CLASS_SEARCH + 1) <==>
              ClassMembers(c, lo, hi) == iset{} || Missed(value, c, lo, hi)
    ensures Missed(value, c, lo, hi) ==> LastMember(c, hi) in ClassMembers(c, lo, hi)
  {
    var members, last := ClassMembers(c, lo, hi), LastMember(c, hi);
    forall n | n in members ensures n <= last && last in members { LastIsLast(c, hi, n); }
    LastIsLast(c, hi, hi);
    if NoneWithin(value, c, lo, hi, CLASS_SEARCH + 1) && members != iset{} {
      var n :| n in members;
      assert last in members;
    }
  }

  lemma BelowInterval(value: int, c: SizeClass, lo: int, hi: int)
    requires value < lo
    requires value <= hi
    ensures NoneWithin(value, c, lo, hi, CLASS_SEARCH + 1) <==>
              ClassMembers(c, lo, hi) == iset{} || Missed(value, c, lo, hi)
    ensures Missed(value, c, lo, hi) ==> FirstMember(c, lo) in ClassMembers(c, lo, hi)
  {
    var members, first := ClassMembers(c, lo, hi), FirstMember(c, lo);
    forall n | n in members ensures first <= n && first in members { FirstIsFirst(c, lo, n); }
    FirstIsFirst(c, lo, lo);
    if NoneWithin(value, c, lo, hi, CLASS_SEARCH + 1) && members != iset{} {
      var n :| n in members;
      assert first in members;
    }
  }

  lemma InsideInterval(value: int, c: SizeClass, lo: int, hi: int)
    requires lo <= value <= hi
    ensures NoneWithin(value, c, lo, hi, CLASS_SEARCH + 1) <==>
              ClassMembers(c, lo, hi) == iset{} || Missed(value, c, lo, hi)
    ensures Missed(value, c, lo, hi) ==> 24 in ClassMembers(c, lo, hi)
  {
    if c.NonPow2? && value + CLASS_SEARCH < 24 {
      forall n | n in ClassMembers(c, lo, hi) ensures n >= 24 { NonPow2Residue(n); }
    } else {
      forall n | n in ClassMembers(c, lo, hi) ensures !NoneWithin(value, c, lo, hi, CLASS_SEARCH + 1) {
        var m := MemberNearby(value, n, c);
        assert m in ClassMembers(c, lo, hi);
      }
    }
  }

  /** From 200, as a size raised to a modulus can be, the search answers None although [1, 9] holds odd sizes. */
  lemma SearchFallsShort(r: Option<int>)
    requires SnapsToClass(r, 200, Odd, 1, 9, None)
    ensures r == None && 9 in ClassMembers(Odd, 1, 9)
  {
  }
}
