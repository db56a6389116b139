/** Graham's bound for longest-processing-time-first list scheduling. Jobs are numbered in processing order, `p` holds
    their times and an assignment `a` gives the machine of each job. */
module LptBound {
  import opened Arithmetic
  import opened Orders

  ghost predicate IsAssignment(a: seq<nat>, jobs: nat, m: nat) {
    |a| == jobs && forall i :: 0 <= i < jobs ==> a[i] < m
  }

  /** The time the first `k` jobs put on machine `r`. */
  ghost function Load(p: seq<real>, a: seq<nat>, r: nat, k: nat): real
    requires k <= |p| && k <= |a|
  {
    if k == 0 then 0.0 else Load(p, a, r, k - 1) + (if a[k - 1] == r then p[k - 1] else 0.0)
  }

  ghost function Total(p: seq<real>, k: nat): real
    requires k <= |p|
  {
    if k == 0 then 0.0 else Total(p, k - 1) + p[k - 1]
  }

  /** How many of the first `k` jobs are on machine `r`. */
  ghost function Count(a: seq<nat>, r: nat, k: nat): nat
    requires k <= |a|
  {
    if k == 0 then 0 else Count(a, r, k - 1) + (if a[k - 1] == r then 1 else 0)
  }

  /** Every job goes to a machine that is least loaded when the job is placed. */
  ghost predicate Greedy(p: seq<real>, a: seq<nat>, m: nat)
    requires |p| == |a|
  {
    forall k :: 0 <= k < |p| ==> GoesLowest(p, a, m, k)
  }

  /** When job `k` comes, no machine's load is below that of the one it goes to. */
  ghost predicate GoesLowest(p: seq<real>, a: seq<nat>, m: nat, k: nat)
    requires k < |p| == |a|
  {
    forall r {:trigger Load(p, a, r, k)} :: 0 <= r < m ==> Load(p, a, a[k], k) <= Load(p, a, r, k)
  }

  ghost predicate NonNegative(p: seq<real>) {
    forall i :: 0 <= i < |p| ==> p[i] >= 0.0
  }

  ghost predicate Descending(p: seq<real>) {
    forall i, j :: 0 <= i < j < |p| ==> p[i] >= p[j]
  }

  /** No machine is loaded above `c` by the first `k` jobs. */
  ghost predicate Fits(p: seq<real>, a: seq<nat>, m: nat, k: nat, c: real)
    requires k <= |p| && k <= |a|
  {
    forall r {:trigger Load(p, a, r, k)} :: 0 <= r < m ==> Load(p, a, r, k) <= c
  }

  lemma {:induction false} LoadMonotone(p: seq<real>, a: seq<nat>, r: nat, j: nat, k: nat)
    requires j <= k <= |p| && k <= |a| && NonNegative(p)
    ensures 0.0 <= Load(p, a, r, j) <= Load(p, a, r, k)
    decreases k
  {
    if k > 0 { LoadMonotone(p, a, r, if j < k then j else k - 1, k - 1); }
  }

  lemma FitsPrefix(p: seq<real>, a: seq<nat>, m: nat, j: nat, k: nat, c: real)
    requires j <= k <= |p| && k <= |a| && NonNegative(p) && Fits(p, a, m, k, c)
    ensures Fits(p, a, m, j, c)
  {
    forall r | 0 <= r < m ensures Load(p, a, r, j) <= c { LoadMonotone(p, a, r, j, k); }
  }

  /** `x` added up `n` times. */
  ghost function Times(n: nat, x: real): real {
    if n == 0 then 0.0 else Times(n - 1, x) + x
  }

  lemma {:induction false} TimesIsProduct(n: nat, x: real)
    ensures Times(n, x) == n as real * x
  {
    if n > 0 {
      TimesIsProduct(n - 1, x);
      var before := (n - 1) as real;
      assert n as real == before + 1.0;
      assert (before + 1.0) * x == before * x + x;
    }
  }

  lemma {:induction false} TimesSum(n: nat, x: real, y: real)
    ensures Times(n, x + y) == Times(n, x) + Times(n, y)
  {
    if n > 0 { TimesSum(n - 1, x, y); }
  }

  /** The loads of machines `0..m` after `k` jobs, added up. */
  ghost function LoadSum(p: seq<real>, a: seq<nat>, m: nat, k: nat): real
    requires k <= |p| && k <= |a|
  {
    if m == 0 then 0.0 else LoadSum(p, a, m - 1, k) + Load(p, a, m - 1, k)
  }

  lemma {:induction false} LoadSumStep(p: seq<real>, a: seq<nat>, m: nat, k: nat)
    requires k < |p| && k < |a|
    ensures LoadSum(p, a, m, k + 1) == LoadSum(p, a, m, k) + (if a[k] < m then p[k] else 0.0)
  {
    if m > 0 { LoadSumStep(p, a, m - 1, k); }
  }

  lemma {:induction false} LoadSumZero(p: seq<real>, a: seq<nat>, m: nat)
    ensures LoadSum(p, a, m, 0) == 0.0
  {
    if m > 0 { LoadSumZero(p, a, m - 1); }
  }

  /** Scheduling moves work around and never creates or loses any. */
  lemma {:induction false} LoadsAddUp(p: seq<real>, a: seq<nat>, m: nat, k: nat)
    requires k <= |p| && IsAssignment(a, |p|, m)
    ensures LoadSum(p, a, m, k) == Total(p, k)
  {
    if k == 0 {
      LoadSumZero(p, a, m);
    } else {
      LoadsAddUp(p, a, m, k - 1);
      LoadSumStep(p, a, m, k - 1);
    }
  }

  lemma {:induction false} SumOfBounded(p: seq<real>, a: seq<nat>, m: nat, k: nat, c: real)
    requires k <= |p| && k <= |a| && Fits(p, a, m, k, c)
    ensures LoadSum(p, a, m, k) <= Times(m, c)
  {
    if m > 0 { SumOfBounded(p, a, m - 1, k, c); }
  }

  lemma {:induction false} SumOfAtLeast(p: seq<real>, a: seq<nat>, m: nat, k: nat, c: real)
    requires k <= |p| && k <= |a|
    requires forall r {:trigger Load(p, a, r, k)} :: 0 <= r < m ==> c <= Load(p, a, r, k)
    ensures Times(m, c) <= LoadSum(p, a, m, k)
  {
    if m > 0 { SumOfAtLeast(p, a, m - 1, k, c); }
  }

  /** The last of the first `k` jobs on machine `r`, if there is one. */
  lemma {:induction false} LastJob(p: seq<real>, a: seq<nat>, r: nat, k: nat) returns (j: int)
    requires k <= |p| && k <= |a|
    ensures -1 <= j < k
    ensures j == -1 ==> Load(p, a, r, k) == 0.0
    ensures j >= 0 ==> a[j] == r && Load(p, a, r, k) == Load(p, a, r, j) + p[j]
  {
    if k == 0 {
      j := -1;
    } else if a[k - 1] == r {
      j := k - 1;
    } else {
      j := LastJob(p, a, r, k - 1);
    }
  }

  lemma GreedyIsLeast(p: seq<real>, a: seq<nat>, m: nat, j: nat)
    requires j < |p| && IsAssignment(a, |p|, m) && Greedy(p, a, m)
    ensures forall r {:trigger Load(p, a, r, j)} :: 0 <= r < m ==> Load(p, a, a[j], j) <= Load(p, a, r, j)
  {
    assert GoesLowest(p, a, m, j);
  }

  /** No machine is below the one job `j` goes to, so m times its load is at most the work so far. */
  lemma LeastTimes(p: seq<real>, a: seq<nat>, m: nat, j: nat)
    requires j < |p| && IsAssignment(a, |p|, m) && Greedy(p, a, m)
    ensures Times(m, Load(p, a, a[j], j)) <= Total(p, j) && Total(p, j + 1) == Total(p, j) + p[j]
  {
    GreedyIsLeast(p, a, m, j);
    SumOfAtLeast(p, a, m, j, Load(p, a, a[j], j));
    LoadsAddUp(p, a, m, j);
  }

  /** List scheduling: m times a machine's load is at most the work up to its last job plus m-1 times that job. */
  lemma ListSchedulingBound(p: seq<real>, a: seq<nat>, m: nat, j: nat)
    requires m >= 1 && j < |p| && IsAssignment(a, |p|, m) && Greedy(p, a, m)
    ensures Times(m, Load(p, a, a[j], j) + p[j]) <= Total(p, j + 1) + Times(m - 1, p[j])
  {
    LeastTimes(p, a, m, j);
    OneMoreJob(m, Load(p, a, a[j], j), p[j], Total(p, j), Total(p, j + 1));
  }

  lemma OneMoreJob(m: nat, low: real, job: real, total: real, next: real)
    requires m >= 1 && Times(m, low) <= total && next == total + job
    ensures Times(m, low + job) <= next + Times(m - 1, job)
  {
    TimesSum(m, low, job);
  }

  // ---- the case where every job is longer than a third of the optimum ----

  ghost function Machines(a: seq<nat>, m: nat, k: nat, c: nat): set<nat>
    requires k <= |a|
  {
    set r: nat | r < m && Count(a, r, k) == c
  }

  /** With at most two jobs a machine, the machines holding exactly one are counted by those holding none. */
  lemma {:induction false} SingleCount(a: seq<nat>, m: nat, k: nat)
    requires k <= |a| && forall i :: 0 <= i < k ==> a[i] < m
    requires forall r :: 0 <= r < m ==> Count(a, r, k) <= 2
    ensures |Machines(a, m, k, 1)| == 2 * m - k - 2 * |Machines(a, m, k, 0)|
  {
    if k == 0 {
      assert Machines(a, m, 0, 0) == Below(m);
      assert Machines(a, m, 0, 1) == {};
    } else {
      var j := k - 1;
      forall q | 0 <= q < m ensures Count(a, q, j) <= 2 { CountMonotone(a, q, j, k); }
      SingleCount(a, m, j);
      assert Count(a, a[j], k) <= 2;
      MachinesStep(a, m, j, 0);
      MachinesStep(a, m, j, 1);
    }
  }

  /** Placing job `j` moves its machine from one count to the next. */
  lemma MachinesStep(a: seq<nat>, m: nat, j: nat, c: nat)
    requires j < |a| && a[j] < m
    ensures |Machines(a, m, j + 1, c)| == |Machines(a, m, j, c)| +
            (if Count(a, a[j], j) + 1 == c then 1 else if Count(a, a[j], j) == c then -1 else 0)
  {
    var before, after, n := Machines(a, m, j, c), Machines(a, m, j + 1, c), Count(a, a[j], j);
    var expected := if n + 1 == c then before + {a[j]} else if n == c then before - {a[j]} else before;
    forall q: nat ensures q in after <==> q in expected {
      assert Count(a, q, j + 1) == Count(a, q, j) + (if q == a[j] then 1 else 0);
    }
    assert after == expected;
  }

  /** The machines the first `t` jobs are on. */
  ghost function Used(a: seq<nat>, t: nat): set<nat>
    requires t <= |a|
  {
    if t == 0 then {} else Used(a, t - 1) + {a[t - 1]}
  }

  lemma {:induction false} UsedMembers(a: seq<nat>, t: nat)
    requires t <= |a|
    ensures forall i :: 0 <= i < t ==> a[i] in Used(a, t)
    ensures forall r :: r in Used(a, t) ==> Count(a, r, t) >= 1
    ensures forall r :: r !in Used(a, t) ==> Count(a, r, t) == 0
    ensures |Used(a, t)| <= t
  {
    if t > 0 { UsedMembers(a, t - 1); }
  }

  lemma {:induction false} CountMonotone(a: seq<nat>, r: nat, j: nat, k: nat)
    requires j <= k <= |a|
    ensures Count(a, r, j) <= Count(a, r, k)
  {
    if j < k { CountMonotone(a, r, j, k - 1); }
  }

  /** A job that is alone on its machine has no earlier job there. */
  lemma LonerIsNew(a: seq<nat>, t: nat, k: nat)
    requires t < k <= |a| && Count(a, a[t], k) == 1
    ensures a[t] !in Used(a, t)
  {
    UsedMembers(a, t);
    CountMonotone(a, a[t], t + 1, k);
  }

  /** Jobs that are alone on their machine are on different machines. */
  lemma {:induction false} LonersAreApart(a: seq<nat>, t: nat, k: nat)
    requires t <= k <= |a|
    requires forall i :: 0 <= i < t ==> Count(a, a[i], k) == 1
    ensures |Used(a, t)| == t
    ensures forall r :: r in Used(a, t) ==> Count(a, r, k) == 1
  {
    if t > 0 {
      LonersAreApart(a, t - 1, k);
      LonerIsNew(a, t - 1, k);
      assert Used(a, t) == Used(a, t - 1) + {a[t - 1]};
    }
  }

  /** Among the first 2m-k of k jobs, one shares its machine when no machine is empty of them all the rest could use. */
  lemma SharedEarlyJob(a: seq<nat>, m: nat, k: nat) returns (i: nat)
    requires m < k <= |a| && k <= 2 * m && forall q :: 0 <= q < k ==> a[q] < m
    requires forall r :: 0 <= r < m ==> Count(a, r, k) <= 2
    ensures i <= 2 * m - k && i < k && Count(a, a[i], k) == 2
  {
    UsedMembers(a, k);
    forall q | 0 <= q < k ensures Count(a, a[q], k) >= 1 {}
    var t := 2 * m - k + 1;
    if forall q :: 0 <= q < t ==> Count(a, a[q], k) == 1 {
      LonersAreApart(a, t, k);
      UsedMembers(a, t);
      SingleCount(a, m, k);
      forall r | r in Used(a, t) ensures r in Machines(a, m, k, 1) {
        CountMonotone(a, r, t, k);
        if r >= m { OutOfRange(a, r, t, m); }
      }
      SubsetSize(Used(a, t), Machines(a, m, k, 1));
      assert false;
    }
    i :| 0 <= i < t && Count(a, a[i], k) != 1;
  }

  lemma {:induction false} OutOfRange(a: seq<nat>, r: nat, k: nat, m: nat)
    requires k <= |a| && r >= m && forall q :: 0 <= q < k ==> a[q] < m
    ensures Count(a, r, k) == 0
  {
    if k > 0 { OutOfRange(a, r, k - 1, m); }
  }

  lemma SubsetSize(a: set<nat>, b: set<nat>)
    requires a <= b
    ensures |a| <= |b|
  {
    assert b == a + (b - a);
  }

  /** The other job on the machine job `i` shares. */
  lemma {:induction false} Partner(a: seq<nat>, i: nat, k: nat) returns (j: nat)
    requires i < k <= |a| && Count(a, a[i], k) >= 2
    ensures j < k && j != i && a[j] == a[i]
  {
    if a[k - 1] == a[i] && k - 1 != i {
      j := k - 1;
    } else if k - 1 == i {
      UsedMembers(a, k - 1);
      j := AnyJob(a, a[i], k - 1);
    } else {
      j := Partner(a, i, k - 1);
    }
  }

  lemma {:induction false} AnyJob(a: seq<nat>, r: nat, k: nat) returns (j: nat)
    requires k <= |a| && Count(a, r, k) >= 1
    ensures j < k && a[j] == r
  {
    if a[k - 1] == r { j := k - 1; } else { j := AnyJob(a, r, k - 1); }
  }

  lemma {:induction false} PairLoad(p: seq<real>, a: seq<nat>, i: nat, j: nat, k: nat)
    requires i < j < k <= |p| && k <= |a| && a[i] == a[j] && NonNegative(p)
    ensures p[i] + p[j] <= Load(p, a, a[i], k)
  {
    LoadMonotone(p, a, a[i], j + 1, k);
    LoadMonotone(p, a, a[i], i + 1, j);
    LoadMonotone(p, a, a[i], 0, i);
  }

  lemma {:induction false} SingleLoad(p: seq<real>, a: seq<nat>, i: nat, k: nat)
    requires i < k <= |p| && k <= |a| && NonNegative(p)
    ensures p[i] <= Load(p, a, a[i], k)
    ensures Count(a, a[i], k) == 1 ==> Load(p, a, a[i], k) == p[i]
    decreases k
  {
    if i == k - 1 {
      LoadMonotone(p, a, a[i], 0, i);
      if Count(a, a[i], i) == 0 { EmptyLoad(p, a, a[i], i); }
    } else {
      SingleLoad(p, a, i, k - 1);
      UsedMembers(a, k - 1);
    }
  }

  lemma {:induction false} EmptyLoad(p: seq<real>, a: seq<nat>, r: nat, k: nat)
    requires k <= |p| && k <= |a| && Count(a, r, k) == 0
    ensures Load(p, a, r, k) == 0.0
  {
    if k > 0 { EmptyLoad(p, a, r, k - 1); }
  }

  /** Jobs longer than c/3 fit at most two to a machine of capacity c. */
  lemma {:induction false} CountByLoad(p: seq<real>, a: seq<nat>, r: nat, k: nat, c: real)
    requires k <= |p| && k <= |a| && forall i :: 0 <= i < k ==> 3.0 * p[i] > c
    ensures 3.0 * Load(p, a, r, k) >= Count(a, r, k) as real * c
    ensures Count(a, r, k) > 0 ==> 3.0 * Load(p, a, r, k) > Count(a, r, k) as real * c
  {
    if k > 0 { CountByLoad(p, a, r, k - 1, c); }
  }

  lemma AtLeastThree(n: nat, c: real)
    requires n >= 3 && c > 0.0
    ensures n as real * c >= 3.0 * c
  {
    assert (n as real - 3.0) * c >= 0.0;
  }

  lemma AtMostTwo(p: seq<real>, a: seq<nat>, m: nat, k: nat, c: real)
    requires k <= |p| && k <= |a| && c > 0.0 && Fits(p, a, m, k, c)
    requires forall i :: 0 <= i < k ==> 3.0 * p[i] > c
    ensures forall r :: 0 <= r < m ==> Count(a, r, k) <= 2
  {
    forall r | 0 <= r < m ensures Count(a, r, k) <= 2 {
      CountByLoad(p, a, r, k, c);
      assert Load(p, a, r, k) <= c;
      if Count(a, r, k) >= 3 { AtLeastThree(Count(a, r, k), c); }
    }
  }

  /** If some schedule fits jobs 0..k into capacity c, job k and job 2m-1-k fit together. */
  lemma PairFits(p: seq<real>, b: seq<nat>, m: nat, k: nat, c: real)
    requires m <= k < |p| && k < |b| && c > 0.0 && NonNegative(p) && Descending(p)
    requires forall q :: 0 <= q <= k ==> b[q] < m
    requires forall i :: 0 <= i <= k ==> 3.0 * p[i] > c
    requires Fits(p, b, m, k + 1, c)
    ensures k < 2 * m && p[2 * m - 1 - k] + p[k] <= c
  {
    AtMostTwo(p, b, m, k + 1, c);
    SingleCount(b, m, k + 1);
    assert k + 1 <= 2 * m;
    var i := SharedEarlyJob(b, m, k + 1);
    var j := Partner(b, i, k + 1);
    PairLoad(p, b, if i < j then i else j, if i < j then j else i, k + 1);
    assert Load(p, b, b[i], k + 1) <= c;
    assert p[i] >= p[2 * m - 1 - k] by { if i < 2 * m - 1 - k { } }
    assert p[j] >= p[k];
  }

  /** When no machine is empty, some machine holds a single job that is no earlier than job 2m-1-k. */
  lemma LateLoner(a: seq<nat>, m: nat, k: nat) returns (i: nat)
    requires k <= |a| && m <= k < 2 * m && forall q :: 0 <= q < k ==> a[q] < m
    requires forall r :: 0 <= r < m ==> 1 <= Count(a, r, k) <= 2
    ensures 2 * m - 1 - k <= i < k && Count(a, a[i], k) == 1
  {
    SingleCount(a, m, k);
    assert Machines(a, m, k, 0) == {};
    var t := 2 * m - 1 - k;
    UsedMembers(a, t);
    if Machines(a, m, k, 1) <= Used(a, t) { SubsetSize(Machines(a, m, k, 1), Used(a, t)); assert false; }
    var r :| r in Machines(a, m, k, 1) && r !in Used(a, t);
    i := AnyJob(a, r, k);
  }

  /** Long jobs: greedy placement in descending order keeps every machine within the optimum. */
  lemma {:induction false} LongJobsFit(p: seq<real>, a: seq<nat>, b: seq<nat>, m: nat, k: nat, c: real)
    requires k <= |p| && IsAssignment(a, |p|, m) && IsAssignment(b, |p|, m)
    requires c > 0.0 && NonNegative(p) && Descending(p) && Greedy(p, a, m)
    requires forall i :: 0 <= i < k ==> 3.0 * p[i] > c
    requires Fits(p, b, m, k, c)
    ensures Fits(p, a, m, k, c)
  {
    if k > 0 {
      var j := k - 1;
      FitsPrefix(p, b, m, j, k, c);
      LongJobsFit(p, a, b, m, j, c);
      AtMostTwo(p, a, m, j, c);
      assert GoesLowest(p, a, m, j);
      assert Load(p, a, a[j], j) + p[j] <= c by {
        if r :| 0 <= r < m && Count(a, r, j) == 0 {
          EmptyLoad(p, a, r, j);
          assert Load(p, a, a[j], j) <= Load(p, a, r, j);
          SingleLoad(p, b, j, k);
          assert Load(p, b, b[j], k) <= c;
        } else {
          SingleCount(a, m, j);
          assert Machines(a, m, j, 0) == {};
          NonEmptyCount(a, m, j);
          PairFits(p, b, m, j, c);
          var i := LateLoner(a, m, j);
          SingleLoad(p, a, i, j);
          assert Load(p, a, a[j], j) <= Load(p, a, a[i], j);
          assert p[i] <= p[2 * m - 1 - j];
        }
      }
      forall r | 0 <= r < m ensures Load(p, a, r, k) <= c {
        assert Load(p, a, r, j) <= c;
      }
    }
  }

  lemma NonEmptyCount(a: seq<nat>, m: nat, k: nat)
    requires k <= |a| && forall q :: 0 <= q < k ==> a[q] < m
    requires forall r :: 0 <= r < m ==> 1 <= Count(a, r, k)
    ensures m <= k
  {
    UsedMembers(a, k);
    SubsetSize(Below(m), Used(a, k));
  }

  /** A last job of at most c/3: the list-scheduling bound already gives the ratio. */
  lemma ShortLastJob(p: seq<real>, a: seq<nat>, b: seq<nat>, m: nat, c: real, j: nat)
    requires m >= 1 && j < |p| && IsAssignment(a, |p|, m) && IsAssignment(b, |p|, m) && Greedy(p, a, m)
    requires 3.0 * p[j] <= c && Fits(p, b, m, j + 1, c)
    ensures Times(3 * m, Load(p, a, a[j], j) + p[j]) <= Times(4 * m - 1, c)
  {
    ListSchedulingBound(p, a, m, j);
    LoadsAddUp(p, b, m, j + 1);
    SumOfBounded(p, b, m, j + 1, c);
    Combine(m, Load(p, a, a[j], j) + p[j], p[j], c, Total(p, j + 1));
  }

  /** A last job above c/3: so is every job before it, and greedy placement is then optimal. */
  lemma LongLastJob(p: seq<real>, a: seq<nat>, b: seq<nat>, m: nat, c: real, j: nat)
    requires j < |p| && IsAssignment(a, |p|, m) && IsAssignment(b, |p|, m)
    requires NonNegative(p) && Descending(p) && Greedy(p, a, m)
    requires 3.0 * p[j] > c >= 0.0 && Fits(p, b, m, j + 1, c)
    ensures Load(p, a, a[j], j) + p[j] <= c
  {
    SingleLoad(p, b, j, j + 1);
    assert Load(p, b, b[j], j + 1) <= c;
    LongJobsFit(p, a, b, m, j + 1, c);
    assert Load(p, a, a[j], j + 1) <= c;
  }

  /** A load on one of `m` machines is at most (4m-1)/(3m) of `c`. */
  ghost predicate WithinGraham(m: nat, load: real, c: real) {
    (3 * m) as real * load <= (4 * m - 1) as real * c
  }

  /** Graham: descending greedy placement is within (4m-1)/(3m) of every other schedule's capacity. */
  lemma LptWithinFourThirds(p: seq<real>, a: seq<nat>, b: seq<nat>, m: nat, c: real, r: nat)
    requires m >= 1 && r < m && IsAssignment(a, |p|, m) && IsAssignment(b, |p|, m)
    requires NonNegative(p) && Descending(p) && Greedy(p, a, m)
    requires Fits(p, b, m, |p|, c)
    ensures WithinGraham(m, Load(p, a, r, |p|), c)
  {
    LptLoads(p, a, b, m, c, r);
    InProducts(m, Load(p, a, r, |p|), c);
  }

  lemma InProducts(m: nat, load: real, c: real)
    requires m >= 1 && Times(3 * m, load) <= Times(4 * m - 1, c)
    ensures WithinGraham(m, load, c)
  {
    TimesIsProduct(3 * m, load);
    TimesIsProduct(4 * m - 1, c);
  }

  lemma LptLoads(p: seq<real>, a: seq<nat>, b: seq<nat>, m: nat, c: real, r: nat)
    requires m >= 1 && r < m && IsAssignment(a, |p|, m) && IsAssignment(b, |p|, m)
    requires NonNegative(p) && Descending(p) && Greedy(p, a, m)
    requires Fits(p, b, m, |p|, c)
    ensures Times(3 * m, Load(p, a, r, |p|)) <= Times(4 * m - 1, c)
  {
    LoadMonotone(p, b, 0, 0, |p|);
    assert Load(p, b, 0, |p|) <= c;
    var j := LastJob(p, a, r, |p|);
    if j == -1 {
      Scale(m, 0.0, c);
    } else {
      FitsPrefix(p, b, m, j + 1, |p|, c);
      if 3.0 * p[j] <= c {
        ShortLastJob(p, a, b, m, c, j);
      } else {
        LongLastJob(p, a, b, m, c, j);
        Scale(m, Load(p, a, r, |p|), c);
      }
    }
  }

  lemma Combine(m: nat, load: real, last: real, c: real, total: real)
    requires m >= 1 && 3.0 * last <= c && Times(m, load) <= total + Times(m - 1, last) && total <= Times(m, c)
    ensures Times(3 * m, load) <= Times(4 * m - 1, c)
  {
    TimesIsProduct(m, load);
    TimesIsProduct(m - 1, last);
    TimesIsProduct(m, c);
    TimesIsProduct(3 * m, load);
    TimesIsProduct(4 * m - 1, c);
    CombineProducts(m as real, load, last, c);
  }

  lemma CombineProducts(m: real, load: real, last: real, c: real)
    requires m >= 1.0 && 3.0 * last <= c && m * load <= m * c + (m - 1.0) * last
    ensures 3.0 * m * load <= (4.0 * m - 1.0) * c
  {
    var spare, slack := m - 1.0, c - 3.0 * last;
    RealProduct(spare, slack);
    assert spare * slack == spare * c - 3.0 * (spare * last);
    assert 3.0 * (m * load) <= 3.0 * (m * c) + 3.0 * (spare * last);
    assert (4.0 * m - 1.0) * c == 3.0 * (m * c) + spare * c;
  }

  lemma {:induction false} TimesLe(n: nat, x: real, y: real)
    requires x <= y
    ensures Times(n, x) <= Times(n, y)
  {
    if n > 0 { TimesLe(n - 1, x, y); }
  }

  lemma {:induction false} TimesGrows(n: nat, k: nat, x: real)
    requires n <= k && x >= 0.0
    ensures Times(n, x) <= Times(k, x)
  {
    if n < k { TimesGrows(n, k - 1, x); }
  }

  lemma Scale(m: nat, load: real, c: real)
    requires m >= 1 && load <= c && 0.0 <= c
    ensures Times(3 * m, load) <= Times(4 * m - 1, c)
  {
    TimesLe(3 * m, load, c);
    TimesGrows(3 * m, 4 * m - 1, c);
  }
}
