/** The corpus packer of `sizing.py`: longest-processing-time-first packing of kernels over ranks. */
module Packing {
  import opened Arithmetic
  import opened Orders
  import opened Outcomes
  import opened LptBound

  /** Why a kernel has no predicted cost. */
  datatype Reason = Predicted | Absent | Opaque | Unresolved | NoBytes(nbytes: int)

  datatype KernelCost = KernelCost(kernel: string, workingBytes: int, predictedTime: real, reason: Reason) {
    predicate Resolved() { reason.Predicted? }
  }

  type Costs = map<string, KernelCost>

  const TIME_UNIT_BYTES: int := 0x4000_0000

  /** `preset_cost`: `declared` when the preset is, `shaped` when the manifest declares shapes, and their bytes. Only a
      prediction charges bytes or time, and each kind of kernel without one has its own reason. */
  function PresetCost(kernel: string, declared: bool, shaped: bool, nbytes: Option<int>): (c: KernelCost)
    ensures c.kernel == kernel
    ensures c.Resolved() <==> declared && shaped && nbytes.Some? && nbytes.value > 0
    ensures c.Resolved() ==> nbytes == Some(c.workingBytes) && c.predictedTime > 0.0 &&
                             c.predictedTime * TIME_UNIT_BYTES as real == c.workingBytes as real
    ensures !c.Resolved() ==> c.workingBytes == 0 && c.predictedTime == 0.0
    ensures c.reason.Absent? <==> !declared
    ensures c.reason.Opaque? <==> declared && !shaped
    ensures c.reason.Unresolved? <==> declared && shaped && nbytes.None?
    ensures c.reason.NoBytes? ==> nbytes == Some(c.reason.nbytes)
  {
    if !declared then KernelCost(kernel, 0, 0.0, Absent)
    else if !shaped then KernelCost(kernel, 0, 0.0, Opaque)
    else if nbytes.None? then KernelCost(kernel, 0, 0.0, Unresolved)
    else if nbytes.value <= 0 then KernelCost(kernel, 0, 0.0, NoBytes(nbytes.value))
    else KernelCost(kernel, nbytes.value, nbytes.value as real / TIME_UNIT_BYTES as real, Predicted)
  }

  predicate Known(name: string, costs: Costs) {
    name in costs && costs[name].Resolved()
  }

  /** Predictions are never negative: `PresetCost` resolves only positive byte counts. */
  ghost predicate TimesNonNegative(costs: Costs) {
    forall name :: Known(name, costs) ==> costs[name].predictedTime >= 0.0
  }

  // ---- the processing order ----

  datatype Job = Job(time: real, name: string, index: nat)

  /** The sort key `(-time, name, position)`. */
  predicate JobLe(x: Job, y: Job) {
    x.time > y.time ||
    (x.time == y.time && (if x.name == y.name then x.index <= y.index else StringLe(x.name, y.name)))
  }

  lemma JobLeIsLinear()
    ensures LinearOrder(JobLe)
  {
    StringLeIsLinear();
  }

  /** The positions below `n` whose kernel has a prediction, as jobs in input order. */
  function JobsFrom(names: seq<string>, costs: Costs, n: nat): seq<Job>
    requires n <= |names|
  {
    if n == 0 then []
    else if Known(names[n - 1], costs) then JobsFrom(names, costs, n - 1) + [JobAt(names, costs, n - 1)]
    else JobsFrom(names, costs, n - 1)
  }

  function JobAt(names: seq<string>, costs: Costs, i: nat): Job
    requires i < |names| && Known(names[i], costs)
  {
    Job(costs[names[i]].predictedTime, names[i], i)
  }

  /** The positions below `n` without a prediction. */
  function UnknownFrom(names: seq<string>, costs: Costs, n: nat): seq<nat>
    requires n <= |names|
  {
    if n == 0 then []
    else if Known(names[n - 1], costs) then UnknownFrom(names, costs, n - 1)
    else UnknownFrom(names, costs, n - 1) + [n - 1]
  }

  lemma {:induction false} UnknownPositions(names: seq<string>, costs: Costs, n: nat)
    requires n <= |names|
    ensures var u := UnknownFrom(names, costs, n);
      && (forall k :: 0 <= k < |u| ==> u[k] < n && !Known(names[u[k]], costs))
      && (forall k, l :: 0 <= k < l < |u| ==> u[k] < u[l])
      && (forall i :: 0 <= i < n && !Known(names[i], costs) ==> i in u)
  {
    if n > 0 { UnknownPositions(names, costs, n - 1); }
  }

  function Order(names: seq<string>, costs: Costs): seq<Job> {
    Sort(JobsFrom(names, costs, |names|), JobLe)
  }

  lemma {:induction false} JobsFromIndices(names: seq<string>, costs: Costs, n: nat)
    requires n <= |names|
    ensures forall j :: j in JobsFrom(names, costs, n) ==>
              j.index < n && Known(names[j.index], costs) && j == JobAt(names, costs, j.index)
    ensures NoDup(JobsFrom(names, costs, n))
    ensures forall i :: 0 <= i < n && Known(names[i], costs) ==> JobAt(names, costs, i) in JobsFrom(names, costs, n)
  {
    if n > 0 { JobsFromIndices(names, costs, n - 1); }
  }

  /** `order` holds each position with a prediction exactly once. */
  ghost predicate ListsKnown(order: seq<Job>, names: seq<string>, costs: Costs) {
    && (forall k :: 0 <= k < |order| ==> var i := order[k].index;
          i < |names| && Known(names[i], costs) && order[k] == JobAt(names, costs, i))
    && (forall i :: 0 <= i < |names| && Known(names[i], costs) ==> JobAt(names, costs, i) in order)
    && NoDup(order)
  }

  lemma OrderIsSorted(names: seq<string>, costs: Costs)
    ensures Sorted(Order(names, costs), JobLe)
    ensures multiset(Order(names, costs)) == multiset(JobsFrom(names, costs, |names|))
  {
    JobLeIsLinear();
    SortSorts(JobsFrom(names, costs, |names|), JobLe);
  }

  lemma Rearranged(names: seq<string>, costs: Costs, order: seq<Job>)
    requires multiset(order) == multiset(JobsFrom(names, costs, |names|))
    ensures ListsKnown(order, names, costs)
  {
    var jobs := JobsFrom(names, costs, |names|);
    JobsFromIndices(names, costs, |names|);
    NoDupPermutation(jobs, order);
    SameMembers(jobs, order);
    forall k | 0 <= k < |order|
      ensures order[k].index < |names| && Known(names[order[k].index], costs)
      ensures order[k] == JobAt(names, costs, order[k].index)
    {
      assert order[k] in jobs;
    }
  }

  lemma OrderProperties(names: seq<string>, costs: Costs)
    ensures Sorted(Order(names, costs), JobLe)
    ensures multiset(Order(names, costs)) == multiset(JobsFrom(names, costs, |names|))
    ensures ListsKnown(Order(names, costs), names, costs)
  {
    OrderIsSorted(names, costs);
    Rearranged(names, costs, Order(names, costs));
  }

  // ---- greedy placement ----

  /** `min(range(n), key=lambda r: (loads[r], r))`: the first least loaded of the first `n` ranks. */
  function ArgMin(loads: seq<real>, n: nat): (r: nat)
    requires 0 < n <= |loads|
    ensures r < n
  {
    if n == 1 then 0
    else
      var best := ArgMin(loads, n - 1);
      if loads[n - 1] < loads[best] then n - 1 else best
  }

  lemma {:induction false} ArgMinIsLeast(loads: seq<real>, n: nat)
    requires 0 < n <= |loads|
    ensures forall q :: 0 <= q < n ==> loads[ArgMin(loads, n)] <= loads[q]
    ensures forall q :: 0 <= q < ArgMin(loads, n) ==> loads[ArgMin(loads, n)] < loads[q]
  {
    if n > 1 { ArgMinIsLeast(loads, n - 1); }
  }

  /** The `loads` list of `m` ranks after `k` jobs. */
  ghost function Loads(p: seq<real>, a: seq<nat>, m: nat, k: nat): (v: seq<real>)
    requires k <= |p| && k <= |a|
    ensures |v| == m
  {
    if m == 0 then [] else Loads(p, a, m - 1, k) + [Load(p, a, m - 1, k)]
  }

  lemma {:induction false} LoadsAt(p: seq<real>, a: seq<nat>, m: nat, k: nat, r: nat)
    requires k <= |p| && k <= |a| && r < m
    ensures Loads(p, a, m, k)[r] == Load(p, a, r, k)
  {
    if r < m - 1 { LoadsAt(p, a, m - 1, k, r); }
  }

  lemma {:induction false} SameLoads(p: seq<real>, a: seq<nat>, q: seq<real>, b: seq<nat>, m: nat, k: nat)
    requires k <= |p| && k <= |a| && k <= |q| && k <= |b| && p[..k] == q[..k] && a[..k] == b[..k]
    ensures Loads(p, a, m, k) == Loads(q, b, m, k)
  {
    if m > 0 {
      SameLoads(p, a, q, b, m - 1, k);
      LoadPrefix(p, a, m - 1, k, k);
      LoadPrefix(q, b, m - 1, k, k);
    }
  }

  /** Job `k` is on the first rank that is least loaded when it is placed. */
  ghost predicate LeastAt(p: seq<real>, a: seq<nat>, m: nat, k: nat)
    requires m >= 1 && k < |p| && k < |a|
  {
    a[k] == ArgMin(Loads(p, a, m, k), m)
  }

  /** The rank of each job when every job goes to the first least loaded rank. */
  ghost function Place(p: seq<real>, m: nat): (a: seq<nat>)
    requires m >= 1
    ensures IsAssignment(a, |p|, m)
  {
    if p == [] then []
    else
      var k := |p| - 1;
      var a := Place(p[..k], m);
      a + [ArgMin(Loads(p, a, m, k), m)]
  }

  lemma {:induction false} LoadPrefix(p: seq<real>, a: seq<nat>, r: nat, k: nat, n: nat)
    requires k <= n <= |p| && n <= |a|
    ensures Load(p[..n], a[..n], r, k) == Load(p, a, r, k)
  {
    if k > 0 { LoadPrefix(p, a, r, k - 1, n); }
  }

  lemma {:induction false} PlacePrefix(p: seq<real>, m: nat, k: nat)
    requires m >= 1 && k <= |p|
    ensures Place(p[..k], m) == Place(p, m)[..k]
  {
    if k < |p| {
      var before := p[..|p| - 1];
      assert before[..k] == p[..k];
      PlacePrefix(before, m, k);
    } else {
      assert p[..k] == p;
    }
  }

  lemma PlaceIsGreedy(p: seq<real>, m: nat)
    requires m >= 1
    ensures Greedy(p, Place(p, m), m)
  {
    var a := Place(p, m);
    forall k | 0 <= k < |p| ensures GoesLowest(p, a, m, k) {
      PlaceStep(p, m, k);
      ArgMinIsLeast(Loads(p, a, m, k), m);
      LoadsAt(p, a, m, k, a[k]);
      forall r {:trigger Load(p, a, r, k)} | 0 <= r < m ensures Load(p, a, a[k], k) <= Load(p, a, r, k) {
        LoadsAt(p, a, m, k, r);
      }
    }
  }

  lemma PlaceStep(p: seq<real>, m: nat, k: nat)
    requires m >= 1 && k < |p|
    ensures LeastAt(p, Place(p, m), m, k)
  {
    var q := p[..k + 1];
    assert q[..k] == p[..k];
    PlacePrefix(p, m, k + 1);
    PlacePrefix(p, m, k);
    SameLoads(q, Place(q[..k], m), p, Place(p, m), m, k);
  }

  function TimesOf(jobs: seq<Job>): (p: seq<real>)
    ensures |p| == |jobs| && forall k :: 0 <= k < |p| ==> p[k] == jobs[k].time
  {
    seq(|jobs|, k requires 0 <= k < |jobs| => jobs[k].time)
  }

  // ---- the partition, as a rank for every position ----

  ghost function SlotOf(order: seq<Job>, i: nat): (k: nat)
    requires exists k :: 0 <= k < |order| && order[k].index == i
    ensures k < |order| && order[k].index == i
  {
    var k :| 0 <= k < |order| && order[k].index == i;
    k
  }

  ghost function RankOf(names: seq<string>, costs: Costs, m: nat, i: nat): (r: nat)
    requires m >= 1 && i < |names|
    ensures r < m
  {
    if Known(names[i], costs) then
      var order := Order(names, costs);
      assert JobAt(names, costs, i) in order by { OrderProperties(names, costs); }
      Place(TimesOf(order), m)[SlotOf(order, i)]
    else
      |UnknownFrom(names, costs, i)| % m
  }

  /** The rank of every position: predictions by LPT, the others dealt round-robin. */
  ghost function Ranks(names: seq<string>, costs: Costs, m: nat): (a: seq<nat>)
    requires m >= 1
    ensures IsAssignment(a, |names|, m)
  {
    RanksTo(names, costs, m, |names|)
  }

  ghost function RanksTo(names: seq<string>, costs: Costs, m: nat, n: nat): (a: seq<nat>)
    requires m >= 1 && n <= |names|
    ensures IsAssignment(a, n, m)
  {
    if n == 0 then [] else RanksTo(names, costs, m, n - 1) + [RankOf(names, costs, m, n - 1)]
  }

  lemma {:induction false} RankAt(names: seq<string>, costs: Costs, m: nat, n: nat, i: nat)
    requires m >= 1 && i < n <= |names|
    ensures RanksTo(names, costs, m, n)[i] == RankOf(names, costs, m, i)
  {
    if i < n - 1 { RankAt(names, costs, m, n - 1, i); }
  }

  /** The names among the first `n` that assignment `a` puts on rank `r`, in input order. */
  ghost function Select(names: seq<string>, a: seq<nat>, r: nat, n: nat): seq<string>
    requires n <= |names| && n <= |a|
  {
    if n == 0 then []
    else if a[n - 1] == r then Select(names, a, r, n - 1) + [names[n - 1]]
    else Select(names, a, r, n - 1)
  }

  /** What the first `n` names put on ranks `0..m`. */
  ghost function Shards(names: seq<string>, a: seq<nat>, m: nat, n: nat): (s: seq<seq<string>>)
    requires n <= |names| && n <= |a|
    ensures |s| == m
  {
    if m == 0 then [] else Shards(names, a, m - 1, n) + [Select(names, a, m - 1, n)]
  }

  lemma {:induction false} ShardAt(names: seq<string>, a: seq<nat>, m: nat, n: nat, r: nat)
    requires n <= |names| && n <= |a| && r < m
    ensures Shards(names, a, m, n)[r] == Select(names, a, r, n)
  {
    if r < m - 1 { ShardAt(names, a, m - 1, n, r); }
  }

  ghost function Partition(names: seq<string>, costs: Costs, m: nat): (s: seq<seq<string>>)
    requires m >= 1
    ensures |s| == m
  {
    Shards(names, Ranks(names, costs, m), m, |names|)
  }

  lemma SlotRank(names: seq<string>, costs: Costs, m: nat, k: nat)
    requires m >= 1 && k < |Order(names, costs)|
    ensures Order(names, costs)[k].index < |names|
    ensures Known(names[Order(names, costs)[k].index], costs)
    ensures Ranks(names, costs, m)[Order(names, costs)[k].index] == Place(TimesOf(Order(names, costs)), m)[k]
  {
    OrderProperties(names, costs);
    var order := Order(names, costs);
    var i := order[k].index;
    assert SlotOf(order, i) == k;
    RankAt(names, costs, m, |names|, i);
  }

  // ---- a partition: every kernel on exactly one rank ----

  ghost function Union(s: seq<seq<string>>): multiset<string> {
    if s == [] then multiset{} else Union(s[..|s| - 1]) + multiset(s[|s| - 1])
  }

  lemma {:induction false} UnionAppend(s: seq<seq<string>>, r: nat, x: string)
    requires r < |s|
    ensures Union(AppendAt(s, r, x)) == Union(s) + multiset{x}
  {
    var t, last := AppendAt(s, r, x), |s| - 1;
    if r == last {
      assert t[..last] == s[..last];
    } else {
      assert t[..last] == AppendAt(s[..last], r, x);
      UnionAppend(s[..last], r, x);
    }
  }

  lemma {:induction false} UnionOfEmpty(names: seq<string>, a: seq<nat>, m: nat)
    ensures Union(Shards(names, a, m, 0)) == multiset{}
  {
    if m > 0 {
      UnionOfEmpty(names, a, m - 1);
      assert Shards(names, a, m, 0)[..m - 1] == Shards(names, a, m - 1, 0);
    }
  }

  lemma {:induction false} ShardsStep(names: seq<string>, a: seq<nat>, m: nat, n: nat)
    requires n < |names| && n < |a|
    ensures a[n] >= m ==> Shards(names, a, m, n + 1) == Shards(names, a, m, n)
    ensures a[n] < m ==> Shards(names, a, m, n + 1) == AppendAt(Shards(names, a, m, n), a[n], names[n])
  {
    if m > 0 {
      ShardsStep(names, a, m - 1, n);
      if a[n] < m - 1 {
        AppendAtInit(Shards(names, a, m - 1, n), Select(names, a, m - 1, n), a[n], names[n]);
      } else if a[n] == m - 1 {
        AppendAtLast(Shards(names, a, m - 1, n), Select(names, a, m - 1, n), names[n]);
      }
    }
  }

  ghost function AppendAt(s: seq<seq<string>>, r: nat, x: string): (t: seq<seq<string>>)
    requires r < |s|
  {
    s[r := s[r] + [x]]
  }

  lemma AppendAtInit(s: seq<seq<string>>, last: seq<string>, r: nat, x: string)
    requires r < |s|
    ensures AppendAt(s + [last], r, x) == AppendAt(s, r, x) + [last]
  {
  }

  lemma AppendAtLast(s: seq<seq<string>>, last: seq<string>, x: string)
    ensures AppendAt(s + [last], |s|, x) == s + [last + [x]]
  {
  }

  lemma UnionStep(names: seq<string>, a: seq<nat>, m: nat, n: nat)
    requires n < |names| && IsAssignment(a, |names|, m)
    ensures Union(Shards(names, a, m, n + 1)) == Union(Shards(names, a, m, n)) + multiset{names[n]}
  {
    ShardsStep(names, a, m, n);
    UnionAppend(Shards(names, a, m, n), a[n], names[n]);
  }

  lemma {:induction false} UnionOfShards(names: seq<string>, a: seq<nat>, m: nat, n: nat)
    requires n <= |names| && IsAssignment(a, |names|, m)
    ensures Union(Shards(names, a, m, n)) == multiset(names[..n])
  {
    if n == 0 {
      UnionOfEmpty(names, a, m);
      assert names[..0] == [];
    } else {
      var k: nat := n - 1;
      UnionOfShards(names, a, m, k);
      assert Union(Shards(names, a, m, k + 1)) == Union(Shards(names, a, m, k)) + multiset{names[k]} by {
        UnionStep(names, a, m, k);
      }
      PrefixMultiset(names, k);
    }
  }

  lemma PrefixMultiset(names: seq<string>, n: nat)
    requires n < |names|
    ensures multiset(names[..n + 1]) == multiset(names[..n]) + multiset{names[n]}
  {
    assert names[..n + 1] == names[..n] + [names[n]];
  }

  /** No kernel is lost, duplicated or invented: the shards together are the selection. */
  lemma PartitionCovers(names: seq<string>, costs: Costs, m: nat)
    requires m >= 1
    ensures Union(Partition(names, costs, m)) == multiset(names)
  {
    UnionOfShards(names, Ranks(names, costs, m), m, |names|);
    assert names[..|names|] == names;
  }

  // ---- the fallback when nothing resolves ----

  /** `names[index::ranks]`. */
  function Stride(names: seq<string>, index: nat, step: nat): seq<string>
    requires step >= 1
    decreases |names| - index
  {
    if index >= |names| then [] else [names[index]] + Stride(names, index + step, step)
  }

  function StridePartition(names: seq<string>, ranks: nat): (s: seq<seq<string>>)
    requires ranks >= 1
    ensures |s| == ranks && forall r :: 0 <= r < ranks ==> s[r] == Stride(names, r, ranks)
  {
    seq(ranks, r requires 0 <= r < ranks => Stride(names, r, ranks))
  }

  lemma {:induction false} StrideLists(names: seq<string>, index: nat, step: nat, k: nat)
    requires step >= 1
    ensures k < |Stride(names, index, step)| <==> index + k * step < |names|
    ensures k < |Stride(names, index, step)| ==> Stride(names, index, step)[k] == names[index + k * step]
    decreases k
  {
    if k > 0 {
      OneStepOn(k, step);
      if index < |names| { StrideLists(names, index + step, step, k - 1); }
    }
  }

  lemma OneStepOn(k: nat, step: nat)
    requires k > 0
    ensures k * step == (k - 1) * step + step && (k - 1) * step >= 0
  {
  }

  /** The plain split deals the names out in turn: the `k`-th kernel of rank `r` is the one at `r + k * ranks`, and a
      rank has a `k`-th kernel exactly when the selection reaches that far. */
  lemma StrideDealsInTurn(names: seq<string>, ranks: nat, r: nat, k: nat)
    requires r < ranks
    ensures |StridePartition(names, ranks)| == ranks
    ensures k < |StridePartition(names, ranks)[r]| <==> r + k * ranks < |names|
    ensures r + k * ranks < |names| ==> StridePartition(names, ranks)[r][k] == names[r + k * ranks]
  {
    StrideLists(names, r, ranks, k);
  }

  lemma {:induction false} StrideSnoc(names: seq<string>, x: string, index: nat, step: nat)
    requires step >= 1
    ensures Stride(names + [x], index, step) ==
            if index <= |names| && (|names| - index) % step == 0 then Stride(names, index, step) + [x]
            else Stride(names, index, step)
    decreases |names| - index
  {
    if index < |names| {
      StrideSnoc(names, x, index + step, step);
      if index + step <= |names| { ModShift(|names| - index, step); }
    } else if index == |names| {
      assert Stride(names + [x], index + step, step) == [];
    }
  }

  lemma ModShift(n: nat, step: nat)
    requires 1 <= step <= n
    ensures (n - step) % step == n % step
  {
    var q, t := (n - step) / step, (n - step) % step;
    assert n == (q + 1) * step + t by { assert (q + 1) * step == q * step + step; }
    DivModUnique(n, step, q + 1, t);
  }

  lemma ModOfDifference(n: nat, r: nat, m: nat)
    requires r < m
    ensures n % m == r <==> r <= n && (n - r) % m == 0
  {
    if n % m == r {
      assert n - r == (n / m) * m;
      DivModUnique(n - r, m, n / m, 0);
    } else if r <= n && (n - r) % m == 0 {
      DivModUnique(n, m, (n - r) / m, r);
      assert false;
    }
  }

  lemma {:induction false} SelectIsStride(names: seq<string>, a: seq<nat>, m: nat, r: nat, n: nat)
    requires m >= 1 && r < m && n <= |names| == |a| && forall i :: 0 <= i < |a| ==> a[i] == i % m
    ensures Select(names, a, r, n) == Stride(names[..n], r, m)
  {
    if n > 0 {
      SelectIsStride(names, a, m, r, n - 1);
      assert names[..n] == names[..n - 1] + [names[n - 1]];
      StrideSnoc(names[..n - 1], names[n - 1], r, m);
      ModOfDifference(n - 1, r, m);
    }
  }

  lemma {:induction false} AllUnknown(names: seq<string>, costs: Costs, n: nat)
    requires n <= |names| && forall i :: 0 <= i < n ==> !Known(names[i], costs)
    ensures |UnknownFrom(names, costs, n)| == n
  {
    if n > 0 { AllUnknown(names, costs, n - 1); }
  }

  lemma NoJobsNoneKnown(names: seq<string>, costs: Costs)
    requires JobsFrom(names, costs, |names|) == []
    ensures forall i :: 0 <= i < |names| ==> !Known(names[i], costs)
  {
    JobsFromIndices(names, costs, |names|);
    forall i | 0 <= i < |names| ensures !Known(names[i], costs) {
      if Known(names[i], costs) { assert false; }
    }
  }

  /** With no prediction at all the partition is the plain stride. */
  lemma PartitionIsStride(names: seq<string>, costs: Costs, m: nat)
    requires m >= 1 && JobsFrom(names, costs, |names|) == []
    ensures Partition(names, costs, m) == StridePartition(names, m)
  {
    var a := Ranks(names, costs, m);
    NoJobsNoneKnown(names, costs);
    forall i | 0 <= i < |names| ensures a[i] == i % m {
      AllUnknown(names, costs, i);
      RankAt(names, costs, m, |names|, i);
    }
    forall r | 0 <= r < m ensures Partition(names, costs, m)[r] == Stride(names, r, m) {
      SelectIsStride(names, a, m, r, |names|);
      ShardAt(names, a, m, |names|, r);
      assert names[..|names|] == names;
    }
  }

  // ---- node memory ----

  datatype PackError = NoRanks | HalfCap | NoRanksPerNode | NoNodeMemory | OverMemory(violations: seq<Violation>)

  datatype Violation =
    | RankOver(rank: nat, who: string, nbytes: int)
    | NodeOver(node: nat, start: nat, count: nat, total: int, worst: seq<(int, string)>)

  /** The `(bytes, name)` pairs of the kernels with a prediction. */
  function Entries(kernels: seq<string>, costs: Costs): seq<(int, string)> {
    if kernels == [] then []
    else
      var rest, name := Entries(kernels[1..], costs), kernels[0];
      if Known(name, costs) then [(costs[name].workingBytes, name)] + rest else rest
  }

  /** `max(entries, default=(0, ""))` in tuple order. */
  function MaxEntry(entries: seq<(int, string)>): (e: (int, string)) {
    if entries == [] then (0, "")
    else if |entries| == 1 then entries[0]
    else
      var best := MaxEntry(entries[1..]);
      if entries[0].0 > best.0 || (entries[0].0 == best.0 && StringLe(best.1, entries[0].1)) then entries[0] else best
  }

  function Peak(kernels: seq<string>, costs: Costs): (int, string) {
    MaxEntry(Entries(kernels, costs))
  }

  function PeakSum(partition: seq<seq<string>>, costs: Costs, start: nat, stop: nat): int
    requires start <= stop <= |partition|
    decreases stop
  {
    if start == stop then 0 else PeakSum(partition, costs, start, stop - 1) + Peak(partition[stop - 1], costs).0
  }

  /** The largest kernels of a node's ranks, in rank order; a rank without a prediction names none. */
  function WorstKernels(partition: seq<seq<string>>, costs: Costs, start: nat, stop: nat): seq<(int, string)>
    requires start <= stop <= |partition|
    decreases stop
  {
    if start == stop then []
    else
      var before, top := WorstKernels(partition, costs, start, stop - 1), Peak(partition[stop - 1], costs);
      if top.1 == "" then before else before + [top]
  }

  predicate OverShare(top: int, ranksPerNode: int, nodeRamBytes: int)
    requires ranksPerNode >= 1
  {
    top as real > nodeRamBytes as real / ranksPerNode as real
  }

  ghost function RankViolations(partition: seq<seq<string>>, costs: Costs, rpn: int, ram: int, n: nat): seq<Violation>
    requires n <= |partition| && rpn >= 1
  {
    if n == 0 then []
    else
      var (top, who) := Peak(partition[n - 1], costs);
      var before := RankViolations(partition, costs, rpn, ram, n - 1);
      if OverShare(top, rpn, ram) then before + [RankOver(n - 1, who, top)] else before
  }

  /** `out` followed by the violations of nodes `node`, `node + 1`, ... whose ranks start at `start`. */
  ghost function NodeViolations(partition: seq<seq<string>>, costs: Costs, rpn: int, ram: int, node: nat, start: nat,
                                out: seq<Violation>)
    : seq<Violation>
    requires rpn >= 1
    decreases |partition| - start
  {
    if start >= |partition| then out
    else NodeViolations(partition, costs, rpn, ram, node + 1, start + rpn,
                        out + NodeOverflow(partition, costs, rpn, ram, node, start))
  }

  ghost function NodeOverflow(partition: seq<seq<string>>, costs: Costs, rpn: int, ram: int, node: nat,
                              start: nat): seq<Violation>
    requires rpn >= 1 && start < |partition|
  {
    var stop := Min(start + rpn, |partition|);
    var total := PeakSum(partition, costs, start, stop);
    if total > ram then [NodeOver(node, start, stop - start, total, WorstKernels(partition, costs, start, stop))]
    else []
  }

  ghost function Footprint(partition: seq<seq<string>>, costs: Costs, rpn: int,
                           ram: int): Result<seq<Violation>, PackError> {
    if rpn < 1 then Err(NoRanksPerNode)
    else if ram < 1 then Err(NoNodeMemory)
    else Ok(NodeViolations(partition, costs, rpn, ram, 0, 0, RankViolations(partition, costs, rpn, ram, |partition|)))
  }

  method NodeFootprintViolations(partition: seq<seq<string>>, costs: Costs, ranksPerNode: int, nodeRamBytes: int)
    returns (r: Result<seq<Violation>, PackError>)
    ensures r == Footprint(partition, costs, ranksPerNode, nodeRamBytes)
  {
    if ranksPerNode < 1 { return Err(NoRanksPerNode); }
    if nodeRamBytes < 1 { return Err(NoNodeMemory); }
    var out: seq<Violation> := [];
    var peak: seq<(int, string)> := [];
    for rank := 0 to |partition|
      invariant out == RankViolations(partition, costs, ranksPerNode, nodeRamBytes, rank)
      invariant |peak| == rank && forall q :: 0 <= q < rank ==> peak[q] == Peak(partition[q], costs)
    {
      var (top, who) := Peak(partition[rank], costs);
      peak := peak + [(top, who)];
      if OverShare(top, ranksPerNode, nodeRamBytes) {
        out := out + [RankOver(rank, who, top)];
      }
    }
    out := OverfullNodes(partition, costs, peak, ranksPerNode, nodeRamBytes, out);
    return Ok(out);
  }

  method GroupTotal(partition: seq<seq<string>>, costs: Costs, peak: seq<(int, string)>, start: nat, stop: nat)
    returns (total: int, worst: seq<(int, string)>)
    requires start <= stop <= |peak| == |partition|
    requires forall q :: 0 <= q < |peak| ==> peak[q] == Peak(partition[q], costs)
    ensures total == PeakSum(partition, costs, start, stop) && worst == WorstKernels(partition, costs, start, stop)
  {
    total, worst := 0, [];
    for q := start to stop
      invariant total == PeakSum(partition, costs, start, q) && worst == WorstKernels(partition, costs, start, q)
    {
      total := total + peak[q].0;
      if peak[q].1 != "" { worst := worst + [peak[q]]; }
    }
  }

  /** The node loop: consecutive groups of ranks, each charged the sum of its ranks' peaks. */
  method OverfullNodes(partition: seq<seq<string>>, costs: Costs, peak: seq<(int, string)>, ranksPerNode: int,
                       nodeRamBytes: int, found: seq<Violation>)
    returns (out: seq<Violation>)
    requires ranksPerNode >= 1
    requires |peak| == |partition| && forall q :: 0 <= q < |peak| ==> peak[q] == Peak(partition[q], costs)
    ensures out == NodeViolations(partition, costs, ranksPerNode, nodeRamBytes, 0, 0, found)
  {
    out := found;
    var node, start := 0, 0;
    while start < |peak|
      invariant 0 <= start && 0 <= node
      invariant NodeViolations(partition, costs, ranksPerNode, nodeRamBytes, node, start, out) ==
                NodeViolations(partition, costs, ranksPerNode, nodeRamBytes, 0, 0, found)
      decreases |peak| - start
    {
      var stop := Min(start + ranksPerNode, |peak|);
      var total, worst := GroupTotal(partition, costs, peak, start, stop);
      var over := if total > nodeRamBytes then [NodeOver(node, start, stop - start, total, worst)] else [];
      out := out + over;
      node, start := node + 1, start + ranksPerNode;
    }
  }

  // ---- the packer ----

  ghost function PackOutcome(names: seq<string>, costs: Costs, ranks: int, ranksPerNode: Option<int>,
                             nodeRamBytes: Option<int>)
    : Result<seq<seq<string>>, PackError>
  {
    if ranks < 1 then Err(NoRanks)
    else if ranksPerNode.None? != nodeRamBytes.None? then Err(HalfCap)
    else if JobsFrom(names, costs, |names|) == [] then Ok(Partition(names, costs, ranks))
    else Capped(Partition(names, costs, ranks), costs, ranksPerNode, nodeRamBytes)
  }

  /** The partition, unless a memory cap is given and the partition overruns it. */
  ghost function Capped(partition: seq<seq<string>>, costs: Costs, ranksPerNode: Option<int>, nodeRamBytes: Option<int>)
    : Result<seq<seq<string>>, PackError>
  {
    if ranksPerNode.None? || nodeRamBytes.None? then Ok(partition)
    else
      match Footprint(partition, costs, ranksPerNode.value, nodeRamBytes.value)
      case Err(error) => Err(error)
      case Ok(problems) => if problems == [] then Ok(partition) else Err(OverMemory(problems))
  }

  method CheckCap(partition: seq<seq<string>>, costs: Costs, ranksPerNode: Option<int>, nodeRamBytes: Option<int>)
    returns (r: Result<seq<seq<string>>, PackError>)
    ensures r == Capped(partition, costs, ranksPerNode, nodeRamBytes)
  {
    if ranksPerNode.Some? && nodeRamBytes.Some? {
      var problems := NodeFootprintViolations(partition, costs, ranksPerNode.value, nodeRamBytes.value);
      match problems {
        case Err(error) => return Err(error);
        case Ok(violations) => if violations != [] { return Err(OverMemory(violations)); }
      }
    }
    return Ok(partition);
  }

  function Positions(a: seq<nat>, r: nat, n: nat): seq<int>
    requires n <= |a|
  {
    if n == 0 then []
    else if a[n - 1] == r then Positions(a, r, n - 1) + [n - 1]
    else Positions(a, r, n - 1)
  }

  lemma {:induction false} PositionsAscend(a: seq<nat>, r: nat, n: nat)
    requires n <= |a|
    ensures forall i :: i in Positions(a, r, n) <==> 0 <= i < n && a[i] == r
    ensures Sorted(Positions(a, r, n), IntLe) && NoDup(Positions(a, r, n))
  {
    if n > 0 {
      PositionsAscend(a, r, n - 1);
      var before := Positions(a, r, n - 1);
      assert forall k :: 0 <= k < |before| ==> before[k] in before;
    }
  }

  function Named(names: seq<string>, positions: seq<int>): (s: seq<string>)
    requires forall k :: 0 <= k < |positions| ==> 0 <= positions[k] < |names|
    ensures |s| == |positions| && forall k :: 0 <= k < |s| ==> s[k] == names[positions[k]]
  {
    seq(|positions|, k requires 0 <= k < |positions| => names[positions[k]])
  }

  lemma {:induction false} NamedPositions(names: seq<string>, a: seq<nat>, r: nat, n: nat)
    requires n <= |names| == |a|
    ensures forall k :: 0 <= k < |Positions(a, r, n)| ==> 0 <= Positions(a, r, n)[k] < n
    ensures Named(names, Positions(a, r, n)) == Select(names, a, r, n)
  {
    PositionsAscend(a, r, n);
    if n > 0 {
      PositionsAscend(a, r, n - 1);
      NamedPositions(names, a, r, n - 1);
      if a[n - 1] == r {
        assert Named(names, Positions(a, r, n)) == Named(names, Positions(a, r, n - 1)) + [names[n - 1]];
      }
    }
  }

  /** Sorting a bin that holds exactly the positions of rank `r` lists them in input order. */
  lemma SortedBin(bin: seq<int>, a: seq<nat>, r: nat)
    requires NoDup(bin) && forall i :: i in bin <==> 0 <= i < |a| && a[i] == r
    ensures Sort(bin, IntLe) == Positions(a, r, |a|)
  {
    var positions := Positions(a, r, |a|);
    PositionsAscend(a, r, |a|);
    forall i ensures i in bin <==> i in positions {}
    SameElements(bin, positions);
    IntLeIsLinear();
    SortSorts(bin, IntLe);
    SortedUnique(Sort(bin, IntLe), positions, IntLe);
  }

  /** The bins hold exactly the `placed` positions, each once and on its own rank. */
  ghost predicate BinsHold(bins: seq<seq<int>>, a: seq<nat>, placed: set<int>) {
    forall r :: 0 <= r < |bins| ==>
      NoDup(bins[r]) && forall i :: (i in bins[r] <==> i in placed && 0 <= i < |a| && a[i] == r)
  }

  /** `bins[rank].append(i)`. */
  method Append(bins: seq<seq<int>>, rank: nat, i: nat, ghost a: seq<nat>, ghost placed: set<int>)
    returns (grown: seq<seq<int>>)
    requires BinsHold(bins, a, placed) && i !in placed && i < |a| && a[i] == rank < |bins|
    ensures |grown| == |bins| && BinsHold(grown, a, placed + {i})
  {
    grown := bins[rank := bins[rank] + [i]];
  }

  lemma {:induction false} UnknownSlot(names: seq<string>, costs: Costs, n: nat, s: nat)
    requires n <= |names| && s < |UnknownFrom(names, costs, n)|
    ensures UnknownFrom(names, costs, n)[s] < n
    ensures |UnknownFrom(names, costs, UnknownFrom(names, costs, n)[s])| == s
  {
    if s < |UnknownFrom(names, costs, n - 1)| { UnknownSlot(names, costs, n - 1, s); }
  }

  lemma BinShard(bins: seq<seq<int>>, names: seq<string>, a: seq<nat>, r: nat)
    requires r < |bins| && |a| == |names| && BinsHold(bins, a, Below(|names|))
    ensures forall k :: 0 <= k < |Sort(bins[r], IntLe)| ==> 0 <= Sort(bins[r], IntLe)[k] < |names|
    ensures Named(names, Sort(bins[r], IntLe)) == Shards(names, a, |bins|, |names|)[r]
  {
    var bin := bins[r];
    SortedBin(bin, a, r);
    NamedPositions(names, a, r, |names|);
    ShardAt(names, a, |bins|, |names|, r);
  }

  method PackLpt(names: seq<string>, costs: Costs, ranks: int, ranksPerNode: Option<int>, nodeRamBytes: Option<int>)
    returns (r: Result<seq<seq<string>>, PackError>)
    ensures r == PackOutcome(names, costs, ranks, ranksPerNode, nodeRamBytes)
  {
    if ranks < 1 { return Err(NoRanks); }
    if ranksPerNode.None? != nodeRamBytes.None? { return Err(HalfCap); }
    if JobsFrom(names, costs, |names|) == [] {
      PartitionIsStride(names, costs, ranks);
      return Ok(StridePartition(names, ranks));
    }
    ghost var a := Ranks(names, costs, ranks);
    RanksFollow(names, costs, ranks);
    var bins := FillBins(names, costs, ranks, a);
    var partition := ReadShards(names, bins, a);
    r := CheckCap(partition, costs, ranksPerNode, nodeRamBytes);
  }

  method ReadShards(names: seq<string>, bins: seq<seq<int>>, ghost a: seq<nat>) returns (partition: seq<seq<string>>)
    requires |a| == |names| && BinsHold(bins, a, Below(|names|))
    ensures partition == Shards(names, a, |bins|, |names|)
  {
    partition := [];
    for rank := 0 to |bins|
      invariant |partition| == rank
      invariant forall q :: 0 <= q < rank ==> partition[q] == Shards(names, a, |bins|, |names|)[q]
    {
      BinShard(bins, names, a, rank);
      partition := partition + [Named(names, Sort(bins[rank], IntLe))];
    }
  }

  /** `a` gives every job its greedy rank. */
  ghost predicate PlacesJobs(a: seq<nat>, names: seq<string>, costs: Costs, m: nat)
    requires m >= 1
  {
    var order := Order(names, costs);
    forall k :: 0 <= k < |order| ==> order[k].index < |a| && a[order[k].index] == Place(TimesOf(order), m)[k]
  }

  /** `a` deals the positions round-robin over `m` ranks. */
  ghost predicate RoundRobin(positions: seq<nat>, a: seq<nat>, m: nat)
    requires m >= 1
  {
    forall k :: 0 <= k < |positions| ==> positions[k] < |a| && a[positions[k]] == k % m
  }

  /** No position repeats or is among the `known` ones. */
  ghost predicate Fresh(positions: seq<nat>, known: set<int>) {
    forall k :: 0 <= k < |positions| ==> positions[k] !in known && positions[k] !in FirstOf(positions, k)
  }

  lemma RanksFollow(names: seq<string>, costs: Costs, m: nat)
    requires m >= 1
    ensures PlacesJobs(Ranks(names, costs, m), names, costs, m)
    ensures RoundRobin(UnknownFrom(names, costs, |names|), Ranks(names, costs, m), m)
  {
    var order, unknown := Order(names, costs), UnknownFrom(names, costs, |names|);
    forall k | 0 <= k < |order|
      ensures order[k].index < |names| && Ranks(names, costs, m)[order[k].index] == Place(TimesOf(order), m)[k]
    {
      SlotRank(names, costs, m, k);
    }
    forall k | 0 <= k < |unknown| ensures unknown[k] < |names| && Ranks(names, costs, m)[unknown[k]] == k % m {
      UnknownRank(names, costs, m, k);
    }
  }

  lemma UnknownRank(names: seq<string>, costs: Costs, m: nat, slot: nat)
    requires m >= 1 && slot < |UnknownFrom(names, costs, |names|)|
    ensures UnknownFrom(names, costs, |names|)[slot] < |names|
    ensures Ranks(names, costs, m)[UnknownFrom(names, costs, |names|)[slot]] == slot % m
  {
    UnknownPositions(names, costs, |names|);
    UnknownSlot(names, costs, |names|, slot);
    RankAt(names, costs, m, |names|, UnknownFrom(names, costs, |names|)[slot]);
  }

  lemma UnknownAreNew(names: seq<string>, costs: Costs)
    ensures var unknown := UnknownFrom(names, costs, |names|);
      Fresh(unknown, KnownPositions(names, costs))
  {
    var unknown := UnknownFrom(names, costs, |names|);
    UnknownPositions(names, costs, |names|);
    forall k | 0 <= k < |unknown| ensures unknown[k] !in FirstOf(unknown, k) { FirstOfMembers(unknown, k); }
  }

  /** The packing loops: every position lands in the bin of its rank, once. */
  method FillBins(names: seq<string>, costs: Costs, ranks: nat, ghost a: seq<nat>) returns (bins: seq<seq<int>>)
    requires ranks >= 1 && |a| == |names| && PlacesJobs(a, names, costs, ranks)
    requires RoundRobin(UnknownFrom(names, costs, |names|), a, ranks)
    ensures |bins| == ranks && BinsHold(bins, a, Below(|names|))
  {
    bins := PlaceResolved(names, costs, ranks, a);
    UnknownAreNew(names, costs);
    bins := DealUnknown(bins, UnknownFrom(names, costs, |names|), a, KnownPositions(names, costs));
    EveryPosition(names, costs);
  }

  method DealUnknown(placed: seq<seq<int>>, unknown: seq<nat>, ghost a: seq<nat>, ghost known: set<int>)
    returns (bins: seq<seq<int>>)
    requires |placed| >= 1 && BinsHold(placed, a, known)
    requires RoundRobin(unknown, a, |placed|) && Fresh(unknown, known)
    ensures |bins| == |placed| && BinsHold(bins, a, known + FirstOf(unknown, |unknown|))
  {
    bins := placed;
    assert known + FirstOf(unknown, 0) == known;
    for slot := 0 to |unknown|
      invariant |bins| == |placed| && BinsHold(bins, a, known + FirstOf(unknown, slot))
    {
      bins := Append(bins, slot % |placed|, unknown[slot], a, known + FirstOf(unknown, slot));
      assert known + FirstOf(unknown, slot + 1) == known + FirstOf(unknown, slot) + {unknown[slot]};
    }
  }

  lemma EveryPosition(names: seq<string>, costs: Costs)
    ensures var unknown := UnknownFrom(names, costs, |names|);
            KnownPositions(names, costs) + FirstOf(unknown, |unknown|) == Below(|names|)
  {
    UnknownPositions(names, costs, |names|);
    FirstOfMembers(UnknownFrom(names, costs, |names|), |UnknownFrom(names, costs, |names|)|);
  }

  ghost function KnownPositions(names: seq<string>, costs: Costs): set<nat> {
    set i | i in Below(|names|) && Known(names[i], costs)
  }

  ghost function FirstOf(s: seq<nat>, k: nat): set<nat>
    requires k <= |s|
  {
    if k == 0 then {} else FirstOf(s, k - 1) + {s[k - 1]}
  }

  lemma {:induction false} FirstOfMembers(s: seq<nat>, k: nat)
    requires k <= |s|
    ensures forall i :: i in FirstOf(s, k) <==> exists q :: 0 <= q < k && s[q] == i
  {
    if k > 0 { FirstOfMembers(s, k - 1); }
  }

  function IndicesOf(jobs: seq<Job>): (s: seq<nat>)
    ensures |s| == |jobs| && forall k :: 0 <= k < |s| ==> s[k] == jobs[k].index
  {
    seq(|jobs|, k requires 0 <= k < |jobs| => jobs[k].index)
  }

  /** Job `k` of the processing order goes to the rank `places[k]`, its position is new and `a` records the rank. */
  ghost predicate Scheduled(jobs: seq<Job>, a: seq<nat>, p: seq<real>, places: seq<nat>, done: seq<nat>, m: nat, k: nat)
    requires m >= 1 && k < |jobs| == |p| == |places| == |done|
  {
    && LeastAt(p, places, m, k) && p[k] == jobs[k].time
    && done[k] == jobs[k].index < |a| && a[done[k]] == places[k]
    && done[k] !in FirstOf(done, k)
  }

  method PlaceResolved(names: seq<string>, costs: Costs, ranks: nat, ghost a: seq<nat>) returns (bins: seq<seq<int>>)
    requires ranks >= 1 && |a| == |names| && PlacesJobs(a, names, costs, ranks)
    ensures |bins| == ranks && BinsHold(bins, a, KnownPositions(names, costs))
  {
    var resolved := Order(names, costs);
    ghost var p, done := TimesOf(resolved), IndicesOf(resolved);
    PlacedJobs(names, costs);
    forall k | 0 <= k < |resolved|
      ensures Scheduled(resolved, a, p, Place(p, ranks), done, ranks, k)
    {
      PlaceStep(p, ranks, k);
    }
    bins := PlaceJobs(resolved, ranks, a, p, Place(p, ranks), done);
    KnownAreOrdered(names, costs);
  }

  /** `loads[rank] += time`. */
  method AddLoad(loads: seq<real>, rank: nat, time: real, ghost p: seq<real>, ghost a: seq<nat>, ghost k: nat)
    returns (r: seq<real>)
    requires k < |p| == |a| && loads == Loads(p, a, |loads|, k) && rank == a[k] < |loads| && time == p[k]
    ensures |r| == |loads| && r == Loads(p, a, |loads|, k + 1)
  {
    LoadsStep(p, a, |loads|, k);
    r := loads[rank := loads[rank] + time];
  }

  method PlaceJobs(jobs: seq<Job>, ranks: nat, ghost a: seq<nat>, ghost p: seq<real>, ghost places: seq<nat>,
                   ghost done: seq<nat>)
    returns (bins: seq<seq<int>>)
    requires ranks >= 1 && |jobs| == |p| == |places| == |done|
    requires forall k :: 0 <= k < |jobs| ==> Scheduled(jobs, a, p, places, done, ranks, k)
    ensures |bins| == ranks && BinsHold(bins, a, FirstOf(done, |done|))
  {
    bins := seq(ranks, _ => []);
    var loads := seq(ranks, _ => 0.0);
    NoLoads(p, places, ranks);
    for k := 0 to |jobs|
      invariant |bins| == ranks && BinsHold(bins, a, FirstOf(done, k))
      invariant |loads| == ranks && loads == Loads(p, places, ranks, k)
    {
      assert Scheduled(jobs, a, p, places, done, ranks, k);
      var rank := ArgMin(loads, ranks);
      bins := Append(bins, rank, jobs[k].index, a, FirstOf(done, k));
      loads := AddLoad(loads, rank, jobs[k].time, p, places, k);
    }
  }

  /** No job is taken twice. */
  lemma PlacedJobs(names: seq<string>, costs: Costs)
    ensures Fresh(IndicesOf(Order(names, costs)), {})
  {
    var order := Order(names, costs);
    OrderProperties(names, costs);
    forall k | 0 <= k < |order| ensures order[k].index !in FirstOf(IndicesOf(order), k) {
      FirstOfMembers(IndicesOf(order), k);
    }
  }

  lemma KnownAreOrdered(names: seq<string>, costs: Costs)
    ensures FirstOf(IndicesOf(Order(names, costs)), |Order(names, costs)|) == KnownPositions(names, costs)
  {
    var order := Order(names, costs);
    OrderProperties(names, costs);
    ListedPositions(order, names, costs);
  }

  lemma ListedPositions(order: seq<Job>, names: seq<string>, costs: Costs)
    requires ListsKnown(order, names, costs)
    ensures FirstOf(IndicesOf(order), |order|) == KnownPositions(names, costs)
  {
    var done := IndicesOf(order);
    FirstOfMembers(done, |order|);
    forall i | i in KnownPositions(names, costs) ensures i in FirstOf(done, |order|) {
      assert JobAt(names, costs, i) in order;
    }
  }

  lemma {:induction false} LoadsStep(p: seq<real>, a: seq<nat>, m: nat, k: nat)
    requires k < |p| == |a|
    ensures Loads(p, a, m, k + 1) ==
            if a[k] < m then Loads(p, a, m, k)[a[k] := Loads(p, a, m, k)[a[k]] + p[k]] else Loads(p, a, m, k)
  {
    if m > 0 { LoadsStep(p, a, m - 1, k); }
  }

  lemma {:induction false} NoLoads(p: seq<real>, a: seq<nat>, m: nat)
    ensures Loads(p, a, m, 0) == seq(m, _ => 0.0)
  {
    if m > 0 { NoLoads(p, a, m - 1); }
  }
}
