/** Topological resolution of fuzzed sizes (`resolve_sizes` of `fuzz.py`): sample the leaves, then derive and construct
    to a fixpoint. */
module Resolve {
  import opened Outcomes
  import opened Orders
  import opened Expressions
  import opened SmoothSizes

  datatype LeafSpec =
    | Fixed(value: Value)
    | Choice(values: seq<Value>)
    | Interval(lo: int, hi: int)
    | SmoothInterval(bound: int, lo: int, hi: int)

  datatype Spec =
    | Derive(expr: Expr)
    | Construct(expr: Expr, gens: seq<(string, LeafSpec)>)
    | Leaf(leaf: LeafSpec)

  /** A Python dict: its keys in insertion order and what they map to. */
  datatype Dict<V> = Dict(keys: seq<string>, at: map<string, V>) {
    ghost predicate Valid() {
      NoDup(keys) && forall k :: k in keys <==> k in at
    }
  }

  datatype ResolveError = Unresolvable(names: set<string>) | Raised

  // ---- what a draw may be ----

  ghost predicate DrawnFrom(n: int, lo: int, hi: int) {
    if hi <= lo then n == lo else lo <= n <= hi
  }

  ghost predicate InDomain(leaf: LeafSpec, v: Value) {
    match leaf
    case Fixed(value) => v == value
    case Choice(values) => if values == [] then v == DictV(map["set" := ListV([])]) else v in values
    case Interval(lo, hi) => v.IntV? && DrawnFrom(v.n, lo, hi)
    case SmoothInterval(bound, lo, hi) => v.IntV? && exists n :: DrawnFrom(n, lo, hi) && SnapsTo(v.n, n, lo, hi, bound)
  }

  /** Every smooth draw is inside its interval exactly when the interval holds a smooth size. */
  lemma SmoothDrawStaysInside(r: int, n: int, lo: int, hi: int, bound: int)
    requires DrawnFrom(n, lo, hi) && SnapsTo(r, n, lo, hi, bound)
    ensures lo <= r <= hi <==> SmoothIn(lo, hi, bound)
  {
    SnapStaysInside(r, n, lo, hi, bound);
  }

  method SampleOne(lo: int, hi: int) returns (n: int)
    ensures DrawnFrom(n, lo, hi)
  {
    if hi <= lo { return lo; }
    n :| lo <= n <= hi;
  }

  method SampleLeaf(leaf: LeafSpec) returns (v: Value)
    ensures InDomain(leaf, v)
  {
    match leaf {
      case Fixed(value) => v := value;
      case Choice(values) =>
        if values == [] {
          v := DictV(map["set" := ListV([])]);
        } else {
          var i: nat :| i < |values|;
          v := values[i];
        }
      case Interval(lo, hi) =>
        var n := SampleOne(lo, hi);
        v := IntV(n);
      case SmoothInterval(bound, lo, hi) =>
        var n := SampleOne(lo, hi);
        var r := SnapSmooth(n, lo, hi, bound);
        v := IntV(r);
    }
  }

  ghost predicate LocalDraws(local: Namespace, gens: seq<(string, LeafSpec)>) {
    && (forall k :: k in local ==> exists i :: 0 <= i < |gens| && gens[i].0 == k && InDomain(gens[i].1, local[k]))
    && (forall i :: 0 <= i < |gens| ==> gens[i].0 in local)
  }

  /** `v` is what `spec` may resolve to in namespace `names`. */
  ghost predicate Explains(spec: Spec, v: Value, names: Namespace, prims: Primitives) {
    match spec
    case Derive(expr) => Eval(expr, names, prims) == Val(v)
    case Construct(expr, gens) =>
      exists local: Namespace :: LocalDraws(local, gens) && Eval(expr, names + local, prims) == Val(v)
    case Leaf(leaf) => InDomain(leaf, v)
  }

  // ---- what a definition is once its random parts are drawn ----

  /** A size's definition with its draws made: a drawn value, a derive, or a construct with its local draws. */
  datatype Def = Drawn(v: Value) | Derivation(expr: Expr) | Construction(expr: Expr, local: Namespace)

  type Defs = map<string, Def>

  function EvalDef(d: Def, names: Namespace, prims: Primitives): Outcome {
    match d
    case Drawn(v) => Val(v)
    case Derivation(expr) => Eval(expr, names, prims)
    case Construction(expr, local) => Eval(expr, names + local, prims)
  }

  /** The definition is the spec with some draws made. */
  ghost predicate IsDraw(d: Def, spec: Spec) {
    match spec
    case Derive(expr) => d == Derivation(expr)
    case Construct(expr, gens) => d.Construction? && d.expr == expr && LocalDraws(d.local, gens)
    case Leaf(leaf) => d.Drawn? && InDomain(leaf, d.v)
  }

  lemma DefWeakening(d: Def, smaller: Namespace, larger: Namespace, prims: Primitives)
    requires Extends(larger, smaller) && !EvalDef(d, smaller, prims).Unbound?
    ensures EvalDef(d, larger, prims) == EvalDef(d, smaller, prims)
  {
    match d
    case Drawn(_) =>
    case Derivation(expr) => Weakening(expr, smaller, larger, prims);
    case Construction(expr, local) => Weakening(expr, smaller + local, larger + local, prims);
  }

  lemma DefUnbound(d: Def, names: Namespace, prims: Primitives)
    ensures EvalDef(d, names, prims).Unbound? ==> EvalDef(d, names, prims).name !in names
  {
    match d
    case Drawn(_) =>
    case Derivation(expr) => UnboundIsMissing(expr, names, prims);
    case Construction(expr, local) => UnboundIsMissing(expr, names + local, prims);
  }

  lemma LeafHasDraw(leaf: LeafSpec) returns (v: Value)
    ensures InDomain(leaf, v)
  {
    match leaf
    case Fixed(value) => v := value;
    case Choice(values) => v := if values == [] then DictV(map["set" := ListV([])]) else values[0];
    case Interval(lo, hi) => v := IntV(lo);
    case SmoothInterval(bound, lo, hi) =>
      var r := HasSnap(lo, lo, hi, bound);
      assert DrawnFrom(lo, lo, hi);
      v := IntV(r);
  }

  lemma {:induction false} HasLocals(gens: seq<(string, LeafSpec)>) returns (local: Namespace)
    ensures LocalDraws(local, gens)
  {
    local := map[];
    if gens != [] {
      var init, last := gens[..|gens| - 1], gens[|gens| - 1];
      var before := HasLocals(init);
      var v := LeafHasDraw(last.1);
      local := before[last.0 := v];
      LocalsExtend(before, gens, v);
    }
  }

  lemma LocalsExtend(before: Namespace, gens: seq<(string, LeafSpec)>, v: Value)
    requires gens != [] && LocalDraws(before, gens[..|gens| - 1]) && InDomain(gens[|gens| - 1].1, v)
    ensures LocalDraws(before[gens[|gens| - 1].0 := v], gens)
  {
    var init, n := gens[..|gens| - 1], |gens| - 1;
    var local := before[gens[n].0 := v];
    forall k | k in local ensures exists i :: 0 <= i < |gens| && gens[i].0 == k && InDomain(gens[i].1, local[k]) {
      if k == gens[n].0 {
        assert 0 <= n < |gens| && gens[n].0 == k && InDomain(gens[n].1, local[k]);
      } else {
        var i :| 0 <= i < |init| && init[i].0 == k && InDomain(init[i].1, before[k]);
        assert gens[i] == init[i];
      }
    }
    forall i | 0 <= i < |gens| ensures gens[i].0 in local { assert i < n ==> gens[i] == init[i]; }
  }

  /** Every spec can be drawn. */
  lemma HasDraw(spec: Spec) returns (d: Def)
    ensures IsDraw(d, spec)
  {
    match spec
    case Derive(expr) => d := Derivation(expr);
    case Construct(expr, gens) =>
      var local := HasLocals(gens);
      d := Construction(expr, local);
    case Leaf(leaf) =>
      var v := LeafHasDraw(leaf);
      d := Drawn(v);
  }

  datatype Try = Resolved(v: Value) | Waiting | Failed

  method DrawLocals(gens: seq<(string, LeafSpec)>) returns (local: Namespace)
    ensures LocalDraws(local, gens)
  {
    local := map[];
    for i := 0 to |gens|
      invariant forall j :: 0 <= j < i ==> gens[j].0 in local
      invariant forall k :: k in local ==> exists j :: 0 <= j < i && gens[j].0 == k && InDomain(gens[j].1, local[k])
    {
      var v := SampleLeaf(gens[i].1);
      local := local[gens[i].0 := v];
    }
  }

  function Tried(o: Outcome): Try {
    match o
    case Val(v) => Resolved(v)
    case Unbound(_) => Waiting
    case Fault => Failed
  }

  /** `try_resolve`. `d` is the spec with the draws this try makes. */
  method TryResolve(spec: Spec, names: Namespace, prims: Primitives) returns (t: Try, ghost d: Def)
    ensures IsDraw(d, spec) && t == Tried(EvalDef(d, names, prims))
  {
    match spec {
      case Derive(expr) =>
        d := Derivation(expr);
        t := Tried(Eval(expr, names, prims));
      case Construct(expr, gens) =>
        var local := DrawLocals(gens);
        d := Construction(expr, local);
        t := Tried(Eval(expr, names + local, prims));
      case Leaf(leaf) =>
        var v := SampleLeaf(leaf);
        d := Drawn(v);
        t := Resolved(v);
    }
  }

  // ---- the order-free meaning of a set of definitions ----

  /** The namespace after resolving the names of `order` one after the other, if each can be when its turn comes. */
  ghost function Run(order: seq<string>, defs: Defs, initial: Namespace, prims: Primitives): Option<Namespace> {
    if order == [] then Some(initial)
    else
      var last := order[|order| - 1];
      match Run(order[..|order| - 1], defs, initial, prims)
      case None => None
      case Some(m) =>
        if last in m || last !in defs then None
        else match EvalDef(defs[last], m, prims) case Val(v) => Some(m[last := v]) case _ => None
  }

  ghost predicate Reached(m: Namespace, defs: Defs, initial: Namespace, prims: Primitives) {
    exists order :: Run(order, defs, initial, prims) == Some(m)
  }

  /** Some resolvable prefix runs into an evaluation error. */
  ghost predicate Faults(defs: Defs, initial: Namespace, prims: Primitives) {
    exists m, k :: Reached(m, defs, initial, prims) && k in defs && k !in m && EvalDef(defs[k], m, prims).Fault?
  }

  /** Nothing left can be resolved: every remaining name waits for a missing one. */
  ghost predicate Stuck(m: Namespace, defs: Defs, prims: Primitives) {
    forall k :: k in defs && k !in m ==> EvalDef(defs[k], m, prims).Unbound?
  }

  lemma {:induction false} RunProperties(order: seq<string>, defs: Defs, initial: Namespace, prims: Primitives)
    requires Run(order, defs, initial, prims).Some?
    ensures var m := Run(order, defs, initial, prims).value;
      && Extends(m, initial)
      && (forall k :: k in m ==> k in initial || k in defs)
      && (forall k :: k in m && k !in initial ==> EvalDef(defs[k], m, prims) == Val(m[k]))
  {
    if order != [] {
      var init, last := order[..|order| - 1], order[|order| - 1];
      RunProperties(init, defs, initial, prims);
      var before, after := Run(init, defs, initial, prims).value, Run(order, defs, initial, prims).value;
      forall k | k in after && k !in initial ensures EvalDef(defs[k], after, prims) == Val(after[k]) {
        DefWeakening(defs[k], before, after, prims);
      }
    }
  }

  /** Confluence: whatever can be resolved in one order is resolved, to the same value, by every order that gets
      stuck. */
  lemma {:induction false} Confluence(order: seq<string>, stuck: Namespace, defs: Defs, initial: Namespace,
                                      prims: Primitives)
    requires Run(order, defs, initial, prims).Some?
    requires Reached(stuck, defs, initial, prims) && Stuck(stuck, defs, prims)
    ensures Extends(stuck, Run(order, defs, initial, prims).value)
  {
    var other :| Run(other, defs, initial, prims) == Some(stuck);
    RunProperties(other, defs, initial, prims);
    if order != [] {
      var init, last := order[..|order| - 1], order[|order| - 1];
      Confluence(init, stuck, defs, initial, prims);
      RunProperties(init, defs, initial, prims);
      DefWeakening(defs[last], Run(init, defs, initial, prims).value, stuck, prims);
    }
  }

  /** An order that gets stuck without an error rules errors out for every order. */
  lemma StuckMeansNoFault(stuck: Namespace, defs: Defs, initial: Namespace, prims: Primitives)
    requires Reached(stuck, defs, initial, prims) && Stuck(stuck, defs, prims)
    ensures !Faults(defs, initial, prims)
  {
    var other :| Run(other, defs, initial, prims) == Some(stuck);
    RunProperties(other, defs, initial, prims);
    forall m, k | Reached(m, defs, initial, prims) && k in defs && k !in m ensures !EvalDef(defs[k], m, prims).Fault? {
      var order :| Run(order, defs, initial, prims) == Some(m);
      Confluence(order, stuck, defs, initial, prims);
      RunProperties(order, defs, initial, prims);
      if EvalDef(defs[k], m, prims).Fault? { DefWeakening(defs[k], m, stuck, prims); }
    }
  }

  lemma StuckUnique(m: Namespace, n: Namespace, defs: Defs, initial: Namespace, prims: Primitives)
    requires Reached(m, defs, initial, prims) && Stuck(m, defs, prims)
    requires Reached(n, defs, initial, prims) && Stuck(n, defs, prims)
    ensures m == n
  {
    var order :| Run(order, defs, initial, prims) == Some(m);
    var other :| Run(other, defs, initial, prims) == Some(n);
    Confluence(order, n, defs, initial, prims);
    Confluence(other, m, defs, initial, prims);
  }

  lemma RunOne(order: seq<string>, k: string, m: Namespace, v: Value, defs: Defs, initial: Namespace, prims: Primitives)
    requires Run(order, defs, initial, prims) == Some(m) && k in defs && k !in m && EvalDef(defs[k], m, prims) == Val(v)
    ensures Reached(m[k := v], defs, initial, prims)
  {
    var longer := order + [k];
    assert longer[..|longer| - 1] == order;
    assert Run(longer, defs, initial, prims) == Some(m[k := v]);
  }

  lemma {:induction false} GetsStuck(m: Namespace, defs: Defs, initial: Namespace, prims: Primitives)
    requires Reached(m, defs, initial, prims) && !Faults(defs, initial, prims)
    ensures exists stuck :: Reached(stuck, defs, initial, prims) && Stuck(stuck, defs, prims)
    decreases defs.Keys - m.Keys
  {
    if !Stuck(m, defs, prims) {
      var k :| k in defs && k !in m && !EvalDef(defs[k], m, prims).Unbound?;
      assert !EvalDef(defs[k], m, prims).Fault?;
      var order :| Run(order, defs, initial, prims) == Some(m);
      var v := EvalDef(defs[k], m, prims).v;
      RunOne(order, k, m, v, defs, initial, prims);
      assert defs.Keys - m[k := v].Keys == (defs.Keys - m.Keys) - {k};
      GetsStuck(m[k := v], defs, initial, prims);
    }
  }

  lemma InitialReached(defs: Defs, initial: Namespace, prims: Primitives)
    ensures Reached(initial, defs, initial, prims)
  {
    assert Run([], defs, initial, prims) == Some(initial);
  }

  /** The namespace every order ends in. */
  ghost function Closure(defs: Defs, initial: Namespace, prims: Primitives): (m: Namespace)
    requires !Faults(defs, initial, prims)
    ensures Reached(m, defs, initial, prims) && Stuck(m, defs, prims)
  {
    InitialReached(defs, initial, prims);
    GetsStuck(initial, defs, initial, prims);
    var m :| Reached(m, defs, initial, prims) && Stuck(m, defs, prims);
    m
  }

  /** What resolving `defs` against `initial` gives, whatever the order of the definitions. */
  ghost function ResolveOutcome(defs: Defs, initial: Namespace, prims: Primitives): Result<Namespace, ResolveError> {
    if Faults(defs, initial, prims) then Err(Raised)
    else
      var m := Closure(defs, initial, prims);
      if defs.Keys <= m.Keys then Ok(map k | k in defs :: m[k]) else Err(Unresolvable(defs.Keys - m.Keys))
  }

  /** Where some order gets stuck is where resolving ends. */
  lemma OutcomeOf(m: Namespace, defs: Defs, initial: Namespace, prims: Primitives)
    requires Reached(m, defs, initial, prims) && Stuck(m, defs, prims)
    ensures ResolveOutcome(defs, initial, prims) ==
              if defs.Keys <= m.Keys then Ok(map k | k in defs :: m[k]) else Err(Unresolvable(defs.Keys - m.Keys))
  {
    StuckMeansNoFault(m, defs, initial, prims);
    StuckUnique(m, Closure(defs, initial, prims), defs, initial, prims);
  }

  /** The definitions can be resolved in this order. */
  ghost predicate InOrder(order: seq<string>, defs: Defs, initial: Namespace, prims: Primitives) {
    Run(order, defs, initial, prims).Some? && defs.Keys <= Run(order, defs, initial, prims).value.Keys
  }

  /** Success means exactly that the definitions can be put in an order in which each only needs earlier ones. */
  lemma SucceedsIffOrderable(defs: Defs, initial: Namespace, prims: Primitives)
    ensures ResolveOutcome(defs, initial, prims).Ok? <==> exists order :: InOrder(order, defs, initial, prims)
  {
    if order :| InOrder(order, defs, initial, prims) {
      OutcomeOf(Run(order, defs, initial, prims).value, defs, initial, prims);
    }
    if ResolveOutcome(defs, initial, prims).Ok? {
      var m := Closure(defs, initial, prims);
      var order :| Run(order, defs, initial, prims) == Some(m);
      assert InOrder(order, defs, initial, prims);
    }
  }

  /** On success every definition holds in the final namespace. */
  lemma EquationsHold(defs: Defs, initial: Namespace, prims: Primitives)
    requires defs.Keys !! initial.Keys && ResolveOutcome(defs, initial, prims).Ok?
    ensures Holds(ResolveOutcome(defs, initial, prims).value, defs, initial, prims)
  {
    var m := Closure(defs, initial, prims);
    var order :| Run(order, defs, initial, prims) == Some(m);
    RunProperties(order, defs, initial, prims);
    Rejoined(m, initial, defs.Keys);
  }

  /** The values are the definitions' in the namespace they make up. */
  ghost predicate Holds(out: Namespace, defs: Defs, initial: Namespace, prims: Primitives) {
    out.Keys == defs.Keys && forall k :: k in defs ==> EvalDef(defs[k], initial + out, prims) == Val(out[k])
  }

  lemma Rejoined(m: Namespace, initial: Namespace, names: set<string>)
    requires m.Keys == initial.Keys + names && Extends(m, initial) && names !! initial.Keys
    ensures initial + (map k | k in names :: m[k]) == m
  {
  }

  /** The names reported as unresolvable are exactly those no order ever reaches, and each waits for a name that is
      undefined or itself unresolvable. */
  lemma UnresolvableNames(defs: Defs, initial: Namespace, prims: Primitives, k: string)
    requires defs.Keys !! initial.Keys && ResolveOutcome(defs, initial, prims).Err?
    requires ResolveOutcome(defs, initial, prims).error.Unresolvable?
    ensures var names := ResolveOutcome(defs, initial, prims).error.names;
      && (k in names <==> k in defs && forall m :: Reached(m, defs, initial, prims) ==> k !in m)
      && (k in names ==> var e := EvalDef(defs[k], Closure(defs, initial, prims), prims);
            e.Unbound? && e.name !in initial && (e.name in defs ==> e.name in names))
  {
    var closure := Closure(defs, initial, prims);
    var best :| Run(best, defs, initial, prims) == Some(closure);
    RunProperties(best, defs, initial, prims);
    if k in defs && k !in closure {
      DefUnbound(defs[k], closure, prims);
      forall m | Reached(m, defs, initial, prims) ensures k !in m {
        var order :| Run(order, defs, initial, prims) == Some(m);
        Confluence(order, closure, defs, initial, prims);
      }
    }
  }

  // ---- the resolver ----

  function PendingKeys(keys: seq<string>, initial: Namespace): seq<string> {
    if keys == [] then []
    else if keys[0] in initial then PendingKeys(keys[1..], initial)
    else [keys[0]] + PendingKeys(keys[1..], initial)
  }

  lemma {:induction false} PendingAre(keys: seq<string>, initial: Namespace)
    ensures forall k :: k in PendingKeys(keys, initial) <==> k in keys && k !in initial
    ensures NoDup(keys) ==> NoDup(PendingKeys(keys, initial))
  {
    if keys != [] { PendingAre(keys[1..], initial); }
  }

  // ---- the draws of a resolution ----

  /** Draws of some of the sizes to resolve. */
  ghost predicate SomeDraws(plan: Defs, fuzzed: Dict<Spec>, initial: Namespace) {
    forall k :: k in plan ==> k in fuzzed.at && k !in initial && IsDraw(plan[k], fuzzed.at[k])
  }

  /** Draws of all the sizes to resolve. */
  ghost predicate AllDraws(plan: Defs, fuzzed: Dict<Spec>, initial: Namespace) {
    SomeDraws(plan, fuzzed, initial) && forall k :: k in fuzzed.at && k !in initial ==> k in plan
  }

  ghost predicate MoreDefs(larger: Defs, smaller: Defs) {
    forall k :: k in smaller ==> k in larger && larger[k] == smaller[k]
  }

  lemma {:induction false} RunKeeps(order: seq<string>, smaller: Defs, larger: Defs, initial: Namespace,
                                    prims: Primitives)
    requires MoreDefs(larger, smaller) && Run(order, smaller, initial, prims).Some?
    ensures Run(order, larger, initial, prims) == Run(order, smaller, initial, prims)
  {
    if order != [] { RunKeeps(order[..|order| - 1], smaller, larger, initial, prims); }
  }

  /** More definitions reach and fault wherever fewer do. */
  lemma ReachedKeeps(m: Namespace, smaller: Defs, larger: Defs, initial: Namespace, prims: Primitives)
    requires MoreDefs(larger, smaller) && Reached(m, smaller, initial, prims)
    ensures Reached(m, larger, initial, prims)
  {
    var order :| Run(order, smaller, initial, prims) == Some(m);
    RunKeeps(order, smaller, larger, initial, prims);
  }

  lemma FaultsKeep(smaller: Defs, larger: Defs, initial: Namespace, prims: Primitives)
    requires MoreDefs(larger, smaller) && Faults(smaller, initial, prims)
    ensures Faults(larger, initial, prims)
  {
    var m, k :| Reached(m, smaller, initial, prims) && k in smaller && k !in m && EvalDef(smaller[k], m, prims).Fault?;
    ReachedKeeps(m, smaller, larger, initial, prims);
  }

  /** The draws made can be completed. */
  lemma {:induction false} Complete(plan: Defs, fuzzed: Dict<Spec>, initial: Namespace) returns (full: Defs)
    requires SomeDraws(plan, fuzzed, initial)
    ensures AllDraws(full, fuzzed, initial) && MoreDefs(full, plan)
    decreases fuzzed.at.Keys - plan.Keys
  {
    full := plan;
    if k :| k in fuzzed.at && k !in initial && k !in plan {
      var d := HasDraw(fuzzed.at[k]);
      assert fuzzed.at.Keys - plan[k := d].Keys == fuzzed.at.Keys - plan.Keys - {k};
      full := Complete(plan[k := d], fuzzed, initial);
    }
  }

  // ---- the passes ----

  /** `resolved` holds the initial names and those of `plan`, the draws made, resolved in some order; the other sizes
      are pending. */
  ghost predicate Progressed(resolved: Namespace, pending: seq<string>, plan: Defs, fuzzed: Dict<Spec>,
                             initial: Namespace, prims: Primitives) {
    && NoDup(pending) && SomeDraws(plan, fuzzed, initial)
    && (forall k :: k in pending <==> k in fuzzed.at && k !in initial && k !in plan)
    && Reached(resolved, plan, initial, prims) && resolved.Keys == initial.Keys + plan.Keys
  }

  lemma WithoutOne(kept: seq<string>, k: string, rest: seq<string>)
    requires NoDup(kept + [k] + rest)
    ensures NoDup(kept + rest) && forall x :: x in kept + rest <==> x in kept + [k] + rest && x != k
  {
    var before, after := kept + [k] + rest, kept + rest;
    forall i, j | 0 <= i < j < |after| ensures after[i] != after[j] {
      var i', j' := if i < |kept| then i else i + 1, if j < |kept| then j else j + 1;
      assert before[i'] == after[i] && before[j'] == after[j];
    }
    forall i | 0 <= i < |after| ensures after[i] != k {
      var i' := if i < |kept| then i else i + 1;
      assert before[i'] == after[i] && before[|kept|] == k;
    }
  }

  lemma ResolveOne(k: string, d: Def, resolved: Namespace, kept: seq<string>, rest: seq<string>, plan: Defs,
                   fuzzed: Dict<Spec>, initial: Namespace, prims: Primitives)
    requires Progressed(resolved, kept + [k] + rest, plan, fuzzed, initial, prims)
    requires k in fuzzed.at && IsDraw(d, fuzzed.at[k]) && EvalDef(d, resolved, prims).Val?
    ensures Progressed(resolved[k := EvalDef(d, resolved, prims).v], kept + rest, plan[k := d], fuzzed, initial, prims)
  {
    var v := EvalDef(d, resolved, prims).v;
    assert k in kept + [k] + rest;
    WithoutOne(kept, k, rest);
    ReachedWithOne(k, d, resolved, plan, initial, prims);
    OneMoreDraw(k, d, plan, fuzzed, initial);
    assert resolved[k := v].Keys == initial.Keys + plan[k := d].Keys;
  }

  lemma OneMoreDraw(k: string, d: Def, plan: Defs, fuzzed: Dict<Spec>, initial: Namespace)
    requires SomeDraws(plan, fuzzed, initial) && k in fuzzed.at && k !in initial && IsDraw(d, fuzzed.at[k])
    ensures SomeDraws(plan[k := d], fuzzed, initial)
  {
  }

  lemma ReachedWithOne(k: string, d: Def, resolved: Namespace, plan: Defs, initial: Namespace, prims: Primitives)
    requires k !in plan && k !in resolved && Reached(resolved, plan, initial, prims)
    requires EvalDef(d, resolved, prims).Val?
    ensures Reached(resolved[k := EvalDef(d, resolved, prims).v], plan[k := d], initial, prims)
  {
    ReachedKeeps(resolved, plan, plan[k := d], initial, prims);
    var order :| Run(order, plan[k := d], initial, prims) == Some(resolved);
    RunOne(order, k, resolved, EvalDef(d, resolved, prims).v, plan[k := d], initial, prims);
  }

  /** Every name of `kept` was tried with some draw and waits for a name that is missing. */
  ghost predicate AllWait(kept: seq<string>, tried: Defs, fuzzed: Dict<Spec>, names: Namespace, prims: Primitives) {
    forall k :: k in kept ==>
      k in tried && k in fuzzed.at && IsDraw(tried[k], fuzzed.at[k]) && EvalDef(tried[k], names, prims).Unbound?
  }

  lemma FaultFound(k: string, d: Def, resolved: Namespace, todo: seq<string>, plan: Defs, fuzzed: Dict<Spec>,
                   initial: Namespace, prims: Primitives)
    requires Progressed(resolved, todo, plan, fuzzed, initial, prims) && k in todo
    requires IsDraw(d, fuzzed.at[k]) && EvalDef(d, resolved, prims).Fault?
    ensures SomeDraws(plan[k := d], fuzzed, initial) && Faults(plan[k := d], initial, prims)
  {
    OneMoreDraw(k, d, plan, fuzzed, initial);
    ReachedKeeps(resolved, plan, plan[k := d], initial, prims);
  }

  /** Where a pass over `pending` stands: `kept` was tried and still waits, `rest` follows, and unless some name was
      resolved nothing has changed since the pass began. */
  ghost predicate Underway(kept: seq<string>, rest: seq<string>, tried: Defs, resolved: Namespace, plan: Defs,
                           progress: bool, pending: seq<string>, before: Namespace, fuzzed: Dict<Spec>,
                           initial: Namespace, prims: Primitives) {
    && Progressed(resolved, kept + rest, plan, fuzzed, initial, prims)
    && |kept| + |rest| <= |pending| && (progress ==> |kept| + |rest| < |pending|)
    && (!progress ==> kept + rest == pending && resolved == before && AllWait(kept, tried, fuzzed, before, prims))
  }

  lemma UnderwayAfterResolved(kept: seq<string>, name: string, d: Def, rest: seq<string>, tried: Defs,
                              resolved: Namespace, plan: Defs, progress: bool, pending: seq<string>, before: Namespace,
                              fuzzed: Dict<Spec>, initial: Namespace, prims: Primitives)
    requires Underway(kept, [name] + rest, tried, resolved, plan, progress, pending, before, fuzzed, initial, prims)
    requires name in fuzzed.at && IsDraw(d, fuzzed.at[name]) && EvalDef(d, resolved, prims).Val?
    ensures Underway(kept, rest, tried, resolved[name := EvalDef(d, resolved, prims).v], plan[name := d], true, pending,
                     before, fuzzed, initial, prims)
  {
    assert kept + ([name] + rest) == kept + [name] + rest;
    ResolveOne(name, d, resolved, kept, rest, plan, fuzzed, initial, prims);
  }

  lemma UnderwayAfterWaiting(kept: seq<string>, name: string, d: Def, rest: seq<string>, tried: Defs,
                             resolved: Namespace, plan: Defs, progress: bool, pending: seq<string>, before: Namespace,
                             fuzzed: Dict<Spec>, initial: Namespace, prims: Primitives)
    requires Underway(kept, [name] + rest, tried, resolved, plan, progress, pending, before, fuzzed, initial, prims)
    requires name in fuzzed.at && IsDraw(d, fuzzed.at[name]) && EvalDef(d, resolved, prims).Unbound?
    ensures Underway(kept + [name], rest, tried[name := d], resolved, plan, progress, pending, before, fuzzed, initial,
                     prims)
  {
    assert kept + ([name] + rest) == kept + [name] + rest;
    assert !progress ==> AllWait(kept + [name], tried[name := d], fuzzed, before, prims);
  }

  /** One pass over the pending names in order. `progress` says whether any was resolved. */
  method Pass(pending: seq<string>, before: Namespace, ghost drawn: Defs, fuzzed: Dict<Spec>, ghost initial: Namespace,
              prims: Primitives)
    returns (kept: seq<string>, resolved: Namespace, progress: bool, failed: bool, ghost plan: Defs, ghost tried: Defs)
    requires Progressed(before, pending, drawn, fuzzed, initial, prims)
    ensures !failed ==> Progressed(resolved, kept, plan, fuzzed, initial, prims)
    ensures !failed && progress ==> |kept| < |pending|
    ensures !failed && !progress ==> kept == pending && AllWait(kept, tried, fuzzed, resolved, prims)
    ensures failed ==> SomeDraws(plan, fuzzed, initial) && Faults(plan, initial, prims)
  {
    kept, resolved, progress, failed, plan, tried := [], before, false, false, drawn, map[];
    var rest := pending;
    PassStarts(pending, before, drawn, fuzzed, initial, prims);
    while rest != []
      invariant Underway(kept, rest, tried, resolved, plan, progress, pending, before, fuzzed, initial, prims)
    {
      var name, later := rest[0], rest[1..];
      assert rest == [name] + later;
      PendingIsKnown(kept, rest, resolved, plan, fuzzed, initial, prims);
      var t, d := TryResolve(fuzzed.at[name], resolved, prims);
      if t.Failed? {
        FaultFound(name, d, resolved, kept + rest, plan, fuzzed, initial, prims);
        failed, plan := true, plan[name := d];
        return;
      }
      if t.Resolved? {
        UnderwayAfterResolved(kept, name, d, later, tried, resolved, plan, progress, pending, before, fuzzed, initial,
                              prims);
        resolved, plan, progress := resolved[name := t.v], plan[name := d], true;
      } else {
        UnderwayAfterWaiting(kept, name, d, later, tried, resolved, plan, progress, pending, before, fuzzed, initial,
                             prims);
        kept, tried := kept + [name], tried[name := d];
      }
      rest := later;
    }
    PassEnds(kept, tried, resolved, plan, progress, pending, before, fuzzed, initial, prims);
  }

  lemma PassEnds(kept: seq<string>, tried: Defs, resolved: Namespace, plan: Defs, progress: bool, pending: seq<string>,
                 before: Namespace, fuzzed: Dict<Spec>, initial: Namespace, prims: Primitives)
    requires Underway(kept, [], tried, resolved, plan, progress, pending, before, fuzzed, initial, prims)
    ensures Progressed(resolved, kept, plan, fuzzed, initial, prims) && (progress ==> |kept| < |pending|)
    ensures !progress ==> kept == pending && AllWait(kept, tried, fuzzed, resolved, prims)
  {
    assert kept + [] == kept;
  }

  lemma PassStarts(pending: seq<string>, before: Namespace, drawn: Defs, fuzzed: Dict<Spec>, initial: Namespace,
                   prims: Primitives)
    requires Progressed(before, pending, drawn, fuzzed, initial, prims)
    ensures Underway([], pending, map[], before, drawn, false, pending, before, fuzzed, initial, prims)
  {
    assert [] + pending == pending;
  }

  lemma PendingIsKnown(kept: seq<string>, rest: seq<string>, resolved: Namespace, plan: Defs, fuzzed: Dict<Spec>,
                       initial: Namespace, prims: Primitives)
    requires rest != [] && Progressed(resolved, kept + rest, plan, fuzzed, initial, prims)
    ensures rest[0] in kept + rest && rest[0] in fuzzed.at && rest[0] !in initial
  {
    assert (kept + rest)[|kept|] == rest[0];
  }

  // ---- what resolving comes to ----

  /** The result is the order-free outcome of some draws of the sizes to resolve. */
  ghost predicate OutcomeOfDraws(r: Result<Namespace, ResolveError>, fuzzed: Dict<Spec>, initial: Namespace,
                                 prims: Primitives) {
    exists plan :: AllDraws(plan, fuzzed, initial) && r == ResolveOutcome(plan, initial, prims)
  }

  /** `resolve_sizes`: whatever the order of the passes, the result is decided by the draws alone. */
  method ResolveSizes(fuzzed: Dict<Spec>, initial: Namespace, prims: Primitives)
    returns (r: Result<Namespace, ResolveError>)
    requires fuzzed.Valid()
    ensures OutcomeOfDraws(r, fuzzed, initial, prims)
  {
    var resolved, pending, progress := initial, PendingKeys(fuzzed.keys, initial), true;
    ghost var plan: Defs, tried: Defs := map[], map[];
    PendingAre(fuzzed.keys, initial);
    InitialReached(plan, initial, prims);
    while pending != [] && progress
      invariant Progressed(resolved, pending, plan, fuzzed, initial, prims)
      invariant !progress ==> AllWait(pending, tried, fuzzed, resolved, prims)
      decreases |pending|, if progress then 1 else 0
    {
      var failed;
      pending, resolved, progress, failed, plan, tried := Pass(pending, resolved, plan, fuzzed, initial, prims);
      if failed {
        RaisedOfDraws(plan, fuzzed, initial, prims);
        return Err(Raised);
      }
    }
    Finished(resolved, pending, plan, tried, fuzzed, initial, prims);
    if pending != [] { return Err(Unresolvable(set k | k in pending)); }
    return Ok(map k | k in fuzzed.at && k !in initial :: resolved[k]);
  }

  lemma RaisedOfDraws(plan: Defs, fuzzed: Dict<Spec>, initial: Namespace, prims: Primitives)
    requires SomeDraws(plan, fuzzed, initial) && Faults(plan, initial, prims)
    ensures OutcomeOfDraws(Err(Raised), fuzzed, initial, prims)
  {
    var full := Complete(plan, fuzzed, initial);
    FaultsKeep(plan, full, initial, prims);
    assert ResolveOutcome(full, initial, prims) == Err(Raised);
  }

  lemma Finished(resolved: Namespace, pending: seq<string>, plan: Defs, tried: Defs, fuzzed: Dict<Spec>,
                 initial: Namespace, prims: Primitives)
    requires Progressed(resolved, pending, plan, fuzzed, initial, prims)
    requires AllWait(pending, tried, fuzzed, resolved, prims)
    ensures OutcomeOfDraws(if pending != [] then Err(Unresolvable(set k | k in pending))
                           else Ok(map k | k in fuzzed.at && k !in initial :: resolved[k]), fuzzed, initial, prims)
  {
    var full := FinalDraws(resolved, pending, plan, tried, fuzzed, initial, prims);
    OutcomeOf(resolved, full, initial, prims);
    assert full.Keys - resolved.Keys == set k | k in pending;
    if pending == [] {
      assert full.Keys <= resolved.Keys;
      SameValues(resolved, full, fuzzed, initial);
    } else {
      assert pending[0] in full.Keys - resolved.Keys;
    }
  }

  lemma SameValues(resolved: Namespace, full: Defs, fuzzed: Dict<Spec>, initial: Namespace)
    requires AllDraws(full, fuzzed, initial) && full.Keys <= resolved.Keys
    ensures (map k | k in full :: resolved[k]) == map k | k in fuzzed.at && k !in initial :: resolved[k]
  {
  }

  /** The draws that decide the result: those that resolved a size, and the last ones of those that wait. */
  lemma FinalDraws(resolved: Namespace, pending: seq<string>, plan: Defs, tried: Defs, fuzzed: Dict<Spec>,
                   initial: Namespace, prims: Primitives)
    returns (full: Defs)
    requires Progressed(resolved, pending, plan, fuzzed, initial, prims)
    requires AllWait(pending, tried, fuzzed, resolved, prims)
    ensures AllDraws(full, fuzzed, initial) && Reached(resolved, full, initial, prims) && Stuck(resolved, full, prims)
    ensures forall k :: k in pending <==> k in full && k !in resolved
  {
    full := plan + map k | k in pending && k in tried :: tried[k];
    assert MoreDefs(full, plan);
    ReachedKeeps(resolved, plan, full, initial, prims);
  }

  ghost predicate AllDerive(fuzzed: Dict<Spec>, initial: Namespace) {
    forall k :: k in fuzzed.at && k !in initial ==> fuzzed.at[k].Derive?
  }

  ghost function Definitions(fuzzed: Dict<Spec>, initial: Namespace): Defs {
    map k | k in fuzzed.at && k !in initial && fuzzed.at[k].Derive? :: Derivation(fuzzed.at[k].expr)
  }

  /** On derives alone there is nothing to draw, and one outcome. */
  lemma OneOutcome(r: Result<Namespace, ResolveError>, fuzzed: Dict<Spec>, initial: Namespace, prims: Primitives)
    requires AllDerive(fuzzed, initial) && OutcomeOfDraws(r, fuzzed, initial, prims)
    ensures r == ResolveOutcome(Definitions(fuzzed, initial), initial, prims)
  {
    var plan :| AllDraws(plan, fuzzed, initial) && r == ResolveOutcome(plan, initial, prims);
    OnlyDraws(plan, fuzzed, initial);
  }

  lemma OnlyDraws(plan: Defs, fuzzed: Dict<Spec>, initial: Namespace)
    requires AllDerive(fuzzed, initial) && AllDraws(plan, fuzzed, initial)
    ensures plan == Definitions(fuzzed, initial)
  {
  }

  lemma DrawExplains(d: Def, spec: Spec, v: Value, names: Namespace, prims: Primitives)
    requires IsDraw(d, spec) && EvalDef(d, names, prims) == Val(v)
    ensures Explains(spec, v, names, prims)
  {
  }

  /** What a successful resolution promises: every size has a value its spec explains in the final namespace. */
  lemma SolvesOnSuccess(out: Namespace, fuzzed: Dict<Spec>, initial: Namespace, prims: Primitives)
    requires OutcomeOfDraws(Ok(out), fuzzed, initial, prims)
    ensures out.Keys == fuzzed.at.Keys - initial.Keys
    ensures forall k :: k in out ==> Explains(fuzzed.at[k], out[k], initial + out, prims)
  {
    var plan :| AllDraws(plan, fuzzed, initial) && Ok(out) == ResolveOutcome(plan, initial, prims);
    EquationsHold(plan, initial, prims);
    DrawsSolve(plan, out, fuzzed, initial, prims);
  }

  lemma DrawsSolve(plan: Defs, out: Namespace, fuzzed: Dict<Spec>, initial: Namespace, prims: Primitives)
    requires AllDraws(plan, fuzzed, initial) && Holds(out, plan, initial, prims)
    ensures out.Keys == fuzzed.at.Keys - initial.Keys
    ensures forall k :: k in out ==> Explains(fuzzed.at[k], out[k], initial + out, prims)
  {
    forall k | k in out ensures Explains(fuzzed.at[k], out[k], initial + out, prims) {
      DrawExplains(plan[k], fuzzed.at[k], out[k], initial + out, prims);
    }
  }
}
