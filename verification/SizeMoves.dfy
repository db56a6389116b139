/** Moving the free sizes of a draw into a structural class (`apply_size_class` of `fuzz.py`). */
module SizeMoves {
  import opened Outcomes
  import opened Orders
  import opened Expressions
  import opened SmoothSizes
  import opened Resolve

  datatype MoveError = ResolveFailed(error: ResolveError) | ConstraintRaised

  predicate HasRange(spec: Spec) {
    spec.Leaf? && (spec.leaf.Interval? || spec.leaf.SmoothInterval?)
  }

  function SmoothBound(leaf: LeafSpec): Option<int> {
    if leaf.SmoothInterval? then Some(leaf.bound) else None
  }

  /** `all(safe_eval(c, names) for c in constraints)`: None when an evaluation raises. */
  function AllHold(constraints: seq<Expr>, names: Namespace, prims: Primitives): Option<bool> {
    if constraints == [] then Some(true)
    else
      match Eval(constraints[0], names, prims)
      case Val(v) => if Truthy(v) then AllHold(constraints[1..], names, prims) else Some(false)
      case _ => None
  }

  /** A free size that is not in the class yet and has room to move. */
  predicate Movable(out: Namespace, name: string, spec: Spec, c: SizeClass) {
    HasRange(spec) && name in out && out[name].IntV? && !InClass(out[name].n, c) && spec.leaf.lo < spec.leaf.hi
  }

  /** What `snap_to_class` answers for a size with this range. */
  ghost predicate Snaps(r: Option<int>, value: int, leaf: LeafSpec, c: SizeClass)
    requires leaf.Interval? || leaf.SmoothInterval?
  {
    SnapsToClass(r, value, c, leaf.lo, leaf.hi, SmoothBound(leaf))
  }

  ghost function DerivedDefs(fuzzed: Dict<Spec>): Defs {
    map k | k in fuzzed.at && fuzzed.at[k].Derive? :: Derivation(fuzzed.at[k].expr)
  }

  /** The draw with `name` moved and everything derived dropped. */
  function Base(out: Namespace, name: string, size: int, derived: set<string>): Namespace {
    (out - derived)[name := IntV(size)]
  }

  ghost function Trial(out: Namespace, name: string, size: int, defs: Defs,
                       prims: Primitives): Result<Namespace, ResolveError> {
    var base := Base(out, name, size, defs.Keys);
    match ResolveOutcome(defs, base, prims)
    case Ok(d) => Ok(base + d)
    case Err(e) => Err(e)
  }

  /** One name's turn, when nothing raises. */
  ghost predicate Turn(out: Namespace, name: string, spec: Spec, c: SizeClass, defs: Defs, constraints: seq<Expr>,
                       prims: Primitives, next: Namespace)
  {
    if !Movable(out, name, spec, c) then next == out
    else exists r :: Snaps(r, out[name].n, spec.leaf, c) &&
           if r.None? then next == out
           else
             var trial := Trial(out, name, r.value, defs, prims);
             trial.Ok? && AllHold(constraints, trial.value, prims).Some? &&
             next == if AllHold(constraints, trial.value, prims).value then trial.value else out
  }

  ghost predicate TrialRaises(trial: Result<Namespace, ResolveError>, constraints: seq<Expr>, prims: Primitives) {
    trial.Err? || AllHold(constraints, trial.value, prims).None?
  }

  /** One name's turn, when it raises: the nearest member's derives do not resolve or a constraint does not evaluate. */
  ghost predicate TurnRaises(out: Namespace, name: string, spec: Spec, c: SizeClass, defs: Defs, constraints: seq<Expr>,
                             prims: Primitives) {
    Movable(out, name, spec, c) &&
    exists size :: Snaps(Some(size), out[name].n, spec.leaf, c) &&
      TrialRaises(Trial(out, name, size, defs, prims), constraints, prims)
  }

  /** The turn of the `i`-th name, in dict order. */
  ghost predicate TurnAt(trace: seq<Namespace>, i: nat, fuzzed: Dict<Spec>, c: SizeClass, constraints: seq<Expr>,
                         prims: Primitives)
    requires i + 1 < |trace| && i < |fuzzed.keys|
  {
    var name := fuzzed.keys[i];
    name in fuzzed.at && Turn(trace[i], name, fuzzed.at[name], c, DerivedDefs(fuzzed), constraints, prims, trace[i + 1])
  }

  /** The draws after each name's turn. */
  ghost predicate Turns(trace: seq<Namespace>, fuzzed: Dict<Spec>, c: SizeClass, constraints: seq<Expr>,
                        prims: Primitives) {
    && 1 <= |trace| <= |fuzzed.keys| + 1
    && forall i :: 0 <= i < |trace| - 1 ==> TurnAt(trace, i, fuzzed, c, constraints, prims)
  }

  // ---- the operation ----

  function DeriveKeys(keys: seq<string>, at: map<string, Spec>): seq<string> {
    if keys == [] then []
    else if keys[0] in at && at[keys[0]].Derive? then [keys[0]] + DeriveKeys(keys[1..], at)
    else DeriveKeys(keys[1..], at)
  }

  lemma {:induction false} DeriveKeysAre(keys: seq<string>, at: map<string, Spec>)
    ensures forall k :: k in DeriveKeys(keys, at) <==> k in keys && k in at && at[k].Derive?
    ensures NoDup(keys) ==> NoDup(DeriveKeys(keys, at))
  {
    if keys != [] { DeriveKeysAre(keys[1..], at); }
  }

  function Derived(fuzzed: Dict<Spec>): Dict<Spec> {
    Dict(DeriveKeys(fuzzed.keys, fuzzed.at), map k | k in fuzzed.at && fuzzed.at[k].Derive? :: fuzzed.at[k])
  }

  lemma DerivedIsDict(fuzzed: Dict<Spec>, initial: Namespace)
    requires fuzzed.Valid()
    ensures Derived(fuzzed).Valid() && AllDerive(Derived(fuzzed), initial)
    ensures initial.Keys !! DerivedDefs(fuzzed).Keys ==> Definitions(Derived(fuzzed), initial) == DerivedDefs(fuzzed)
  {
    DeriveKeysAre(fuzzed.keys, fuzzed.at);
  }

  method MoveOne(out: Namespace, name: string, fuzzed: Dict<Spec>, c: SizeClass, constraints: seq<Expr>,
                 prims: Primitives)
    returns (r: Result<Namespace, MoveError>)
    requires fuzzed.Valid() && name in fuzzed.at
    ensures r.Ok? ==> Turn(out, name, fuzzed.at[name], c, DerivedDefs(fuzzed), constraints, prims, r.value)
    ensures r.Err? ==> TurnRaises(out, name, fuzzed.at[name], c, DerivedDefs(fuzzed), constraints, prims)
  {
    var spec := fuzzed.at[name];
    if !Movable(out, name, spec, c) { return Ok(out); }
    var snapped := SnapToClass(out[name].n, c, spec.leaf.lo, spec.leaf.hi, SmoothBound(spec.leaf));
    assert Snaps(snapped, out[name].n, spec.leaf, c);
    if snapped.None? { return Ok(out); }
    var trial := TryMove(out, name, snapped.value, fuzzed, prims);
    assert snapped == Some(snapped.value);
    match trial {
      case Err(e) => return Err(ResolveFailed(e));
      case Ok(moved) =>
        var hold := AllHold(constraints, moved, prims);
        if hold.None? { return Err(ConstraintRaised); }
        return Ok(if hold.value then moved else out);
    }
  }

  /** The draw with one size moved and the derives recomputed. */
  method TryMove(out: Namespace, name: string, size: int, fuzzed: Dict<Spec>, prims: Primitives)
    returns (r: Result<Namespace, ResolveError>)
    requires fuzzed.Valid() && name in fuzzed.at && !fuzzed.at[name].Derive?
    ensures r == Trial(out, name, size, DerivedDefs(fuzzed), prims)
  {
    var derived := Derived(fuzzed);
    var base := Base(out, name, size, derived.at.Keys);
    DerivedIsDict(fuzzed, base);
    assert derived.at.Keys == DerivedDefs(fuzzed).Keys;
    r := ResolveSizes(derived, base, prims);
    OneOutcome(r, derived, base, prims);
    if r.Ok? { r := Ok(base + r.value); }
  }

  lemma ExtendTurns(trace: seq<Namespace>, next: Namespace, fuzzed: Dict<Spec>, c: SizeClass, constraints: seq<Expr>,
                    prims: Primitives)
    requires Turns(trace, fuzzed, c, constraints, prims) && |trace| <= |fuzzed.keys|
    requires fuzzed.keys[|trace| - 1] in fuzzed.at
    requires var name := fuzzed.keys[|trace| - 1];
      Turn(trace[|trace| - 1], name, fuzzed.at[name], c, DerivedDefs(fuzzed), constraints, prims, next)
    ensures Turns(trace + [next], fuzzed, c, constraints, prims)
  {
    var longer := trace + [next];
    forall i | 0 <= i < |longer| - 1 ensures TurnAt(longer, i, fuzzed, c, constraints, prims) {
      if i < |trace| - 1 { assert TurnAt(trace, i, fuzzed, c, constraints, prims); }
    }
  }

  /** The turns from the draw on end in this result: after every name's turn, or in the turn that raises. */
  ghost predicate EndsIn(trace: seq<Namespace>, r: Result<Namespace, MoveError>, fuzzed: Dict<Spec>, drawn: Namespace,
                         c: SizeClass, constraints: seq<Expr>, prims: Primitives)
  {
    && Turns(trace, fuzzed, c, constraints, prims) && trace[0] == drawn
    && match r
       case Ok(sample) => |trace| == |fuzzed.keys| + 1 && sample == trace[|trace| - 1]
       case Err(_) =>
         && |trace| <= |fuzzed.keys| && fuzzed.keys[|trace| - 1] in fuzzed.at
         && var name := fuzzed.keys[|trace| - 1];
            TurnRaises(trace[|trace| - 1], name, fuzzed.at[name], c, DerivedDefs(fuzzed), constraints, prims)
  }

  method ApplySizeClass(fuzzed: Dict<Spec>, drawn: Namespace, c: SizeClass, constraints: seq<Expr>, prims: Primitives)
    returns (r: Result<Namespace, MoveError>)
    requires fuzzed.Valid()
    ensures exists trace :: EndsIn(trace, r, fuzzed, drawn, c, constraints, prims)
  {
    var out := drawn;
    ghost var trace := [drawn];
    for i := 0 to |fuzzed.keys|
      invariant Turns(trace, fuzzed, c, constraints, prims) && |trace| == i + 1 && trace[0] == drawn && out == trace[i]
    {
      assert fuzzed.keys[i] in fuzzed.keys;
      var moved := MoveOne(out, fuzzed.keys[i], fuzzed, c, constraints, prims);
      if moved.Err? {
        assert EndsIn(trace, Err(moved.error), fuzzed, drawn, c, constraints, prims);
        return Err(moved.error);
      }
      out := moved.value;
      ExtendTurns(trace, out, fuzzed, c, constraints, prims);
      trace := trace + [out];
    }
    r := Ok(out);
    assert EndsIn(trace, r, fuzzed, drawn, c, constraints, prims);
  }

  // ---- what a run guarantees ----

  ghost predicate DerivesHold(names: Namespace, defs: Defs, prims: Primitives) {
    forall k :: k in defs ==> k in names && EvalDef(defs[k], names, prims) == Val(names[k])
  }

  lemma TrialHolds(out: Namespace, name: string, size: int, defs: Defs, prims: Primitives)
    requires name !in defs && Trial(out, name, size, defs, prims).Ok?
    ensures var trial := Trial(out, name, size, defs, prims).value;
      && DerivesHold(trial, defs, prims) && trial[name] == IntV(size)
      && trial.Keys == out.Keys + {name} + defs.Keys
      && forall k :: k in out && k != name && k !in defs ==> trial[k] == out[k]
  {
    EquationsHold(defs, Base(out, name, size, defs.Keys), prims);
  }

  /** A size in the class, inside its interval and as smooth as its interval asks. */
  ghost predicate WellMoved(v: Value, leaf: LeafSpec, c: SizeClass)
    requires leaf.Interval? || leaf.SmoothInterval?
  {
    v.IntV? && InClass(v.n, c) && leaf.lo <= v.n <= leaf.hi && (leaf.SmoothInterval? ==> Smooth(v.n, leaf.bound))
  }

  /** What one turn does: nothing, or it moves its own name well, meets the constraints and the derive equations, and
      touches nothing but derived names besides. */
  ghost predicate Effect(out: Namespace, name: string, spec: Spec, c: SizeClass, defs: Defs, constraints: seq<Expr>,
                         prims: Primitives, next: Namespace)
  {
    next == out ||
    (Movable(out, name, spec, c) && name in next && WellMoved(next[name], spec.leaf, c) &&
     AllHold(constraints, next, prims) == Some(true) && DerivesHold(next, defs, prims) &&
     next.Keys == out.Keys + defs.Keys && forall k :: k in out && k != name && k !in defs ==> next[k] == out[k])
  }

  lemma SnapIsWellMoved(size: int, value: int, leaf: LeafSpec, c: SizeClass)
    requires leaf.Interval? || leaf.SmoothInterval?
    requires Snaps(Some(size), value, leaf, c)
    ensures WellMoved(IntV(size), leaf, c)
  {
  }

  /** The turn moved the name to this size: the nearest member, whose derives resolve and which breaks no constraint. */
  ghost predicate MovedTo(size: int, out: Namespace, name: string, spec: Spec, c: SizeClass, defs: Defs,
                          constraints: seq<Expr>, prims: Primitives, next: Namespace)
  {
    Movable(out, name, spec, c) && Snaps(Some(size), out[name].n, spec.leaf, c) &&
    Trial(out, name, size, defs, prims) == Ok(next) && AllHold(constraints, next, prims) == Some(true)
  }

  lemma TurnMoves(out: Namespace, name: string, spec: Spec, c: SizeClass, defs: Defs, constraints: seq<Expr>,
                  prims: Primitives, next: Namespace)
    requires Turn(out, name, spec, c, defs, constraints, prims, next) && next != out
    ensures exists size :: MovedTo(size, out, name, spec, c, defs, constraints, prims, next)
  {
    var r :| Snaps(r, out[name].n, spec.leaf, c) && r.Some? && Trial(out, name, r.value, defs, prims).Ok? &&
      next == Trial(out, name, r.value, defs, prims).value && AllHold(constraints, next, prims) == Some(true);
    assert MovedTo(r.value, out, name, spec, c, defs, constraints, prims, next);
  }

  lemma MovedHasEffect(size: int, out: Namespace, name: string, spec: Spec, c: SizeClass, defs: Defs,
                       constraints: seq<Expr>, prims: Primitives, next: Namespace)
    requires MovedTo(size, out, name, spec, c, defs, constraints, prims, next) && name !in defs
    ensures Effect(out, name, spec, c, defs, constraints, prims, next)
  {
    SnapIsWellMoved(size, out[name].n, spec.leaf, c);
    TrialHolds(out, name, size, defs, prims);
    assert out.Keys + {name} == out.Keys;
  }

  lemma TurnEffect(out: Namespace, name: string, spec: Spec, c: SizeClass, defs: Defs, constraints: seq<Expr>,
                   prims: Primitives, next: Namespace)
    requires Turn(out, name, spec, c, defs, constraints, prims, next) && (name in defs ==> spec.Derive?)
    ensures Effect(out, name, spec, c, defs, constraints, prims, next)
  {
    if next != out {
      TurnMoves(out, name, spec, c, defs, constraints, prims, next);
      var size :| MovedTo(size, out, name, spec, c, defs, constraints, prims, next);
      MovedHasEffect(size, out, name, spec, c, defs, constraints, prims, next);
    }
  }

  lemma EffectAt(trace: seq<Namespace>, fuzzed: Dict<Spec>, c: SizeClass, constraints: seq<Expr>, prims: Primitives,
                 i: nat)
    requires Turns(trace, fuzzed, c, constraints, prims) && i + 1 < |trace|
    ensures fuzzed.keys[i] in fuzzed.at
    ensures Effect(trace[i], fuzzed.keys[i], fuzzed.at[fuzzed.keys[i]], c, DerivedDefs(fuzzed), constraints, prims,
                   trace[i + 1])
  {
    assert TurnAt(trace, i, fuzzed, c, constraints, prims);
    TurnEffect(trace[i], fuzzed.keys[i], fuzzed.at[fuzzed.keys[i]], c, DerivedDefs(fuzzed), constraints, prims,
               trace[i + 1]);
  }

  /** After any number of turns the sample is the draw itself, or meets every constraint and every derive equation. */
  lemma {:induction false} MovedSampleIsValid(trace: seq<Namespace>, fuzzed: Dict<Spec>, c: SizeClass,
                                              constraints: seq<Expr>, prims: Primitives, n: nat)
    requires Turns(trace, fuzzed, c, constraints, prims) && n < |trace|
    ensures trace[n] == trace[0] ||
            (AllHold(constraints, trace[n], prims) == Some(true) && DerivesHold(trace[n], DerivedDefs(fuzzed), prims))
  {
    if n > 0 {
      MovedSampleIsValid(trace, fuzzed, c, constraints, prims, n - 1);
      EffectAt(trace, fuzzed, c, constraints, prims, n - 1);
    }
  }

  /** A free size ends as drawn or well moved; once in the class it never moves again, and names that are neither free
      nor derived never change. */
  lemma {:induction false} SizesStayMoved(trace: seq<Namespace>, fuzzed: Dict<Spec>, c: SizeClass,
                                          constraints: seq<Expr>, prims: Primitives, k: string, from: nat, n: nat)
    requires Turns(trace, fuzzed, c, constraints, prims) && from <= n < |trace|
    requires k in trace[from] && !(k in fuzzed.at && fuzzed.at[k].Derive?)
    ensures k in trace[n]
    ensures trace[n][k] == trace[from][k] ||
            (k in fuzzed.at && HasRange(fuzzed.at[k]) && WellMoved(trace[n][k], fuzzed.at[k].leaf, c))
    ensures trace[from][k].IntV? && InClass(trace[from][k].n, c) ==> trace[n][k] == trace[from][k]
  {
    if from < n {
      SizesStayMoved(trace, fuzzed, c, constraints, prims, k, from, n - 1);
      EffectAt(trace, fuzzed, c, constraints, prims, n - 1);
    }
  }

  /** No member of the class is found for a size: there is none, or the draw misses those there are. */
  ghost predicate OutOfReach(value: int, leaf: LeafSpec, c: SizeClass)
    requires leaf.Interval? || leaf.SmoothInterval?
  {
    if leaf.Interval? then ClassMembers(c, leaf.lo, leaf.hi) == iset{} || Missed(value, c, leaf.lo, leaf.hi)
    else SmoothMembers(c, leaf.lo, leaf.hi, leaf.bound) == iset{}
  }

  /** A turn passes a movable size by only for want of a class member in reach or because the constraints refuse the
      nearest one. */
  lemma UnmovedForAReason(out: Namespace, name: string, spec: Spec, c: SizeClass, defs: Defs, constraints: seq<Expr>,
                          prims: Primitives)
    requires Turn(out, name, spec, c, defs, constraints, prims, out) && Movable(out, name, spec, c) && name !in defs
    ensures OutOfReach(out[name].n, spec.leaf, c) ||
            exists size :: Snaps(Some(size), out[name].n, spec.leaf, c) && Trial(out, name, size, defs, prims).Ok? &&
                           AllHold(constraints, Trial(out, name, size, defs, prims).value, prims) == Some(false)
  {
    var r :| Snaps(r, out[name].n, spec.leaf, c) && (r.Some? ==>
      Trial(out, name, r.value, defs, prims).Ok? &&
      AllHold(constraints, Trial(out, name, r.value, defs, prims).value, prims).Some? &&
      out == if AllHold(constraints, Trial(out, name, r.value, defs, prims).value, prims).value
             then Trial(out, name, r.value, defs, prims).value else out);
    if r.Some? && AllHold(constraints, Trial(out, name, r.value, defs, prims).value, prims).value {
      TrialHolds(out, name, r.value, defs, prims);
      assert false;
    }
    assert r.Some? ==> r == Some(r.value);
    if r.None? && spec.leaf.Interval? { SearchIsExact(r, out[name].n, c, spec.leaf.lo, spec.leaf.hi); }
  }
}
