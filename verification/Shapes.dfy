/** Array shapes: the strict shape parser of `initialize.py`, the byte count of `sizing.py`, and why they agree. */
module Shapes {
  import opened Outcomes
  import opened Expressions

  type Symbols = map<string, int>

  /** `evalnode` of `parse_shape`: one integer dimension; None where it raises. */
  function EvalDim(e: Expr, symbols: Symbols): (v: Option<Value>)
    ensures v.Some? ==> IsWhole(v.value)
  {
    match e
    case Const(value) => if IsWhole(value) then Some(value) else None
    case Name(id) => if id in symbols then Some(IntV(symbols[id])) else None
    case Bin(op, left, right) =>
      (match (EvalDim(left, symbols), EvalDim(right, symbols))
       case (Some(l), Some(r)) => DimBinOp(op, AsInt(l), AsInt(r))
       case _ => None)
    case Unary(op, operand) =>
      if !op.Neg? then None
      else (match EvalDim(operand, symbols) case Some(v) => Some(IntV(-AsInt(v))) case None => None)
    case _ => None
  }

  /** `binop` of `initialize.py`: integer arithmetic only. */
  function DimBinOp(op: BinOp, l: int, r: int): (v: Option<Value>)
    ensures v.Some? ==> v.value.IntV?
  {
    match op
    case Add => Some(IntV(l + r))
    case Sub => Some(IntV(l - r))
    case Mult => Some(IntV(l * r))
    case FloorDiv => if r == 0 then None else Some(IntV(FloorDivide(l, r)))
    case Mod => if r == 0 then None else Some(IntV(FloorMod(l, r)))
    case _ => None
  }

  function EvalDims(elts: seq<Expr>, symbols: Symbols): (dims: Option<seq<Value>>)
    ensures dims.Some? ==> |dims.value| == |elts| && forall i :: 0 <= i < |elts| ==> IsWhole(dims.value[i])
  {
    if elts == [] then Some([])
    else
      match (EvalDim(elts[0], symbols), EvalDims(elts[1..], symbols))
      case (Some(v), Some(rest)) => Some([v] + rest)
      case _ => None
  }

  /** `parse_shape`: a tuple of dimensions, or one dimension. */
  function ParseShape(e: Expr, symbols: Symbols): (dims: Option<seq<Value>>)
    ensures dims.Some? ==> forall i :: 0 <= i < |dims.value| ==> IsWhole(dims.value[i])
  {
    if e.Tuple? then EvalDims(e.elts, symbols)
    else match EvalDim(e, symbols) case Some(v) => Some([v]) case None => None
  }

  /** `integer_dims`: the extents of an evaluated shape, a scalar being a rank-1 shape. */
  function IntegerDims(shape: Value): Option<seq<int>> {
    TruncateAll(if shape.ListV? then shape.items else [shape])
  }

  /** `int(real_of(d))` for every extent; None when one is not a number (a bool is not one here). */
  function TruncateAll(dims: seq<Value>): Option<seq<int>> {
    if dims == [] then Some([])
    else if !dims[0].IntV? && !dims[0].FloatV? then None
    else
      match TruncateAll(dims[1..])
      case None => None
      case Some(rest) => Some([if dims[0].IntV? then dims[0].n else Truncate(dims[0].x)] + rest)
  }

  function AsInts(dims: seq<Value>): (ints: seq<int>)
    requires forall i :: 0 <= i < |dims| ==> IsWhole(dims[i])
    ensures |ints| == |dims|
  {
    if dims == [] then [] else [AsInt(dims[0])] + AsInts(dims[1..])
  }

  /** The namespace binds every size symbol to its integer. */
  ghost predicate Binds(names: Namespace, symbols: Symbols) {
    forall k :: k in symbols ==> k in names && names[k] == IntV(symbols[k])
  }

  /** Wherever the strict parser succeeds the general evaluator gives the very same value. */
  lemma {:induction false} DimsAgree(e: Expr, symbols: Symbols, names: Namespace, prims: Primitives)
    requires Binds(names, symbols) && EvalDim(e, symbols).Some?
    ensures Eval(e, names, prims) == Val(EvalDim(e, symbols).value)
  {
    match e
    case Const(_) =>
    case Name(_) =>
    case Bin(op, left, right) =>
      DimsAgree(left, symbols, names, prims);
      DimsAgree(right, symbols, names, prims);
    case Unary(_, operand) => DimsAgree(operand, symbols, names, prims);
  }

  lemma {:induction false} AllDimsAgree(elts: seq<Expr>, symbols: Symbols, names: Namespace, prims: Primitives)
    requires Binds(names, symbols) && EvalDims(elts, symbols).Some?
    ensures EvalEach(elts, names, prims) == Vals(EvalDims(elts, symbols).value)
  {
    if elts != [] {
      DimsAgree(elts[0], symbols, names, prims);
      AllDimsAgree(elts[1..], symbols, names, prims);
    }
  }

  predicate BareBool(e: Expr) { e.Const? && e.value.BoolV? }

  ghost predicate BareAmong(dims: seq<Expr>) { exists i :: 0 <= i < |dims| && BareBool(dims[i]) }

  /** Some dimension of a shape is a bare bool. */
  ghost predicate HasBareBool(shape: Expr) { BareAmong(if shape.Tuple? then shape.elts else [shape]) }

  predicate SomeBool(dims: seq<Value>) { dims != [] && (dims[0].BoolV? || SomeBool(dims[1..])) }

  lemma {:induction false} TruncatesUnlessBool(dims: seq<Value>)
    requires forall i :: 0 <= i < |dims| ==> IsWhole(dims[i])
    ensures TruncateAll(dims) == if SomeBool(dims) then None else Some(AsInts(dims))
  {
    if dims != [] { TruncatesUnlessBool(dims[1..]); }
  }

  lemma {:induction false} BoolDimsAreBare(elts: seq<Expr>, symbols: Symbols)
    requires EvalDims(elts, symbols).Some?
    ensures SomeBool(EvalDims(elts, symbols).value) <==> BareAmong(elts)
  {
    if elts != [] {
      BoolDimsAreBare(elts[1..], symbols);
      BareAmongStep(elts);
      var first, rest := EvalDim(elts[0], symbols).value, EvalDims(elts[1..], symbols).value;
      assert ([first] + rest)[1..] == rest;
    }
  }

  lemma BareAmongStep(elts: seq<Expr>)
    requires elts != []
    ensures BareAmong(elts) <==> BareBool(elts[0]) || BareAmong(elts[1..])
  {
    if i :| 0 <= i < |elts[1..]| && BareBool(elts[1..][i]) { assert BareBool(elts[i + 1]); }
    if i :| 0 <= i < |elts| && BareBool(elts[i]) {
      if i > 0 { assert BareBool(elts[1..][i - 1]); }
    }
  }

  /** The byte counter reads the very dimensions the initializer allocates, exactly when no dimension is a bare bool
      (which the parser takes for a number and the byte counter refuses). */
  lemma ShapesAgree(e: Expr, symbols: Symbols, names: Namespace, prims: Primitives)
    requires Binds(names, symbols) && ParseShape(e, symbols).Some?
    ensures Eval(e, names, prims).Val?
    ensures IntegerDims(Eval(e, names, prims).v) ==
              if HasBareBool(e) then None else Some(AsInts(ParseShape(e, symbols).value))
  {
    TruncatesUnlessBool(ParseShape(e, symbols).value);
    if e.Tuple? {
      AllDimsAgree(e.elts, symbols, names, prims);
      BoolDimsAreBare(e.elts, symbols);
    } else {
      DimsAgree(e, symbols, names, prims);
      BareAmongStep([e]);
      assert EvalDim(e, symbols).value.BoolV? <==> BareBool(e);
    }
  }

  /** The parser accepts `True` as a dimension, the byte counter does not. */
  lemma BareBoolDisagrees(names: Namespace, prims: Primitives)
    ensures var e := Const(BoolV(true));
      ParseShape(e, map[]) == Some([BoolV(true)]) && Eval(e, names, prims) == Val(BoolV(true)) &&
        IntegerDims(BoolV(true)) == None
  {
  }

  // ---- bytes ----

  datatype Array = Array(name: string, shape: Expr, width: nat)

  function Product(dims: seq<int>): int {
    if dims == [] then 1 else dims[0] * Product(dims[1..])
  }

  function Plus(a: Option<int>, b: Option<int>): Option<int> {
    if a.Some? && b.Some? then Some(a.value + b.value) else None
  }

  /** The bytes the initializer allocates for an array; None when its shape does not parse. */
  ghost function AllocatedFor(a: Array, symbols: Symbols): Option<int> {
    match ParseShape(a.shape, symbols)
    case None => None
    case Some(dims) => Some(Product(AsInts(dims)) * a.width)
  }

  ghost function AllocatedBytes(arrays: seq<Array>, symbols: Symbols): Option<int> {
    if arrays == [] then Some(0)
    else Plus(AllocatedBytes(arrays[..|arrays| - 1], symbols), AllocatedFor(arrays[|arrays| - 1], symbols))
  }

  /** An array's bytes as `safe_eval` and `integer_dims` see them; None when the shape does not resolve. */
  function BytesFor(a: Array, names: Namespace, prims: Primitives): Option<int> {
    var shape := Eval(a.shape, names, prims);
    if !shape.Val? then None
    else
      match IntegerDims(shape.v)
      case None => None
      case Some(dims) => Some(Product(dims) * a.width)
  }

  ghost function DeclaredBytes(arrays: seq<Array>, names: Namespace, prims: Primitives): Option<int> {
    if arrays == [] then Some(0)
    else Plus(DeclaredBytes(arrays[..|arrays| - 1], names, prims), BytesFor(arrays[|arrays| - 1], names, prims))
  }

  /** Whether the sum is asked to count an array: every one when no names are given. */
  predicate Counts(name: string, wanted: Option<set<string>>) { wanted.None? || name in wanted.value }

  ghost function Counted(arrays: seq<Array>, wanted: Option<set<string>>): seq<Array> {
    if arrays == [] then []
    else
      var before, last := Counted(arrays[..|arrays| - 1], wanted), arrays[|arrays| - 1];
      if Counts(last.name, wanted) then before + [last] else before
  }

  /** The bytes counted among the first `n` arrays, and whether any array is counted there. */
  ghost function CountedBytes(arrays: seq<Array>, n: nat, wanted: Option<set<string>>, names: Namespace,
                              prims: Primitives): Option<int>
    requires n <= |arrays|
  {
    DeclaredBytes(Counted(arrays[..n], wanted), names, prims)
  }

  ghost predicate AnyCounted(arrays: seq<Array>, n: nat, wanted: Option<set<string>>)
    requires n <= |arrays|
  {
    Counted(arrays[..n], wanted) != []
  }

  /** Nothing to charge: no array is declared, or names are asked for and none of them is. */
  ghost predicate NothingDeclared(arrays: seq<Array>, wanted: Option<set<string>>) {
    arrays == [] || (wanted.Some? && wanted.value != {} && Counted(arrays, wanted) == [])
  }

  /** The dense part of `working_bytes`: the bytes of the declared arrays asked for; unknown, never zero, when there is
      nothing to charge or a shape does not resolve. */
  method WorkingBytes(arrays: seq<Array>, wanted: Option<set<string>>, names: Namespace, prims: Primitives)
    returns (total: Option<int>)
    ensures total ==
              if NothingDeclared(arrays, wanted) then None else DeclaredBytes(Counted(arrays, wanted), names, prims)
  {
    if arrays == [] { return None; }
    var sum, any := 0, false;
    for i := 0 to |arrays|
      invariant CountedBytes(arrays, i, wanted, names, prims) == Some(sum)
      invariant any <==> AnyCounted(arrays, i, wanted)
    {
      CountedStep(arrays, i, wanted, names, prims);
      if Counts(arrays[i].name, wanted) {
        var bytes := BytesFor(arrays[i], names, prims);
        if bytes.None? {
          NoneStays(arrays, i + 1, wanted, names, prims);
          return None;
        }
        sum, any := sum + bytes.value, true;
      }
    }
    AllSeen(arrays, wanted, names, prims);
    if !any && wanted.Some? && wanted.value != {} { return None; }
    return Some(sum);
  }

  lemma AllSeen(arrays: seq<Array>, wanted: Option<set<string>>, names: Namespace, prims: Primitives)
    ensures CountedBytes(arrays, |arrays|, wanted, names, prims) == DeclaredBytes(Counted(arrays, wanted), names, prims)
    ensures AnyCounted(arrays, |arrays|, wanted) <==> Counted(arrays, wanted) != []
  {
    assert arrays[..|arrays|] == arrays;
  }

  lemma DeclaredStep(arrays: seq<Array>, a: Array, names: Namespace, prims: Primitives)
    ensures DeclaredBytes(arrays + [a], names, prims) ==
              Plus(DeclaredBytes(arrays, names, prims), BytesFor(a, names, prims))
  {
    assert (arrays + [a])[..|arrays|] == arrays;
  }

  lemma CountedStep(arrays: seq<Array>, i: nat, wanted: Option<set<string>>, names: Namespace, prims: Primitives)
    requires i < |arrays|
    ensures AnyCounted(arrays, i + 1, wanted) <==> AnyCounted(arrays, i, wanted) || Counts(arrays[i].name, wanted)
    ensures CountedBytes(arrays, i + 1, wanted, names, prims) ==
      if Counts(arrays[i].name, wanted)
      then Plus(CountedBytes(arrays, i, wanted, names, prims), BytesFor(arrays[i], names, prims))
      else CountedBytes(arrays, i, wanted, names, prims)
  {
    assert arrays[..i + 1][..i] == arrays[..i];
    DeclaredStep(Counted(arrays[..i], wanted), arrays[i], names, prims);
  }

  lemma {:induction false} NoneStays(arrays: seq<Array>, n: nat, wanted: Option<set<string>>, names: Namespace,
                                     prims: Primitives)
    requires n <= |arrays| && CountedBytes(arrays, n, wanted, names, prims).None? && AnyCounted(arrays, n, wanted)
    ensures DeclaredBytes(Counted(arrays, wanted), names, prims).None? && Counted(arrays, wanted) != []
    decreases |arrays| - n
  {
    if n == |arrays| {
      assert arrays[..n] == arrays;
    } else {
      CountedStep(arrays, n, wanted, names, prims);
      NoneStays(arrays, n + 1, wanted, names, prims);
    }
  }

  // ---- the bytes charged are the bytes allocated ----

  ghost predicate SomeBareBool(arrays: seq<Array>) {
    exists i :: 0 <= i < |arrays| && HasBareBool(arrays[i].shape)
  }

  lemma BytesForAgree(a: Array, symbols: Symbols, names: Namespace, prims: Primitives)
    requires Binds(names, symbols) && AllocatedFor(a, symbols).Some?
    ensures BytesFor(a, names, prims) == if HasBareBool(a.shape) then None else AllocatedFor(a, symbols)
  {
    ShapesAgree(a.shape, symbols, names, prims);
  }

  lemma SomeBareBoolStep(arrays: seq<Array>)
    requires arrays != []
    ensures SomeBareBool(arrays) <==> SomeBareBool(arrays[..|arrays| - 1]) || HasBareBool(arrays[|arrays| - 1].shape)
  {
    var init := arrays[..|arrays| - 1];
    if i :| 0 <= i < |init| && HasBareBool(init[i].shape) { assert HasBareBool(arrays[i].shape); }
    if i :| 0 <= i < |arrays| && HasBareBool(arrays[i].shape) {
      if i < |init| { assert HasBareBool(init[i].shape); }
    }
  }

  /** The working set charged is the working set allocated, exactly when no dimension of a shape is a bare bool. */
  lemma {:induction false} BytesAgree(arrays: seq<Array>, symbols: Symbols, names: Namespace, prims: Primitives)
    requires Binds(names, symbols) && AllocatedBytes(arrays, symbols).Some?
    ensures DeclaredBytes(arrays, names, prims) ==
              if SomeBareBool(arrays) then None else AllocatedBytes(arrays, symbols)
  {
    if arrays != [] {
      BytesAgree(arrays[..|arrays| - 1], symbols, names, prims);
      BytesForAgree(arrays[|arrays| - 1], symbols, names, prims);
      SomeBareBoolStep(arrays);
    }
  }
}
