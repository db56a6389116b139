/** The restricted expression evaluator of `fuzz.py` (`safe_eval`): values, syntax trees and evaluation against a
    namespace, with "some name is not bound yet" told apart from every other failure. */
module Expressions {
  import opened Rounding
  import opened Outcomes

  datatype Value =
    | IntV(n: int)
    | FloatV(x: real)
    | BoolV(b: bool)
    | StrV(s: string)
    | ListV(items: seq<Value>)
    | DictV(entries: map<string, Value>)

  type Namespace = map<string, Value>

  datatype BinOp = Add | Sub | Mult | Div | FloorDiv | Mod | Pow | OtherBin
  datatype UnaryOp = Neg | Pos | Not | OtherUnary
  datatype CmpOp = Eq | NotEq | Lt | LtE | Gt | GtE | OtherCmp
  datatype Func = MinF | MaxF | IntF | AbsF | RoundF | LenF | BoolF | FloatF | OtherF

  datatype Expr =
    | Const(value: Value)
    | Name(id: string)
    | Tuple(elts: seq<Expr>)
    | List(elts: seq<Expr>)
    | Bin(op: BinOp, left: Expr, right: Expr)
    | Unary(uop: UnaryOp, operand: Expr)
    | And(values: seq<Expr>)
    | Or(values: seq<Expr>)
    | Compare(first: Expr, ops: seq<CmpOp>, comparators: seq<Expr>)
    | IfExp(test: Expr, body: Expr, orelse: Expr)
    | Call(func: Func, args: seq<Expr>, keywords: bool)
    | Unsupported

  /** A value, a name nothing binds yet (NameError), or any other error. */
  datatype Outcome = Val(v: Value) | Unbound(name: string) | Fault

  datatype Gathering = Vals(vs: seq<Value>) | UnboundIn(name: string) | FaultIn

  /** The operations on floats and texts whose results are left open; None where Python raises. */
  datatype Primitives = Primitives(
    power: (real, real) -> Option<Value>,
    roundDigits: (Value, int) -> Option<Value>,
    parse: (Func, string) -> Option<Value>)

  function Computed(o: Option<Value>): Outcome {
    match o case Some(v) => Val(v) case None => Fault
  }

  // ---- numbers ----

  predicate IsNumber(v: Value) { v.IntV? || v.FloatV? || v.BoolV? }

  predicate IsWhole(v: Value) { v.IntV? || v.BoolV? }

  function AsInt(v: Value): int
    requires IsWhole(v)
  {
    match v case IntV(n) => n case BoolV(b) => if b then 1 else 0
  }

  function AsReal(v: Value): real
    requires IsNumber(v)
  {
    match v case FloatV(x) => x case IntV(n) => n as real case BoolV(b) => if b then 1.0 else 0.0
  }

  predicate Truthy(v: Value) {
    match v
    case IntV(n) => n != 0
    case FloatV(x) => x != 0.0
    case BoolV(b) => b
    case StrV(s) => s != ""
    case ListV(items) => items != []
    case DictV(entries) => entries != map[]
  }

  /** Python's `//`: the quotient rounded towards minus infinity. */
  function FloorDivide(a: int, b: int): int
    requires b != 0
  {
    (if b > 0 then a else -a) / (if b > 0 then b else -b)
  }

  function FloorMod(a: int, b: int): int
    requires b != 0
  {
    a - b * FloorDivide(a, b)
  }

  function IntPower(base: int, e: nat): int {
    if e == 0 then 1 else base * IntPower(base, e - 1)
  }

  function Truncate(x: real): int {
    if x >= 0.0 then x.Floor else -((-x).Floor)
  }

  function ApplyBin(op: BinOp, l: Value, r: Value, prims: Primitives): Outcome {
    if !IsNumber(l) || !IsNumber(r) then Fault
    else if IsWhole(l) && IsWhole(r) then IntArith(op, AsInt(l), AsInt(r), prims)
    else RealArith(op, AsReal(l), AsReal(r), prims)
  }

  function IntArith(op: BinOp, a: int, b: int, prims: Primitives): Outcome {
    match op
    case Add => Val(IntV(a + b))
    case Sub => Val(IntV(a - b))
    case Mult => Val(IntV(a * b))
    case Div => if b == 0 then Fault else Val(FloatV(a as real / b as real))
    case FloorDiv => if b == 0 then Fault else Val(IntV(FloorDivide(a, b)))
    case Mod => if b == 0 then Fault else Val(IntV(FloorMod(a, b)))
    case Pow =>
      if b >= 0 then Val(IntV(IntPower(a, b)))
      else if a == 0 then Fault
      else Computed(prims.power(a as real, b as real))
    case OtherBin => Fault
  }

  function RealArith(op: BinOp, a: real, b: real, prims: Primitives): Outcome {
    match op
    case Add => Val(FloatV(a + b))
    case Sub => Val(FloatV(a - b))
    case Mult => Val(FloatV(a * b))
    case Div => if b == 0.0 then Fault else Val(FloatV(a / b))
    case FloorDiv => if b == 0.0 then Fault else Val(FloatV((a / b).Floor as real))
    case Mod => if b == 0.0 then Fault else Val(FloatV(a - b * (a / b).Floor as real))
    case Pow => Computed(prims.power(a, b))
    case OtherBin => Fault
  }

  function ApplyUnary(op: UnaryOp, v: Value): Outcome {
    if op.Not? then Val(BoolV(!Truthy(v)))
    else if !IsNumber(v) || op.OtherUnary? then Fault
    else if v.FloatV? then Val(FloatV(if op.Neg? then -v.x else v.x))
    else Val(IntV(if op.Neg? then -AsInt(v) else AsInt(v)))
  }

  /** Python's `==`: numbers by value, everything else by shape. */
  predicate PyEq(l: Value, r: Value) {
    if IsNumber(l) && IsNumber(r) then AsReal(l) == AsReal(r)
    else
      match (l, r)
      case (StrV(s), StrV(t)) => s == t
      case (ListV(a), ListV(b)) => |a| == |b| && forall i :: 0 <= i < |a| ==> PyEq(a[i], b[i])
      case (DictV(a), DictV(b)) => a.Keys == b.Keys && forall k :: k in a ==> PyEq(a[k], b[k])
      case _ => false
  }

  function ApplyCompare(op: CmpOp, l: Value, r: Value): Outcome {
    match op
    case Eq => Val(BoolV(PyEq(l, r)))
    case NotEq => Val(BoolV(!PyEq(l, r)))
    case OtherCmp => Fault
    case _ =>
      if !IsNumber(l) || !IsNumber(r) then Fault
      else
        var a, b := AsReal(l), AsReal(r);
        Val(BoolV(match op case Lt => a < b case LtE => a <= b case Gt => a > b case _ => a >= b))
  }

  /** `min` (or `max`) of the arguments: the first extreme one. */
  function Extreme(least: bool, args: seq<Value>): Outcome {
    if args == [] || !IsNumber(args[|args| - 1]) then Fault
    else if |args| == 1 then Val(args[0])
    else
      var before, last := Extreme(least, args[..|args| - 1]), args[|args| - 1];
      match before
      case Val(v) =>
        if !IsNumber(v) then Fault
        else if (if least then AsReal(last) < AsReal(v) else AsReal(last) > AsReal(v)) then Val(last) else before
      case _ => Fault
  }

  function ApplyFunc(f: Func, args: seq<Value>, prims: Primitives): Outcome {
    if f.MinF? || f.MaxF? then Extreme(f.MinF?, args)
    else if args == [] then Fault
    else
      var v := args[0];
      match f
      case BoolF => Val(BoolV(Truthy(v)))
      case LenF => Length(v)
      case AbsF =>
        if v.FloatV? then Val(FloatV(if v.x < 0.0 then -v.x else v.x))
        else if IsWhole(v) then Val(IntV(if AsInt(v) < 0 then -AsInt(v) else AsInt(v)))
        else Fault
      case RoundF => Round(v, args, prims)
      case FloatF =>
        if v.StrV? then Computed(prims.parse(f, v.s)) else if IsNumber(v) then Val(FloatV(AsReal(v))) else Fault
      case IntF =>
        if v.StrV? then Computed(prims.parse(f, v.s))
        else if IsWhole(v) then Val(IntV(AsInt(v)))
        else if v.FloatV? then Val(IntV(Truncate(v.x)))
        else Fault
      case _ => Fault
  }

  function Length(v: Value): Outcome {
    match v
    case StrV(s) => Val(IntV(|s|))
    case ListV(items) => Val(IntV(|items|))
    case DictV(entries) => Val(IntV(|entries|))
    case _ => Fault
  }

  function Round(v: Value, args: seq<Value>, prims: Primitives): Outcome
    requires args != []
  {
    if !IsNumber(v) then Fault
    else if |args| > 1 then
      if !IsNumber(args[1]) then Fault
      else Computed(prims.roundDigits(v, if IsWhole(args[1]) then AsInt(args[1]) else Truncate(args[1].x)))
    else if IsWhole(v) then Val(IntV(AsInt(v)))
    else Val(IntV(RoundHalfEven(v.x)))
  }

  // ---- evaluation ----

  /** `eval_node`. */
  function Eval(e: Expr, names: Namespace, prims: Primitives): Outcome
    decreases e, 1
  {
    match e
    case Const(value) => if IsNumber(value) || value.StrV? then Val(value) else Fault
    case Name(id) => if id in names then Val(names[id]) else Unbound(id)
    case Tuple(elts) => Gathered(EvalEach(elts, names, prims))
    case List(elts) => Gathered(EvalEach(elts, names, prims))
    case Bin(op, left, right) =>
      if op.OtherBin? then Fault
      else
        (match Eval(left, names, prims)
         case Val(l) =>
           (match Eval(right, names, prims)
            case Val(r) => ApplyBin(op, l, r, prims)
            case failed => failed)
         case failed => failed)
    case Unary(op, operand) =>
      if op.OtherUnary? then Fault
      else
        (match Eval(operand, names, prims)
         case Val(v) => ApplyUnary(op, v)
         case failed => failed)
    case And(values) => EvalUntil(values, names, prims, false)
    case Or(values) => EvalUntil(values, names, prims, true)
    case Compare(first, ops, comparators) =>
      (match Eval(first, names, prims)
       case Val(l) => EvalChain(l, ops, comparators, names, prims)
       case failed => failed)
    case IfExp(test, body, orelse) =>
      (match Eval(test, names, prims)
       case Val(t) => if Truthy(t) then Eval(body, names, prims) else Eval(orelse, names, prims)
       case failed => failed)
    case Call(func, args, keywords) =>
      if func.OtherF? || keywords then Fault
      else
        (match EvalEach(args, names, prims)
         case Vals(vs) => ApplyFunc(func, vs, prims)
         case UnboundIn(id) => Unbound(id)
         case FaultIn => Fault)
    case Unsupported => Fault
  }

  function Gathered(o: Gathering): Outcome {
    match o case Vals(vs) => Val(ListV(vs)) case UnboundIn(id) => Unbound(id) case FaultIn => Fault
  }

  /** Every element, left to right; the first failure wins. */
  function EvalEach(es: seq<Expr>, names: Namespace, prims: Primitives): Gathering
    decreases es, 0
  {
    if es == [] then Vals([])
    else
      match Eval(es[0], names, prims)
      case Val(v) =>
        (match EvalEach(es[1..], names, prims)
         case Vals(vs) => Vals([v] + vs)
         case failed => failed)
      case Unbound(id) => UnboundIn(id)
      case Fault => FaultIn
  }

  /** `all` / `any`: lazily up to the first element whose truth is `stop`. */
  function EvalUntil(es: seq<Expr>, names: Namespace, prims: Primitives, stop: bool): Outcome
    decreases es, 0
  {
    if es == [] then Val(BoolV(!stop))
    else
      match Eval(es[0], names, prims)
      case Val(v) => if Truthy(v) == stop then Val(BoolV(stop)) else EvalUntil(es[1..], names, prims, stop)
      case failed => failed
  }

  /** `eval_compare`: a chain short-circuits at the first comparison that does not hold. */
  function EvalChain(left: Value, ops: seq<CmpOp>, rights: seq<Expr>, names: Namespace, prims: Primitives): Outcome
    decreases rights, 0
  {
    if ops == [] && rights == [] then Val(BoolV(true))
    else if ops == [] || rights == [] || ops[0].OtherCmp? then Fault
    else
      match Eval(rights[0], names, prims)
      case Val(r) =>
        (match ApplyCompare(ops[0], left, r)
         case Val(holds) =>
           if Truthy(holds) then EvalChain(r, ops[1..], rights[1..], names, prims) else Val(BoolV(false))
         case failed => failed)
      case failed => failed
  }

  // ---- weakening ----

  ghost predicate Extends(larger: Namespace, smaller: Namespace) {
    forall k :: k in smaller ==> k in larger && larger[k] == smaller[k]
  }

  /** A value or an error is final: binding more names never changes it, whatever laziness skipped. */
  lemma {:induction false} Weakening(e: Expr, smaller: Namespace, larger: Namespace, prims: Primitives)
    requires Extends(larger, smaller) && !Eval(e, smaller, prims).Unbound?
    ensures Eval(e, larger, prims) == Eval(e, smaller, prims)
    decreases e, 1
  {
    match e
    case Const(_) =>
    case Name(_) =>
    case Tuple(elts) => WeakeningEach(elts, smaller, larger, prims);
    case List(elts) => WeakeningEach(elts, smaller, larger, prims);
    case Bin(op, left, right) =>
      if !op.OtherBin? {
        Weakening(left, smaller, larger, prims);
        if Eval(left, smaller, prims).Val? { Weakening(right, smaller, larger, prims); }
      }
    case Unary(op, operand) => if !op.OtherUnary? { Weakening(operand, smaller, larger, prims); }
    case And(values) => WeakeningUntil(values, smaller, larger, prims, false);
    case Or(values) => WeakeningUntil(values, smaller, larger, prims, true);
    case Compare(first, ops, comparators) =>
      Weakening(first, smaller, larger, prims);
      var l := Eval(first, smaller, prims);
      if l.Val? { WeakeningChain(l.v, ops, comparators, smaller, larger, prims); }
    case IfExp(test, body, orelse) =>
      Weakening(test, smaller, larger, prims);
      var t := Eval(test, smaller, prims);
      if t.Val? {
        if Truthy(t.v) { Weakening(body, smaller, larger, prims); } else { Weakening(orelse, smaller, larger, prims); }
      }
    case Call(func, args, keywords) =>
      if !func.OtherF? && !keywords { WeakeningEach(args, smaller, larger, prims); }
    case Unsupported =>
  }

  lemma {:induction false} WeakeningEach(es: seq<Expr>, smaller: Namespace, larger: Namespace, prims: Primitives)
    requires Extends(larger, smaller) && !EvalEach(es, smaller, prims).UnboundIn?
    ensures EvalEach(es, larger, prims) == EvalEach(es, smaller, prims)
    decreases es, 0
  {
    if es != [] {
      Weakening(es[0], smaller, larger, prims);
      if Eval(es[0], smaller, prims).Val? { WeakeningEach(es[1..], smaller, larger, prims); }
    }
  }

  lemma {:induction false} WeakeningUntil(es: seq<Expr>, smaller: Namespace, larger: Namespace, prims: Primitives,
                                          stop: bool)
    requires Extends(larger, smaller) && !EvalUntil(es, smaller, prims, stop).Unbound?
    ensures EvalUntil(es, larger, prims, stop) == EvalUntil(es, smaller, prims, stop)
    decreases es, 0
  {
    if es != [] {
      Weakening(es[0], smaller, larger, prims);
      var v := Eval(es[0], smaller, prims);
      if v.Val? && Truthy(v.v) != stop { WeakeningUntil(es[1..], smaller, larger, prims, stop); }
    }
  }

  lemma {:induction false} WeakeningChain(left: Value, ops: seq<CmpOp>, rights: seq<Expr>, smaller: Namespace,
                                          larger: Namespace, prims: Primitives)
    requires Extends(larger, smaller) && !EvalChain(left, ops, rights, smaller, prims).Unbound?
    ensures EvalChain(left, ops, rights, larger, prims) == EvalChain(left, ops, rights, smaller, prims)
    decreases rights, 0
  {
    if ops != [] && rights != [] && !ops[0].OtherCmp? {
      Weakening(rights[0], smaller, larger, prims);
      var r := Eval(rights[0], smaller, prims);
      if r.Val? {
        var c := ApplyCompare(ops[0], left, r.v);
        if c.Val? && Truthy(c.v) { WeakeningChain(r.v, ops[1..], rights[1..], smaller, larger, prims); }
      }
    }
  }

  // ---- an unbound name really is missing ----

  lemma {:induction false} UnboundIsMissing(e: Expr, names: Namespace, prims: Primitives)
    ensures Eval(e, names, prims).Unbound? ==> Eval(e, names, prims).name !in names
    decreases e, 1
  {
    match e
    case Const(_) =>
    case Name(_) =>
    case Tuple(elts) => UnboundEach(elts, names, prims);
    case List(elts) => UnboundEach(elts, names, prims);
    case Bin(op, left, right) =>
      UnboundIsMissing(left, names, prims);
      UnboundIsMissing(right, names, prims);
    case Unary(op, operand) => UnboundIsMissing(operand, names, prims);
    case And(values) => UnboundUntil(values, names, prims, false);
    case Or(values) => UnboundUntil(values, names, prims, true);
    case Compare(first, ops, comparators) =>
      UnboundIsMissing(first, names, prims);
      var l := Eval(first, names, prims);
      if l.Val? { UnboundChain(l.v, ops, comparators, names, prims); }
    case IfExp(test, body, orelse) =>
      UnboundIsMissing(test, names, prims);
      UnboundIsMissing(body, names, prims);
      UnboundIsMissing(orelse, names, prims);
    case Call(func, args, keywords) => UnboundEach(args, names, prims);
    case Unsupported =>
  }

  lemma {:induction false} UnboundEach(es: seq<Expr>, names: Namespace, prims: Primitives)
    ensures EvalEach(es, names, prims).UnboundIn? ==> EvalEach(es, names, prims).name !in names
    decreases es, 0
  {
    if es != [] {
      UnboundIsMissing(es[0], names, prims);
      UnboundEach(es[1..], names, prims);
    }
  }

  lemma {:induction false} UnboundUntil(es: seq<Expr>, names: Namespace, prims: Primitives, stop: bool)
    ensures EvalUntil(es, names, prims, stop).Unbound? ==> EvalUntil(es, names, prims, stop).name !in names
    decreases es, 0
  {
    if es != [] {
      UnboundIsMissing(es[0], names, prims);
      UnboundUntil(es[1..], names, prims, stop);
    }
  }

  lemma {:induction false} UnboundChain(left: Value, ops: seq<CmpOp>, rights: seq<Expr>, names: Namespace,
                                        prims: Primitives)
    ensures EvalChain(left, ops, rights, names, prims).Unbound? ==>
              EvalChain(left, ops, rights, names, prims).name !in names
    decreases rights, 0
  {
    if ops != [] && rights != [] {
      UnboundIsMissing(rights[0], names, prims);
      var r := Eval(rights[0], names, prims);
      if r.Val? { UnboundChain(r.v, ops[1..], rights[1..], names, prims); }
    }
  }
}
