/** Growing an XL rung to constant bytes (`sizing.py`): a narrower datatype lets the scaled axes grow, as far as the
    manifest's constraints and the byte ceiling admit. */
module Rung {
  import opened Arithmetic
  import opened Bits
  import opened Expressions
  import opened Outcomes

  datatype Precision = FP64 | FP32 | BF16 | FP16 | FP8E4M3 | FP8E5M2

  /** `element_bytes`. */
  function ElementBytes(p: Precision): nat {
    match p
    case FP64 => 8
    case FP32 => 4
    case BF16 => 2
    case FP16 => 2
    case FP8E4M3 => 1
    case FP8E5M2 => 1
  }

  /** `size_scale`: how much more data the authored bytes hold; a kernel with its own storage precision never grows. */
  function SizeScale(ownStorage: bool, p: Precision): (factor: real)
    ensures factor >= 1.0
  {
    if ownStorage then 1.0 else 8.0 / ElementBytes(p) as real
  }

  /** An axis that is missing, not an integer, or zero, which has no alignment. */
  datatype BadAxis = BadAxis(axis: string)

  // ---- one axis ----

  lemma AlignmentDivides(base: int)
    requires base != 0
    ensures BitAnd(base, -base) >= 1 && base % BitAnd(base, -base) == 0
  {
    LowestBit(base);
    var k: nat :| BitAnd(base, -base) == Pow2(k) && Times2(base, k);
    var m: int :| m % 2 == 1 && base == m * Pow2(k);
    Pow2Positive(k);
    ModOfProduct(m, Pow2(k));
  }

  /** `alignment`: `value & -value`. */
  function Alignment(value: int): (step: int)
    ensures value != 0 ==> step >= 1 && value % step == 0
  {
    if value != 0 then AlignmentDivides(value); BitAnd(value, -value) else BitAnd(value, -value)
  }

  /** `base` grown by a stretch, rounded down to a multiple of `step`, and never below where it was. */
  function Aligned(base: int, step: int, stretched: real): int
    requires step >= 1
  {
    var aligned := Truncate(stretched) / step * step;
    if base >= aligned then base else aligned
  }

  /** How far a fraction of the way to `perAxis` stretches an axis. */
  function Stretched(base: int, fraction: real, perAxis: real): real {
    base as real * (1.0 + fraction * (perAxis - 1.0))
  }

  /** `authored` grown part of the way to `perAxis`, keeping its alignment. */
  function GrownAxis(base: int, fraction: real, perAxis: real): int
    requires base != 0
  {
    Aligned(base, Alignment(base), Stretched(base, fraction, perAxis))
  }

  lemma RoundDown(target: int, step: int)
    requires step >= 1
    ensures target - step < target / step * step <= target && (target / step * step) % step == 0
  {
    assert target == target / step * step + target % step;
    ModOfProduct(target / step, step);
  }

  lemma TruncateGrows(x: real, y: real)
    requires x <= y
    ensures Truncate(x) <= Truncate(y) && (x >= 0.0 ==> Truncate(x) as real <= x)
  {
  }

  lemma AlignedWithin(base: int, step: int, x: real, top: real)
    requires step >= 1 && base % step == 0 && 0.0 <= base as real <= x <= top
    ensures base <= Aligned(base, step, x) && Aligned(base, step, x) as real <= top
    ensures Aligned(base, step, x) % step == 0
  {
    TruncateGrows(base as real, x);
    RoundDown(Truncate(x), step);
  }

  /** A negative axis is stretched downwards, so it stays where it was. */
  lemma AlignedStays(base: int, step: int, x: real)
    requires step >= 1 && base < 0 && x <= base as real
    ensures Aligned(base, step, x) == base
  {
    TruncateGrows(x, base as real);
    RoundDown(Truncate(x), step);
  }

  lemma RoundDownGrows(a: int, b: int, step: int)
    requires step >= 1 && a <= b
    ensures a / step * step <= b / step * step
  {
    RoundDown(a, step);
    RoundDown(b, step);
    var p, q := a / step, b / step;
    if p > q { ProductGap(q, p, step); }
    if p < q { ProductGap(p, q, step); }
  }

  lemma AlignedGrows(base: int, step: int, x: real, y: real)
    requires step >= 1 && x <= y
    ensures Aligned(base, step, x) <= Aligned(base, step, y)
  {
    TruncateGrows(x, y);
    RoundDownGrows(Truncate(x), Truncate(y), step);
  }

  /** How much of the way to `perAxis` a fraction goes is between none and all of it. */
  lemma StretchWithin(base: int, fraction: real, perAxis: real)
    requires base >= 0 && 0.0 <= fraction <= 1.0 && perAxis >= 1.0
    ensures base as real <= Stretched(base, fraction, perAxis) <= base as real * perAxis
  {
    var more := perAxis - 1.0;
    RealProduct(fraction, more);
    RealProduct(1.0 - fraction, more);
    var stretch := 1.0 + fraction * more;
    assert 1.0 <= stretch <= perAxis;
    ScaledLe(base as real, 1.0, stretch);
    ScaledLe(base as real, stretch, perAxis);
    assert Stretched(base, fraction, perAxis) == base as real * stretch;
  }

  lemma StretchGrows(base: int, fraction: real, further: real, perAxis: real)
    requires base >= 0 && fraction <= further && perAxis >= 1.0
    ensures Stretched(base, fraction, perAxis) <= Stretched(base, further, perAxis)
  {
    var more := perAxis - 1.0;
    RealProduct(further - fraction, more);
    var a, b := 1.0 + fraction * more, 1.0 + further * more;
    assert a <= b;
    ScaledLe(base as real, a, b);
  }

  lemma StretchOfNegative(base: int, fraction: real, perAxis: real)
    requires base < 0 && fraction >= 0.0 && perAxis >= 1.0
    ensures Stretched(base, fraction, perAxis) <= base as real
  {
    var more := fraction * (perAxis - 1.0);
    RealProduct(fraction, perAxis - 1.0);
    RealProduct(-(base as real), more);
    assert Stretched(base, fraction, perAxis) == base as real + base as real * more;
  }

  /** A positive axis grows to at most `perAxis` times what it was, a negative one stays, and both keep their
      alignment. */
  lemma GrownAxisWithin(base: int, fraction: real, perAxis: real)
    requires base != 0 && 0.0 <= fraction <= 1.0 && perAxis >= 1.0
    ensures AxisWithin(GrownAxis(base, fraction, perAxis), base, perAxis)
  {
    if base > 0 {
      StretchWithin(base, fraction, perAxis);
      AlignedWithin(base, Alignment(base), Stretched(base, fraction, perAxis), base as real * perAxis);
    } else {
      StretchOfNegative(base, fraction, perAxis);
      AlignedStays(base, Alignment(base), Stretched(base, fraction, perAxis));
    }
  }

  /** Growing none of the way leaves the axis where it was. */
  lemma NoGrowth(base: int, perAxis: real)
    requires base != 0
    ensures GrownAxis(base, 0.0, perAxis) == base
  {
    assert Stretched(base, 0.0, perAxis) == base as real;
    assert Truncate(base as real) == base;
    RoundDown(base, Alignment(base));
  }

  /** Growing further never makes the axis smaller. */
  lemma GrownAxisGrows(base: int, fraction: real, further: real, perAxis: real)
    requires base != 0 && 0.0 <= fraction <= further && perAxis >= 1.0
    ensures GrownAxis(base, fraction, perAxis) <= GrownAxis(base, further, perAxis)
  {
    if base > 0 {
      StretchGrows(base, fraction, further, perAxis);
      AlignedGrows(base, Alignment(base), Stretched(base, fraction, perAxis), Stretched(base, further, perAxis));
    } else {
      StretchOfNegative(base, fraction, perAxis);
      AlignedStays(base, Alignment(base), Stretched(base, fraction, perAxis));
    }
  }

  // ---- the rung ----

  predicate AxisFits(authored: Namespace, axis: string) {
    axis in authored && authored[axis].IntV? && authored[axis].n != 0
  }

  ghost predicate AxesFit(authored: Namespace, axes: seq<string>) {
    forall i :: 0 <= i < |axes| ==> AxisFits(authored, axes[i])
  }

  /** The rung with its axes grown. */
  ghost function GrownRung(authored: Namespace, axes: seq<string>, fraction: real, perAxis: real): Namespace
    requires AxesFit(authored, axes)
  {
    map name | name in authored ::
      if name in axes && AxisFits(authored, name) then IntV(GrownAxis(authored[name].n, fraction, perAxis))
      else authored[name]
  }

  /** `grown`, filling in one axis after another. */
  method Grown(authored: Namespace, axes: seq<string>, fraction: real, perAxis: real)
    returns (r: Result<Namespace, BadAxis>)
    ensures r.Ok? <==> AxesFit(authored, axes)
    ensures r.Ok? ==> r.value == GrownRung(authored, axes, fraction, perAxis)
  {
    var out := authored;
    for i := 0 to |axes|
      invariant AxesFit(authored, axes[..i]) && out == GrownRung(authored, axes[..i], fraction, perAxis)
    {
      var axis := axes[i];
      if !AxisFits(authored, axis) { return Err(BadAxis(axis)); }
      assert forall j :: 0 <= j <= i ==> axes[..i + 1][j] == axes[j];
      assert AxesFit(authored, axes[..i + 1]) by {
        assert forall j :: 0 <= j < i ==> AxisFits(authored, axes[..i][j]);
      }
      out := out[axis := IntV(GrownAxis(authored[axis].n, fraction, perAxis))];
    }
    assert axes[..|axes|] == axes;
    return Ok(out);
  }

  lemma NothingGrown(authored: Namespace, axes: seq<string>, perAxis: real)
    requires AxesFit(authored, axes)
    ensures GrownRung(authored, axes, 0.0, perAxis) == authored
  {
    forall name | name in axes && AxisFits(authored, name)
      ensures GrownAxis(authored[name].n, 0.0, perAxis) == authored[name].n
    {
      NoGrowth(authored[name].n, perAxis);
    }
  }

  function RealPower(x: real, n: nat): real {
    if n == 0 then 1.0 else x * RealPower(x, n - 1)
  }

  lemma ShareOfOne(x: real, rest: real)
    requires 0.0 <= x < 1.0 && 0.0 <= rest <= 1.0
    ensures 0.0 <= x * rest < 1.0
  {
    assert x * (1.0 - rest) >= 0.0;
  }

  lemma {:induction false} SmallRootSmallPower(x: real, n: nat)
    requires 0.0 <= x < 1.0
    ensures 0.0 <= RealPower(x, n) <= 1.0 && (n > 0 ==> RealPower(x, n) < 1.0)
  {
    if n > 0 {
      SmallRootSmallPower(x, n - 1);
      var rest := RealPower(x, n - 1);
      ShareOfOne(x, rest);
      assert RealPower(x, n) == x * rest;
    }
  }

  const FIT_BISECTIONS: nat := 40

  /** The width of what is left after `k` bisections. */
  function Width(k: nat): real {
    if k == 0 then 1.0 else 0.5 * Width(k - 1)
  }

  /** What was chosen: the full growth when it is admissible; else a fraction that is (or none at all), with one a last
      bisection further that is not. */
  ghost predicate Chosen(rung: Namespace, fraction: real, grow: real -> Namespace, admissible: Namespace -> bool) {
    if admissible(grow(1.0)) then fraction == 1.0 && rung == grow(1.0)
    else
      && 0.0 <= fraction && fraction + Width(FIT_BISECTIONS) <= 1.0 && rung == grow(fraction)
      && (fraction == 0.0 || admissible(rung)) && !admissible(grow(fraction + Width(FIT_BISECTIONS)))
  }

  ghost predicate WholeAxes(rung: Namespace, axes: seq<string>) {
    forall i :: 0 <= i < |axes| ==> axes[i] in rung && rung[axes[i]].IntV?
  }

  /** The product over the axes of how much each grew. */
  function Growth(rung: Namespace, authored: Namespace, axes: seq<string>): real
    requires AxesFit(authored, axes) && WholeAxes(rung, axes)
  {
    if axes == [] then 1.0
    else Growth(rung, authored, axes[..|axes| - 1]) * Ratio(rung, authored, axes[|axes| - 1])
  }

  function Quotient(grown: int, base: int): real
    requires base != 0
  {
    grown as real / base as real
  }

  function Ratio(rung: Namespace, authored: Namespace, axis: string): real
    requires AxisFits(authored, axis) && axis in rung && rung[axis].IntV?
  {
    Quotient(rung[axis].n, authored[axis].n)
  }

  /** `grow` gives the rung grown by any fraction. */
  ghost predicate Grows(grow: real -> Namespace, authored: Namespace, axes: seq<string>, perAxis: real)
    requires AxesFit(authored, axes)
  {
    forall f {:trigger GrownRung(authored, axes, f, perAxis)} :: grow(f) == GrownRung(authored, axes, f, perAxis)
  }

  /** One probe of the bisection. */
  method Probe(authored: Namespace, axes: seq<string>, fraction: real, perAxis: real, ghost grow: real -> Namespace)
    returns (probe: Namespace)
    requires AxesFit(authored, axes) && Grows(grow, authored, axes, perAxis)
    ensures probe == grow(fraction)
  {
    var r := Grown(authored, axes, fraction, perAxis);
    probe := r.value;
  }

  /** The bisection: `lo` is admitted, or nothing is grown; `hi` is refused. */
  method Bisect(authored: Namespace, axes: seq<string>, perAxis: real, admissible: Namespace -> bool,
                ghost grow: real -> Namespace)
    returns (best: Namespace)
    requires AxesFit(authored, axes) && Grows(grow, authored, axes, perAxis)
    requires grow(0.0) == authored && !admissible(grow(1.0))
    ensures exists fraction :: Chosen(best, fraction, grow, admissible)
  {
    var lo, hi := 0.0, 1.0;
    best := authored;
    for k := 0 to FIT_BISECTIONS
      invariant 0.0 <= lo && hi <= 1.0 && hi == lo + Width(k)
      invariant best == grow(lo) && (lo == 0.0 || admissible(best)) && !admissible(grow(hi))
    {
      WidthPositive(k);
      var mid := 0.5 * (lo + hi);
      var probe := Probe(authored, axes, mid, perAxis, grow);
      if admissible(probe) { lo, best := mid, probe; } else { hi := mid; }
    }
    assert Chosen(best, lo, grow, admissible);
  }

  /** The growth by fractions, as a function. */
  ghost function Growing(authored: Namespace, axes: seq<string>, perAxis: real): real -> Namespace
    requires AxesFit(authored, axes)
  {
    f => GrownRung(authored, axes, f, perAxis)
  }

  /** `datatype_rung`: the rung, and the factor its axes grew by. `perAxis` is the root of the factor for each axis, and
      `admissible` whether a rung keeps the constraints and the byte ceiling. */
  method DatatypeRung(authored: Namespace, ownStorage: bool, precision: Precision, axes: seq<string>, perAxis: real,
                      admissible: Namespace -> bool)
    returns (r: Result<(Namespace, real), BadAxis>)
    ensures SizeScale(ownStorage, precision) == 1.0 || authored == map[] || axes == [] ==> r == Ok((authored, 1.0))
    ensures SizeScale(ownStorage, precision) != 1.0 && authored != map[] && axes != [] ==>
              (r.Ok? <==> AxesFit(authored, axes))
    ensures SizeScale(ownStorage, precision) != 1.0 && authored != map[] && axes != [] && r.Ok? ==>
              (exists fraction :: Chosen(r.value.0, fraction, Growing(authored, axes, perAxis), admissible)) &&
              WholeAxes(r.value.0, axes) && r.value.1 == Growth(r.value.0, authored, axes)
  {
    if SizeScale(ownStorage, precision) == 1.0 || authored == map[] || axes == [] { return Ok((authored, 1.0)); }
    var full := Grown(authored, axes, 1.0, perAxis);
    if full.Err? { return Err(full.error); }
    ghost var grow := Growing(authored, axes, perAxis);
    var best := full.value;
    if admissible(best) {
      assert Chosen(best, 1.0, grow, admissible);
    } else {
      NothingGrown(authored, axes, perAxis);
      best := Bisect(authored, axes, perAxis, admissible, grow);
    }
    assert WholeAxes(best, axes) by {
      var fraction :| Chosen(best, fraction, grow, admissible);
      ChosenFraction(best, fraction, authored, axes, perAxis, admissible);
    }
    return Ok((best, Growth(best, authored, axes)));
  }

  // ---- what the chosen rung is ----

  /** The rung is the authored one or an admissible one, and differs from the authored one in its axes alone. */
  lemma ChosenIsAdmissible(rung: Namespace, fraction: real, authored: Namespace, axes: seq<string>, perAxis: real,
                           admissible: Namespace -> bool)
    requires AxesFit(authored, axes) && Chosen(rung, fraction, Growing(authored, axes, perAxis), admissible)
    ensures rung == authored || admissible(rung)
    ensures rung.Keys == authored.Keys
    ensures forall name :: name in authored && name !in axes ==> rung[name] == authored[name]
  {
    NothingGrown(authored, axes, perAxis);
  }

  /** Where admissibility is lost for good once lost, nothing a last bisection beyond the choice is admissible. */
  lemma ChosenIsLargest(rung: Namespace, fraction: real, grow: real -> Namespace, admissible: Namespace -> bool,
                        further: real)
    requires Chosen(rung, fraction, grow, admissible) && fraction + Width(FIT_BISECTIONS) <= further <= 1.0
    requires LostForGood(grow, admissible)
    ensures !admissible(grow(further))
  {
    WidthPositive(FIT_BISECTIONS);
    var refused := fraction + Width(FIT_BISECTIONS);
    assert 0.0 <= refused <= further;
    assert admissible(grow(further)) ==> admissible(grow(refused));
  }

  /** Growing less never loses admissibility. */
  ghost predicate LostForGood(grow: real -> Namespace, admissible: Namespace -> bool) {
    forall f: real, g: real :: 0.0 <= f <= g <= 1.0 && admissible(grow(g)) ==> admissible(grow(f))
  }

  lemma {:induction false} WidthPositive(k: nat)
    ensures 0.0 < Width(k) <= 1.0
  {
    if k > 0 { WidthPositive(k - 1); }
  }

  lemma {:induction false} RootAtLeastOne(x: real, n: nat)
    requires x > 0.0 && n > 0 && RealPower(x, n) >= 1.0
    ensures x >= 1.0
  {
    if x < 1.0 { SmallRootSmallPower(x, n); }
  }

  lemma QuotientWithin(grown: int, base: int, top: real)
    requires 0 < base <= grown && grown as real <= base as real * top
    ensures 1.0 <= Quotient(grown, base) <= top
  {
    var q := Quotient(grown, base);
    assert q * base as real == grown as real;
  }

  lemma AxisQuotient(grown: int, base: int, perAxis: real)
    requires AxisWithin(grown, base, perAxis) && perAxis >= 1.0
    ensures 1.0 <= Quotient(grown, base) <= perAxis
  {
    if base > 0 { QuotientWithin(grown, base, perAxis); } else { QuotientOfSame(base); }
  }

  lemma QuotientOfSame(base: int)
    requires base != 0
    ensures Quotient(base, base) == 1.0
  {
    RealQuotient(base as real, base as real, Quotient(base, base));
  }

  lemma ProductWithin(a: real, b: real, x: real, y: real)
    requires 1.0 <= a <= x && 1.0 <= b <= y
    ensures 1.0 <= a * b <= y * x
  {
    assert (a - 1.0) * b >= 0.0 && (x - a) * b >= 0.0 && x * (y - b) >= 0.0;
  }

  /** No axis shrinks, none grows more than its share, negative ones stay, and each keeps its alignment. */
  ghost predicate AxesWithin(rung: Namespace, authored: Namespace, axes: seq<string>, perAxis: real)
    requires AxesFit(authored, axes) && WholeAxes(rung, axes)
  {
    forall i :: 0 <= i < |axes| ==> AxisWithin(rung[axes[i]].n, authored[axes[i]].n, perAxis)
  }

  ghost predicate AxisWithin(grown: int, base: int, perAxis: real) {
    && base != 0 && base <= grown && grown % Alignment(base) == 0
    && if base > 0 then grown as real <= base as real * perAxis else grown == base
  }

  lemma {:induction false} GrowthWithin(rung: Namespace, authored: Namespace, axes: seq<string>, perAxis: real)
    requires AxesFit(authored, axes) && WholeAxes(rung, axes) && AxesWithin(rung, authored, axes, perAxis)
    requires perAxis >= 1.0
    ensures 1.0 <= Growth(rung, authored, axes) <= RealPower(perAxis, |axes|)
  {
    if axes != [] {
      var init, axis := axes[..|axes| - 1], axes[|axes| - 1];
      GrowthWithin(rung, authored, init, perAxis);
      assert AxisWithin(rung[axis].n, authored[axis].n, perAxis);
      RatioWithin(rung, authored, axis, perAxis);
      ProductWithin(Growth(rung, authored, init), Ratio(rung, authored, axis), RealPower(perAxis, |init|), perAxis);
    }
  }

  lemma RatioWithin(rung: Namespace, authored: Namespace, axis: string, perAxis: real)
    requires AxisFits(authored, axis) && axis in rung && rung[axis].IntV? && perAxis >= 1.0
    requires AxisWithin(rung[axis].n, authored[axis].n, perAxis)
    ensures 1.0 <= Ratio(rung, authored, axis) <= perAxis
  {
    AxisQuotient(rung[axis].n, authored[axis].n, perAxis);
  }

  lemma ChosenFraction(rung: Namespace, fraction: real, authored: Namespace, axes: seq<string>, perAxis: real,
                       admissible: Namespace -> bool)
    requires AxesFit(authored, axes) && Chosen(rung, fraction, Growing(authored, axes, perAxis), admissible)
    ensures 0.0 <= fraction <= 1.0 && rung == GrownRung(authored, axes, fraction, perAxis) && WholeAxes(rung, axes)
  {
    WidthPositive(FIT_BISECTIONS);
  }

  lemma GrownAxesWithin(authored: Namespace, axes: seq<string>, fraction: real, perAxis: real)
    requires AxesFit(authored, axes) && 0.0 <= fraction <= 1.0 && perAxis >= 1.0
    requires WholeAxes(GrownRung(authored, axes, fraction, perAxis), axes)
    ensures AxesWithin(GrownRung(authored, axes, fraction, perAxis), authored, axes, perAxis)
  {
    var rung := GrownRung(authored, axes, fraction, perAxis);
    forall i | 0 <= i < |axes| ensures AxisWithin(rung[axes[i]].n, authored[axes[i]].n, perAxis) {
      var base := authored[axes[i]].n;
      GrownAxisWithin(base, fraction, perAxis);
      assert rung[axes[i]].n == GrownAxis(base, fraction, perAxis);
    }
  }

  /** The chosen rung holds at most the factor's worth of data, and no axis shrinks, outgrows its share or loses its
      alignment. */
  lemma ChosenKeepsBytes(rung: Namespace, fraction: real, authored: Namespace, axes: seq<string>, factor: real,
                         perAxis: real, admissible: Namespace -> bool)
    requires AxesFit(authored, axes) && axes != []
    requires perAxis > 0.0 && RealPower(perAxis, |axes|) == factor && factor >= 1.0
    requires Chosen(rung, fraction, Growing(authored, axes, perAxis), admissible)
    ensures WholeAxes(rung, axes) && AxesWithin(rung, authored, axes, perAxis)
    ensures 1.0 <= Growth(rung, authored, axes) <= factor
  {
    RootAtLeastOne(perAxis, |axes|);
    ChosenFraction(rung, fraction, authored, axes, perAxis, admissible);
    GrownAxesWithin(authored, axes, fraction, perAxis);
    GrowthWithin(rung, authored, axes, perAxis);
  }
}
