/** The filter of order quantities: which quantities it keeps, and what becomes of whole numbers of its steps,
    given the precision that the source computes from the step. */
module QuantityFilter {
  import opened Basics
  import opened PaperBroker

  /** The quantity in units of a decimal. */
  function Shifted(x: real, decimals: nat): real { x * Pow10(decimals) }

  predicate Scaled(n: int, x: real, decimals: nat) { Shifted(x, decimals) == n as real }

  predicate Multiple(k: int, step: real, q: real) { q == k as real * step }

  ghost predicate OnGrid(f: Filter, q: real) {
    exists k: int :: Multiple(k, f.step, q)
  }

  predicate InMax(f: Filter, q: real) { f.max <= 0.0 || q <= f.max }

  predicate InBounds(f: Filter, q: real) { (f.min <= 0.0 || q >= f.min) && InMax(f, q) }

  /** The decimals of the filter write the quantity in full. */
  ghost predicate Decimal(f: Filter, q: real) {
    exists n: int :: Scaled(n, q, f.precision)
  }

  function Half(p: real): (h: real)
    requires p > 0.0
    ensures h > 0.0
  {
    0.5 / p
  }

  /** Half of the last decimal. */
  function HalfDecimal(decimals: nat): (h: real)
    ensures h > 0.0
  {
    Half(Pow10(decimals))
  }

  predicate Within(x: real, q: real, h: real) { q - h <= x < q + h }

  /** The quantity is the minimum, and what rounding makes of `x` is below it. */
  predicate RaisedToMin(f: Filter, x: real, q: real) {
    q == f.min && RoundDecimals(x, f.precision) < q
  }

  /** Within the bounds; and a number of decimals, half a decimal at most from the nearest number of steps, or
      the minimum that stands for less. */
  ghost predicate Admits(f: Filter, q: real) {
    && InBounds(f, q)
    && (f.step > 0.0 ==>
          var g := NearestStep(q, f.step);
          (Decimal(f, q) && Within(g, q, HalfDecimal(f.precision))) || RaisedToMin(f, g, q))
  }

  // ---- Rounding ----

  lemma RoundInteger(k: int)
    ensures RoundHalfAway(k as real) == k && (k as real + 0.5).Floor == k
  {
  }

  lemma DivideBack(k: real, s: real)
    requires s > 0.0
    ensures k * s / s == k && k / s * s == k
  {
  }

  lemma ScaleOrder(a: real, b: real, p: real)
    requires p > 0.0
    ensures a < b <==> a * p < b * p
  {
    if a < b {
      ProductPositive(b - a, p);
    } else {
      ProductNotNegative(a - b, p);
    }
  }

  lemma ProductPositive(a: real, b: real)
    requires a > 0.0 && b > 0.0
    ensures a * b > 0.0
  {
  }

  lemma ProductNotNegative(a: real, b: real)
    requires a >= 0.0 && b >= 0.0
    ensures a * b >= 0.0
  {
  }

  lemma QuotientNotNegative(a: real, b: real)
    requires a >= 0.0 && b > 0.0
    ensures a / b >= 0.0
  {
  }

  lemma HalfTimes(p: real)
    requires p > 0.0
    ensures Half(p) * p == 0.5
  {
    DivideBack(0.5, p);
  }

  lemma HalfScaled(q: real, p: real)
    requires p > 0.0
    ensures (q - Half(p)) * p == q * p - 0.5 && (q + Half(p)) * p == q * p + 0.5
  {
    hide Half;
    HalfTimes(p);
    Distribute(q, Half(p), p);
  }

  lemma Distribute(a: real, b: real, p: real)
    ensures (a - b) * p == a * p - b * p && (a + b) * p == a * p + b * p
  {
  }

  lemma NearestInteger(y: real, m: int)
    ensures (y + 0.5).Floor == m <==> m as real - 0.5 <= y < m as real + 0.5
  {
  }

  lemma RoundAtIff(x: real, q: real, p: real)
    requires p > 0.0
    ensures RoundAt(x, p) == q <==> q * p == (q * p).Floor as real && Within(x, q, Half(p))
  {
    hide Half;
    var n := (x * p + 0.5).Floor;
    DivideBack(n as real, p);
    DivideBack(q, p);
    HalfScaled(q, p);
    ScaleOrder(x, q - Half(p), p);
    ScaleOrder(x, q + Half(p), p);
    NearestInteger(x * p, n);
    NearestInteger(x * p, (q * p).Floor);
  }

  /** Rounding gives `q` iff `q` is a number of decimals, and half a decimal at most away. */
  lemma RoundsToIff(f: Filter, x: real, q: real)
    ensures RoundDecimals(x, f.precision) == q <==> Decimal(f, q) && Within(x, q, HalfDecimal(f.precision))
  {
    hide Pow10, Within, RoundAt, Half;
    var p := Pow10(f.precision);
    RoundAtIff(x, q, p);
    var y := Shifted(q, f.precision);
    assert y == q * p;
    if y == y.Floor as real {
      assert Scaled(y.Floor, q, f.precision);
    }
    if Decimal(f, q) {
      var n: int :| Scaled(n, q, f.precision);
      assert y.Floor == n;
    }
  }

  /** Rounding leaves a number of decimals alone. */
  lemma RoundToDecimals(f: Filter, q: real)
    requires Decimal(f, q)
    ensures RoundDecimals(q, f.precision) == q
  {
    hide Decimal, RoundDecimals;
    RoundsToIff(f, q, q);
  }

  lemma RoundToStep(k: int, step: real, q: real)
    requires step > 0.0 && Multiple(k, step, q)
    ensures NearestStep(q, step) == q
  {
    hide RoundHalfAway;
    DivideBack(k as real, step);
    assert q / step == k as real;
    RoundInteger(k);
  }

  /** The adjustment keeps a quantity iff the filter admits it. */
  lemma AdjustKeepsIff(f: Filter, q: real)
    requires q > 0.0
    ensures AdjustQty(f, q) == q <==> Admits(f, q)
  {
    hide RoundDecimals, NearestStep, Decimal, Within, HalfDecimal;
    if f.step > 0.0 {
      RoundsToIff(f, NearestStep(q, f.step), q);
    }
  }

  lemma AdjustedNotNegative(f: Filter, q: real)
    requires q >= 0.0
    ensures AdjustQty(f, q) >= 0.0
  {
    hide Pow10, RoundAt, NearestStep;
    if f.step > 0.0 {
      NearestNotNegative(q, f.step);
      RoundedNotNegative(NearestStep(q, f.step), Pow10(f.precision));
    }
  }

  lemma NearestNotNegative(q: real, step: real)
    requires q >= 0.0 && step > 0.0
    ensures NearestStep(q, step) >= 0.0
  {
    QuotientNotNegative(q, step);
    ProductNotNegative(RoundHalfAway(q / step) as real, step);
  }

  lemma RoundedNotNegative(x: real, p: real)
    requires x >= 0.0 && p > 0.0
    ensures RoundAt(x, p) >= 0.0
  {
    ProductNotNegative(x, p);
    QuotientNotNegative((x * p + 0.5).Floor as real, p);
  }

  // ---- Whole numbers of steps ----

  /** The decimals of the filter write the quantity in full, or it is the minimum that stands for less. */
  ghost predicate Written(f: Filter, q: real) { Decimal(f, q) || RaisedToMin(f, q, q) }

  /** A whole number of steps is admitted, and kept, iff it is within the bounds and written in full. */
  lemma GridIsAdmittedIff(f: Filter, q: real)
    requires f.step > 0.0 && OnGrid(f, q) && q > 0.0
    ensures Admits(f, q) <==> InBounds(f, q) && Written(f, q)
    ensures AdjustQty(f, q) == q <==> InBounds(f, q) && Written(f, q)
  {
    hide NearestStep, Multiple, RoundDecimals, Decimal, HalfDecimal, AdjustQty;
    var k: int :| Multiple(k, f.step, q);
    RoundToStep(k, f.step, q);
    AdjustKeepsIff(f, q);
  }

  lemma GridSum(f: Filter, a: real, b: real)
    requires OnGrid(f, a) && OnGrid(f, b)
    ensures OnGrid(f, a + b) && OnGrid(f, a - b)
  {
    var k: int :| Multiple(k, f.step, a);
    var l: int :| Multiple(l, f.step, b);
    GridOfSum(k, l, f.step);
    assert Multiple(k + l, f.step, a + b) && Multiple(k - l, f.step, a - b);
  }

  lemma GridOfSum(k: int, l: int, s: real)
    ensures k as real * s + l as real * s == (k + l) as real * s
    ensures k as real * s - l as real * s == (k - l) as real * s
  {
  }

  /** The precision of the filter writes its step in full. */
  ghost predicate DecimalStep(f: Filter) { Decimal(f, f.step) }

  lemma ScaledInteger(k: int, n: int, s: real, decimals: nat, q: real)
    requires Scaled(n, s, decimals) && Multiple(k, s, q)
    ensures Scaled(k * n, q, decimals)
  {
    var p := Pow10(decimals);
    assert k as real * s * p == k as real * (s * p);
    assert k as real * n as real == (k * n) as real;
  }

  lemma GridIsWritten(f: Filter, q: real)
    requires DecimalStep(f) && OnGrid(f, q)
    ensures Decimal(f, q) && Written(f, q)
  {
    hide Multiple, Scaled;
    var k: int :| Multiple(k, f.step, q);
    var n: int :| Scaled(n, f.step, f.precision);
    ScaledInteger(k, n, f.step, f.precision, q);
  }

  /** The adjustment is the identity on the whole numbers of steps within the bounds. */
  ghost predicate KeepsGrid(f: Filter) {
    forall q: real :: q > 0.0 && OnGrid(f, q) && InBounds(f, q) ==> AdjustQty(f, q) == q
  }

  /** There is room for three steps between the bounds. */
  predicate Roomy(f: Filter) { InMax(f, Max(f.min, 0.0) + 3.0 * f.step) }

  /** The adjustment is the identity on whole numbers of steps iff the precision writes the step in full. */
  lemma KeepsGridIff(f: Filter)
    requires f.step > 0.0 && Roomy(f)
    ensures KeepsGrid(f) <==> DecimalStep(f)
  {
    hide OnGrid, AdjustQty, Admits, Decimal, InBounds, Roomy, Steps, StepAbove;
    if DecimalStep(f) {
      forall q: real | q > 0.0 && OnGrid(f, q) && InBounds(f, q) ensures AdjustQty(f, q) == q {
        GridIsWritten(f, q);
        GridIsAdmittedIff(f, q);
      }
    }
    if KeepsGrid(f) {
      var x := StepAbove(f) as real;
      StepsAbove(f);
      KeptStepsAreDecimal(f, StepAbove(f));
      KeptStepsAreDecimal(f, StepAbove(f) + 1);
      DecimalDifference(f, Steps(f, x + 1.0), Steps(f, x));
    }
  }

  function Steps(f: Filter, x: real): real { x * f.step }

  lemma StepsOrder(f: Filter, x: real, y: real)
    requires f.step > 0.0
    ensures x < y ==> Steps(f, x) < Steps(f, y)
  {
    ScaleOrder(x, y, f.step);
  }

  lemma StepsNext(f: Filter, x: real)
    ensures Steps(f, x + 1.0) == Steps(f, x) + f.step
  {
  }

  lemma StepsBack(f: Filter, q: real)
    requires f.step > 0.0
    ensures Steps(f, q / f.step) == q
  {
    DivideBack(q, f.step);
  }

  /** The least number of steps that is above the minimum. */
  function StepAbove(f: Filter): int
    requires f.step > 0.0
  {
    (Max(f.min, 0.0) / f.step).Floor + 1
  }

  lemma StepsAbove(f: Filter)
    requires f.step > 0.0
    ensures var x, min := StepAbove(f) as real, Max(f.min, 0.0);
            min < Steps(f, x) <= min + f.step && Steps(f, x + 1.0) == Steps(f, x) + f.step
  {
    hide Steps;
    var x, min := StepAbove(f) as real, Max(f.min, 0.0);
    var y := min / f.step;
    StepsBack(f, min);
    StepsOrder(f, y, x);
    StepsOrder(f, x, y + 1.0);
    StepsOrder(f, y + 1.0, x);
    StepsNext(f, y);
    StepsNext(f, x);
  }

  lemma KeptStepsAreDecimal(f: Filter, k: int)
    requires f.step > 0.0 && Roomy(f) && KeepsGrid(f)
    requires Max(f.min, 0.0) < Steps(f, k as real) <= Max(f.min, 0.0) + 3.0 * f.step
    ensures Decimal(f, Steps(f, k as real))
  {
    hide AdjustQty, Admits, Decimal;
    var q := Steps(f, k as real);
    assert Multiple(k, f.step, q);
    GridIsAdmittedIff(f, q);
  }

  lemma DecimalDifference(f: Filter, a: real, b: real)
    requires Decimal(f, a) && Decimal(f, b)
    ensures Decimal(f, a - b)
  {
    var m: int :| Scaled(m, a, f.precision);
    var n: int :| Scaled(n, b, f.precision);
    Distribute(a, b, Pow10(f.precision));
    assert Scaled(m - n, a - b, f.precision);
  }

  // ---- The precision that the source computes ----

  lemma TenthIsSmaller(step: real)
    requires 0.0 < step < 1.0
    ensures 0 <= (1.0 / (10.0 * step)).Floor < (1.0 / step).Floor
  {
    var y := 1.0 / step;
    DivideBack(1.0, step);
    assert y > 1.0;
    assert 1.0 / (10.0 * step) == y / 10.0;
  }

  /** The place of the first significant decimal, 0 from one on. */
  function DecimalPlace(step: real): nat
    requires step > 0.0
    decreases (1.0 / step).Floor
  {
    if step >= 1.0 then 0
    else
      TenthIsSmaller(step);
      1 + DecimalPlace(10.0 * step)
  }

  /** Negative values leave the filter as it was; the precision follows the step. */
  function SetQtyFilter(f: Filter, min: real, max: real, step: real): Filter {
    var s := if step >= 0.0 then step else f.step;
    Filter(if min >= 0.0 then min else f.min, if max >= 0.0 then max else f.max, s,
           if s > 0.0 then DecimalPlace(s) else 0)
  }

  /** Moved to its decimal place, a step below one lies between 1 and 10. */
  lemma {:induction false} FirstDigit(step: real)
    requires step > 0.0
    ensures step >= 1.0 ==> DecimalPlace(step) == 0
    ensures step < 1.0 ==> DecimalPlace(step) > 0 && 1.0 <= Shifted(step, DecimalPlace(step)) < 10.0
    decreases (1.0 / step).Floor
  {
    if step < 1.0 {
      TenthIsSmaller(step);
      var next := 10.0 * step;
      FirstDigit(next);
      var d := DecimalPlace(next);
      assert DecimalPlace(step) == d + 1;
      MovedOn(step, d);
      if next >= 1.0 { assert Pow10(d) == 1.0; }
    }
  }

  lemma MovedOn(x: real, decimals: nat)
    ensures Shifted(x, decimals + 1) == Shifted(10.0 * x, decimals)
  {
    var p := Pow10(decimals);
    assert Pow10(decimals + 1) == 10.0 * p;
    assert x * (10.0 * p) == 10.0 * x * p;
  }

  /** On the filters that the source builds, the adjustment is the identity on whole numbers of steps iff the
      step is a whole number or has one significant decimal. */
  lemma BuiltFilterKeepsGridIff(f: Filter, min: real, max: real, step: real)
    requires var g := SetQtyFilter(f, min, max, step); g.step > 0.0 && Roomy(g)
    ensures var g := SetQtyFilter(f, min, max, step);
            KeepsGrid(g) <==> if g.step >= 1.0 then g.step == g.step.Floor as real
                              else exists n: int :: 1 <= n <= 9 && Scaled(n, g.step, g.precision)
  {
    hide KeepsGrid;
    var g := SetQtyFilter(f, min, max, step);
    KeepsGridIff(g);
    FirstDigit(g.step);
    if g.step >= 1.0 {
      assert Pow10(g.precision) == 1.0;
      assert DecimalStep(g) ==> g.step == g.step.Floor as real;
      assert g.step == g.step.Floor as real ==> Scaled(g.step.Floor, g.step, g.precision);
    } else if DecimalStep(g) {
      var n: int :| Scaled(n, g.step, g.precision);
      assert 1 <= n <= 9;
    }
  }

  /** Steps of a quarter get a precision of one decimal: one step is adjusted to 0.3. */
  lemma QuarterIsRounded()
    ensures SetQtyFilter(Filter(0.0, 0.0, 0.0, 0), 0.0, 0.0, 0.25) == Filter(0.0, 0.0, 0.25, 1)
    ensures AdjustQty(Filter(0.0, 0.0, 0.25, 1), 0.25) == 0.3
  {
    assert DecimalPlace(2.5) == 0;
    assert 10.0 * 0.25 == 2.5;
    TenthIsSmaller(0.25);
    assert Pow10(1) == 10.0;
    assert Multiple(1, 0.25, 0.25);
    RoundToStep(1, 0.25, 0.25);
  }

  // ---- A filter that is set again and again ----

  datatype Setting = Setting(min: real, max: real, step: real)

  function Configured(f: Filter, settings: seq<Setting>): Filter {
    if settings == [] then f
    else
      var s := Last(settings);
      SetQtyFilter(Configured(f, Front(settings)), s.min, s.max, s.step)
  }

  /** `x` is the last value that is not negative, or `start` when all are. */
  predicate IsLastGiven(start: real, values: seq<real>, x: real) {
    (x == start && forall i :: 0 <= i < |values| ==> values[i] < 0.0)
    || exists i :: 0 <= i < |values| && x == values[i] >= 0.0 && forall j :: i < j < |values| ==> values[j] < 0.0
  }

  function Mins(settings: seq<Setting>): (r: seq<real>)
    ensures |r| == |settings|
  {
    seq(|settings|, i requires 0 <= i < |settings| => settings[i].min)
  }

  function Maxs(settings: seq<Setting>): (r: seq<real>)
    ensures |r| == |settings|
  {
    seq(|settings|, i requires 0 <= i < |settings| => settings[i].max)
  }

  function StepsOf(settings: seq<Setting>): (r: seq<real>)
    ensures |r| == |settings|
  {
    seq(|settings|, i requires 0 <= i < |settings| => settings[i].step)
  }

  lemma GivenNext(start: real, values: seq<real>, x: real)
    requires values != [] && IsLastGiven(start, Front(values), x)
    ensures IsLastGiven(start, values, if Last(values) >= 0.0 then Last(values) else x)
  {
    var front := Front(values);
    assert forall i :: 0 <= i < |front| ==> front[i] == values[i];
    if Last(values) >= 0.0 {
      assert values[|values| - 1] == Last(values);
    }
  }

  /** Negative values never change the filter: after any settings each value is the last one that was not
      negative. */
  lemma {:induction false} LastSettingWins(f: Filter, settings: seq<Setting>)
    ensures var g := Configured(f, settings);
            IsLastGiven(f.min, Mins(settings), g.min) && IsLastGiven(f.max, Maxs(settings), g.max)
            && IsLastGiven(f.step, StepsOf(settings), g.step)
            && (settings != [] ==> g.precision == if g.step > 0.0 then DecimalPlace(g.step) else 0)
  {
    if settings != [] {
      hide IsLastGiven, DecimalPlace;
      var front, g := Front(settings), Configured(f, Front(settings));
      LastSettingWins(f, front);
      assert Front(Mins(settings)) == Mins(front) && Front(Maxs(settings)) == Maxs(front);
      assert Front(StepsOf(settings)) == StepsOf(front);
      GivenNext(f.min, Mins(settings), g.min);
      GivenNext(f.max, Maxs(settings), g.max);
      GivenNext(f.step, StepsOf(settings), g.step);
    }
  }

  // ---- What the adjustment makes of a quantity ----

  /** `k` steps are the nearest to `x`; halfway between two, the one further from zero. */
  predicate Nearest(x: real, step: real, k: int) {
    var below, above := (k as real - 0.5) * step, (k as real + 0.5) * step;
    if x >= 0.0 then below <= x < above else below < x <= above
  }

  lemma NearestStepIff(x: real, step: real, k: int)
    requires step > 0.0
    ensures NearestStep(x, step) == k as real * step <==> Nearest(x, step, k)
  {
    hide RoundHalfAway;
    var y := x / step;
    RoundHalfAwayIff(y, k);
    QuotientSign(x, step);
    QuotientOrder(x, step, k as real - 0.5);
    QuotientOrder(x, step, k as real + 0.5);
    ScaleEqual(RoundHalfAway(y), k, step);
  }

  lemma QuotientOrder(x: real, step: real, z: real)
    requires step > 0.0
    ensures (x / step < z <==> x < z * step) && (z < x / step <==> z * step < x)
  {
    DivideBack(x, step);
    ScaleOrder(x / step, z, step);
    ScaleOrder(z, x / step, step);
  }

  lemma QuotientSign(x: real, step: real)
    requires step > 0.0
    ensures x / step >= 0.0 <==> x >= 0.0
  {
    DivideBack(x, step);
    ScaleOrder(x / step, 0.0, step);
  }

  lemma ScaleEqual(a: int, b: int, step: real)
    requires step > 0.0
    ensures a as real * step == b as real * step <==> a == b
  {
    ScaleOrder(a as real, b as real, step);
    ScaleOrder(b as real, a as real, step);
  }

  lemma RoundHalfAwayIff(y: real, k: int)
    ensures RoundHalfAway(y) == k
       <==> if y >= 0.0 then k as real - 0.5 <= y < k as real + 0.5 else k as real - 0.5 < y <= k as real + 0.5
  {
  }

  /** How far the adjustment moves a quantity: to 0 from below the minimum, to the maximum from above it, and
      otherwise half a step and half a decimal at most, unless the minimum stands for less. */
  lemma AdjustMovesLittle(f: Filter, q: real)
    ensures var r := AdjustQty(f, q);
            if f.min > 0.0 && q < f.min then r == 0.0
            else if !InMax(f, q) then r == f.max
            else if f.step <= 0.0 then r == q
            else r >= f.min && (r == f.min || Basics.Abs(r - q) <= 0.5 * f.step + HalfDecimal(f.precision))
  {
    hide NearestStep, RoundDecimals, HalfDecimal;
    if f.step > 0.0 {
      NearestIsNear(q, f.step);
      RoundingIsNear(NearestStep(q, f.step), f.precision);
    }
  }

  lemma NearestIsNear(x: real, step: real)
    requires step > 0.0
    ensures Basics.Abs(NearestStep(x, step) - x) <= 0.5 * step
  {
    hide NearestStep;
    var k := RoundHalfAway(x / step);
    NearestStepIff(x, step, k);
    Distribute(k as real, 0.5, step);
    assert NearestStep(x, step) == k as real * step by { NearestAt(x, step); }
  }

  lemma NearestAt(x: real, step: real)
    requires step > 0.0
    ensures NearestStep(x, step) == RoundHalfAway(x / step) as real * step
  {
  }

  lemma RoundingIsNear(x: real, decimals: nat)
    ensures Basics.Abs(RoundDecimals(x, decimals) - x) <= HalfDecimal(decimals)
  {
    hide RoundDecimals, HalfDecimal;
    var f := Filter(0.0, 0.0, 0.0, decimals);
    RoundsToIff(f, x, RoundDecimals(x, decimals));
  }

  lemma NearestMonotone(x: real, y: real, step: real)
    requires step > 0.0 && x <= y
    ensures NearestStep(x, step) <= NearestStep(y, step)
  {
    QuotientMonotone(x, y, step);
    ScaleNotAbove(RoundHalfAway(x / step) as real, RoundHalfAway(y / step) as real, step);
  }

  lemma QuotientMonotone(x: real, y: real, p: real)
    requires p > 0.0 && x <= y
    ensures x / p <= y / p
  {
    DivideBack(x, p);
    DivideBack(y, p);
    ScaleOrder(y / p, x / p, p);
  }

  lemma ScaleNotAbove(a: real, b: real, p: real)
    requires p > 0.0 && a <= b
    ensures a * p <= b * p
  {
    ScaleOrder(b, a, p);
  }

  lemma FloorMonotone(x: real, y: real)
    requires x <= y
    ensures x.Floor <= y.Floor
  {
  }

  lemma RoundMonotone(x: real, y: real, p: real)
    requires p > 0.0 && x <= y
    ensures RoundAt(x, p) <= RoundAt(y, p)
  {
    hide Rounded;
    ScaleNotAbove(x, y, p);
    RoundAtScaled(x, p);
    RoundAtScaled(y, p);
    hide RoundAt;
    RoundedOrder(x * p, y * p, p);
  }

  /** What rounding makes of a quantity in units of a decimal. */
  function Rounded(u: real, p: real): real
    requires p > 0.0
  {
    (u + 0.5).Floor as real / p
  }

  lemma RoundAtScaled(x: real, p: real)
    requires p > 0.0
    ensures RoundAt(x, p) == Rounded(x * p, p)
  {
  }

  lemma RoundedOrder(u: real, v: real, p: real)
    requires p > 0.0 && u <= v
    ensures Rounded(u, p) <= Rounded(v, p)
  {
    FloorMonotone(u + 0.5, v + 0.5);
    QuotientMonotone((u + 0.5).Floor as real, (v + 0.5).Floor as real, p);
  }

  /** No adjusted quantity is above the maximum iff the maximum itself is not adjusted upwards. */
  lemma StaysBelowMaxIff(f: Filter)
    requires f.max > 0.0
    ensures (forall q: real :: AdjustQty(f, q) <= f.max) <==> AdjustQty(f, f.max) <= f.max
  {
    hide NearestStep, RoundAt, Pow10;
    if AdjustQty(f, f.max) <= f.max {
      forall q: real ensures AdjustQty(f, q) <= f.max {
        if f.step > 0.0 && q <= f.max {
          NearestMonotone(q, f.max, f.step);
          RoundMonotone(NearestStep(q, f.step), NearestStep(f.max, f.step), Pow10(f.precision));
        }
      }
    }
  }

  /** A maximum of 1 in steps of 0.4: the maximum itself is adjusted to 1.2. */
  lemma MaximumIsExceeded()
    ensures SetQtyFilter(Filter(0.0, 0.0, 0.0, 0), 0.0, 1.0, 0.4) == Filter(0.0, 1.0, 0.4, 1)
    ensures AdjustQty(Filter(0.0, 1.0, 0.4, 1), 1.0) == 1.2
  {
    assert DecimalPlace(4.0) == 0;
    TenthIsSmaller(0.4);
    assert 10.0 * 0.4 == 4.0;
    NearestStepIff(1.0, 0.4, 3);
    var f := Filter(0.0, 1.0, 0.4, 1);
    assert Pow10(1) == 10.0;
    assert Scaled(12, 1.2, 1);
    RoundToDecimals(f, 1.2);
  }
}
