/**
 A "nice" axis for a data range, in exact arithmetic: the range rounded outward to multiples of
 1, 2, 5 or 10 times a power of ten, with evenly spaced ticks.
 */
module SelfHealth {

  datatype Number = Finite(r: real) | NotFinite

  lemma Sign(u: real, l: real)
    requires l > 0.0
    ensures u >= 0.0 <==> u * l >= 0.0
    ensures u > 0.0 <==> u * l > 0.0
  {
  }

  lemma Spread(a: real, b: real, l: real)
    ensures (a - b) * l == a * l - b * l
  {
  }

  lemma ScaleOrder(a: real, b: real, l: real)
    requires l > 0.0
    ensures a <= b <==> a * l <= b * l
    ensures a < b <==> a * l < b * l
  {
    Sign(b - a, l);
    Spread(b, a, l);
  }

  lemma DivideBack(x: real, l: real)
    requires l > 0.0
    ensures (x / l) * l == x
  {
  }

  /* ---------- powers of ten ---------- */

  function Pow10(k: int): (p: real)
    ensures p > 0.0
    decreases if k < 0 then -k else k
  {
    if k == 0 then 1.0 else if k > 0 then 10.0 * Pow10(k - 1) else Pow10(k + 1) / 10.0
  }

  lemma Pow10Next(k: int)
    ensures Pow10(k + 1) == 10.0 * Pow10(k)
  {
  }

  /** The whole part of the decimal logarithm. */
  function Log10(x: real): (k: int)
    requires x > 0.0
    ensures Pow10(k) <= x < 10.0 * Pow10(k)
    decreases if x < 1.0 then 1 else 0, if x < 1.0 then (1.0 / x).Floor else x.Floor
  {
    if x >= 10.0 then
      var k := Log10(x / 10.0);
      Pow10Next(k);
      k + 1
    else if x < 1.0 then
      Shrinks(x);
      var k := Log10(10.0 * x);
      Pow10Next(k - 1);
      k - 1
    else 0
  }

  lemma Shrinks(x: real)
    requires 0.0 < x < 1.0
    ensures 10.0 * x < 1.0 ==> 0 <= (1.0 / (10.0 * x)).Floor < (1.0 / x).Floor
  {
    if 10.0 * x < 1.0 {
      var y, z := 1.0 / x, 1.0 / (10.0 * x);
      assert y * x == 1.0 && z * (10.0 * x) == 1.0;
      assert (y - 10.0 * z) * x == 0.0;
      assert y == 10.0 * z;
      Sign(1.0 - z, 10.0 * x);
      Spread(1.0, z, 10.0 * x);
    }
  }

  /* ---------- rounding to multiples ---------- */

  function Ceil(x: real): int {
    -((-x).Floor)
  }

  function Round(x: real): int {
    (x + 0.5).Floor
  }

  function Times(k: int, step: real): real {
    (k as real) * step
  }

  lemma AtMost(k: int, q: real, step: real)
    requires step > 0.0 && k as real <= q
    ensures Times(k, step) <= q * step
  {
    ScaleOrder(k as real, q, step);
  }

  lemma LessThan(q: real, k: int, step: real)
    requires step > 0.0 && q < k as real
    ensures q * step < Times(k, step)
  {
    ScaleOrder(q, k as real, step);
  }

  lemma MultipleBelow(x: real, step: real)
    requires step > 0.0
    ensures Times((x / step).Floor, step) <= x < Times((x / step).Floor + 1, step)
  {
    var q := x / step;
    DivideBack(x, step);
    AtMost(q.Floor, q, step);
    LessThan(q, q.Floor + 1, step);
  }

  lemma CeilIs(q: real)
    ensures (Ceil(q) - 1) as real < q <= Ceil(q) as real
  {
  }

  lemma MultipleAbove(x: real, step: real)
    requires step > 0.0
    ensures Times(Ceil(x / step) - 1, step) < x <= Times(Ceil(x / step), step)
  {
    var q := x / step;
    DivideBack(x, step);
    CeilIs(q);
    ScaleOrder((Ceil(q) - 1) as real, q, step);
    ScaleOrder(q, Ceil(q) as real, step);
  }

  lemma TimesOrder(a: int, b: int, step: real)
    requires step > 0.0
    ensures a < b <==> Times(a, step) < Times(b, step)
  {
    assert Times(b, step) - Times(a, step) == ((b - a) as real) * step;
    if a < b {
      assert ((b - a) as real) * step > 0.0;
    } else {
      assert ((a - b) as real) * step >= 0.0;
    }
  }

  lemma TimesNext(a: int, step: real)
    ensures Times(a + 1, step) == Times(a, step) + step
  {
  }

  lemma QuotientOfMultiple(k: int, step: real)
    requires step > 0.0
    ensures Times(k, step) / step == k as real
  {
    var q := Times(k, step) / step;
    assert q * step == (k as real) * step;
    assert (q - k as real) * step == 0.0;
  }

  /* ---------- the axis ---------- */

  predicate IsNiceTimes(step: real, mag: real) {
    step == mag || step == 2.0 * mag || step == 5.0 * mag || step == 10.0 * mag
  }

  predicate NiceAt(step: real, k: int) {
    IsNiceTimes(step, Pow10(k))
  }

  ghost predicate IsNiceStep(step: real) {
    step > 0.0 && exists k: int :: NiceAt(step, k)
  }

  function NiceFactor(norm: real): real {
    if norm <= 1.0 then 1.0 else if norm <= 2.0 then 2.0 else if norm <= 5.0 then 5.0 else 10.0
  }

  function StepAt(norm: real, k: int): real {
    NiceFactor(norm) * Pow10(k)
  }

  /** The step for a raw step: the next larger nice number. */
  function NiceStep(rawStep: real): (step: real)
    requires rawStep > 0.0
  {
    var k := Log10(rawStep);
    StepAt(rawStep / Pow10(k), k)
  }

  lemma FactorCovers(norm: real)
    requires norm < 10.0
    ensures norm <= NiceFactor(norm) && NiceFactor(norm) > 0.0
  {
  }

  lemma FactorIsNice(norm: real, k: int)
    ensures NiceAt(StepAt(norm, k), k)
  {
  }

  lemma UnderTen(rawStep: real, norm: real, mag: real)
    requires mag > 0.0 && norm * mag == rawStep && rawStep < 10.0 * mag
    ensures norm < 10.0
  {
    if norm >= 10.0 {
      Sign(norm - 10.0, mag);
      Spread(norm, 10.0, mag);
    }
  }

  lemma Scaled(a: real, b: real, l: real)
    requires l > 0.0 && a <= b
    ensures a * l <= b * l
  {
    ScaleOrder(a, b, l);
  }

  lemma ScaledPositive(a: real, l: real)
    requires l > 0.0 && a > 0.0
    ensures a * l > 0.0
  {
  }

  lemma Covers(rawStep: real, norm: real, mag: real)
    requires mag > 0.0 && norm * mag == rawStep && 0.0 < rawStep < 10.0 * mag
    ensures rawStep <= NiceFactor(norm) * mag && NiceFactor(norm) * mag > 0.0
  {
    UnderTen(rawStep, norm, mag);
    FactorCovers(norm);
    Scaled(norm, NiceFactor(norm), mag);
    ScaledPositive(NiceFactor(norm), mag);
  }

  lemma NiceStepIsNice(rawStep: real)
    requires rawStep > 0.0
    ensures IsNiceStep(NiceStep(rawStep)) && rawStep <= NiceStep(rawStep)
  {
    NiceStepCovers(rawStep);
    NiceStepAt(rawStep);
  }

  lemma NiceStepCovers(rawStep: real)
    requires rawStep > 0.0
    ensures rawStep <= NiceStep(rawStep) && NiceStep(rawStep) > 0.0
  {
    var mag := Pow10(Log10(rawStep));
    DivideBack(rawStep, mag);
    Covers(rawStep, rawStep / mag, mag);
  }

  lemma NiceStepAt(rawStep: real)
    requires rawStep > 0.0
    ensures NiceAt(NiceStep(rawStep), Log10(rawStep))
  {
    FactorIsNice(rawStep / Pow10(Log10(rawStep)), Log10(rawStep));
  }

  lemma {:induction false} Pow10Grows(k: int, l: int)
    requires k < l
    ensures 10.0 * Pow10(k) <= Pow10(l)
    decreases l - k
  {
    Pow10Next(l - 1);
    if k < l - 1 {
      Pow10Grows(k, l - 1);
    }
  }

  lemma LeastFactor(norm: real, mag: real, step: real)
    requires mag > 0.0 && norm * mag <= step
    requires IsNiceTimes(step, mag)
    requires norm < 10.0
    ensures NiceFactor(norm) * mag <= step
  {
    var f := if step == mag then 1.0 else if step == 2.0 * mag then 2.0 else if step == 5.0 * mag then 5.0 else 10.0;
    assert step == f * mag;
    ScaleOrder(norm, f, mag);
    ScaleOrder(NiceFactor(norm), f, mag);
  }

  lemma BoundedStep(norm: real, mag: real)
    requires mag > 0.0
    ensures NiceFactor(norm) * mag <= 10.0 * mag
  {
    ScaleOrder(NiceFactor(norm), 10.0, mag);
  }

  lemma LeastAmongHigher(norm: real, mag: real, step: real, higher: real)
    requires mag > 0.0 && 10.0 * mag <= higher <= step
    ensures NiceFactor(norm) * mag <= step
  {
    BoundedStep(norm, mag);
  }

  lemma LeastAmongLower(norm: real, mag: real, raw: real, step: real, lower: real)
    requires mag > 0.0 && norm * mag == raw && norm < 10.0
    requires mag <= raw <= step <= 10.0 * lower <= mag
    ensures NiceFactor(norm) * mag <= step
  {
    assert step == mag;
    LeastFactor(norm, mag, step);
  }

  /** Among the nice numbers of any power, the raw step's own power has the least that is not below it. */
  lemma LeastOfPower(norm: real, raw: real, mag: real, step: real, power: real)
    requires mag > 0.0 && power > 0.0 && norm * mag == raw && norm < 10.0 && mag <= raw <= step
    requires IsNiceTimes(step, power)
    requires power == mag || 10.0 * mag <= power || 10.0 * power <= mag
    ensures NiceFactor(norm) * mag <= step
  {
    if power == mag {
      LeastFactor(norm, mag, step);
    } else if 10.0 * mag <= power {
      LeastAmongHigher(norm, mag, step, power);
    } else {
      LeastAmongLower(norm, mag, raw, step, power);
    }
  }

  lemma PowersApart(k: int, l: int)
    ensures Pow10(l) == Pow10(k) || 10.0 * Pow10(k) <= Pow10(l) || 10.0 * Pow10(l) <= Pow10(k)
  {
    if k < l {
      Pow10Grows(k, l);
    } else if l < k {
      Pow10Grows(l, k);
    }
  }

  lemma AtLog(rawStep: real) returns (norm: real, mag: real)
    requires rawStep > 0.0
    ensures mag == Pow10(Log10(rawStep)) && mag > 0.0
    ensures NiceStep(rawStep) == NiceFactor(norm) * mag
    ensures norm * mag == rawStep && norm < 10.0 && mag <= rawStep
  {
    mag := Pow10(Log10(rawStep));
    norm := rawStep / mag;
    DivideBack(rawStep, mag);
    UnderTen(rawStep, norm, mag);
  }

  /** No nice number from the raw step on is smaller than the step. */
  lemma NiceStepIsLeast(rawStep: real, step: real)
    requires rawStep > 0.0 && IsNiceStep(step) && rawStep <= step
    ensures NiceStep(rawStep) <= step
  {
    var l :| NiceAt(step, l);
    var norm, mag := AtLog(rawStep);
    PowersApart(Log10(rawStep), l);
    LeastOfPower(norm, rawStep, mag, step, Pow10(l));
  }

  predicate EvenTicks(ticks: seq<real>, min: real, max: real, step: real) {
    && |ticks| >= 2 && ticks[0] == min && ticks[|ticks| - 1] == max
    && forall i | 0 <= i < |ticks| - 1 :: ticks[i + 1] == ticks[i] + step
  }

  function MaxInt(a: int, b: int): int {
    if a >= b then a else b
  }

  /** A range no longer than n steps touches at most n + 1 of them. */
  lemma SpanBound(a: int, b: int, low: real, high: real, step: real, n: int)
    requires step > 0.0 && n >= 1
    requires low < Times(a + 1, step) && Times(b - 1, step) < high
    requires high - low <= Times(n, step)
    ensures b - a <= n + 1
  {
    var d := b - a - 2;
    Spread((b - 1) as real, (a + 1) as real, step);
    Spread(n as real, d as real, step);
    Sign(n as real - d as real, step);
  }

  lemma RawStepPositive(span: real, n: int)
    requires span > 0.0 && n >= 1
    ensures span / (n as real) > 0.0
  {
    var q := span / (n as real);
    assert q * (n as real) == span;
    Sign(q, n as real);
  }

  /** Half a millionth of a step does not reach the next multiple. */
  lemma ToleranceIsHarmless(k: int, b: int, step: real)
    requires step > 0.0
    ensures Times(k, step) <= Times(b, step) + step / 1000000.0 <==> k <= b
  {
    if k <= b {
      if k < b {
        TimesOrder(k, b, step);
      }
      assert step / 1000000.0 > 0.0;
    } else {
      assert Times(k, step) - Times(b, step) == ((k - b) as real) * step;
      assert ((k - b - 1) as real) * step >= 0.0;
      assert step / 1000000.0 < step;
    }
  }

  /** The widened range of a flat series, else the range itself. */
  function Widened(rawMin: real, rawMax: real): (r: (real, real))
    requires rawMin <= rawMax
    ensures r.0 <= rawMin && rawMax <= r.1 && r.0 < r.1
    ensures rawMin < rawMax ==> r == (rawMin, rawMax)
    ensures rawMin == rawMax && rawMin > 0.0 ==> r.0 > 0.0
    ensures rawMin == rawMax ==> rawMin - r.0 == r.1 - rawMax
    ensures rawMin == rawMax != 0.0 ==> rawMin - r.0 == rawMin / 10.0 || rawMin - r.0 == -rawMin / 10.0
  {
    if rawMin == rawMax then
      var size := if rawMin < 0.0 then -rawMin else rawMin;
      var pad := if size == 0.0 then 1.0 else size * 0.1;
      (rawMin - pad, rawMax + pad)
    else (rawMin, rawMax)
  }

  /** The ends of the axis in steps, and what they guarantee about the data. */
  function LowSteps(low: real, step: real, nonNegative: bool): int
    requires step > 0.0
  {
    var a := (low / step).Floor;
    if nonNegative && a < 0 then 0 else a
  }

  lemma LowStepsCover(rawMin: real, low: real, step: real)
    requires step > 0.0 && low <= rawMin
    ensures var a := LowSteps(low, step, rawMin >= 0.0);
            && Times(a, step) <= rawMin
            && (rawMin >= 0.0 ==> Times(a, step) >= 0.0)
            && low < Times(a + 1, step)
  {
    MultipleBelow(low, step);
    var f := (low / step).Floor;
    var a := LowSteps(low, step, rawMin >= 0.0);
    TimesOrder(f, a, step);
    TimesNext(f, step);
    TimesNext(a, step);
    assert Times(0, step) == 0.0;
    if a > 0 {
      TimesOrder(0, a, step);
    }
  }

  /** The upper end in steps lies above the lower one, so the source's last correction is never needed. */
  lemma HighStepsAbove(rawMin: real, low: real, high: real, step: real)
    requires step > 0.0 && low <= rawMin <= high && low < high
    requires rawMin >= 0.0 ==> high > 0.0
    ensures Ceil(high / step) > LowSteps(low, step, rawMin >= 0.0)
  {
    MultipleAbove(high, step);
    MultipleBelow(low, step);
    var a, b, f := LowSteps(low, step, rawMin >= 0.0), Ceil(high / step), (low / step).Floor;
    if a == f {
      TimesOrder(a, b, step);
    } else {
      assert Times(0, step) == 0.0;
      TimesOrder(0, b, step);
    }
  }

  /** The step is the least nice number that so many steps of cover the widened range. */
  ghost predicate IsStepFor(step: real, rawMin: real, rawMax: real, parts: int)
    requires rawMin <= rawMax
  {
    var r := Widened(rawMin, rawMax);
    r.1 - r.0 <= Times(parts, step) && forall s: real :: IsNiceStep(s) && r.1 - r.0 <= Times(parts, s) ==> step <= s
  }

  lemma StepReaches(span: real, parts: int, s: real)
    requires parts >= 1
    ensures span / (parts as real) <= s <==> span <= Times(parts, s)
  {
    DivideBack(span, parts as real);
    ScaleOrder(span / (parts as real), s, parts as real);
  }

  lemma LeastStepFor(rawMin: real, rawMax: real, parts: int, span: real)
    requires rawMin <= rawMax && parts >= 1 && span / (parts as real) > 0.0
    requires span == Widened(rawMin, rawMax).1 - Widened(rawMin, rawMax).0
    ensures IsStepFor(NiceStep(span / (parts as real)), rawMin, rawMax, parts)
  {
    var raw := span / (parts as real);
    NiceStepIsNice(raw);
    StepReaches(span, parts, NiceStep(raw));
    forall s: real | IsNiceStep(s) && span <= Times(parts, s)
      ensures NiceStep(raw) <= s
    {
      StepReaches(span, parts, s);
      NiceStepIsLeast(raw, s);
    }
  }

  lemma EndsAreTight(a: int, b: int, low: real, high: real, step: real)
    requires low < Times(a + 1, step) && Times(b - 1, step) < high
    ensures low < Times(a, step) + step && Times(b, step) - step < high
  {
    TimesNext(a, step);
    TimesNext(b - 1, step);
  }

  /**
   The axis contains the data, does not go below zero for data that does not, and its ticks run
   from one end to the other in equal nice steps, at least two and at most one more than asked for.
   */
  method NiceDomain(rawMin: Number, rawMax: Number, tickCount: int)
    returns (min: real, max: real, ticks: seq<real>, ghost step: real)
    requires rawMin.Finite? && rawMax.Finite? ==> rawMin.r <= rawMax.r
    ensures rawMin.NotFinite? || rawMax.NotFinite? ==> (min, max, ticks) == (0.0, 1.0, [0.0, 1.0])
    ensures rawMin.Finite? && rawMax.Finite? ==>
              && min <= rawMin.r && rawMax.r <= max
              && (rawMin.r >= 0.0 ==> min >= 0.0)
              && IsNiceStep(step) && EvenTicks(ticks, min, max, step)
              && 2 <= |ticks| <= MaxInt(tickCount, 2) + 1
              && Widened(rawMin.r, rawMax.r).0 < min + step && max - step < Widened(rawMin.r, rawMax.r).1
              && IsStepFor(step, rawMin.r, rawMax.r, MaxInt(1, tickCount - 1))
  {
    if rawMin.NotFinite? || rawMax.NotFinite? {
      return 0.0, 1.0, [0.0, 1.0], 1.0;
    }
    var nonNegative := rawMin.r >= 0.0;
    var range := Widened(rawMin.r, rawMax.r);
    var low, high := range.0, range.1;
    var parts := MaxInt(1, tickCount - 1);
    RawStepPositive(high - low, parts);
    var rawStep := (high - low) / (parts as real);
    var s := NiceStep(rawStep);
    NiceStepIsNice(rawStep);
    LeastStepFor(rawMin.r, rawMax.r, parts, high - low);
    assert high - low <= Times(parts, s);
    ghost var a, b := LowSteps(low, s, nonNegative), Ceil(high / s);
    LowStepsCover(rawMin.r, low, s);
    MultipleAbove(high, s);
    HighStepsAbove(rawMin.r, low, high, s);
    SpanBound(a, b, low, high, s, parts);
    EndsAreTight(a, b, low, high, s);
    TimesOrder(a, b, s);
    min := Times((low / s).Floor, s);
    max := Times(Ceil(high / s), s);
    if nonNegative && min < 0.0 {
      min := 0.0;
    }
    LowEndIs(low, s, nonNegative);
    if max <= min {
      max := min + s;
    }
    ticks := PushTicks(min, max, s, a, b);
    step := s;
  }

  lemma LowEndIs(low: real, step: real, nonNegative: bool)
    requires step > 0.0
    ensures var m := Times((low / step).Floor, step);
            Times(LowSteps(low, step, nonNegative), step) == if nonNegative && m < 0.0 then 0.0 else m
  {
    assert Times(0, step) == 0.0;
    TimesOrder((low / step).Floor, 0, step);
  }

  method PushTicks(min: real, max: real, step: real, ghost a: int, ghost b: int) returns (ticks: seq<real>)
    requires step > 0.0 && a < b
    requires min == Times(a, step) && max == Times(b, step)
    ensures |ticks| == b - a + 1 && EvenTicks(ticks, min, max, step)
  {
    ticks := [];
    var v := min;
    ghost var k := a;
    ToleranceIsHarmless(k, b, step);
    while v <= max + step / 1000000.0
      invariant a <= k <= b + 1 && v == Times(k, step) && |ticks| == k - a
      invariant v <= max + step / 1000000.0 <==> k <= b
      invariant forall i | 0 <= i < |ticks| :: ticks[i] == Times(a + i, step)
      decreases b + 1 - k
    {
      QuotientOfMultiple(k, step);
      assert Round(v / step) == k;
      ticks := ticks + [Times(Round(v / step), step)];
      TimesNext(k, step);
      v := v + step;
      k := k + 1;
      ToleranceIsHarmless(k, b, step);
    }
    forall i | 0 <= i < |ticks| - 1
      ensures ticks[i + 1] == ticks[i] + step
    {
      TimesNext(a + i, step);
    }
  }
}
