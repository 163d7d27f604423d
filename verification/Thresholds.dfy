/**
 The amounts at which a verdict flips. Scaling the known free capacity of a pool to x and judging
 again gives "fits" exactly from one threshold on, and "does not fit" exactly below another; so
 every change listed with a verdict sits on a real boundary.
 */
module Thresholds {
  import opened Advice
  import opened PoolWorlds

  /** What building a pool from nodes guarantees, and moving workloads in or out may break. */
  predicate Built(p: Pool) {
    && Numbers(p)
    && (Rank(p.loClass) > 0 <==> p.knownNodes > 0)
  }

  predicate Numbers(p: Pool) {
    && 0.0 <= p.knownFree
    && p.knownFree * 0.5 <= p.lo <= p.knownFree * 0.95
    && p.knownFree * 1.05 <= p.hiKnown <= p.knownFree * 1.5
    && !IsBelow(Extra(p), 0.0)
    && (p.knownNodes == 0 ==> p.knownFree == 0.0)
  }

  /** What moving workloads in and out keeps. */
  predicate Ordered(p: Pool) {
    0.0 <= p.lo <= p.hiKnown && 0.0 <= p.knownFree <= p.hiKnown && !IsBelow(Extra(p), 0.0)
  }

  predicate SomeKnownFree(p: Pool) {
    p.knownNodes > 0 && p.knownFree > 0.0
  }

  /** The low end is gone although some free capacity is known: scaling multiplies nothing. */
  predicate Emptied(p: Pool) {
    SomeKnownFree(p) && p.lo == 0.0
  }

  lemma BuiltIsOrdered(p: Pool)
    requires Built(p)
    ensures Ordered(p) && !Emptied(p)
    ensures SomeKnownFree(p) <==> p.knownFree > 0.0
  {
  }

  lemma WidthBounds(c: Class)
    requires Rank(c) > 0
    ensures 0.05 <= Width(c) <= 0.5
  {
  }

  lemma EndsBounds(x: real, c: Class)
    requires x >= 0.0 && Rank(c) > 0
    ensures x * 0.5 <= LowEnd(x, c) <= x * 0.95
    ensures x * 1.05 <= HighEnd(x, c) <= x * 1.5
  {
    WidthBounds(c);
  }

  lemma ExtendKeepsNumbers(p: Pool, n: CapNode, now: int, window: int)
    requires Numbers(p)
    requires Known(n.allocatable) ==> n.allocatable.value.value >= 0.0
    ensures Numbers(Extend(p, n, now, window))
  {
    if Known(n.allocatable) {
      if Known(n.requested) {
        EndsBounds(Free(n), FreeClass(n, now, window));
      } else {
        EndsBounds(n.allocatable.value.value, EffectiveClass(n.allocatable, now, window));
      }
    }
  }

  lemma {:induction false} SumIsBuilt(nodes: seq<CapNode>, now: int, window: int)
    requires Sane(nodes)
    ensures Numbers(SumOf(nodes, now, window)) && Rank(SumOf(nodes, now, window).loClass) > 0
  {
    if nodes != [] {
      var k := |nodes| - 1;
      SumIsBuilt(nodes[..k], now, window);
      ExtendKeepsNumbers(SumOf(nodes[..k], now, window), nodes[k], now, window);
    }
  }

  lemma PoolIsBuilt(nodes: seq<CapNode>, now: int, window: int)
    requires Sane(nodes)
    ensures Built(PoolOf(nodes, now, window))
  {
    SumIsBuilt(nodes, now, window);
    if nodes != [] {
      LoClassAside(nodes, now, window);
      KeepsNumbers(SumOf(nodes, now, window), PoolOf(nodes, now, window));
    }
  }

  lemma KeepsNumbers(p: Pool, q: Pool)
    requires Numbers(p)
    requires p.lo == q.lo && p.hi == q.hi && p.hiKnown == q.hiKnown && p.knownFree == q.knownFree
             && p.knownNodes == q.knownNodes
    ensures Numbers(q)
  {
  }

  /* ---------- division by a positive number, as the comparisons below need it ---------- */

  lemma SignOfProduct(u: real, l: real)
    requires l > 0.0
    ensures u >= 0.0 <==> u * l >= 0.0
  {
  }

  lemma Cross(a: real, l: real, n: real, x: real)
    requires a > 0.0 && l > 0.0
    ensures l * (x / a) >= n <==> x >= a * n / l
  {
    var s, t := x / a, a * n / l;
    assert s * a == x && t * l == a * n;
    assert (x - t) * l == (l * s - n) * a;
    SignOfProduct(x - t, l);
    SignOfProduct(l * s - n, a);
  }

  lemma CrossSimple(k: real, n: real, x: real)
    requires k > 0.0
    ensures x * k >= n <==> x >= n / k
  {
    var t := n / k;
    assert t * k == n;
    assert (x - t) * k == x * k - n;
    SignOfProduct(x - t, k);
  }

  lemma DivPositive(m: real, h: real)
    requires m > 0.0 && h > 0.0
    ensures m / h > 0.0
  {
    SignOfProduct(-(m / h), h);
  }

  lemma DivBelow(m: real, h: real, n: real, l: real)
    requires 0.0 < l < h && 0.0 < m <= n
    ensures m / h < n / l
  {
    var u, v := m / h, n / l;
    assert u * h == m && v * l == n;
    DivPositive(n, l);
    SignOfProduct(v, h - l);
    assert v * h - v * l == v * (h - l);
    assert (u - v) * h == u * h - v * h;
    SignOfProduct(-v, h - l);
    SignOfProduct(u - v, h);
  }

  lemma ScaleKeepsOrder(l: real, h: real, s: real)
    requires l <= h && s >= 0.0
    ensures l * s <= h * s
  {
    assert (h - l) * s >= 0.0;
  }

  lemma NotNegative(x: real, a: real)
    requires x >= 0.0 && a > 0.0
    ensures x / a >= 0.0
  {
    SignOfProduct(x / a, a);
  }

  /* ---------- the thresholds are exact ---------- */

  lemma ScaledOrder(p: Pool, x: real)
    requires Ordered(p) && x >= 0.0
    ensures var q := ScaledPool(p, x); Covers(q.hi, q.lo)
  {
    if SomeKnownFree(p) {
      NotNegative(x, p.knownFree);
      ScaleKeepsOrder(p.lo, p.hiKnown, x / p.knownFree);
    } else {
      EndsBounds(x, if Rank(p.loClass) == 0 then Reported else p.loClass);
    }
  }

  lemma FitsWhenLowCovers(need: Need, q: Pool)
    requires Covers(q.hi, q.lo)
    requires need.value.Some? && need.value.value > 0.0
    ensures FitVerdict(need, q) == Fits <==> q.lo >= need.value.value
  {
  }

  lemma LowReachesByClass(p: Pool, n: real, x: real)
    requires !SomeKnownFree(p)
    ensures ScaledPool(p, x).lo >= n <==> x >= ThresholdFits(p, n)
  {
    var c := if Rank(p.loClass) == 0 then Reported else p.loClass;
    var k := 1.0 - Width(c);
    WidthBounds(c);
    CrossSimple(k, n, x);
    assert ThresholdFits(p, n) == n / k;
    assert ScaledPool(p, x).lo == LowEnd(x, c) == x * k;
  }

  lemma LowReaches(p: Pool, n: real, x: real)
    requires Ordered(p) && !Emptied(p)
    ensures ScaledPool(p, x).lo >= n <==> x >= ThresholdFits(p, n)
  {
    if SomeKnownFree(p) {
      Cross(p.knownFree, p.lo, n, x);
    } else {
      LowReachesByClass(p, n, x);
    }
  }

  /** A pool scaled to x fits a positive need exactly when x reaches ThresholdFits. */
  lemma FitsExactly(p: Pool, need: Need, x: real)
    requires Ordered(p) && !Emptied(p) && x >= 0.0
    requires need.value.Some? && need.value.value > 0.0
    ensures FitVerdict(need, ScaledPool(p, x)) == Fits <==> x >= ThresholdFits(p, need.value.value)
  {
    ScaledOrder(p, x);
    LowReaches(p, need.value.value, x);
    FitsWhenLowCovers(need, ScaledPool(p, x));
  }

  lemma HighFallsShort(p: Pool, n: real, x: real)
    requires SomeKnownFree(p) && p.hiKnown > 0.0 && x >= 0.0
    ensures IsBelow(ScaledPool(p, x).hi, n) <==>
            ThresholdDoesNot(p, n).Some? && x < ThresholdDoesNot(p, n).value
  {
    var extra := Extra(p);
    var s := x / p.knownFree;
    assert ScaledPool(p, x).hi == Plus(extra, p.hiKnown * s);
    NotNegative(x, p.knownFree);
    SignOfProduct(s, p.hiKnown);
    if extra.Finite? && extra.r < n {
      Cross(p.knownFree, p.hiKnown, n - extra.r, x);
    }
  }

  lemma ThresholdsOrdered(p: Pool, n: real)
    requires Built(p) && p.knownFree > 0.0 && n > 0.0
    requires ThresholdDoesNot(p, n).Some?
    ensures 0.0 < ThresholdDoesNot(p, n).value < ThresholdFits(p, n)
  {
    var m := n - Extra(p).r;
    assert 0.0 < m <= n;
    var a, b := p.knownFree * m, p.knownFree * n;
    SignOfProduct(n - m, p.knownFree);
    assert (n - m) * p.knownFree == b - a;
    SignOfProduct(-m, p.knownFree);
    DivPositive(a, p.hiKnown);
    DivBelow(a, p.hiKnown, b, p.lo);
  }

  /**
   With some free capacity known, a pool scaled to x does not fit a positive need exactly when
   there is a lower threshold and x is below it; that threshold is below the other one.
   */
  lemma DoesNotFitExactly(p: Pool, need: Need, x: real)
    requires Built(p) && p.knownFree > 0.0 && x >= 0.0
    requires need.value.Some? && need.value.value > 0.0
    ensures var dnf := ThresholdDoesNot(p, need.value.value);
            && (FitVerdict(need, ScaledPool(p, x)) == DoesNotFit <==> dnf.Some? && x < dnf.value)
            && (dnf.Some? ==> 0.0 < dnf.value < ThresholdFits(p, need.value.value))
  {
    HighFallsShort(p, need.value.value, x);
    if ThresholdDoesNot(p, need.value.value).Some? {
      ThresholdsOrdered(p, need.value.value);
    }
  }

  /** With nothing known to be free, no lower threshold is listed although one may exist. */
  lemma DoesNotFitListedExactlyWhen(p: Pool, need: Need)
    requires Built(p)
    requires need.value.Some? && need.value.value > 0.0
    ensures (forall x | x >= 0.0 ::
               FitVerdict(need, ScaledPool(p, x)) == DoesNotFit <==>
               ThresholdDoesNot(p, need.value.value).Some? && x < ThresholdDoesNot(p, need.value.value).value)
            <==> p.knownFree > 0.0 || (p.knownNodes > 0 && !IsBelow(Extra(p), need.value.value))
  {
    if p.knownFree > 0.0 {
      forall x | x >= 0.0
        ensures FitVerdict(need, ScaledPool(p, x)) == DoesNotFit <==>
                ThresholdDoesNot(p, need.value.value).Some? && x < ThresholdDoesNot(p, need.value.value).value
      {
        DoesNotFitExactly(p, need, x);
      }
    } else {
      var c := if Rank(p.loClass) == 0 then Reported else p.loClass;
      assert HighEnd(0.0, c) == 0.0;
      forall x | x >= 0.0
        ensures HighEnd(x, c) >= 0.0
      {
        EndsBounds(x, c);
      }
      assert FitVerdict(need, ScaledPool(p, 0.0)) == DoesNotFit
        <==> p.knownNodes == 0 || IsBelow(Extra(p), need.value.value);
    }
  }

  /** At a place without nodes: none free would not do, and no amount is listed below which it would not. */
  lemma UnlistedAtAnEmptyPlace(now: int, window: int, need: Need)
    requires need.value.Some? && need.value.value > 0.0
    ensures var p := PoolOf([], now, window);
            && FitVerdict(need, ScaledPool(p, 0.0)) == DoesNotFit && ThresholdDoesNot(p, need.value.value).None?
            && forall c | c in Fit(need, p).changes :: c.becomes != DoesNotFit
  {
    var p := PoolOf([], now, window);
    assert ScaledPool(p, 0.0).hi == Finite(HighEnd(0.0, Advice.Reported)) && HighEnd(0.0, Advice.Reported) == 0.0;
    assert Fit(need, p).changes == [Change(AtLeast, ThresholdFits(p, need.value.value), Fits)];
  }

  /* ---------- what is listed with a verdict ---------- */

  /** Scaling a pool to what it already has does not move the verdict. */
  lemma ScaledToItself(p: Pool, need: Need)
    requires p.knownNodes > 0 && p.knownFree > 0.0
    ensures FitVerdict(need, ScaledPool(p, p.knownFree)) == FitVerdict(need, p)
  {
    assert p.knownFree / p.knownFree == 1.0;
  }

  ghost predicate HoldsJustBelow(r: DimResult, c: Change, w: real) {
    0.0 < w <= c.threshold && forall d: real | -w <= d < 0.0 :: ApplyChange(r, c, d) == c.becomes
  }

  /**
   A change is a boundary of the verdict: an "at least" change names the least amount with its
   verdict, a "below" change the bound under which (down to some lower amount) the verdict holds.
   */
  ghost predicate IsBoundary(r: DimResult, c: Change) {
    match c.direction
    case AtLeast =>
      && ApplyChange(r, c, 0.0) == c.becomes
      && forall d: real | d < 0.0 && c.threshold + d >= 0.0 :: ApplyChange(r, c, d) != c.becomes
    case Below =>
      && (exists w: real :: HoldsJustBelow(r, c, w))
      && forall d: real | d >= 0.0 :: ApplyChange(r, c, d) != c.becomes
  }

  lemma AtLeastFits(p: Pool, need: Need, r: DimResult, c: Change)
    requires Built(p)
    requires need.value.Some? && need.value.value > 0.0
    requires r == Fit(need, p) && c == Change(AtLeast, ThresholdFits(p, need.value.value), Fits)
    ensures IsBoundary(r, c)
  {
    ThresholdPositive(p, need.value.value);
    FitsExactly(p, need, c.threshold);
    forall d: real | d < 0.0 && c.threshold + d >= 0.0
      ensures ApplyChange(r, c, d) != c.becomes
    {
      FitsExactly(p, need, c.threshold + d);
    }
  }

  lemma ThresholdPositive(p: Pool, n: real)
    requires Built(p) && n > 0.0
    ensures ThresholdFits(p, n) > 0.0
  {
    if p.knownFree > 0.0 {
      Cross(p.knownFree, p.lo, n, 0.0);
    } else {
      var c := if Rank(p.loClass) == 0 then Reported else p.loClass;
      WidthBounds(c);
      CrossSimple(1.0 - Width(c), n, 0.0);
    }
  }

  lemma BelowFits(p: Pool, need: Need, r: DimResult, c: Change)
    requires Built(p) && p.knownFree > 0.0
    requires need.value.Some? && need.value.value > 0.0
    requires r == Fit(need, p) && c == Change(Below, ThresholdFits(p, need.value.value), CantTell)
    ensures IsBoundary(r, c)
  {
    var n := need.value.value;
    ThresholdPositive(p, n);
    DoesNotFitExactly(p, need, c.threshold);
    var dnf := ThresholdDoesNot(p, n);
    var w := c.threshold - if dnf.Some? then dnf.value else 0.0;
    forall d: real | -w <= d < 0.0
      ensures ApplyChange(r, c, d) == c.becomes
    {
      FitsExactly(p, need, c.threshold + d);
      DoesNotFitExactly(p, need, c.threshold + d);
    }
    assert HoldsJustBelow(r, c, w);
    forall d: real | d >= 0.0
      ensures ApplyChange(r, c, d) != c.becomes
    {
      FitsExactly(p, need, c.threshold + d);
    }
  }

  lemma BelowDoesNotFit(p: Pool, need: Need, r: DimResult, c: Change)
    requires Built(p) && p.knownFree > 0.0
    requires need.value.Some? && need.value.value > 0.0
    requires ThresholdDoesNot(p, need.value.value).Some?
    requires r == Fit(need, p) && c == Change(Below, ThresholdDoesNot(p, need.value.value).value, DoesNotFit)
    ensures IsBoundary(r, c)
  {
    DoesNotFitExactly(p, need, 0.0);
    forall d: real | -c.threshold <= d
      ensures ApplyChange(r, c, d) == DoesNotFit <==> d < 0.0
    {
      DoesNotFitExactly(p, need, c.threshold + d);
    }
    assert HoldsJustBelow(r, c, c.threshold);
  }

  lemma AtLeastCantTell(p: Pool, need: Need, r: DimResult, c: Change)
    requires Built(p) && p.knownFree > 0.0
    requires need.value.Some? && need.value.value > 0.0
    requires ThresholdDoesNot(p, need.value.value).Some?
    requires r == Fit(need, p) && c == Change(AtLeast, ThresholdDoesNot(p, need.value.value).value, CantTell)
    ensures IsBoundary(r, c)
  {
    DoesNotFitExactly(p, need, 0.0);
    DoesNotFitExactly(p, need, c.threshold);
    FitsExactly(p, need, c.threshold);
    forall d: real | d < 0.0 && c.threshold + d >= 0.0
      ensures ApplyChange(r, c, d) != c.becomes
    {
      DoesNotFitExactly(p, need, c.threshold + d);
    }
  }

  /** Every change listed with the fit of any need on any pool of nodes is a boundary of the verdict. */
  lemma ListedChangesAreBoundaries(nodes: seq<CapNode>, now: int, window: int, need: Need, c: Change)
    requires Sane(nodes)
    requires c in Fit(need, PoolOf(nodes, now, window)).changes
    ensures IsBoundary(Fit(need, PoolOf(nodes, now, window)), c)
  {
    var p := PoolOf(nodes, now, window);
    var r := Fit(need, p);
    PoolIsBuilt(nodes, now, window);
    if c.direction == AtLeast {
      if c.becomes == Fits {
        AtLeastFits(p, need, r, c);
      } else {
        AtLeastCantTell(p, need, r, c);
      }
    } else if c.becomes == CantTell {
      BelowFits(p, need, r, c);
    } else {
      BelowDoesNotFit(p, need, r, c);
    }
  }

  /* ---------- and nothing is left unlisted ---------- */

  predicate Reaches(c: Change, x: real) {
    if c.direction == AtLeast then x >= c.threshold else x < c.threshold
  }

  predicate SomeReached(cs: seq<Change>, x: real) {
    exists c | c in cs :: Reaches(c, x)
  }

  /** One of the changes to this verdict is reached. */
  predicate ReachedTo(cs: seq<Change>, x: real, v: Verdict) {
    exists c | c in cs :: Reaches(c, x) && c.becomes == v
  }

  lemma ChangesListed(p: Pool, need: Need)
    requires p.knownNodes > 0 && need.value.Some? && need.value.value > 0.0
    ensures var cs, fitAt := Fit(need, p).changes, ThresholdFits(p, need.value.value);
            var dnf := ThresholdDoesNot(p, need.value.value);
            match FitVerdict(need, p)
            case Fits => forall c :: c in cs <==> c == Change(Below, fitAt, CantTell)
            case CantTell => forall c :: c in cs <==>
              c == Change(AtLeast, fitAt, Fits) || (dnf.Some? && c == Change(Below, dnf.value, DoesNotFit))
            case DoesNotFit => forall c :: c in cs <==>
              dnf.Some? && (c == Change(AtLeast, dnf.value, CantTell) || c == Change(AtLeast, fitAt, Fits))
  {
  }

  /**
   With some free capacity known the listed changes are all there are: an amount gives another
   verdict exactly when it reaches one of them, and unless it was "fits" before, one to that verdict.
   */
  lemma EveryFlipIsListed(nodes: seq<CapNode>, now: int, window: int, need: Need, x: real)
    requires Sane(nodes) && PoolOf(nodes, now, window).knownFree > 0.0 && x >= 0.0
    requires need.value.Some? && need.value.value > 0.0
    ensures var p := PoolOf(nodes, now, window);
            var cs, was, v := Fit(need, p).changes, FitVerdict(need, p), FitVerdict(need, ScaledPool(p, x));
            && (v != was <==> SomeReached(cs, x))
            && (v != was && was != Fits ==> ReachedTo(cs, x, v))
  {
    var p, n := PoolOf(nodes, now, window), need.value.value;
    var cs, was, v := Fit(need, p).changes, FitVerdict(need, p), FitVerdict(need, ScaledPool(p, x));
    var fitAt, dnf := ThresholdFits(p, n), ThresholdDoesNot(p, n);
    PoolIsBuilt(nodes, now, window);
    FitsExactly(p, need, x);
    DoesNotFitExactly(p, need, x);
    ScaledToItself(p, need);
    DoesNotFitExactly(p, need, p.knownFree);
    ChangesListed(p, need);
    match was
    case Fits =>
      assert Change(Below, fitAt, CantTell) in cs;
    case CantTell =>
      assert Change(AtLeast, fitAt, Fits) in cs;
      if dnf.Some? {
        assert Change(Below, dnf.value, DoesNotFit) in cs;
      }
    case DoesNotFit =>
      assert dnf.Some? && Change(AtLeast, dnf.value, CantTell) in cs && Change(AtLeast, fitAt, Fits) in cs;
  }

  /** Where nothing is known to be free, an open answer lists where it would fit. */
  lemma OpenListsWhereItFits(nodes: seq<CapNode>, now: int, window: int, need: Need, x: real)
    requires Sane(nodes) && x >= 0.0
    requires need.value.Some? && need.value.value > 0.0 && FitVerdict(need, PoolOf(nodes, now, window)) == CantTell
    ensures var p := PoolOf(nodes, now, window);
            FitVerdict(need, ScaledPool(p, x)) == Fits <==> ReachedTo(Fit(need, p).changes, x, Fits)
  {
    var p := PoolOf(nodes, now, window);
    PoolIsBuilt(nodes, now, window);
    FitsExactly(p, need, x);
    assert Change(AtLeast, ThresholdFits(p, need.value.value), Fits) in Fit(need, p).changes by {
      assert Fit(need, p).changes[0] == Change(AtLeast, ThresholdFits(p, need.value.value), Fits);
    }
  }
}
