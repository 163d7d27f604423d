/**
 The thresholds after what-if moves. A pool that workloads were moved in and out of keeps its
 amounts in order, and its upper threshold is a real boundary exactly when the moves have not
 emptied the low end of a pool that still has known free capacity.
 */
module MovedThresholds {
  import opened Advice
  import opened PoolWorlds
  import opened Thresholds
  import opened Capacity

  lemma AdjustKeepsOrdered(p: Pool, d: Delta)
    requires Ordered(p)
    ensures Ordered(AdjustPool(p, d))
  {
  }

  lemma {:induction false} MovesKeepOrdered(p: Pool, ds: seq<Delta>)
    requires Ordered(p)
    ensures Ordered(AdjustedBy(p, ds))
  {
    if ds != [] {
      MovesKeepOrdered(p, ds[..|ds| - 1]);
      AdjustKeepsOrdered(AdjustedBy(p, ds[..|ds| - 1]), ds[|ds| - 1]);
    }
  }

  lemma ThresholdNotNegative(p: Pool, n: real)
    requires Emptied(p) && n > 0.0
    ensures ThresholdFits(p, n) >= 0.0
  {
    var f := OrElse(Factor(p.loClass), 0.15);
    NotNegative(n, 1.0 - f);
  }

  /** Scaled to the amount it lists, an emptied pool still does not fit. */
  lemma EmptiedNeverFits(p: Pool, need: Need, x: real)
    requires Emptied(p)
    requires need.value.Some? && need.value.value > 0.0
    ensures FitVerdict(need, ScaledPool(p, x)) != Fits
  {
    assert ScaledPool(p, x).lo == 0.0 * (x / p.knownFree) == 0.0;
  }

  ghost predicate FitsAtItsThreshold(p: Pool, need: Need)
    requires need.value.Some?
  {
    forall x | x >= 0.0 :: FitVerdict(need, ScaledPool(p, x)) == Fits <==> x >= ThresholdFits(p, need.value.value)
  }

  lemma FitsAtItsThresholdExactlyWhen(p: Pool, need: Need)
    requires Ordered(p)
    requires need.value.Some? && need.value.value > 0.0
    ensures FitsAtItsThreshold(p, need) <==> !Emptied(p)
  {
    if Emptied(p) {
      var x := ThresholdFits(p, need.value.value);
      ThresholdNotNegative(p, need.value.value);
      EmptiedNeverFits(p, need, x);
    } else {
      forall x | x >= 0.0
        ensures FitVerdict(need, ScaledPool(p, x)) == Fits <==> x >= ThresholdFits(p, need.value.value)
      {
        FitsExactly(p, need, x);
      }
    }
  }

  /** After any moves, the amount from which a need is said to fit is exact unless the moves emptied the low end. */
  lemma MovedThresholdIsExactWhen(nodes: seq<CapNode>, now: int, window: int, ds: seq<Delta>, need: Need)
    requires Sane(nodes)
    requires need.value.Some? && need.value.value > 0.0
    ensures var p := AdjustedBy(PoolOf(nodes, now, window), ds);
            FitsAtItsThreshold(p, need) <==> !Emptied(p)
  {
    PoolIsBuilt(nodes, now, window);
    BuiltIsOrdered(PoolOf(nodes, now, window));
    MovesKeepOrdered(PoolOf(nodes, now, window), ds);
    FitsAtItsThresholdExactlyWhen(AdjustedBy(PoolOf(nodes, now, window), ds), need);
  }

  /** The lower threshold, where known free capacity is left, stays exact through any moves. */
  lemma MovedNoIsExact(nodes: seq<CapNode>, now: int, window: int, ds: seq<Delta>, need: Need, x: real)
    requires Sane(nodes) && x >= 0.0
    requires need.value.Some? && need.value.value > 0.0
    requires var p := AdjustedBy(PoolOf(nodes, now, window), ds); SomeKnownFree(p)
    ensures var p := AdjustedBy(PoolOf(nodes, now, window), ds);
            var dnf := ThresholdDoesNot(p, need.value.value);
            FitVerdict(need, ScaledPool(p, x)) == DoesNotFit <==> dnf.Some? && x < dnf.value
  {
    var p := AdjustedBy(PoolOf(nodes, now, window), ds);
    PoolIsBuilt(nodes, now, window);
    BuiltIsOrdered(PoolOf(nodes, now, window));
    MovesKeepOrdered(PoolOf(nodes, now, window), ds);
    HighFallsShort(p, need.value.value, x);
  }

  /** The emptied case is reached by one arrival between the low end and what is reported free. */
  lemma MovesCanEmpty()
    ensures Sane([REPORTING]) && Emptied(AdjustedBy(PoolOf([REPORTING], 0, 0), [By(-9.0)]))
  {
    ReportingPool();
    assert [By(-9.0)][..0] == [];
    assert AdjustedBy(PoolOf([REPORTING], 0, 0), [By(-9.0)]) == AdjustPool(PoolOf([REPORTING], 0, 0), By(-9.0));
  }
}
