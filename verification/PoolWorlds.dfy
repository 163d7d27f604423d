/**
 What a pool's interval means. A world gives every node a true free amount that the classes of
 its facts allow; the interval of the pool is exactly the range of the totals over all worlds,
 so the three-valued verdict is exactly "in every world", "in no world" or "in some only".
 */
module PoolWorlds {
  import opened Advice

  /** Whether the facts about node `n` allow its true free amount to be `t`. */
  predicate Allows(n: CapNode, now: int, window: int, t: real) {
    && 0.0 <= t
    && (Known(n.allocatable) ==>
          if Known(n.requested) then
            LowEnd(Free(n), FreeClass(n, now, window)) <= t <= HighEnd(Free(n), FreeClass(n, now, window))
          else
            t <= HighEnd(n.allocatable.value.value, EffectiveClass(n.allocatable, now, window)))
  }

  ghost predicate IsWorld(nodes: seq<CapNode>, now: int, window: int, ts: seq<real>) {
    |ts| == |nodes| && forall i | 0 <= i < |nodes| :: Allows(nodes[i], now, window, ts[i])
  }

  function Total(ts: seq<real>): real {
    if ts == [] then 0.0 else Total(ts[..|ts| - 1]) + ts[|ts| - 1]
  }

  /** No node claims to offer less than nothing. */
  predicate Sane(nodes: seq<CapNode>) {
    forall n | n in nodes :: Known(n.allocatable) ==> n.allocatable.value.value >= 0.0
  }

  lemma LoClassAside(nodes: seq<CapNode>, now: int, window: int)
    requires nodes != []
    ensures var p, s := PoolOf(nodes, now, window), SumOf(nodes, now, window);
            p.lo == s.lo && p.hi == s.hi && p.hiKnown == s.hiKnown && p.knownFree == s.knownFree
              && p.knownNodes == s.knownNodes
  {
  }

  /** A fit's low end and a no's high end both hold in every world. */
  lemma {:induction false} IntervalEncloses(nodes: seq<CapNode>, now: int, window: int, ts: seq<real>)
    requires IsWorld(nodes, now, window, ts)
    ensures SumOf(nodes, now, window).lo <= Total(ts)
    ensures Covers(SumOf(nodes, now, window).hi, Total(ts))
  {
    if nodes != [] {
      var k := |nodes| - 1;
      IntervalEncloses(nodes[..k], now, window, ts[..k]);
      assert Allows(nodes[k], now, window, ts[k]);
    }
  }

  function Lowest(n: CapNode, now: int, window: int): real {
    if Known(n.allocatable) && Known(n.requested) then LowEnd(Free(n), FreeClass(n, now, window)) else 0.0
  }

  /** The most a node can have, or at least `big` where nothing bounds it. */
  function Highest(n: CapNode, now: int, window: int, big: real): real {
    if !Known(n.allocatable) then Max(big, 0.0)
    else if Known(n.requested) then HighEnd(Free(n), FreeClass(n, now, window))
    else HighEnd(n.allocatable.value.value, EffectiveClass(n.allocatable, now, window))
  }

  lemma EndsAllowed(n: CapNode, now: int, window: int, big: real)
    requires Known(n.allocatable) ==> n.allocatable.value.value >= 0.0
    ensures Allows(n, now, window, Lowest(n, now, window))
    ensures Allows(n, now, window, Highest(n, now, window, big))
  {
  }

  function Lows(nodes: seq<CapNode>, now: int, window: int): (ts: seq<real>)
    ensures |ts| == |nodes|
  {
    seq(|nodes|, i requires 0 <= i < |nodes| => Lowest(nodes[i], now, window))
  }

  function Highs(nodes: seq<CapNode>, now: int, window: int, big: real): (ts: seq<real>)
    ensures |ts| == |nodes|
  {
    seq(|nodes|, i requires 0 <= i < |nodes| => Highest(nodes[i], now, window, big))
  }

  lemma EndsAreWorlds(nodes: seq<CapNode>, now: int, window: int, big: real)
    requires Sane(nodes)
    ensures IsWorld(nodes, now, window, Lows(nodes, now, window))
    ensures IsWorld(nodes, now, window, Highs(nodes, now, window, big))
  {
    forall i | 0 <= i < |nodes|
      ensures Allows(nodes[i], now, window, Lows(nodes, now, window)[i])
      ensures Allows(nodes[i], now, window, Highs(nodes, now, window, big)[i])
    {
      EndsAllowed(nodes[i], now, window, big);
    }
  }

  /** The low end is attained, and the high end is attained or, when unbounded, exceeded at will. */
  lemma {:induction false} EndsAttained(nodes: seq<CapNode>, now: int, window: int, big: real)
    requires Sane(nodes)
    ensures Total(Lows(nodes, now, window)) == SumOf(nodes, now, window).lo
    ensures var hi, most := SumOf(nodes, now, window).hi, Total(Highs(nodes, now, window, big));
            0.0 <= most && if hi.Finite? then most == hi.r else most >= big
  {
    if nodes != [] {
      var k := |nodes| - 1;
      EndsAttained(nodes[..k], now, window, big);
      EndsAllowed(nodes[k], now, window, big);
      assert Lows(nodes, now, window)[..k] == Lows(nodes[..k], now, window);
      assert Highs(nodes, now, window, big)[..k] == Highs(nodes[..k], now, window, big);
    }
  }

  ghost predicate CoveredInEveryWorld(nodes: seq<CapNode>, now: int, window: int, n: real) {
    forall ts | IsWorld(nodes, now, window, ts) :: Total(ts) >= n
  }

  ghost predicate CoveredInNoWorld(nodes: seq<CapNode>, now: int, window: int, n: real) {
    forall ts | IsWorld(nodes, now, window, ts) :: Total(ts) < n
  }

  lemma LowNotAboveHigh(nodes: seq<CapNode>, now: int, window: int)
    requires Sane(nodes)
    ensures var p := SumOf(nodes, now, window); 0.0 <= p.lo && Covers(p.hi, p.lo)
  {
    EndsAreWorlds(nodes, now, window, 0.0);
    EndsAttained(nodes, now, window, 0.0);
    IntervalEncloses(nodes, now, window, Lows(nodes, now, window));
    WorldsNotNegative(nodes, now, window, Lows(nodes, now, window));
  }

  lemma {:induction false} WorldsNotNegative(nodes: seq<CapNode>, now: int, window: int, ts: seq<real>)
    requires IsWorld(nodes, now, window, ts)
    ensures 0.0 <= Total(ts)
  {
    if nodes != [] {
      var k := |nodes| - 1;
      WorldsNotNegative(nodes[..k], now, window, ts[..k]);
      assert Allows(nodes[k], now, window, ts[k]);
    }
  }

  /** Rule 5, both ways: the verdict on a positive need is exactly what all worlds agree on. */
  lemma VerdictIsExact(nodes: seq<CapNode>, now: int, window: int, need: Need)
    requires nodes != [] && Sane(nodes)
    requires need.value.Some? && need.value.value > 0.0
    ensures var v, n := FitVerdict(need, PoolOf(nodes, now, window)), need.value.value;
            && (v == Fits <==> CoveredInEveryWorld(nodes, now, window, n))
            && (v == DoesNotFit <==> CoveredInNoWorld(nodes, now, window, n))
  {
    var n := need.value.value;
    var p := SumOf(nodes, now, window);
    LoClassAside(nodes, now, window);
    LowNotAboveHigh(nodes, now, window);
    forall ts | IsWorld(nodes, now, window, ts)
      ensures p.lo <= Total(ts) && Covers(p.hi, Total(ts))
    {
      IntervalEncloses(nodes, now, window, ts);
    }
    EndsAreWorlds(nodes, now, window, n);
    EndsAttained(nodes, now, window, n);
    assert Total(Lows(nodes, now, window)) == p.lo;
    assert Total(Highs(nodes, now, window, n)) >= n || IsBelow(p.hi, n);
  }
}
