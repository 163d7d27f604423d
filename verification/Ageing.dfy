/**
 Time only weakens what is said. With the facts fixed and the clock advancing, every interval
 widens, and every verdict stays what it was or becomes "can't tell".
 */
module Ageing {
  import opened Advice
  import opened PoolWorlds

  predicate Weakens(v: Verdict, w: Verdict) {
    w == v || w == CantTell
  }

  /** `q` is an interval around the same reported amounts that is at least as wide as `p`. */
  predicate Wider(p: Pool, q: Pool) {
    && q.lo <= p.lo
    && (q.hi.Finite? ==> p.hi.Finite? && p.hi.r <= q.hi.r)
    && q.knownFree == p.knownFree
    && q.knownNodes == p.knownNodes
  }

  lemma ClassAges(f: Fact, now: int, later: int, window: int)
    requires now <= later
    ensures Rank(EffectiveClass(f, later, window)) <= Rank(EffectiveClass(f, now, window))
    ensures Rank(EffectiveClass(f, later, window)) > 0 <==> Known(f)
    ensures Rank(EffectiveClass(f, now, window)) > 0 <==> Known(f)
  {
  }

  lemma WorseEndsWiden(x: real, c: Class, d: Class)
    requires x >= 0.0 && 0 < Rank(d) <= Rank(c)
    ensures LowEnd(x, d) <= LowEnd(x, c) && HighEnd(x, c) <= HighEnd(x, d)
  {
    assert Width(c) <= Width(d);
    assert x * (Width(d) - Width(c)) >= 0.0;
  }

  lemma ExtendAges(p: Pool, q: Pool, n: CapNode, now: int, later: int, window: int)
    requires now <= later && Wider(p, q)
    requires Known(n.allocatable) ==> n.allocatable.value.value >= 0.0
    ensures Wider(Extend(p, n, now, window), Extend(q, n, later, window))
  {
    ClassAges(n.allocatable, now, later, window);
    ClassAges(n.requested, now, later, window);
    if Known(n.allocatable) {
      if Known(n.requested) {
        WorseEndsWiden(Free(n), FreeClass(n, now, window), FreeClass(n, later, window));
      } else {
        WorseEndsWiden(n.allocatable.value.value, EffectiveClass(n.allocatable, now, window),
                       EffectiveClass(n.allocatable, later, window));
      }
    }
  }

  lemma {:induction false} SumAges(nodes: seq<CapNode>, now: int, later: int, window: int)
    requires now <= later && Sane(nodes)
    ensures Wider(SumOf(nodes, now, window), SumOf(nodes, later, window))
  {
    if nodes != [] {
      var k := |nodes| - 1;
      SumAges(nodes[..k], now, later, window);
      ExtendAges(SumOf(nodes[..k], now, window), SumOf(nodes[..k], later, window), nodes[k], now, later, window);
    }
  }

  lemma PoolAges(nodes: seq<CapNode>, now: int, later: int, window: int)
    requires now <= later && Sane(nodes)
    ensures Wider(PoolOf(nodes, now, window), PoolOf(nodes, later, window))
  {
    SumAges(nodes, now, later, window);
    if nodes != [] {
      LoClassAside(nodes, now, window);
      LoClassAside(nodes, later, window);
    }
  }

  lemma FitAges(nodes: seq<CapNode>, now: int, later: int, window: int, need: Need)
    requires now <= later && Sane(nodes)
    ensures Weakens(FitVerdict(need, PoolOf(nodes, now, window)), FitVerdict(need, PoolOf(nodes, later, window)))
  {
    var p, q := PoolOf(nodes, now, window), PoolOf(nodes, later, window);
    PoolAges(nodes, now, later, window);
    if nodes != [] {
      LoClassAside(nodes, later, window);
      LowNotAboveHigh(nodes, later, window);
      LoClassAside(nodes, now, window);
      LowNotAboveHigh(nodes, now, window);
    }
  }

  /** Parts that only weaken make a whole that only weakens. */
  lemma CombinedAges(vs: seq<Verdict>, ws: seq<Verdict>)
    requires |vs| == |ws| && forall i | 0 <= i < |vs| :: Weakens(vs[i], ws[i])
    ensures Weakens(Combined(vs), Combined(ws))
  {
    if DoesNotFit in vs {
      var i :| 0 <= i < |vs| && vs[i] == DoesNotFit;
      assert ws[i] in ws;
    } else if CantTell in vs {
      var i :| 0 <= i < |vs| && vs[i] == CantTell;
      assert ws[i] in ws;
    }
    if DoesNotFit in ws {
      var j :| 0 <= j < |ws| && ws[j] == DoesNotFit;
      assert vs[j] in vs;
    }
  }
}
