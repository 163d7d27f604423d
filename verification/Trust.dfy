/**
 Rule 7, down to the facts: how far an answer is trusted is the weakest class among the facts it rests
 on. A "fits" rests on the nodes both of whose figures are known, a "does not fit" on everything that
 bounds the high end, and a "can't tell" on every figure.
 */
module Trust {
  import opened Advice
  import opened PoolWorlds

  /** The facts a verdict rests on. */
  function RestsOn(v: Verdict, n: CapNode): set<Fact> {
    match v
    case Fits => if Known(n.allocatable) && Known(n.requested) then {n.allocatable, n.requested} else {}
    case DoesNotFit =>
      if Known(n.allocatable) && Known(n.requested) then {n.allocatable, n.requested} else {n.allocatable}
    case CantTell => {n.allocatable, n.requested}
  }

  function ClassesOf(facts: set<Fact>, now: int, window: int): set<Class> {
    set f | f in facts :: EffectiveClass(f, now, window)
  }

  function AllClasses(v: Verdict, nodes: seq<CapNode>, now: int, window: int): set<Class> {
    if nodes == [] then {}
    else
      AllClasses(v, nodes[..|nodes| - 1], now, window) + ClassesOf(RestsOn(v, nodes[|nodes| - 1]), now, window)
  }

  lemma {:induction false} AllClassesAre(v: Verdict, nodes: seq<CapNode>, now: int, window: int)
    ensures forall c :: c in AllClasses(v, nodes, now, window) <==>
              exists n: CapNode, f: Fact :: n in nodes && f in RestsOn(v, n) && c == EffectiveClass(f, now, window)
  {
    if nodes != [] {
      var k := |nodes| - 1;
      AllClassesAre(v, nodes[..k], now, window);
      assert nodes == nodes[..k] + [nodes[k]];
    }
  }

  lemma WeakestOfMore(c: Class, cs: set<Class>, d: Class, ds: set<Class>)
    requires IsWeakestOf(c, cs) && IsWeakestOf(d, ds)
    ensures IsWeakestOf(Worse(c, d), cs + ds)
  {
  }

  lemma WeakestOfTwo(f: Fact, g: Fact, now: int, window: int)
    ensures IsWeakestOf(Worse(EffectiveClass(f, now, window), EffectiveClass(g, now, window)),
                        ClassesOf({f, g}, now, window))
    ensures IsWeakestOf(EffectiveClass(f, now, window), ClassesOf({f}, now, window))
  {
    assert f in {f, g} && g in {f, g} && f in {f};
  }

  /** The three classes of a pool, next to the best there is. */
  ghost predicate PoolRestsOn(p: Pool, nodes: seq<CapNode>, now: int, window: int) {
    && IsWeakestOf(p.loClass, {Measured} + AllClasses(Fits, nodes, now, window))
    && IsWeakestOf(p.hiClass, {Measured} + AllClasses(DoesNotFit, nodes, now, window))
    && IsWeakestOf(p.cls, {Measured} + AllClasses(CantTell, nodes, now, window))
  }

  lemma UnknownIsWeakest(cs: set<Class>)
    requires Unknown in cs
    ensures IsWeakestOf(Unknown, cs)
  {
  }

  lemma MoreClasses(v: Verdict, nodes: seq<CapNode>, n: CapNode, now: int, window: int)
    ensures {Measured} + AllClasses(v, nodes + [n], now, window)
            == ({Measured} + AllClasses(v, nodes, now, window)) + ClassesOf(RestsOn(v, n), now, window)
  {
    assert (nodes + [n])[..|nodes|] == nodes;
  }

  lemma ExtendLow(p: Pool, cs: set<Class>, n: CapNode, now: int, window: int)
    requires IsWeakestOf(p.loClass, cs)
    ensures IsWeakestOf(Extend(p, n, now, window).loClass, cs + ClassesOf(RestsOn(Fits, n), now, window))
  {
    if Known(n.allocatable) && Known(n.requested) {
      WeakestOfTwo(n.allocatable, n.requested, now, window);
      WeakestOfMore(p.loClass, cs, FreeClass(n, now, window), ClassesOf({n.allocatable, n.requested}, now, window));
    } else {
      assert cs + ClassesOf({}, now, window) == cs;
    }
  }

  lemma ExtendHigh(p: Pool, cs: set<Class>, n: CapNode, now: int, window: int)
    requires IsWeakestOf(p.hiClass, cs)
    ensures IsWeakestOf(Extend(p, n, now, window).hiClass, cs + ClassesOf(RestsOn(DoesNotFit, n), now, window))
  {
    var a, r := n.allocatable, n.requested;
    WeakestOfTwo(a, r, now, window);
    if Known(a) && Known(r) {
      WeakestOfMore(p.hiClass, cs, FreeClass(n, now, window), ClassesOf({a, r}, now, window));
    } else {
      WeakestOfMore(p.hiClass, cs, EffectiveClass(a, now, window), ClassesOf({a}, now, window));
    }
  }

  lemma ExtendOverall(p: Pool, cs: set<Class>, n: CapNode, now: int, window: int)
    requires IsWeakestOf(p.cls, cs)
    ensures IsWeakestOf(Extend(p, n, now, window).cls, cs + ClassesOf(RestsOn(CantTell, n), now, window))
  {
    var a, r := n.allocatable, n.requested;
    WeakestOfTwo(a, r, now, window);
    if Known(a) && Known(r) {
      WeakestOfMore(p.cls, cs, FreeClass(n, now, window), ClassesOf({a, r}, now, window));
    } else {
      assert a in {a, r} && r in {a, r};
      UnknownIsWeakest(cs + ClassesOf({a, r}, now, window));
    }
  }

  lemma ExtendRestsOn(p: Pool, nodes: seq<CapNode>, n: CapNode, now: int, window: int)
    requires PoolRestsOn(p, nodes, now, window)
    ensures PoolRestsOn(Extend(p, n, now, window), nodes + [n], now, window)
  {
    MoreClasses(Fits, nodes, n, now, window);
    MoreClasses(DoesNotFit, nodes, n, now, window);
    MoreClasses(CantTell, nodes, n, now, window);
    ExtendLow(p, {Measured} + AllClasses(Fits, nodes, now, window), n, now, window);
    ExtendHigh(p, {Measured} + AllClasses(DoesNotFit, nodes, now, window), n, now, window);
    ExtendOverall(p, {Measured} + AllClasses(CantTell, nodes, now, window), n, now, window);
  }

  lemma SumMore(nodes: seq<CapNode>, n: CapNode, now: int, window: int)
    ensures SumOf(nodes + [n], now, window) == Extend(SumOf(nodes, now, window), n, now, window)
  {
    assert (nodes + [n])[..|nodes|] == nodes;
  }

  lemma {:induction false} SumRestsOn(nodes: seq<CapNode>, now: int, window: int)
    ensures PoolRestsOn(SumOf(nodes, now, window), nodes, now, window)
  {
    if nodes != [] {
      var before, n := nodes[..|nodes| - 1], nodes[|nodes| - 1];
      assert nodes == before + [n];
      SumRestsOn(before, now, window);
      SumMore(before, n, now, window);
      ExtendRestsOn(SumOf(before, now, window), before, n, now, window);
    }
  }

  lemma {:induction false} NothingKnownNothingLow(nodes: seq<CapNode>, now: int, window: int)
    ensures SumOf(nodes, now, window).knownNodes == 0 ==> SumOf(nodes, now, window).lo == 0.0
    ensures SumOf(nodes, now, window).knownNodes == 0 <==> AllClasses(Fits, nodes, now, window) == {}
  {
    if nodes != [] {
      var k := |nodes| - 1;
      NothingKnownNothingLow(nodes[..k], now, window);
      var n := nodes[k];
      if Known(n.allocatable) && Known(n.requested) {
        assert n.allocatable in RestsOn(Fits, n);
        assert EffectiveClass(n.allocatable, now, window) in AllClasses(Fits, nodes, now, window);
      }
    }
  }

  lemma WithoutMeasured(c: Class, need: Class, cs: set<Class>)
    requires IsWeakestOf(c, {Measured} + cs) && cs != {}
    ensures IsWeakestOf(Worse(c, need), {need} + cs)
  {
  }

  /** The class of an answer about free capacity is the weakest among the need's and those of the facts it rests on. */
  lemma AnswerRestsOn(need: Need, nodes: seq<CapNode>, now: int, window: int)
    requires nodes != [] && need.value.Some? && need.value.value > 0.0
    ensures var r := Fit(need, PoolOf(nodes, now, window));
            IsWeakestOf(r.cls, {if need.cls == Unknown then Reported else need.cls}
                               + AllClasses(r.verdict, nodes, now, window))
  {
    var p, v := PoolOf(nodes, now, window), FitVerdict(need, PoolOf(nodes, now, window));
    var last := nodes[|nodes| - 1];
    SumRestsOn(nodes, now, window);
    NothingKnownNothingLow(nodes, now, window);
    LoClassAside(nodes, now, window);
    assert last.allocatable in RestsOn(CantTell, last) && last.allocatable in RestsOn(DoesNotFit, last);
    assert EffectiveClass(last.allocatable, now, window) in ClassesOf(RestsOn(v, last), now, window) || v == Fits;
    match v
    case Fits => WithoutMeasured(p.loClass, NeedClass(need), AllClasses(v, nodes, now, window));
    case DoesNotFit => WithoutMeasured(p.hiClass, NeedClass(need), AllClasses(v, nodes, now, window));
    case CantTell => WithoutMeasured(p.cls, NeedClass(need), AllClasses(v, nodes, now, window));
  }

  /* ---------- one fact, and the levels ---------- */

  /** Rule 3: a known fact counts as one class worse exactly when it is older than the window; a guess stays a guess. */
  lemma FactAgesByOne(f: Fact, now: int, window: int)
    requires Known(f)
    ensures var late := f.observedAt.Some? && window > 0 && f.observedAt.value + window < now;
            Rank(EffectiveClass(f, now, window)) == if late && f.cls != Guess then Rank(f.cls) - 1 else Rank(f.cls)
  {
  }

  /** Rule 2, at six cores free: what may really be free, class by class. */
  lemma SixOfEachClass()
    ensures LowEnd(6.0, Measured) == 5.7 && HighEnd(6.0, Measured) == 6.3
    ensures LowEnd(6.0, Reported) == 5.1 && HighEnd(6.0, Reported) == 6.9
    ensures LowEnd(6.0, Inferred) == 4.2 && HighEnd(6.0, Inferred) == 7.8
    ensures LowEnd(6.0, Guess) == 3.0 && HighEnd(6.0, Guess) == 9.0
  {
  }

  /** Levels go with classes: only what is measured and what is reported are trusted alike. */
  lemma LevelsFollowClasses(c: Class, d: Class)
    ensures Rank(c) <= Rank(d) ==> LevelRank(LevelOf(c)) <= LevelRank(LevelOf(d))
    ensures LevelOf(c) == LevelOf(d) <==> c == d || (c in {Measured, Reported} && d in {Measured, Reported})
    ensures Rank(c) == Rank(d) <==> c == d
  {
  }
}
