/**
 The converses of target soundness. "Fits" is said whenever the move works in every world, except
 that an unset trust zone is never waved through; "does not fit" is said whenever it works in no
 world, except where that rests on nodes that have not reported the architecture a selector names.
 */
module TargetExactness {
  import opened Options
  import opened Advice
  import opened PoolWorlds
  import opened Ageing
  import opened Capacity
  import opened Movability
  import opened TargetWorlds

  /* ---------- extreme amounts for every node of a case ---------- */

  function LowAt(k: Case, dim: Dim, n: MachineNode): real {
    Lowest(NodeFacts(dim, n, k.ctx), k.ctx.now, k.ctx.window)
  }

  function HighAt(k: Case, dim: Dim, n: MachineNode, big: real): real {
    Highest(NodeFacts(dim, n, k.ctx), k.ctx.now, k.ctx.window, big)
  }

  function LowAmounts(k: Case, dim: Dim, ns: seq<MachineNode>): (ts: seq<real>)
    ensures |ts| == |ns|
  {
    seq(|ns|, i requires 0 <= i < |ns| => LowAt(k, dim, ns[i]))
  }

  function HighAmounts(k: Case, dim: Dim, ns: seq<MachineNode>, big: real): (ts: seq<real>)
    ensures |ts| == |ns|
  {
    seq(|ns|, i requires 0 <= i < |ns| => HighAt(k, dim, ns[i], big))
  }

  lemma SaneFacts(dim: Dim, n: MachineNode, ctx: Ctx)
    requires n.cpuAllocatable.Some? ==> n.cpuAllocatable.value >= 0.0
    requires n.memoryGbAllocatable.Some? ==> n.memoryGbAllocatable.value >= 0.0
    ensures var f := NodeFacts(dim, n, ctx); Known(f.allocatable) ==> f.allocatable.value.value >= 0.0
  {
  }

  lemma ExtremesAllowed(k: Case, dim: Dim, big: real)
    requires SaneCase(k)
    ensures forall i | 0 <= i < |k.nodes| :: NodeAllows(k, dim, k.nodes[i], LowAmounts(k, dim, k.nodes)[i])
    ensures forall i | 0 <= i < |k.nodes| :: NodeAllows(k, dim, k.nodes[i], HighAmounts(k, dim, k.nodes, big)[i])
  {
    forall i | 0 <= i < |k.nodes|
      ensures NodeAllows(k, dim, k.nodes[i], LowAmounts(k, dim, k.nodes)[i])
      ensures NodeAllows(k, dim, k.nodes[i], HighAmounts(k, dim, k.nodes, big)[i])
    {
      SaneFacts(dim, k.nodes[i], k.ctx);
      EndsAllowed(NodeFacts(dim, k.nodes[i], k.ctx), k.ctx.now, k.ctx.window, big);
    }
  }

  lemma LowsConcat(a: seq<CapNode>, b: seq<CapNode>, now: int, window: int, big: real)
    ensures Lows(a + b, now, window) == Lows(a, now, window) + Lows(b, now, window)
    ensures Highs(a + b, now, window, big) == Highs(a, now, window, big) + Highs(b, now, window, big)
  {
  }

  lemma {:induction false} SaneDefinites(dim: Dim, k: Case, ns: seq<MachineNode>)
    requires forall n | n in ns :: n in k.nodes
    requires SaneCase(k)
    ensures Sane(Facts(dim, Definites(ns, k.wanted), k.ctx)) && Sane(Facts(dim, Possibles(ns, k.wanted), k.ctx))
  {
    if ns != [] {
      var i := |ns| - 1;
      SaneDefinites(dim, k, ns[..i]);
      SaneFacts(dim, ns[i], k.ctx);
      StrippedUnknown(dim, ns[i], k.ctx);
      FactsConcat(dim, Definites(ns[..i], k.wanted), [ns[i]], k.ctx);
      FactsConcat(dim, Possibles(ns[..i], k.wanted), [Stripped(ns[i])], k.ctx);
    }
  }

  lemma SanePool(dim: Dim, k: Case)
    requires SaneCase(k)
    ensures Sane(Facts(dim, HostingPool(k), k.ctx))
  {
    PoolIsSplit(k);
    SaneDefinites(dim, k, k.nodes);
    FactsConcat(dim, Definites(k.nodes, k.wanted), Possibles(k.nodes, k.wanted), k.ctx);
  }

  /* ---------- who could host, in some world ---------- */

  predicate AsksOutright(n: MachineNode, wanted: map<string, string>, archKey: string) {
    archKey in wanted && archKey !in n.labels && wanted[archKey] != ""
  }

  /** The architecture under which a node would host, if under any. */
  function BestArch(n: MachineNode, wanted: map<string, string>): (arch: string)
    ensures Resolves(n.arch, arch)
  {
    if Truthy(n.arch) then n.arch.value
    else if AsksOutright(n, wanted, "kubernetes.io/arch") then wanted["kubernetes.io/arch"]
    else if AsksOutright(n, wanted, "beta.kubernetes.io/arch") then wanted["beta.kubernetes.io/arch"]
    else "any"
  }

  predicate CouldHost(n: MachineNode, wanted: map<string, string>) {
    Hosts(n, BestArch(n, wanted), wanted)
  }

  lemma SameLabel(n: MachineNode, a: string, b: string, l: string)
    requires !IsArchKey(l) || l in n.labels
    ensures var la, lb := NodeLabels(n.(arch := Some(a))), NodeLabels(n.(arch := Some(b)));
            (l in la <==> l in lb) && (l in la ==> la[l] == lb[l])
  {
  }

  lemma ArchLabel(n: MachineNode, arch: string, l: string)
    requires arch != "" && IsArchKey(l) && l !in n.labels
    ensures var la := NodeLabels(n.(arch := Some(arch))); l in la && la[l] == arch
  {
  }

  /** Where a selector asks a node outright for its architecture, only that one will do. */
  lemma OnlyThatArch(n: MachineNode, arch: string, wanted: map<string, string>, l: string)
    requires arch != "" && Hosts(n, arch, wanted) && l in wanted && IsArchKey(l) && l !in n.labels
    ensures AsksOutright(n, wanted, l) && wanted[l] == arch
  {
    ArchLabel(n, arch, l);
  }

  lemma HostsAtBest(n: MachineNode, arch: string, wanted: map<string, string>)
    requires Resolves(n.arch, arch) && Hosts(n, arch, wanted)
    ensures CouldHost(n, wanted)
  {
    var best := BestArch(n, wanted);
    if best != arch {
      forall l | l in wanted
        ensures !IsArchKey(l) || l in n.labels
      {
        if IsArchKey(l) && l !in n.labels {
          OnlyThatArch(n, arch, wanted, l);
          BestIsAsked(n, arch, wanted, l);
        }
      }
      forall l | l in wanted
        ensures var la := NodeLabels(n.(arch := Some(best))); l in la && la[l] == wanted[l]
      {
        SameLabel(n, arch, best, l);
      }
    }
  }

  lemma BestIsAsked(n: MachineNode, arch: string, wanted: map<string, string>, l: string)
    requires Resolves(n.arch, arch) && Hosts(n, arch, wanted) && IsArchKey(l) && AsksOutright(n, wanted, l)
    ensures BestArch(n, wanted) == arch
  {
    forall m | IsArchKey(m) && AsksOutright(n, wanted, m)
      ensures wanted[m] == arch
    {
      OnlyThatArch(n, arch, wanted, m);
    }
  }

  /** The nodes that could host, with their own figures. */
  function Candidates(ns: seq<MachineNode>, wanted: map<string, string>): seq<MachineNode> {
    if ns == [] then []
    else
      var done, last := Candidates(ns[..|ns| - 1], wanted), ns[|ns| - 1];
      if CouldHost(last, wanted) then done + [last] else done
  }

  function CandidateAmounts(ns: seq<MachineNode>, wanted: map<string, string>, ts: seq<real>): seq<real>
    requires |ts| == |ns|
  {
    if ns == [] then []
    else
      var i := |ns| - 1;
      var done := CandidateAmounts(ns[..i], wanted, ts[..i]);
      if CouldHost(ns[i], wanted) then done + [ts[i]] else done
  }

  function CandidatePool(k: Case, dim: Dim): Pool {
    PoolOf(Facts(dim, Candidates(k.nodes, k.wanted), k.ctx), k.ctx.now, k.ctx.window)
  }

  lemma OneFact(dim: Dim, n: MachineNode, ctx: Ctx)
    ensures Facts(dim, [n], ctx) == [NodeFacts(dim, n, ctx)]
  {
  }

  lemma {:induction false} CandidatesAllowed(k: Case, dim: Dim, ns: seq<MachineNode>, ts: seq<real>)
    requires |ts| == |ns| && forall i | 0 <= i < |ns| :: NodeAllows(k, dim, ns[i], ts[i])
    ensures IsWorld(Facts(dim, Candidates(ns, k.wanted), k.ctx), k.ctx.now, k.ctx.window,
                    CandidateAmounts(ns, k.wanted, ts))
  {
    if ns != [] {
      var i := |ns| - 1;
      CandidatesAllowed(k, dim, ns[..i], ts[..i]);
      if CouldHost(ns[i], k.wanted) {
        var done := Candidates(ns[..i], k.wanted);
        FactsConcat(dim, done, [ns[i]], k.ctx);
        OneFact(dim, ns[i], k.ctx);
        WorldsConcat(Facts(dim, done, k.ctx), Facts(dim, [ns[i]], k.ctx), k.ctx.now, k.ctx.window,
                     CandidateAmounts(ns[..i], k.wanted, ts[..i]), [ts[i]]);
      }
    }
  }

  lemma {:induction false} HostedAmongCandidates(ns: seq<MachineNode>, arch: seq<string>, wanted: map<string, string>,
                                                 ts: seq<real>)
    requires |arch| == |ts| == |ns|
    requires forall i | 0 <= i < |ns| :: Resolves(ns[i].arch, arch[i]) && 0.0 <= ts[i]
    ensures Hosted(ns, arch, wanted, ts) <= Total(CandidateAmounts(ns, wanted, ts))
    ensures (forall i | 0 <= i < |ns| :: arch[i] == BestArch(ns[i], wanted))
            ==> Hosted(ns, arch, wanted, ts) == Total(CandidateAmounts(ns, wanted, ts))
  {
    if ns != [] {
      var i := |ns| - 1;
      HostedAmongCandidates(ns[..i], arch[..i], wanted, ts[..i]);
      TotalSnoc(CandidateAmounts(ns[..i], wanted, ts[..i]), ts[i]);
      if Hosts(ns[i], arch[i], wanted) {
        HostsAtBest(ns[i], arch[i], wanted);
      }
    }
  }

  lemma {:induction false} CandidateHighs(k: Case, dim: Dim, ns: seq<MachineNode>, big: real)
    ensures CandidateAmounts(ns, k.wanted, HighAmounts(k, dim, ns, big))
            == Highs(Facts(dim, Candidates(ns, k.wanted), k.ctx), k.ctx.now, k.ctx.window, big)
  {
    if ns != [] {
      var i := |ns| - 1;
      CandidateHighs(k, dim, ns[..i], big);
      assert HighAmounts(k, dim, ns, big)[..i] == HighAmounts(k, dim, ns[..i], big);
      if CouldHost(ns[i], k.wanted) {
        var done := Candidates(ns[..i], k.wanted);
        FactsConcat(dim, done, [ns[i]], k.ctx);
        OneFact(dim, ns[i], k.ctx);
        LowsConcat(Facts(dim, done, k.ctx), Facts(dim, [ns[i]], k.ctx), k.ctx.now, k.ctx.window, big);
        assert Highs(Facts(dim, [ns[i]], k.ctx), k.ctx.now, k.ctx.window, big) == [HighAt(k, dim, ns[i], big)];
      }
    }
  }

  lemma {:induction false} SaneCandidates(dim: Dim, k: Case, ns: seq<MachineNode>)
    requires SaneCase(k) && forall n | n in ns :: n in k.nodes
    ensures Sane(Facts(dim, Candidates(ns, k.wanted), k.ctx))
  {
    if ns != [] {
      var i := |ns| - 1;
      SaneCandidates(dim, k, ns[..i]);
      SaneFacts(dim, ns[i], k.ctx);
      FactsConcat(dim, Candidates(ns[..i], k.wanted), [ns[i]], k.ctx);
    }
  }

  /** In every world the hosts have at most the high end of those that could host. */
  lemma HostedUnderCandidates(k: Case, w: World, dim: Dim)
    requires IsPossible(k, w) && Candidates(k.nodes, k.wanted) != []
    ensures Covers(CandidatePool(k, dim).hi, Hosted(k.nodes, w.arch, k.wanted, w.Free(dim)))
  {
    var fs := Facts(dim, Candidates(k.nodes, k.wanted), k.ctx);
    CandidatesAllowed(k, dim, k.nodes, w.Free(dim));
    HostedAmongCandidates(k.nodes, w.arch, k.wanted, w.Free(dim));
    IntervalEncloses(fs, k.ctx.now, k.ctx.window, CandidateAmounts(k.nodes, k.wanted, w.Free(dim)));
    LoClassAside(fs, k.ctx.now, k.ctx.window);
  }

  /* ---------- a world in which the move works ---------- */

  function BestArchs(ns: seq<MachineNode>, wanted: map<string, string>): (arch: seq<string>)
    ensures |arch| == |ns|
  {
    seq(|ns|, i requires 0 <= i < |ns| => BestArch(ns[i], wanted))
  }

  /** The most those that could host can have is their high end, or as much as one likes. */
  lemma HighReached(k: Case, dim: Dim, big: real)
    requires SaneCase(k) && Candidates(k.nodes, k.wanted) != []
    ensures var t := Hosted(k.nodes, BestArchs(k.nodes, k.wanted), k.wanted, HighAmounts(k, dim, k.nodes, big));
            t >= 0.0 && if CandidatePool(k, dim).hi.Finite? then t == CandidatePool(k, dim).hi.r else t >= big
  {
    var fs := Facts(dim, Candidates(k.nodes, k.wanted), k.ctx);
    ExtremesAllowed(k, dim, big);
    HostedAmongCandidates(k.nodes, BestArchs(k.nodes, k.wanted), k.wanted, HighAmounts(k, dim, k.nodes, big));
    CandidateHighs(k, dim, k.nodes, big);
    SaneCandidates(dim, k, k.nodes);
    EndsAttained(fs, k.ctx.now, k.ctx.window, big);
    LoClassAside(fs, k.ctx.now, k.ctx.window);
  }

  function NeedOr(need: Need, x: real): real {
    OrElse(need.value, x)
  }

  function BestWorld(k: Case): World {
    var c, m := NeedOr(NeedFor(Cpu, k.load), 0.0), NeedOr(NeedFor(Memory, k.load), 0.0);
    World(BestArchs(k.nodes, k.wanted),
          HighAmounts(k, Cpu, k.nodes, c), HighAmounts(k, Memory, k.nodes, m),
          c, m, c, m,
          if Truthy(k.toResidency) then k.toResidency.value
          else if Truthy(k.fromResidency) then k.fromResidency.value
          else "any",
          if k.toZone.Some? then k.toZone.value else Restricted)
  }

  lemma BestIsPossible(k: Case)
    requires SaneCase(k)
    ensures IsPossible(k, BestWorld(k))
  {
    NeedsArePositive(k.load);
    ExtremesAllowed(k, Cpu, NeedOr(NeedFor(Cpu, k.load), 0.0));
    ExtremesAllowed(k, Memory, NeedOr(NeedFor(Memory, k.load), 0.0));
  }

  /** Even all that could host falls short of the need, at the high end of its own figures. */
  predicate FallsShort(k: Case, dim: Dim) {
    var need := NeedFor(dim, k.load);
    need.value.Some? && IsBelow(CandidatePool(k, dim).hi, need.value.value)
  }

  lemma BestCovers(k: Case, dim: Dim)
    requires SaneCase(k) && !FallsShort(k, dim)
    requires k.nodes != [] ==> Candidates(k.nodes, k.wanted) != []
    ensures IsPossible(k, BestWorld(k)) && Covered(k, BestWorld(k), dim)
  {
    BestIsPossible(k);
    NeedsArePositive(k.load);
    if k.nodes != [] {
      HighReached(k, dim, NeedOr(NeedFor(dim, k.load), 0.0));
    }
  }

  lemma {:induction false} CandidateAt(ns: seq<MachineNode>, wanted: map<string, string>) returns (i: nat)
    requires Candidates(ns, wanted) != []
    ensures i < |ns| && CouldHost(ns[i], wanted)
  {
    var last := |ns| - 1;
    if CouldHost(ns[last], wanted) {
      i := last;
    } else {
      i := CandidateAt(ns[..last], wanted);
    }
  }

  lemma {:induction false} NoCandidate(ns: seq<MachineNode>, wanted: map<string, string>, i: nat)
    requires i < |ns| && Candidates(ns, wanted) == []
    ensures !CouldHost(ns[i], wanted)
  {
    if i < |ns| - 1 {
      NoCandidate(ns[..|ns| - 1], wanted, i);
    }
  }

  /** What makes a move impossible in every world. */
  predicate Hopeless(k: Case) {
    || PolicyRulesOut(k)
    || (k.nodes != [] && Candidates(k.nodes, k.wanted) == [])
    || FallsShort(k, Cpu) || FallsShort(k, Memory)
  }

  lemma BestSettings(k: Case)
    requires !Hopeless(k)
    ensures var w := BestWorld(k);
            && (k.restricted && Truthy(k.fromResidency) ==> w.residency == k.fromResidency.value)
            && (k.fromZone.Some? ==> ZoneRank(w.zone) >= ZoneRank(k.fromZone.value))
  {
  }

  lemma BestPasses(k: Case)
    requires SaneCase(k) && !Hopeless(k)
    ensures IsPossible(k, BestWorld(k)) && Passes(k, BestWorld(k))
  {
    BestSettings(k);
    BestCovers(k, Cpu);
    BestCovers(k, Memory);
    if k.nodes != [] {
      var i := CandidateAt(k.nodes, k.wanted);
      assert Hosts(k.nodes[i], BestWorld(k).arch[i], k.wanted);
    }
  }

  lemma HopelessFails(k: Case, w: World)
    requires Hopeless(k) && IsPossible(k, w)
    ensures !Passes(k, w)
  {
    if k.nodes != [] && Candidates(k.nodes, k.wanted) == [] {
      forall i | 0 <= i < |k.nodes|
        ensures !Hosts(k.nodes[i], w.arch[i], k.wanted)
      {
        NoCandidate(k.nodes, k.wanted, i);
        if Hosts(k.nodes[i], w.arch[i], k.wanted) {
          HostsAtBest(k.nodes[i], w.arch[i], k.wanted);
        }
      }
    } else if FallsShort(k, Cpu) {
      ShortFails(k, w, Cpu);
    } else if FallsShort(k, Memory) {
      ShortFails(k, w, Memory);
    }
  }

  lemma ShortFails(k: Case, w: World, dim: Dim)
    requires FallsShort(k, dim) && IsPossible(k, w)
    requires k.nodes != [] ==> Candidates(k.nodes, k.wanted) != []
    ensures !Covered(k, w, dim)
  {
    if k.nodes != [] {
      HostedUnderCandidates(k, w, dim);
    } else {
      NoFacts(dim, k.ctx);
    }
  }

  lemma NoFacts(dim: Dim, ctx: Ctx)
    ensures Facts(dim, [], ctx) == []
  {
  }

  ghost predicate WorksInNoWorld(k: Case) {
    forall w | IsPossible(k, w) :: !Passes(k, w)
  }

  /** A move works in no world exactly when a check rules it out, nothing could host it, or what could falls short. */
  lemma HopelessExactlyWhen(k: Case)
    requires SaneCase(k)
    ensures WorksInNoWorld(k) <==> Hopeless(k)
  {
    if Hopeless(k) {
      forall w | IsPossible(k, w)
        ensures !Passes(k, w)
      {
        HopelessFails(k, w);
      }
    } else {
      BestPasses(k);
    }
  }

  /* ---------- when "does not fit" is exact ---------- */

  /**
   Some node only might match, and either no such node could match after all, or the figures of
   those that could fall short: facts that are not looked at, because their capacity counts as unknown.
   */
  predicate MaybesAreHopeless(k: Case) {
    && Possibles(k.nodes, k.wanted) != []
    && (Candidates(k.nodes, k.wanted) == [] || FallsShort(k, Cpu) || FallsShort(k, Memory))
  }

  lemma {:induction false} NoMaybes(ns: seq<MachineNode>, wanted: map<string, string>)
    requires Possibles(ns, wanted) == []
    ensures Candidates(ns, wanted) == Definites(ns, wanted)
  {
    if ns != [] {
      var i := |ns| - 1;
      NoMaybes(ns[..i], wanted);
      HostsBetween(ns[i], BestArch(ns[i], wanted), wanted);
    }
  }

  /** A node that only might match leaves the pool without an upper bound, so nothing is ruled out by capacity. */
  lemma {:induction false} MaybesUnbounded(k: Case, dim: Dim, ns: seq<MachineNode>)
    requires Possibles(ns, k.wanted) != []
    ensures SumOf(Facts(dim, Possibles(ns, k.wanted), k.ctx), k.ctx.now, k.ctx.window).hi.Unbounded?
  {
    var i := |ns| - 1;
    if Possible(ns[i], k.wanted) {
      var done, s := Possibles(ns[..i], k.wanted), Stripped(ns[i]);
      StrippedUnknown(dim, ns[i], k.ctx);
      FactsConcat(dim, done, [s], k.ctx);
      OneFact(dim, s, k.ctx);
      var fs := Facts(dim, Possibles(ns, k.wanted), k.ctx);
      assert fs[..|fs| - 1] == Facts(dim, done, k.ctx) && fs[|fs| - 1] == NodeFacts(dim, s, k.ctx);
    } else {
      MaybesUnbounded(k, dim, ns[..i]);
    }
  }

  lemma {:induction false} StaysUnbounded(a: seq<CapNode>, b: seq<CapNode>, now: int, window: int)
    requires SumOf(b, now, window).hi.Unbounded?
    ensures SumOf(a + b, now, window).hi.Unbounded?
  {
    if b != [] {
      var j := |b| - 1;
      assert (a + b)[..|a + b| - 1] == a + b[..j];
      if SumOf(b[..j], now, window).hi.Unbounded? {
        StaysUnbounded(a, b[..j], now, window);
      }
    }
  }

  lemma MaybesLeaveOpen(k: Case, dim: Dim)
    requires Possibles(k.nodes, k.wanted) != []
    ensures DimVerdict(k, dim) != DoesNotFit
  {
    PoolIsSplit(k);
    var a, b := Facts(dim, Definites(k.nodes, k.wanted), k.ctx), Facts(dim, Possibles(k.nodes, k.wanted), k.ctx);
    FactsConcat(dim, Definites(k.nodes, k.wanted), Possibles(k.nodes, k.wanted), k.ctx);
    MaybesUnbounded(k, dim, k.nodes);
    StaysUnbounded(a, b, k.ctx.now, k.ctx.window);
    LoClassAside(a + b, k.ctx.now, k.ctx.window);
    NeedsArePositive(k.load);
  }

  lemma SamePoolWithoutMaybes(k: Case, dim: Dim)
    requires Possibles(k.nodes, k.wanted) == []
    ensures DimVerdict(k, dim) == DoesNotFit <==> FallsShort(k, dim)
  {
    PoolIsSplit(k);
    NoMaybes(k.nodes, k.wanted);
    assert HostingPool(k) == Candidates(k.nodes, k.wanted);
    NeedsArePositive(k.load);
  }

  ghost predicate NoIsExact(k: Case) {
    TargetVerdict(k) == DoesNotFit <==> WorksInNoWorld(k)
  }

  lemma WithoutMaybesExact(k: Case)
    requires SaneCase(k) && Possibles(k.nodes, k.wanted) == []
    ensures NoIsExact(k)
  {
    VerdictOfParts(k);
    HopelessExactlyWhen(k);
    SamePoolWithoutMaybes(k, Cpu);
    SamePoolWithoutMaybes(k, Memory);
    NoMaybes(k.nodes, k.wanted);
    if k.wanted == map[] {
      AllDefinite(k.nodes);
    }
  }

  /** "Does not fit" is exact but where only nodes that might match, as they could match, rule the target out. */
  lemma DoesNotFitIsExactExactlyWhen(k: Case)
    requires SaneCase(k)
    ensures NoIsExact(k) <==> PolicyRulesOut(k) || !MaybesAreHopeless(k)
  {
    if Possibles(k.nodes, k.wanted) == [] {
      WithoutMaybesExact(k);
    } else {
      VerdictOfParts(k);
      HopelessExactlyWhen(k);
      MaybesLeaveOpen(k, Cpu);
      MaybesLeaveOpen(k, Memory);
    }
  }

  /** A node that carries all of a selector but its architectures, with one core and the memory not reported. */
  function BareNode(wanted: map<string, string>): MachineNode {
    MachineNode("n", "c", "linux", None, None, map l | l in wanted && !IsArchKey(l) :: wanted[l],
                false, false, Some(1.0), None, Some(0.0), None)
  }

  /** A workload of a hundred cores with the selector, at a cluster with only that node. */
  function BareCase(wanted: map<string, string>): Case {
    Case(false, true, wanted, [BareNode(wanted)], false, None, None, None, None, Load(1, Some(100000.0), None),
         Ctx(0, 0, map[]))
  }

  predicate NamesArch(wanted: map<string, string>) {
    exists l | l in wanted :: IsArchKey(l)
  }

  lemma BareNodeIsPossible(wanted: map<string, string>)
    requires NamesArch(wanted)
    ensures Possible(BareNode(wanted), wanted)
  {
    var n := BareNode(wanted);
    var archKey :| archKey in wanted && IsArchKey(archKey);
    assert archKey !in NodeLabels(n);
    assert Matches(n, archKey, wanted[archKey]) == Maybe;
    forall k | k in wanted
      ensures Matches(n, k, wanted[k]) != No
    {
      if IsArchKey(k) {
        assert k !in NodeLabels(n);
      } else {
        assert k in n.labels;
      }
    }
  }

  lemma BareCaseIsHopeless(wanted: map<string, string>)
    requires NamesArch(wanted)
    ensures var k := BareCase(wanted); SaneCase(k) && MaybesAreHopeless(k) && !PolicyRulesOut(k)
  {
    var k, n := BareCase(wanted), BareNode(wanted);
    BareNodeIsPossible(wanted);
    assert [n][..0] == [];
    if Candidates(k.nodes, wanted) != [] {
      assert Candidates(k.nodes, wanted) == [n];
      BareFallsShort(wanted);
    }
  }

  lemma BareFallsShort(wanted: map<string, string>)
    requires Candidates([BareNode(wanted)], wanted) == [BareNode(wanted)]
    ensures FallsShort(BareCase(wanted), Cpu)
  {
    var k := BareCase(wanted);
    OneFact(Cpu, BareNode(wanted), k.ctx);
    OneCore(NodeFacts(Cpu, BareNode(wanted), k.ctx));
    assert NeedFor(Cpu, k.load).value == Some(100.0);
  }

  lemma OneCore(f: CapNode)
    requires f == CapNode(Fact(Some(1.0), Advice.Reported, None), Fact(Some(0.0), Advice.Reported, None))
    ensures PoolOf([f], 0, 0).hi == Finite(1.15)
  {
    assert [f][..0] == [];
    assert SumOf([f], 0, 0) == Extend(EMPTY_SUM, f, 0, 0);
    assert HighEnd(1.0, Advice.Reported) == 1.15;
  }

  /** So for a selector, "does not fit" is exact at every target exactly when it names no architecture. */
  lemma NoIsExactExactlyWhen(wanted: map<string, string>)
    ensures (forall k | SaneCase(k) && k.wanted == wanted :: NoIsExact(k)) <==> !NamesArch(wanted)
  {
    if NamesArch(wanted) {
      BareCaseIsHopeless(wanted);
      DoesNotFitIsExactExactlyWhen(BareCase(wanted));
      assert !NoIsExact(BareCase(wanted));
    } else {
      forall k | SaneCase(k) && k.wanted == wanted
        ensures NoIsExact(k)
      {
        NoArchNoMaybes(k.nodes, wanted);
        DoesNotFitIsExactExactlyWhen(k);
      }
    }
  }

  lemma {:induction false} NoArchNoMaybes(ns: seq<MachineNode>, wanted: map<string, string>)
    requires !NamesArch(wanted)
    ensures Possibles(ns, wanted) == []
  {
    if ns != [] {
      NoArchNoMaybes(ns[..|ns| - 1], wanted);
    }
  }

  /* ---------- the least in a world where no node of unreported architecture hosts ---------- */

  function Archs(ns: seq<MachineNode>, unreported: string): (arch: seq<string>)
    ensures |arch| == |ns|
  {
    seq(|ns|, i requires 0 <= i < |ns| => if Truthy(ns[i].arch) then ns[i].arch.value else unreported)
  }

  lemma ArchsResolve(ns: seq<MachineNode>, unreported: string)
    requires unreported != ""
    ensures forall i | 0 <= i < |ns| :: Resolves(ns[i].arch, Archs(ns, unreported)[i])
  {
  }

  function Asked(wanted: map<string, string>, archKey: string): string {
    if archKey in wanted then wanted[archKey] else ""
  }

  /** An architecture the selector does not ask for: longer than those it does. */
  function OtherArch(wanted: map<string, string>): (arch: string)
    ensures forall l | l in wanted && IsArchKey(l) :: wanted[l] != arch
    ensures arch != ""
  {
    var a, b := Asked(wanted, "kubernetes.io/arch"), Asked(wanted, "beta.kubernetes.io/arch");
    var arch := a + b + "x";
    assert |arch| > |a| && |arch| > |b|;
    arch
  }

  lemma MaybeHostsElsewhereNot(n: MachineNode, wanted: map<string, string>)
    requires Possible(n, wanted)
    ensures !Truthy(n.arch) && !Hosts(n, OtherArch(wanted), wanted)
  {
    var l :| l in wanted && Matches(n, l, wanted[l]) == Maybe;
    assert IsArchKey(l) && l !in n.labels;
    assert NodeLabels(n.(arch := Some(OtherArch(wanted))))[l] == OtherArch(wanted);
  }

  lemma {:induction false} DefiniteLows(k: Case, dim: Dim, ns: seq<MachineNode>)
    ensures DefiniteAmounts(ns, k.wanted, LowAmounts(k, dim, ns))
            == Lows(Facts(dim, Definites(ns, k.wanted), k.ctx), k.ctx.now, k.ctx.window)
  {
    if ns != [] {
      var i := |ns| - 1;
      var n := ns[i];
      DefiniteLows(k, dim, ns[..i]);
      assert LowAmounts(k, dim, ns)[..i] == LowAmounts(k, dim, ns[..i]);
      if Definite(n, k.wanted) {
        var done := Definites(ns[..i], k.wanted);
        FactsConcat(dim, done, [n], k.ctx);
        OneFact(dim, n, k.ctx);
        LowsConcat(Facts(dim, done, k.ctx), Facts(dim, [n], k.ctx), k.ctx.now, k.ctx.window, 0.0);
        assert Lows(Facts(dim, [n], k.ctx), k.ctx.now, k.ctx.window) == [LowAt(k, dim, n)];
      }
    }
  }

  lemma {:induction false} PossibleLows(k: Case, dim: Dim, ns: seq<MachineNode>, ts: seq<real>)
    requires |ts| == |ns|
    ensures PossibleAmounts(ns, Archs(ns, OtherArch(k.wanted)), k.wanted, ts)
            == Lows(Facts(dim, Possibles(ns, k.wanted), k.ctx), k.ctx.now, k.ctx.window)
  {
    if ns != [] {
      var i := |ns| - 1;
      var n := ns[i];
      PossibleLows(k, dim, ns[..i], ts[..i]);
      assert Archs(ns, OtherArch(k.wanted))[..i] == Archs(ns[..i], OtherArch(k.wanted));
      if Possible(n, k.wanted) {
        MaybeHostsElsewhereNot(n, k.wanted);
        var done, s := Possibles(ns[..i], k.wanted), Stripped(n);
        StrippedUnknown(dim, n, k.ctx);
        FactsConcat(dim, done, [s], k.ctx);
        OneFact(dim, s, k.ctx);
        LowsConcat(Facts(dim, done, k.ctx), Facts(dim, [s], k.ctx), k.ctx.now, k.ctx.window, 0.0);
        assert Lows(Facts(dim, [s], k.ctx), k.ctx.now, k.ctx.window) == [0.0];
      }
    }
  }

  /** The least the hosting nodes can have is the pool's low end. */
  lemma LowReached(k: Case, dim: Dim)
    requires SaneCase(k) && HostingPool(k) != []
    ensures Hosted(k.nodes, Archs(k.nodes, OtherArch(k.wanted)), k.wanted, LowAmounts(k, dim, k.nodes))
            == DimPool(k, dim).lo
  {
    var arch := Archs(k.nodes, OtherArch(k.wanted));
    var fs := Facts(dim, HostingPool(k), k.ctx);
    ArchsResolve(k.nodes, OtherArch(k.wanted));
    HostedSplits(k.nodes, arch, k.wanted, LowAmounts(k, dim, k.nodes));
    DefiniteLows(k, dim, k.nodes);
    PossibleLows(k, dim, k.nodes, LowAmounts(k, dim, k.nodes));
    PoolIsSplit(k);
    var a, b := Facts(dim, Definites(k.nodes, k.wanted), k.ctx), Facts(dim, Possibles(k.nodes, k.wanted), k.ctx);
    FactsConcat(dim, Definites(k.nodes, k.wanted), Possibles(k.nodes, k.wanted), k.ctx);
    LowsConcat(a, b, k.ctx.now, k.ctx.window, 0.0);
    TotalConcat(Lows(a, k.ctx.now, k.ctx.window), Lows(b, k.ctx.now, k.ctx.window));
    SanePool(dim, k);
    EndsAttained(fs, k.ctx.now, k.ctx.window, 0.0);
    LoClassAside(fs, k.ctx.now, k.ctx.window);
  }

  /* ---------- a world in which it does not ---------- */

  function WorstWorld(k: Case, residency: string, zone: TrustZone, cpuNeed: real, memoryNeed: real): World {
    World(Archs(k.nodes, OtherArch(k.wanted)),
          LowAmounts(k, Cpu, k.nodes), LowAmounts(k, Memory, k.nodes),
          0.0, 0.0,
          NeedOr(NeedFor(Cpu, k.load), cpuNeed), NeedOr(NeedFor(Memory, k.load), memoryNeed),
          if Truthy(k.toResidency) then k.toResidency.value else residency,
          if k.toZone.Some? then k.toZone.value else zone)
  }

  lemma WorstIsPossible(k: Case, residency: string, zone: TrustZone, cpuNeed: real, memoryNeed: real)
    requires SaneCase(k) && residency != "" && cpuNeed >= 0.0 && memoryNeed >= 0.0
    ensures IsPossible(k, WorstWorld(k, residency, zone, cpuNeed, memoryNeed))
  {
    NeedsArePositive(k.load);
    ArchsResolve(k.nodes, OtherArch(k.wanted));
    ExtremesAllowed(k, Cpu, 0.0);
    ExtremesAllowed(k, Memory, 0.0);
  }

  /** More than the hosting nodes can be left with. */
  function TooMuch(k: Case, dim: Dim): real {
    1.0 + Max(0.0, if k.nodes == [] then 0.0
              else Hosted(k.nodes, Archs(k.nodes, OtherArch(k.wanted)), k.wanted, LowAmounts(k, dim, k.nodes)))
  }

  lemma LowInside(dim: Dim, k: Case)
    requires SaneCase(k)
    ensures Encloses(DimPool(k, dim), DimPool(k, dim).lo)
  {
    var fs := Facts(dim, HostingPool(k), k.ctx);
    if fs != [] {
      SanePool(dim, k);
      LoClassAside(fs, k.ctx.now, k.ctx.window);
      KnownFreeInside(fs, k.ctx.now, k.ctx.window);
    }
  }

  lemma WorstIsShort(k: Case, dim: Dim)
    requires SaneCase(k) && DimVerdict(k, dim) != Fits
    ensures var w := WorstWorld(k, "any", Public, TooMuch(k, Cpu), TooMuch(k, Memory));
            IsPossible(k, w) && !Covered(k, w, dim)
  {
    var w := WorstWorld(k, "any", Public, TooMuch(k, Cpu), TooMuch(k, Memory));
    WorstIsPossible(k, "any", Public, TooMuch(k, Cpu), TooMuch(k, Memory));
    NeedsArePositive(k.load);
    var need := NeedFor(dim, k.load);
    if need.value.Some? && k.nodes != [] {
      if HostingPool(k) != [] {
        LowReached(k, dim);
        LowInside(dim, k);
      } else {
        NobodyHosts(k, dim, w);
      }
    }
  }

  lemma NobodyHosts(k: Case, dim: Dim, w: World)
    requires HostingPool(k) == [] && IsPossible(k, w)
    ensures Hosted(k.nodes, w.arch, k.wanted, w.Free(dim)) == 0.0
  {
    PoolIsSplit(k);
    HostedSplits(k.nodes, w.arch, k.wanted, w.Free(dim));
    AmountsCount(k.nodes, w.arch, k.wanted, w.Free(dim));
  }

  lemma {:induction false} AmountsCount(ns: seq<MachineNode>, arch: seq<string>, wanted: map<string, string>,
                                        ts: seq<real>)
    requires |arch| == |ts| == |ns|
    ensures |DefiniteAmounts(ns, wanted, ts)| == |Definites(ns, wanted)|
    ensures |PossibleAmounts(ns, arch, wanted, ts)| == |Possibles(ns, wanted)|
  {
    if ns != [] {
      var i := |ns| - 1;
      AmountsCount(ns[..i], arch[..i], wanted, ts[..i]);
    }
  }

  /** The one check that is left open although nothing that could be learnt would fail it. */
  predicate OpenToAll(k: Case) {
    k.fromZone == Some(Public) && k.toZone.None?
  }

  /** A world that fails whatever was left open among the checks. */
  function Elsewhere(k: Case): World {
    WorstWorld(k, if Truthy(k.fromResidency) then k.fromResidency.value + "x" else "any", Public, 0.0, 0.0)
  }

  lemma OpenChecksCanFail(k: Case)
    requires SaneCase(k) && !OpenToAll(k)
    requires (k.restricted && Truthy(k.fromResidency) && !Truthy(k.toResidency)) || (k.fromZone.Some? && k.toZone.None?)
    ensures IsPossible(k, Elsewhere(k)) && !Passes(k, Elsewhere(k))
  {
    WorstIsPossible(k, if Truthy(k.fromResidency) then k.fromResidency.value + "x" else "any", Public, 0.0, 0.0);
  }

  lemma SomeWorldFails(k: Case) returns (w: World)
    requires SaneCase(k) && !OpenToAll(k)
    requires RuledOut(k) || LeftOpen(k)
    ensures IsPossible(k, w) && !Passes(k, w)
  {
    VerdictOfParts(k);
    SelectorMeans(k);
    if RuledOut(k) {
      w := Elsewhere(k);
      WorstIsPossible(k, if Truthy(k.fromResidency) then k.fromResidency.value + "x" else "any", Public, 0.0, 0.0);
      DoesNotFitIsSound(k, w);
    } else if (k.restricted && Truthy(k.fromResidency) && !Truthy(k.toResidency))
              || (k.fromZone.Some? && k.toZone.None?) {
      w := Elsewhere(k);
      OpenChecksCanFail(k);
    } else {
      w := WorstWorld(k, "any", Public, TooMuch(k, Cpu), TooMuch(k, Memory));
      if DimVerdict(k, Memory) != Fits {
        WorstIsShort(k, Memory);
      } else {
        if DimVerdict(k, Cpu) == Fits {
          OnlyMaybes(k, Cpu);
        }
        WorstIsShort(k, Cpu);
      }
    }
  }

  /** "Fits" is exact: it is said exactly when the move works in every world. */
  lemma FitsIsExact(k: Case)
    requires SaneCase(k) && !OpenToAll(k)
    ensures TargetVerdict(k) == Fits <==> forall w | IsPossible(k, w) :: Passes(k, w)
  {
    VerdictOfParts(k);
    if RuledOut(k) || LeftOpen(k) {
      var w := SomeWorldFails(k);
    } else {
      forall w | IsPossible(k, w)
        ensures Passes(k, w)
      {
        FitsIsSound(k, w);
      }
    }
  }

  lemma MaybesPool(k: Case, dim: Dim)
    requires Definites(k.nodes, k.wanted) == [] && Possibles(k.nodes, k.wanted) != []
    ensures HostingPool(k) != []
            && DimPool(k, dim).lo == SumOf(Facts(dim, Possibles(k.nodes, k.wanted), k.ctx), k.ctx.now, k.ctx.window).lo
  {
    PoolIsSplit(k);
    assert HostingPool(k) == Possibles(k.nodes, k.wanted);
    LoClassAside(Facts(dim, HostingPool(k), k.ctx), k.ctx.now, k.ctx.window);
  }

  /** Nodes that only might match contribute nothing to the low end. */
  lemma MaybesLow(k: Case, dim: Dim)
    requires SaneCase(k)
    ensures SumOf(Facts(dim, Possibles(k.nodes, k.wanted), k.ctx), k.ctx.now, k.ctx.window).lo == 0.0
  {
    SaneDefinites(dim, k, k.nodes);
    EndsAttained(Facts(dim, Possibles(k.nodes, k.wanted), k.ctx), k.ctx.now, k.ctx.window, 0.0);
    UnknownLows(k, dim, k.nodes);
  }

  lemma OnlyMaybes(k: Case, dim: Dim)
    requires SaneCase(k) && ChecksSay(SelectorCheck(k), CantTell)
    ensures DimVerdict(k, dim) != Fits
  {
    SelectorMeans(k);
    MaybesPool(k, dim);
    MaybesLow(k, dim);
    NeedsArePositive(k.load);
  }

  lemma {:induction false} UnknownLows(k: Case, dim: Dim, ns: seq<MachineNode>)
    ensures Total(Lows(Facts(dim, Possibles(ns, k.wanted), k.ctx), k.ctx.now, k.ctx.window)) == 0.0
  {
    if ns != [] {
      var i := |ns| - 1;
      UnknownLows(k, dim, ns[..i]);
      if Possible(ns[i], k.wanted) {
        var done, s := Possibles(ns[..i], k.wanted), Stripped(ns[i]);
        StrippedUnknown(dim, ns[i], k.ctx);
        FactsConcat(dim, done, [s], k.ctx);
        assert Facts(dim, [s], k.ctx) == [NodeFacts(dim, s, k.ctx)];
        LowsConcat(Facts(dim, done, k.ctx), Facts(dim, [s], k.ctx), k.ctx.now, k.ctx.window, 0.0);
        assert Lows(Facts(dim, [s], k.ctx), k.ctx.now, k.ctx.window) == [0.0];
        TotalSnoc(Lows(Facts(dim, done, k.ctx), k.ctx.now, k.ctx.window), 0.0);
      }
    }
  }

  ghost predicate WorksInEveryWorld(k: Case) {
    forall w | IsPossible(k, w) :: Passes(k, w)
  }

  /** With the zone left open, "fits" is never said, although setting any zone at all would say it. */
  lemma OpenToAllIsOvercautious(k: Case)
    requires SaneCase(k) && OpenToAll(k)
    ensures TargetVerdict(k) != Fits
    ensures WorksInEveryWorld(k) <==> TargetVerdict(k.(toZone := Some(Public))) == Fits
  {
    VerdictOfParts(k);
    var k' := k.(toZone := Some(Public));
    FitsIsExact(k');
    if WorksInEveryWorld(k') {
      forall w | IsPossible(k, w)
        ensures Passes(k, w)
      {
        SameElsewhere(k, k', w, w.(zone := Public));
      }
    }
    if WorksInEveryWorld(k) {
      forall w | IsPossible(k', w)
        ensures Passes(k', w)
      {
        SameElsewhere(k, k', w, w);
      }
    }
  }

  ghost predicate YesIsExact(k: Case) {
    TargetVerdict(k) == Fits <==> WorksInEveryWorld(k)
  }

  /** At a target, "fits" is exact unless the zone is left open to all and nothing else stands against it. */
  lemma FitsIsExactAtExactlyWhen(k: Case)
    requires SaneCase(k)
    ensures YesIsExact(k) <==> RuledOut(k) || OtherwiseOpen(k) || !OpenToAll(k)
  {
    if OpenToAll(k) {
      OpenToAllIsOvercautious(k);
      VerdictOfParts(k.(toZone := Some(Public)));
    } else {
      FitsIsExact(k);
    }
  }

  /** One node with room for the workload in every world. */
  const ROOMY_NODE := MachineNode("n", "c", "linux", None, None, map[], false, false, Some(10.0), Some(10.0),
                                  Some(0.0), Some(0.0))

  function RoomyCase(fromZone: Option<TrustZone>, toZone: Option<TrustZone>): Case {
    Case(false, true, map[], [ROOMY_NODE], false, None, None, fromZone, toZone, Load(1, Some(1000.0), Some(1.0)),
         Ctx(0, 0, map[]))
  }

  lemma RoomyPool(f: CapNode, x: real)
    requires f == CapNode(Fact(Some(x), Advice.Reported, None), Fact(Some(0.0), Advice.Reported, None)) && x >= 0.0
    ensures PoolOf([f], 0, 0).lo == LowEnd(x, Advice.Reported)
            && PoolOf([f], 0, 0).hi == Finite(HighEnd(x, Advice.Reported))
  {
    assert [f][..0] == [];
    assert SumOf([f], 0, 0) == Extend(EMPTY_SUM, f, 0, 0);
  }

  lemma RoomyFits(fromZone: Option<TrustZone>, toZone: Option<TrustZone>, dim: Dim)
    ensures DimVerdict(RoomyCase(fromZone, toZone), dim) == Fits
  {
    var k := RoomyCase(fromZone, toZone);
    OneFact(dim, ROOMY_NODE, k.ctx);
    RoomyPool(NodeFacts(dim, ROOMY_NODE, k.ctx), if dim == Cpu then 10.0 else 10.0 * GIB);
  }

  /** So for a pair of zones, "fits" is exact at every target exactly when the pair is not a public zone and
      an unset one. */
  lemma FitsIsExactExactlyWhen(fromZone: Option<TrustZone>, toZone: Option<TrustZone>)
    ensures (forall k | SaneCase(k) && k.fromZone == fromZone && k.toZone == toZone :: YesIsExact(k))
            <==> !(fromZone == Some(Public) && toZone.None?)
  {
    if fromZone == Some(Public) && toZone.None? {
      var k := RoomyCase(fromZone, toZone);
      RoomyFits(fromZone, toZone, Cpu);
      RoomyFits(fromZone, toZone, Memory);
      FitsIsExactAtExactlyWhen(k);
      assert SaneCase(k) && !YesIsExact(k);
    } else {
      forall k | SaneCase(k) && k.fromZone == fromZone && k.toZone == toZone
        ensures YesIsExact(k)
      {
        FitsIsExact(k);
      }
    }
  }

  lemma SameElsewhere(k: Case, k': Case, w: World, w': World)
    requires OpenToAll(k) && k' == k.(toZone := Some(Public)) && w' == w.(zone := Public)
    requires IsPossible(k, w) || (w == w' && IsPossible(k', w'))
    ensures IsPossible(k, w) && IsPossible(k', w') && (Passes(k, w) <==> Passes(k', w'))
  {
  }

  /* ---------- ageing and moves at a target ---------- */

  lemma AdjustWider(p: Pool, q: Pool, d: Delta)
    requires Wider(p, q)
    ensures Wider(AdjustPool(p, d), AdjustPool(q, d))
  {
  }

  lemma {:induction false} AdjustedWider(p: Pool, q: Pool, ds: seq<Delta>)
    requires Wider(p, q)
    ensures Wider(AdjustedBy(p, ds), AdjustedBy(q, ds))
  {
    if ds != [] {
      AdjustedWider(p, q, ds[..|ds| - 1]);
      AdjustWider(AdjustedBy(p, ds[..|ds| - 1]), AdjustedBy(q, ds[..|ds| - 1]), ds[|ds| - 1]);
    }
  }

  lemma WiderWeakens(p: Pool, q: Pool, need: Need)
    requires Wider(p, q) && Covers(p.hi, p.lo)
    ensures Weakens(FitVerdict(need, p), FitVerdict(need, q))
  {
  }

  lemma SamePoolLater(dim: Dim, k: Case, later: int)
    ensures var k' := k.(ctx := k.ctx.(now := later));
            HostingPool(k') == HostingPool(k)
              && Facts(dim, HostingPool(k'), k'.ctx) == Facts(dim, HostingPool(k), k.ctx)
  {
  }

  lemma DimAges(dim: Dim, k: Case, later: int, ds: seq<Delta>)
    requires SaneCase(k) && k.ctx.now <= later
    ensures var k' := k.(ctx := k.ctx.(now := later));
            Weakens(FitVerdict(NeedFor(dim, k.load), AdjustedBy(DimPool(k, dim), ds)),
                    FitVerdict(NeedFor(dim, k.load), AdjustedBy(DimPool(k', dim), ds)))
  {
    var k' := k.(ctx := k.ctx.(now := later));
    SamePoolLater(dim, k, later);
    SanePool(dim, k);
    PoolAges(Facts(dim, HostingPool(k), k.ctx), k.ctx.now, later, k.ctx.window);
    AdjustedWider(DimPool(k, dim), DimPool(k', dim), ds);
    LowInside(dim, k);
    LowUnderHigh(DimPool(k, dim), ds);
    WiderWeakens(AdjustedBy(DimPool(k, dim), ds), AdjustedBy(DimPool(k', dim), ds), NeedFor(dim, k.load));
  }

  function MovedVerdicts(k: Case, moves: seq<Move>): seq<Verdict> {
    [FitVerdict(NeedFor(Cpu, k.load), AdjustedBy(DimPool(k, Cpu), CpuDeltas(moves))),
     FitVerdict(NeedFor(Memory, k.load), AdjustedBy(DimPool(k, Memory), MemoryDeltas(moves)))]
  }

  lemma DimsWithMoves(k: Case, moves: seq<Move>)
    ensures DimVerdicts(JudgedDims(k.load, AdjustedPools(TargetPools(k), moves))) == MovedVerdicts(k, moves)
  {
  }

  ghost predicate EachWeakens(vs: seq<Verdict>, ws: seq<Verdict>) {
    |vs| == |ws| && forall i | 0 <= i < |vs| :: Weakens(vs[i], ws[i])
  }

  lemma MovedVerdictsAge(k: Case, later: int, moves: seq<Move>)
    requires SaneCase(k) && k.ctx.now <= later
    ensures EachWeakens(MovedVerdicts(k, moves), MovedVerdicts(k.(ctx := k.ctx.(now := later)), moves))
  {
    DimAges(Cpu, k, later, CpuDeltas(moves));
    DimAges(Memory, k, later, MemoryDeltas(moves));
  }

  lemma RestUnmoved(vs: seq<Verdict>, ws: seq<Verdict>, rest: seq<Verdict>)
    requires EachWeakens(vs, ws)
    ensures EachWeakens(vs + rest, ws + rest)
  {
  }

  lemma SameChecksLater(k: Case, later: int)
    ensures ChecksOf(k.(ctx := k.ctx.(now := later))) == ChecksOf(k)
  {
  }

  /** As time passes a target's answer, whatever was moved first, stays or becomes "can't tell". */
  lemma TargetAges(k: Case, later: int, moves: seq<Move>)
    requires SaneCase(k) && k.ctx.now <= later
    ensures Weakens(VerdictWithMoves(k, moves), VerdictWithMoves(k.(ctx := k.ctx.(now := later)), moves))
  {
    var k' := k.(ctx := k.ctx.(now := later));
    MovedVerdictsAge(k, later, moves);
    DimsWithMoves(k, moves);
    DimsWithMoves(k', moves);
    SameChecksLater(k, later);
    var cs := CheckVerdicts(LiveCheck(k.live) + ChecksOf(k));
    RestUnmoved(MovedVerdicts(k, moves), MovedVerdicts(k', moves), cs);
    CombinedAges(MovedVerdicts(k, moves) + cs, MovedVerdicts(k', moves) + cs);
  }
}
