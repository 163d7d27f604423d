/**
 What a target's verdict means. A world resolves everything the model does not know about one
 workload at one cluster: the architecture of nodes that never reported it, the true free amounts
 the facts allow, what a workload without a request needs, and an unset residency or trust zone.
 "Fits" means the move works in every world and "does not fit" that it works in none; the
 converses hold too, outside exactly described cases.
 */
module TargetWorlds {
  import opened Options
  import opened Advice
  import opened PoolWorlds
  import opened Capacity
  import opened Movability

  datatype Dim = Cpu | Memory

  datatype World = World(
    arch: seq<string>,
    cpu: seq<real>,
    memory: seq<real>,
    restCpu: real,
    restMemory: real,
    cpuNeed: real,
    memoryNeed: real,
    residency: string,
    zone: TrustZone)
  {
    function Free(dim: Dim): seq<real> {
      if dim == Cpu then cpu else memory
    }

    /** What a cluster none of whose nodes are known has free. */
    function Rest(dim: Dim): real {
      if dim == Cpu then restCpu else restMemory
    }

    function Needed(dim: Dim): real {
      if dim == Cpu then cpuNeed else memoryNeed
    }
  }

  function NodeFacts(dim: Dim, n: MachineNode, ctx: Ctx): CapNode {
    if dim == Cpu then CpuNode(n, ctx) else MemoryNode(n, ctx)
  }

  function Facts(dim: Dim, ns: seq<MachineNode>, ctx: Ctx): seq<CapNode> {
    if dim == Cpu then CpuNodes(ns, ctx) else MemoryNodes(ns, ctx)
  }

  function NeedFor(dim: Dim, l: Load): Need {
    if dim == Cpu then NeedOf(l).cpu else NeedOf(l).memory
  }

  /* ---------- worlds ---------- */

  predicate Resolves(reported: Option<string>, actual: string) {
    actual != "" && (Truthy(reported) ==> actual == reported.value)
  }

  /** Every node has what its own figures allow, also one that only might match. */
  predicate NodeAllows(k: Case, dim: Dim, n: MachineNode, t: real) {
    Allows(NodeFacts(dim, n, k.ctx), k.ctx.now, k.ctx.window, t)
  }

  predicate NeedAllows(need: Need, x: real) {
    0.0 <= x && (need.value.Some? ==> x == need.value.value)
  }

  ghost predicate IsPossible(k: Case, w: World) {
    && |w.arch| == |w.cpu| == |w.memory| == |k.nodes|
    && (forall i | 0 <= i < |k.nodes| :: Resolves(k.nodes[i].arch, w.arch[i]))
    && (forall i | 0 <= i < |k.nodes| :: NodeAllows(k, Cpu, k.nodes[i], w.cpu[i]))
    && (forall i | 0 <= i < |k.nodes| :: NodeAllows(k, Memory, k.nodes[i], w.memory[i]))
    && 0.0 <= w.restCpu && 0.0 <= w.restMemory
    && NeedAllows(NeedFor(Cpu, k.load), w.cpuNeed) && NeedAllows(NeedFor(Memory, k.load), w.memoryNeed)
    && Resolves(k.toResidency, w.residency)
    && (k.toZone.Some? ==> w.zone == k.toZone.value)
  }

  /** Whether a node of the given architecture carries every wanted label. */
  predicate Hosts(n: MachineNode, arch: string, wanted: map<string, string>) {
    var l := NodeLabels(n.(arch := Some(arch)));
    forall k | k in wanted :: k in l && l[k] == wanted[k]
  }

  /** The true free amount over the nodes that really host the workload. */
  function Hosted(ns: seq<MachineNode>, arch: seq<string>, wanted: map<string, string>, ts: seq<real>): real
    requires |arch| == |ts| == |ns|
  {
    if ns == [] then 0.0
    else
      var i := |ns| - 1;
      Hosted(ns[..i], arch[..i], wanted, ts[..i]) + if Hosts(ns[i], arch[i], wanted) then ts[i] else 0.0
  }

  /** What the target really has free for the workload. */
  ghost function TrueFree(k: Case, w: World, dim: Dim): real
    requires IsPossible(k, w)
  {
    if k.nodes == [] then w.Rest(dim) else Hosted(k.nodes, w.arch, k.wanted, w.Free(dim))
  }

  ghost predicate Covered(k: Case, w: World, dim: Dim)
    requires IsPossible(k, w)
  {
    w.Needed(dim) <= TrueFree(k, w, dim)
  }

  ghost predicate SomeHost(k: Case, w: World)
    requires IsPossible(k, w)
  {
    k.nodes == [] || exists i | 0 <= i < |k.nodes| :: Hosts(k.nodes[i], w.arch[i], k.wanted)
  }

  /** What the checks are about holds in this world. */
  ghost predicate DemandsHold(k: Case, w: World)
    requires IsPossible(k, w)
  {
    && !k.daemonSet && k.live
    && SomeHost(k, w)
    && (k.restricted && Truthy(k.fromResidency) ==> w.residency == k.fromResidency.value)
    && (k.fromZone.Some? ==> ZoneRank(w.zone) >= ZoneRank(k.fromZone.value))
  }

  /** The move works in this world: the demands of the checks hold and the needs are covered. */
  ghost predicate Passes(k: Case, w: World)
    requires IsPossible(k, w)
  {
    DemandsHold(k, w) && Covered(k, w, Cpu) && Covered(k, w, Memory)
  }

  /** No node claims to offer less than nothing. */
  predicate SaneCase(k: Case) {
    forall n | n in k.nodes ::
      && (n.cpuAllocatable.Some? ==> n.cpuAllocatable.value >= 0.0)
      && (n.memoryGbAllocatable.Some? ==> n.memoryGbAllocatable.value >= 0.0)
  }

  /* ---------- who hosts, and who might ---------- */

  lemma HostsBetween(n: MachineNode, arch: string, wanted: map<string, string>)
    requires Resolves(n.arch, arch)
    ensures Definite(n, wanted) ==> Hosts(n, arch, wanted)
    ensures Hosts(n, arch, wanted) ==> Definite(n, wanted) || Possible(n, wanted)
    ensures !(Definite(n, wanted) && Possible(n, wanted))
  {
    var l, l' := NodeLabels(n), NodeLabels(n.(arch := Some(arch)));
    forall k | k in wanted
      ensures Matches(n, k, wanted[k]) == Yes ==> k in l' && l'[k] == wanted[k]
      ensures k in l' && l'[k] == wanted[k] ==> Matches(n, k, wanted[k]) != No
    {
    }
  }

  /* ---------- the amounts of the hosting pool inside a world ---------- */

  function DefiniteAmounts(ns: seq<MachineNode>, wanted: map<string, string>, ts: seq<real>): seq<real>
    requires |ts| == |ns|
  {
    if ns == [] then []
    else
      var i := |ns| - 1;
      var done := DefiniteAmounts(ns[..i], wanted, ts[..i]);
      if Definite(ns[i], wanted) then done + [ts[i]] else done
  }

  function PossibleAmounts(ns: seq<MachineNode>, arch: seq<string>, wanted: map<string, string>,
                           ts: seq<real>): seq<real>
    requires |arch| == |ts| == |ns|
  {
    if ns == [] then []
    else
      var i := |ns| - 1;
      var done := PossibleAmounts(ns[..i], arch[..i], wanted, ts[..i]);
      if Possible(ns[i], wanted) then done + [if Hosts(ns[i], arch[i], wanted) then ts[i] else 0.0] else done
  }

  lemma TotalSnoc(a: seq<real>, x: real)
    ensures Total(a + [x]) == Total(a) + x
  {
    assert (a + [x])[..|a|] == a;
  }

  lemma {:induction false} TotalConcat(a: seq<real>, b: seq<real>)
    ensures Total(a + b) == Total(a) + Total(b)
  {
    if b == [] {
      assert a + b == a;
    } else {
      var j := |b| - 1;
      TotalConcat(a, b[..j]);
      assert a + b == (a + b[..j]) + [b[j]];
      TotalSnoc(a + b[..j], b[j]);
    }
  }

  lemma {:induction false} HostedSplits(ns: seq<MachineNode>, arch: seq<string>, wanted: map<string, string>,
                                        ts: seq<real>)
    requires |arch| == |ts| == |ns|
    requires forall i | 0 <= i < |ns| :: Resolves(ns[i].arch, arch[i])
    ensures Hosted(ns, arch, wanted, ts)
            == Total(DefiniteAmounts(ns, wanted, ts)) + Total(PossibleAmounts(ns, arch, wanted, ts))
  {
    if ns != [] {
      var i := |ns| - 1;
      HostedSplits(ns[..i], arch[..i], wanted, ts[..i]);
      HostsBetween(ns[i], arch[i], wanted);
      TotalSnoc(DefiniteAmounts(ns[..i], wanted, ts[..i]), ts[i]);
      TotalSnoc(PossibleAmounts(ns[..i], arch[..i], wanted, ts[..i]),
                if Hosts(ns[i], arch[i], wanted) then ts[i] else 0.0);
    }
  }

  lemma FactsConcat(dim: Dim, a: seq<MachineNode>, b: seq<MachineNode>, ctx: Ctx)
    ensures Facts(dim, a + b, ctx) == Facts(dim, a, ctx) + Facts(dim, b, ctx)
  {
  }

  lemma WorldsConcat(a: seq<CapNode>, b: seq<CapNode>, now: int, window: int, ts: seq<real>, us: seq<real>)
    requires IsWorld(a, now, window, ts) && IsWorld(b, now, window, us)
    ensures IsWorld(a + b, now, window, ts + us)
  {
  }

  lemma StrippedUnknown(dim: Dim, n: MachineNode, ctx: Ctx)
    ensures !Known(NodeFacts(dim, Stripped(n), ctx).allocatable)
  {
  }

  lemma {:induction false} AmountsAllowed(k: Case, dim: Dim, ns: seq<MachineNode>, arch: seq<string>, ts: seq<real>)
    requires |arch| == |ts| == |ns|
    requires forall i | 0 <= i < |ns| :: NodeAllows(k, dim, ns[i], ts[i])
    ensures IsWorld(Facts(dim, Definites(ns, k.wanted), k.ctx), k.ctx.now, k.ctx.window,
                    DefiniteAmounts(ns, k.wanted, ts))
    ensures IsWorld(Facts(dim, Possibles(ns, k.wanted), k.ctx), k.ctx.now, k.ctx.window,
                    PossibleAmounts(ns, arch, k.wanted, ts))
  {
    if ns != [] {
      var i := |ns| - 1;
      AmountsAllowed(k, dim, ns[..i], arch[..i], ts[..i]);
      assert NodeAllows(k, dim, ns[i], ts[i]);
      if Definite(ns[i], k.wanted) {
        assert !Possible(ns[i], k.wanted);
        FactsConcat(dim, Definites(ns[..i], k.wanted), [ns[i]], k.ctx);
        WorldsConcat(Facts(dim, Definites(ns[..i], k.wanted), k.ctx), Facts(dim, [ns[i]], k.ctx),
                     k.ctx.now, k.ctx.window,
                     DefiniteAmounts(ns[..i], k.wanted, ts[..i]), [ts[i]]);
      }
      if Possible(ns[i], k.wanted) {
        var s := Stripped(ns[i]);
        StrippedUnknown(dim, ns[i], k.ctx);
        var u := if Hosts(ns[i], arch[i], k.wanted) then ts[i] else 0.0;
        FactsConcat(dim, Possibles(ns[..i], k.wanted), [s], k.ctx);
        WorldsConcat(Facts(dim, Possibles(ns[..i], k.wanted), k.ctx), Facts(dim, [s], k.ctx), k.ctx.now, k.ctx.window,
                     PossibleAmounts(ns[..i], arch[..i], k.wanted, ts[..i]), [u]);
      }
    }
  }

  lemma {:induction false} AllDefinite(ns: seq<MachineNode>)
    ensures Definites(ns, map[]) == ns && Possibles(ns, map[]) == []
  {
    if ns != [] {
      AllDefinite(ns[..|ns| - 1]);
    }
  }

  lemma PoolIsSplit(k: Case)
    ensures HostingPool(k) == Definites(k.nodes, k.wanted) + Possibles(k.nodes, k.wanted)
  {
    if k.wanted == map[] {
      AllDefinite(k.nodes);
    }
  }

  function DimPool(k: Case, dim: Dim): Pool {
    PoolOf(Facts(dim, HostingPool(k), k.ctx), k.ctx.now, k.ctx.window)
  }

  function DimVerdict(k: Case, dim: Dim): Verdict {
    FitVerdict(NeedFor(dim, k.load), DimPool(k, dim))
  }

  /** In every world the pool's interval encloses what the hosting nodes really have free. */
  lemma PoolEnclosesHosted(k: Case, w: World, dim: Dim)
    requires IsPossible(k, w) && HostingPool(k) != []
    ensures var p, t := DimPool(k, dim), Hosted(k.nodes, w.arch, k.wanted, w.Free(dim));
            p.lo <= t && Covers(p.hi, t)
  {
    var ts := w.Free(dim);
    var d, m := DefiniteAmounts(k.nodes, k.wanted, ts), PossibleAmounts(k.nodes, w.arch, k.wanted, ts);
    AmountsAllowed(k, dim, k.nodes, w.arch, ts);
    HostedSplits(k.nodes, w.arch, k.wanted, ts);
    PoolIsSplit(k);
    FactsConcat(dim, Definites(k.nodes, k.wanted), Possibles(k.nodes, k.wanted), k.ctx);
    var fs := Facts(dim, HostingPool(k), k.ctx);
    WorldsConcat(Facts(dim, Definites(k.nodes, k.wanted), k.ctx), Facts(dim, Possibles(k.nodes, k.wanted), k.ctx),
                 k.ctx.now, k.ctx.window, d, m);
    TotalConcat(d, m);
    IntervalEncloses(fs, k.ctx.now, k.ctx.window, d + m);
    LoClassAside(fs, k.ctx.now, k.ctx.window);
  }

  lemma DimIsSound(k: Case, w: World, dim: Dim)
    requires IsPossible(k, w)
    ensures DimVerdict(k, dim) == Fits ==> Covered(k, w, dim)
    ensures DimVerdict(k, dim) == DoesNotFit ==> !Covered(k, w, dim)
  {
    NeedsArePositive(k.load);
    if HostingPool(k) != [] {
      PoolEnclosesHosted(k, w, dim);
    } else {
      assert Facts(dim, HostingPool(k), k.ctx) == [];
    }
  }

  /* ---------- the verdict over its parts ---------- */

  predicate ChecksSay(cs: seq<Check>, v: Verdict) {
    exists i | 0 <= i < |cs| :: cs[i].verdict == v
  }

  lemma VerdictIn(a: seq<Verdict>, b: seq<Verdict>, v: Verdict)
    ensures v in a + b <==> v in a || v in b
  {
  }

  lemma ChecksIn(cs: seq<Check>, v: Verdict)
    ensures v in CheckVerdicts(cs) <==> ChecksSay(cs, v)
  {
    if ChecksSay(cs, v) {
      var i :| 0 <= i < |cs| && cs[i].verdict == v;
      assert CheckVerdicts(cs)[i] == v;
    }
  }

  lemma ChecksOfSay(k: Case, v: Verdict)
    ensures ChecksSay(LiveCheck(k.live) + ChecksOf(k), v)
            <==> || ChecksSay(LiveCheck(k.live), v) || ChecksSay(KindCheck(k), v) || ChecksSay(SelectorCheck(k), v)
                 || ChecksSay(ResidencyCheck(k), v) || ChecksSay(TrustCheck(k), v)
  {
    SayConcat(KindCheck(k), SelectorCheck(k), v);
    SayConcat(KindCheck(k) + SelectorCheck(k), ResidencyCheck(k), v);
    SayConcat(KindCheck(k) + SelectorCheck(k) + ResidencyCheck(k), TrustCheck(k), v);
    SayConcat(LiveCheck(k.live), ChecksOf(k), v);
  }

  lemma PartsOf(k: Case, v: Verdict)
    ensures v in DimVerdicts(JudgedDims(k.load, TargetPools(k))) + CheckVerdicts(LiveCheck(k.live) + ChecksOf(k))
            <==> || DimVerdict(k, Cpu) == v || DimVerdict(k, Memory) == v
                 || ChecksSay(LiveCheck(k.live), v) || ChecksSay(KindCheck(k), v) || ChecksSay(SelectorCheck(k), v)
                 || ChecksSay(ResidencyCheck(k), v) || ChecksSay(TrustCheck(k), v)
  {
    var dims := JudgedDims(k.load, TargetPools(k));
    assert DimVerdicts(dims) == [DimVerdict(k, Cpu), DimVerdict(k, Memory)];
    var cs := LiveCheck(k.live) + ChecksOf(k);
    VerdictIn(DimVerdicts(dims), CheckVerdicts(cs), v);
    ChecksIn(cs, v);
    ChecksOfSay(k, v);
  }

  lemma SayConcat(a: seq<Check>, b: seq<Check>, v: Verdict)
    ensures ChecksSay(a + b, v) <==> ChecksSay(a, v) || ChecksSay(b, v)
  {
    if ChecksSay(a, v) {
      var i :| 0 <= i < |a| && a[i].verdict == v;
      assert (a + b)[i].verdict == v;
    }
    if ChecksSay(b, v) {
      var i :| 0 <= i < |b| && b[i].verdict == v;
      assert (a + b)[|a| + i].verdict == v;
    }
  }

  /** Each check says what its name says. */
  lemma ChecksMean(k: Case)
    ensures ChecksSay(LiveCheck(k.live), DoesNotFit) <==> !k.live
    ensures !ChecksSay(LiveCheck(k.live), CantTell)
    ensures ChecksSay(KindCheck(k), DoesNotFit) <==> k.daemonSet
    ensures !ChecksSay(KindCheck(k), CantTell)
    ensures ChecksSay(ResidencyCheck(k), DoesNotFit) <==>
            k.restricted && Truthy(k.fromResidency) && Truthy(k.toResidency) && k.toResidency != k.fromResidency
    ensures ChecksSay(ResidencyCheck(k), CantTell)
            <==> k.restricted && Truthy(k.fromResidency) && !Truthy(k.toResidency)
    ensures ChecksSay(TrustCheck(k), DoesNotFit) <==>
            k.fromZone.Some? && k.toZone.Some? && ZoneRank(k.toZone.value) < ZoneRank(k.fromZone.value)
    ensures ChecksSay(TrustCheck(k), CantTell) <==> k.fromZone.Some? && k.toZone.None?
  {
    forall cs: seq<Check>, v: Verdict | |cs| == 1
      ensures ChecksSay(cs, v) <==> cs[0].verdict == v
    {
    }
  }

  lemma SelectorMeans(k: Case)
    ensures ChecksSay(SelectorCheck(k), DoesNotFit) <==>
            Selects(k) && Definites(k.nodes, k.wanted) == [] && Possibles(k.nodes, k.wanted) == []
    ensures ChecksSay(SelectorCheck(k), CantTell) <==>
            Selects(k) && Definites(k.nodes, k.wanted) == [] && Possibles(k.nodes, k.wanted) != []
  {
    forall cs: seq<Check>, v: Verdict | |cs| == 1
      ensures ChecksSay(cs, v) <==> cs[0].verdict == v
    {
    }
  }

  lemma {:induction false} DefiniteAt(ns: seq<MachineNode>, wanted: map<string, string>) returns (i: nat)
    requires Definites(ns, wanted) != []
    ensures i < |ns| && Definite(ns[i], wanted)
  {
    var last := |ns| - 1;
    if Definite(ns[last], wanted) {
      i := last;
    } else {
      i := DefiniteAt(ns[..last], wanted);
    }
  }

  lemma {:induction false} NoneListed(ns: seq<MachineNode>, wanted: map<string, string>, i: nat)
    requires i < |ns|
    ensures Definites(ns, wanted) == [] ==> !Definite(ns[i], wanted)
    ensures Possibles(ns, wanted) == [] ==> !Possible(ns[i], wanted)
  {
    if i < |ns| - 1 {
      NoneListed(ns[..|ns| - 1], wanted, i);
    }
  }

  lemma SelectorPassed(k: Case, w: World)
    requires IsPossible(k, w)
    requires !ChecksSay(SelectorCheck(k), DoesNotFit) && !ChecksSay(SelectorCheck(k), CantTell)
    ensures SomeHost(k, w)
  {
    SelectorMeans(k);
    if k.nodes != [] {
      if k.wanted == map[] {
        assert Hosts(k.nodes[0], w.arch[0], k.wanted);
      } else {
        var i := DefiniteAt(k.nodes, k.wanted);
        HostsBetween(k.nodes[i], w.arch[i], k.wanted);
      }
    }
  }

  lemma SelectorFailed(k: Case, w: World)
    requires IsPossible(k, w)
    requires ChecksSay(SelectorCheck(k), DoesNotFit)
    ensures !SomeHost(k, w)
  {
    SelectorMeans(k);
    forall i | 0 <= i < |k.nodes|
      ensures !Hosts(k.nodes[i], w.arch[i], k.wanted)
    {
      NoneListed(k.nodes, k.wanted, i);
      HostsBetween(k.nodes[i], w.arch[i], k.wanted);
    }
  }

  /** What rules a target out whatever its nodes are like. */
  predicate PolicyRulesOut(k: Case) {
    || !k.live || k.daemonSet
    || (k.restricted && Truthy(k.fromResidency) && Truthy(k.toResidency) && k.toResidency != k.fromResidency)
    || (k.fromZone.Some? && k.toZone.Some? && ZoneRank(k.toZone.value) < ZoneRank(k.fromZone.value))
  }

  /** What rules a target out, and what leaves it open, part by part. */
  predicate RuledOut(k: Case) {
    || DimVerdict(k, Cpu) == DoesNotFit || DimVerdict(k, Memory) == DoesNotFit
    || PolicyRulesOut(k)
    || (Selects(k) && Definites(k.nodes, k.wanted) == [] && Possibles(k.nodes, k.wanted) == [])
  }

  predicate ZoneLeftOpen(k: Case) {
    k.fromZone.Some? && k.toZone.None?
  }

  predicate OtherwiseOpen(k: Case) {
    || DimVerdict(k, Cpu) == CantTell || DimVerdict(k, Memory) == CantTell
    || (Selects(k) && Definites(k.nodes, k.wanted) == [] && Possibles(k.nodes, k.wanted) != [])
    || (k.restricted && Truthy(k.fromResidency) && !Truthy(k.toResidency))
  }

  predicate LeftOpen(k: Case) {
    OtherwiseOpen(k) || ZoneLeftOpen(k)
  }

  lemma VerdictOfParts(k: Case)
    ensures TargetVerdict(k) == DoesNotFit <==> RuledOut(k)
    ensures TargetVerdict(k) == CantTell <==> !RuledOut(k) && LeftOpen(k)
  {
    PartsOf(k, DoesNotFit);
    PartsOf(k, CantTell);
    ChecksMean(k);
    SelectorMeans(k);
  }

  /* ---------- soundness ---------- */

  /** Checks that are all passed hold in every world; a check that is failed holds in none. */
  lemma ChecksAreSound(k: Case, w: World)
    requires IsPossible(k, w)
    ensures var cs := LiveCheck(k.live) + ChecksOf(k);
            && (!ChecksSay(cs, DoesNotFit) && !ChecksSay(cs, CantTell) ==> DemandsHold(k, w))
            && (ChecksSay(cs, DoesNotFit) ==> !DemandsHold(k, w))
  {
    ChecksOfSay(k, DoesNotFit);
    ChecksOfSay(k, CantTell);
    ChecksMean(k);
    if ChecksSay(SelectorCheck(k), DoesNotFit) {
      SelectorFailed(k, w);
    } else if !ChecksSay(SelectorCheck(k), CantTell) {
      SelectorPassed(k, w);
    }
  }

  /** A target judged "fits" works in every world. */
  lemma FitsIsSound(k: Case, w: World)
    requires IsPossible(k, w) && TargetVerdict(k) == Fits
    ensures Passes(k, w)
  {
    PartsOf(k, DoesNotFit);
    PartsOf(k, CantTell);
    ChecksOfSay(k, DoesNotFit);
    ChecksOfSay(k, CantTell);
    ChecksAreSound(k, w);
    DimIsSound(k, w, Cpu);
    DimIsSound(k, w, Memory);
  }

  /** A target judged "does not fit" works in no world. */
  lemma DoesNotFitIsSound(k: Case, w: World)
    requires IsPossible(k, w) && TargetVerdict(k) == DoesNotFit
    ensures !Passes(k, w)
  {
    PartsOf(k, DoesNotFit);
    ChecksOfSay(k, DoesNotFit);
    ChecksAreSound(k, w);
    DimIsSound(k, w, Cpu);
    DimIsSound(k, w, Memory);
  }
}
