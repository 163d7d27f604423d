/**
 The records of the model turned into the facts the rules judge, and the pools shifted by
 workloads that move in and out.
 */
module Capacity {
  import opened Options
  import opened Advice
  import opened PoolWorlds

  datatype MachineNode = MachineNode(
    id: string,
    clusterId: string,
    os: string,
    arch: Option<string>,
    zone: Option<string>,
    labels: map<string, string>,
    discovered: bool,
    deleted: bool,
    cpuAllocatable: Option<real>,
    memoryGbAllocatable: Option<real>,
    cpuRequested: Option<real>,
    memoryGbRequested: Option<real>)

  /** When facts are judged, how old they may be, and when the server last confirmed each node. */
  datatype Ctx = Ctx(now: int, window: int, observedAt: map<string, int>)

  datatype Load = Load(replicas: int, cpuRequestM: Option<real>, memRequestMi: Option<real>)

  datatype Needs = Needs(cpu: Need, memory: Need)

  datatype Pools = Pools(cpu: Pool, memory: Pool)

  datatype Move = In(load: Load) | Out(load: Load)

  const GIB := 1073741824.0

  const UNKNOWN_FACT := Fact(None, Unknown, None)

  function ObservedAt(n: MachineNode, ctx: Ctx): Option<int> {
    if n.discovered && n.id in ctx.observedAt then Some(ctx.observedAt[n.id]) else None
  }

  function FactOf(v: Option<real>, scale: real, observedAt: Option<int>): Fact {
    if v.None? then UNKNOWN_FACT else Fact(Some(v.value * scale), Reported, observedAt)
  }

  function CpuNode(n: MachineNode, ctx: Ctx): CapNode {
    CapNode(FactOf(n.cpuAllocatable, 1.0, ObservedAt(n, ctx)), FactOf(n.cpuRequested, 1.0, ObservedAt(n, ctx)))
  }

  function MemoryNode(n: MachineNode, ctx: Ctx): CapNode {
    CapNode(FactOf(n.memoryGbAllocatable, GIB, ObservedAt(n, ctx)),
            FactOf(n.memoryGbRequested, GIB, ObservedAt(n, ctx)))
  }

  function CpuNodes(nodes: seq<MachineNode>, ctx: Ctx): (cs: seq<CapNode>)
    ensures |cs| == |nodes|
  {
    seq(|nodes|, i requires 0 <= i < |nodes| => CpuNode(nodes[i], ctx))
  }

  function MemoryNodes(nodes: seq<MachineNode>, ctx: Ctx): (cs: seq<CapNode>)
    ensures |cs| == |nodes|
  {
    seq(|nodes|, i requires 0 <= i < |nodes| => MemoryNode(nodes[i], ctx))
  }

  method CapNodes(nodes: seq<MachineNode>, ctx: Ctx) returns (cpu: seq<CapNode>, memory: seq<CapNode>)
    ensures cpu == CpuNodes(nodes, ctx)
    ensures memory == MemoryNodes(nodes, ctx)
  {
    cpu, memory := [], [];
    for i := 0 to |nodes|
      invariant cpu == CpuNodes(nodes[..i], ctx) && memory == MemoryNodes(nodes[..i], ctx)
    {
      var n := nodes[i];
      var at := ObservedAt(n, ctx);
      cpu := cpu + [CapNode(FactOf(n.cpuAllocatable, 1.0, at), FactOf(n.cpuRequested, 1.0, at))];
      memory := memory + [CapNode(FactOf(n.memoryGbAllocatable, GIB, at), FactOf(n.memoryGbRequested, GIB, at))];
    }
    assert nodes[..|nodes|] == nodes;
  }

  /** A request counts only when it is set and positive: no request is unknown, not "asks for nothing". */
  function RequestOf(v: Option<real>, factor: real): Need {
    if v.Some? && v.value > 0.0 then Need(Some(v.value * factor), Reported) else Need(None, Unknown)
  }

  function NeedOf(l: Load): Needs {
    var r := if l.replicas < 1 then 1.0 else l.replicas as real;
    Needs(RequestOf(l.cpuRequestM, r / 1000.0), RequestOf(l.memRequestMi, r * 1048576.0))
  }

  lemma NeedsArePositive(l: Load)
    ensures NeedOf(l).cpu.value.Some? ==> NeedOf(l).cpu.value.value > 0.0
    ensures NeedOf(l).memory.value.Some? ==> NeedOf(l).memory.value.value > 0.0
  {
  }

  /** What so many copies ask for together. */
  function Together(copies: nat, each: real): (all: real)
    ensures each > 0.0 && copies > 0 ==> all > 0.0
  {
    if copies == 0 then 0.0 else Together(copies - 1, each) + each
  }

  predicate IsAsked(request: Option<real>) {
    request.Some? && request.value > 0.0
  }

  lemma {:induction false} TogetherIs(copies: nat, each: real)
    ensures Together(copies, each) == (copies as real) * each
  {
    if copies > 0 {
      TogetherIs(copies - 1, each);
      assert copies as real == (copies - 1) as real + 1.0;
    }
  }

  lemma CopiesPerUnit(v: real, copies: nat, r: real, unit: real)
    requires unit != 0.0 && r == copies as real
    ensures v * (r / unit) == Together(copies, v / unit)
  {
    TogetherIs(copies, v / unit);
    assert v * (r / unit) * unit == v * r && r * (v / unit) * unit == v * r;
    assert (v * (r / unit) - r * (v / unit)) * unit == 0.0;
  }

  lemma CopiesOfUnits(v: real, copies: nat, r: real, unit: real)
    requires r == copies as real
    ensures v * (r * unit) == Together(copies, v * unit)
  {
    TogetherIs(copies, v * unit);
    assert v * (r * unit) == r * (v * unit);
  }

  /** The need is what all copies ask for, each for `each`; without a request, or for nothing, it is not known. */
  predicate IsNeedOfAll(n: Need, request: Option<real>, copies: nat, each: real) {
    if IsAsked(request) then n.value.Some? && n.value.value == Together(copies, each) && n.cls == Reported
    else n == Need(None, Unknown)
  }

  /** The replicas that run at least. */
  function Copies(l: Load): nat {
    if l.replicas <= 1 then 1 else l.replicas
  }

  function CoresEach(l: Load): real {
    if l.cpuRequestM.Some? then l.cpuRequestM.value / 1000.0 else 0.0
  }

  function BytesEach(l: Load): real {
    if l.memRequestMi.Some? then l.memRequestMi.value * (GIB / 1024.0) else 0.0
  }

  /** A workload needs what its replicas ask for one by one: 1000 millicores are a core, 1024 MiB a GiB. */
  lemma NeedsAreTogether(l: Load)
    ensures IsNeedOfAll(NeedOf(l).cpu, l.cpuRequestM, Copies(l), CoresEach(l))
    ensures IsNeedOfAll(NeedOf(l).memory, l.memRequestMi, Copies(l), BytesEach(l))
  {
    var r := if l.replicas < 1 then 1.0 else l.replicas as real;
    assert r == Copies(l) as real && GIB / 1024.0 == 1048576.0;
    if IsAsked(l.cpuRequestM) {
      CopiesPerUnit(l.cpuRequestM.value, Copies(l), r, 1000.0);
      RequestIs(l.cpuRequestM, r / 1000.0, Together(Copies(l), CoresEach(l)));
    }
    if IsAsked(l.memRequestMi) {
      CopiesOfUnits(l.memRequestMi.value, Copies(l), r, 1048576.0);
      RequestIs(l.memRequestMi, r * 1048576.0, Together(Copies(l), BytesEach(l)));
    }
  }

  lemma RequestIs(v: Option<real>, factor: real, all: real)
    requires IsAsked(v) && v.value * factor == all
    ensures RequestOf(v, factor) == Need(Some(all), Reported)
  {
  }

  function PoolsOf(nodes: seq<MachineNode>, ctx: Ctx): Pools {
    Pools(PoolOf(CpuNodes(nodes, ctx), ctx.now, ctx.window), PoolOf(MemoryNodes(nodes, ctx), ctx.now, ctx.window))
  }

  method BuildPools(nodes: seq<MachineNode>, ctx: Ctx) returns (p: Pools)
    ensures p == PoolsOf(nodes, ctx)
  {
    var cpu, memory := CapNodes(nodes, ctx);
    var c := NewPool(cpu, ctx.now, ctx.window);
    var m := NewPool(memory, ctx.now, ctx.window);
    p := Pools(c, m);
  }

  /* ---------- moving workloads in and out ---------- */

  /** What one move does to a pool: an amount, or the removal of the floor by a workload without a request. */
  datatype Delta = By(amount: real) | NoRequest

  function AdjustPool(p: Pool, d: Delta): Pool {
    match d
    case NoRequest =>
      p.(lo := 0.0, knownFree := 0.0, knownNodes := 0, hiKnown := 0.0, nominalKnown := false, cls := Unknown,
         loClass := Unknown)
    case By(x) =>
      p.(lo := Max(0.0, p.lo + x),
         hi := if p.hi.Finite? then Finite(Max(0.0, p.hi.r + x)) else Unbounded,
         hiKnown := Max(0.0, p.hiKnown + x),
         knownFree := Max(0.0, p.knownFree + x))
  }

  /** What a move means for one dimension: nothing at all when a workload without a request leaves. */
  function DeltaOf(m: Move, need: Need): seq<Delta> {
    match m
    case In(_) => if need.value.None? then [NoRequest] else [By(-need.value.value)]
    case Out(_) => if need.value.None? then [] else [By(need.value.value)]
  }

  function CpuDeltas(moves: seq<Move>): seq<Delta> {
    if moves == [] then []
    else CpuDeltas(moves[..|moves| - 1]) + DeltaOf(moves[|moves| - 1], NeedOf(moves[|moves| - 1].load).cpu)
  }

  function MemoryDeltas(moves: seq<Move>): seq<Delta> {
    if moves == [] then []
    else MemoryDeltas(moves[..|moves| - 1]) + DeltaOf(moves[|moves| - 1], NeedOf(moves[|moves| - 1].load).memory)
  }

  function AdjustedBy(p: Pool, ds: seq<Delta>): Pool {
    if ds == [] then p else AdjustPool(AdjustedBy(p, ds[..|ds| - 1]), ds[|ds| - 1])
  }

  function AdjustedPools(p: Pools, moves: seq<Move>): Pools {
    Pools(AdjustedBy(p.cpu, CpuDeltas(moves)), AdjustedBy(p.memory, MemoryDeltas(moves)))
  }

  method AdjustPools(p: Pools, moves: seq<Move>) returns (q: Pools)
    ensures q == AdjustedPools(p, moves)
  {
    var cpu, memory := p.cpu, p.memory;
    for i := 0 to |moves|
      invariant cpu == AdjustedBy(p.cpu, CpuDeltas(moves[..i]))
      invariant memory == AdjustedBy(p.memory, MemoryDeltas(moves[..i]))
    {
      var m := moves[i];
      var n := NeedOf(m.load);
      assert moves[..i + 1][..i] == moves[..i];
      AdjustedSnoc(p.cpu, CpuDeltas(moves[..i]), m, n.cpu);
      AdjustedSnoc(p.memory, MemoryDeltas(moves[..i]), m, n.memory);
      cpu := AdjustDimension(cpu, m, n.cpu);
      memory := AdjustDimension(memory, m, n.memory);
    }
    assert moves[..|moves|] == moves;
    q := Pools(cpu, memory);
  }

  /** A workload that leaves gives back only what it had asked for. */
  function AdjustDimension(p: Pool, m: Move, need: Need): Pool {
    if m.In? then AdjustPool(p, if need.value.None? then NoRequest else By(-need.value.value))
    else if need.value.Some? then AdjustPool(p, By(need.value.value))
    else p
  }

  lemma AdjustedSnoc(p: Pool, ds: seq<Delta>, m: Move, need: Need)
    ensures AdjustedBy(p, ds + DeltaOf(m, need)) == AdjustDimension(AdjustedBy(p, ds), m, need)
  {
    var last := DeltaOf(m, need);
    if last == [] {
      assert ds + last == ds;
    } else {
      assert (ds + last)[..|ds|] == ds;
    }
  }

  /* ---------- what the adjusted interval means ---------- */

  /** The true free amount after one move, with the same floor at zero; an unknown amount may be taken. */
  predicate Follows(t: real, d: Delta, u: real) {
    match d
    case By(x) => u == Max(0.0, t + x)
    case NoRequest => 0.0 <= u <= t
  }

  predicate Encloses(p: Pool, t: real) {
    && 0.0 <= p.lo <= p.knownFree && Covers(p.hi, p.knownFree)
    && p.lo <= t && Covers(p.hi, t)
  }

  ghost predicate IsTrack(ds: seq<Delta>, ts: seq<real>) {
    |ts| == |ds| + 1 && forall i | 0 <= i < |ds| :: Follows(ts[i], ds[i], ts[i + 1])
  }

  /** Through any moves, in any order, the interval stays ordered and encloses the true free amount. */
  lemma {:induction false} MovesStayEnclosed(p: Pool, ds: seq<Delta>, ts: seq<real>)
    requires IsTrack(ds, ts) && Encloses(p, ts[0])
    ensures Encloses(AdjustedBy(p, ds), ts[|ds|])
  {
    if ds != [] {
      var k := |ds| - 1;
      assert IsTrack(ds[..k], ts[..k + 1]);
      MovesStayEnclosed(p, ds[..k], ts[..k + 1]);
      assert Follows(ts[k], ds[k], ts[k + 1]);
    }
  }

  /** So the verdict after the moves is sound against the tracked amount. */
  lemma MovesStaySound(p: Pool, ds: seq<Delta>, ts: seq<real>, need: Need)
    requires IsTrack(ds, ts) && Encloses(p, ts[0])
    requires need.value.Some?
    ensures FitVerdict(need, AdjustedBy(p, ds)) == Fits ==> ts[|ds|] >= need.value.value
    ensures FitVerdict(need, AdjustedBy(p, ds)) == DoesNotFit ==> ts[|ds|] < need.value.value
  {
    MovesStayEnclosed(p, ds, ts);
  }

  /** A pool of nodes encloses the total of every world, so the two lemmas above apply to it. */
  lemma {:induction false} KnownFreeInside(nodes: seq<CapNode>, now: int, window: int)
    requires Sane(nodes)
    ensures var p := SumOf(nodes, now, window); 0.0 <= p.lo <= p.knownFree && Covers(p.hi, p.knownFree)
  {
    if nodes != [] {
      var k := |nodes| - 1;
      KnownFreeInside(nodes[..k], now, window);
      EndsAllowed(nodes[k], now, window, 0.0);
    }
  }

  lemma WorldsEnclosed(nodes: seq<CapNode>, now: int, window: int, ts: seq<real>)
    requires nodes != [] && Sane(nodes) && IsWorld(nodes, now, window, ts)
    ensures Encloses(PoolOf(nodes, now, window), Total(ts))
  {
    LoClassAside(nodes, now, window);
    KnownFreeInside(nodes, now, window);
    IntervalEncloses(nodes, now, window, ts);
  }

  /* ---------- against the plain sum, without the floor ---------- */

  /** The plain sum after a move: no floor, and an arrival without a request takes an amount nobody knows. */
  predicate FollowsPlainly(t: real, d: Delta, u: real) {
    match d
    case By(x) => u == t + x
    case NoRequest => u <= t
  }

  ghost predicate IsPlainTrack(ds: seq<Delta>, ts: seq<real>) {
    |ts| == |ds| + 1 && forall i | 0 <= i < |ds| :: FollowsPlainly(ts[i], ds[i], ts[i + 1])
  }

  predicate AllBy(ds: seq<Delta>) {
    NoRequest !in ds
  }

  /** What the moves with a request add up to. */
  function Sum(ds: seq<Delta>): real {
    if ds == [] then 0.0
    else
      match ds[|ds| - 1]
      case By(x) => Sum(ds[..|ds| - 1]) + x
      case NoRequest => Sum(ds[..|ds| - 1])
  }

  /** The largest total of any proper tail of the moves that an arrival without a request does not cut (the empty
      tail included). */
  function Peak(ds: seq<Delta>): (m: real)
    ensures m >= 0.0
  {
    if |ds| <= 1 then 0.0
    else
      match ds[|ds| - 1]
      case By(x) => Max(0.0, Peak(ds[..|ds| - 1]) + x)
      case NoRequest => 0.0
  }

  /** The floored low end is the plain sum, if all have a request, or whatever the tail after the last
      emptying brought back. */
  lemma {:induction false} FlooredIsPeak(p: Pool, ds: seq<Delta>)
    requires p.lo >= 0.0
    ensures AdjustedBy(p, ds).lo == if AllBy(ds) then Max(p.lo + Sum(ds), Peak(ds)) else Peak(ds)
  {
    if ds != [] {
      var k := |ds| - 1;
      FlooredIsPeak(p, ds[..k]);
      assert ds == ds[..k] + [ds[k]];
    }
  }

  lemma {:induction false} PlainEnd(ds: seq<Delta>, ts: seq<real>)
    requires IsPlainTrack(ds, ts)
    ensures ts[|ds|] <= ts[0] + Sum(ds)
    ensures AllBy(ds) ==> ts[|ds|] == ts[0] + Sum(ds)
  {
    if ds != [] {
      var k := |ds| - 1;
      assert IsPlainTrack(ds[..k], ts[..k + 1]);
      PlainEnd(ds[..k], ts[..k + 1]);
      assert FollowsPlainly(ts[k], ds[k], ts[k + 1]);
    }
  }

  lemma {:induction false} FlooredHigh(p: Pool, ds: seq<Delta>)
    ensures p.hi.Unbounded? <==> AdjustedBy(p, ds).hi.Unbounded?
    ensures p.hi.Finite? ==> AdjustedBy(p, ds).hi.r >= p.hi.r + Sum(ds)
  {
    if ds != [] {
      FlooredHigh(p, ds[..|ds| - 1]);
    }
  }

  /** A "does not fit" is sound against the plain sum after any moves in any order. */
  lemma NoIsSoundPlainly(p: Pool, ds: seq<Delta>, ts: seq<real>, need: Need)
    requires IsPlainTrack(ds, ts) && Encloses(p, ts[0]) && need.value.Some?
    requires FitVerdict(need, AdjustedBy(p, ds)) == DoesNotFit
    ensures ts[|ds|] < need.value.value
  {
    FlooredHigh(p, ds);
    PlainEnd(ds, ts);
  }

  ghost predicate FitIsSoundPlainly(p: Pool, ds: seq<Delta>) {
    forall ts: seq<real>, need: Need {:trigger IsPlainTrack(ds, ts), FitVerdict(need, AdjustedBy(p, ds))} |
      && IsPlainTrack(ds, ts) && Encloses(p, ts[0]) && need.value.Some? && need.value.value > 0.0
      && FitVerdict(need, AdjustedBy(p, ds)) == Fits ::
      ts[|ds|] >= need.value.value
  }

  /** What the plain sum is sure to be at least, as far as the low end and the moves tell. */
  function SurePlainly(p: Pool, ds: seq<Delta>): real {
    if AllBy(ds) then Max(0.0, p.lo + Sum(ds)) else 0.0
  }

  /**
   A "fits" is sound against the plain sum exactly when no tail of the moves returns more than the
   low end and all the moves together leave; that is nothing once something without a request arrived.
   */
  lemma FitIsSoundPlainlyExactlyWhen(p: Pool, ds: seq<Delta>)
    requires Encloses(p, p.lo)
    ensures FitIsSoundPlainly(p, ds) <==> Peak(ds) <= SurePlainly(p, ds)
  {
    if Peak(ds) > SurePlainly(p, ds) {
      PeakOverstates(p, ds);
    } else {
      FlooredIsPeak(p, ds);
      forall ts: seq<real>, need: Need |
        && IsPlainTrack(ds, ts) && Encloses(p, ts[0]) && need.value.Some? && need.value.value > 0.0
        && FitVerdict(need, AdjustedBy(p, ds)) == Fits
        ensures ts[|ds|] >= need.value.value
      {
        PlainEnd(ds, ts);
      }
    }
  }

  lemma PeakOverstates(p: Pool, ds: seq<Delta>)
    requires Encloses(p, p.lo) && Peak(ds) > SurePlainly(p, ds)
    ensures !FitIsSoundPlainly(p, ds)
  {
    var need := Need(Some(Peak(ds)), Reported);
    FlooredIsPeak(p, ds);
    LowUnderHigh(p, ds);
    assert FitVerdict(need, AdjustedBy(p, ds)) == Fits;
    var ts := Worst(p.lo, ds, Max(0.0, p.lo + Sum(ds)));
    WorstIsLow(p.lo, ds, Max(0.0, p.lo + Sum(ds)));
    assert IsPlainTrack(ds, ts) && Encloses(p, ts[0]) && ts[|ds|] < need.value.value;
  }

  /** The plain sums when everything without a request takes the same amount. */
  function Worst(t: real, ds: seq<Delta>, each: real): (ts: seq<real>)
    ensures |ts| == |ds| + 1
  {
    if ds == [] then [t]
    else
      var done := Worst(t, ds[..|ds| - 1], each);
      done + [done[|ds| - 1] + (if ds[|ds| - 1].By? then ds[|ds| - 1].amount else -each)]
  }

  lemma {:induction false} WorstIsLow(t: real, ds: seq<Delta>, each: real)
    requires each >= 0.0
    ensures var ts := Worst(t, ds, each);
            && IsPlainTrack(ds, ts) && ts[0] == t
            && ts[|ds|] <= t + Sum(ds) && (!AllBy(ds) ==> ts[|ds|] <= t + Sum(ds) - each)
  {
    if ds != [] {
      var k := |ds| - 1;
      WorstIsLow(t, ds[..k], each);
      assert ds == ds[..k] + [ds[k]];
      var ts, before := Worst(t, ds, each), Worst(t, ds[..k], each);
      forall i | 0 <= i < |ds|
        ensures FollowsPlainly(ts[i], ds[i], ts[i + 1])
      {
        assert i < k ==> FollowsPlainly(before[i], ds[..k][i], before[i + 1]);
      }
    }
  }

  lemma {:induction false} LowUnderHigh(p: Pool, ds: seq<Delta>)
    requires Encloses(p, p.lo)
    ensures Covers(AdjustedBy(p, ds).hi, AdjustedBy(p, ds).lo)
    ensures 0.0 <= AdjustedBy(p, ds).lo <= AdjustedBy(p, ds).knownFree
    ensures Covers(AdjustedBy(p, ds).hi, AdjustedBy(p, ds).knownFree)
  {
    if ds != [] {
      LowUnderHigh(p, ds[..|ds| - 1]);
    }
  }

  predicate Departs(d: Delta) {
    d.By? && d.amount > 0.0
  }

  predicate Arrives(d: Delta) {
    d.NoRequest? || d.amount < 0.0
  }

  predicate DeparturesFirst(ds: seq<Delta>) {
    forall i, j | 0 <= i < j < |ds| :: Arrives(ds[i]) ==> !Departs(ds[j])
  }

  lemma {:induction false} DeparturesOnly(ds: seq<Delta>)
    requires forall d | d in ds :: !Arrives(d)
    ensures 0.0 <= Peak(ds) <= Sum(ds)
  {
    if ds != [] {
      assert ds[|ds| - 1] in ds;
      DeparturesOnly(ds[..|ds| - 1]);
    }
  }

  lemma {:induction false} DeparturesFirstPeak(p: Pool, ds: seq<Delta>)
    requires DeparturesFirst(ds) && p.lo >= 0.0
    ensures Peak(ds) <= SurePlainly(p, ds)
  {
    if forall d | d in ds :: !Arrives(d) {
      DeparturesOnly(ds);
    } else {
      var k := |ds| - 1;
      var i :| 0 <= i < |ds| && Arrives(ds[i]);
      assert !Departs(ds[k]);
      DeparturesFirstPeak(p, ds[..k]);
      assert ds == ds[..k] + [ds[k]];
    }
  }

  /** In the order a plan is usually made, departures before arrivals, a "fits" is sound against the plain sum. */
  lemma DeparturesFirstSuffices(p: Pool, ds: seq<Delta>)
    requires DeparturesFirst(ds) && Encloses(p, p.lo)
    ensures FitIsSoundPlainly(p, ds)
  {
    DeparturesFirstPeak(p, ds);
    FitIsSoundPlainlyExactlyWhen(p, ds);
  }

  /** A node that reports ten free of ten. */
  const REPORTING := CapNode(Fact(Some(10.0), Reported, None), Fact(Some(0.0), Reported, None))

  lemma ReportingPool()
    ensures PoolOf([REPORTING], 0, 0) == Pool(8.5, Finite(11.5), 10.0, 1, true, Reported, Reported, Reported, 11.5)
  {
    assert [REPORTING][..0] == [];
    assert SumOf([REPORTING], 0, 0) == Extend(EMPTY_SUM, REPORTING, 0, 0);
    assert LowEnd(10.0, Reported) == 8.5 && HighEnd(10.0, Reported) == 11.5;
  }

  /** Arrivals first can lift the low end above the plain sum, at a place with one node. */
  lemma ArrivalsFirstCanOverstate()
    ensures Sane([REPORTING]) && !FitIsSoundPlainly(PoolOf([REPORTING], 0, 0), [By(-12.0), By(10.0)])
  {
    var ds := [By(-12.0), By(10.0)];
    assert ds[..1] == [By(-12.0)] && ds[..1][..0] == [];
    assert Peak(ds) == 10.0 && Sum(ds) == -2.0;
    ReportingPool();
    FitIsSoundPlainlyExactlyWhen(PoolOf([REPORTING], 0, 0), ds);
  }

  /** So can an arrival without a request before a departure. */
  lemma UnknownArrivalCanOverstate()
    ensures !FitIsSoundPlainly(PoolOf([REPORTING], 0, 0), [NoRequest, By(1.0)])
  {
    var ds := [NoRequest, By(1.0)];
    assert ds[..1] == [NoRequest];
    assert Peak(ds) == 1.0 && ds[0] == NoRequest;
    ReportingPool();
    FitIsSoundPlainlyExactlyWhen(PoolOf([REPORTING], 0, 0), ds);
  }

  /* ---------- both dimensions of a workload at a place ---------- */

  function JudgedDims(l: Load, p: Pools): seq<DimResult> {
    [Fit(NeedOf(l).cpu, p.cpu), Fit(NeedOf(l).memory, p.memory)]
  }
}
