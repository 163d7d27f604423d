/**
 The answer for a target in terms of the model itself: machines with their figures and labels,
 clusters and sites with their settings, replicas with their requests. A truth settles everything
 the model does not say; "fits" means the move works in every truth and "does not fit" in none.
 Nothing here speaks of pools, classes or cases.
 */
module Estate {
  import opened Options
  import opened PoolWorlds
  import opened Capacity
  import opened Movability
  import opened TargetWorlds
  import opened Thinning

  /** What is true: of each node of the model, of a target whose nodes are not known, and of what is not declared. */
  datatype Truth = Truth(
    arch: seq<string>,
    cores: seq<real>,
    bytes: seq<real>,
    restCores: real,
    restBytes: real,
    coresNeeded: real,
    bytesNeeded: real,
    residency: string,
    zone: TrustZone)

  /* ---------- what a node may have free ---------- */

  /** Last confirmed longer ago than the window. */
  predicate IsOld(n: MachineNode, ctx: Ctx) {
    n.discovered && n.id in ctx.observedAt && ctx.window > 0 && ctx.now - ctx.observedAt[n.id] > ctx.window
  }

  /**
   What a node has is what it reports less what is asked of it, give or take 15 %, or 30 % when that
   is old. Without the one figure it is at most the other, without the other it is anything.
   */
  predicate MayBeFree(has: Option<real>, asked: Option<real>, aged: bool, t: real) {
    && 0.0 <= t
    && (has.Some? ==>
          if asked.None? then t <= has.value * if aged then 1.3 else 1.15
          else
            var free := if has.value <= asked.value then 0.0 else has.value - asked.value;
            if aged then free * 0.7 <= t <= free * 1.3 else free * 0.85 <= t <= free * 1.15)
  }

  function InBytes(gb: Option<real>): Option<real> {
    if gb.Some? then Some(gb.value * 1073741824.0) else None
  }

  predicate CoresAllowed(n: MachineNode, ctx: Ctx, t: real) {
    MayBeFree(n.cpuAllocatable, n.cpuRequested, IsOld(n, ctx), t)
  }

  predicate BytesAllowed(n: MachineNode, ctx: Ctx, t: real) {
    MayBeFree(InBytes(n.memoryGbAllocatable), InBytes(n.memoryGbRequested), IsOld(n, ctx), t)
  }

  lemma CoresAllowedIs(n: MachineNode, ctx: Ctx, t: real)
    ensures CoresAllowed(n, ctx, t) <==> Allows(CpuNode(n, ctx), ctx.now, ctx.window, t)
  {
  }

  lemma BytesAllowedIs(n: MachineNode, ctx: Ctx, t: real)
    ensures BytesAllowed(n, ctx, t) <==> Allows(MemoryNode(n, ctx), ctx.now, ctx.window, t)
  {
  }

  /* ---------- what a node carries ---------- */

  predicate SameLetter(c: char, lower: char) {
    c == lower || ('A' <= c <= 'Z' && c as int + 32 == lower as int)
  }

  predicate SaysWindowsAt(os: string, i: nat) {
    i + 7 <= |os| && forall j | 0 <= j < 7 :: SameLetter(os[i + j], "windows"[j])
  }

  predicate SaysWindows(os: string) {
    exists i | 0 <= i < |os| :: SaysWindowsAt(os, i)
  }

  /** A node's own label decides; without one, what its fields say. */
  predicate Carries(n: MachineNode, arch: string, k: string, v: string) {
    if k in n.labels then n.labels[k] == v
    else if k == "kubernetes.io/arch" || k == "beta.kubernetes.io/arch" then arch == v
    else if k == "kubernetes.io/os" || k == "beta.kubernetes.io/os" then
      v == if SaysWindows(n.os) then "windows" else "linux"
    else k == "topology.kubernetes.io/zone" && Truthy(n.zone) && n.zone.value == v
  }

  /** A node can run the workload: it carries every label asked for; the host name does not count. */
  predicate CanRun(w: Workload, n: MachineNode, arch: string) {
    forall k | k in w.nodeSelector && k != "kubernetes.io/hostname" :: Carries(n, arch, k, w.nodeSelector[k])
  }

  lemma WindowsIs(os: string)
    ensures KubeOs(os) == if SaysWindows(os) then "windows" else "linux"
  {
    forall i: nat | i + 7 <= |os|
      ensures WindowsAt(os, i) <==> SaysWindowsAt(os, i)
    {
      WindowsHere(os, i);
    }
    assert forall i | 0 <= i < |os| :: WindowsAt(os, i) ==> i + 7 <= |os|;
  }

  lemma WindowsHere(os: string, i: nat)
    requires i + 7 <= |os|
    ensures WindowsAt(os, i) <==> SaysWindowsAt(os, i)
  {
    var t := Lower(os[i..i + 7]);
    forall j | 0 <= j < 7
      ensures t[j] == "windows"[j] <==> SameLetter(os[i + j], "windows"[j])
    {
      assert os[i..i + 7][j] == os[i + j];
    }
    if SaysWindowsAt(os, i) {
      assert t == "windows";
    }
  }

  lemma CarriesIs(n: MachineNode, arch: string, k: string, v: string)
    requires arch != ""
    ensures var l := NodeLabels(n.(arch := Some(arch))); Carries(n, arch, k, v) <==> k in l && l[k] == v
  {
    WindowsIs(n.os);
  }

  /** What the node carries under some architecture it may have. */
  ghost predicate MayCarry(n: MachineNode, k: string, v: string) {
    exists arch :: Resolves(n.arch, arch) && Carries(n, arch, k, v)
  }

  ghost predicate MustCarry(n: MachineNode, k: string, v: string) {
    forall arch | Resolves(n.arch, arch) :: Carries(n, arch, k, v)
  }

  /** An architecture can be asked for only by a name. */
  predicate CanBeMet(k: string, v: string) {
    IsArchKey(k) ==> v != ""
  }

  lemma FixedMatch(n: MachineNode, arch: string, k: string, v: string)
    requires k in n.labels || !IsArchKey(k)
    ensures Matches(n, k, v) == if Carries(n, arch, k, v) then Yes else No
  {
    WindowsIs(n.os);
  }

  lemma ArchMatch(n: MachineNode, k: string, v: string)
    requires IsArchKey(k) && k !in n.labels
    ensures Matches(n, k, v) == if !Truthy(n.arch) then Maybe else if n.arch.value == v then Yes else No
  {
  }

  lemma SomeArch(n: MachineNode, v: string) returns (one: string, other: string)
    ensures Resolves(n.arch, one) && Resolves(n.arch, other)
    ensures !Truthy(n.arch) ==> (v != "" ==> one == v) && other != v
  {
    one := if Truthy(n.arch) then n.arch.value else if v == "" then "any" else v;
    other := if Truthy(n.arch) then n.arch.value else v + "x";
    assert |v + "x"| == |v| + 1;
  }

  /**
   A node matches a label when it carries it whatever it does not report, does not match when it cannot
   carry it, and may match otherwise.
   */
  ghost predicate MatchIsRight(n: MachineNode, k: string, v: string) {
    && (Matches(n, k, v) == Yes <==> MustCarry(n, k, v))
    && (Matches(n, k, v) == No <==> !MayCarry(n, k, v))
  }

  lemma MatchIsRightWhenMet(n: MachineNode, k: string, v: string)
    requires CanBeMet(k, v)
    ensures MatchIsRight(n, k, v)
  {
    var one, other := SomeArch(n, v);
    if k in n.labels || !IsArchKey(k) {
      forall arch
        ensures Matches(n, k, v) == if Carries(n, arch, k, v) then Yes else No
      {
        FixedMatch(n, arch, k, v);
      }
      assert Carries(n, one, k, v) ==> MayCarry(n, k, v);
      assert !Carries(n, one, k, v) ==> !MustCarry(n, k, v);
    } else {
      ArchMatch(n, k, v);
      assert Carries(n, one, k, v) <==> one == v;
      assert Carries(n, other, k, v) <==> other == v;
    }
  }

  /** A node that reports no architecture. */
  const SILENT_NODE := MachineNode("n", "c", "linux", None, None, map[], false, false, None, None, None, None)

  /** Matching is right for every node exactly when the label is not an architecture without a name. */
  lemma MatchIsRightExactlyWhen(k: string, v: string)
    ensures (forall n :: MatchIsRight(n, k, v)) <==> CanBeMet(k, v)
  {
    if CanBeMet(k, v) {
      forall n
        ensures MatchIsRight(n, k, v)
      {
        MatchIsRightWhenMet(n, k, v);
      }
    } else {
      ArchMatch(SILENT_NODE, k, v);
      assert !MayCarry(SILENT_NODE, k, v);
      assert !MatchIsRight(SILENT_NODE, k, v);
    }
  }

  /* ---------- where, and under which settings ---------- */

  predicate IsAt(n: MachineNode, id: string) {
    !n.deleted && n.clusterId == id
  }

  function SiteOfCluster(m: MoveModel, c: Cluster): Option<Site> {
    First(m.sites, (s: Site) => c.siteId == Some(s.id))
  }

  /** A cluster's own setting counts before its site's. */
  function Residency(m: MoveModel, c: Option<Cluster>): Option<string> {
    if c.None? then None
    else if c.value.dataResidency.Some? then c.value.dataResidency
    else
      var site := SiteOfCluster(m, c.value);
      if site.Some? then site.value.dataResidency else None
  }

  function Zone(m: MoveModel, c: Option<Cluster>): Option<TrustZone> {
    if c.None? then None
    else if c.value.trustZone.Some? then c.value.trustZone
    else
      var site := SiteOfCluster(m, c.value);
      if site.Some? then site.value.trustZone else None
  }

  /** Where the workload runs. */
  function Home(w: Workload, m: MoveModel): Option<Cluster> {
    First(m.clusters, (c: Cluster) => c.id == w.clusterId)
  }

  lemma {:induction false} FindClusterIs(cs: seq<Cluster>, id: string)
    ensures FindCluster(cs, id) == First(cs, (c: Cluster) => c.id == id)
  {
    if cs != [] {
      FirstOfMore(cs, (c: Cluster) => c.id == id);
      FindClusterIs(cs[1..], id);
    }
  }

  lemma {:induction false} FindSiteIs(ss: seq<Site>, id: Option<string>)
    ensures FindSite(ss, id) == First(ss, (s: Site) => id == Some(s.id))
  {
    if ss != [] {
      FirstOfMore(ss, (s: Site) => id == Some(s.id));
      FindSiteIs(ss[1..], id);
    }
  }

  lemma SettingsAre(w: Workload, m: MoveModel, c: Cluster)
    ensures var k := CaseOf(w, m, c);
            && k.fromResidency == Residency(m, Home(w, m)) && k.toResidency == Residency(m, Some(c))
            && k.fromZone == Zone(m, Home(w, m)) && k.toZone == Zone(m, Some(c))
  {
    FindClusterIs(m.clusters, w.clusterId);
    FindSiteIs(m.sites, c.siteId);
    FindSiteIs(m.sites, None);
    var home := FindCluster(m.clusters, w.clusterId);
    if home.Some? {
      FindSiteIs(m.sites, home.value.siteId);
    }
  }

  /* ---------- truths ---------- */

  /** What the workload needs, counted replica by replica; it may be anything when it does not ask. */
  predicate NeedAllowed(request: Option<real>, copies: nat, each: real, x: real) {
    0.0 <= x && (IsAsked(request) ==> x == Together(copies, each))
  }

  predicate HasSize(m: MoveModel, x: Truth) {
    |x.arch| == |x.cores| == |x.bytes| == |m.nodes|
  }

  predicate NodeIsTrue(n: MachineNode, ctx: Ctx, arch: string, cores: real, bytes: real) {
    Resolves(n.arch, arch) && CoresAllowed(n, ctx, cores) && BytesAllowed(n, ctx, bytes)
  }

  /** Nothing the model says about moving `w` to `c` is contradicted. */
  ghost predicate IsTrue(w: Workload, m: MoveModel, c: Cluster, x: Truth)
    requires HasSize(m, x)
  {
    && (forall i | 0 <= i < |m.nodes| ::
          IsAt(m.nodes[i], c.id) ==> NodeIsTrue(m.nodes[i], m.ctx, x.arch[i], x.cores[i], x.bytes[i]))
    && 0.0 <= x.restCores && 0.0 <= x.restBytes
    && NeedAllowed(w.load.cpuRequestM, Copies(w.load), CoresEach(w.load), x.coresNeeded)
    && NeedAllowed(w.load.memRequestMi, Copies(w.load), BytesEach(w.load), x.bytesNeeded)
    && Resolves(Residency(m, Some(c)), x.residency)
    && (Zone(m, Some(c)).Some? ==> x.zone == Zone(m, Some(c)).value)
  }

  /** What the nodes of a cluster that can run the workload have free, together. */
  function FreeOn(w: Workload, nodes: seq<MachineNode>, id: string, arch: seq<string>, ts: seq<real>): real
    requires |arch| == |ts| == |nodes|
  {
    if nodes == [] then 0.0
    else
      var k := |nodes| - 1;
      FreeOn(w, nodes[..k], id, arch[..k], ts[..k])
      + if IsAt(nodes[k], id) && CanRun(w, nodes[k], arch[k]) then ts[k] else 0.0
  }

  predicate HasNodes(m: MoveModel, c: Cluster) {
    exists n | n in m.nodes :: IsAt(n, c.id)
  }

  predicate AsTrusted(there: TrustZone, here: TrustZone) {
    there == Restricted || here == Public || (there == Private && here == Private)
  }

  predicate StaysInPlace(w: Workload) {
    w.sensitivity == Some(Internal) || w.sensitivity == Some(Confidential)
  }

  function FreeCores(w: Workload, m: MoveModel, c: Cluster, x: Truth): real
    requires HasSize(m, x)
  {
    if HasNodes(m, c) then FreeOn(w, m.nodes, c.id, x.arch, x.cores) else x.restCores
  }

  function FreeBytes(w: Workload, m: MoveModel, c: Cluster, x: Truth): real
    requires HasSize(m, x)
  {
    if HasNodes(m, c) then FreeOn(w, m.nodes, c.id, x.arch, x.bytes) else x.restBytes
  }

  /** Everything but capacity. */
  ghost predicate MayMove(w: Workload, m: MoveModel, c: Cluster, x: Truth)
    requires HasSize(m, x)
  {
    && !w.daemonSet && c.live
    && (HasNodes(m, c) ==>
          exists i | 0 <= i < |m.nodes| :: IsAt(m.nodes[i], c.id) && CanRun(w, m.nodes[i], x.arch[i]))
    && (StaysInPlace(w) && Truthy(Residency(m, Home(w, m))) ==> Some(x.residency) == Residency(m, Home(w, m)))
    && (Zone(m, Home(w, m)).Some? ==> AsTrusted(x.zone, Zone(m, Home(w, m)).value))
  }

  ghost predicate MoveWorks(w: Workload, m: MoveModel, c: Cluster, x: Truth)
    requires HasSize(m, x)
  {
    && MayMove(w, m, c, x)
    && x.coresNeeded <= FreeCores(w, m, c, x)
    && x.bytesNeeded <= FreeBytes(w, m, c, x)
  }

  /* ---------- truths are the worlds of the case ---------- */

  function AtTest(id: string): MachineNode -> bool {
    (n: MachineNode) => IsAt(n, id)
  }

  lemma {:induction false} NodesAtAre(nodes: seq<MachineNode>, id: string)
    ensures Thins(nodes, NodesAt(nodes, id), AtTest(id))
  {
    if nodes != [] {
      var k := |nodes| - 1;
      NodesAtAre(nodes[..k], id);
      ThinsMore(nodes, NodesAt(nodes[..k], id), NodesAt(nodes, id), AtTest(id));
    }
  }

  function Pick<T>(at: seq<nat>, xs: seq<T>): (out: seq<T>)
    requires forall j | 0 <= j < |at| :: at[j] < |xs|
    ensures |out| == |at|
  {
    seq(|at|, j requires 0 <= j < |at| => xs[at[j]])
  }

  function WorldOf(w: Workload, m: MoveModel, c: Cluster, x: Truth): World
    requires HasSize(m, x)
  {
    var at := Kept(m.nodes, AtTest(c.id));
    World(Pick(at, x.arch), Pick(at, x.cores), Pick(at, x.bytes), x.restCores, x.restBytes, x.coresNeeded,
          x.bytesNeeded, x.residency, x.zone)
  }

  lemma NodesAgree(w: Workload, m: MoveModel, c: Cluster, x: Truth)
    requires HasSize(m, x)
    ensures var k, y := CaseOf(w, m, c), WorldOf(w, m, c, x);
            && |y.arch| == |y.cpu| == |y.memory| == |k.nodes|
            && ((forall i | 0 <= i < |m.nodes| ::
                   IsAt(m.nodes[i], c.id) ==> NodeIsTrue(m.nodes[i], m.ctx, x.arch[i], x.cores[i], x.bytes[i]))
                <==> forall j | 0 <= j < |k.nodes| ::
                   NodeIsTrue(k.nodes[j], m.ctx, y.arch[j], y.cpu[j], y.memory[j]))
  {
    NodesAtAre(m.nodes, c.id);
    var k, y, at := CaseOf(w, m, c), WorldOf(w, m, c, x), Kept(m.nodes, AtTest(c.id));
    if forall j | 0 <= j < |k.nodes| :: NodeIsTrue(k.nodes[j], m.ctx, y.arch[j], y.cpu[j], y.memory[j]) {
      forall i | 0 <= i < |m.nodes| && IsAt(m.nodes[i], c.id)
        ensures NodeIsTrue(m.nodes[i], m.ctx, x.arch[i], x.cores[i], x.bytes[i])
      {
        var j :| 0 <= j < |at| && at[j] == i;
        assert NodeIsTrue(k.nodes[j], m.ctx, y.arch[j], y.cpu[j], y.memory[j]);
      }
    }
  }

  lemma NodeAgrees(k: Case, n: MachineNode, arch: string, cores: real, bytes: real)
    ensures NodeIsTrue(n, k.ctx, arch, cores, bytes)
            <==> Resolves(n.arch, arch) && NodeAllows(k, Cpu, n, cores) && NodeAllows(k, Memory, n, bytes)
  {
    CoresAllowedIs(n, k.ctx, cores);
    BytesAllowedIs(n, k.ctx, bytes);
  }

  lemma NeedsAgree(l: Load, cores: real, bytes: real)
    ensures NeedAllowed(l.cpuRequestM, Copies(l), CoresEach(l), cores) <==> NeedAllows(NeedFor(Cpu, l), cores)
    ensures NeedAllowed(l.memRequestMi, Copies(l), BytesEach(l), bytes) <==> NeedAllows(NeedFor(Memory, l), bytes)
  {
    NeedsAreTogether(l);
  }

  /** A truth of the model is a world of the case, and the other way round. */
  lemma TruthIsPossible(w: Workload, m: MoveModel, c: Cluster, x: Truth)
    requires HasSize(m, x)
    ensures IsTrue(w, m, c, x) <==> IsPossible(CaseOf(w, m, c), WorldOf(w, m, c, x))
  {
    var k, y := CaseOf(w, m, c), WorldOf(w, m, c, x);
    NodesAgree(w, m, c, x);
    forall j | 0 <= j < |k.nodes|
      ensures NodeIsTrue(k.nodes[j], m.ctx, y.arch[j], y.cpu[j], y.memory[j])
              <==> Resolves(k.nodes[j].arch, y.arch[j]) && NodeAllows(k, Cpu, k.nodes[j], y.cpu[j])
                   && NodeAllows(k, Memory, k.nodes[j], y.memory[j])
    {
      NodeAgrees(k, k.nodes[j], y.arch[j], y.cpu[j], y.memory[j]);
    }
    NeedsAgree(w.load, x.coresNeeded, x.bytesNeeded);
    SettingsAre(w, m, c);
  }
}
