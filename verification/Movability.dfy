/**
 Where a workload could move: every other cluster, with the checks that do not depend on load
 (kind, node selectors, data residency, trust zone) and the capacity of the nodes that could host it.
 */
module Movability {
  import opened Options
  import opened Advice
  import opened Capacity

  datatype TrustZone = Public | Private | Restricted

  datatype Sensitivity = PublicData | Internal | Confidential

  datatype Site = Site(id: string, dataResidency: Option<string>, trustZone: Option<TrustZone>)

  /** `live` is what the observation state of the record says: only a live cluster is ever a target. */
  datatype Cluster = Cluster(
    id: string,
    siteId: Option<string>,
    live: bool,
    deleted: bool,
    dataResidency: Option<string>,
    trustZone: Option<TrustZone>)

  datatype Workload = Workload(
    clusterId: string,
    daemonSet: bool,
    sensitivity: Option<Sensitivity>,
    nodeSelector: map<string, string>,
    load: Load)

  datatype MoveModel = MoveModel(clusters: seq<Cluster>, nodes: seq<MachineNode>, sites: seq<Site>, ctx: Ctx)

  /** Everything the answer for one workload at one cluster depends on. */
  datatype Case = Case(
    daemonSet: bool,
    live: bool,
    wanted: map<string, string>,
    nodes: seq<MachineNode>,
    restricted: bool,
    fromResidency: Option<string>,
    toResidency: Option<string>,
    fromZone: Option<TrustZone>,
    toZone: Option<TrustZone>,
    load: Load,
    ctx: Ctx)

  datatype Target = Target(clusterId: string, live: bool, checks: seq<Check>, pools: Pools, judgement: Judgement)

  datatype Match = Yes | No | Maybe

  /* ---------- labels and selectors ---------- */

  /** A string that is there and not empty. */
  predicate Truthy(s: Option<string>) {
    s.Some? && s.value != ""
  }

  function Or<T>(a: Option<T>, b: Option<T>): Option<T> {
    if a.Some? then a else b
  }

  predicate IsHostnameKey(k: string) {
    k == "kubernetes.io/hostname"
  }

  predicate IsArchKey(k: string) {
    k == "kubernetes.io/arch" || k == "beta.kubernetes.io/arch"
  }

  function Lower(s: string): (t: string)
    ensures |t| == |s|
  {
    seq(|s|, i requires 0 <= i < |s| => if 'A' <= s[i] <= 'Z' then s[i] + 32 as char else s[i])
  }

  predicate WindowsAt(os: string, i: int) {
    0 <= i <= |os| - 7 && Lower(os[i..i + 7]) == "windows"
  }

  function KubeOs(os: string): string {
    if exists i | 0 <= i < |os| :: WindowsAt(os, i) then "windows" else "linux"
  }

  function ArchLabels(arch: Option<string>): map<string, string> {
    if Truthy(arch) then map["kubernetes.io/arch" := arch.value, "beta.kubernetes.io/arch" := arch.value] else map[]
  }

  function ZoneLabels(zone: Option<string>): map<string, string> {
    if Truthy(zone) then map["topology.kubernetes.io/zone" := zone.value] else map[]
  }

  /** Labels a node can be matched on, including the ones derived from its fields; its own come last. */
  function NodeLabels(n: MachineNode): map<string, string> {
    map["kubernetes.io/os" := KubeOs(n.os), "beta.kubernetes.io/os" := KubeOs(n.os)]
    + ArchLabels(n.arch) + ZoneLabels(n.zone) + n.labels
  }

  /** An architecture the node never reported is "maybe": absence is not a no. */
  function Matches(n: MachineNode, k: string, v: string): Match {
    var l := NodeLabels(n);
    if k in l && l[k] == v then Yes
    else if IsArchKey(k) && !Truthy(n.arch) && k !in l then Maybe
    else No
  }

  predicate Definite(n: MachineNode, wanted: map<string, string>) {
    forall k | k in wanted :: Matches(n, k, wanted[k]) == Yes
  }

  predicate Possible(n: MachineNode, wanted: map<string, string>) {
    && (forall k | k in wanted :: Matches(n, k, wanted[k]) != No)
    && (exists k | k in wanted :: Matches(n, k, wanted[k]) == Maybe)
  }

  function Definites(ns: seq<MachineNode>, wanted: map<string, string>): seq<MachineNode> {
    if ns == [] then []
    else
      var done, last := Definites(ns[..|ns| - 1], wanted), ns[|ns| - 1];
      if Definite(last, wanted) then done + [last] else done
  }

  /** A node that only might match counts for nothing until it says: its capacity is unknown here. */
  function Stripped(n: MachineNode): MachineNode {
    n.(cpuAllocatable := None, memoryGbAllocatable := None, cpuRequested := None, memoryGbRequested := None)
  }

  function Possibles(ns: seq<MachineNode>, wanted: map<string, string>): seq<MachineNode> {
    if ns == [] then []
    else
      var done, last := Possibles(ns[..|ns| - 1], wanted), ns[|ns| - 1];
      if Possible(last, wanted) then done + [Stripped(last)] else done
  }

  /* ---------- the checks at one target ---------- */

  function ZoneRank(z: TrustZone): nat {
    match z
    case Public => 0
    case Private => 1
    case Restricted => 2
  }

  predicate Selects(k: Case) {
    k.wanted != map[] && k.nodes != []
  }

  function HostingPool(k: Case): seq<MachineNode> {
    if Selects(k) then Definites(k.nodes, k.wanted) + Possibles(k.nodes, k.wanted) else k.nodes
  }

  function KindCheck(k: Case): seq<Check> {
    if k.daemonSet then [Check(DoesNotFit, Reported)] else []
  }

  function SelectorCheck(k: Case): seq<Check> {
    if !Selects(k) || Definites(k.nodes, k.wanted) != [] then []
    else if Possibles(k.nodes, k.wanted) == [] then [Check(DoesNotFit, Reported)]
    else [Check(CantTell, Unknown)]
  }

  function ResidencyCheck(k: Case): seq<Check> {
    if !(k.restricted && Truthy(k.fromResidency)) then []
    else if !Truthy(k.toResidency) then [Check(CantTell, Unknown)]
    else if k.toResidency != k.fromResidency then [Check(DoesNotFit, Reported)]
    else [Check(Fits, Reported)]
  }

  function TrustCheck(k: Case): seq<Check> {
    if k.fromZone.None? then []
    else if k.toZone.None? then [Check(CantTell, Unknown)]
    else if ZoneRank(k.toZone.value) < ZoneRank(k.fromZone.value) then [Check(DoesNotFit, Reported)]
    else [Check(Fits, Reported)]
  }

  function ChecksOf(k: Case): seq<Check> {
    KindCheck(k) + SelectorCheck(k) + ResidencyCheck(k) + TrustCheck(k)
  }

  function LiveCheck(live: bool): seq<Check> {
    if live then [] else [Check(DoesNotFit, Reported)]
  }

  function TargetPools(k: Case): Pools {
    PoolsOf(HostingPool(k), k.ctx)
  }

  /** The answer for one workload at one target, with what-if moves applied to the pools first. */
  function VerdictWithMoves(k: Case, moves: seq<Move>): Verdict {
    OverallVerdict(JudgedDims(k.load, AdjustedPools(TargetPools(k), moves)), LiveCheck(k.live) + ChecksOf(k))
  }

  function TargetVerdict(k: Case): Verdict {
    OverallVerdict(JudgedDims(k.load, TargetPools(k)), LiveCheck(k.live) + ChecksOf(k))
  }

  method JudgeTarget(load: Load, checks: seq<Check>, pools: Pools, live: bool, moves: seq<Move>) returns (a: Judgement)
    ensures IsAssessment(a, JudgedDims(load, AdjustedPools(pools, moves)), LiveCheck(live) + checks)
  {
    var shifted := pools;
    if |moves| > 0 {
      shifted := AdjustPools(pools, moves);
    }
    var all := checks;
    if !live {
      all := [Check(DoesNotFit, Reported)] + checks;
    }
    assert all == LiveCheck(live) + checks;
    a := Assess(JudgedDims(load, shifted), all);
  }

  /* ---------- all targets ---------- */

  function FindCluster(cs: seq<Cluster>, id: string): Option<Cluster> {
    if cs == [] then None else if cs[0].id == id then Some(cs[0]) else FindCluster(cs[1..], id)
  }

  function FindSite(ss: seq<Site>, id: Option<string>): Option<Site> {
    if ss == [] then None else if Some(ss[0].id) == id then Some(ss[0]) else FindSite(ss[1..], id)
  }

  function SiteOf(c: Option<Cluster>, sites: seq<Site>): Option<Site> {
    FindSite(sites, if c.Some? then c.value.siteId else None)
  }

  /** A cluster's own setting, or its site's where the cluster has none. */
  function ResidencyOf(c: Option<Cluster>, site: Option<Site>): Option<string> {
    Or(if c.Some? then c.value.dataResidency else None, if site.Some? then site.value.dataResidency else None)
  }

  function ZoneOf(c: Option<Cluster>, site: Option<Site>): Option<TrustZone> {
    Or(if c.Some? then c.value.trustZone else None, if site.Some? then site.value.trustZone else None)
  }

  function NodesAt(nodes: seq<MachineNode>, id: string): seq<MachineNode> {
    if nodes == [] then []
    else
      var done, last := NodesAt(nodes[..|nodes| - 1], id), nodes[|nodes| - 1];
      if !last.deleted && last.clusterId == id then done + [last] else done
  }

  function CaseOf(w: Workload, m: MoveModel, c: Cluster): Case {
    var from := FindCluster(m.clusters, w.clusterId);
    var fromSite := SiteOf(from, m.sites);
    var site := SiteOf(Some(c), m.sites);
    Case(w.daemonSet, c.live,
         map k | k in w.nodeSelector && !IsHostnameKey(k) :: w.nodeSelector[k],
         NodesAt(m.nodes, c.id),
         w.sensitivity.Some? && w.sensitivity.value != PublicData,
         ResidencyOf(from, fromSite), ResidencyOf(Some(c), site),
         ZoneOf(from, fromSite), ZoneOf(Some(c), site),
         w.load, m.ctx)
  }

  /** The clusters a target is made for: every one that still exists, other than the workload's own. */
  function Others(cs: seq<Cluster>, id: string): seq<Cluster> {
    if cs == [] then []
    else
      var done, last := Others(cs[..|cs| - 1], id), cs[|cs| - 1];
      if !last.deleted && last.id != id then done + [last] else done
  }

  predicate Answers(t: Target, c: Cluster, k: Case) {
    && t.clusterId == c.id && t.live == c.live
    && t.checks == ChecksOf(k)
    && t.pools == TargetPools(k)
    && t.judgement.verdict == TargetVerdict(k)
    && IsAssessment(t.judgement, JudgedDims(k.load, t.pools), LiveCheck(k.live) + t.checks)
  }

  ghost predicate AllAnswer(out: seq<Target>, cs: seq<Cluster>, w: Workload, m: MoveModel) {
    |out| == |cs| && forall i | 0 <= i < |out| :: Answers(out[i], cs[i], CaseOf(w, m, cs[i]))
  }

  method MoveTargets(w: Workload, m: MoveModel) returns (out: seq<Target>)
    ensures AllAnswer(out, Others(m.clusters, w.clusterId), w, m)
  {
    out := [];
    for i := 0 to |m.clusters|
      invariant AllAnswer(out, Others(m.clusters[..i], w.clusterId), w, m)
    {
      var c := m.clusters[i];
      ghost var done := Others(m.clusters[..i], w.clusterId);
      OthersSnoc(m.clusters, i, w.clusterId);
      if !c.deleted && c.id != w.clusterId {
        var t := TargetFor(c, CaseOf(w, m, c));
        AnswersSnoc(out, done, t, c, w, m);
        out := out + [t];
      }
    }
    assert m.clusters[..|m.clusters|] == m.clusters;
  }

  lemma OthersSnoc(cs: seq<Cluster>, i: nat, id: string)
    requires i < |cs|
    ensures var done := Others(cs[..i], id);
            Others(cs[..i + 1], id) == if !cs[i].deleted && cs[i].id != id then done + [cs[i]] else done
  {
    assert cs[..i + 1][..i] == cs[..i];
  }

  lemma AnswersSnoc(out: seq<Target>, cs: seq<Cluster>, t: Target, c: Cluster, w: Workload, m: MoveModel)
    ensures AllAnswer(out, cs, w, m) && Answers(t, c, CaseOf(w, m, c)) ==> AllAnswer(out + [t], cs + [c], w, m)
  {
  }

  method TargetFor(c: Cluster, k: Case) returns (t: Target)
    requires k.live == c.live
    ensures Answers(t, c, k)
  {
    var checks, pool := ChecksAndPool(k);
    var pools := BuildPools(pool, k.ctx);
    var a := JudgeTarget(k.load, checks, pools, c.live, []);
    NoMoves(pools);
    t := Target(c.id, c.live, checks, pools, a);
  }

  lemma NoMoves(p: Pools)
    ensures AdjustedPools(p, []) == p
  {
  }

  method ChecksAndPool(k: Case) returns (checks: seq<Check>, pool: seq<MachineNode>)
    ensures checks == ChecksOf(k) && pool == HostingPool(k)
  {
    checks := [];
    if k.daemonSet {
      checks := checks + [Check(DoesNotFit, Reported)];
    }
    pool := k.nodes;
    if k.wanted != map[] && k.nodes != [] {
      var definite := Definites(k.nodes, k.wanted);
      var maybe := Possibles(k.nodes, k.wanted);
      pool := definite + maybe;
      if definite == [] && maybe == [] {
        checks := checks + [Check(DoesNotFit, Reported)];
      } else if definite == [] {
        checks := checks + [Check(CantTell, Unknown)];
      }
    }
    assert checks == KindCheck(k) + SelectorCheck(k);
    if k.restricted && Truthy(k.fromResidency) {
      if !Truthy(k.toResidency) {
        checks := checks + [Check(CantTell, Unknown)];
      } else if k.toResidency != k.fromResidency {
        checks := checks + [Check(DoesNotFit, Reported)];
      } else {
        checks := checks + [Check(Fits, Reported)];
      }
    }
    assert checks == KindCheck(k) + SelectorCheck(k) + ResidencyCheck(k);
    if k.fromZone.Some? {
      if k.toZone.None? {
        checks := checks + [Check(CantTell, Unknown)];
      } else if ZoneRank(k.toZone.value) < ZoneRank(k.fromZone.value) {
        checks := checks + [Check(DoesNotFit, Reported)];
      } else {
        checks := checks + [Check(Fits, Reported)];
      }
    }
  }
}
