/**
 What a repair keeps: every record it needs not drop, in order, with every reference that resolves.
 Nothing else changes.
 */
module MigrateKeeps {
  import opened Options
  import opened Migrate
  import opened Thinning

  /** A reference that resolves stays, and one that dangles is cleared. */
  predicate RefKept(was: Option<string>, now: Option<string>, known: seq<string>) {
    if was.Some? && was.value in known && was.value != "" then now == was
    else if was.Some? && was.value != "" then now.None?
    else !Truthy(now)
  }

  function KnownTest(known: seq<string>): string -> bool {
    id => id in known
  }

  lemma {:induction false} FilterThins<T>(s: seq<T>, keep: T -> bool)
    ensures Thins(s, Filter(s, keep), keep)
  {
    if s != [] {
      var k := |s| - 1;
      FilterThins(s[..k], keep);
      ThinsMore(s, Filter(s[..k], keep), Filter(s, keep), keep);
    }
  }

  lemma {:induction false} SameFilter<T>(s: seq<T>, p: T -> bool, q: T -> bool)
    requires forall x | x in s :: p(x) <==> q(x)
    ensures Filter(s, p) == Filter(s, q)
  {
    if s != [] {
      assert s == s[..|s| - 1] + [s[|s| - 1]];
      SameFilter(s[..|s| - 1], p, q);
    }
  }

  lemma FilteredAndMapped<T, U>(s: seq<T>, p: T -> bool, f: T -> U, keep: T -> bool, becomes: (T, U) -> bool)
    requires forall x | x in s :: p(x) <==> keep(x)
    requires forall x | x in s && keep(x) :: becomes(x, f(x))
    ensures ThinsTo(s, Map(Filter(s, p), f), keep, becomes)
  {
    SameFilter(s, p, keep);
    FilterThins(s, keep);
    var kept := Filter(s, keep);
    forall j | 0 <= j < |kept|
      ensures becomes(s[Kept(s, keep)[j]], Map(kept, f)[j])
    {
      assert kept[j] == s[Kept(s, keep)[j]];
    }
  }

  lemma AmongKeeps(was: Option<string>, known: seq<string>)
    ensures RefKept(was, Among(was, known), known)
  {
  }

  /* ---------- records that are dropped with what they need ---------- */

  function LinkTest(m: Model): SiteLink -> bool {
    (l: SiteLink) => l.a in m.sites && l.b in m.sites && l.a != l.b
  }

  function NodeTest(m: Model): Node -> bool {
    (n: Node) => n.clusterId in ClusterIds(m)
  }

  function NamespaceTest(m: Model): Namespace -> bool {
    (n: Namespace) => n.clusterId in ClusterIds(m)
  }

  function ServiceTest(m: Model): Service -> bool {
    (w: Service) => w.clusterId in ClusterIds(m)
  }

  function NamespaceBecomes(m: Model): (Namespace, Namespace) -> bool {
    (was: Namespace, now: Namespace) =>
      && now.id == was.id && now.clusterId == was.clusterId
      && RefKept(was.applicationId, now.applicationId, m.applications)
  }

  /** A service keeps its id, its cluster, its application if that exists, and exactly its nodes that exist. */
  ghost predicate ServiceIs(m: Model, was: Service, now: Service) {
    && now.id == was.id && now.clusterId == was.clusterId
    && RefKept(was.applicationId, now.applicationId, m.applications)
    && Thins(was.nodeIds, now.nodeIds, KnownTest(NodeIds(Normalize(m))))
  }

  ghost function ServiceBecomes(m: Model): (Service, Service) -> bool {
    (was: Service, now: Service) => ServiceIs(m, was, now)
  }

  function DependencyTest(m: Model): Dependency -> bool {
    (d: Dependency) => EndExists(Normalize(m), d.fromKind, d.from) && EndExists(Normalize(m), d.toKind, d.to)
  }

  lemma SameClusters(m: Model)
    ensures Ids(Map(m.clusters, c => RepairCluster(m.sites, c)), (c: Cluster) => c.id) == ClusterIds(m)
  {
  }

  lemma NodesStay(m: Model)
    ensures Thins(m.nodes, Normalize(m).nodes, NodeTest(m))
  {
    var ids := Ids(Map(m.clusters, c => RepairCluster(m.sites, c)), (c: Cluster) => c.id);
    SameClusters(m);
    FilterThins(m.nodes, NodeTest(m));
    SameFilter(m.nodes, (n: Node) => n.clusterId in ids, NodeTest(m));
  }

  lemma NamespacesStay(m: Model)
    ensures ThinsTo(m.namespaces, Normalize(m).namespaces, NamespaceTest(m), NamespaceBecomes(m))
  {
    var ids := Ids(Map(m.clusters, c => RepairCluster(m.sites, c)), (c: Cluster) => c.id);
    SameClusters(m);
    FilteredAndMapped(m.namespaces, (n: Namespace) => n.clusterId in ids, n => RepairNamespace(m.applications, n),
                      NamespaceTest(m), NamespaceBecomes(m));
  }

  lemma RepairedServiceIs(m: Model, w: Service)
    ensures ServiceIs(m, w, RepairService(NodeIds(Normalize(m)), m.applications, w))
  {
    var ids := NodeIds(Normalize(m));
    AmongKeeps(w.applicationId, m.applications);
    FilterThins(w.nodeIds, KnownTest(ids));
    SameFilter(w.nodeIds, id => id in ids, KnownTest(ids));
  }

  lemma ServicesStay(m: Model)
    ensures ThinsTo(m.services, Normalize(m).services, ServiceTest(m), ServiceBecomes(m))
  {
    var ids := Ids(Map(m.clusters, c => RepairCluster(m.sites, c)), (c: Cluster) => c.id);
    var nodeIds := Ids(Normalize(m).nodes, (n: Node) => n.id);
    SameClusters(m);
    assert nodeIds == NodeIds(Normalize(m));
    forall w | w in m.services
      ensures ServiceBecomes(m)(w, RepairService(nodeIds, m.applications, w))
    {
      RepairedServiceIs(m, w);
    }
    FilteredAndMapped(m.services, (w: Service) => w.clusterId in ids, w => RepairService(nodeIds, m.applications, w),
                      ServiceTest(m), ServiceBecomes(m));
  }

  /** Every node, namespace and service whose cluster exists stays, in order, with its references that resolve. */
  lemma PlacedRecordsStay(m: Model)
    ensures Thins(m.nodes, Normalize(m).nodes, NodeTest(m))
    ensures ThinsTo(m.namespaces, Normalize(m).namespaces, NamespaceTest(m), NamespaceBecomes(m))
    ensures ThinsTo(m.services, Normalize(m).services, ServiceTest(m), ServiceBecomes(m))
  {
    NodesStay(m);
    NamespacesStay(m);
    ServicesStay(m);
  }

  /* ---------- links ---------- */

  lemma DependenciesStay(m: Model)
    ensures Thins(m.dependencies, Normalize(m).dependencies, DependencyTest(m))
  {
    var r := Normalize(m);
    FilterThins(m.dependencies, DependencyTest(m));
    forall kind: EndKind, id: string
      ensures id in EndIds(kind, r.services, r.devices, r.externals) <==> EndExists(r, kind, id)
    {
      EndIdsAre(r, kind, id);
    }
    SameFilter(m.dependencies, (d: Dependency) =>
                 d.from in EndIds(d.fromKind, r.services, r.devices, m.externals)
                 && d.to in EndIds(d.toKind, r.services, r.devices, m.externals), DependencyTest(m));
  }

  /** Every site link between two sites, and every dependency both of whose ends are there now, stays, in order. */
  lemma LinksStay(m: Model)
    ensures Thins(m.siteLinks, Normalize(m).siteLinks, LinkTest(m))
    ensures Thins(m.dependencies, Normalize(m).dependencies, DependencyTest(m))
  {
    FilterThins(m.siteLinks, LinkTest(m));
    SameFilter(m.siteLinks, l => LinkHolds(m, l), LinkTest(m));
    DependenciesStay(m);
  }

  /* ---------- records that need nothing ---------- */

  predicate DeviceIs(m: Model, nodes: seq<string>, was: Device, now: Device) {
    && now.id == was.id
    && RefKept(was.applicationId, now.applicationId, m.applications)
    && RefKept(was.siteId, now.siteId, m.sites)
    && RefKept(was.gatewayNodeId, now.gatewayNodeId, nodes)
  }

  /** Clusters, devices and agents all stay in place with their references that resolve; nothing else is touched. */
  lemma IndependentRecordsStay(m: Model)
    ensures var r := Normalize(m);
            && r.sites == m.sites && r.applications == m.applications && r.externals == m.externals
            && |r.clusters| == |m.clusters| && |r.devices| == |m.devices| && |r.agents| == |m.agents|
            && (forall i | 0 <= i < |m.clusters| ::
                  r.clusters[i].id == m.clusters[i].id
                  && RefKept(m.clusters[i].siteId, r.clusters[i].siteId, m.sites))
            && (forall i | 0 <= i < |m.devices| :: DeviceIs(m, NodeIds(r), m.devices[i], r.devices[i]))
            && forall i | 0 <= i < |m.agents| ::
                 r.agents[i].id == m.agents[i].id
                 && RefKept(m.agents[i].clusterId, r.agents[i].clusterId, ClusterIds(m))
  {
    SameClusters(m);
  }
}
