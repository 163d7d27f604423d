/**
 Repairing a loaded model: anything with a dangling reference is dropped, or the reference cleared
 where the record can do without it. One pass is enough.
 */
module Migrate {
  import opened Options

  datatype SiteLink = SiteLink(id: string, a: string, b: string)

  datatype Cluster = Cluster(id: string, siteId: Option<string>)

  datatype Node = Node(id: string, clusterId: string)

  datatype Namespace = Namespace(id: string, clusterId: string, applicationId: Option<string>)

  datatype Service = Service(id: string, clusterId: string, nodeIds: seq<string>, applicationId: Option<string>)

  datatype Device = Device(id: string, applicationId: Option<string>, siteId: Option<string>,
                           gatewayNodeId: Option<string>)

  datatype EndKind = ServiceEnd | DeviceEnd | ExternalEnd

  datatype Dependency = Dependency(id: string, fromKind: EndKind, from: string, toKind: EndKind, to: string)

  datatype Agent = Agent(id: string, clusterId: Option<string>)

  /** Sites, applications and external endpoints need nothing else: their ids are all that matters here. */
  datatype Model = Model(
    sites: seq<string>,
    siteLinks: seq<SiteLink>,
    clusters: seq<Cluster>,
    nodes: seq<Node>,
    applications: seq<string>,
    namespaces: seq<Namespace>,
    services: seq<Service>,
    devices: seq<Device>,
    externals: seq<string>,
    dependencies: seq<Dependency>,
    agents: seq<Agent>)

  predicate Truthy(s: Option<string>) {
    s.Some? && s.value != ""
  }

  /* ---------- filters and maps ---------- */

  function Filter<T>(s: seq<T>, keep: T -> bool): (r: seq<T>)
    ensures forall x | x in r :: x in s && keep(x)
    ensures forall x | x in s && keep(x) :: x in r
    ensures (forall x | x in s :: keep(x)) ==> r == s
    ensures |r| <= |s| && (|r| == |s| ==> r == s)
  {
    if s == [] then []
    else
      var done, last := Filter(s[..|s| - 1], keep), s[|s| - 1];
      assert s == s[..|s| - 1] + [last];
      if keep(last) then done + [last] else done
  }

  function Map<T, U>(s: seq<T>, f: T -> U): (r: seq<U>)
    ensures |r| == |s| && forall i | 0 <= i < |s| :: r[i] == f(s[i])
  {
    seq(|s|, i requires 0 <= i < |s| => f(s[i]))
  }

  lemma MapIsIdentityExactlyWhen<T>(s: seq<T>, f: T -> T)
    ensures Map(s, f) == s <==> forall x | x in s :: f(x) == x
  {
    if Map(s, f) == s {
      forall x | x in s
        ensures f(x) == x
      {
        var i :| 0 <= i < |s| && s[i] == x;
        assert Map(s, f)[i] == f(s[i]);
      }
    }
  }

  /* ---------- the repair ---------- */

  function Among(id: Option<string>, ids: seq<string>): Option<string> {
    if Truthy(id) && id.value in ids then id else None
  }

  function Ids<T>(s: seq<T>, id: T -> string): seq<string> {
    Map(s, id)
  }

  predicate LinkHolds(m: Model, l: SiteLink) {
    l.a in m.sites && l.b in m.sites && l.a != l.b
  }

  function RepairCluster(sites: seq<string>, c: Cluster): Cluster {
    if Truthy(c.siteId) && c.siteId.value !in sites then c.(siteId := None) else c
  }

  function RepairNamespace(applications: seq<string>, n: Namespace): Namespace {
    n.(applicationId := Among(n.applicationId, applications))
  }

  function RepairService(nodes: seq<string>, applications: seq<string>, w: Service): Service {
    w.(nodeIds := Filter(w.nodeIds, id => id in nodes), applicationId := Among(w.applicationId, applications))
  }

  function RepairDevice(sites: seq<string>, nodes: seq<string>, applications: seq<string>, d: Device): Device {
    d.(applicationId := Among(d.applicationId, applications),
       siteId := Among(d.siteId, sites),
       gatewayNodeId := Among(d.gatewayNodeId, nodes))
  }

  function RepairAgent(clusters: seq<string>, a: Agent): Agent {
    if Truthy(a.clusterId) && a.clusterId.value !in clusters then a.(clusterId := None) else a
  }

  function EndIds(kind: EndKind, services: seq<Service>, devices: seq<Device>, externals: seq<string>): seq<string> {
    match kind
    case ServiceEnd => Ids(services, (w: Service) => w.id)
    case DeviceEnd => Ids(devices, (d: Device) => d.id)
    case ExternalEnd => externals
  }

  /** Keeps only dependencies both of whose ends exist. */
  function PruneDependencies(deps: seq<Dependency>, services: seq<Service>, devices: seq<Device>,
                             externals: seq<string>): seq<Dependency> {
    Filter(deps, (d: Dependency) =>
             d.from in EndIds(d.fromKind, services, devices, externals)
             && d.to in EndIds(d.toKind, services, devices, externals))
  }

  function Normalize(m: Model): Model {
    var clusters := Map(m.clusters, c => RepairCluster(m.sites, c));
    var clusterIds := Ids(clusters, (c: Cluster) => c.id);
    var nodes := Filter(m.nodes, (n: Node) => n.clusterId in clusterIds);
    var nodeIds := Ids(nodes, (n: Node) => n.id);
    var services := Map(Filter(m.services, (w: Service) => w.clusterId in clusterIds),
                        w => RepairService(nodeIds, m.applications, w));
    var devices := Map(m.devices, d => RepairDevice(m.sites, nodeIds, m.applications, d));
    Model(m.sites,
          Filter(m.siteLinks, l => LinkHolds(m, l)),
          clusters,
          nodes,
          m.applications,
          Map(Filter(m.namespaces, (n: Namespace) => n.clusterId in clusterIds),
              n => RepairNamespace(m.applications, n)),
          services,
          devices,
          m.externals,
          PruneDependencies(m.dependencies, services, devices, m.externals),
          Map(m.agents, a => RepairAgent(clusterIds, a)))
  }

  /* ---------- what it means for a model to hold together ---------- */

  function ClusterIds(m: Model): seq<string> {
    Ids(m.clusters, (c: Cluster) => c.id)
  }

  function NodeIds(m: Model): seq<string> {
    Ids(m.nodes, (n: Node) => n.id)
  }

  predicate EndExists(m: Model, kind: EndKind, id: string) {
    match kind
    case ServiceEnd => exists w | w in m.services :: w.id == id
    case DeviceEnd => exists d | d in m.devices :: d.id == id
    case ExternalEnd => id in m.externals
  }

  /** An optional reference that is set resolves. */
  predicate Resolves(id: Option<string>, ids: seq<string>) {
    id.Some? ==> id.value != "" && id.value in ids
  }

  /** Where the source leaves an empty reference alone. */
  predicate ResolvesOrEmpty(id: Option<string>, ids: seq<string>) {
    Truthy(id) ==> id.value in ids
  }

  predicate PlacesHold(m: Model) {
    && (forall l | l in m.siteLinks :: LinkHolds(m, l))
    && (forall c | c in m.clusters :: ResolvesOrEmpty(c.siteId, m.sites))
    && (forall n | n in m.nodes :: n.clusterId in ClusterIds(m))
    && (forall a | a in m.agents :: ResolvesOrEmpty(a.clusterId, ClusterIds(m)))
  }

  predicate NamespacesHold(m: Model) {
    forall n | n in m.namespaces :: n.clusterId in ClusterIds(m) && Resolves(n.applicationId, m.applications)
  }

  predicate ServicesHold(m: Model) {
    forall w | w in m.services ::
      w.clusterId in ClusterIds(m) && Resolves(w.applicationId, m.applications)
      && forall id | id in w.nodeIds :: id in NodeIds(m)
  }

  predicate DevicesHold(m: Model) {
    forall d | d in m.devices ::
      Resolves(d.applicationId, m.applications) && Resolves(d.siteId, m.sites) && Resolves(d.gatewayNodeId, NodeIds(m))
  }

  predicate DependenciesHold(m: Model) {
    forall d | d in m.dependencies :: EndExists(m, d.fromKind, d.from) && EndExists(m, d.toKind, d.to)
  }

  /** Every reference and every dependency end resolves. */
  predicate Whole(m: Model) {
    PlacesHold(m) && NamespacesHold(m) && ServicesHold(m) && DevicesHold(m) && DependenciesHold(m)
  }

  lemma IdsAre<T>(s: seq<T>, id: T -> string, x: string)
    ensures x in Ids(s, id) <==> exists t :: t in s && id(t) == x
  {
    if x in Ids(s, id) {
      var i :| 0 <= i < |s| && Ids(s, id)[i] == x;
      assert s[i] in s && id(s[i]) == x;
    }
    if t :| t in s && id(t) == x {
      var i :| 0 <= i < |s| && s[i] == t;
      assert Ids(s, id)[i] == x;
    }
  }

  lemma EndIdsAre(m: Model, kind: EndKind, id: string)
    ensures id in EndIds(kind, m.services, m.devices, m.externals) <==> EndExists(m, kind, id)
  {
    IdsAre(m.services, (w: Service) => w.id, id);
    IdsAre(m.devices, (d: Device) => d.id, id);
  }

  lemma SameClusterIds(m: Model)
    ensures ClusterIds(Normalize(m)) == ClusterIds(m)
  {
  }

  lemma PlacesRepaired(m: Model)
    ensures PlacesHold(Normalize(m))
  {
    var r := Normalize(m);
    SameClusterIds(m);
    assert forall l | l in r.siteLinks :: LinkHolds(m, l);
  }

  lemma NamespacesRepaired(m: Model)
    ensures NamespacesHold(Normalize(m))
  {
    var r := Normalize(m);
    SameClusterIds(m);
    var kept := Filter(m.namespaces, (x: Namespace) => x.clusterId in ClusterIds(m));
    forall n | n in r.namespaces
      ensures n.clusterId in ClusterIds(m) && Resolves(n.applicationId, m.applications)
    {
      var i :| 0 <= i < |r.namespaces| && r.namespaces[i] == n;
      assert kept[i] in kept;
    }
  }

  lemma ServicesRepaired(m: Model)
    ensures ServicesHold(Normalize(m))
  {
    var r := Normalize(m);
    SameClusterIds(m);
    var kept := Filter(m.services, (x: Service) => x.clusterId in ClusterIds(m));
    forall w | w in r.services
      ensures w.clusterId in ClusterIds(m) && Resolves(w.applicationId, m.applications)
      ensures forall id | id in w.nodeIds :: id in NodeIds(r)
    {
      var i :| 0 <= i < |r.services| && r.services[i] == w;
      assert kept[i] in kept && w == RepairService(NodeIds(r), m.applications, kept[i]);
    }
  }

  lemma DevicesRepaired(m: Model)
    ensures DevicesHold(Normalize(m))
  {
    var r := Normalize(m);
    forall d | d in r.devices
      ensures exists e :: d == RepairDevice(m.sites, NodeIds(r), m.applications, e)
    {
      var i :| 0 <= i < |r.devices| && r.devices[i] == d;
      assert d == RepairDevice(m.sites, NodeIds(r), m.applications, m.devices[i]);
    }
  }

  lemma DependenciesRepaired(m: Model)
    ensures DependenciesHold(Normalize(m))
  {
    var r := Normalize(m);
    forall d | d in r.dependencies
      ensures EndExists(r, d.fromKind, d.from) && EndExists(r, d.toKind, d.to)
    {
      EndIdsAre(r, d.fromKind, d.from);
      EndIdsAre(r, d.toKind, d.to);
    }
  }

  /** After one repair every reference and every dependency end resolves. */
  lemma NormalizeIsWhole(m: Model)
    ensures Whole(Normalize(m))
  {
    PlacesRepaired(m);
    NamespacesRepaired(m);
    ServicesRepaired(m);
    DevicesRepaired(m);
    DependenciesRepaired(m);
  }

  /** A whole model is left exactly as it is. */
  lemma WholeIsFixed(m: Model)
    requires Whole(m)
    ensures Normalize(m) == m
  {
    var clusters := Map(m.clusters, c => RepairCluster(m.sites, c));
    MapIsIdentityExactlyWhen(m.clusters, c => RepairCluster(m.sites, c));
    assert clusters == m.clusters;
    var nodeIds := NodeIds(m);
    forall w | w in m.services
      ensures RepairService(nodeIds, m.applications, w) == w
    {
    }
    MapIsIdentityExactlyWhen(m.services, w => RepairService(nodeIds, m.applications, w));
    MapIsIdentityExactlyWhen(m.devices, d => RepairDevice(m.sites, nodeIds, m.applications, d));
    MapIsIdentityExactlyWhen(m.namespaces, n => RepairNamespace(m.applications, n));
    MapIsIdentityExactlyWhen(m.agents, a => RepairAgent(ClusterIds(m), a));
    forall d | d in m.dependencies
      ensures d.from in EndIds(d.fromKind, m.services, m.devices, m.externals)
              && d.to in EndIds(d.toKind, m.services, m.devices, m.externals)
    {
      EndIdsAre(m, d.fromKind, d.from);
      EndIdsAre(m, d.toKind, d.to);
    }
  }

  /** One pass is enough, and it changes nothing exactly when there was nothing to repair. */
  lemma OnePassIsEnough(m: Model)
    ensures Normalize(Normalize(m)) == Normalize(m)
    ensures Normalize(m) == m <==> Whole(m)
  {
    NormalizeIsWhole(m);
    WholeIsFixed(Normalize(m));
    if Whole(m) {
      WholeIsFixed(m);
    }
  }

  lemma NamespacesDropped(m: Model)
    ensures forall n | n in m.namespaces && n.clusterId in ClusterIds(m) ::
            RepairNamespace(m.applications, n) in Normalize(m).namespaces
    ensures forall k | k in Normalize(m).namespaces ::
              exists n | n in m.namespaces && n.clusterId in ClusterIds(m) :: k == RepairNamespace(m.applications, n)
  {
    var r := Normalize(m);
    SameClusterIds(m);
    var kept := Filter(m.namespaces, (x: Namespace) => x.clusterId in ClusterIds(m));
    forall n | n in m.namespaces && n.clusterId in ClusterIds(m)
      ensures RepairNamespace(m.applications, n) in r.namespaces
    {
      var i :| 0 <= i < |kept| && kept[i] == n;
      assert r.namespaces[i] == RepairNamespace(m.applications, n);
    }
    forall k | k in r.namespaces
      ensures exists n | n in m.namespaces && n.clusterId in ClusterIds(m) :: k == RepairNamespace(m.applications, n)
    {
      var i :| 0 <= i < |r.namespaces| && r.namespaces[i] == k;
      assert kept[i] in kept;
    }
  }

  lemma ServicesDropped(m: Model)
    ensures var r := Normalize(m);
            forall w | w in m.services && w.clusterId in ClusterIds(m) ::
              RepairService(NodeIds(r), m.applications, w) in r.services
    ensures var r := Normalize(m);
            forall k | k in r.services ::
              exists w | w in m.services && w.clusterId in ClusterIds(m) ::
                k == RepairService(NodeIds(r), m.applications, w)
  {
    var r := Normalize(m);
    SameClusterIds(m);
    var kept := Filter(m.services, (x: Service) => x.clusterId in ClusterIds(m));
    forall w | w in m.services && w.clusterId in ClusterIds(m)
      ensures RepairService(NodeIds(r), m.applications, w) in r.services
    {
      var i :| 0 <= i < |kept| && kept[i] == w;
      assert r.services[i] == RepairService(NodeIds(r), m.applications, w);
    }
    forall k | k in r.services
      ensures exists w | w in m.services && w.clusterId in ClusterIds(m) ::
              k == RepairService(NodeIds(r), m.applications, w)
    {
      var i :| 0 <= i < |r.services| && r.services[i] == k;
      assert kept[i] in kept;
    }
  }

  /**
   A record is dropped exactly when a reference of its own that it cannot do without is missing; what
   is kept of a namespace or service has the same id and cluster, and only its optional references change.
   */
  lemma DroppedOnlyForItsOwnReference(m: Model)
    ensures var r := Normalize(m);
            && (forall l | l in m.siteLinks :: l in r.siteLinks <==> LinkHolds(m, l))
            && (forall n | n in m.nodes :: n in r.nodes <==> n.clusterId in ClusterIds(m))
            && (forall n | n in m.namespaces && n.clusterId in ClusterIds(m) ::
                RepairNamespace(m.applications, n) in r.namespaces)
            && (forall k | k in r.namespaces ::
                  exists n | n in m.namespaces && n.clusterId in ClusterIds(m) ::
                    k == RepairNamespace(m.applications, n))
            && (forall w | w in m.services && w.clusterId in ClusterIds(m) ::
                RepairService(NodeIds(r), m.applications, w) in r.services)
            && (forall k | k in r.services ::
                  exists w | w in m.services && w.clusterId in ClusterIds(m) ::
                    k == RepairService(NodeIds(r), m.applications, w))
            && (forall d | d in m.dependencies ::
                  d in r.dependencies <==> EndExists(r, d.fromKind, d.from) && EndExists(r, d.toKind, d.to))
            && |r.clusters| == |m.clusters| && |r.devices| == |m.devices| && |r.agents| == |m.agents|
  {
    var r := Normalize(m);
    SameClusterIds(m);
    NamespacesDropped(m);
    ServicesDropped(m);
    forall d | d in m.dependencies
      ensures d in r.dependencies <==> EndExists(r, d.fromKind, d.from) && EndExists(r, d.toKind, d.to)
    {
      EndIdsAre(r, d.fromKind, d.from);
      EndIdsAre(r, d.toKind, d.to);
    }
  }
}
