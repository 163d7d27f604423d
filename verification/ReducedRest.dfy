/**
 What reducing keeps of the data beside the records: every dependency somebody stands behind, with
 exactly the sources that are not an observation; every link that was not measured; every decision
 about a suggestion; every event of this workspace. All of it in order, and nothing else.
 */
module ReducedRest {
  import opened Records
  import opened Discovered
  import opened Declared
  import opened DeclaredLaws
  import opened Thinning

  predicate IsOwnSource(s: string) {
    s != "observed"
  }

  /** Somebody stands behind it: a source other than an observation, or none at all. */
  predicate IsOwnDependency(d: Dependency) {
    d.sources == [] || exists s | s in d.sources :: IsOwnSource(s)
  }

  /** The same dependency, with its own sources only. */
  ghost predicate InOwnWords(d: Dependency, e: Dependency) {
    e.id == d.id && e.fields == d.fields && Thins(d.sources, e.sources, IsOwnSource)
  }

  predicate IsOwnLink(l: SiteLink) {
    !l.measured
  }

  /** The same link, without the time of a measurement. */
  predicate WithoutTime(l: SiteLink, n: SiteLink) {
    n.id == l.id && !n.measured && n.fields == l.fields && n.measuredAt.None?
  }

  predicate IsDecided(s: Suggestion) {
    s.status == Accepted || s.status == Dismissed
  }

  predicate IsOwnEvent(e: Event) {
    |e.id| >= 3 && e.id[0] == 'e' && e.id[1] == 'v' && e.id[2] == '-'
  }

  /** The same record of a person's, without what describes an observation. */
  ghost predicate WithoutObservation(r: Values, c: Values) {
    forall k ::
      && (k in c <==> k in r && k !in {"lastSeen", "detectedAt", "revision", "stale", "evidence", "agentId", "state",
                                        "stateReason"})
      && (k in c ==> c[k] == r[k])
  }

  lemma {:induction false} OwnSourcesAre(sources: seq<string>)
    ensures Thins(sources, OwnSources(sources), IsOwnSource)
  {
    if sources != [] {
      var k := |sources| - 1;
      OwnSourcesAre(sources[..k]);
      ThinsMore(sources, OwnSources(sources[..k]), OwnSources(sources), IsOwnSource);
    }
  }

  lemma {:induction false} OwnDependenciesAre(ds: seq<Dependency>)
    ensures ThinsTo(ds, OwnDependencies(ds), IsOwnDependency, InOwnWords)
  {
    if ds != [] {
      var k := |ds| - 1;
      OwnDependenciesAre(ds[..k]);
      OwnSourcesAre(ds[k].sources);
      ThinsToMore(ds, OwnDependencies(ds[..k]), OwnDependencies(ds), IsOwnDependency, InOwnWords);
    }
  }

  lemma {:induction false} OwnLinksAre(ls: seq<SiteLink>)
    ensures ThinsTo(ls, OwnLinks(ls), IsOwnLink, WithoutTime)
  {
    if ls != [] {
      var k := |ls| - 1;
      OwnLinksAre(ls[..k]);
      ThinsToMore(ls, OwnLinks(ls[..k]), OwnLinks(ls), IsOwnLink, WithoutTime);
    }
  }

  lemma {:induction false} DecidedAre(ss: seq<Suggestion>)
    ensures Thins(ss, Decided(ss), IsDecided)
  {
    if ss != [] {
      var k := |ss| - 1;
      DecidedAre(ss[..k]);
      ThinsMore(ss, Decided(ss[..k]), Decided(ss), IsDecided);
    }
  }

  lemma {:induction false} OwnEventsAre(es: seq<Event>)
    ensures Thins(es, OwnEvents(es), IsOwnEvent)
  {
    if es != [] {
      var k := |es| - 1;
      OwnEventsAre(es[..k]);
      ThinsMore(es, OwnEvents(es[..k]), OwnEvents(es), IsOwnEvent);
    }
  }

  ghost predicate AllWithoutObservation(l: seq<Values>, out: seq<Values>) {
    |out| == |l| && forall i | 0 <= i < |l| :: WithoutObservation(l[i], out[i])
  }

  lemma CleanedAre(l: seq<Values>)
    ensures AllWithoutObservation(l, Cleaned(l))
  {
  }

  lemma ReducedParts(m: Model)
    ensures var d, r := ToDeclared(m).0, ToDeclared(m).1;
            && d.rest == OwnRest(m.rest) && d.suggestions == Decided(m.suggestions)
            && d.auditLog == OwnEvents(m.auditLog) && r.dropped == DroppedFrom(m)
            && d.applications == m.applications && d.agents == []
  {
  }

  lemma RestKeeps(r: Rest)
    ensures var own := OwnRest(r);
            && ThinsTo(r.dependencies, own.dependencies, IsOwnDependency, InOwnWords)
            && ThinsTo(r.siteLinks, own.siteLinks, IsOwnLink, WithoutTime)
            && AllWithoutObservation(r.applications, own.applications)
            && AllWithoutObservation(r.externals, own.externals)
            && AllWithoutObservation(r.devices, own.devices)
  {
    OwnDependenciesAre(r.dependencies);
    OwnLinksAre(r.siteLinks);
    CleanedAre(r.applications);
    CleanedAre(r.externals);
    CleanedAre(r.devices);
  }

  /** What is left of a model beside its records and refs. */
  lemma ReducedModelKeeps(m: Model)
    ensures var d := ToDeclared(m).0;
            && ThinsTo(m.rest.dependencies, d.rest.dependencies, IsOwnDependency, InOwnWords)
            && ThinsTo(m.rest.siteLinks, d.rest.siteLinks, IsOwnLink, WithoutTime)
            && AllWithoutObservation(m.rest.applications, d.rest.applications)
            && AllWithoutObservation(m.rest.externals, d.rest.externals)
            && AllWithoutObservation(m.rest.devices, d.rest.devices)
            && Thins(m.suggestions, d.suggestions, IsDecided)
            && Thins(m.auditLog, d.auditLog, IsOwnEvent)
            && d.applications == m.applications && d.agents == []
  {
    ReducedParts(m);
    RestKeeps(m.rest);
    DecidedAre(m.suggestions);
    OwnEventsAre(m.auditLog);
  }

  /** The report counts what is gone. */
  lemma ReportCountsWhatIsGone(m: Model)
    ensures var d, dropped := ToDeclared(m).0, ToDeclared(m).1.dropped;
            && dropped.dependencies + |d.rest.dependencies| == |m.rest.dependencies|
            && dropped.siteLinks + |d.rest.siteLinks| == |m.rest.siteLinks|
            && dropped.suggestions + |d.suggestions| == |m.suggestions|
            && dropped.agents == |m.agents|
  {
    ReducedParts(m);
  }

  predicate IsTyped(r: Rec) {
    !r.discovered
  }

  lemma {:induction false} TypedAre(list: seq<Rec>)
    ensures Thins(list, Typed(list), IsTyped) && |Typed(list)| + |Found(list)| == |list|
  {
    if list != [] {
      var k := |list| - 1;
      TypedAre(list[..k]);
      ThinsMore(list, Typed(list[..k]), Typed(list), IsTyped);
    }
  }

  function StrippedOf(r: Report, kind: Kind): nat {
    match kind
    case ClusterKind => r.clusters
    case NodeKind => r.nodes
    case NamespaceKind => r.namespaces
    case ServiceKind => r.services
  }

  /** Of the records the typed ones stay, and the report counts the others and the refs. */
  lemma ReducedRecordsAre(m: Model, kind: Kind)
    ensures var d, r := ToDeclared(m).0, ToDeclared(m).1;
            && Thins(ListOf(m, kind), ListOf(d, kind), IsTyped)
            && StrippedOf(r, kind) + |ListOf(d, kind)| == |ListOf(m, kind)|
            && r.refs == |d.refs|
  {
    var a := Reduce(ClusterKind, m.clusters, m.refs);
    var b := Reduce(NodeKind, m.nodes, a.refs);
    var c := Reduce(NamespaceKind, m.namespaces, b.refs);
    match kind
    case ClusterKind => ListCounts(kind, m.clusters, m.refs);
    case NodeKind => ListCounts(kind, m.nodes, a.refs);
    case NamespaceKind => ListCounts(kind, m.namespaces, b.refs);
    case ServiceKind => ListCounts(kind, m.services, c.refs);
  }

  lemma ListCounts(kind: Kind, list: seq<Rec>, refs: Refs)
    ensures var r := Reduce(kind, list, refs);
            Thins(list, r.kept, IsTyped) && r.stripped + |r.kept| == |list|
  {
    TypedAre(list);
    ReduceKeepsTyped(kind, list, refs);
  }
}
