/**
 The declared side: reducing a model to what people said, and bringing a reduced model together
 with the records this browser still holds.
 */
module Declared {
  import opened Options
  import opened Records
  import opened Discovered

  function ListOf(m: Model, kind: Kind): seq<Rec> {
    match kind
    case ClusterKind => m.clusters
    case NodeKind => m.nodes
    case NamespaceKind => m.namespaces
    case ServiceKind => m.services
  }

  /** Other observed data removed. */
  datatype Dropped = Dropped(suggestions: nat, dependencies: nat, siteLinks: nat, agents: nat)

  /** Records removed per kind, refs left behind, and what else was dropped. */
  datatype Report = Report(clusters: nat, nodes: nat, namespaces: nat, services: nat, refs: nat, dropped: Dropped)

  datatype Reduced = Reduced(kept: seq<Rec>, refs: Refs, stripped: nat)

  datatype Restored = Restored(list: seq<Rec>, refs: Refs)

  /* ---------- reducing ---------- */

  function Reduce(kind: Kind, list: seq<Rec>, refs: Refs): Reduced {
    if list == [] then Reduced([], refs, 0)
    else
      var done, last := Reduce(kind, list[..|list| - 1], refs), list[|list| - 1];
      if !last.discovered then done.(kept := done.kept + [last])
      else
        var ref := RefOf(kind, last);
        Reduced(done.kept,
                if ref.Some? && last.id != "" then done.refs[last.id := ref.value] else done.refs,
                done.stripped + 1)
  }

  method ReduceList(kind: Kind, list: seq<Rec>, refs: Refs) returns (kept: seq<Rec>, left: Refs, stripped: nat)
    ensures Reduced(kept, left, stripped) == Reduce(kind, list, refs)
  {
    kept, left, stripped := [], refs, 0;
    for i := 0 to |list|
      invariant Reduced(kept, left, stripped) == Reduce(kind, list[..i], refs)
    {
      assert list[..i + 1][..i] == list[..i];
      var r := list[i];
      if !r.discovered {
        kept := kept + [r];
      } else {
        stripped := stripped + 1;
        var ref := RefOf(kind, r);
        if ref.Some? && r.id != "" {
          left := left[r.id := ref.value];
        }
      }
    }
    assert list[..|list|] == list;
  }

  /** The refs worth keeping: named, and saying something. */
  function Speaking(refs: Refs): Refs {
    map id | id in refs && id != "" && !IsRefEmpty(refs[id]) :: refs[id]
  }

  method DropSilent(refs: Refs) returns (left: Refs)
    ensures left == Speaking(refs)
  {
    left := refs;
    var todo := refs.Keys;
    while todo != {}
      invariant todo <= refs.Keys
      invariant left.Keys <= refs.Keys && forall id | id in left :: left[id] == refs[id]
      invariant forall id | id in refs :: id in left <==> id in todo || (id != "" && !IsRefEmpty(refs[id]))
      decreases todo
    {
      var id :| id in todo;
      todo := todo - {id};
      if id == "" || IsRefEmpty(left[id]) {
        left := left - {id};
      }
    }
  }

  function Decided(ss: seq<Suggestion>): (own: seq<Suggestion>)
    ensures |own| <= |ss|
  {
    if ss == [] then []
    else
      var done, last := Decided(ss[..|ss| - 1]), ss[|ss| - 1];
      if last.status.Open? then done else done + [last]
  }

  function OwnEvents(es: seq<Event>): seq<Event> {
    if es == [] then []
    else
      var done, last := OwnEvents(es[..|es| - 1]), es[|es| - 1];
      if "ev-" <= last.id then done + [last] else done
  }

  /* ---------- the other observed data ---------- */

  /** Fields that describe an observation, not a decision. */
  const OBSERVED_META := {"lastSeen", "detectedAt", "revision", "stale", "evidence", "agentId", "state", "stateReason"}

  function Cleaned(l: seq<Values>): (out: seq<Values>)
    ensures |out| == |l|
  {
    seq(|l|, i requires 0 <= i < |l| => l[i] - OBSERVED_META)
  }

  method Clean(l: seq<Values>) returns (out: seq<Values>)
    ensures out == Cleaned(l)
  {
    out := [];
    for i := 0 to |l|
      invariant out == Cleaned(l)[..i]
    {
      out := out + [l[i] - OBSERVED_META];
    }
  }

  const SEEN := "observed"

  function OwnSources(sources: seq<string>): (own: seq<string>)
    ensures SEEN !in own
    ensures SEEN !in sources ==> own == sources
  {
    if sources == [] then []
    else
      var done, last := OwnSources(sources[..|sources| - 1]), sources[|sources| - 1];
      assert sources == sources[..|sources| - 1] + [last];
      if last == SEEN then done else done + [last]
  }

  /** Seen and nothing else. */
  predicate OnlySeen(d: Dependency) {
    SEEN in d.sources && forall s | s in d.sources :: s == SEEN
  }

  function OwnDependencies(ds: seq<Dependency>): (own: seq<Dependency>)
    ensures |own| <= |ds|
  {
    if ds == [] then []
    else
      var done, last := OwnDependencies(ds[..|ds| - 1]), ds[|ds| - 1];
      if OnlySeen(last) then done else done + [last.(sources := OwnSources(last.sources))]
  }

  method KeepDependencies(ds: seq<Dependency>) returns (own: seq<Dependency>, observed: nat)
    ensures own == OwnDependencies(ds) && observed == |ds| - |own|
  {
    own, observed := [], 0;
    for i := 0 to |ds|
      invariant own == OwnDependencies(ds[..i]) && observed == i - |own|
    {
      assert ds[..i + 1][..i] == ds[..i];
      if OnlySeen(ds[i]) {
        observed := observed + 1;
      } else if SEEN in ds[i].sources {
        own := own + [ds[i].(sources := OwnSources(ds[i].sources))];
      } else {
        own := own + [ds[i]];
      }
    }
    assert ds[..|ds|] == ds;
  }

  function OwnLinks(ls: seq<SiteLink>): (own: seq<SiteLink>)
    ensures |own| <= |ls|
  {
    if ls == [] then []
    else
      var done, last := OwnLinks(ls[..|ls| - 1]), ls[|ls| - 1];
      if last.measured then done else done + [last.(measuredAt := None)]
  }

  function OwnRest(r: Rest): Rest {
    Rest(Cleaned(r.applications), Cleaned(r.externals), Cleaned(r.devices), OwnDependencies(r.dependencies),
         OwnLinks(r.siteLinks))
  }

  function DroppedFrom(m: Model): Dropped {
    Dropped(|m.suggestions| - |Decided(m.suggestions)|,
            |m.rest.dependencies| - |OwnDependencies(m.rest.dependencies)|,
            |m.rest.siteLinks| - |OwnLinks(m.rest.siteLinks)|,
            |m.agents|)
  }

  function ToDeclared(m: Model): (Model, Report) {
    var a := Reduce(ClusterKind, m.clusters, m.refs);
    var b := Reduce(NodeKind, m.nodes, a.refs);
    var c := Reduce(NamespaceKind, m.namespaces, b.refs);
    var d := Reduce(ServiceKind, m.services, c.refs);
    var refs := Speaking(d.refs);
    (Model(a.kept, b.kept, c.kept, d.kept, m.applications, [], Decided(m.suggestions), OwnEvents(m.auditLog),
           refs, OwnRest(m.rest)),
     Report(a.stripped, b.stripped, c.stripped, d.stripped, |refs|, DroppedFrom(m)))
  }

  method ReduceModel(m: Model) returns (model: Model, report: Report)
    ensures (model, report) == ToDeclared(m)
  {
    var refs := m.refs;
    var clusters, nodes, namespaces, services, a, b, c, d;
    clusters, refs, a := ReduceList(ClusterKind, m.clusters, refs);
    nodes, refs, b := ReduceList(NodeKind, m.nodes, refs);
    namespaces, refs, c := ReduceList(NamespaceKind, m.namespaces, refs);
    services, refs, d := ReduceList(ServiceKind, m.services, refs);
    refs := DropSilent(refs);
    var suggestions, links := Decided(m.suggestions), OwnLinks(m.rest.siteLinks);
    var applications := Clean(m.rest.applications);
    var externals := Clean(m.rest.externals);
    var devices := Clean(m.rest.devices);
    var dependencies, observed := KeepDependencies(m.rest.dependencies);
    model := Model(clusters, nodes, namespaces, services, m.applications, [], suggestions, OwnEvents(m.auditLog), refs,
                   Rest(applications, externals, devices, dependencies, links));
    report := Report(a, b, c, d, |refs|,
                     Dropped(|m.suggestions| - |suggestions|, observed, |m.rest.siteLinks| - |links|, |m.agents|));
  }

  /* ---------- bringing back ---------- */

  function RefFor(refs: Refs, id: string, kind: Kind): Option<Ref> {
    if id in refs && refs[id].kind == kind then Some(refs[id]) else None
  }

  function Restore(kind: Kind, list: seq<Rec>, held: seq<Rec>, refs: Refs): Restored {
    if held == [] then Restored(list, refs)
    else
      var done, last := Restore(kind, list, held[..|held| - 1], refs), held[|held| - 1];
      if !last.discovered then done
      else Restored(done.list + [ApplyRef(last, RefFor(done.refs, last.id, kind), kind)], done.refs - {last.id})
  }

  method RestoreList(kind: Kind, list: seq<Rec>, held: seq<Rec>, refs: Refs) returns (out: seq<Rec>, left: Refs)
    ensures Restored(out, left) == Restore(kind, list, held, refs)
  {
    out, left := list, refs;
    for i := 0 to |held|
      invariant Restored(out, left) == Restore(kind, list, held[..i], refs)
    {
      assert held[..i + 1][..i] == held[..i];
      var r := held[i];
      if r.discovered {
        var ref := RefFor(left, r.id, kind);
        left := left - {r.id};
        out := out + [ApplyRef(r, ref, kind)];
      }
    }
    assert held[..|held|] == held;
  }

  function Rehydrated(incoming: Model, held: Model): Model {
    var a := Restore(ClusterKind, incoming.clusters, held.clusters, incoming.refs);
    var b := Restore(NodeKind, incoming.nodes, held.nodes, a.refs);
    var c := Restore(NamespaceKind, incoming.namespaces, held.namespaces, b.refs);
    var d := Restore(ServiceKind, incoming.services, held.services, c.refs);
    incoming.(clusters := a.list, nodes := b.list, namespaces := c.list, services := d.list, refs := d.refs)
  }

  method Rehydrate(incoming: Model, held: Model) returns (m: Model)
    ensures m == Rehydrated(incoming, held)
  {
    var refs := incoming.refs;
    var clusters, nodes, namespaces, services;
    clusters, refs := RestoreList(ClusterKind, incoming.clusters, held.clusters, refs);
    nodes, refs := RestoreList(NodeKind, incoming.nodes, held.nodes, refs);
    namespaces, refs := RestoreList(NamespaceKind, incoming.namespaces, held.namespaces, refs);
    services, refs := RestoreList(ServiceKind, incoming.services, held.services, refs);
    m := incoming.(clusters := clusters, nodes := nodes, namespaces := namespaces, services := services, refs := refs);
  }
}
