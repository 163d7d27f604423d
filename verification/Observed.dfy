/**
 Laying what was seen on the wire over what was declared. The source groups edges by their ends in
 a map whose buckets share the mutable edge objects of the result list; here too, edges live in
 cells that are updated in place. The method is proved equal to an overlay that has no index at
 all and searches the whole list for every observed edge.
 */
module Observed {
  import opened Options

  datatype EndKind = ServiceEnd | DeviceEnd | ExternalEnd

  datatype Ends = Ends(fromKind: EndKind, from: string, toKind: EndKind, to: string)

  datatype Confidence = Low | Medium | High

  /** What an observation overwrites as a whole. */
  datatype Traffic = Traffic(
    stale: Option<bool>,
    noise: Option<string>,
    crossCluster: Option<bool>,
    via: Option<string>,
    note: Option<string>,
    connections: Option<real>,
    bytes: Option<real>)

  datatype Edge = Edge(
    id: string,
    ends: Ends,
    sources: seq<string>,
    confidence: Confidence,
    port: Option<int>,
    firstSeen: Option<int>,
    lastSeen: Option<int>,
    stats: Option<map<string, real>>,
    traffic: Traffic)

  datatype Endpoint = Endpoint(id: string, host: string, port: Option<int>)

  datatype Base = Base(services: set<string>, devices: set<string>, edges: seq<Edge>, externals: seq<Endpoint>)

  datatype Seen = Seen(edges: seq<Edge>, externals: seq<Endpoint>)

  const OBSERVED := "observed"

  /* ---------- merging one observed edge into one that is there ---------- */

  function Rank(c: Confidence): nat {
    match c
    case Low => 0
    case Medium => 1
    case High => 2
  }

  /** The values of a sequence in the order of their first occurrences. */
  function Unique(s: seq<string>): seq<string> {
    if s == [] then []
    else
      var done, last := Unique(s[..|s| - 1]), s[|s| - 1];
      if last in done then done else done + [last]
  }

  function Earliest(a: Option<int>, b: Option<int>): Option<int> {
    if a.None? then b else if b.None? || a.value <= b.value then a else b
  }

  function Stats(e: Edge): map<string, real> {
    if e.stats.Some? then e.stats.value else map[]
  }

  function Merge(d: Edge, o: Edge): Edge {
    d.(sources := Unique(d.sources + [OBSERVED]),
       confidence := if Rank(o.confidence) > Rank(d.confidence) then o.confidence else d.confidence,
       port := if d.port.Some? then d.port else o.port,
       firstSeen := Earliest(d.firstSeen, o.firstSeen),
       lastSeen := o.lastSeen,
       stats := Some(Stats(d) + Stats(o)),
       traffic := o.traffic)
  }

  /* ---------- outside addresses ---------- */

  type HostPort = (string, int)

  function KeyOf(e: Endpoint): HostPort {
    (e.host, if e.port.Some? then e.port.value else 0)
  }

  function HostMap(es: seq<Endpoint>): map<HostPort, string> {
    if es == [] then map[]
    else HostMap(es[..|es| - 1])[KeyOf(es[|es| - 1]) := es[|es| - 1].id]
  }

  /** The endpoint that already stands for this address: with the same port, else without a port. */
  function Own(byHost: map<HostPort, string>, e: Endpoint): Option<string> {
    var found := if KeyOf(e) in byHost then Some(byHost[KeyOf(e)])
                 else if (e.host, 0) in byHost then Some(byHost[(e.host, 0)])
                 else None;
    if found == Some("") then None else found
  }

  datatype Named = Named(externals: seq<Endpoint>, byHost: map<HostPort, string>, remap: map<string, string>)

  function NameOne(n: Named, e: Endpoint): Named {
    var own := Own(n.byHost, e);
    if own.Some? then n.(remap := n.remap[e.id := own.value])
    else n.(externals := n.externals + [e], byHost := n.byHost[KeyOf(e) := e.id])
  }

  function NameAll(base: seq<Endpoint>, seen: seq<Endpoint>): Named {
    if seen == [] then Named(base, HostMap(base), map[])
    else NameOne(NameAll(base, seen[..|seen| - 1]), seen[|seen| - 1])
  }

  method NameExternals(base: seq<Endpoint>, seen: seq<Endpoint>)
    returns (externals: seq<Endpoint>, remap: map<string, string>)
    ensures externals == NameAll(base, seen).externals && remap == NameAll(base, seen).remap
  {
    externals := base;
    var byHost: map<HostPort, string> := map[];
    for i := 0 to |base|
      invariant byHost == HostMap(base[..i])
    {
      assert base[..i + 1][..i] == base[..i];
      byHost := byHost[KeyOf(base[i]) := base[i].id];
    }
    assert base[..|base|] == base;
    remap := map[];
    for i := 0 to |seen|
      invariant Named(externals, byHost, remap) == NameAll(base, seen[..i])
    {
      assert seen[..i + 1][..i] == seen[..i];
      var e := seen[i];
      var own := Own(byHost, e);
      if own.Some? {
        remap := remap[e.id := own.value];
      } else {
        externals := externals + [e];
        byHost := byHost[KeyOf(e) := e.id];
      }
    }
    assert seen[..|seen|] == seen;
  }

  function Renamed(remap: map<string, string>, kind: EndKind, id: string): string {
    if kind == ExternalEnd && id in remap then remap[id] else id
  }

  function RenamedEnds(remap: map<string, string>, e: Ends): Ends {
    e.(from := Renamed(remap, e.fromKind, e.from), to := Renamed(remap, e.toKind, e.to))
  }

  function RenamedEdge(remap: map<string, string>, o: Edge): Edge {
    o.(ends := RenamedEnds(remap, o.ends))
  }

  function Ids(es: seq<Endpoint>): set<string> {
    set e | e in es :: e.id
  }

  predicate Has(b: Base, externals: set<string>, kind: EndKind, id: string) {
    match kind
    case ExternalEnd => id in externals
    case ServiceEnd => id in b.services
    case DeviceEnd => id in b.devices
  }

  predicate BothEndsExist(b: Base, externals: set<string>, e: Ends) {
    Has(b, externals, e.fromKind, e.from) && Has(b, externals, e.toKind, e.to)
  }

  /** The observed edges that count: with known names for outside addresses, and both ends in the model. */
  function Relevant(b: Base, externals: set<string>, remap: map<string, string>, os: seq<Edge>): seq<Edge> {
    if os == [] then []
    else
      var done, last := Relevant(b, externals, remap, os[..|os| - 1]), os[|os| - 1];
      var seen := RenamedEdge(remap, last);
      if BothEndsExist(b, externals, seen.ends) then done + [seen] else done
  }

  /* ---------- the overlay without an index ---------- */

  predicate At(es: seq<Edge>, i: nat, ends: Ends, port: Option<int>)
    requires i < |es|
  {
    es[i].ends == ends && es[i].port == port
  }

  /** The first edge from position `i` on with these ends and this port, or the length of the list. */
  function FirstFrom(es: seq<Edge>, i: nat, ends: Ends, port: Option<int>): (r: nat)
    requires i <= |es|
    ensures i <= r <= |es|
    ensures r < |es| ==> At(es, r, ends, port)
    ensures forall j | i <= j < r :: !At(es, j, ends, port)
    decreases |es| - i
  {
    if i == |es| || At(es, i, ends, port) then i else FirstFrom(es, i + 1, ends, port)
  }

  /** Where an observed edge goes: the edge with its port, else a portless one, else the end of the list. */
  function Landing(es: seq<Edge>, o: Edge): (r: nat)
    ensures r <= |es|
    ensures r < |es| ==> es[r].ends == o.ends
  {
    var exact := FirstFrom(es, 0, o.ends, o.port);
    if exact < |es| then exact else FirstFrom(es, 0, o.ends, None)
  }

  function Lay(es: seq<Edge>, o: Edge): seq<Edge> {
    var i := Landing(es, o);
    if i < |es| then es[i := Merge(es[i], o)] else es + [o]
  }

  function Overlay(es: seq<Edge>, os: seq<Edge>): seq<Edge> {
    if os == [] then es else Lay(Overlay(es, os[..|os| - 1]), os[|os| - 1])
  }

  datatype Picture = Picture(edges: seq<Edge>, externals: seq<Endpoint>)

  function Overlaid(b: Base, s: Seen): Picture {
    if s.edges == [] then Picture(b.edges, b.externals)
    else
      var n := NameAll(b.externals, s.externals);
      Picture(Overlay(b.edges, Relevant(b, Ids(n.externals), n.remap, s.edges)), n.externals)
  }

  /* ---------- the overlay with buckets of shared, mutable edges ---------- */

  class Cell {
    var edge: Edge

    constructor (e: Edge)
      ensures edge == e
    {
      edge := e;
    }
  }

  /** The positions of the edges with the given ends, in order. */
  function Positions(es: seq<Edge>, ends: Ends): (ps: seq<nat>)
    ensures forall j | 0 <= j < |ps| :: ps[j] < |es| && es[ps[j]].ends == ends
    ensures forall j, l | 0 <= j < l < |ps| :: ps[j] < ps[l]
  {
    if es == [] then []
    else
      var done := Positions(es[..|es| - 1], ends);
      if es[|es| - 1].ends == ends then done + [|es| - 1] else done
  }

  lemma {:induction false} PositionsComplete(es: seq<Edge>, ends: Ends, i: nat)
    requires i < |es| && es[i].ends == ends
    ensures i in Positions(es, ends)
  {
    if i < |es| - 1 {
      PositionsComplete(es[..|es| - 1], ends, i);
    }
  }

  lemma {:induction false} PositionsKept(es: seq<Edge>, i: nat, e: Edge, ends: Ends)
    requires i < |es| && e.ends == es[i].ends
    ensures Positions(es[i := e], ends) == Positions(es, ends)
  {
    var k := |es| - 1;
    if i < k {
      assert es[i := e][..k] == es[..k][i := e];
      PositionsKept(es[..k], i, e, ends);
    } else {
      assert es[i := e][..k] == es[..k];
    }
  }

  lemma PositionsExtended(es: seq<Edge>, e: Edge, ends: Ends)
    ensures Positions(es + [e], ends) == if e.ends == ends then Positions(es, ends) + [|es|] else Positions(es, ends)
  {
    assert (es + [e])[..|es|] == es;
  }

  /** The first hit in a bucket is the first hit in the whole list. */
  lemma BucketFindsFirst(es: seq<Edge>, ends: Ends, port: Option<int>, j: nat)
    requires j <= |Positions(es, ends)|
    requires forall l | 0 <= l < j :: es[Positions(es, ends)[l]].port != port
    requires j < |Positions(es, ends)| ==> es[Positions(es, ends)[j]].port == port
    ensures FirstFrom(es, 0, ends, port) == if j < |Positions(es, ends)| then Positions(es, ends)[j] else |es|
  {
    var ps := Positions(es, ends);
    var bound := if j < |ps| then ps[j] else |es|;
    forall i | 0 <= i < bound
      ensures !At(es, i, ends, port)
    {
      if es[i].ends == ends {
        PositionsComplete(es, ends, i);
        var l :| 0 <= l < |ps| && ps[l] == i;
        assert l < j;
      }
    }
    assert bound < |es| ==> At(es, bound, ends, port);
  }

  ghost predicate Holds(out: seq<Cell>, es: seq<Edge>)
    reads out
  {
    && |out| == |es|
    && (forall i | 0 <= i < |out| :: out[i].edge == es[i])
    && (forall i, j | 0 <= i < j < |out| :: out[i] != out[j])
  }

  function BucketOf(byEnds: map<Ends, seq<Cell>>, k: Ends): seq<Cell> {
    if k in byEnds then byEnds[k] else []
  }

  /** Each bucket is exactly the sub-sequence of the result with its ends, the very same cells in order. */
  ghost predicate Bucketed(out: seq<Cell>, es: seq<Edge>, byEnds: map<Ends, seq<Cell>>)
    requires |out| == |es|
  {
    forall k :: IsBucket(out, es, k, BucketOf(byEnds, k))
  }

  ghost predicate IsBucket(out: seq<Cell>, es: seq<Edge>, k: Ends, bucket: seq<Cell>)
    requires |out| == |es|
  {
    |bucket| == |Positions(es, k)| && forall j | 0 <= j < |bucket| :: bucket[j] == out[Positions(es, k)[j]]
  }

  lemma BucketedAfterUpdate(out: seq<Cell>, es: seq<Edge>, byEnds: map<Ends, seq<Cell>>, i: nat, e: Edge)
    requires |out| == |es| && Bucketed(out, es, byEnds)
    requires i < |es| && e.ends == es[i].ends
    ensures Bucketed(out, es[i := e], byEnds)
  {
    forall k
      ensures IsBucket(out, es[i := e], k, BucketOf(byEnds, k))
    {
      assert IsBucket(out, es, k, BucketOf(byEnds, k));
      PositionsKept(es, i, e, k);
    }
  }

  function Pushed(byEnds: map<Ends, seq<Cell>>, k: Ends, c: Cell): map<Ends, seq<Cell>> {
    byEnds[k := BucketOf(byEnds, k) + [c]]
  }

  lemma BucketAfterPush(out: seq<Cell>, es: seq<Edge>, k: Ends, bucket: seq<Cell>, c: Cell, e: Edge)
    requires |out| == |es| && IsBucket(out, es, k, bucket)
    ensures IsBucket(out + [c], es + [e], k, if e.ends == k then bucket + [c] else bucket)
  {
    PositionsExtended(es, e, k);
  }

  lemma BucketedAfterPush(out: seq<Cell>, es: seq<Edge>, byEnds: map<Ends, seq<Cell>>, c: Cell, e: Edge)
    requires |out| == |es| && Bucketed(out, es, byEnds)
    ensures Bucketed(out + [c], es + [e], Pushed(byEnds, e.ends, c))
  {
    forall k
      ensures IsBucket(out + [c], es + [e], k, BucketOf(Pushed(byEnds, e.ends, c), k))
    {
      BucketAfterPush(out, es, k, BucketOf(byEnds, k), c, e);
    }
  }

  /** The position in a bucket of its first edge with the given port, or the bucket's length. */
  method FindPort(bucket: seq<Cell>, port: Option<int>) returns (j: nat)
    ensures j <= |bucket|
    ensures forall l | 0 <= l < j :: bucket[l].edge.port != port
    ensures j < |bucket| ==> bucket[j].edge.port == port
  {
    j := 0;
    while j < |bucket| && bucket[j].edge.port != port
      invariant j <= |bucket|
      invariant forall l | 0 <= l < j :: bucket[l].edge.port != port
    {
      j := j + 1;
    }
  }

  method Group(edges: seq<Edge>) returns (out: seq<Cell>, byEnds: map<Ends, seq<Cell>>)
    ensures forall j | 0 <= j < |out| :: fresh(out[j])
    ensures Holds(out, edges) && Bucketed(out, edges, byEnds)
  {
    out, byEnds := [], map[];
    for i := 0 to |edges|
      invariant forall j | 0 <= j < |out| :: fresh(out[j])
      invariant Holds(out, edges[..i]) && Bucketed(out, edges[..i], byEnds)
    {
      var d := new Cell(edges[i]);
      assert edges[..i + 1] == edges[..i] + [edges[i]];
      BucketedAfterPush(out, edges[..i], byEnds, d, edges[i]);
      out := out + [d];
      byEnds := Pushed(byEnds, edges[i].ends, d);
    }
    assert edges[..|edges|] == edges;
  }

  /** Where the bucket search puts an observed edge is where the search of the whole list puts it. */
  method Locate(out: seq<Cell>, ghost es: seq<Edge>, byEnds: map<Ends, seq<Cell>>, o: Edge) returns (same: Cell?)
    requires Holds(out, es) && Bucketed(out, es, byEnds)
    ensures same == null <==> Landing(es, o) == |es|
    ensures same != null ==> same == out[Landing(es, o)]
  {
    var bucket := BucketOf(byEnds, o.ends);
    ghost var ps := Positions(es, o.ends);
    assert IsBucket(out, es, o.ends, bucket);
    var j := FindPort(bucket, o.port);
    assert forall l | 0 <= l < |bucket| :: bucket[l].edge == es[ps[l]];
    BucketFindsFirst(es, o.ends, o.port, j);
    if j < |bucket| {
      return bucket[j];
    }
    j := FindPort(bucket, None);
    BucketFindsFirst(es, o.ends, None, j);
    if j < |bucket| {
      return bucket[j];
    }
    same := null;
  }

  /** Puts one observed edge into the edge it stands for, in place, or adds it. */
  method LayInPlace(out: seq<Cell>, ghost es: seq<Edge>, byEnds: map<Ends, seq<Cell>>, seen: Edge)
    returns (out': seq<Cell>, byEnds': map<Ends, seq<Cell>>)
    requires Holds(out, es) && Bucketed(out, es, byEnds)
    modifies out
    ensures forall j | 0 <= j < |out'| :: fresh(out'[j]) || (j < |out| && out'[j] == out[j])
    ensures Holds(out', Lay(es, seen)) && Bucketed(out', Lay(es, seen), byEnds')
  {
    out', byEnds' := out, byEnds;
    var same := Locate(out, es, byEnds, seen);
    if same == null {
      var d := new Cell(seen);
      BucketedAfterPush(out, es, byEnds, d, seen);
      out' := out + [d];
      byEnds' := Pushed(byEnds, seen.ends, d);
    } else {
      ghost var at := Landing(es, seen);
      BucketedAfterUpdate(out, es, byEnds, at, Merge(es[at], seen));
      same.edge := Merge(same.edge, seen);
    }
  }

  method Edges(out: seq<Cell>) returns (edges: seq<Edge>)
    ensures |edges| == |out| && forall i | 0 <= i < |out| :: edges[i] == out[i].edge
  {
    edges := [];
    for i := 0 to |out|
      invariant |edges| == i && forall j | 0 <= j < i :: edges[j] == out[j].edge
    {
      edges := edges + [out[i].edge];
    }
  }

  /** The edges are those after the first i observed ones. */
  ghost predicate Laid(b: Base, ids: set<string>, remap: map<string, string>, os: seq<Edge>, i: nat, es: seq<Edge>) {
    i <= |os| && es == Overlay(b.edges, Relevant(b, ids, remap, os[..i]))
  }

  /** The next observed edge is laid over them if both its ends exist. */
  lemma LaidNext(b: Base, ids: set<string>, remap: map<string, string>, os: seq<Edge>, i: nat, es: seq<Edge>)
    requires i < |os| && Laid(b, ids, remap, os, i, es)
    ensures var seen := RenamedEdge(remap, os[i]);
            Laid(b, ids, remap, os, i + 1, if BothEndsExist(b, ids, seen.ends) then Lay(es, seen) else es)
  {
    assert os[..i + 1][..i] == os[..i];
    var done, seen := Relevant(b, ids, remap, os[..i]), RenamedEdge(remap, os[i]);
    assert (done + [seen])[..|done|] == done;
  }

  lemma AllLaid(b: Base, s: Seen, es: seq<Edge>)
    requires s.edges != []
    requires var n := NameAll(b.externals, s.externals); Laid(b, Ids(n.externals), n.remap, s.edges, |s.edges|, es)
    ensures Overlaid(b, s) == Picture(es, NameAll(b.externals, s.externals).externals)
  {
    assert s.edges[..|s.edges|] == s.edges;
  }

  method WithObserved(b: Base, s: Seen) returns (edges: seq<Edge>, externals: seq<Endpoint>)
    ensures Picture(edges, externals) == Overlaid(b, s)
  {
    if s.edges == [] {
      return b.edges, b.externals;
    }
    var remap;
    externals, remap := NameExternals(b.externals, s.externals);
    var ids := Ids(externals);
    var out, byEnds := Group(b.edges);
    ghost var now := b.edges;
    for i := 0 to |s.edges|
      invariant forall j | 0 <= j < |out| :: fresh(out[j])
      invariant Laid(b, ids, remap, s.edges, i, now)
      invariant Holds(out, now) && Bucketed(out, now, byEnds)
    {
      LaidNext(b, ids, remap, s.edges, i, now);
      var seen := RenamedEdge(remap, s.edges[i]);
      if BothEndsExist(b, ids, seen.ends) {
        out, byEnds := LayInPlace(out, now, byEnds, seen);
        now := Lay(now, seen);
      }
    }
    edges := Edges(out);
    assert edges == now;
    AllLaid(b, s, now);
  }
}
