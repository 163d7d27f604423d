/**
 What the overlay of observed edges means, edge by edge: what a merge tells, when an edge is added at
 all, that no two edges are twins, and which endpoints are known under another name.
 */
module ObservedMeans {
  import opened Options
  import opened Observed
  import opened ObservedLaws
  import opened Thinning

  /* ---------- one merge ---------- */

  predicate NotAfter(a: Option<int>, b: Option<int>) {
    b.Some? ==> a.Some? && a.value <= b.value
  }

  /** A merged edge is the declared one with what was seen: both confirm it, and the newest figures count. */
  lemma MergeTellsBoth(d: Edge, o: Edge)
    ensures var m := Merge(d, o);
            && m.id == d.id && m.ends == d.ends
            && (forall s :: s in m.sources <==> s in d.sources || s == "observed")
            && Rank(d.confidence) <= Rank(m.confidence) && Rank(o.confidence) <= Rank(m.confidence)
            && (m.confidence == d.confidence || m.confidence == o.confidence)
            && m.port == (if d.port.Some? then d.port else o.port)
            && NotAfter(m.firstSeen, d.firstSeen) && NotAfter(m.firstSeen, o.firstSeen)
            && (m.firstSeen == d.firstSeen || m.firstSeen == o.firstSeen)
            && m.lastSeen == o.lastSeen && m.traffic == o.traffic && m.stats.Some?
            && forall k ::
                 (k in m.stats.value <==> k in Stats(d) || k in Stats(o))
                 && (k in m.stats.value ==> m.stats.value[k] == if k in Stats(o) then Stats(o)[k] else Stats(d)[k])
  {
    UniqueKeeps(d.sources + [OBSERVED]);
  }

  /* ---------- merged or added ---------- */

  /** The edge could be the observed one: same ends, and the same port or none. */
  predicate CouldBe(e: Edge, o: Edge) {
    e.ends == o.ends && (e.port == o.port || e.port.None?)
  }

  /** Where it lands is the first with its port, else the first without one, else nowhere. */
  lemma LandingIs(es: seq<Edge>, o: Edge)
    ensures var i := Landing(es, o);
            if i == |es| then forall j | 0 <= j < |es| :: !CouldBe(es[j], o)
            else
              && CouldBe(es[i], o)
              && (forall j | 0 <= j < i && CouldBe(es[j], o) :: es[i].port == o.port && es[j].port != o.port)
              && (es[i].port != o.port ==> forall j | 0 <= j < |es| && es[j].ends == o.ends :: es[j].port != o.port)
  {
    var exact, bare := FirstFrom(es, 0, o.ends, o.port), FirstFrom(es, 0, o.ends, None);
    forall j | 0 <= j < |es| && es[j].ends == o.ends
      ensures j < exact ==> es[j].port != o.port
      ensures j < bare ==> es[j].port.Some?
    {
      assert At(es, j, o.ends, o.port) <==> es[j].port == o.port;
      assert At(es, j, o.ends, None) <==> es[j].port.None?;
    }
  }

  /** An edge is added exactly when none could be it; else one that could is merged in its place. */
  lemma AddedExactlyWhen(es: seq<Edge>, o: Edge)
    ensures Lay(es, o) == es + [o] <==> forall e | e in es :: !CouldBe(e, o)
    ensures Lay(es, o) != es + [o] ==>
              exists i | 0 <= i < |es| :: CouldBe(es[i], o) && Lay(es, o) == es[i := Merge(es[i], o)]
  {
    LandingIs(es, o);
    var i := Landing(es, o);
    if i < |es| {
      assert es[i] in es && |Lay(es, o)| == |es|;
    }
  }

  /** No two edges have the same ends and the same port. */
  predicate NoTwins(es: seq<Edge>) {
    forall i, j | 0 <= i < j < |es| :: es[i].ends != es[j].ends || es[i].port != es[j].port
  }

  lemma LayMakesNoTwins(es: seq<Edge>, o: Edge)
    requires NoTwins(es)
    ensures NoTwins(Lay(es, o))
  {
    var i, after := Landing(es, o), Lay(es, o);
    var exact := FirstFrom(es, 0, o.ends, o.port);
    forall j | 0 <= j < |es| && j != i
      ensures i < |es| && after[i].ends == es[j].ends ==> after[i].port != es[j].port
      ensures i == |es| && o.ends == es[j].ends ==> o.port != es[j].port
    {
      if exact == |es| {
        assert !At(es, j, o.ends, o.port);
      }
      if i < |es| {
        assert after[i].ends == es[i].ends;
        assert es[j].ends == es[i].ends ==> es[j].port != es[i].port;
      }
    }
  }

  /** Laying observations, however often one edge is observed, makes no twins. */
  lemma {:induction false} OverlayMakesNoTwins(es: seq<Edge>, os: seq<Edge>)
    requires NoTwins(es)
    ensures NoTwins(Overlay(es, os))
  {
    if os != [] {
      OverlayMakesNoTwins(es, os[..|os| - 1]);
      LayMakesNoTwins(Overlay(es, os[..|os| - 1]), os[|os| - 1]);
    }
  }

  /* ---------- which observations count ---------- */

  predicate EndThere(b: Base, externals: seq<Endpoint>, kind: EndKind, id: string) {
    match kind
    case ServiceEnd => id in b.services
    case DeviceEnd => id in b.devices
    case ExternalEnd => exists e | e in externals :: e.id == id
  }

  /** The name an end has here. */
  function NameHere(remap: map<string, string>, kind: EndKind, id: string): string {
    if kind == ExternalEnd && id in remap then remap[id] else id
  }

  /** Both ends are there, under the names they have here. */
  predicate Counts(b: Base, n: Named, o: Edge) {
    && EndThere(b, n.externals, o.ends.fromKind, NameHere(n.remap, o.ends.fromKind, o.ends.from))
    && EndThere(b, n.externals, o.ends.toKind, NameHere(n.remap, o.ends.toKind, o.ends.to))
  }

  function CountsTest(b: Base, n: Named): Edge -> bool {
    (o: Edge) => Counts(b, n, o)
  }

  /** The observation, with the names its ends have here. */
  function NamedTest(n: Named): (Edge, Edge) -> bool {
    (o: Edge, e: Edge) =>
      e == o.(ends := o.ends.(from := NameHere(n.remap, o.ends.fromKind, o.ends.from),
                              to := NameHere(n.remap, o.ends.toKind, o.ends.to)))
  }

  lemma {:induction false} RelevantAre(b: Base, n: Named, os: seq<Edge>)
    ensures ThinsTo(os, Relevant(b, Ids(n.externals), n.remap, os), CountsTest(b, n), NamedTest(n))
  {
    if os != [] {
      var k := |os| - 1;
      var ids := Ids(n.externals);
      RelevantAre(b, n, os[..k]);
      ThinsToMore(os, Relevant(b, ids, n.remap, os[..k]), Relevant(b, ids, n.remap, os), CountsTest(b, n),
                  NamedTest(n));
    }
  }

  /** The picture is the base with the observations that count laid over it, or the base when nothing was seen. */
  lemma PictureIs(b: Base, s: Seen) returns (os: seq<Edge>)
    ensures s.edges == [] ==> Overlaid(b, s) == Picture(b.edges, b.externals)
    ensures var n := NameAll(b.externals, s.externals);
            && ThinsTo(s.edges, os, CountsTest(b, n), NamedTest(n))
            && (s.edges != [] ==> Overlaid(b, s) == Picture(Overlay(b.edges, os), n.externals))
  {
    var n := NameAll(b.externals, s.externals);
    os := Relevant(b, Ids(n.externals), n.remap, s.edges);
    RelevantAre(b, n, s.edges);
  }

  /* ---------- names of outside addresses ---------- */

  function PortOf(e: Endpoint): int {
    if e.port.Some? then e.port.value else 0
  }

  /** The endpoint stands for this address: the same host, and the same port or none. */
  predicate StandsFor(x: Endpoint, e: Endpoint) {
    x.host == e.host && (PortOf(x) == PortOf(e) || PortOf(x) == 0)
  }

  lemma {:induction false} HostMapAre(es: seq<Endpoint>, k: HostPort)
    ensures k in HostMap(es) <==> exists x | x in es :: KeyOf(x) == k
    ensures k in HostMap(es) ==> exists x | x in es :: KeyOf(x) == k && x.id == HostMap(es)[k]
  {
    if es != [] {
      var last := es[|es| - 1];
      HostMapAre(es[..|es| - 1], k);
      assert es == es[..|es| - 1] + [last];
      if KeyOf(last) == k {
        assert last in es && HostMap(es)[k] == last.id;
      }
    }
  }

  lemma OwnIs(es: seq<Endpoint>, e: Endpoint)
    requires NamedIds(es)
    ensures Own(HostMap(es), e).Some? <==> exists x | x in es :: StandsFor(x, e)
    ensures Own(HostMap(es), e).Some? ==>
              exists x | x in es :: StandsFor(x, e) && x.id == Own(HostMap(es), e).value
                && (PortOf(x) != PortOf(e) ==> forall y | y in es && y.host == e.host :: PortOf(y) != PortOf(e))
  {
    HostMapAre(es, KeyOf(e));
    HostMapAre(es, (e.host, 0));
    assert forall x :: StandsFor(x, e) <==> KeyOf(x) == KeyOf(e) || KeyOf(x) == (e.host, 0);
  }

  /**
   An observed endpoint is new exactly when none that is there stands for its address; else it goes by
   the name of one that does, of one with its port if there is one.
   */
  lemma NamedExactlyWhen(base: seq<Endpoint>, seen: seq<Endpoint>, n: nat)
    requires n < |seen| && NamedIds(NameAll(base, seen[..n]).externals)
    ensures var was, now, e := NameAll(base, seen[..n]), NameAll(base, seen[..n + 1]), seen[n];
            if exists x | x in was.externals :: StandsFor(x, e) then
              && now.externals == was.externals && now.remap.Keys == was.remap.Keys + {e.id}
              && (forall id | id in was.remap && id != e.id :: now.remap[id] == was.remap[id])
              && exists x | x in was.externals :: StandsFor(x, e) && now.remap[e.id] == x.id
                   && (PortOf(x) != PortOf(e) ==>
                         forall y | y in was.externals && y.host == e.host :: PortOf(y) != PortOf(e))
            else now.externals == was.externals + [e] && now.remap == was.remap
  {
    assert seen[..n + 1][..n] == seen[..n];
    HostMapFollows(base, seen[..n]);
    OwnIs(NameAll(base, seen[..n]).externals, seen[n]);
  }
}
