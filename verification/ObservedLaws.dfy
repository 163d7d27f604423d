/**
 What the overlay keeps. Declared edges stay where they are and only gain; every observed edge
 whose ends exist is represented; nothing added dangles; and laying the same observations over the
 result changes nothing, when every observation carries a port, numbers and its own source.
 */
module ObservedLaws {
  import opened Options
  import opened Observed

  predicate Within(a: seq<string>, b: seq<string>) {
    forall x | x in a :: x in b
  }

  /** `e` is `d` with at least as much known about it. */
  predicate Grows(d: Edge, e: Edge) {
    && e.id == d.id && e.ends == d.ends
    && Within(d.sources, e.sources)
    && Rank(d.confidence) <= Rank(e.confidence)
    && (d.port.Some? ==> e.port == d.port)
    && (d.firstSeen.Some? ==> e.firstSeen.Some? && e.firstSeen.value <= d.firstSeen.value)
  }

  ghost predicate AllGrow(es: seq<Edge>, fs: seq<Edge>) {
    |es| <= |fs| && forall i | 0 <= i < |es| :: Grows(es[i], fs[i])
  }

  lemma {:induction false} UniqueKeeps(s: seq<string>)
    ensures Within(s, Unique(s)) && Within(Unique(s), s)
    ensures |Unique(s)| <= |s|
  {
    if s != [] {
      UniqueKeeps(s[..|s| - 1]);
      assert s == s[..|s| - 1] + [s[|s| - 1]];
    }
  }

  lemma MergeGrows(d: Edge, o: Edge)
    ensures Grows(d, Merge(d, o)) && OBSERVED in Merge(d, o).sources
  {
    var s := d.sources + [OBSERVED];
    UniqueKeeps(s);
    assert Within(d.sources, s) && s[|d.sources|] in s;
  }

  lemma LayGrows(es: seq<Edge>, o: Edge)
    ensures AllGrow(es, Lay(es, o))
  {
    if Landing(es, o) < |es| {
      MergeGrows(es[Landing(es, o)], o);
    }
  }

  lemma GrowsTransitive(a: Edge, b: Edge, c: Edge)
    requires Grows(a, b) && Grows(b, c)
    ensures Grows(a, c)
  {
  }

  /** Conservation: every edge keeps its place, its ends and its port, its sources only grow, its confidence
      never drops. */
  lemma {:induction false} OverlayGrows(es: seq<Edge>, os: seq<Edge>)
    ensures AllGrow(es, Overlay(es, os))
  {
    if os != [] {
      var before := Overlay(es, os[..|os| - 1]);
      OverlayGrows(es, os[..|os| - 1]);
      LayGrows(before, os[|os| - 1]);
      forall i | 0 <= i < |es|
        ensures Grows(es[i], Overlay(es, os)[i])
      {
        GrowsTransitive(es[i], before[i], Overlay(es, os)[i]);
      }
    }
  }

  /** `e` carries what `o` observed. */
  predicate Represents(e: Edge, o: Edge) {
    && e.ends == o.ends
    && (o.port.Some? ==> e.port == o.port)
    && Rank(o.confidence) <= Rank(e.confidence)
    && (OBSERVED in o.sources ==> OBSERVED in e.sources)
  }

  lemma LayRepresents(es: seq<Edge>, o: Edge)
    ensures Represents(Lay(es, o)[Landing(es, o)], o)
  {
    var i := Landing(es, o);
    if i < |es| {
      MergeGrows(es[i], o);
    }
  }

  lemma GrowsRepresents(o: Edge, d: Edge, e: Edge)
    requires Represents(d, o) && Grows(d, e)
    ensures Represents(e, o)
  {
  }

  /** Every observed edge that counts is in the result, merged or added. */
  lemma {:induction false} OverlayRepresents(es: seq<Edge>, os: seq<Edge>, n: nat) returns (i: nat)
    requires n < |os|
    ensures i < |Overlay(es, os)| && Represents(Overlay(es, os)[i], os[n])
  {
    var k := |os| - 1;
    var before := Overlay(es, os[..k]);
    if n == k {
      i := Landing(before, os[k]);
      LayRepresents(before, os[k]);
    } else {
      i := OverlayRepresents(es, os[..k], n);
      LayGrows(before, os[k]);
      GrowsRepresents(os[n], before[i], Overlay(es, os)[i]);
    }
  }

  lemma {:induction false} RelevantAt(b: Base, ids: set<string>, remap: map<string, string>, os: seq<Edge>, o: Edge)
    requires o in os && BothEndsExist(b, ids, RenamedEnds(remap, o.ends))
    ensures RenamedEdge(remap, o) in Relevant(b, ids, remap, os)
  {
    var k := |os| - 1;
    if o != os[k] {
      assert os == os[..k] + [os[k]];
      RelevantAt(b, ids, remap, os[..k], o);
    }
  }

  /** Every observed edge both of whose ends, under their own names here, exist is in the picture, merged or added. */
  lemma EveryObservedIsRepresented(b: Base, s: Seen, o: Edge) returns (i: nat)
    requires o in s.edges
    requires BothEndsExist(b, Ids(Overlaid(b, s).externals),
                           RenamedEnds(NameAll(b.externals, s.externals).remap, o.ends))
    ensures i < |Overlaid(b, s).edges|
    ensures Represents(Overlaid(b, s).edges[i],
                       RenamedEdge(NameAll(b.externals, s.externals).remap, o))
  {
    var n := NameAll(b.externals, s.externals);
    var os := Relevant(b, Ids(n.externals), n.remap, s.edges);
    RelevantAt(b, Ids(n.externals), n.remap, s.edges, o);
    var j :| 0 <= j < |os| && os[j] == RenamedEdge(n.remap, o);
    i := OverlayRepresents(b.edges, os, j);
  }

  /** What is added has the ends of an observed edge that counts. */
  lemma {:induction false} AddedComesFromSeen(es: seq<Edge>, os: seq<Edge>, i: nat)
    requires |es| <= i < |Overlay(es, os)|
    ensures exists n :: 0 <= n < |os| && Overlay(es, os)[i].ends == os[n].ends
  {
    var k := |os| - 1;
    var before := Overlay(es, os[..k]);
    if i < |before| {
      AddedComesFromSeen(es, os[..k], i);
      LayGrows(before, os[k]);
      var n :| 0 <= n < k && before[i].ends == os[..k][n].ends;
      assert Overlay(es, os)[i].ends == os[n].ends;
    } else {
      assert Overlay(es, os)[i].ends == os[k].ends;
    }
  }

  lemma {:induction false} RelevantExist(b: Base, ids: set<string>, remap: map<string, string>, os: seq<Edge>)
    ensures forall o | o in Relevant(b, ids, remap, os) :: BothEndsExist(b, ids, o.ends)
  {
    if os != [] {
      RelevantExist(b, ids, remap, os[..|os| - 1]);
    }
  }

  /** No edge the overlay adds dangles: both of its ends are in the model or among the named externals. */
  lemma AddedNeverDangle(b: Base, s: Seen, i: nat)
    requires |b.edges| <= i < |Overlaid(b, s).edges|
    ensures BothEndsExist(b, Ids(Overlaid(b, s).externals), Overlaid(b, s).edges[i].ends)
  {
    var n := NameAll(b.externals, s.externals);
    var os := Relevant(b, Ids(n.externals), n.remap, s.edges);
    AddedComesFromSeen(b.edges, os, i);
    RelevantExist(b, Ids(n.externals), n.remap, s.edges);
    var m :| 0 <= m < |os| && Overlaid(b, s).edges[i].ends == os[m].ends;
    assert os[m] in os;
  }

  /* ---------- laying the same observations again ---------- */

  /** An observation that leaves nothing open: it has a port, numbers, and its own source once. */
  predicate Settled(o: Edge) {
    o.port.Some? && o.stats.Some? && OBSERVED in o.sources && Unique(o.sources) == o.sources
  }

  predicate AllSettled(os: seq<Edge>) {
    forall o | o in os :: Settled(o)
  }

  /** What merging does not overwrite. */
  predicate SameCore(d: Edge, e: Edge) {
    d.(lastSeen := None, stats := None, traffic := e.traffic) == e.(lastSeen := None, stats := None)
  }

  /** Merging `o` into `d` again would leave its core alone. */
  predicate Absorbs(d: Edge, o: Edge) {
    && d.ends == o.ends && d.port == o.port && d.port.Some?
    && OBSERVED in d.sources && Unique(d.sources) == d.sources
    && Rank(o.confidence) <= Rank(d.confidence)
    && Earliest(d.firstSeen, o.firstSeen) == d.firstSeen
  }

  lemma UniqueSnoc(s: seq<string>, x: string)
    ensures Unique(s + [x]) == if x in Unique(s) then Unique(s) else Unique(s) + [x]
  {
    assert (s + [x])[..|s|] == s;
  }

  lemma {:induction false} UniqueTwice(s: seq<string>)
    ensures Unique(Unique(s)) == Unique(s)
  {
    if s != [] {
      UniqueTwice(s[..|s| - 1]);
      UniqueSnoc(Unique(s[..|s| - 1]), s[|s| - 1]);
    }
  }

  lemma MergeAbsorbs(d: Edge, o: Edge)
    requires o.port.Some? && d.ends == o.ends && (d.port.None? || d.port == o.port)
    ensures Absorbs(Merge(d, o), o)
  {
    MergeGrows(d, o);
    UniqueTwice(d.sources + [OBSERVED]);
  }

  lemma AbsorbedKeepsCore(d: Edge, o: Edge)
    requires Absorbs(d, o)
    ensures SameCore(Merge(d, o), d)
  {
    UniqueSnoc(d.sources, OBSERVED);
  }

  lemma MergeKeepsAbsorbing(d: Edge, o: Edge, o': Edge)
    requires Absorbs(d, o)
    ensures Absorbs(Merge(d, o'), o)
  {
    UniqueSnoc(d.sources, OBSERVED);
  }

  lemma SameCoreAbsorbs(d: Edge, e: Edge, o: Edge)
    requires SameCore(d, e) && Absorbs(e, o)
    ensures Absorbs(d, o)
  {
  }

  lemma SettledAbsorbsItself(o: Edge)
    requires Settled(o)
    ensures Absorbs(o, o)
  {
  }

  /** Where an observed edge went, it would go again, and nothing laid later changes that. */
  predicate Settles(es: seq<Edge>, o: Edge, i: nat) {
    i < |es| && FirstFrom(es, 0, o.ends, o.port) == i && Absorbs(es[i], o)
  }

  lemma FirstIs(es: seq<Edge>, ends: Ends, port: Option<int>, i: nat)
    requires i < |es| && At(es, i, ends, port)
    requires forall j | 0 <= j < i :: !At(es, j, ends, port)
    ensures FirstFrom(es, 0, ends, port) == i
  {
  }

  lemma LaySettles(es: seq<Edge>, o: Edge)
    requires Settled(o)
    ensures Settles(Lay(es, o), o, Landing(es, o))
  {
    var i := Landing(es, o);
    var after := Lay(es, o);
    if i < |es| {
      MergeAbsorbs(es[i], o);
    } else {
      SettledAbsorbsItself(o);
    }
    var exact := FirstFrom(es, 0, o.ends, o.port);
    forall j | 0 <= j < i
      ensures !At(after, j, o.ends, o.port)
    {
      assert after[j] == es[j];
      assert !At(es, j, o.ends, o.port);
    }
    FirstIs(after, o.ends, o.port, i);
  }

  lemma LayKeepsSettled(es: seq<Edge>, o: Edge, i: nat, o': Edge)
    requires Settles(es, o, i) && Settled(o) && Settled(o')
    ensures Settles(Lay(es, o'), o, i)
  {
    var u := Landing(es, o');
    var after := Lay(es, o');
    if u == i {
      MergeKeepsAbsorbing(es[i], o, o');
    }
    forall j | 0 <= j < i
      ensures !At(after, j, o.ends, o.port)
    {
      assert !At(es, j, o.ends, o.port);
      if j == u && es[u].port.None? {
        assert FirstFrom(es, 0, o'.ends, o'.port) == |es|;
        assert !At(es, i, o'.ends, o'.port);
      }
    }
    FirstIs(after, o.ends, o.port, i);
  }

  /** Settles, after one more settled observation than before. */
  lemma SettlesOneMore(es: seq<Edge>, os: seq<Edge>, o: Edge, i: nat)
    requires os != [] && Settled(o) && Settled(os[|os| - 1]) && Settles(Overlay(es, os[..|os| - 1]), o, i)
    ensures Settles(Overlay(es, os), o, i)
  {
    LayKeepsSettled(Overlay(es, os[..|os| - 1]), o, i, os[|os| - 1]);
  }

  lemma {:induction false} OverlaySettles(es: seq<Edge>, os: seq<Edge>, n: nat)
    requires n < |os| && AllSettled(os)
    ensures Settles(Overlay(es, os), os[n], Landing(Overlay(es, os[..n]), os[n]))
  {
    var k := |os| - 1;
    if n == k {
      LaySettles(Overlay(es, os[..k]), os[k]);
    } else {
      assert os[..k][..n] == os[..n];
      OverlaySettles(es, os[..k], n);
      SettlesOneMore(es, os, os[n], Landing(Overlay(es, os[..n]), os[n]));
    }
  }

  /* ---------- what a pass writes last ---------- */

  datatype Written = Nothing | Wrote(lastSeen: Option<int>, traffic: Traffic, stats: map<string, real>)

  function WrittenStats(w: Written): map<string, real> {
    if w.Wrote? then w.stats else map[]
  }

  /** What laying `os` writes into position `i` over and over: the last of some, the union of the numbers. */
  function Writes(es: seq<Edge>, os: seq<Edge>, i: nat): Written {
    if os == [] then Nothing
    else
      var k := |os| - 1;
      var w := Writes(es, os[..k], i);
      if Landing(Overlay(es, os[..k]), os[k]) == i
      then Wrote(os[k].lastSeen, os[k].traffic, WrittenStats(w) + Stats(os[k]))
      else w
  }

  predicate Shows(e: Edge, before: map<string, real>, w: Written) {
    w.Wrote? ==> e.lastSeen == w.lastSeen && e.traffic == w.traffic && e.stats == Some(before + w.stats)
  }

  function StatsAt(es: seq<Edge>, i: nat): map<string, real> {
    if i < |es| then Stats(es[i]) else map[]
  }

  lemma LayShows(before: seq<Edge>, o: Edge, i: nat, base: map<string, real>, w: Written)
    requires i < |before| && o.stats.Some?
    requires Shows(before[i], base, w) && (w.Nothing? ==> Stats(before[i]) == base)
    ensures Shows(Lay(before, o)[i], base,
                  if Landing(before, o) == i then Wrote(o.lastSeen, o.traffic, WrittenStats(w) + Stats(o)) else w)
    ensures Landing(before, o) != i ==> Lay(before, o)[i] == before[i]
  {
    if Landing(before, o) == i {
      assert base + (WrittenStats(w) + Stats(o)) == (base + WrittenStats(w)) + Stats(o);
      assert base + map[] == base;
    }
  }

  lemma AddedShows(before: seq<Edge>, o: Edge)
    requires o.stats.Some? && Landing(before, o) == |before|
    ensures Shows(Lay(before, o)[|before|], map[], Wrote(o.lastSeen, o.traffic, map[] + Stats(o)))
  {
    assert map[] + (map[] + Stats(o)) == Stats(o);
  }

  /** After a pass every edge shows what was written last, and an edge nothing was written to is as before. */
  lemma {:induction false} OverlayShows(es: seq<Edge>, os: seq<Edge>, i: nat)
    requires AllSettled(os) && i < |Overlay(es, os)|
    ensures Shows(Overlay(es, os)[i], StatsAt(es, i), Writes(es, os, i))
    ensures Writes(es, os, i).Nothing? ==> i < |es| && Overlay(es, os)[i] == es[i]
  {
    if os != [] {
      var k := |os| - 1;
      var before, o := Overlay(es, os[..k]), os[k];
      assert Settled(o);
      OverlayGrows(es, os[..k]);
      if i < |before| {
        OverlayShows(es, os[..k], i);
        LayShows(before, o, i, StatsAt(es, i), Writes(es, os[..k], i));
      } else {
        NothingWrittenYet(es, os[..k], i);
        AddedShows(before, o);
      }
    }
  }

  lemma {:induction false} NothingWrittenYet(es: seq<Edge>, os: seq<Edge>, i: nat)
    requires |Overlay(es, os)| <= i
    ensures Writes(es, os, i) == Nothing
  {
    if os != [] {
      NothingWrittenYet(es, os[..|os| - 1], i);
    }
  }

  /* ---------- the second pass ---------- */

  /** Through the second pass nothing is added, no core moves, and every edge lands where it landed. */
  lemma {:induction false} SecondPassRetraces(es: seq<Edge>, os: seq<Edge>, n: nat)
    requires AllSettled(os) && n <= |os|
    ensures var s, a := Overlay(es, os), Overlay(Overlay(es, os), os[..n]);
            && |a| == |s| && (forall i | 0 <= i < |s| :: SameCore(a[i], s[i]))
            && forall i: nat :: Writes(s, os[..n], i) == Writes(es, os[..n], i)
  {
    var s := Overlay(es, os);
    if n > 0 {
      var o := os[n - 1];
      var a := Overlay(s, os[..n - 1]);
      assert os[..n][..n - 1] == os[..n - 1];
      SecondPassRetraces(es, os, n - 1);
      OverlaySettles(es, os, n - 1);
      var at := Landing(Overlay(es, os[..n - 1]), o);
      SameLanding(s, a, o, at);
      SameCoreAbsorbs(a[at], s[at], o);
      AbsorbedKeepsCore(a[at], o);
    }
  }

  lemma SameLanding(s: seq<Edge>, a: seq<Edge>, o: Edge, at: nat)
    requires |a| == |s| && forall i | 0 <= i < |s| :: SameCore(a[i], s[i])
    requires Settles(s, o, at)
    ensures Landing(a, o) == at
  {
    forall j | 0 <= j < |s|
      ensures At(a, j, o.ends, o.port) <==> At(s, j, o.ends, o.port)
    {
      assert SameCore(a[j], s[j]);
    }
    FirstIs(a, o.ends, o.port, at);
  }

  /** Overlaying the same observations again changes nothing. */
  lemma OverlayIsStable(es: seq<Edge>, os: seq<Edge>)
    requires AllSettled(os)
    ensures Overlay(Overlay(es, os), os) == Overlay(es, os)
  {
    var s := Overlay(es, os);
    var a := Overlay(s, os);
    assert os[..|os|] == os;
    SecondPassRetraces(es, os, |os|);
    forall i | 0 <= i < |s|
      ensures a[i] == s[i]
    {
      OverlayShows(es, os, i);
      OverlayShows(s, os, i);
      var w := Writes(es, os, i);
      assert SameCore(a[i], s[i]);
      if w.Wrote? {
        assert (StatsAt(es, i) + w.stats) + w.stats == StatsAt(es, i) + w.stats;
      }
    }
  }

  lemma OverlayOne(es: seq<Edge>, o: Edge)
    ensures Overlay(es, [o]) == Lay(es, o)
  {
    assert [o][..0] == [];
  }

  lemma OverlayTwo(es: seq<Edge>, o: Edge, p: Edge)
    ensures Overlay(es, [o, p]) == Lay(Lay(es, o), p)
  {
    assert [o, p][..1] == [o];
    OverlayOne(es, o);
  }

  function WithPort(o: Edge): Edge {
    o.(port := Some(80))
  }

  lemma FirstFills(o: Edge)
    requires o.port.None?
    ensures Lay(Lay([], o), WithPort(o)) == [Merge(o, WithPort(o))]
  {
    assert Lay([], o) == [o];
    assert Landing([o], WithPort(o)) == 0;
  }

  lemma SecondMisses(e: Edge, o: Edge)
    requires o.port.None? && e.port.Some? && e.ends == o.ends
    ensures |Lay(Lay([e], o), WithPort(o))| >= 2
  {
    assert Landing([e], o) == 1;
    assert Lay([e], o) == [e, o];
  }

  /** A portless observation no longer finds its edge once another has filled the port in. */
  lemma PortlessMoves(o: Edge)
    requires o.port.None?
    ensures Overlay(Overlay([], [o, WithPort(o)]), [o, WithPort(o)]) != Overlay([], [o, WithPort(o)])
  {
    var e := Merge(o, WithPort(o));
    OverlayTwo([], o, WithPort(o));
    FirstFills(o);
    OverlayTwo([e], o, WithPort(o));
    SecondMisses(e, o);
  }

  /** An observation without numbers, or with other than distinct sources that name "observed", is rewritten. */
  lemma UnfinishedMoves(o: Edge)
    requires o.stats.None? || OBSERVED !in o.sources || Unique(o.sources) != o.sources
    ensures Overlay(Overlay([], [o]), [o]) != Overlay([], [o])
  {
    OverlayOne([], o);
    assert Lay([], o) == [o];
    OverlayOne([o], o);
    assert Landing([o], o) == 0;
    UniqueSnoc(o.sources, OBSERVED);
    assert Lay([o], o)[0] == Merge(o, o) != o;
  }

  ghost predicate StaysPut(es: seq<Edge>, os: seq<Edge>) {
    Overlay(Overlay(es, os), os) == Overlay(es, os)
  }

  /** The others in a list of observations are settled; only `o` is in question. */
  predicate Company(os: seq<Edge>, o: Edge) {
    o in os && forall p | p in os :: p == o || Settled(p)
  }

  /** An observation leaves every overlay it is part of stable exactly when it is settled. */
  lemma StaysPutExactlyWhen(o: Edge)
    ensures (forall es, os | Company(os, o) :: StaysPut(es, os)) <==> Settled(o)
  {
    if Settled(o) {
      forall es, os | Company(os, o)
        ensures StaysPut(es, os)
      {
        OverlayIsStable(es, os);
      }
    } else if o.stats.None? || OBSERVED !in o.sources || Unique(o.sources) != o.sources {
      UnfinishedMoves(o);
      assert Company([o], o) && !StaysPut([], [o]);
    } else {
      PortlessMoves(o);
      assert Company([o, WithPort(o)], o) && !StaysPut([], [o, WithPort(o)]);
    }
  }

  /* ---------- outside addresses, named again ---------- */

  predicate DistinctIds(es: seq<Endpoint>) {
    forall i, j | 0 <= i < j < |es| :: es[i].id != es[j].id
  }

  predicate NamedIds(es: seq<Endpoint>) {
    forall e | e in es :: e.id != ""
  }

  lemma {:induction false} HostMapFollows(base: seq<Endpoint>, seen: seq<Endpoint>)
    ensures NameAll(base, seen).byHost == HostMap(NameAll(base, seen).externals)
  {
    if seen != [] {
      var k := |seen| - 1;
      HostMapFollows(base, seen[..k]);
      var n := NameAll(base, seen[..k]);
      assert (n.externals + [seen[k]])[..|n.externals|] == n.externals;
    }
  }

  predicate NoEmptyNames(m: map<HostPort, string>) {
    forall k | k in m :: m[k] != ""
  }

  lemma NameSticks(n: Named, e: Endpoint, x: Endpoint)
    requires NoEmptyNames(n.byHost) && e.id != ""
    ensures NoEmptyNames(NameOne(n, e).byHost)
    ensures Own(n.byHost, x).Some? ==> Own(NameOne(n, e).byHost, x) == Own(n.byHost, x)
    ensures Own(NameOne(n, e).byHost, e) == Some(if Own(n.byHost, e).Some? then Own(n.byHost, e).value else e.id)
  {
  }

  /** A name once found for an address stays the name found for it. */
  lemma {:induction false} NamesStay(base: seq<Endpoint>, seen: seq<Endpoint>, n: nat)
    requires n < |seen| && NamedIds(base) && NamedIds(seen)
    ensures NoEmptyNames(NameAll(base, seen).byHost)
    ensures var was := Own(NameAll(base, seen[..n]).byHost, seen[n]);
            Own(NameAll(base, seen).byHost, seen[n]) == Some(if was.Some? then was.value else seen[n].id)
    decreases |seen|
  {
    var k := |seen| - 1;
    NamesNotEmpty(base, seen[..k]);
    NameSticks(NameAll(base, seen[..k]), seen[k], seen[n]);
    assert seen[..k][..n] == seen[..n];
    if n < k {
      NamesStay(base, seen[..k], n);
    }
  }

  lemma {:induction false} BaseNames(base: seq<Endpoint>)
    requires NamedIds(base)
    ensures NoEmptyNames(HostMap(base))
  {
    if base != [] {
      BaseNames(base[..|base| - 1]);
    }
  }

  lemma {:induction false} NamesNotEmpty(base: seq<Endpoint>, seen: seq<Endpoint>)
    requires NamedIds(base) && NamedIds(seen)
    ensures NoEmptyNames(NameAll(base, seen).byHost)
  {
    BaseNames(base);
    if seen != [] {
      NamesNotEmpty(base, seen[..|seen| - 1]);
    }
  }

  lemma NamingStep(n: Named, m: Named, e: Endpoint)
    requires Own(m.byHost, e) == Some(if Own(n.byHost, e).Some? then Own(n.byHost, e).value else e.id)
    requires e.id !in n.remap
    requires forall id :: Look(m.remap, id) == Look(n.remap, id)
    ensures NameOne(m, e).externals == m.externals && NameOne(m, e).byHost == m.byHost
    ensures forall id :: Look(NameOne(m, e).remap, id) == Look(NameOne(n, e).remap, id)
  {
    forall id
      ensures Look(NameOne(m, e).remap, id) == Look(NameOne(n, e).remap, id)
    {
      assert Look(m.remap, id) == Look(n.remap, id);
    }
  }

  /** Naming again what was named before adds no endpoint and renames every observed id as before. */
  lemma {:induction false} NamingRetraces(base: seq<Endpoint>, seen: seq<Endpoint>, n: nat)
    requires n <= |seen| && NamedIds(base) && NamedIds(seen) && DistinctIds(seen)
    ensures var first, again := NameAll(base, seen), NameAll(NameAll(base, seen).externals, seen[..n]);
            && again.externals == first.externals && again.byHost == first.byHost
            && forall id :: Look(again.remap, id) == Look(NameAll(base, seen[..n]).remap, id)
  {
    HostMapFollows(base, seen);
    if n > 0 {
      assert seen[..n][..n - 1] == seen[..n - 1];
      NamingRetraces(base, seen, n - 1);
      NamesStay(base, seen, n - 1);
      RemapHasOnlySeen(base, seen, n - 1);
      NamingStep(NameAll(base, seen[..n - 1]), NameAll(NameAll(base, seen).externals, seen[..n - 1]), seen[n - 1]);
    }
  }

  function Look(remap: map<string, string>, id: string): string {
    if id in remap then remap[id] else id
  }

  lemma {:induction false} RemapHasOnlySeen(base: seq<Endpoint>, seen: seq<Endpoint>, n: nat)
    requires n < |seen| && DistinctIds(seen)
    ensures seen[n].id !in NameAll(base, seen[..n]).remap
  {
    RemapKeys(base, seen[..n]);
  }

  lemma {:induction false} RemapKeys(base: seq<Endpoint>, seen: seq<Endpoint>)
    ensures forall id | id in NameAll(base, seen).remap :: exists i :: 0 <= i < |seen| && seen[i].id == id
  {
    if seen != [] {
      var k := |seen| - 1;
      RemapKeys(base, seen[..k]);
      forall id | id in NameAll(base, seen).remap
        ensures exists i :: 0 <= i < |seen| && seen[i].id == id
      {
        if id in NameAll(base, seen[..k]).remap {
          var i :| 0 <= i < k && seen[..k][i].id == id;
          assert seen[i].id == id;
        } else {
          assert seen[k].id == id;
        }
      }
    }
  }

  lemma {:induction false} SameRelevant(b: Base, c: Base, ids: set<string>, r: map<string, string>,
                                        q: map<string, string>, os: seq<Edge>)
    requires forall id :: Look(r, id) == Look(q, id)
    requires b.services == c.services && b.devices == c.devices
    ensures Relevant(b, ids, r, os) == Relevant(c, ids, q, os)
  {
    if os != [] {
      SameRelevant(b, c, ids, r, q, os[..|os| - 1]);
      var last := os[|os| - 1];
      assert Look(r, last.ends.from) == Look(q, last.ends.from) && Look(r, last.ends.to) == Look(q, last.ends.to);
      assert RenamedEnds(r, last.ends) == RenamedEnds(q, last.ends);
    }
  }

  lemma {:induction false} RelevantSettled(b: Base, ids: set<string>, remap: map<string, string>, os: seq<Edge>)
    requires AllSettled(os)
    ensures AllSettled(Relevant(b, ids, remap, os))
  {
    if os != [] {
      var last := os[|os| - 1];
      assert AllSettled(os[..|os| - 1]) && Settled(last);
      RelevantSettled(b, ids, remap, os[..|os| - 1]);
      assert Settled(RenamedEdge(remap, last));
    }
  }

  /** The whole overlay, edges and endpoints, is a fixpoint of laying the same observations again. */
  lemma OverlaidIsStable(b: Base, s: Seen)
    requires AllSettled(s.edges) && NamedIds(b.externals) && NamedIds(s.externals) && DistinctIds(s.externals)
    ensures var p := Overlaid(b, s);
            Overlaid(Base(b.services, b.devices, p.edges, p.externals), s) == p
  {
    if s.edges != [] {
      var p := Overlaid(b, s);
      var c := Base(b.services, b.devices, p.edges, p.externals);
      var n, n' := NameAll(b.externals, s.externals), NameAll(p.externals, s.externals);
      assert s.externals[..|s.externals|] == s.externals;
      NamingRetraces(b.externals, s.externals, |s.externals|);
      SameRelevant(c, b, Ids(n.externals), n'.remap, n.remap, s.edges);
      RelevantSettled(b, Ids(n.externals), n.remap, s.edges);
      OverlayIsStable(b.edges, Relevant(b, Ids(n.externals), n.remap, s.edges));
    }
  }
}
