/**
 A poll is a fixpoint: merging the same server document a second time changes nothing and reports
 no change, exactly when no declared ref that landed carries attribution the report does not have.
 */
module DiscoveredLaws {
  import opened Options
  import opened Records
  import opened Discovered

  /** Discovery does not report the values people own. */
  predicate Unassigned(n: Rec) {
    n.applicationId.None? && n.siteId.None?
  }

  /** A record landing on this ref loses the attribution of its overrides at the next poll. */
  predicate LosesMeta(m: Merge, n: Rec, left: Refs) {
    n.id in left && left[n.id].kind == m.kind && !ValuesEqual(n.overrideMeta, left[n.id].overrideMeta)
  }

  /* ---------- one record ---------- */

  lemma TweakedTwice(t: Tweak, n: Rec, e: Rec)
    ensures Tweaked(t, MergeOne(n, Tweaked(t, MergeOne(n, e)))) == Tweaked(t, MergeOne(n, e))
  {
    var once := Tweaked(t, MergeOne(n, e));
    if t.ExitAddress? && n.id in t.exit {
      assert once.fields["egressIp" := Str(t.exit[n.id])] == once.fields;
    }
  }

  /** A record updated from a report is not changed by the same report. */
  lemma UpdateSettles(m: Merge, e: Rec, n: Option<Rec>)
    requires m.now != ""
    ensures !Changes(m, Updated(m, e, n), n)
  {
    if n.Some? {
      TweakedTwice(m.tweak, n.value, e);
      RecEqualReflexive(Tweaked(m.tweak, MergeOne(n.value, e)));
    }
  }

  /**
   What a poll makes of a stored record: its own overrides, site and application stay, and the
   "changed" answer is exactly a difference.
   */
  lemma UpdateIsHonest(m: Merge, e: Rec, n: Option<Rec>)
    requires m.now != "" && (n.Some? ==> n.value.id == e.id && Unassigned(n.value))
    ensures var r := Updated(m, e, n);
            && r.id == e.id && r.overrides == e.overrides && r.siteId == e.siteId
            && (Truthy(e.applicationId) ==> r.applicationId == e.applicationId)
            && (Changes(m, e, n) <==> !RecEqual(r, e))
            && (!Changes(m, e, n) ==> r == e)
            && (n.None? ==> r.fields == e.fields && (Truthy(r.deletedAt) && !Truthy(e.deletedAt) <==> Gone(m, e)))
  {
    RecEqualReflexive(e);
  }

  lemma RecEqualUpToMeta(a: Rec, b: Rec)
    requires a.(overrideMeta := None) == b.(overrideMeta := None)
    ensures RecEqual(a, b) <==> ValuesEqual(a.overrideMeta, b.overrideMeta)
  {
    RecEqualReflexive(a);
  }

  lemma LandingAgain(m: Merge, n: Rec, left: Refs)
    requires Unassigned(n)
    ensures var rec, again := Landed(m, n, left), Tweaked(m.tweak, MergeOne(n, Landed(m, n, left)));
            && again.(overrideMeta := None) == rec.(overrideMeta := None)
            && again.overrideMeta == n.overrideMeta
            && rec.overrideMeta
               == if n.id in left && left[n.id].kind == m.kind then left[n.id].overrideMeta else n.overrideMeta
  {
    var t := m.tweak;
    if t.ExitAddress? && n.id in t.exit {
      var f := n.fields["egressIp" := Str(t.exit[n.id])];
      assert f["egressIp" := Str(t.exit[n.id])] == f;
    }
  }

  lemma LandingSettlesUnlessMetaLost(m: Merge, n: Rec, left: Refs)
    requires Unassigned(n)
    ensures Changes(m, Landed(m, n, left), Some(n)) <==> LosesMeta(m, n, left)
  {
    LandingAgain(m, n, left);
    RecEqualUpToMeta(Tweaked(m.tweak, MergeOne(n, Landed(m, n, left))), Landed(m, n, left));
    if n.overrideMeta.Some? {
      DeepEqualReflexive(Obj(n.overrideMeta.value));
    }
  }

  lemma UpdatedKeepsId(m: Merge, e: Rec, n: Option<Rec>)
    requires n.Some? ==> n.value.id == e.id
    ensures Updated(m, e, n).id == e.id
  {
  }

  lemma LandedKeepsId(m: Merge, n: Rec, left: Refs)
    ensures Landed(m, n, left).id == n.id
  {
  }

  /* ---------- one list ---------- */

  lemma {:induction false} NewIdsDistinct(order: seq<string>, held: set<string>)
    requires forall i, j | 0 <= i < j < |order| :: order[i] != order[j]
    ensures forall i, j | 0 <= i < j < |NewIds(order, held)| :: NewIds(order, held)[i] != NewIds(order, held)[j]
  {
    if order != [] {
      NewIdsDistinct(order[..|order| - 1], held);
      var done := NewIds(order[..|order| - 1], held);
      assert order[|order| - 1] !in order[..|order| - 1];
    }
  }

  function Full(m: Merge, existing: seq<Rec>, incoming: seq<Rec>, left: Refs): (list: seq<Rec>)
    ensures |list| == |existing| + |Arrivals(existing, incoming)|
  {
    UpdatedAll(m, existing, ById(incoming)) + LandedAll(m, Arrivals(existing, incoming), ById(incoming), left)
  }

  lemma FullAtStored(m: Merge, existing: seq<Rec>, incoming: seq<Rec>, left: Refs, i: nat)
    requires i < |existing|
    ensures Full(m, existing, incoming, left)[i] == Updated(m, existing[i], ReportFor(existing, i, ById(incoming)))
    ensures Full(m, existing, incoming, left)[i].id == existing[i].id
  {
    UpdatedKeepsId(m, existing[i], ReportFor(existing, i, ById(incoming)));
  }

  lemma FullAtArrival(m: Merge, existing: seq<Rec>, incoming: seq<Rec>, left: Refs, j: nat)
    requires j < |Arrivals(existing, incoming)|
    ensures Arrivals(existing, incoming)[j] in ById(incoming)
    ensures Full(m, existing, incoming, left)[|existing| + j]
            == Landed(m, ById(incoming)[Arrivals(existing, incoming)[j]], left)
    ensures Full(m, existing, incoming, left)[|existing| + j].id == Arrivals(existing, incoming)[j]
  {
    var id := Arrivals(existing, incoming)[j];
    assert id in Arrivals(existing, incoming);
    LandedKeepsId(m, ById(incoming)[id], left);
  }

  lemma FullIds(m: Merge, existing: seq<Rec>, incoming: seq<Rec>, left: Refs)
    ensures forall i | 0 <= i < |existing| :: Full(m, existing, incoming, left)[i].id == existing[i].id
    ensures forall j | 0 <= j < |Arrivals(existing, incoming)| ::
              Full(m, existing, incoming, left)[|existing| + j].id == Arrivals(existing, incoming)[j]
  {
    forall i | 0 <= i < |existing|
      ensures Full(m, existing, incoming, left)[i].id == existing[i].id
    {
      FullAtStored(m, existing, incoming, left, i);
    }
    forall j | 0 <= j < |Arrivals(existing, incoming)|
      ensures Full(m, existing, incoming, left)[|existing| + j].id == Arrivals(existing, incoming)[j]
    {
      FullAtArrival(m, existing, incoming, left, j);
    }
  }

  lemma SameIdsSameSet(a: seq<Rec>, b: seq<Rec>, i: nat)
    requires i <= |a| && i <= |b| && forall j | 0 <= j < i :: a[j].id == b[j].id
    ensures IdsOf(a[..i]) == IdsOf(b[..i])
  {
    forall id | id in IdsOf(a[..i])
      ensures id in IdsOf(b[..i])
    {
      var j :| 0 <= j < i && a[..i][j].id == id;
      assert b[..i][j].id == id && b[..i][j] in b[..i];
    }
    forall id | id in IdsOf(b[..i])
      ensures id in IdsOf(a[..i])
    {
      var j :| 0 <= j < i && b[..i][j].id == id;
      assert a[..i][j].id == id && a[..i][j] in a[..i];
    }
  }

  lemma StoredReports(m: Merge, existing: seq<Rec>, incoming: seq<Rec>, left: Refs, i: nat)
    requires i < |existing|
    ensures ReportFor(Full(m, existing, incoming, left), i, ById(incoming)) == ReportFor(existing, i, ById(incoming))
  {
    FullIds(m, existing, incoming, left);
    SameIdsSameSet(Full(m, existing, incoming, left), existing, i);
  }

  lemma FreshId(full: seq<Rec>, existing: seq<Rec>, ids: seq<string>, j: nat)
    requires |full| == |existing| + |ids| && j < |ids|
    requires forall i | 0 <= i < |existing| :: full[i].id == existing[i].id
    requires forall k | 0 <= k < |ids| :: full[|existing| + k].id == ids[k]
    requires forall i, k | 0 <= i < k < |ids| :: ids[i] != ids[k]
    requires ids[j] !in IdsOf(existing)
    ensures ids[j] !in IdsOf(full[..|existing| + j])
  {
    forall k | 0 <= k < |existing| + j
      ensures full[k].id != ids[j]
    {
      if k < |existing| {
        assert existing[k] in existing && existing[k].id in IdsOf(existing);
      } else {
        assert full[|existing| + (k - |existing|)].id == ids[k - |existing|];
      }
    }
  }

  lemma ArrivalReports(m: Merge, existing: seq<Rec>, incoming: seq<Rec>, left: Refs, j: nat)
    requires j < |Arrivals(existing, incoming)|
    ensures ReportFor(Full(m, existing, incoming, left), |existing| + j, ById(incoming))
            == Some(ById(incoming)[Arrivals(existing, incoming)[j]])
  {
    var ids := Arrivals(existing, incoming);
    FullIds(m, existing, incoming, left);
    NewIdsDistinct(Order(incoming), IdsOf(existing));
    assert ids[j] in ids;
    FreshId(Full(m, existing, incoming, left), existing, ids, j);
  }

  lemma NothingArrivesTwice(m: Merge, existing: seq<Rec>, incoming: seq<Rec>, left: Refs)
    ensures Arrivals(Full(m, existing, incoming, left), incoming) == []
  {
    var full, ids := Full(m, existing, incoming, left), Arrivals(existing, incoming);
    FullIds(m, existing, incoming, left);
    forall id | id in Order(incoming)
      ensures id in IdsOf(full)
    {
      if id in IdsOf(existing) {
        var e :| e in existing && e.id == id;
        var i :| 0 <= i < |existing| && existing[i] == e;
        assert full[i] in full;
      } else {
        var j :| 0 <= j < |ids| && ids[j] == id;
        assert full[|existing| + j] in full;
      }
    }
    NoneIsNew(Order(incoming), IdsOf(full));
  }

  lemma {:induction false} NoneIsNew(order: seq<string>, held: set<string>)
    requires forall id | id in order :: id in held
    ensures NewIds(order, held) == []
  {
    if order != [] {
      assert order[|order| - 1] in order;
      NoneIsNew(order[..|order| - 1], held);
    }
  }

  ghost predicate SomeMetaLost(m: Merge, existing: seq<Rec>, incoming: seq<Rec>, left: Refs) {
    exists id | id in Arrivals(existing, incoming) :: LosesMeta(m, ById(incoming)[id], left)
  }

  /** The same report, merged again, changes the i-th record of the merged list. */
  predicate ChangesAgain(m: Merge, existing: seq<Rec>, incoming: seq<Rec>, left: Refs, i: nat)
    requires i < |Full(m, existing, incoming, left)|
  {
    var full := Full(m, existing, incoming, left);
    Changes(m, full[i], ReportFor(full, i, ById(incoming)))
  }

  lemma ChangesAgainIs(m: Merge, existing: seq<Rec>, incoming: seq<Rec>, left: Refs)
    ensures SomeChange(m, Full(m, existing, incoming, left), ById(incoming))
            <==> exists i | 0 <= i < |Full(m, existing, incoming, left)| :: ChangesAgain(m, existing, incoming, left, i)
  {
    var full := Full(m, existing, incoming, left);
    if SomeChange(m, full, ById(incoming)) {
      var i :| 0 <= i < |full| && Changes(m, full[i], ReportFor(full, i, ById(incoming)));
      assert ChangesAgain(m, existing, incoming, left, i);
    }
    if i :| 0 <= i < |full| && ChangesAgain(m, existing, incoming, left, i) {
      assert Changes(m, full[i], ReportFor(full, i, ById(incoming)));
    }
  }

  lemma StoredSettles(m: Merge, existing: seq<Rec>, incoming: seq<Rec>, left: Refs, i: nat)
    requires m.now != "" && i < |existing|
    ensures !ChangesAgain(m, existing, incoming, left, i)
  {
    StoredReports(m, existing, incoming, left, i);
    FullAtStored(m, existing, incoming, left, i);
    UpdateSettles(m, existing[i], ReportFor(existing, i, ById(incoming)));
  }

  lemma ArrivalSettles(m: Merge, existing: seq<Rec>, incoming: seq<Rec>, left: Refs, j: nat)
    requires j < |Arrivals(existing, incoming)| && forall n | n in incoming :: Unassigned(n)
    ensures Arrivals(existing, incoming)[j] in ById(incoming)
    ensures ChangesAgain(m, existing, incoming, left, |existing| + j)
            <==> LosesMeta(m, ById(incoming)[Arrivals(existing, incoming)[j]], left)
  {
    ArrivalReports(m, existing, incoming, left, j);
    FullAtArrival(m, existing, incoming, left, j);
    LandingSettlesUnlessMetaLost(m, ById(incoming)[Arrivals(existing, incoming)[j]], left);
  }

  lemma LostMetaChanges(m: Merge, existing: seq<Rec>, incoming: seq<Rec>, left: Refs, id: string)
    requires forall n | n in incoming :: Unassigned(n)
    requires id in Arrivals(existing, incoming) && LosesMeta(m, ById(incoming)[id], left)
    ensures exists i | 0 <= i < |Full(m, existing, incoming, left)| :: ChangesAgain(m, existing, incoming, left, i)
  {
    var ids := Arrivals(existing, incoming);
    var j :| 0 <= j < |ids| && ids[j] == id;
    ArrivalSettles(m, existing, incoming, left, j);
    assert ChangesAgain(m, existing, incoming, left, |existing| + j);
  }

  lemma ChangeLostMeta(m: Merge, existing: seq<Rec>, incoming: seq<Rec>, left: Refs, i: nat)
    requires m.now != "" && forall n | n in incoming :: Unassigned(n)
    requires i < |Full(m, existing, incoming, left)| && ChangesAgain(m, existing, incoming, left, i)
    ensures SomeMetaLost(m, existing, incoming, left)
  {
    if i < |existing| {
      StoredSettles(m, existing, incoming, left, i);
    } else {
      ChangedArrivalLostMeta(m, existing, incoming, left, i - |existing|);
    }
  }

  lemma ChangedArrivalLostMeta(m: Merge, existing: seq<Rec>, incoming: seq<Rec>, left: Refs, j: nat)
    requires forall n | n in incoming :: Unassigned(n)
    requires j < |Arrivals(existing, incoming)| && ChangesAgain(m, existing, incoming, left, |existing| + j)
    ensures SomeMetaLost(m, existing, incoming, left)
  {
    ArrivalSettles(m, existing, incoming, left, j);
    assert Arrivals(existing, incoming)[j] in Arrivals(existing, incoming);
  }

  lemma FullSettles(m: Merge, existing: seq<Rec>, incoming: seq<Rec>, left: Refs)
    requires m.now != "" && forall n | n in incoming :: Unassigned(n)
    ensures SomeChange(m, Full(m, existing, incoming, left), ById(incoming))
            <==> SomeMetaLost(m, existing, incoming, left)
  {
    ChangesAgainIs(m, existing, incoming, left);
    if SomeMetaLost(m, existing, incoming, left) {
      var id :| id in Arrivals(existing, incoming) && LosesMeta(m, ById(incoming)[id], left);
      LostMetaChanges(m, existing, incoming, left, id);
    }
    if SomeChange(m, Full(m, existing, incoming, left), ById(incoming)) {
      var i :| 0 <= i < |Full(m, existing, incoming, left)| && ChangesAgain(m, existing, incoming, left, i);
      ChangeLostMeta(m, existing, incoming, left, i);
    }
  }

  /** Merging the same report into a merged list changes it only where attribution was lost. */
  lemma ListSettles(m: Merge, existing: seq<Rec>, incoming: seq<Rec>, left: Refs, later: Refs)
    requires m.now != "" && forall n | n in incoming :: Unassigned(n)
    ensures var first := MergedList(m, existing, incoming, left);
            var second := MergedList(m, first.list, incoming, later);
            && second.left == later
            && (second.changed <==> SomeMetaLost(m, existing, incoming, left))
            && (!second.changed ==> second.list == first.list)
  {
    var first := MergedList(m, existing, incoming, left);
    if first.changed {
      assert first.list == Full(m, existing, incoming, left);
      FullSettles(m, existing, incoming, left);
      NothingArrivesTwice(m, existing, incoming, left);
    }
    assert Without(later, []) == later;
  }

  /* ---------- agents ---------- */

  lemma {:induction false} LocalsStay(stored: seq<Agent>, now: seq<Agent>, known: set<string>)
    requires forall a | a in now :: a.id in known
    ensures LocalAgents(LocalAgents(stored, known) + now, known) == LocalAgents(stored, known)
  {
    if now == [] {
      OnlyLocals(stored, known);
      assert LocalAgents(stored, known) + now == LocalAgents(stored, known);
    } else {
      var k := |now| - 1;
      var all := LocalAgents(stored, known) + now;
      LocalsStay(stored, now[..k], known);
      assert all[..|all| - 1] == LocalAgents(stored, known) + now[..k];
      assert all[|all| - 1] == now[k];
    }
  }

  lemma {:induction false} OnlyLocals(stored: seq<Agent>, known: set<string>)
    ensures LocalAgents(LocalAgents(stored, known), known) == LocalAgents(stored, known)
    ensures forall a | a in LocalAgents(stored, known) :: a.id !in known
  {
    if stored != [] {
      OnlyLocals(stored[..|stored| - 1], known);
      var done := LocalAgents(stored[..|stored| - 1], known);
      if stored[|stored| - 1].id !in known {
        assert (done + [stored[|stored| - 1]])[..|done|] == done;
      }
    }
  }

  lemma {:induction false} LastAgentAt(list: seq<Agent>, i: nat)
    requires i < |list| && forall j | i < j < |list| :: list[j].id != list[i].id
    ensures LastAgent(list, list[i].id) == Some(list[i])
  {
    if i < |list| - 1 {
      LastAgentAt(list[..|list| - 1], i);
    }
  }

  predicate DistinctAgents(agents: seq<ServerAgent>) {
    forall i, j | 0 <= i < j < |agents| :: agents[i].id != agents[j].id
  }

  lemma AgentNowKeepsId(stored: seq<Agent>, next: Agent)
    ensures AgentNow(stored, next).id == next.id
  {
    LastAgentId(stored, next.id);
  }

  lemma {:induction false} LastAgentId(stored: seq<Agent>, id: string)
    ensures LastAgent(stored, id).Some? ==> LastAgent(stored, id).value.id == id
  {
    if stored != [] {
      LastAgentId(stored[..|stored| - 1], id);
    }
  }

  lemma AgentStays(all: seq<Agent>, stored: seq<Agent>, next: Agent, now: Agent)
    requires now == AgentNow(stored, next) && LastAgent(all, next.id) == Some(now)
    ensures AgentNow(all, next) == now
  {
    DeepEqualReflexive(Obj(next.fields));
  }

  lemma AgentsNowIds(stored: seq<Agent>, agents: seq<ServerAgent>)
    ensures var now := AgentsNow(stored, Reported(agents));
            forall i | 0 <= i < |now| :: now[i].id == agents[i].id && now[i].id in ServerIds(agents)
  {
    forall i | 0 <= i < |agents|
      ensures AgentNow(stored, Reported(agents)[i]).id == agents[i].id && agents[i].id in ServerIds(agents)
    {
      AgentNowKeepsId(stored, Reported(agents)[i]);
      assert agents[i] in agents;
    }
  }

  /** Behind the local agents every known one is found, and stays as it is. */
  lemma KnownStay(stored: seq<Agent>, locals: seq<Agent>, agents: seq<ServerAgent>, i: nat)
    requires DistinctAgents(agents) && i < |agents|
    ensures var now := AgentsNow(stored, Reported(agents)); AgentNow(locals + now, Reported(agents)[i]) == now[i]
  {
    var now := AgentsNow(stored, Reported(agents));
    var all := locals + now;
    AgentsNowIds(stored, agents);
    forall j | |locals| + i < j < |all|
      ensures all[j].id != all[|locals| + i].id
    {
      assert all[j] == now[j - |locals|];
    }
    LastAgentAt(all, |locals| + i);
    AgentStays(all, stored, Reported(agents)[i], now[i]);
  }

  lemma AgentsSettle(stored: seq<Agent>, agents: seq<ServerAgent>)
    requires DistinctAgents(agents)
    ensures MergedAgents(MergedAgents(stored, agents), agents) == MergedAgents(stored, agents)
  {
    var locals, now := LocalAgents(stored, ServerIds(agents)), AgentsNow(stored, Reported(agents));
    AgentsNowIds(stored, agents);
    LocalsStay(stored, now, ServerIds(agents));
    forall i | 0 <= i < |now|
      ensures AgentsNow(locals + now, Reported(agents))[i] == now[i]
    {
      KnownStay(stored, locals, agents, i);
    }
    assert AgentsNow(locals + now, Reported(agents)) == now;
  }

  /* ---------- suggestions and events ---------- */

  predicate DistinctSuggestions(ss: seq<Suggestion>) {
    forall i, j | 0 <= i < j < |ss| :: ss[i].id != ss[j].id
  }

  lemma {:induction false} LastSuggestionId(ss: seq<Suggestion>, id: string)
    ensures LastSuggestion(ss, id).Some? ==> LastSuggestion(ss, id).value.id == id && LastSuggestion(ss, id).value in ss
    ensures LastSuggestion(ss, id).Some? <==> id in SuggestionIds(ss)
  {
    if ss != [] {
      var k := |ss| - 1;
      LastSuggestionId(ss[..k], id);
      assert ss == ss[..k] + [ss[k]];
    }
  }

  lemma SuggestionIdsSnoc(ss: seq<Suggestion>, s: Suggestion)
    ensures SuggestionIds(ss + [s]) == SuggestionIds(ss) + {s.id}
  {
    assert s in ss + [s];
  }

  lemma ReplacedIds(ss: seq<Suggestion>, s: Suggestion)
    requires DistinctSuggestions(ss)
    ensures DistinctSuggestions(Replaced(ss, s)) && SuggestionIds(Replaced(ss, s)) == SuggestionIds(ss)
  {
    var out := Replaced(ss, s);
    assert forall i | 0 <= i < |ss| :: out[i].id == ss[i].id;
    forall id
      ensures id in SuggestionIds(out) <==> id in SuggestionIds(ss)
    {
      if id in SuggestionIds(out) {
        var i :| 0 <= i < |out| && out[i].id == id;
        assert ss[i] in ss;
      }
      if id in SuggestionIds(ss) {
        var i :| 0 <= i < |ss| && ss[i].id == id;
        assert out[i] in out;
      }
    }
  }

  /** Each reported suggestion is there once, as the last report has it. */
  lemma {:induction false} EachOnceIs(incoming: seq<Suggestion>)
    ensures DistinctSuggestions(EachOnce(incoming))
    ensures SuggestionIds(EachOnce(incoming)) == SuggestionIds(incoming)
    ensures forall s | s in EachOnce(incoming) :: LastSuggestion(incoming, s.id) == Some(s)
  {
    if incoming != [] {
      var k := |incoming| - 1;
      var done, last := EachOnce(incoming[..k]), incoming[k];
      EachOnceIs(incoming[..k]);
      assert incoming == incoming[..k] + [last];
      SuggestionIdsSnoc(incoming[..k], last);
      if last.id in SuggestionIds(done) {
        ReplacedIds(done, last);
      } else {
        SuggestionIdsSnoc(done, last);
      }
    }
  }

  lemma SuggestionSettles(s: Suggestion, n: Option<Suggestion>, synced: set<string>)
    requires SuggestionNow(s, n, synced).Some?
    ensures var now := SuggestionNow(s, n, synced); now.value.id == s.id && SuggestionNow(now.value, n, synced) == now
  {
  }

  /** Keeping what was kept changes nothing; of the ids that are reported none is lost. */
  lemma {:induction false} KeptAgain(stored: seq<Suggestion>, incoming: seq<Suggestion>, synced: set<string>)
    ensures var kept := KeptSuggestions(stored, incoming, synced);
            && KeptSuggestions(kept, incoming, synced) == kept
            && (forall id | id in SuggestionIds(kept) :: id in SuggestionIds(stored))
            && (forall id | id in SuggestionIds(stored) && id in SuggestionIds(incoming) :: id in SuggestionIds(kept))
  {
    if stored != [] {
      var k := |stored| - 1;
      var done, last := KeptSuggestions(stored[..k], incoming, synced), stored[k];
      KeptAgain(stored[..k], incoming, synced);
      LastSuggestionId(incoming, last.id);
      assert stored == stored[..k] + [last];
      SuggestionIdsSnoc(stored[..k], last);
      var n := SuggestionReport(last, stored[..k], incoming);
      var now := SuggestionNow(last, n, synced);
      if now.Some? {
        SuggestionSettles(last, n, synced);
        SuggestionIdsSnoc(done, now.value);
        assert SuggestionReport(now.value, done, incoming) == n;
        assert (done + [now.value])[..|done|] == done && (done + [now.value])[|done|] == now.value;
      }
    }
  }

  /** What was new stays as it arrived. */
  lemma {:induction false} NewStay(kept: seq<Suggestion>, new': seq<Suggestion>, incoming: seq<Suggestion>,
                                   synced: set<string>)
    requires KeptSuggestions(kept, incoming, synced) == kept
    requires DistinctSuggestions(new') && forall s | s in new' :: s.id !in SuggestionIds(kept)
    requires forall s | s in new' :: LastSuggestion(incoming, s.id) == Some(s)
    ensures KeptSuggestions(kept + new', incoming, synced) == kept + new'
  {
    if new' == [] {
      assert kept + new' == kept;
    } else {
      var k := |new'| - 1;
      var all, s := kept + new', new'[k];
      NewStay(kept, new'[..k], incoming, synced);
      assert all[..|all| - 1] == kept + new'[..k] && all == kept + new'[..k] + [s];
      assert s in new' && s.id !in SuggestionIds(kept + new'[..k]);
    }
  }

  lemma {:induction false} NewAre(incoming: seq<Suggestion>, held: set<string>, applications: set<string>,
                                  services: seq<Rec>)
    requires DistinctSuggestions(incoming)
    ensures DistinctSuggestions(NewSuggestions(incoming, held, applications, services))
    ensures forall s | s in NewSuggestions(incoming, held, applications, services) :: s in incoming && s.id !in held
    ensures forall s | s in incoming && s.id !in held && !NothingToDo(s, applications, services) ::
              s in NewSuggestions(incoming, held, applications, services)
  {
    if incoming != [] {
      var k := |incoming| - 1;
      NewAre(incoming[..k], held, applications, services);
      assert incoming == incoming[..k] + [incoming[k]];
      assert forall s | s in incoming[..k] :: s.id != incoming[k].id;
    }
  }

  lemma {:induction false} NoneNew(incoming: seq<Suggestion>, held: set<string>, applications: set<string>,
                                   services: seq<Rec>)
    requires forall s | s in incoming :: s.id in held || NothingToDo(s, applications, services)
    ensures NewSuggestions(incoming, held, applications, services) == []
  {
    if incoming != [] {
      assert incoming[|incoming| - 1] in incoming;
      NoneNew(incoming[..|incoming| - 1], held, applications, services);
    }
  }

  lemma SuggestionsSettle(stored: seq<Suggestion>, incoming: seq<Suggestion>, synced: set<string>,
                          applications: set<string>, services: seq<Rec>)
    ensures var first := MergedSuggestions(stored, incoming, synced, applications, services);
            MergedSuggestions(first, incoming, synced, applications, services) == first
  {
    var kept, once := KeptSuggestions(stored, incoming, synced), EachOnce(incoming);
    var fresh' := NewSuggestions(once, SuggestionIds(stored), applications, services);
    var first := kept + fresh';
    KeptAgain(stored, incoming, synced);
    EachOnceIs(incoming);
    NewAre(once, SuggestionIds(stored), applications, services);
    NewStay(kept, fresh', incoming, synced);
    forall s | s in once
      ensures s.id in SuggestionIds(first) || NothingToDo(s, applications, services)
    {
      if s.id in SuggestionIds(stored) {
        assert s.id in SuggestionIds(incoming);
        assert s.id in SuggestionIds(kept);
      }
    }
    NoneNew(once, SuggestionIds(first), applications, services);
  }

  lemma {:induction false} EventsAre(incoming: seq<Event>, have: set<string>, later: set<string>)
    ensures forall e | e in incoming :: e.id in have || e.id in EventIds(NewEvents(incoming, have))
    ensures (forall e | e in incoming :: e.id in later) ==> NewEvents(incoming, later) == []
  {
    if incoming != [] {
      var k := |incoming| - 1;
      EventsAre(incoming[..k], have, later);
      assert incoming == incoming[..k] + [incoming[k]];
    }
  }

  lemma EventsSettle(log: seq<Event>, incoming: seq<Event>)
    ensures var first := log + NewEvents(incoming, EventIds(log));
            first + NewEvents(incoming, EventIds(first)) == first
  {
    var first := log + NewEvents(incoming, EventIds(log));
    EventsAre(incoming, EventIds(log), EventIds(first));
  }

  /* ---------- the whole document ---------- */

  predicate Reportable(doc: ServerState) {
    && doc.generatedAt != ""
    && (forall n | n in doc.clusters + doc.nodes + doc.namespaces + doc.services :: Unassigned(n))
    && DistinctAgents(doc.agents)
  }

  /** The refs that are left after a poll, whichever of the two equal maps is kept. */
  lemma RefsAreWhatIsLeft(m: Model, doc: ServerState)
    ensures var a := MergedList(MergeFor(ClusterKind, m.applications, doc), m.clusters, doc.clusters, m.refs);
            var b := MergedList(MergeFor(NodeKind, m.applications, doc), m.nodes, doc.nodes, a.left);
            var c := MergedList(MergeFor(NamespaceKind, m.applications, doc), m.namespaces, doc.namespaces, b.left);
            var d := MergedList(MergeFor(ServiceKind, m.applications, doc), m.services, doc.services, c.left);
            Polled(m, doc).model.refs == d.left
  {
    var a := MergedList(MergeFor(ClusterKind, m.applications, doc), m.clusters, doc.clusters, m.refs);
    var b := MergedList(MergeFor(NodeKind, m.applications, doc), m.nodes, doc.nodes, a.left);
    var c := MergedList(MergeFor(NamespaceKind, m.applications, doc), m.namespaces, doc.namespaces, b.left);
    var d := MergedList(MergeFor(ServiceKind, m.applications, doc), m.services, doc.services, c.left);
    SubmapOfSameSize(d.left, m.refs);
  }

  lemma SubmapOfSameSize(a: Refs, b: Refs)
    requires a.Keys <= b.Keys && forall id | id in a :: a[id] == b[id]
    ensures |a| == |b| ==> a == b
  {
    if |a| == |b| {
      SubsetOfSameSize(a.Keys, b.Keys);
    }
  }

  lemma {:induction false} SubsetOfSameSize(a: set<string>, b: set<string>)
    requires a <= b && |a| == |b|
    ensures a == b
  {
    if x :| x in b && x !in a {
      SubsetSmaller(a, b - {x});
    }
  }

  lemma {:induction false} SubsetSmaller(a: set<string>, b: set<string>)
    requires a <= b
    ensures |a| <= |b|
  {
    if a != {} {
      var x :| x in a;
      SubsetSmaller(a - {x}, b - {x});
    }
  }

  /** No ref that lands in this poll carries attribution the report does not have. */
  ghost predicate NoMetaLost(m: Model, doc: ServerState) {
    var a := MergedList(MergeFor(ClusterKind, m.applications, doc), m.clusters, doc.clusters, m.refs);
    var b := MergedList(MergeFor(NodeKind, m.applications, doc), m.nodes, doc.nodes, a.left);
    var c := MergedList(MergeFor(NamespaceKind, m.applications, doc), m.namespaces, doc.namespaces, b.left);
    && !SomeMetaLost(MergeFor(ClusterKind, m.applications, doc), m.clusters, doc.clusters, m.refs)
    && !SomeMetaLost(MergeFor(NodeKind, m.applications, doc), m.nodes, doc.nodes, a.left)
    && !SomeMetaLost(MergeFor(NamespaceKind, m.applications, doc), m.namespaces, doc.namespaces, b.left)
    && !SomeMetaLost(MergeFor(ServiceKind, m.applications, doc), m.services, doc.services, c.left)
  }

  lemma ListsSettle(m: Model, doc: ServerState)
    requires Reportable(doc)
    ensures var first := Polled(m, doc);
            var second := Polled(first.model, doc);
            && ((second.clustersChanged || second.nodesChanged || second.namespacesChanged || second.servicesChanged)
                <==> !NoMetaLost(m, doc))
            && second.model.refs == first.model.refs
            && (!second.clustersChanged ==> second.model.clusters == first.model.clusters)
            && (!second.nodesChanged ==> second.model.nodes == first.model.nodes)
            && (!second.namespacesChanged ==> second.model.namespaces == first.model.namespaces)
            && (!second.servicesChanged ==> second.model.services == first.model.services)
  {
    var a := MergedList(MergeFor(ClusterKind, m.applications, doc), m.clusters, doc.clusters, m.refs);
    var b := MergedList(MergeFor(NodeKind, m.applications, doc), m.nodes, doc.nodes, a.left);
    var c := MergedList(MergeFor(NamespaceKind, m.applications, doc), m.namespaces, doc.namespaces, b.left);
    var first := Polled(m, doc).model;
    forall n | n in doc.clusters || n in doc.nodes || n in doc.namespaces || n in doc.services
      ensures Unassigned(n)
    {
      assert n in doc.clusters + doc.nodes + doc.namespaces + doc.services;
    }
    ListSettles(MergeFor(ClusterKind, m.applications, doc), m.clusters, doc.clusters, m.refs, first.refs);
    ListSettles(MergeFor(NodeKind, m.applications, doc), m.nodes, doc.nodes, a.left, first.refs);
    ListSettles(MergeFor(NamespaceKind, m.applications, doc), m.namespaces, doc.namespaces, b.left, first.refs);
    ListSettles(MergeFor(ServiceKind, m.applications, doc), m.services, doc.services, c.left, first.refs);
  }

  /** A poll is a fixpoint exactly when no attribution is lost; then every "changed" answer is false. */
  lemma PollIsFixpoint(m: Model, doc: ServerState)
    requires Reportable(doc)
    ensures var first := Polled(m, doc).model;
            Polled(first, doc) == Poll(first, false, false, false, false) <==> NoMetaLost(m, doc)
  {
    ListsSettle(m, doc);
    if NoMetaLost(m, doc) {
      var first := Polled(m, doc).model;
      AgentsSettle(m.agents, doc.agents);
      SuggestionsSettle(m.suggestions, doc.suggestions, Synced(doc.agents), m.applications, first.services);
      EventsSettle(m.auditLog, doc.auditLog);
    }
  }

  /** A node that was overridden by hand before this browser held it, and the report that brings it. */
  const REMEMBERED := Ref(NodeKind, Some(map["name" := Str("mine")]), Some(map["name" := Str("me")]), None, None)

  const ARRIVING := Rec("n", true, None, None, None, None, None, None, None, map[])

  const BEFORE_POLL := Model([], [], [], [], {}, [], [], [], map["n" := REMEMBERED], Rest([], [], [], [], []))

  const ARRIVAL := ServerState("now", [], [], [ARRIVING], [], [], [], [])

  lemma RememberedMetaDiffers()
    ensures LosesMeta(MergeFor(NodeKind, {}, ARRIVAL), ARRIVING, BEFORE_POLL.refs)
  {
  }

  lemma ArrivingArrives()
    ensures "n" in Arrivals([], [ARRIVING]) && ById([ARRIVING])["n"] == ARRIVING
  {
    assert [ARRIVING][..0] == [];
    assert ById([ARRIVING]) == map["n" := ARRIVING];
    assert Order([ARRIVING]) == ["n"];
  }

  /** A poll need not be a fixpoint: the landed ref's attribution is gone after the second one. */
  lemma SecondPollCanChange()
    ensures Reportable(ARRIVAL) && !NoMetaLost(BEFORE_POLL, ARRIVAL)
    ensures var first := Polled(BEFORE_POLL, ARRIVAL).model;
            Polled(first, ARRIVAL) != Poll(first, false, false, false, false)
  {
    ArrivingArrives();
    RememberedMetaDiffers();
    var a := MergedList(MergeFor(ClusterKind, {}, ARRIVAL), [], [], BEFORE_POLL.refs);
    assert a.left == BEFORE_POLL.refs;
    assert SomeMetaLost(MergeFor(NodeKind, {}, ARRIVAL), [], [ARRIVING], a.left);
    PollIsFixpoint(BEFORE_POLL, ARRIVAL);
  }
}
