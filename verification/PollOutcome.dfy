/**
 What a whole poll makes of every record, in terms of the document: what is reported is shown as it
 is reported, with what people said kept; what is no longer reported is marked as gone only when an
 approved agent whose facts the server has in full stopped reporting it; and what is new comes last.
 */
module PollOutcome {
  import opened Options
  import opened Records
  import opened Discovered
  import opened DiscoveredLaws
  import opened Declared
  import opened DeclaredLaws
  import opened Statements
  import opened Thinning

  /** The lists of the model after a poll. */
  function After(m: Model, doc: ServerState, kind: Kind): seq<Rec> {
    ListOf(Polled(m, doc).model, kind)
  }

  /* ---------- who is reported ---------- */

  predicate IsReported(doc: ServerState, kind: Kind, id: string) {
    exists n | n in ReportedOf(doc, kind) :: n.id == id
  }

  /** The i-th record is the first with its id: only that one takes a report. */
  predicate IsFirst(list: seq<Rec>, i: nat)
    requires i < |list|
  {
    forall j | 0 <= j < i :: list[j].id != list[i].id
  }

  predicate TakesReport(m: Model, doc: ServerState, kind: Kind, i: nat)
    requires i < |ListOf(m, kind)|
  {
    IsFirst(ListOf(m, kind), i) && IsReported(doc, kind, ListOf(m, kind)[i].id)
  }

  /** The document's last word about an id. */
  predicate IsLastReport(doc: ServerState, kind: Kind, n: Rec) {
    exists i | 0 <= i < |ReportedOf(doc, kind)| ::
      ReportedOf(doc, kind)[i] == n && forall j | i < j < |ReportedOf(doc, kind)| :: ReportedOf(doc, kind)[j].id != n.id
  }

  lemma {:induction false} ByIdAre(incoming: seq<Rec>, id: string)
    ensures id in ById(incoming) <==> exists n | n in incoming :: n.id == id
  {
    if incoming != [] {
      var k := |incoming| - 1;
      ByIdAre(incoming[..k], id);
      assert incoming == incoming[..k] + [incoming[k]];
    }
  }

  lemma {:induction false} ByIdIsLast(incoming: seq<Rec>, i: nat)
    requires i < |incoming| && forall j | i < j < |incoming| :: incoming[j].id != incoming[i].id
    ensures incoming[i].id in ById(incoming) && ById(incoming)[incoming[i].id] == incoming[i]
  {
    if i < |incoming| - 1 {
      ByIdIsLast(incoming[..|incoming| - 1], i);
    }
  }

  lemma FirstTakesReport(m: Model, doc: ServerState, kind: Kind, i: nat)
    requires i < |ListOf(m, kind)|
    ensures ReportFor(ListOf(m, kind), i, ById(ReportedOf(doc, kind))).Some? <==> TakesReport(m, doc, kind, i)
  {
    var list := ListOf(m, kind);
    ByIdAre(ReportedOf(doc, kind), list[i].id);
    if IsFirst(list, i) {
      assert list[i].id !in IdsOf(list[..i]);
    } else {
      var j :| 0 <= j < i && list[j].id == list[i].id;
      assert list[..i][j] in list[..i];
    }
  }

  lemma TheReport(m: Model, doc: ServerState, kind: Kind, i: nat, n: Rec)
    requires i < |ListOf(m, kind)| && TakesReport(m, doc, kind, i)
    requires n.id == ListOf(m, kind)[i].id && IsLastReport(doc, kind, n)
    ensures ReportFor(ListOf(m, kind), i, ById(ReportedOf(doc, kind))) == Some(n)
  {
    FirstTakesReport(m, doc, kind, i);
    LastIsById(doc, kind, n);
  }

  /* ---------- the lists ---------- */

  lemma UnchangedIsItself(m: Merge, e: Rec, n: Option<Rec>)
    requires !Changes(m, e, n)
    ensures Updated(m, e, n) == e
  {
  }

  /** Whether a list counts as changed or not, its records are the updated ones and then the new ones. */
  lemma MergedIsFull(m: Merge, existing: seq<Rec>, incoming: seq<Rec>, left: Refs)
    ensures MergedList(m, existing, incoming, left).list == Full(m, existing, incoming, left)
  {
    var inc := ById(incoming);
    if !SomeChange(m, existing, inc) && Arrivals(existing, incoming) == [] {
      forall i | 0 <= i < |existing|
        ensures UpdatedAll(m, existing, inc)[i] == existing[i]
      {
        assert !Changes(m, existing[i], ReportFor(existing, i, inc));
        UnchangedIsItself(m, existing[i], ReportFor(existing, i, inc));
      }
      assert UpdatedAll(m, existing, inc) == existing;
    }
  }

  lemma StoredAfter(m: Model, doc: ServerState, kind: Kind, i: nat)
    requires i < |ListOf(m, kind)|
    ensures |After(m, doc, kind)| >= |ListOf(m, kind)|
    ensures After(m, doc, kind)[i] == Updated(MergeFor(kind, m.applications, doc), ListOf(m, kind)[i],
                                              ReportFor(ListOf(m, kind), i, ById(ReportedOf(doc, kind))))
  {
    var left, end := PolledListIs(m, doc, kind);
    var merge := MergeFor(kind, m.applications, doc);
    MergedIsFull(merge, ListOf(m, kind), ReportedOf(doc, kind), left);
    FullAtStored(merge, ListOf(m, kind), ReportedOf(doc, kind), left, i);
  }

  /* ---------- what is no longer reported ---------- */

  /** An approved agent, all of whose facts the server has. */
  predicate Vouches(a: ServerAgent, id: string) {
    a.id == id && a.synced && a.approved
  }

  /** Found by an agent that vouches for its facts, and not marked as gone before. */
  predicate WouldBeReported(doc: ServerState, e: Rec) {
    && e.discovered && !Truthy(e.deletedAt) && Truthy(e.agentId)
    && exists a | a in doc.agents :: Vouches(a, e.agentId.value)
  }

  /** A record that is not reported stays as it is, unless it would be: then it is marked as gone, and no more. */
  lemma UnreportedAfterPoll(m: Model, doc: ServerState, kind: Kind, i: nat)
    requires i < |ListOf(m, kind)| && !TakesReport(m, doc, kind, i)
    ensures i < |After(m, doc, kind)|
    ensures var e := ListOf(m, kind)[i];
            After(m, doc, kind)[i] == if WouldBeReported(doc, e) then e.(deletedAt := Some(doc.generatedAt)) else e
  {
    var e := ListOf(m, kind)[i];
    StoredAfter(m, doc, kind, i);
    FirstTakesReport(m, doc, kind, i);
    assert Gone(MergeFor(kind, m.applications, doc), e) <==> WouldBeReported(doc, e);
  }

  /** So a server that has no agent's facts in full, one just restarted for example, wipes nothing. */
  lemma NothingVouchedNothingGone(m: Model, doc: ServerState, kind: Kind, i: nat)
    requires forall a | a in doc.agents :: !(a.synced && a.approved)
    requires i < |ListOf(m, kind)| && !TakesReport(m, doc, kind, i)
    ensures i < |After(m, doc, kind)| && After(m, doc, kind)[i] == ListOf(m, kind)[i]
  {
    UnreportedAfterPoll(m, doc, kind, i);
  }

  /* ---------- what is reported ---------- */

  function Value(fields: Values, k: string): Json {
    if k in fields then fields[k] else Undefined
  }

  /** The agent's connecting address is public and this is its cluster. */
  predicate ConnectsFrom(a: ServerAgent, cluster: string) {
    a.clusterId == Some(cluster) && cluster != "" && Truthy(a.exitIp)
  }

  function LastConnecting(agents: seq<ServerAgent>, cluster: string): (a: Option<ServerAgent>)
    ensures a.Some? ==> a.value in agents && ConnectsFrom(a.value, cluster)
  {
    if agents == [] then None
    else if ConnectsFrom(agents[|agents| - 1], cluster) then Some(agents[|agents| - 1])
    else LastConnecting(agents[..|agents| - 1], cluster)
  }

  lemma {:induction false} ExitsAre(agents: seq<ServerAgent>, id: string)
    ensures var a := LastConnecting(agents, id);
            if a.Some? then id in Exits(agents) && Some(Exits(agents)[id]) == a.value.exitIp else id !in Exits(agents)
  {
    if agents != [] {
      ExitsAre(agents[..|agents| - 1], id);
    }
  }

  /** What a reported record shows: the address its agents connect from for a cluster, else what is reported. */
  function Detected(doc: ServerState, kind: Kind, n: Rec, k: string): Json {
    var a := LastConnecting(doc.agents, n.id);
    if kind == ClusterKind && k == "egressIp" && a.Some? then Str(a.value.exitIp.value) else Value(n.fields, k)
  }

  /** An assignment stays; a service without one takes the application its label names, if that still exists. */
  function Assignment(m: Model, kind: Kind, n: Rec, own: Option<string>): Option<string> {
    if kind == ServiceKind && !Truthy(own) && Truthy(n.applicationHint) && n.applicationHint.value in m.applications
    then n.applicationHint else own
  }

  /** The same to everyone who reads it. */
  ghost predicate ShowsDetected(doc: ServerState, kind: Kind, n: Rec, r: Rec) {
    forall k :: DeepEqual(Detected(doc, kind, n, k), Value(r.fields, k))
  }

  lemma TweakedIs(m: Model, doc: ServerState, kind: Kind, n: Rec, r: Rec)
    requires r.id == n.id && r.fields == n.fields && r.applicationHint == n.applicationHint
    ensures var t := Tweaked(MergeFor(kind, m.applications, doc).tweak, r);
            && t == r.(fields := t.fields, applicationId := Assignment(m, kind, n, r.applicationId))
            && forall k :: Value(t.fields, k) == Detected(doc, kind, n, k)
  {
    ExitsAre(doc.agents, n.id);
  }

  lemma EqualFieldsShowTheSame(f: Values, g: Values, k: string)
    requires DeepEqual(Obj(f), Obj(g))
    ensures DeepEqual(Value(f, k), Value(g, k))
  {
  }

  /** What people own: the overrides, and the assignments discovery does not report. */
  predicate KeepsOwn(m: Model, kind: Kind, n: Rec, e: Rec, r: Rec) {
    && r.overrides == e.overrides
    && r.siteId == (if n.siteId.None? then e.siteId else n.siteId)
    && r.applicationId == Assignment(m, kind, n, if n.applicationId.None? then e.applicationId else n.applicationId)
  }

  predicate IsAsReported(n: Rec, r: Rec) {
    && r.id == n.id && r.discovered == n.discovered && r.agentId == n.agentId && r.deletedAt == n.deletedAt
    && r.applicationHint == n.applicationHint && ValuesEqual(n.overrideMeta, r.overrideMeta)
  }

  /** A record that is reported shows what is reported last, and keeps what people own. */
  lemma ReportedAfterPoll(m: Model, doc: ServerState, kind: Kind, i: nat, n: Rec)
    requires i < |ListOf(m, kind)| && TakesReport(m, doc, kind, i)
    requires n.id == ListOf(m, kind)[i].id && IsLastReport(doc, kind, n)
    ensures i < |After(m, doc, kind)|
    ensures var e, r := ListOf(m, kind)[i], After(m, doc, kind)[i];
            ShowsDetected(doc, kind, n, r) && IsAsReported(n, r) && KeepsOwn(m, kind, n, e, r)
  {
    StoredAfter(m, doc, kind, i);
    TheReport(m, doc, kind, i, n);
    UpdatedShows(m, doc, kind, n, ListOf(m, kind)[i]);
  }

  lemma UpdatedShows(m: Model, doc: ServerState, kind: Kind, n: Rec, e: Rec)
    requires n.id == e.id
    ensures var r := Updated(MergeFor(kind, m.applications, doc), e, Some(n));
            ShowsDetected(doc, kind, n, r) && IsAsReported(n, r) && KeepsOwn(m, kind, n, e, r)
  {
    var merge := MergeFor(kind, m.applications, doc);
    var result := Tweaked(merge.tweak, MergeOne(n, e));
    TweakedIs(m, doc, kind, n, MergeOne(n, e));
    if n.overrideMeta.Some? {
      DeepEqualReflexive(Obj(n.overrideMeta.value));
    }
    forall k
      ensures DeepEqual(Detected(doc, kind, n, k), Value(Updated(merge, e, Some(n)).fields, k))
    {
      DeepEqualReflexive(Value(result.fields, k));
      if RecEqual(result, e) {
        EqualFieldsShowTheSame(result.fields, e.fields, k);
      }
    }
  }

  /* ---------- what is new ---------- */

  predicate IsHeld(m: Model, kind: Kind, id: string) {
    exists r | r in ListOf(m, kind) :: r.id == id
  }

  /** Where an id is reported first, or the length of the list. */
  function FirstReport(incoming: seq<Rec>, id: string): (i: nat)
    ensures i <= |incoming| && (i < |incoming| ==> incoming[i].id == id)
    ensures forall j | 0 <= j < i :: incoming[j].id != id
  {
    if incoming == [] then 0
    else
      var k := |incoming| - 1;
      var i := FirstReport(incoming[..k], id);
      if i < k then i else if incoming[k].id == id then k else k + 1
  }

  lemma FirstStays(incoming: seq<Rec>, n: Rec, id: string)
    ensures FirstReport(incoming + [n], id)
            == var i := FirstReport(incoming, id);
               if i < |incoming| then i else if n.id == id then |incoming| else |incoming| + 1
  {
    assert (incoming + [n])[..|incoming|] == incoming;
  }

  lemma {:induction false} OrderHasAll(incoming: seq<Rec>)
    ensures forall id | id in ById(incoming) :: id in Order(incoming)
    ensures forall id | id in Order(incoming) :: FirstReport(incoming, id) < |incoming|
  {
    if incoming != [] {
      var k := |incoming| - 1;
      OrderHasAll(incoming[..k]);
      assert incoming == incoming[..k] + [incoming[k]];
      forall id | id in Order(incoming)
        ensures FirstReport(incoming, id) < |incoming|
      {
        FirstStays(incoming[..k], incoming[k], id);
      }
    }
  }

  ghost predicate InOrder(incoming: seq<Rec>, ids: seq<string>) {
    forall j, l | 0 <= j < l < |ids| :: FirstReport(incoming, ids[j]) < FirstReport(incoming, ids[l])
  }

  lemma {:induction false} OrderIs(incoming: seq<Rec>)
    ensures InOrder(incoming, Order(incoming))
  {
    if incoming != [] {
      var k := |incoming| - 1;
      var done, last := Order(incoming[..k]), incoming[k];
      OrderIs(incoming[..k]);
      OrderHasAll(incoming[..k]);
      assert incoming == incoming[..k] + [last];
      forall j | 0 <= j < |done|
        ensures FirstReport(incoming, done[j]) == FirstReport(incoming[..k], done[j]) < k
      {
        assert done[j] in done;
        FirstStays(incoming[..k], last, done[j]);
      }
      if last.id !in done {
        FirstStays(incoming[..k], last, last.id);
        NotYetReported(incoming[..k], last.id);
      }
    }
  }

  lemma NotYetReported(incoming: seq<Rec>, id: string)
    requires id !in Order(incoming)
    ensures FirstReport(incoming, id) == |incoming|
  {
    OrderHasAll(incoming);
    ByIdAre(incoming, id);
  }

  function NotIn(held: set<string>): string -> bool {
    id => id !in held
  }

  lemma {:induction false} NewIdsAre(order: seq<string>, held: set<string>)
    ensures Thins(order, NewIds(order, held), NotIn(held))
  {
    if order != [] {
      var k := |order| - 1;
      NewIdsAre(order[..k], held);
      ThinsMore(order, NewIds(order[..k], held), NewIds(order, held), NotIn(held));
    }
  }

  ghost predicate IsNewcomer(m: Model, doc: ServerState, kind: Kind, id: string) {
    IsReported(doc, kind, id) && !IsHeld(m, kind, id)
  }

  function IdsFrom(list: seq<Rec>, at: nat): (ids: seq<string>)
    requires at <= |list|
    ensures |ids| == |list| - at
  {
    seq(|list| - at, j requires 0 <= j < |list| - at => list[at + j].id)
  }

  ghost predicate AreNewcomers(m: Model, doc: ServerState, kind: Kind, ids: seq<string>) {
    (forall id :: id in ids <==> IsNewcomer(m, doc, kind, id)) && InOrder(ReportedOf(doc, kind), ids)
  }

  /** After the stored records come the new ones: each reported id nothing was held under, by first report. */
  lemma NewcomersAre(m: Model, doc: ServerState, kind: Kind)
    ensures |After(m, doc, kind)| >= |ListOf(m, kind)|
    ensures AreNewcomers(m, doc, kind, IdsFrom(After(m, doc, kind), |ListOf(m, kind)|))
  {
    IdsAfter(m, doc, kind);
    ArrivalsAreNewcomers(m, doc, kind);
  }

  lemma ArrivalsAreNewcomers(m: Model, doc: ServerState, kind: Kind)
    ensures AreNewcomers(m, doc, kind, Arrivals(ListOf(m, kind), ReportedOf(doc, kind)))
  {
    ArrivalsAre(ListOf(m, kind), ReportedOf(doc, kind));
    forall id
      ensures id in ById(ReportedOf(doc, kind)) <==> IsReported(doc, kind, id)
      ensures id in IdsOf(ListOf(m, kind)) <==> IsHeld(m, kind, id)
    {
      ByIdAre(ReportedOf(doc, kind), id);
    }
  }

  lemma FullIdsFrom(m: Merge, existing: seq<Rec>, incoming: seq<Rec>, left: Refs)
    ensures IdsFrom(Full(m, existing, incoming, left), |existing|) == Arrivals(existing, incoming)
  {
    FullIds(m, existing, incoming, left);
  }

  lemma IdsAfter(m: Model, doc: ServerState, kind: Kind)
    ensures |After(m, doc, kind)| >= |ListOf(m, kind)|
    ensures IdsFrom(After(m, doc, kind), |ListOf(m, kind)|) == Arrivals(ListOf(m, kind), ReportedOf(doc, kind))
  {
    var left, end := PolledListIs(m, doc, kind);
    var merge := MergeFor(kind, m.applications, doc);
    MergedIsFull(merge, ListOf(m, kind), ReportedOf(doc, kind), left);
    FullIdsFrom(merge, ListOf(m, kind), ReportedOf(doc, kind), left);
  }

  lemma ArrivalsAre(was: seq<Rec>, incoming: seq<Rec>)
    ensures var ids := Arrivals(was, incoming);
            && (forall id :: id in ids <==> id in ById(incoming) && id !in IdsOf(was))
            && InOrder(incoming, ids)
  {
    OrderIs(incoming);
    OrderHasAll(incoming);
    NewIdsAre(Order(incoming), IdsOf(was));
    ThinsIn(Order(incoming), Arrivals(was, incoming), NotIn(IdsOf(was)));
  }

  /** What was said before about a record that is new: it is said of the record now. */
  predicate CarriesRef(m: Model, kind: Kind, n: Rec, ref: Option<Ref>, r: Rec) {
    if ref.Some? then
      && r.overrides == ref.value.overrides && r.overrideMeta == ref.value.overrideMeta
      && r.siteId == (if kind == ClusterKind && Truthy(ref.value.siteId) then ref.value.siteId else None)
      && r.applicationId
         == Assignment(m, kind, n, if Truthy(ref.value.applicationId) then ref.value.applicationId else None)
    else
      r.overrides == n.overrides && r.overrideMeta == n.overrideMeta && r.siteId.None?
      && r.applicationId == Assignment(m, kind, n, None)
  }

  /** A new record shows what is reported last, with what was said about it before; and that is no longer kept apart. */
  lemma NewAfterPoll(m: Model, doc: ServerState, kindOf: string -> Kind, kind: Kind, i: nat, n: Rec)
    requires RefsWellKept(m.refs, kindOf) && CleanDoc(doc, kindOf)
    requires |ListOf(m, kind)| <= i < |After(m, doc, kind)|
    requires n.id == After(m, doc, kind)[i].id && IsLastReport(doc, kind, n)
    ensures var r := After(m, doc, kind)[i];
            && ShowsDetected(doc, kind, n, r)
            && r.discovered == n.discovered && r.agentId == n.agentId && r.deletedAt == n.deletedAt
            && CarriesRef(m, kind, n, Lookup(m.refs, n.id), r)
    ensures n.id !in Polled(m, doc).model.refs
  {
    CleanOf(doc, kindOf, kind);
    assert n in ReportedOf(doc, kind) && Unassigned(n) && kindOf(n.id) == kind;
    var left := NewIsLanded(m, doc, kind, i, n);
    RefAtLanding(m, doc, kindOf, kind, n, left);
    LandedShows(m, doc, kind, n, left);
    RefIsTaken(m, doc, kindOf, kind, n);
  }

  lemma NewIsLanded(m: Model, doc: ServerState, kind: Kind, i: nat, n: Rec) returns (left: Refs)
    requires |ListOf(m, kind)| <= i < |After(m, doc, kind)|
    requires n.id == After(m, doc, kind)[i].id && IsLastReport(doc, kind, n)
    ensures After(m, doc, kind)[i] == Landed(MergeFor(kind, m.applications, doc), n, left)
    ensures IsBefore(m, doc, kind, left)
    ensures n.id in Arrivals(ListOf(m, kind), ReportedOf(doc, kind))
  {
    var end;
    left, end := PolledListIs(m, doc, kind);
    var merge := MergeFor(kind, m.applications, doc);
    var was, incoming := ListOf(m, kind), ReportedOf(doc, kind);
    MergedIsFull(merge, was, incoming, left);
    FullAtArrival(merge, was, incoming, left, i - |was|);
    LastIsById(doc, kind, n);
    assert Arrivals(was, incoming)[i - |was|] in Arrivals(was, incoming);
  }

  lemma LastIsById(doc: ServerState, kind: Kind, n: Rec)
    requires IsLastReport(doc, kind, n)
    ensures n.id in ById(ReportedOf(doc, kind)) && ById(ReportedOf(doc, kind))[n.id] == n
  {
    var incoming := ReportedOf(doc, kind);
    var i :| 0 <= i < |incoming| && incoming[i] == n && forall j | i < j < |incoming| :: incoming[j].id != n.id;
    ByIdIsLast(incoming, i);
  }

  /** The refs when a list's turn comes. */
  predicate IsBefore(m: Model, doc: ServerState, kind: Kind, left: Refs) {
    var t := ChainOf(m, doc);
    match kind
    case ClusterKind => left == m.refs
    case NodeKind => left == t.a
    case NamespaceKind => left == t.b
    case ServiceKind => left == t.c
  }

  lemma RefIsTaken(m: Model, doc: ServerState, kindOf: string -> Kind, kind: Kind, n: Rec)
    requires RefsWellKept(m.refs, kindOf) && CleanDoc(doc, kindOf)
    requires n.id in Arrivals(ListOf(m, kind), ReportedOf(doc, kind))
    ensures n.id !in Polled(m, doc).model.refs
  {
    var left, end := PolledListIs(m, doc, kind);
    RefsAreWhatIsLeft(m, doc);
    ChainIsMoved(m, doc, kindOf);
    assert n.id !in end;
  }

  lemma RefAtLanding(m: Model, doc: ServerState, kindOf: string -> Kind, kind: Kind, n: Rec, left: Refs)
    requires RefsWellKept(m.refs, kindOf) && CleanDoc(doc, kindOf) && kindOf(n.id) == kind
    requires IsBefore(m, doc, kind, left)
    ensures Lookup(left, n.id) == Lookup(m.refs, n.id) && (n.id in left ==> left[n.id].kind == kind)
  {
    ChainIsMoved(m, doc, kindOf);
    SameAround(m, ChainOf(m, doc), kindOf);
  }

  lemma LandedShows(m: Model, doc: ServerState, kind: Kind, n: Rec, left: Refs)
    requires Unassigned(n) && (n.id in left ==> left[n.id].kind == kind)
    ensures var r := Landed(MergeFor(kind, m.applications, doc), n, left);
            && ShowsDetected(doc, kind, n, r)
            && r.discovered == n.discovered && r.agentId == n.agentId && r.deletedAt == n.deletedAt
            && CarriesRef(m, kind, n, Lookup(left, n.id), r)
  {
    var merge := MergeFor(kind, m.applications, doc);
    var plain := if n.id in left then ApplyRef(n, Some(left[n.id]), kind) else n;
    TweakedIs(m, doc, kind, n, plain);
    forall k
      ensures DeepEqual(Detected(doc, kind, n, k), Value(Landed(merge, n, left).fields, k))
    {
      DeepEqualReflexive(Detected(doc, kind, n, k));
    }
  }
}
