/**
 What people said survives every run. A statement about a discovered id (its overrides, and a
 cluster's site) is held on the record or, while the record is away, as a ref; polls, reductions
 to declared intent and reloads move it between the two, and only saying something else changes it.
 */
module Statements {
  import opened Options
  import opened Records
  import opened Discovered
  import opened DiscoveredLaws
  import opened Declared
  import opened DeclaredLaws

  datatype Statement = Statement(overrides: Values, siteId: Option<string>)

  const SILENCE := Statement(map[], None)

  function Said(kind: Kind, overrides: Option<Values>, siteId: Option<string>): Statement {
    Statement(if overrides.Some? then overrides.value else map[],
              if kind == ClusterKind && Truthy(siteId) then siteId else None)
  }

  function SaidOn(kind: Kind, r: Rec): Statement {
    Said(kind, r.overrides, r.siteId)
  }

  /** What is stated about an id: on the record that is held, else in the ref, else nothing. */
  function StatedIn(list: seq<Rec>, refs: Refs, kind: Kind, id: string): Statement {
    var r := FindRec(list, id);
    if r.Some? then SaidOn(kind, r.value)
    else if id in refs then Said(kind, refs[id].overrides, refs[id].siteId)
    else SILENCE
  }

  ghost function Stated(m: Model, kindOf: string -> Kind, id: string): Statement {
    StatedIn(ListOf(m, kindOf(id)), m.refs, kindOf(id), id)
  }

  /* ---------- the steps of a run ---------- */

  datatype Step =
    | PollStep(doc: ServerState)
    | ReduceStep
    | ReloadStep
    | SayStep(id: string, overrides: Values, siteId: Option<string>)

  /** A person says something about a record that is held: the stored overrides, and a cluster's site. */
  function Saying(kind: Kind, r: Rec, overrides: Values, siteId: Option<string>): Rec {
    r.(overrides := Some(overrides), siteId := if kind == ClusterKind then siteId else r.siteId)
  }

  function SayIn(list: seq<Rec>, kind: Kind, id: string, overrides: Values, siteId: Option<string>): (out: seq<Rec>)
    ensures |out| == |list|
  {
    seq(|list|, i requires 0 <= i < |list| =>
        if list[i].id == id then Saying(kind, list[i], overrides, siteId) else list[i])
  }

  ghost function SayAt(m: Model, kindOf: string -> Kind, id: string, overrides: Values, siteId: Option<string>): Model {
    match kindOf(id)
    case ClusterKind => m.(clusters := SayIn(m.clusters, ClusterKind, id, overrides, siteId))
    case NodeKind => m.(nodes := SayIn(m.nodes, NodeKind, id, overrides, siteId))
    case NamespaceKind => m.(namespaces := SayIn(m.namespaces, NamespaceKind, id, overrides, siteId))
    case ServiceKind => m.(services := SayIn(m.services, ServiceKind, id, overrides, siteId))
  }

  ghost function After(m: Model, kindOf: string -> Kind, s: Step): Model {
    match s
    case PollStep(doc) => Polled(m, doc).model
    case ReduceStep => ToDeclared(m).0
    case ReloadStep => Rehydrated(ToDeclared(m).0, m)
    case SayStep(id, overrides, siteId) => SayAt(m, kindOf, id, overrides, siteId)
  }

  ghost function Run(m: Model, kindOf: string -> Kind, steps: seq<Step>): Model {
    if steps == [] then m else After(Run(m, kindOf, steps[..|steps| - 1]), kindOf, steps[|steps| - 1])
  }

  /** The last thing said about an id while its record was held, else what was stated at the start. */
  ghost function LastSaid(m: Model, kindOf: string -> Kind, steps: seq<Step>, id: string): Statement {
    if steps == [] then Stated(m, kindOf, id)
    else
      var k := |steps| - 1;
      var s := steps[k];
      if s.SayStep? && s.id == id && FindRec(ListOf(Run(m, kindOf, steps[..k]), kindOf(id)), id).Some?
      then Said(kindOf(id), Some(s.overrides), s.siteId)
      else LastSaid(m, kindOf, steps[..k], id)
  }

  /** Discovery reports no value that people own, and reports each id under its own kind. */
  ghost predicate CleanReport(incoming: seq<Rec>, kind: Kind, kindOf: string -> Kind) {
    forall n | n in incoming :: n.id != "" && kindOf(n.id) == kind && Unassigned(n) && n.overrides.None?
  }

  ghost predicate CleanDoc(doc: ServerState, kindOf: string -> Kind) {
    && CleanReport(doc.clusters, ClusterKind, kindOf) && CleanReport(doc.nodes, NodeKind, kindOf)
    && CleanReport(doc.namespaces, NamespaceKind, kindOf) && CleanReport(doc.services, ServiceKind, kindOf)
  }

  ghost predicate CleanRun(steps: seq<Step>, kindOf: string -> Kind) {
    forall s | s in steps && s.PollStep? :: CleanDoc(s.doc, kindOf)
  }

  /* ---------- a poll ---------- */

  lemma UpdateKeepsSaid(m: Merge, e: Rec, n: Option<Rec>, kind: Kind)
    requires n.Some? ==> Unassigned(n.value)
    ensures SaidOn(kind, Updated(m, e, n)) == SaidOn(kind, e)
  {
  }

  lemma LandingSaysWhatTheRefSaid(m: Merge, n: Rec, left: Refs)
    requires Unassigned(n) && n.overrides.None?
    requires n.id in left ==> left[n.id].kind == m.kind
    ensures SaidOn(m.kind, Landed(m, n, left)) ==
            if n.id in left then Said(m.kind, left[n.id].overrides, left[n.id].siteId) else SILENCE
  {
  }

  lemma FullDistinct(m: Merge, existing: seq<Rec>, incoming: seq<Rec>, left: Refs)
    requires Distinct(existing)
    ensures Distinct(Full(m, existing, incoming, left))
  {
    var full, ids := Full(m, existing, incoming, left), Arrivals(existing, incoming);
    FullIds(m, existing, incoming, left);
    NewIdsDistinct(Order(incoming), IdsOf(existing));
    forall i, j | 0 <= i < j < |full|
      ensures full[i].id != full[j].id
    {
      if i < |existing| <= j {
        assert full[|existing| + (j - |existing|)].id == ids[j - |existing|];
        assert ids[j - |existing|] in ids;
        assert existing[i] in existing && existing[i].id in IdsOf(existing);
      } else if |existing| <= i {
        assert full[|existing| + (i - |existing|)].id == ids[i - |existing|];
        assert full[|existing| + (j - |existing|)].id == ids[j - |existing|];
      }
    }
  }

  lemma FindAtPosition(list: seq<Rec>, i: nat)
    requires Distinct(list) && i < |list|
    ensures FindRec(list, list[i].id) == Some(list[i])
  {
    FindThe(list, list[i]);
  }

  lemma StoredSaysTheSame(m: Merge, existing: seq<Rec>, incoming: seq<Rec>, left: Refs, id: string)
    requires Distinct(existing) && FindRec(existing, id).Some?
    requires forall n | n in incoming :: Unassigned(n)
    ensures FindRec(Full(m, existing, incoming, left), id).Some?
    ensures SaidOn(m.kind, FindRec(Full(m, existing, incoming, left), id).value)
            == SaidOn(m.kind, FindRec(existing, id).value)
  {
    FindIs(existing, id);
    var i :| 0 <= i < |existing| && existing[i] == FindRec(existing, id).value;
    FullAtStored(m, existing, incoming, left, i);
    FullDistinct(m, existing, incoming, left);
    FindAtPosition(Full(m, existing, incoming, left), i);
    UpdateKeepsSaid(m, existing[i], ReportFor(existing, i, ById(incoming)), m.kind);
  }

  /** The record that lands for an id is the one found under it afterwards. */
  lemma ArrivalIsFound(m: Merge, existing: seq<Rec>, incoming: seq<Rec>, left: Refs, id: string)
    requires Distinct(existing) && id in Arrivals(existing, incoming)
    ensures FindRec(Full(m, existing, incoming, left), id) == Some(Landed(m, ById(incoming)[id], left))
  {
    var ids := Arrivals(existing, incoming);
    var j :| 0 <= j < |ids| && ids[j] == id;
    FullAtArrival(m, existing, incoming, left, j);
    FullDistinct(m, existing, incoming, left);
    FindAtPosition(Full(m, existing, incoming, left), |existing| + j);
  }

  lemma ArrivalSaysTheSame(m: Merge, existing: seq<Rec>, incoming: seq<Rec>, left: Refs, id: string)
    requires Distinct(existing) && id in Arrivals(existing, incoming)
    requires forall n | n in incoming :: Unassigned(n) && n.overrides.None?
    requires id in left ==> left[id].kind == m.kind
    ensures FindRec(Full(m, existing, incoming, left), id).Some?
    ensures SaidOn(m.kind, FindRec(Full(m, existing, incoming, left), id).value)
            == if id in left then Said(m.kind, left[id].overrides, left[id].siteId) else SILENCE
  {
    ArrivalIsFound(m, existing, incoming, left, id);
    LandingSaysWhatTheRefSaid(m, ById(incoming)[id], left);
  }

  lemma OthersStayAway(m: Merge, existing: seq<Rec>, incoming: seq<Rec>, left: Refs, id: string)
    requires FindRec(existing, id).None? && id !in Arrivals(existing, incoming)
    ensures FindRec(Full(m, existing, incoming, left), id).None?
  {
    var full, ids := Full(m, existing, incoming, left), Arrivals(existing, incoming);
    FullIds(m, existing, incoming, left);
    FindIs(existing, id);
    FindIs(full, id);
    forall i | 0 <= i < |full|
      ensures full[i].id != id
    {
      if i < |existing| {
        assert existing[i] in existing;
      } else {
        assert full[|existing| + (i - |existing|)].id == ids[i - |existing|];
        assert ids[i - |existing|] in ids;
      }
    }
  }

  /** A merged list states what the stored one and the refs stated. */
  lemma FullSaysTheSame(m: Merge, existing: seq<Rec>, incoming: seq<Rec>, left: Refs,
                        kindOf: string -> Kind, id: string)
    requires ListWellKept(existing, left, m.kind, kindOf) && RefsWellKept(left, kindOf)
    requires CleanReport(incoming, m.kind, kindOf) && kindOf(id) == m.kind
    ensures StatedIn(Full(m, existing, incoming, left), Without(left, Arrivals(existing, incoming)), m.kind, id)
            == StatedIn(existing, left, m.kind, id)
  {
    FindIs(existing, id);
    if FindRec(existing, id).Some? {
      StoredSaysTheSame(m, existing, incoming, left, id);
    } else if id in Arrivals(existing, incoming) {
      ArrivalSaysTheSame(m, existing, incoming, left, id);
    } else {
      OthersStayAway(m, existing, incoming, left, id);
    }
  }

  lemma FullWellKept(m: Merge, existing: seq<Rec>, incoming: seq<Rec>, left: Refs, kindOf: string -> Kind)
    requires ListWellKept(existing, left, m.kind, kindOf) && RefsWellKept(left, kindOf)
    requires CleanReport(incoming, m.kind, kindOf)
    ensures ListWellKept(Full(m, existing, incoming, left), Without(left, Arrivals(existing, incoming)), m.kind, kindOf)
  {
    var full, ids := Full(m, existing, incoming, left), Arrivals(existing, incoming);
    FullIds(m, existing, incoming, left);
    FullDistinct(m, existing, incoming, left);
    forall r | r in full
      ensures r.id != "" && kindOf(r.id) == m.kind && r.id !in Without(left, ids)
    {
      var i :| 0 <= i < |full| && full[i] == r;
      if i < |existing| {
        assert existing[i] in existing;
      } else {
        assert full[|existing| + (i - |existing|)].id == ids[i - |existing|];
        assert ids[i - |existing|] in ids;
      }
    }
  }

  lemma MergeKeepsStatements(m: Merge, existing: seq<Rec>, incoming: seq<Rec>, left: Refs, kindOf: string -> Kind)
    requires ListWellKept(existing, left, m.kind, kindOf) && RefsWellKept(left, kindOf)
    requires CleanReport(incoming, m.kind, kindOf)
    ensures var r := MergedList(m, existing, incoming, left);
            && ListWellKept(r.list, r.left, m.kind, kindOf)
            && RefsWellKept(r.left, kindOf)
            && r.left.Keys <= left.Keys
            && (forall id | kindOf(id) == m.kind ::
                StatedIn(r.list, r.left, m.kind, id) == StatedIn(existing, left, m.kind, id))
            && forall id | kindOf(id) != m.kind :: Lookup(r.left, id) == Lookup(left, id)
  {
    var r, ids := MergedList(m, existing, incoming, left), Arrivals(existing, incoming);
    forall id | id in ids
      ensures kindOf(id) == m.kind
    {
      assert ById(incoming)[id] in incoming;
    }
    if r.changed {
      FullWellKept(m, existing, incoming, left, kindOf);
      forall id | kindOf(id) == m.kind
        ensures StatedIn(r.list, r.left, m.kind, id) == StatedIn(existing, left, m.kind, id)
      {
        FullSaysTheSame(m, existing, incoming, left, kindOf, id);
      }
    } else {
      assert Without(left, []) == left;
    }
  }

  lemma StillWellKept(list: seq<Rec>, refs: Refs, left: Refs, kind: Kind, kindOf: string -> Kind)
    requires ListWellKept(list, refs, kind, kindOf) && left.Keys <= refs.Keys
    ensures ListWellKept(list, left, kind, kindOf)
  {
  }

  lemma SameRefSameStatement(list: seq<Rec>, refs: Refs, left: Refs, kind: Kind, id: string)
    requires Lookup(left, id) == Lookup(refs, id)
    ensures StatedIn(list, left, kind, id) == StatedIn(list, refs, kind, id)
  {
  }

  /** One list of a poll, between the refs the lists before it and the lists after it leave. */
  lemma ListThroughPoll(m: Merge, existing: seq<Rec>, incoming: seq<Rec>, refs: Refs, left: Refs, end: Refs,
                        kindOf: string -> Kind)
    requires ListWellKept(existing, refs, m.kind, kindOf) && RefsWellKept(left, kindOf)
    requires CleanReport(incoming, m.kind, kindOf)
    requires left.Keys <= refs.Keys && forall id | kindOf(id) == m.kind :: Lookup(left, id) == Lookup(refs, id)
    requires var r := MergedList(m, existing, incoming, left);
             end.Keys <= r.left.Keys && forall id | kindOf(id) == m.kind :: Lookup(end, id) == Lookup(r.left, id)
    ensures ListWellKept(MergedList(m, existing, incoming, left).list, end, m.kind, kindOf)
    ensures forall id | kindOf(id) == m.kind ::
              StatedIn(MergedList(m, existing, incoming, left).list, end, m.kind, id)
                == StatedIn(existing, refs, m.kind, id)
  {
    var r := MergedList(m, existing, incoming, left);
    StillWellKept(existing, refs, left, m.kind, kindOf);
    MergeKeepsStatements(m, existing, incoming, left, kindOf);
    StillWellKept(r.list, r.left, end, m.kind, kindOf);
    forall id | kindOf(id) == m.kind
      ensures StatedIn(r.list, end, m.kind, id) == StatedIn(existing, refs, m.kind, id)
    {
      SameRefSameStatement(existing, refs, left, m.kind, id);
      SameRefSameStatement(r.list, r.left, end, m.kind, id);
    }
  }

  ghost predicate OnlyKindMoved(before: Refs, after: Refs, kind: Kind, kindOf: string -> Kind) {
    && after.Keys <= before.Keys
    && forall id | kindOf(id) != kind :: Lookup(after, id) == Lookup(before, id)
  }

  lemma RefsThroughMerge(m: Merge, existing: seq<Rec>, incoming: seq<Rec>, left: Refs, kindOf: string -> Kind)
    requires RefsWellKept(left, kindOf) && CleanReport(incoming, m.kind, kindOf)
    ensures var r := MergedList(m, existing, incoming, left);
            RefsWellKept(r.left, kindOf) && OnlyKindMoved(left, r.left, m.kind, kindOf)
  {
    forall id | id in Arrivals(existing, incoming)
      ensures kindOf(id) == m.kind
    {
      assert ById(incoming)[id] in incoming;
    }
  }

  ghost predicate KeptIn(m: Model, n: Model, kind: Kind, kindOf: string -> Kind) {
    && ListWellKept(ListOf(n, kind), n.refs, kind, kindOf)
    && forall id | kindOf(id) == kind :: Stated(n, kindOf, id) == Stated(m, kindOf, id)
  }

  /** The refs the four lists of a poll leave, one after the other. */
  datatype Chain = Chain(a: Refs, b: Refs, c: Refs, d: Refs)

  function ChainOf(m: Model, doc: ServerState): Chain {
    var a := MergedList(MergeFor(ClusterKind, m.applications, doc), m.clusters, doc.clusters, m.refs).left;
    var b := MergedList(MergeFor(NodeKind, m.applications, doc), m.nodes, doc.nodes, a).left;
    var c := MergedList(MergeFor(NamespaceKind, m.applications, doc), m.namespaces, doc.namespaces, b).left;
    var d := MergedList(MergeFor(ServiceKind, m.applications, doc), m.services, doc.services, c).left;
    Chain(a, b, c, d)
  }

  ghost predicate ChainMoves(m: Model, t: Chain, kindOf: string -> Kind) {
    && RefsWellKept(t.a, kindOf) && RefsWellKept(t.b, kindOf) && RefsWellKept(t.c, kindOf) && RefsWellKept(t.d, kindOf)
    && OnlyKindMoved(m.refs, t.a, ClusterKind, kindOf) && OnlyKindMoved(t.a, t.b, NodeKind, kindOf)
    && OnlyKindMoved(t.b, t.c, NamespaceKind, kindOf) && OnlyKindMoved(t.c, t.d, ServiceKind, kindOf)
  }

  lemma ChainIsMoved(m: Model, doc: ServerState, kindOf: string -> Kind)
    requires RefsWellKept(m.refs, kindOf) && CleanDoc(doc, kindOf)
    ensures ChainMoves(m, ChainOf(m, doc), kindOf)
  {
    var t := ChainOf(m, doc);
    RefsThroughMerge(MergeFor(ClusterKind, m.applications, doc), m.clusters, doc.clusters, m.refs, kindOf);
    RefsThroughMerge(MergeFor(NodeKind, m.applications, doc), m.nodes, doc.nodes, t.a, kindOf);
    RefsThroughMerge(MergeFor(NamespaceKind, m.applications, doc), m.namespaces, doc.namespaces, t.b, kindOf);
    RefsThroughMerge(MergeFor(ServiceKind, m.applications, doc), m.services, doc.services, t.c, kindOf);
  }

  function ReportedOf(doc: ServerState, kind: Kind): seq<Rec> {
    match kind
    case ClusterKind => doc.clusters
    case NodeKind => doc.nodes
    case NamespaceKind => doc.namespaces
    case ServiceKind => doc.services
  }

  /** As far as one kind goes the refs are the same. */
  ghost predicate SameOfKind(before: Refs, after: Refs, kind: Kind, kindOf: string -> Kind) {
    after.Keys <= before.Keys && forall id | kindOf(id) == kind :: Lookup(after, id) == Lookup(before, id)
  }

  /** Each list of a poll is the merge of that list, with refs that are, as far as its kind goes, the ones
      before the poll. */
  lemma PolledListIs(m: Model, doc: ServerState, kind: Kind) returns (left: Refs, end: Refs)
    ensures ListOf(Polled(m, doc).model, kind)
            == MergedList(MergeFor(kind, m.applications, doc), ListOf(m, kind), ReportedOf(doc, kind), left).list
    ensures end == MergedList(MergeFor(kind, m.applications, doc), ListOf(m, kind), ReportedOf(doc, kind), left).left
    ensures var t := ChainOf(m, doc);
            match kind
            case ClusterKind => left == m.refs && end == t.a
            case NodeKind => left == t.a && end == t.b
            case NamespaceKind => left == t.b && end == t.c
            case ServiceKind => left == t.c && end == t.d
  {
    var t := ChainOf(m, doc);
    match kind
    case ClusterKind => left, end := m.refs, t.a;
    case NodeKind => left, end := t.a, t.b;
    case NamespaceKind => left, end := t.b, t.c;
    case ServiceKind => left, end := t.c, t.d;
  }

  lemma SameAround(m: Model, t: Chain, kindOf: string -> Kind)
    requires RefsWellKept(m.refs, kindOf) && ChainMoves(m, t, kindOf)
    ensures SameOfKind(m.refs, m.refs, ClusterKind, kindOf) && SameOfKind(t.a, t.d, ClusterKind, kindOf)
    ensures SameOfKind(m.refs, t.a, NodeKind, kindOf) && SameOfKind(t.b, t.d, NodeKind, kindOf)
    ensures SameOfKind(m.refs, t.b, NamespaceKind, kindOf) && SameOfKind(t.c, t.d, NamespaceKind, kindOf)
    ensures SameOfKind(m.refs, t.c, ServiceKind, kindOf) && SameOfKind(t.d, t.d, ServiceKind, kindOf)
  {
  }

  lemma CleanOf(doc: ServerState, kindOf: string -> Kind, kind: Kind)
    requires CleanDoc(doc, kindOf)
    ensures CleanReport(ReportedOf(doc, kind), kind, kindOf)
  {
  }

  lemma PollKeepsKind(m: Model, doc: ServerState, kindOf: string -> Kind, kind: Kind)
    requires WellKept(m, kindOf) && CleanDoc(doc, kindOf)
    ensures KeptIn(m, Polled(m, doc).model, kind, kindOf)
  {
    var t := ChainOf(m, doc);
    assert ListWellKept(ListOf(m, kind), m.refs, kind, kindOf);
    RefsAreWhatIsLeft(m, doc);
    ChainIsMoved(m, doc, kindOf);
    SameAround(m, t, kindOf);
    CleanOf(doc, kindOf, kind);
    var left, end := PolledListIs(m, doc, kind);
    ListThroughPoll(MergeFor(kind, m.applications, doc), ListOf(m, kind), ReportedOf(doc, kind), m.refs, left,
                    t.d, kindOf);
  }

  lemma PollKeepsStatements(m: Model, doc: ServerState, kindOf: string -> Kind)
    requires WellKept(m, kindOf) && CleanDoc(doc, kindOf)
    ensures WellKept(Polled(m, doc).model, kindOf)
    ensures forall id :: Stated(Polled(m, doc).model, kindOf, id) == Stated(m, kindOf, id)
  {
    var n := Polled(m, doc).model;
    RefsAreWhatIsLeft(m, doc);
    ChainIsMoved(m, doc, kindOf);
    forall kind: Kind
      ensures KeptIn(m, n, kind, kindOf)
    {
      PollKeepsKind(m, doc, kindOf, kind);
    }
    AllKindsKept(m, n, kindOf);
  }

  lemma AllKindsKept(m: Model, n: Model, kindOf: string -> Kind)
    requires RefsWellKept(n.refs, kindOf) && forall kind: Kind :: KeptIn(m, n, kind, kindOf)
    ensures WellKept(n, kindOf)
    ensures forall id :: Stated(n, kindOf, id) == Stated(m, kindOf, id)
  {
    forall kind: Kind
      ensures ListWellKept(ListOf(n, kind), n.refs, kind, kindOf)
    {
      assert KeptIn(m, n, kind, kindOf);
    }
    forall id: string
      ensures Stated(n, kindOf, id) == Stated(m, kindOf, id)
    {
      assert KeptIn(m, n, kindOf(id), kindOf);
    }
  }

  /* ---------- reducing and reloading ---------- */

  lemma SpeaksTheSame(kind: Kind, r: Rec)
    ensures RefOf(kind, r).Some?
            ==> Said(kind, RefOf(kind, r).value.overrides, RefOf(kind, r).value.siteId) == SaidOn(kind, r)
    ensures RefOf(kind, r).None? ==> SaidOn(kind, r) == SILENCE
  {
  }

  lemma SilentRef(kind: Kind, ref: Ref)
    requires IsRefEmpty(ref)
    ensures Said(kind, ref.overrides, ref.siteId) == SILENCE
  {
  }

  lemma FindTyped(list: seq<Rec>, id: string)
    requires Distinct(list)
    ensures FindRec(Typed(list), id) ==
            if FindRec(list, id).Some? && !FindRec(list, id).value.discovered then FindRec(list, id) else None
  {
    FindIs(list, id);
    FindIs(Typed(list), id);
    FoundAre(list);
    FoundDistinct(list);
    if FindRec(Typed(list), id).Some? {
      FindThe(list, FindRec(Typed(list), id).value);
    } else if FindRec(list, id).Some? {
      assert FindRec(list, id).value.discovered;
    }
  }

  lemma ReduceKeepsStatement(m: Model, kindOf: string -> Kind, id: string)
    requires WellKept(m, kindOf) && id != ""
    ensures Stated(ToDeclared(m).0, kindOf, id) == Stated(m, kindOf, id)
  {
    var kind := kindOf(id);
    assert ListWellKept(ListOf(m, kind), m.refs, kind, kindOf);
    DeclaredListsAre(m, kind);
    DeclaredRefsAre(m, kindOf, id);
    FindTyped(ListOf(m, kind), id);
    FindIs(ListOf(m, kind), id);
    var r := FindRec(ListOf(m, kind), id);
    if r.Some? {
      SpeaksTheSame(kind, r.value);
    } else if id in m.refs && IsRefEmpty(m.refs[id]) {
      SilentRef(kind, m.refs[id]);
    }
  }

  lemma NobodyNamedEmpty(m: Model, kindOf: string -> Kind)
    requires WellKept(m, kindOf)
    ensures Stated(m, kindOf, "") == SILENCE
  {
    var kind := kindOf("");
    assert ListWellKept(ListOf(m, kind), m.refs, kind, kindOf);
    FindIs(ListOf(m, kind), "");
  }

  lemma DeclaredRefsWellKept(m: Model, kindOf: string -> Kind)
    requires WellKept(m, kindOf)
    ensures RefsWellKept(ToDeclared(m).0.refs, kindOf)
  {
    var d := ToDeclared(m).0;
    forall id | id in d.refs
      ensures id != "" && d.refs[id].kind == kindOf(id)
    {
      assert d.refs == Speaking(ReducedRefs(m));
      DeclaredRefsAre(m, kindOf, id);
      var r := FindRec(ListOf(m, kindOf(id)), id);
      if r.Some? && r.value.discovered {
        RefOfSpeaks(kindOf(id), r.value);
      }
    }
  }

  lemma TypedHasNoRef(m: Model, kindOf: string -> Kind, kind: Kind)
    requires WellKept(m, kindOf)
    ensures ListWellKept(Typed(ListOf(m, kind)), ToDeclared(m).0.refs, kind, kindOf)
  {
    var list := ListOf(m, kind);
    assert ListWellKept(list, m.refs, kind, kindOf);
    FoundAre(list);
    FoundDistinct(list);
    forall r | r in Typed(list)
      ensures r.id !in ToDeclared(m).0.refs
    {
      DeclaredRefsAre(m, kindOf, r.id);
      FindThe(list, r);
    }
  }

  lemma ReduceKeepsWellKept(m: Model, kindOf: string -> Kind)
    requires WellKept(m, kindOf)
    ensures WellKept(ToDeclared(m).0, kindOf)
  {
    DeclaredRefsWellKept(m, kindOf);
    forall kind: Kind
      ensures ListWellKept(ListOf(ToDeclared(m).0, kind), ToDeclared(m).0.refs, kind, kindOf)
    {
      TypedHasNoRef(m, kindOf, kind);
      DeclaredListsAre(m, kind);
    }
  }

  lemma NormalSaysTheSame(kind: Kind, r: Rec)
    ensures SaidOn(kind, Normal(kind, r)) == SaidOn(kind, r)
  {
  }

  lemma TypedApartFromFound(list: seq<Rec>)
    requires Distinct(list)
    ensures forall r, s | r in Typed(list) && s in Found(list) :: r.id != s.id
  {
    FoundAre(list);
    forall r, s | r in Typed(list) && s in Found(list)
      ensures r.id != s.id
    {
      FindThe(list, r);
      FindThe(list, s);
    }
  }

  lemma BackDistinct(m: Model, kind: Kind)
    requires Distinct(ListOf(m, kind))
    ensures Distinct(AllBack(m, kind))
  {
    var list, back := ListOf(m, kind), AllBack(m, kind);
    var typed, found := Typed(list), Found(list);
    FoundDistinct(list);
    TypedApartFromFound(list);
    forall i, j | 0 <= i < j < |back|
      ensures back[i].id != back[j].id
    {
      if i < |typed| <= j {
        assert typed[i] in typed && found[j - |typed|] in found;
      }
    }
  }

  /** A record that came back is one that was held, up to values that say nothing. */
  predicate CameFrom(kind: Kind, r: Rec, s: Rec) {
    s.id == r.id && r == if s.discovered then Normal(kind, s) else s
  }

  lemma BackCameFrom(m: Model, kind: Kind, r: Rec) returns (s: Rec)
    requires r in AllBack(m, kind)
    ensures s in ListOf(m, kind) && CameFrom(kind, r, s)
  {
    var list, back := ListOf(m, kind), AllBack(m, kind);
    var typed, found := Typed(list), Found(list);
    FoundAre(list);
    var i :| 0 <= i < |back| && back[i] == r;
    if i < |typed| {
      s := typed[i];
      assert s in typed;
    } else {
      s := found[i - |typed|];
      assert s in found;
    }
  }

  lemma CameBack(m: Model, kind: Kind, s: Rec) returns (r: Rec)
    requires s in ListOf(m, kind)
    ensures r in AllBack(m, kind) && CameFrom(kind, r, s)
  {
    var list, back := ListOf(m, kind), AllBack(m, kind);
    var typed, found := Typed(list), Found(list);
    FoundAre(list);
    if s.discovered {
      var i :| 0 <= i < |found| && found[i] == s;
      r := back[|typed| + i];
    } else {
      var i :| 0 <= i < |typed| && typed[i] == s;
      r := back[i];
    }
  }

  lemma FindBack(m: Model, kind: Kind, id: string)
    requires Distinct(ListOf(m, kind))
    ensures FindRec(AllBack(m, kind), id).Some? <==> FindRec(ListOf(m, kind), id).Some?
    ensures FindRec(ListOf(m, kind), id).Some? ==>
              SaidOn(kind, FindRec(AllBack(m, kind), id).value) == SaidOn(kind, FindRec(ListOf(m, kind), id).value)
  {
    FindIs(AllBack(m, kind), id);
    FindIs(ListOf(m, kind), id);
    if FindRec(AllBack(m, kind), id).Some? {
      var s := BackCameFrom(m, kind, FindRec(AllBack(m, kind), id).value);
      FindThe(ListOf(m, kind), s);
      NormalSaysTheSame(kind, s);
    } else if FindRec(ListOf(m, kind), id).Some? {
      var r := CameBack(m, kind, FindRec(ListOf(m, kind), id).value);
      assert false;
    }
  }

  lemma FoundOf(m: Model, id: string)
    ensures id in AllFound(m) <==> exists kind: Kind :: id in IdsOf(Found(ListOf(m, kind)))
  {
    assert id in IdsOf(Found(m.clusters)) <==> id in IdsOf(Found(ListOf(m, ClusterKind)));
    assert id in IdsOf(Found(m.nodes)) <==> id in IdsOf(Found(ListOf(m, NodeKind)));
    assert id in IdsOf(Found(m.namespaces)) <==> id in IdsOf(Found(ListOf(m, NamespaceKind)));
    assert id in IdsOf(Found(m.services)) <==> id in IdsOf(Found(ListOf(m, ServiceKind)));
  }

  lemma FoundIsHeld(m: Model, kindOf: string -> Kind, id: string)
    requires WellKept(m, kindOf)
    ensures id in AllFound(m) <==>
            FindRec(ListOf(m, kindOf(id)), id).Some? && FindRec(ListOf(m, kindOf(id)), id).value.discovered
  {
    FoundOf(m, id);
    forall kind: Kind
      ensures id in IdsOf(Found(ListOf(m, kind))) <==>
              FindRec(ListOf(m, kind), id).Some? && FindRec(ListOf(m, kind), id).value.discovered
      ensures FindRec(ListOf(m, kind), id).Some? ==> kindOf(id) == kind
    {
      var list := ListOf(m, kind);
      assert ListWellKept(list, m.refs, kind, kindOf);
      FoundAre(list);
      FindIs(list, id);
      if id in IdsOf(Found(list)) {
        var r :| r in Found(list) && r.id == id;
        FindThe(list, r);
      }
    }
  }

  lemma ReloadKeepsStatement(m: Model, kindOf: string -> Kind, id: string)
    requires WellKept(m, kindOf) && id != ""
    ensures Stated(Rehydrated(ToDeclared(m).0, m), kindOf, id) == Stated(m, kindOf, id)
  {
    var kind := kindOf(id);
    var list := ListOf(m, kind);
    assert ListWellKept(list, m.refs, kind, kindOf);
    ReloadUndoesReduce(m, kindOf);
    FindBack(m, kind, id);
    if FindRec(list, id).None? {
      FoundIsHeld(m, kindOf, id);
      DeclaredRefsAre(m, kindOf, id);
      if id in m.refs && IsRefEmpty(m.refs[id]) {
        SilentRef(kind, m.refs[id]);
      }
    }
  }

  lemma BackWellKept(m: Model, kindOf: string -> Kind, kind: Kind)
    requires WellKept(m, kindOf)
    ensures ListWellKept(AllBack(m, kind), ToDeclared(m).0.refs - AllFound(m), kind, kindOf)
  {
    var list := ListOf(m, kind);
    assert ListWellKept(list, m.refs, kind, kindOf);
    BackDistinct(m, kind);
    forall r | r in AllBack(m, kind)
      ensures r.id != "" && kindOf(r.id) == kind && r.id !in ToDeclared(m).0.refs - AllFound(m)
    {
      var s := BackCameFrom(m, kind, r);
      DeclaredRefsAre(m, kindOf, r.id);
      FindThe(list, s);
      FoundIsHeld(m, kindOf, r.id);
    }
  }

  lemma ReloadKeepsWellKept(m: Model, kindOf: string -> Kind)
    requires WellKept(m, kindOf)
    ensures WellKept(Rehydrated(ToDeclared(m).0, m), kindOf)
  {
    var n := Rehydrated(ToDeclared(m).0, m);
    ReloadUndoesReduce(m, kindOf);
    DeclaredRefsWellKept(m, kindOf);
    forall kind: Kind
      ensures ListWellKept(ListOf(n, kind), n.refs, kind, kindOf)
    {
      BackWellKept(m, kindOf, kind);
    }
  }

  /* ---------- saying something ---------- */

  lemma {:induction false} FindSaid(list: seq<Rec>, kind: Kind, id: string, overrides: Values, siteId: Option<string>,
                                    other: string)
    ensures FindRec(SayIn(list, kind, id, overrides, siteId), other) ==
            var r := FindRec(list, other);
            if r.Some? && other == id then Some(Saying(kind, r.value, overrides, siteId)) else r
  {
    if list != [] {
      var k := |list| - 1;
      assert SayIn(list, kind, id, overrides, siteId)[..k] == SayIn(list[..k], kind, id, overrides, siteId);
      FindSaid(list[..k], kind, id, overrides, siteId, other);
    }
  }

  lemma SayListIs(m: Model, kindOf: string -> Kind, id: string, overrides: Values, siteId: Option<string>, kind: Kind)
    ensures ListOf(SayAt(m, kindOf, id, overrides, siteId), kind) ==
            if kind == kindOf(id) then SayIn(ListOf(m, kind), kind, id, overrides, siteId) else ListOf(m, kind)
  {
  }

  lemma SayKeepsIds(list: seq<Rec>, kind: Kind, id: string, overrides: Values, siteId: Option<string>)
    ensures var said := SayIn(list, kind, id, overrides, siteId);
            forall i | 0 <= i < |list| :: said[i].id == list[i].id
  {
  }

  lemma SameIdsWellKept(list: seq<Rec>, said: seq<Rec>, refs: Refs, kind: Kind, kindOf: string -> Kind)
    requires ListWellKept(list, refs, kind, kindOf)
    requires |said| == |list| && forall i | 0 <= i < |list| :: said[i].id == list[i].id
    ensures ListWellKept(said, refs, kind, kindOf)
  {
    forall r | r in said
      ensures r.id != "" && kindOf(r.id) == kind && r.id !in refs
    {
      var i :| 0 <= i < |said| && said[i] == r;
      assert list[i] in list;
    }
  }

  lemma SayKeepsWellKept(m: Model, kindOf: string -> Kind, id: string, overrides: Values, siteId: Option<string>)
    requires WellKept(m, kindOf)
    ensures WellKept(SayAt(m, kindOf, id, overrides, siteId), kindOf)
  {
    var n := SayAt(m, kindOf, id, overrides, siteId);
    forall kind: Kind
      ensures ListWellKept(ListOf(n, kind), n.refs, kind, kindOf)
    {
      SayListIs(m, kindOf, id, overrides, siteId, kind);
      SayKeepsIds(ListOf(m, kind), kind, id, overrides, siteId);
      assert ListWellKept(ListOf(m, kind), m.refs, kind, kindOf);
      SameIdsWellKept(ListOf(m, kind), ListOf(n, kind), m.refs, kind, kindOf);
    }
  }

  lemma SayIsHeard(m: Model, kindOf: string -> Kind, id: string, overrides: Values, siteId: Option<string>,
                   other: string)
    ensures Stated(SayAt(m, kindOf, id, overrides, siteId), kindOf, other) ==
            if other == id && FindRec(ListOf(m, kindOf(id)), id).Some? then Said(kindOf(id), Some(overrides), siteId)
            else Stated(m, kindOf, other)
  {
    var kind := kindOf(other);
    SayListIs(m, kindOf, id, overrides, siteId, kind);
    FindSaid(ListOf(m, kind), kind, id, overrides, siteId, other);
  }

  /* ---------- every run ---------- */

  lemma StepKeepsStatements(m: Model, kindOf: string -> Kind, s: Step, id: string)
    requires WellKept(m, kindOf) && (s.PollStep? ==> CleanDoc(s.doc, kindOf))
    ensures WellKept(After(m, kindOf, s), kindOf)
    ensures Stated(After(m, kindOf, s), kindOf, id) ==
            if s.SayStep? && s.id == id && FindRec(ListOf(m, kindOf(id)), id).Some?
            then Said(kindOf(id), Some(s.overrides), s.siteId) else Stated(m, kindOf, id)
  {
    match s {
      case PollStep(doc) =>
        PollKeepsStatements(m, doc, kindOf);
      case ReduceStep =>
        ReduceKeepsWellKept(m, kindOf);
        if id == "" {
          NobodyNamedEmpty(m, kindOf);
          NobodyNamedEmpty(ToDeclared(m).0, kindOf);
        } else {
          ReduceKeepsStatement(m, kindOf, id);
        }
      case ReloadStep =>
        ReloadKeepsWellKept(m, kindOf);
        if id == "" {
          NobodyNamedEmpty(m, kindOf);
          NobodyNamedEmpty(Rehydrated(ToDeclared(m).0, m), kindOf);
        } else {
          ReloadKeepsStatement(m, kindOf, id);
        }
      case SayStep(at, overrides, siteId) =>
        SayKeepsWellKept(m, kindOf, at, overrides, siteId);
        SayIsHeard(m, kindOf, at, overrides, siteId, id);
    }
  }

  /** After any run, what is stated about an id is the last thing said about it; and no ref coexists
      with a held record. */
  lemma {:induction false} StatementsSurvive(m: Model, kindOf: string -> Kind, steps: seq<Step>, id: string)
    requires WellKept(m, kindOf) && CleanRun(steps, kindOf)
    ensures WellKept(Run(m, kindOf, steps), kindOf)
    ensures Stated(Run(m, kindOf, steps), kindOf, id) == LastSaid(m, kindOf, steps, id)
  {
    if steps != [] {
      var k := |steps| - 1;
      assert steps[k] in steps && CleanRun(steps[..k], kindOf);
      StatementsSurvive(m, kindOf, steps[..k], id);
      StepKeepsStatements(Run(m, kindOf, steps[..k]), kindOf, steps[k], id);
    }
  }
}
