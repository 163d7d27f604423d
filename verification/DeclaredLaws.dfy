/**
 Reducing and reloading undo each other, and reducing twice is reducing once.
 */
module DeclaredLaws {
  import opened Options
  import opened Records
  import opened Discovered
  import opened Declared

  predicate Distinct(list: seq<Rec>) {
    forall i, j | 0 <= i < j < |list| :: list[i].id != list[j].id
  }

  /** One list of records next to the refs: nothing that is held also has a ref, and every id has its kind. */
  ghost predicate ListWellKept(list: seq<Rec>, refs: Refs, kind: Kind, kindOf: string -> Kind) {
    && Distinct(list)
    && forall r | r in list :: r.id != "" && kindOf(r.id) == kind && r.id !in refs
  }

  ghost predicate RefsWellKept(refs: Refs, kindOf: string -> Kind) {
    "" !in refs && forall id | id in refs :: refs[id].kind == kindOf(id)
  }

  /** Ids are unique across kinds, and no ref coexists with a held record. */
  ghost predicate WellKept(m: Model, kindOf: string -> Kind) {
    && (forall kind: Kind :: ListWellKept(ListOf(m, kind), m.refs, kind, kindOf))
    && RefsWellKept(m.refs, kindOf)
  }

  function Typed(list: seq<Rec>): seq<Rec> {
    if list == [] then []
    else
      var done, last := Typed(list[..|list| - 1]), list[|list| - 1];
      if last.discovered then done else done + [last]
  }

  function Found(list: seq<Rec>): seq<Rec> {
    if list == [] then []
    else
      var done, last := Found(list[..|list| - 1]), list[|list| - 1];
      if last.discovered then done + [last] else done
  }

  /** A record up to values that say nothing: an empty override map, or an empty site. */
  function Normal(kind: Kind, r: Rec): Rec {
    r.(overrides := if NonEmpty(r.overrides) then r.overrides else None,
       overrideMeta := if NonEmpty(r.overrides) && NonEmpty(r.overrideMeta) then r.overrideMeta else None,
       siteId := if kind == ClusterKind && !Truthy(r.siteId) then None else r.siteId)
  }

  function NormalAll(kind: Kind, list: seq<Rec>): (out: seq<Rec>)
    ensures |out| == |list|
  {
    seq(|list|, i requires 0 <= i < |list| => Normal(kind, list[i]))
  }

  /** What a record leaves behind puts back all that matters, accepted application hints included. */
  lemma RefRoundTrip(kind: Kind, r: Rec)
    ensures ApplyRef(r, RefOf(kind, r), kind) == Normal(kind, r)
  {
  }

  /** What a ref says, if it says anything. */
  function Spoken(kind: Kind, ref: Option<Ref>): Option<Ref> {
    if ref.None? then None
    else
      var overrides := if NonEmpty(ref.value.overrides) then ref.value.overrides else None;
      var said :=
        Ref(kind, overrides,
            if overrides.Some? && NonEmpty(ref.value.overrideMeta) then ref.value.overrideMeta else None,
            if Truthy(ref.value.applicationId) then ref.value.applicationId else None,
            if kind == ClusterKind && Truthy(ref.value.siteId) then ref.value.siteId else None);
      if IsRefEmpty(said) then None else Some(said)
  }

  /** The assignment is one a person made: it is not what the record's own label suggests. */
  predicate IsChosen(application: Option<string>, hint: Option<string>) {
    Truthy(application) && application != hint
  }

  /**
   A ref put on a record comes back from it exactly when the record's label does not suggest what the
   ref assigns, and, where the ref assigns nothing, the record has no assignment chosen over its label.
   */
  lemma RefComesBackExactlyWhen(kind: Kind, r: Rec, ref: Option<Ref>)
    ensures RefOf(kind, ApplyRef(r, ref, kind)) == Spoken(kind, ref)
            <==> if ref.Some? && Truthy(ref.value.applicationId)
                 then IsChosen(ref.value.applicationId, r.applicationHint)
                 else !(Truthy(r.applicationHint) && IsChosen(r.applicationId, r.applicationHint))
  {
  }

  /** So an assignment chosen over a label outlives the loading of a workspace that says nothing about the record. */
  lemma ChosenOutlivesLoad(kind: Kind, r: Rec)
    requires Truthy(r.applicationHint) && IsChosen(r.applicationId, r.applicationHint)
    ensures ApplyRef(r, None, kind).applicationId == r.applicationId
    ensures RefOf(kind, ApplyRef(r, None, kind)).Some?
  {
    RefComesBackExactlyWhen(kind, r, None);
  }

  function Lookup(refs: Refs, id: string): Option<Ref> {
    if id in refs then Some(refs[id]) else None
  }

  /* ---------- reducing one list ---------- */

  lemma {:induction false} ReduceKeepsTyped(kind: Kind, list: seq<Rec>, refs: Refs)
    ensures Reduce(kind, list, refs).kept == Typed(list)
    ensures Reduce(kind, list, refs).stripped == |Found(list)|
  {
    if list != [] {
      ReduceKeepsTyped(kind, list[..|list| - 1], refs);
    }
  }

  lemma {:induction false} ReduceElsewhere(kind: Kind, list: seq<Rec>, refs: Refs, id: string)
    requires forall r | r in list :: r.id != id
    ensures Lookup(Reduce(kind, list, refs).refs, id) == Lookup(refs, id)
  {
    if list != [] {
      assert list[|list| - 1] in list;
      ReduceElsewhere(kind, list[..|list| - 1], refs, id);
    }
  }

  lemma {:induction false} ReduceRemembers(kind: Kind, list: seq<Rec>, refs: Refs, i: nat)
    requires Distinct(list) && i < |list| && list[i].id != ""
    ensures Lookup(Reduce(kind, list, refs).refs, list[i].id) ==
            if list[i].discovered && RefOf(kind, list[i]).Some? then RefOf(kind, list[i]) else Lookup(refs, list[i].id)
  {
    var k := |list| - 1;
    if i < k {
      ReduceRemembers(kind, list[..k], refs, i);
    } else {
      ReduceElsewhere(kind, list[..k], refs, list[k].id);
    }
  }

  /* ---------- restoring one list ---------- */

  function AppliedAll(kind: Kind, held: seq<Rec>, refs: Refs): (out: seq<Rec>)
    ensures |out| == |held|
  {
    seq(|held|, i requires 0 <= i < |held| => ApplyRef(held[i], RefFor(refs, held[i].id, kind), kind))
  }

  lemma {:induction false} FoundAre(list: seq<Rec>)
    ensures forall r | r in Found(list) :: r in list && r.discovered
    ensures forall r | r in list && r.discovered :: r in Found(list)
    ensures forall r | r in Typed(list) :: r in list && !r.discovered
    ensures forall r | r in list && !r.discovered :: r in Typed(list)
  {
    if list != [] {
      FoundAre(list[..|list| - 1]);
      assert list == list[..|list| - 1] + [list[|list| - 1]];
    }
  }

  lemma {:induction false} FoundDistinct(list: seq<Rec>)
    requires Distinct(list)
    ensures Distinct(Found(list)) && Distinct(Typed(list))
  {
    if list != [] {
      var k := |list| - 1;
      FoundDistinct(list[..k]);
      FoundAre(list[..k]);
      forall r | r in list[..k]
        ensures r.id != list[k].id
      {
        var i :| 0 <= i < k && list[i] == r;
      }
      DistinctSnoc(if list[k].discovered then Found(list[..k]) else Typed(list[..k]), list[k]);
    }
  }

  lemma DistinctSnoc(list: seq<Rec>, r: Rec)
    requires Distinct(list) && forall s | s in list :: s.id != r.id
    ensures Distinct(list + [r])
  {
  }

  lemma RefForWithout(refs: Refs, gone: set<string>, id: string, kind: Kind)
    requires id !in gone
    ensures RefFor(refs - gone, id, kind) == RefFor(refs, id, kind)
  {
  }

  lemma NotAmongFound(held: seq<Rec>)
    requires Distinct(held) && held != []
    ensures held[|held| - 1].id !in IdsOf(Found(held[..|held| - 1]))
  {
    var k := |held| - 1;
    FoundAre(held[..k]);
    forall r | r in Found(held[..k])
      ensures r.id != held[k].id
    {
      var i :| 0 <= i < k && held[..k][i] == r;
      assert held[i].id != held[k].id;
    }
  }

  lemma AppliedSnoc(kind: Kind, list: seq<Rec>, done: seq<Rec>, last: Rec, refs: Refs)
    requires last.id !in IdsOf(done)
    ensures list + AppliedAll(kind, done, refs) + [ApplyRef(last, RefFor(refs - IdsOf(done), last.id, kind), kind)]
            == list + AppliedAll(kind, done + [last], refs)
    ensures refs - IdsOf(done) - {last.id} == refs - IdsOf(done + [last])
  {
    RefForWithout(refs, IdsOf(done), last.id, kind);
    assert IdsOf(done + [last]) == IdsOf(done) + {last.id};
  }

  lemma {:induction false} RestoreApplies(kind: Kind, list: seq<Rec>, held: seq<Rec>, refs: Refs)
    requires Distinct(held)
    ensures Restore(kind, list, held, refs)
            == Restored(list + AppliedAll(kind, Found(held), refs), refs - IdsOf(Found(held)))
  {
    if held == [] {
      assert list + AppliedAll(kind, [], refs) == list;
      assert refs - {} == refs;
    } else {
      var k := |held| - 1;
      RestoreApplies(kind, list, held[..k], refs);
      if held[k].discovered {
        NotAmongFound(held);
        AppliedSnoc(kind, list, Found(held[..k]), held[k], refs);
      }
    }
  }

  /* ---------- reducing and restoring a whole model ---------- */

  lemma Apart(m: Model, kindOf: string -> Kind, kind: Kind, other: Kind, r: Rec)
    requires WellKept(m, kindOf) && kind != other && r in ListOf(m, kind)
    ensures forall s | s in ListOf(m, other) :: s.id != r.id
  {
    assert ListWellKept(ListOf(m, kind), m.refs, kind, kindOf) && ListWellKept(ListOf(m, other), m.refs, other, kindOf);
  }

  function ReducedRefs(m: Model): Refs {
    Reduce(ServiceKind, m.services,
      Reduce(NamespaceKind, m.namespaces,
        Reduce(NodeKind, m.nodes,
          Reduce(ClusterKind, m.clusters, m.refs).refs).refs).refs).refs
  }

  lemma ReducedLookup(kind: Kind, list: seq<Rec>, refs: Refs, id: string)
    requires Distinct(list) && id != ""
    ensures Lookup(Reduce(kind, list, refs).refs, id) ==
            var r := FindRec(list, id);
            if r.Some? && r.value.discovered && RefOf(kind, r.value).Some?
            then RefOf(kind, r.value)
            else Lookup(refs, id)
  {
    FindIs(list, id);
    if FindRec(list, id).Some? {
      var i :| 0 <= i < |list| && list[i] == FindRec(list, id).value;
      ReduceRemembers(kind, list, refs, i);
    } else {
      ReduceElsewhere(kind, list, refs, id);
    }
  }

  lemma {:induction false} FindIs(list: seq<Rec>, id: string)
    ensures FindRec(list, id).None? <==> forall r | r in list :: r.id != id
    ensures FindRec(list, id).Some? ==> FindRec(list, id).value in list && FindRec(list, id).value.id == id
  {
    if list != [] {
      FindIs(list[..|list| - 1], id);
      assert list == list[..|list| - 1] + [list[|list| - 1]];
    }
  }

  lemma FindThe(list: seq<Rec>, r: Rec)
    requires Distinct(list) && r in list
    ensures FindRec(list, r.id) == Some(r)
  {
    FindIs(list, r.id);
    var i :| 0 <= i < |list| && list[i] == r;
    var f := FindRec(list, r.id).value;
    var j :| 0 <= j < |list| && list[j] == f;
  }

  lemma FindOnlyOwnKind(m: Model, kindOf: string -> Kind, kind: Kind, id: string)
    requires WellKept(m, kindOf) && kindOf(id) != kind
    ensures FindRec(ListOf(m, kind), id).None?
  {
    assert ListWellKept(ListOf(m, kind), m.refs, kind, kindOf);
    FindIs(ListOf(m, kind), id);
  }

  /** What one list leaves of the refs, as far as one id goes. */
  lemma ReducedByOne(m: Model, kindOf: string -> Kind, kind: Kind, refs: Refs, id: string)
    requires WellKept(m, kindOf) && id != ""
    ensures var left, r := Lookup(Reduce(kind, ListOf(m, kind), refs).refs, id), FindRec(ListOf(m, kind), id);
            if kindOf(id) == kind && r.Some? && r.value.discovered && RefOf(kind, r.value).Some?
            then left == RefOf(kind, r.value)
            else left == Lookup(refs, id)
  {
    assert ListWellKept(ListOf(m, kind), m.refs, kind, kindOf);
    ReducedLookup(kind, ListOf(m, kind), refs, id);
    if kindOf(id) != kind {
      FindOnlyOwnKind(m, kindOf, kind, id);
    }
  }

  /** After reducing, what a held record said is in its ref, and every other ref is as it was. */
  lemma ReducedRefsAre(m: Model, kindOf: string -> Kind, id: string)
    requires WellKept(m, kindOf) && id != ""
    ensures var r := FindRec(ListOf(m, kindOf(id)), id);
            Lookup(ReducedRefs(m), id)
            == if r.Some? && r.value.discovered then RefOf(kindOf(id), r.value) else Lookup(m.refs, id)
  {
    var kind := kindOf(id);
    var a := Reduce(ClusterKind, m.clusters, m.refs).refs;
    var b := Reduce(NodeKind, m.nodes, a).refs;
    var c := Reduce(NamespaceKind, m.namespaces, b).refs;
    ReducedByOne(m, kindOf, ClusterKind, m.refs, id);
    ReducedByOne(m, kindOf, NodeKind, a, id);
    ReducedByOne(m, kindOf, NamespaceKind, b, id);
    ReducedByOne(m, kindOf, ServiceKind, c, id);
    if FindRec(ListOf(m, kind), id).Some? {
      HeldHasNoRef(m, kindOf, id);
    }
  }

  lemma HeldHasNoRef(m: Model, kindOf: string -> Kind, id: string)
    requires WellKept(m, kindOf) && FindRec(ListOf(m, kindOf(id)), id).Some?
    ensures Lookup(m.refs, id).None?
  {
    assert ListWellKept(ListOf(m, kindOf(id)), m.refs, kindOf(id), kindOf);
    FindIs(ListOf(m, kindOf(id)), id);
  }

  lemma RefOfSpeaks(kind: Kind, r: Rec)
    ensures RefOf(kind, r).Some? ==> !IsRefEmpty(RefOf(kind, r).value) && RefOf(kind, r).value.kind == kind
  {
  }

  lemma DeclaredRefsAre(m: Model, kindOf: string -> Kind, id: string)
    requires WellKept(m, kindOf) && id != ""
    ensures var r, ref := FindRec(ListOf(m, kindOf(id)), id), Lookup(m.refs, id);
            Lookup(ToDeclared(m).0.refs, id) ==
            if r.Some? && r.value.discovered then RefOf(kindOf(id), r.value)
            else if ref.Some? && !IsRefEmpty(ref.value) then ref else None
  {
    ReducedRefsAre(m, kindOf, id);
    assert ToDeclared(m).0.refs == Speaking(ReducedRefs(m));
    var r := FindRec(ListOf(m, kindOf(id)), id);
    if r.Some? {
      RefOfSpeaks(kindOf(id), r.value);
    }
  }

  lemma DeclaredListsAre(m: Model, kind: Kind)
    ensures ListOf(ToDeclared(m).0, kind) == Typed(ListOf(m, kind))
  {
    var a := Reduce(ClusterKind, m.clusters, m.refs);
    var b := Reduce(NodeKind, m.nodes, a.refs);
    var c := Reduce(NamespaceKind, m.namespaces, b.refs);
    ReduceKeepsTyped(ClusterKind, m.clusters, m.refs);
    ReduceKeepsTyped(NodeKind, m.nodes, a.refs);
    ReduceKeepsTyped(NamespaceKind, m.namespaces, b.refs);
    ReduceKeepsTyped(ServiceKind, m.services, c.refs);
  }

  /** Applying what the reduced model remembers gives every found record back, up to silent values. */
  lemma AppliedIsNormal(m: Model, kindOf: string -> Kind, kind: Kind, refs: Refs)
    requires WellKept(m, kindOf)
    requires forall r | r in Found(ListOf(m, kind)) :: Lookup(refs, r.id) == Lookup(ToDeclared(m).0.refs, r.id)
    ensures AppliedAll(kind, Found(ListOf(m, kind)), refs) == NormalAll(kind, Found(ListOf(m, kind)))
  {
    var found := Found(ListOf(m, kind));
    FoundAre(ListOf(m, kind));
    assert ListWellKept(ListOf(m, kind), m.refs, kind, kindOf);
    forall i | 0 <= i < |found|
      ensures ApplyRef(found[i], RefFor(refs, found[i].id, kind), kind) == Normal(kind, found[i])
    {
      var r := found[i];
      assert r in found;
      DeclaredRefsAre(m, kindOf, r.id);
      FindThe(ListOf(m, kind), r);
      RefOfSpeaks(kind, r);
      RefRoundTrip(kind, r);
    }
  }

  lemma FoundApart(m: Model, kindOf: string -> Kind, kind: Kind, other: Kind, refs: Refs)
    requires WellKept(m, kindOf) && kind != other
    ensures forall r | r in Found(ListOf(m, kind)) ::
            Lookup(refs - IdsOf(Found(ListOf(m, other))), r.id) == Lookup(refs, r.id)
  {
    FoundAre(ListOf(m, kind));
    FoundAre(ListOf(m, other));
    forall r | r in Found(ListOf(m, kind))
      ensures r.id !in IdsOf(Found(ListOf(m, other)))
    {
      Apart(m, kindOf, kind, other, r);
    }
  }

  function AllFound(m: Model): set<string> {
    IdsOf(Found(m.clusters)) + IdsOf(Found(m.nodes)) + IdsOf(Found(m.namespaces)) + IdsOf(Found(m.services))
  }

  function AllBack(m: Model, kind: Kind): seq<Rec> {
    Typed(ListOf(m, kind)) + NormalAll(kind, Found(ListOf(m, kind)))
  }

  /* ---------- loading any workspace over what is held ---------- */

  /** What a list becomes: the workspace's own records, then the found ones that are held, under its refs. */
  function Loaded(d: Model, m: Model, kind: Kind): seq<Rec> {
    ListOf(d, kind) + AppliedAll(kind, Found(ListOf(m, kind)), d.refs)
  }

  /** The refs a reload still holds when it comes to a kind: what earlier kinds did not take. */
  function RefsBefore(refs: Refs, m: Model, kind: Kind): Refs {
    match kind
    case ClusterKind => refs
    case NodeKind => refs - IdsOf(Found(m.clusters))
    case NamespaceKind => refs - IdsOf(Found(m.clusters)) - IdsOf(Found(m.nodes))
    case ServiceKind => refs - IdsOf(Found(m.clusters)) - IdsOf(Found(m.nodes)) - IdsOf(Found(m.namespaces))
  }

  lemma BeforeLooksTheSame(refs: Refs, m: Model, kindOf: string -> Kind, kind: Kind)
    requires WellKept(m, kindOf)
    ensures forall r | r in Found(ListOf(m, kind)) :: Lookup(RefsBefore(refs, m, kind), r.id) == Lookup(refs, r.id)
  {
    if kind != ClusterKind {
      FoundApart(m, kindOf, kind, ClusterKind, refs);
    }
    if kind == NamespaceKind || kind == ServiceKind {
      FoundApart(m, kindOf, kind, NodeKind, RefsBefore(refs, m, NodeKind));
    }
    if kind == ServiceKind {
      FoundApart(m, kindOf, kind, NamespaceKind, RefsBefore(refs, m, NamespaceKind));
    }
  }

  lemma SameLookupsSameApplied(kind: Kind, held: seq<Rec>, a: Refs, b: Refs)
    requires forall r | r in held :: Lookup(a, r.id) == Lookup(b, r.id)
    ensures AppliedAll(kind, held, a) == AppliedAll(kind, held, b)
  {
    forall i | 0 <= i < |held|
      ensures RefFor(a, held[i].id, kind) == RefFor(b, held[i].id, kind)
    {
      assert held[i] in held;
    }
  }

  lemma LoadKind(d: Model, m: Model, kindOf: string -> Kind, kind: Kind)
    requires WellKept(m, kindOf)
    ensures Restore(kind, ListOf(d, kind), ListOf(m, kind), RefsBefore(d.refs, m, kind))
            == Restored(Loaded(d, m, kind), RefsBefore(d.refs, m, kind) - IdsOf(Found(ListOf(m, kind))))
  {
    assert ListWellKept(ListOf(m, kind), m.refs, kind, kindOf);
    RestoreApplies(kind, ListOf(d, kind), ListOf(m, kind), RefsBefore(d.refs, m, kind));
    BeforeLooksTheSame(d.refs, m, kindOf, kind);
    SameLookupsSameApplied(kind, Found(ListOf(m, kind)), RefsBefore(d.refs, m, kind), d.refs);
  }

  lemma LoadAll(d: Model, m: Model, kindOf: string -> Kind)
    requires WellKept(m, kindOf)
    ensures var n := Rehydrated(d, m);
            && n.clusters == Loaded(d, m, ClusterKind) && n.nodes == Loaded(d, m, NodeKind)
            && n.namespaces == Loaded(d, m, NamespaceKind) && n.services == Loaded(d, m, ServiceKind)
            && n.refs == RefsBefore(d.refs, m, ServiceKind) - IdsOf(Found(m.services))
  {
    LoadKind(d, m, kindOf, ClusterKind);
    LoadKind(d, m, kindOf, NodeKind);
    LoadKind(d, m, kindOf, NamespaceKind);
    LoadKind(d, m, kindOf, ServiceKind);
  }

  lemma TakenOneByOne(refs: Refs, a: set<string>, b: set<string>, c: set<string>, d: set<string>)
    ensures refs - a - b - c - d == refs - (a + b + c + d)
  {
  }

  lemma EveryKind(n: Model, d: Model, m: Model)
    requires n.clusters == Loaded(d, m, ClusterKind) && n.nodes == Loaded(d, m, NodeKind)
    requires n.namespaces == Loaded(d, m, NamespaceKind) && n.services == Loaded(d, m, ServiceKind)
    ensures forall kind: Kind :: ListOf(n, kind) == Loaded(d, m, kind)
  {
    forall kind: Kind
      ensures ListOf(n, kind) == Loaded(d, m, kind)
    {
      match kind
      case ClusterKind =>
      case NodeKind =>
      case NamespaceKind =>
      case ServiceKind =>
    }
  }

  /** Loading a workspace, whichever it is: every list, and the refs of what is not held. */
  lemma LoadIs(d: Model, m: Model, kindOf: string -> Kind)
    requires WellKept(m, kindOf)
    ensures var n := Rehydrated(d, m);
            && (forall kind: Kind :: ListOf(n, kind) == Loaded(d, m, kind))
            && n.refs == d.refs - AllFound(m)
  {
    LoadAll(d, m, kindOf);
    TakenOneByOne(d.refs, IdsOf(Found(m.clusters)), IdsOf(Found(m.nodes)), IdsOf(Found(m.namespaces)),
                  IdsOf(Found(m.services)));
    EveryKind(Rehydrated(d, m), d, m);
  }

  lemma KindComesBack(m: Model, kindOf: string -> Kind, kind: Kind)
    requires WellKept(m, kindOf)
    ensures Loaded(ToDeclared(m).0, m, kind) == AllBack(m, kind)
  {
    DeclaredListsAre(m, kind);
    AppliedIsNormal(m, kindOf, kind, ToDeclared(m).0.refs);
  }

  /**
   Reducing a model and reloading it over itself gives back every list, the typed records first,
   and the refs of what is not held.
   */
  lemma ReloadUndoesReduce(m: Model, kindOf: string -> Kind)
    requires WellKept(m, kindOf)
    ensures var n := Rehydrated(ToDeclared(m).0, m);
            && (forall kind: Kind :: ListOf(n, kind) == AllBack(m, kind))
            && n.refs == ToDeclared(m).0.refs - AllFound(m)
  {
    LoadIs(ToDeclared(m).0, m, kindOf);
    forall kind: Kind
      ensures ListOf(Rehydrated(ToDeclared(m).0, m), kind) == AllBack(m, kind)
    {
      KindComesBack(m, kindOf, kind);
    }
  }

  /** The typed and the found records of a list are the whole list. */
  lemma {:induction false} TypedAndFound(list: seq<Rec>)
    ensures multiset(Typed(list)) + multiset(Found(list)) == multiset(list)
  {
    if list != [] {
      var k := |list| - 1;
      TypedAndFound(list[..k]);
      assert list == list[..k] + [list[k]];
    }
  }

  /* ---------- idempotence ---------- */

  lemma {:induction false} ReduceTyped(kind: Kind, list: seq<Rec>, refs: Refs)
    ensures Reduce(kind, Typed(list), refs) == Reduced(Typed(list), refs, 0)
  {
    if list != [] {
      ReduceTyped(kind, list[..|list| - 1], refs);
      var done := Typed(list[..|list| - 1]);
      if !list[|list| - 1].discovered {
        assert (done + [list[|list| - 1]])[..|done|] == done;
      }
    }
  }

  lemma {:induction false} DecidedTwice(ss: seq<Suggestion>)
    ensures Decided(Decided(ss)) == Decided(ss)
  {
    if ss != [] {
      DecidedTwice(ss[..|ss| - 1]);
      var done := Decided(ss[..|ss| - 1]);
      if !ss[|ss| - 1].status.Open? {
        assert (done + [ss[|ss| - 1]])[..|done|] == done;
      }
    }
  }

  lemma {:induction false} OwnEventsTwice(es: seq<Event>)
    ensures OwnEvents(OwnEvents(es)) == OwnEvents(es)
  {
    if es != [] {
      OwnEventsTwice(es[..|es| - 1]);
      var done := OwnEvents(es[..|es| - 1]);
      if "ev-" <= es[|es| - 1].id {
        assert (done + [es[|es| - 1]])[..|done|] == done;
      }
    }
  }

  lemma {:induction false} OwnDependenciesTwice(ds: seq<Dependency>)
    ensures OwnDependencies(OwnDependencies(ds)) == OwnDependencies(ds)
  {
    if ds != [] {
      OwnDependenciesTwice(ds[..|ds| - 1]);
      var done, last := OwnDependencies(ds[..|ds| - 1]), ds[|ds| - 1];
      if !OnlySeen(last) {
        var own := last.(sources := OwnSources(last.sources));
        assert (done + [own])[..|done|] == done;
        assert own.(sources := OwnSources(own.sources)) == own;
      }
    }
  }

  lemma {:induction false} OwnLinksTwice(ls: seq<SiteLink>)
    ensures OwnLinks(OwnLinks(ls)) == OwnLinks(ls)
  {
    if ls != [] {
      OwnLinksTwice(ls[..|ls| - 1]);
      var done, last := OwnLinks(ls[..|ls| - 1]), ls[|ls| - 1];
      if !last.measured {
        assert (done + [last.(measuredAt := None)])[..|done|] == done;
      }
    }
  }

  lemma CleanedTwice(l: seq<Values>)
    ensures Cleaned(Cleaned(l)) == Cleaned(l)
  {
    forall i | 0 <= i < |l|
      ensures Cleaned(Cleaned(l))[i] == Cleaned(l)[i]
    {
      assert (l[i] - OBSERVED_META) - OBSERVED_META == l[i] - OBSERVED_META;
    }
  }

  lemma OwnRestTwice(r: Rest)
    ensures OwnRest(OwnRest(r)) == OwnRest(r)
  {
    CleanedTwice(r.applications);
    CleanedTwice(r.externals);
    CleanedTwice(r.devices);
    OwnDependenciesTwice(r.dependencies);
    OwnLinksTwice(r.siteLinks);
  }

  lemma NothingLeftToDrop(m: Model)
    ensures DroppedFrom(ToDeclared(m).0) == Dropped(0, 0, 0, 0)
  {
    DecidedTwice(m.suggestions);
    OwnDependenciesTwice(m.rest.dependencies);
    OwnLinksTwice(m.rest.siteLinks);
  }

  lemma NothingLeftToStrip(m: Model, kind: Kind)
    ensures var d := ToDeclared(m).0;
            Reduce(kind, ListOf(d, kind), d.refs) == Reduced(ListOf(d, kind), d.refs, 0)
  {
    DeclaredListsAre(m, kind);
    ReduceTyped(kind, ListOf(m, kind), ToDeclared(m).0.refs);
  }

  lemma LeftRefsSpeak(m: Model)
    ensures Speaking(ToDeclared(m).0.refs) == ToDeclared(m).0.refs
  {
  }

  /** A model that has nothing left to reduce is reduced to itself. */
  lemma ReducedToItself(d: Model)
    requires forall kind: Kind :: Reduce(kind, ListOf(d, kind), d.refs) == Reduced(ListOf(d, kind), d.refs, 0)
    requires Speaking(d.refs) == d.refs && d.agents == []
    requires Decided(d.suggestions) == d.suggestions && OwnEvents(d.auditLog) == d.auditLog && OwnRest(d.rest) == d.rest
    ensures ToDeclared(d) == (d, Report(0, 0, 0, 0, |d.refs|, DroppedFrom(d)))
  {
    assert ListOf(d, ClusterKind) == d.clusters && ListOf(d, NodeKind) == d.nodes;
    assert ListOf(d, NamespaceKind) == d.namespaces && ListOf(d, ServiceKind) == d.services;
  }

  /** Reducing a reduced model changes nothing, strips nothing and drops nothing. */
  lemma ToDeclaredIsIdempotent(m: Model)
    ensures var d := ToDeclared(m).0; ToDeclared(d) == (d, Report(0, 0, 0, 0, |d.refs|, Dropped(0, 0, 0, 0)))
  {
    var d := ToDeclared(m).0;
    forall kind: Kind
      ensures Reduce(kind, ListOf(d, kind), d.refs) == Reduced(ListOf(d, kind), d.refs, 0)
    {
      NothingLeftToStrip(m, kind);
    }
    LeftRefsSpeak(m);
    DecidedTwice(m.suggestions);
    OwnEventsTwice(m.auditLog);
    OwnRestTwice(m.rest);
    ReducedToItself(d);
    NothingLeftToDrop(m);
  }
}
