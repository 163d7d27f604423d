/**
 Workspaces that were saved at some time and are loaded at any later one, over whatever discovery
 has brought meanwhile. A loaded workspace says what it said when it was saved, except about a
 record people typed that discovery has come to report under the same id: that one is held twice.
 */
module Workspaces {
  import opened Options
  import opened Records
  import opened Discovered
  import opened DiscoveredLaws
  import opened Declared
  import opened DeclaredLaws
  import opened Statements

  /** What a workspace is saved as: records people typed, and refs. */
  ghost predicate IsWorkspace(d: Model, kindOf: string -> Kind) {
    WellKept(d, kindOf) && forall kind: Kind, r | r in ListOf(d, kind) :: !r.discovered
  }

  /** A record the workspace holds as typed is held here as found. */
  predicate ClashesAt(d: Model, m: Model, kind: Kind, id: string) {
    FindRec(ListOf(d, kind), id).Some? && FindRec(Found(ListOf(m, kind)), id).Some?
  }

  ghost predicate Clashes(d: Model, m: Model) {
    exists kind: Kind, id: string :: ClashesAt(d, m, kind, id)
  }

  /* ---------- finding records in a loaded list ---------- */

  lemma {:induction false} FindConcat(a: seq<Rec>, b: seq<Rec>, id: string)
    ensures FindRec(a + b, id) == if FindRec(b, id).Some? then FindRec(b, id) else FindRec(a, id)
  {
    if b == [] {
      assert a + b == a;
    } else {
      var k := |b| - 1;
      assert (a + b)[..|a + b| - 1] == a + b[..k];
      FindConcat(a, b[..k], id);
    }
  }

  lemma {:induction false} FindApplied(kind: Kind, held: seq<Rec>, refs: Refs, id: string)
    ensures FindRec(AppliedAll(kind, held, refs), id) ==
            var r := FindRec(held, id); if r.Some? then Some(ApplyRef(r.value, RefFor(refs, id, kind), kind)) else None
  {
    if held != [] {
      var k := |held| - 1;
      assert AppliedAll(kind, held, refs)[..k] == AppliedAll(kind, held[..k], refs);
      FindApplied(kind, held[..k], refs, id);
    }
  }

  lemma FindLoaded(d: Model, m: Model, kind: Kind, id: string)
    ensures FindRec(Loaded(d, m, kind), id) ==
            var r := FindRec(Found(ListOf(m, kind)), id);
            if r.Some? then Some(ApplyRef(r.value, RefFor(d.refs, id, kind), kind)) else FindRec(ListOf(d, kind), id)
  {
    FindConcat(ListOf(d, kind), AppliedAll(kind, Found(ListOf(m, kind)), d.refs), id);
    FindApplied(kind, Found(ListOf(m, kind)), d.refs, id);
  }

  lemma FoundElsewhereNot(m: Model, kindOf: string -> Kind, id: string)
    requires WellKept(m, kindOf)
    ensures id in AllFound(m) <==> FindRec(Found(ListOf(m, kindOf(id))), id).Some?
  {
    var list := ListOf(m, kindOf(id));
    assert ListWellKept(list, m.refs, kindOf(id), kindOf);
    FoundIsHeld(m, kindOf, id);
    FindIs(Found(list), id);
    FindIs(list, id);
    FoundAre(list);
    if FindRec(Found(list), id).Some? {
      FindThe(list, FindRec(Found(list), id).value);
    }
  }

  lemma AppliedSays(kind: Kind, r: Rec, ref: Option<Ref>)
    ensures SaidOn(kind, ApplyRef(r, ref, kind)) ==
            if ref.Some? then Said(kind, ref.value.overrides, ref.value.siteId) else SILENCE
  {
  }

  lemma HeldNeedsNoRef(m: Model, kindOf: string -> Kind, id: string)
    requires WellKept(m, kindOf) && FindRec(ListOf(m, kindOf(id)), id).Some?
    ensures id !in m.refs
  {
    HeldHasNoRef(m, kindOf, id);
  }

  /**
   Whatever is held, and whatever else clashes, a loaded workspace says about an id what it says;
   where that id itself clashes, the found record comes last and says nothing.
   */
  lemma LoadSaysWhatTheWorkspaceSays(d: Model, m: Model, kindOf: string -> Kind, id: string)
    requires IsWorkspace(d, kindOf) && WellKept(m, kindOf)
    ensures Stated(Rehydrated(d, m), kindOf, id) ==
            if ClashesAt(d, m, kindOf(id), id) then SILENCE else Stated(d, kindOf, id)
  {
    var kind := kindOf(id);
    LoadIs(d, m, kindOf);
    FindLoaded(d, m, kind, id);
    FoundElsewhereNot(m, kindOf, id);
    var r := FindRec(Found(ListOf(m, kind)), id);
    if r.Some? {
      AppliedSays(kind, r.value, RefFor(d.refs, id, kind));
    }
    if FindRec(ListOf(d, kind), id).Some? {
      HeldNeedsNoRef(d, kindOf, id);
    }
  }

  /* ---------- when a load leaves things well kept ---------- */

  lemma {:induction false} TwiceIsNotDistinct(a: seq<Rec>, b: seq<Rec>, id: string)
    requires FindRec(a, id).Some? && FindRec(b, id).Some?
    ensures !Distinct(a + b)
  {
    FindIs(a, id);
    FindIs(b, id);
    var i :| 0 <= i < |a| && a[i] == FindRec(a, id).value;
    var j :| 0 <= j < |b| && b[j] == FindRec(b, id).value;
    assert (a + b)[i].id == (a + b)[|a| + j].id;
  }

  lemma ApartIsDistinct(a: seq<Rec>, b: seq<Rec>)
    requires Distinct(a) && Distinct(b)
    requires forall id :: FindRec(a, id).None? || FindRec(b, id).None?
    ensures Distinct(a + b)
  {
    forall i, j | 0 <= i < j < |a + b|
      ensures (a + b)[i].id != (a + b)[j].id
    {
      if i < |a| <= j {
        FindIs(a, a[i].id);
        FindIs(b, a[i].id);
        assert a[i] in a && b[j - |a|] in b;
      }
    }
  }

  lemma AppliedDistinct(kind: Kind, held: seq<Rec>, refs: Refs)
    requires Distinct(held)
    ensures Distinct(AppliedAll(kind, held, refs))
  {
    forall i, j | 0 <= i < j < |held|
      ensures AppliedAll(kind, held, refs)[i].id != AppliedAll(kind, held, refs)[j].id
    {
      assert held[i].id != held[j].id;
    }
  }

  lemma LoadedDistinctExactlyWhen(d: Model, m: Model, kindOf: string -> Kind, kind: Kind)
    requires IsWorkspace(d, kindOf) && WellKept(m, kindOf)
    ensures Distinct(Loaded(d, m, kind)) <==> forall id :: !ClashesAt(d, m, kind, id)
  {
    var own, found := ListOf(d, kind), AppliedAll(kind, Found(ListOf(m, kind)), d.refs);
    assert ListWellKept(own, d.refs, kind, kindOf) && ListWellKept(ListOf(m, kind), m.refs, kind, kindOf);
    forall id
      ensures FindRec(found, id).Some? <==> FindRec(Found(ListOf(m, kind)), id).Some?
    {
      FindApplied(kind, Found(ListOf(m, kind)), d.refs, id);
    }
    if id :| ClashesAt(d, m, kind, id) {
      TwiceIsNotDistinct(own, found, id);
    } else {
      FoundDistinct(ListOf(m, kind));
      AppliedDistinct(kind, Found(ListOf(m, kind)), d.refs);
      forall id
        ensures FindRec(own, id).None? || FindRec(found, id).None?
      {
        assert !ClashesAt(d, m, kind, id);
      }
      ApartIsDistinct(own, found);
    }
  }

  lemma AppliedFrom(kind: Kind, held: seq<Rec>, refs: Refs, r: Rec) returns (s: Rec)
    requires r in AppliedAll(kind, held, refs)
    ensures s in held && r == ApplyRef(s, RefFor(refs, s.id, kind), kind)
  {
    var i :| 0 <= i < |held| && AppliedAll(kind, held, refs)[i] == r;
    s := held[i];
  }

  /** Every record of a loaded list is of its kind and has no ref left. */
  lemma LoadedHasNoRef(d: Model, m: Model, kindOf: string -> Kind, kind: Kind, r: Rec)
    requires IsWorkspace(d, kindOf) && WellKept(m, kindOf) && r in Loaded(d, m, kind)
    ensures r.id != "" && kindOf(r.id) == kind && r.id !in d.refs - AllFound(m)
  {
    assert ListWellKept(ListOf(d, kind), d.refs, kind, kindOf) && ListWellKept(ListOf(m, kind), m.refs, kind, kindOf);
    if r in AppliedAll(kind, Found(ListOf(m, kind)), d.refs) {
      var s := AppliedFrom(kind, Found(ListOf(m, kind)), d.refs, r);
      FoundAre(ListOf(m, kind));
      assert s in ListOf(m, kind) && s.id in IdsOf(Found(ListOf(m, kind)));
      FoundOf(m, s.id);
    } else {
      assert r in ListOf(d, kind);
    }
  }

  lemma LoadKeepsKind(d: Model, m: Model, kindOf: string -> Kind, kind: Kind)
    requires IsWorkspace(d, kindOf) && WellKept(m, kindOf)
    ensures ListWellKept(Loaded(d, m, kind), d.refs - AllFound(m), kind, kindOf)
            <==> forall id :: !ClashesAt(d, m, kind, id)
  {
    LoadedDistinctExactlyWhen(d, m, kindOf, kind);
    forall r | r in Loaded(d, m, kind)
      ensures r.id != "" && kindOf(r.id) == kind && r.id !in d.refs - AllFound(m)
    {
      LoadedHasNoRef(d, m, kindOf, kind, r);
    }
  }

  lemma CleanLoadIsWellKept(d: Model, m: Model, kindOf: string -> Kind)
    requires IsWorkspace(d, kindOf) && WellKept(m, kindOf) && !Clashes(d, m)
    ensures WellKept(Rehydrated(d, m), kindOf)
  {
    LoadIs(d, m, kindOf);
    forall kind: Kind
      ensures ListWellKept(ListOf(Rehydrated(d, m), kind), Rehydrated(d, m).refs, kind, kindOf)
    {
      forall id
        ensures !ClashesAt(d, m, kind, id)
      {
      }
      LoadKeepsKind(d, m, kindOf, kind);
    }
  }

  lemma ClashIsNotWellKept(d: Model, m: Model, kindOf: string -> Kind, kind: Kind, id: string)
    requires IsWorkspace(d, kindOf) && WellKept(m, kindOf) && ClashesAt(d, m, kind, id)
    ensures !WellKept(Rehydrated(d, m), kindOf)
  {
    LoadIs(d, m, kindOf);
    LoadKeepsKind(d, m, kindOf, kind);
    var n := Rehydrated(d, m);
    assert !ListWellKept(ListOf(n, kind), n.refs, kind, kindOf);
  }

  /** Loading a workspace leaves every id held once, and refs apart, exactly when nothing clashes. */
  lemma LoadIsWellKeptExactlyWhen(d: Model, m: Model, kindOf: string -> Kind)
    requires IsWorkspace(d, kindOf) && WellKept(m, kindOf)
    ensures WellKept(Rehydrated(d, m), kindOf) <==> !Clashes(d, m)
  {
    if kind: Kind, id: string :| ClashesAt(d, m, kind, id) {
      ClashIsNotWellKept(d, m, kindOf, kind, id);
    } else {
      CleanLoadIsWellKept(d, m, kindOf);
    }
  }

  /* ---------- saving ---------- */

  lemma SavedIsWorkspace(m: Model, kindOf: string -> Kind)
    requires WellKept(m, kindOf)
    ensures IsWorkspace(ToDeclared(m).0, kindOf)
  {
    ReduceKeepsWellKept(m, kindOf);
    forall kind: Kind, r | r in ListOf(ToDeclared(m).0, kind)
      ensures !r.discovered
    {
      DeclaredListsAre(m, kind);
      FoundAre(ListOf(m, kind));
    }
  }

  lemma SavedSaysTheSame(m: Model, kindOf: string -> Kind, id: string)
    requires WellKept(m, kindOf)
    ensures Stated(ToDeclared(m).0, kindOf, id) == Stated(m, kindOf, id)
  {
    StepKeepsStatements(m, kindOf, ReduceStep, id);
  }

  /** What was just saved never clashes. */
  lemma SavedNowDoesNotClash(m: Model, kindOf: string -> Kind)
    requires WellKept(m, kindOf)
    ensures !Clashes(ToDeclared(m).0, m)
  {
    SavedIsWorkspace(m, kindOf);
    ReloadKeepsWellKept(m, kindOf);
    LoadIsWellKeptExactlyWhen(ToDeclared(m).0, m, kindOf);
  }

  /* ---------- every run with one saved workspace ---------- */

  datatype Session = Session(held: Model, saved: Model)

  datatype Act =
    | Poll(doc: ServerState)
    | Say(id: string, overrides: Values, siteId: Option<string>)
    | Save
    | Load

  ghost function Acted(s: Session, kindOf: string -> Kind, a: Act): Session {
    match a
    case Poll(doc) => s.(held := Polled(s.held, doc).model)
    case Say(id, overrides, siteId) => s.(held := SayAt(s.held, kindOf, id, overrides, siteId))
    case Save => s.(saved := ToDeclared(s.held).0)
    case Load => s.(held := Rehydrated(s.saved, s.held))
  }

  ghost function AfterActs(s: Session, kindOf: string -> Kind, acts: seq<Act>): Session {
    if acts == [] then s else Acted(AfterActs(s, kindOf, acts[..|acts| - 1]), kindOf, acts[|acts| - 1])
  }

  ghost predicate CleanAct(a: Act, kindOf: string -> Kind) {
    a.Poll? ==> CleanDoc(a.doc, kindOf)
  }

  ghost predicate CleanActs(acts: seq<Act>, kindOf: string -> Kind) {
    forall a | a in acts :: CleanAct(a, kindOf)
  }

  datatype Heard = Heard(held: Statement, saved: Statement)

  /** What people said last about an id, here and in the saved workspace: loading goes back to the saved one. */
  ghost function HeardOf(s: Session, kindOf: string -> Kind, acts: seq<Act>, id: string): Heard {
    if acts == [] then Heard(Stated(s.held, kindOf, id), Stated(s.saved, kindOf, id))
    else
      var k := |acts| - 1;
      var h := HeardOf(s, kindOf, acts[..k], id);
      match acts[k]
      case Poll(_) => h
      case Say(at, overrides, siteId) =>
        if at == id && FindRec(ListOf(AfterActs(s, kindOf, acts[..k]).held, kindOf(id)), id).Some?
        then h.(held := Said(kindOf(id), Some(overrides), siteId)) else h
      case Save => h.(saved := h.held)
      case Load => h.(held := h.saved)
  }

  ghost predicate Sound(s: Session, kindOf: string -> Kind) {
    WellKept(s.held, kindOf) && IsWorkspace(s.saved, kindOf)
  }

  ghost predicate LoadsCleanly(s: Session) {
    !Clashes(s.saved, s.held)
  }

  /** No load of the run meets a clash. */
  ghost predicate NoLoadClashes(s: Session, kindOf: string -> Kind, acts: seq<Act>) {
    acts == []
    || (&& NoLoadClashes(s, kindOf, acts[..|acts| - 1])
        && (acts[|acts| - 1].Load? ==> LoadsCleanly(AfterActs(s, kindOf, acts[..|acts| - 1]))))
  }

  /** Every id is held once, at every step of the run. */
  ghost predicate AlwaysSound(s: Session, kindOf: string -> Kind, acts: seq<Act>) {
    Sound(AfterActs(s, kindOf, acts), kindOf) && (acts == [] || AlwaysSound(s, kindOf, acts[..|acts| - 1]))
  }

  /** A step keeps everything well kept exactly when it is not a load that meets a clash. */
  lemma ActKeepsSoundExactlyWhen(s: Session, kindOf: string -> Kind, a: Act)
    requires Sound(s, kindOf) && CleanAct(a, kindOf)
    ensures Sound(Acted(s, kindOf, a), kindOf) <==> (a.Load? ==> LoadsCleanly(s))
  {
    match a {
      case Poll(doc) =>
        PollKeepsStatements(s.held, doc, kindOf);
      case Say(id, overrides, siteId) =>
        SayKeepsWellKept(s.held, kindOf, id, overrides, siteId);
      case Save =>
        SavedIsWorkspace(s.held, kindOf);
      case Load =>
        LoadIsWellKeptExactlyWhen(s.saved, s.held, kindOf);
    }
  }

  lemma ActIsHeard(s: Session, kindOf: string -> Kind, a: Act, id: string)
    requires Sound(s, kindOf) && CleanAct(a, kindOf) && (a.Load? ==> LoadsCleanly(s))
    ensures Stated(Acted(s, kindOf, a).held, kindOf, id) ==
            match a
            case Poll(_) => Stated(s.held, kindOf, id)
            case Say(at, overrides, siteId) =>
              if at == id && FindRec(ListOf(s.held, kindOf(id)), id).Some?
              then Said(kindOf(id), Some(overrides), siteId) else Stated(s.held, kindOf, id)
            case Save => Stated(s.held, kindOf, id)
            case Load => Stated(s.saved, kindOf, id)
    ensures Stated(Acted(s, kindOf, a).saved, kindOf, id)
            == if a.Save? then Stated(s.held, kindOf, id) else Stated(s.saved, kindOf, id)
  {
    match a {
      case Poll(doc) =>
        PollKeepsStatements(s.held, doc, kindOf);
      case Say(at, overrides, siteId) =>
        SayIsHeard(s.held, kindOf, at, overrides, siteId, id);
      case Save =>
        SavedSaysTheSame(s.held, kindOf, id);
      case Load =>
        LoadSaysWhatTheWorkspaceSays(s.saved, s.held, kindOf, id);
    }
  }

  /**
   In any run of polls, edits, saves and loads, however long ago the workspace was saved, nothing
   anyone said is lost but by loading a workspace that was saved before it was said.
   */
  lemma {:induction false} NothingIsLostInAnyRun(s: Session, kindOf: string -> Kind, acts: seq<Act>, id: string)
    requires Sound(s, kindOf) && CleanActs(acts, kindOf) && NoLoadClashes(s, kindOf, acts)
    ensures var t := AfterActs(s, kindOf, acts);
            && Sound(t, kindOf)
            && Heard(Stated(t.held, kindOf, id), Stated(t.saved, kindOf, id)) == HeardOf(s, kindOf, acts, id)
  {
    if acts != [] {
      var k := |acts| - 1;
      assert acts[k] in acts && CleanActs(acts[..k], kindOf);
      NothingIsLostInAnyRun(s, kindOf, acts[..k], id);
      ActKeepsSoundExactlyWhen(AfterActs(s, kindOf, acts[..k]), kindOf, acts[k]);
      ActIsHeard(AfterActs(s, kindOf, acts[..k]), kindOf, acts[k], id);
    }
  }

  /** A run keeps every id held once, at every step, exactly when none of its loads meets a clash. */
  lemma {:induction false} RunIsSoundExactlyWhen(s: Session, kindOf: string -> Kind, acts: seq<Act>)
    requires Sound(s, kindOf) && CleanActs(acts, kindOf)
    ensures AlwaysSound(s, kindOf, acts) <==> NoLoadClashes(s, kindOf, acts)
  {
    if acts != [] {
      var k := |acts| - 1;
      assert acts[k] in acts && CleanActs(acts[..k], kindOf);
      RunIsSoundExactlyWhen(s, kindOf, acts[..k]);
      if AlwaysSound(s, kindOf, acts[..k]) {
        ActKeepsSoundExactlyWhen(AfterActs(s, kindOf, acts[..k]), kindOf, acts[k]);
      }
    }
  }

  /* ---------- a record that is held twice ---------- */

  const TYPED := Rec("c", false, None, None, None, None, None, None, Some("s"), map[])

  const REPORTED := Rec("c", true, None, None, None, None, None, None, None, map[])

  const START := Model([TYPED], [], [], [], {}, [], [], [], map[], Rest([], [], [], [], []))

  const DOC := ServerState("now", [], [REPORTED], [], [], [], [], [])

  /** The stored record with the report over it: found now, its site kept. */
  const TAKEN := REPORTED.(siteId := Some("s"))

  lemma PollTakesOver()
    ensures Polled(START, DOC).model == START.(clusters := [TAKEN])
  {
    var m := MergeFor(ClusterKind, {}, DOC);
    assert [REPORTED][..0] == [] && [TYPED][..0] == [];
    assert ById([REPORTED]) == map["c" := REPORTED] && Order([REPORTED]) == ["c"];
    assert IdsOf([TYPED]) == {"c"} by {
      assert TYPED in [TYPED];
    }
    assert ["c"][..0] == [] && NewIds(["c"], {"c"}) == [];
    assert Arrivals([TYPED], [REPORTED]) == [];
    assert ReportFor([TYPED], 0, ById([REPORTED])) == Some(REPORTED);
    assert Updated(m, TYPED, Some(REPORTED)) == TAKEN && Changes(m, TYPED, Some(REPORTED));
    assert SomeChange(m, [TYPED], ById([REPORTED]));
    assert UpdatedAll(m, [TYPED], ById([REPORTED])) == [TAKEN];
    assert MergedList(m, [TYPED], [REPORTED], map[]).list == [TAKEN];
  }

  lemma SavedStart()
    ensures ToDeclared(START).0 == START
  {
    assert [TYPED][..0] == [] && Typed([TYPED]) == [TYPED];
    ReduceTyped(ClusterKind, [TYPED], map[]);
    assert Speaking(map[]) == map[];
  }

  lemma StartIsFine(kindOf: string -> Kind)
    requires kindOf("c") == ClusterKind
    ensures Sound(Session(START, START), kindOf) && CleanActs([Save, Act.Poll(DOC), Load], kindOf)
  {
    forall kind: Kind
      ensures ListWellKept(ListOf(START, kind), START.refs, kind, kindOf)
    {
    }
    forall kind: Kind, r | r in ListOf(START, kind)
      ensures !r.discovered
    {
    }
  }

  /**
   Saved, then reported under the id people gave it, then loaded: the cluster is held twice, and
   the copy that is found has lost its site.
   */
  lemma TypedAndReportedIsHeldTwice(kindOf: string -> Kind)
    requires kindOf("c") == ClusterKind
    ensures Sound(Session(START, START), kindOf) && CleanActs([Save, Act.Poll(DOC), Load], kindOf)
    ensures var held := AfterActs(Session(START, START), kindOf, [Save, Act.Poll(DOC), Load]).held;
            && held.clusters == [TYPED, REPORTED]
            && !WellKept(held, kindOf)
            && Stated(START, kindOf, "c") == Statement(map[], Some("s")) && Stated(held, kindOf, "c") == SILENCE
  {
    StartIsFine(kindOf);
    StartSays(kindOf);
    RunLoads(kindOf);
    LoadDoubles();
    HeldTwice(Rehydrated(START, START.(clusters := [TAKEN])), kindOf);
  }

  lemma StartSays(kindOf: string -> Kind)
    requires kindOf("c") == ClusterKind
    ensures Stated(START, kindOf, "c") == Statement(map[], Some("s"))
  {
    assert [TYPED][..0] == [];
  }

  lemma RunLoads(kindOf: string -> Kind)
    ensures AfterActs(Session(START, START), kindOf, [Save, Act.Poll(DOC), Load]).held
            == Rehydrated(START, START.(clusters := [TAKEN]))
  {
    SavePollLoad(START, DOC, kindOf);
    SavedStart();
    PollTakesOver();
  }

  lemma SavePollLoad(m: Model, doc: ServerState, kindOf: string -> Kind)
    ensures AfterActs(Session(m, m), kindOf, [Save, Act.Poll(doc), Load]).held
            == Rehydrated(ToDeclared(m).0, Polled(m, doc).model)
  {
    var s, d := Session(m, m), ToDeclared(m).0;
    ThenSaved(s, kindOf, [], s);
    assert [] + [Save] == [Save];
    ThenPolled(s, kindOf, [Save], doc, Session(m, d));
    assert [Save] + [Act.Poll(doc)] == [Save, Act.Poll(doc)];
    ThenLoaded(s, kindOf, [Save, Act.Poll(doc)], Session(Polled(m, doc).model, d));
    assert [Save, Act.Poll(doc)] + [Load] == [Save, Act.Poll(doc), Load];
  }

  lemma ThenSaved(s: Session, kindOf: string -> Kind, acts: seq<Act>, t: Session)
    requires AfterActs(s, kindOf, acts) == t
    ensures AfterActs(s, kindOf, acts + [Save]) == Session(t.held, ToDeclared(t.held).0)
  {
    assert (acts + [Save])[..|acts|] == acts;
  }

  lemma ThenPolled(s: Session, kindOf: string -> Kind, acts: seq<Act>, doc: ServerState, t: Session)
    requires AfterActs(s, kindOf, acts) == t
    ensures AfterActs(s, kindOf, acts + [Act.Poll(doc)]) == Session(Polled(t.held, doc).model, t.saved)
  {
    assert (acts + [Act.Poll(doc)])[..|acts|] == acts;
  }

  lemma ThenLoaded(s: Session, kindOf: string -> Kind, acts: seq<Act>, t: Session)
    requires AfterActs(s, kindOf, acts) == t
    ensures AfterActs(s, kindOf, acts + [Load]).held == Rehydrated(t.saved, t.held)
  {
    assert (acts + [Load])[..|acts|] == acts;
  }

  lemma LoadDoubles()
    ensures Rehydrated(START, START.(clusters := [TAKEN])).clusters == [TYPED, REPORTED]
  {
    assert [TAKEN][..0] == [];
    assert ApplyRef(TAKEN, None, ClusterKind) == REPORTED;
    assert Restore(ClusterKind, [TYPED], [TAKEN], map[]).list == [TYPED, REPORTED];
  }

  lemma HeldTwice(held: Model, kindOf: string -> Kind)
    requires held.clusters == [TYPED, REPORTED] && kindOf("c") == ClusterKind
    ensures !WellKept(held, kindOf) && Stated(held, kindOf, "c") == SILENCE
  {
    assert ListOf(held, ClusterKind)[0].id == ListOf(held, ClusterKind)[1].id;
    assert !ListWellKept(ListOf(held, ClusterKind), held.refs, ClusterKind, kindOf);
  }
}
