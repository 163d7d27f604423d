/**
 What everyone sees of an edited record while discovery goes on: the stored overrides, kept by
 every poll, over whatever is detected by then.
 */
module ShownValues {
  import opened Options
  import opened Records
  import opened Discovered
  import opened DiscoveredLaws
  import opened Declared
  import opened DeclaredLaws
  import opened Statements
  import opened Effective

  function Assigned(key: string, value: Option<string>): Values {
    if value.Some? then map[key := Str(value.value)] else map[]
  }

  /** A held record as the layers that are shown: what is detected, and what it is assigned to, under the overrides. */
  function Layers(r: Rec): Entity {
    Entity(r.discovered,
           r.fields + Assigned("applicationId", r.applicationId) + Assigned("applicationHint", r.applicationHint)
           + Assigned("siteId", r.siteId),
           r.overrides, None)
  }

  ghost function AfterPolls(m: Model, docs: seq<ServerState>): Model {
    if docs == [] then m else Polled(AfterPolls(m, docs[..|docs| - 1]), docs[|docs| - 1]).model
  }

  lemma MergeKeepsRecord(m: Merge, existing: seq<Rec>, incoming: seq<Rec>, left: Refs, id: string)
    requires Distinct(existing) && FindRec(existing, id).Some? && forall n | n in incoming :: Unassigned(n)
    ensures FindRec(MergedList(m, existing, incoming, left).list, id).Some?
  {
    StoredSaysTheSame(m, existing, incoming, left, id);
  }

  lemma PollKeepsRecord(m: Model, doc: ServerState, kindOf: string -> Kind, id: string)
    requires WellKept(m, kindOf) && CleanDoc(doc, kindOf) && FindRec(ListOf(m, kindOf(id)), id).Some?
    ensures FindRec(ListOf(Polled(m, doc).model, kindOf(id)), id).Some?
  {
    var kind := kindOf(id);
    var left, end := PolledListIs(m, doc, kind);
    CleanOf(doc, kindOf, kind);
    assert ListWellKept(ListOf(m, kind), m.refs, kind, kindOf);
    MergeKeepsRecord(MergeFor(kind, m.applications, doc), ListOf(m, kind), ReportedOf(doc, kind), left, id);
  }

  lemma {:induction false} PollsKeepOverrides(m: Model, docs: seq<ServerState>, kindOf: string -> Kind, id: string)
    requires WellKept(m, kindOf) && (forall doc | doc in docs :: CleanDoc(doc, kindOf))
    requires FindRec(ListOf(m, kindOf(id)), id).Some?
    ensures var n := AfterPolls(m, docs);
            && WellKept(n, kindOf)
            && FindRec(ListOf(n, kindOf(id)), id).Some?
            && Stated(n, kindOf, id) == Stated(m, kindOf, id)
  {
    if docs != [] {
      var k := |docs| - 1;
      assert docs[k] in docs;
      PollsKeepOverrides(m, docs[..k], kindOf, id);
      PollKeepsStatements(AfterPolls(m, docs[..k]), docs[k], kindOf);
      PollKeepsRecord(AfterPolls(m, docs[..k]), docs[k], kindOf, id);
    }
  }

  /**
   After an edit of a discovered record and any number of polls the record is still held; each
   field the edit overrode, application and site among them, shows what the edit said, and every
   other what is detected or assigned by then.
   */
  lemma EditStaysShown(m: Model, kindOf: string -> Kind, id: string, next: Entity, who: Option<string>, now: string,
                       docs: seq<ServerState>, k: string)
    requires WellKept(m, kindOf) && (forall doc | doc in docs :: CleanDoc(doc, kindOf))
    requires var r := FindRec(ListOf(m, kindOf(id)), id); r.Some? && r.value.discovered
    requires k !in META
    ensures var r := FindRec(ListOf(m, kindOf(id)), id).value;
            var e := Edited(Some(Layers(r)), next, who, now);
            var last := FindRec(ListOf(AfterPolls(SayAt(m, kindOf, id, Overrides(e), r.siteId), docs), kindOf(id)), id);
            && last.Some?
            && Shown(Layers(last.value), k)
               == if k in Overrides(e) then next.fields[k] else Get(Layers(last.value).fields, k)
  {
    var r := FindRec(ListOf(m, kindOf(id)), id).value;
    var e := Edited(Some(Layers(r)), next, who, now);
    var said := SayAt(m, kindOf, id, Overrides(e), r.siteId);
    SayKeepsWellKept(m, kindOf, id, Overrides(e), r.siteId);
    SayIsHeard(m, kindOf, id, Overrides(e), r.siteId, id);
    SayListIs(m, kindOf, id, Overrides(e), r.siteId, kindOf(id));
    FindSaid(ListOf(m, kindOf(id)), kindOf(id), id, Overrides(e), r.siteId, id);
    PollsKeepOverrides(said, docs, kindOf, id);
    var last := FindRec(ListOf(AfterPolls(said, docs), kindOf(id)), id).value;
    assert Overrides(Layers(last)) == Overrides(e);
    EditSurvivesNewBases(Layers(r), next, who, now, Layers(last).fields, k);
    ShownIs(Layers(last), k);
    ShownIs(e.(fields := Layers(last).fields), k);
  }
}
