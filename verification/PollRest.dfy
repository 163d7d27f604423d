/**
 What a poll makes of agents, suggestions and the audit log: agents the server knows are as it says
 and the others stay; a decision about a suggestion is never reopened; no event is lost or doubled.
 */
module PollRest {
  import opened Options
  import opened Records
  import opened Discovered
  import opened DiscoveredLaws
  import opened PollOutcome
  import opened Thinning

  /* ---------- the audit log ---------- */

  function NewEventTest(log: seq<Event>): Event -> bool {
    (e: Event) => forall was | was in log :: was.id != e.id
  }

  lemma {:induction false} NewEventsAre(incoming: seq<Event>, log: seq<Event>)
    ensures Thins(incoming, NewEvents(incoming, EventIds(log)), NewEventTest(log))
  {
    if incoming != [] {
      var k := |incoming| - 1;
      NewEventsAre(incoming[..k], log);
      ThinsMore(incoming, NewEvents(incoming[..k], EventIds(log)), NewEvents(incoming, EventIds(log)),
                NewEventTest(log));
    }
  }

  /** The log keeps what it had, and then has the events whose id it did not have. */
  lemma LogAfterPoll(m: Model, doc: ServerState) returns (added: seq<Event>)
    ensures Polled(m, doc).model.auditLog == m.auditLog + added
    ensures Thins(doc.auditLog, added, NewEventTest(m.auditLog))
  {
    added := NewEvents(doc.auditLog, EventIds(m.auditLog));
    NewEventsAre(doc.auditLog, m.auditLog);
  }

  /* ---------- agents ---------- */

  function LocalTest(agents: seq<ServerAgent>): Agent -> bool {
    (a: Agent) => forall s | s in agents :: s.id != a.id
  }

  lemma {:induction false} LocalsAre(stored: seq<Agent>, agents: seq<ServerAgent>)
    ensures Thins(stored, LocalAgents(stored, ServerIds(agents)), LocalTest(agents))
  {
    if stored != [] {
      var k := |stored| - 1;
      LocalsAre(stored[..k], agents);
      ThinsMore(stored, LocalAgents(stored[..k], ServerIds(agents)), LocalAgents(stored, ServerIds(agents)),
                LocalTest(agents));
    }
  }

  /** The agent is as the server says, up to keys that are undefined. */
  predicate IsAsServerSays(s: ServerAgent, a: Agent) {
    a.id == s.id && DeepEqual(Obj(s.fields), Obj(a.fields))
  }

  /** Agents the server does not know stay, and then come those it knows, each as it says. */
  lemma AgentsAfterPoll(m: Model, doc: ServerState) returns (locals: seq<Agent>, known: seq<Agent>)
    ensures Polled(m, doc).model.agents == locals + known
    ensures Thins(m.agents, locals, LocalTest(doc.agents))
    ensures |known| == |doc.agents| && forall i | 0 <= i < |known| :: IsAsServerSays(doc.agents[i], known[i])
  {
    locals := LocalAgents(m.agents, ServerIds(doc.agents));
    known := AgentsNow(m.agents, Reported(doc.agents));
    LocalsAre(m.agents, doc.agents);
    forall i | 0 <= i < |known|
      ensures IsAsServerSays(doc.agents[i], known[i])
    {
      LastAgentId(m.agents, doc.agents[i].id);
      DeepEqualReflexive(Obj(doc.agents[i].fields));
    }
  }

  /** An agent nothing of which moved stays the very one that is stored. */
  lemma UnmovedAgentStays(m: Model, doc: ServerState, i: nat, j: nat)
    requires i < |doc.agents| && j < |m.agents| && m.agents[j].id == doc.agents[i].id
    requires forall l | j < l < |m.agents| :: m.agents[l].id != m.agents[j].id
    requires DeepEqual(Obj(doc.agents[i].fields), Obj(m.agents[j].fields))
    ensures AgentsNow(m.agents, Reported(doc.agents))[i] == m.agents[j]
  {
    LastAgentAt(m.agents, j);
  }

  /* ---------- suggestions ---------- */

  predicate IsLastSuggestion(ss: seq<Suggestion>, n: Suggestion) {
    exists i | 0 <= i < |ss| :: ss[i] == n && forall j | i < j < |ss| :: ss[j].id != n.id
  }

  predicate IsSuggested(ss: seq<Suggestion>, id: string) {
    exists n | n in ss :: n.id == id
  }

  /** The i-th stored suggestion is the first with its id, and is suggested again. */
  predicate IsSuggestedAgain(m: Model, doc: ServerState, i: nat)
    requires i < |m.suggestions|
  {
    && (forall j | 0 <= j < i :: m.suggestions[j].id != m.suggestions[i].id)
    && IsSuggested(doc.suggestions, m.suggestions[i].id)
  }

  predicate SomeoneVouches(doc: ServerState) {
    exists a | a in doc.agents :: a.synced && a.approved
  }

  /** Open, not suggested any more, and one of those that are taken back by whoever made them. */
  predicate IsTakenBack(m: Model, doc: ServerState, i: nat)
    requires i < |m.suggestions|
  {
    var s := m.suggestions[i];
    && s.status == Open && !IsSuggestedAgain(m, doc, i)
    && (|| ("sg-app-" <= s.id && s.agentId.Some? && s.agentId.value != ""
            && exists a | a in doc.agents :: Vouches(a, s.agentId.value))
        || ("sg-unk-" <= s.id && SomeoneVouches(doc)))
  }

  function StaysTest(m: Model, doc: ServerState): nat -> bool {
    (i: nat) => i < |m.suggestions| && !IsTakenBack(m, doc, i)
  }

  /** A decision stays as it is; what is open shows what is suggested now. */
  ghost predicate BecomesAt(m: Model, doc: ServerState, i: nat, t: Suggestion) {
    && i < |m.suggestions|
    && var s := m.suggestions[i];
       if s.status == Open && IsSuggestedAgain(m, doc, i) then
         exists n: Suggestion :: n.id == s.id && IsLastSuggestion(doc.suggestions, n)
                     && t == s.(title := n.title, detail := n.detail, apply := n.apply)
       else t == s
  }

  ghost function Becomes(m: Model, doc: ServerState): (nat, Suggestion) -> bool {
    (i: nat, t: Suggestion) => BecomesAt(m, doc, i, t)
  }

  function Upto(n: nat): (s: seq<nat>)
    ensures |s| == n
  {
    seq(n, i requires 0 <= i < n => i)
  }

  lemma {:induction false} LastSuggestionIs(ss: seq<Suggestion>, id: string)
    ensures LastSuggestion(ss, id).Some? <==> IsSuggested(ss, id)
    ensures LastSuggestion(ss, id).Some? ==>
              LastSuggestion(ss, id).value.id == id && IsLastSuggestion(ss, LastSuggestion(ss, id).value)
  {
    if ss != [] {
      var k := |ss| - 1;
      LastSuggestionIs(ss[..k], id);
      assert ss == ss[..k] + [ss[k]];
      if ss[k].id == id {
        assert IsLastSuggestion(ss, ss[k]);
      } else if LastSuggestion(ss[..k], id).Some? {
        var n := LastSuggestion(ss[..k], id).value;
        var i :| 0 <= i < k && ss[..k][i] == n && forall j | i < j < k :: ss[..k][j].id != n.id;
        assert ss[i] == n && forall j | i < j < |ss| :: ss[j].id != n.id;
      }
    }
  }

  lemma ReportIs(m: Model, doc: ServerState, i: nat)
    requires i < |m.suggestions|
    ensures SuggestionReport(m.suggestions[i], m.suggestions[..i], doc.suggestions)
            == if IsSuggestedAgain(m, doc, i) then LastSuggestion(doc.suggestions, m.suggestions[i].id) else None
  {
    LastSuggestionIs(doc.suggestions, m.suggestions[i].id);
    if j :| 0 <= j < i && m.suggestions[j].id == m.suggestions[i].id {
      assert m.suggestions[..i][j] in m.suggestions[..i];
    }
  }

  lemma NowIs(m: Model, doc: ServerState, i: nat)
    requires i < |m.suggestions|
    ensures var s := m.suggestions[i];
            var now := SuggestionNow(s, SuggestionReport(s, m.suggestions[..i], doc.suggestions), Synced(doc.agents));
            && (now.Some? <==> !IsTakenBack(m, doc, i))
            && (now.Some? ==> BecomesAt(m, doc, i, now.value))
  {
    var s := m.suggestions[i];
    ReportIs(m, doc, i);
    LastSuggestionIs(doc.suggestions, s.id);
    VouchedAre(doc);
  }

  lemma VouchedAre(doc: ServerState)
    ensures forall id :: id in Synced(doc.agents) <==> exists a | a in doc.agents :: Vouches(a, id)
    ensures Synced(doc.agents) != {} <==> SomeoneVouches(doc)
  {
    if a :| a in doc.agents && a.synced && a.approved {
      assert a.id in Synced(doc.agents);
    }
    if Synced(doc.agents) != {} {
      var id :| id in Synced(doc.agents);
    }
  }

  lemma UptoMore<U>(k: nat, done: seq<U>, out: seq<U>, keep: nat -> bool, becomes: (nat, U) -> bool)
    requires ThinsTo(Upto(k), done, keep, becomes)
    requires keep(k) ==> |out| == |done| + 1 && out[..|done|] == done && becomes(k, out[|done|])
    requires !keep(k) ==> out == done
    ensures ThinsTo(Upto(k + 1), out, keep, becomes)
  {
    assert Upto(k + 1)[..k] == Upto(k);
    ThinsToMore(Upto(k + 1), done, out, keep, becomes);
  }

  /** One more stored suggestion, after those that were kept before it. */
  predicate KeptNext(m: Model, doc: ServerState, k: nat, done: seq<Suggestion>, out: seq<Suggestion>)
    requires k < |m.suggestions|
  {
    var now := SuggestionNow(m.suggestions[k],
                             SuggestionReport(m.suggestions[k], m.suggestions[..k], doc.suggestions),
                             Synced(doc.agents));
    out == if now.Some? then done + [now.value] else done
  }

  /** What is kept of the first n. */
  function KeptOf(m: Model, doc: ServerState, n: nat): seq<Suggestion>
    requires n <= |m.suggestions|
  {
    KeptSuggestions(m.suggestions[..n], doc.suggestions, Synced(doc.agents))
  }

  lemma KeptMore(m: Model, doc: ServerState, k: nat)
    requires k < |m.suggestions|
    ensures KeptNext(m, doc, k, KeptOf(m, doc, k), KeptOf(m, doc, k + 1))
  {
    assert m.suggestions[..k + 1][..k] == m.suggestions[..k];
  }

  lemma KeptStep(m: Model, doc: ServerState, k: nat, done: seq<Suggestion>, out: seq<Suggestion>)
    requires k < |m.suggestions| && KeptNext(m, doc, k, done, out)
    requires ThinsTo(Upto(k), done, StaysTest(m, doc), Becomes(m, doc))
    ensures ThinsTo(Upto(k + 1), out, StaysTest(m, doc), Becomes(m, doc))
  {
    NowIs(m, doc, k);
    UptoMore(k, done, out, StaysTest(m, doc), Becomes(m, doc));
  }

  ghost predicate KeptWell(m: Model, doc: ServerState, n: nat)
    requires n <= |m.suggestions|
  {
    ThinsTo(Upto(n), KeptOf(m, doc, n), StaysTest(m, doc), Becomes(m, doc))
  }

  lemma KeptWellMore(m: Model, doc: ServerState, k: nat)
    requires k < |m.suggestions| && KeptWell(m, doc, k)
    ensures KeptWell(m, doc, k + 1)
  {
    KeptMore(m, doc, k);
    KeptStep(m, doc, k, KeptOf(m, doc, k), KeptOf(m, doc, k + 1));
  }

  lemma KeptWellNone(m: Model, doc: ServerState)
    ensures KeptWell(m, doc, 0)
  {
  }

  lemma {:induction false} KeptAre(m: Model, doc: ServerState, n: nat)
    requires n <= |m.suggestions|
    ensures KeptWell(m, doc, n)
  {
    if n == 0 {
      KeptWellNone(m, doc);
    } else {
      KeptAre(m, doc, n - 1);
      KeptWellMore(m, doc, n - 1);
    }
  }

  /** The grouping is done: its application exists, and so do none of its services that are not in it. */
  predicate IsDone(s: Suggestion, applications: set<string>, services: seq<Rec>) {
    && s.apply.Some? && s.apply.value.CreateApplication? && s.apply.value.application in applications
    && forall i | 0 <= i < |services| && services[i].id in s.apply.value.serviceIds
                  && (forall j | i < j < |services| :: services[j].id != services[i].id) ::
         services[i].applicationId == Some(s.apply.value.application)
  }

  lemma {:induction false} FindIsLast(list: seq<Rec>, i: nat)
    requires i < |list| && forall j | i < j < |list| :: list[j].id != list[i].id
    ensures FindRec(list, list[i].id) == Some(list[i])
  {
    if i < |list| - 1 {
      FindIsLast(list[..|list| - 1], i);
    }
  }

  lemma {:induction false} FoundAtItsLast(list: seq<Rec>, id: string) returns (i: nat)
    requires FindRec(list, id).Some?
    ensures i < |list| && list[i] == FindRec(list, id).value && list[i].id == id
    ensures forall j | i < j < |list| :: list[j].id != id
  {
    i := |list| - 1;
    if list[i].id != id {
      i := FoundAtItsLast(list[..|list| - 1], id);
    }
  }

  lemma NothingToDoIs(s: Suggestion, applications: set<string>, services: seq<Rec>)
    ensures NothingToDo(s, applications, services) <==> IsDone(s, applications, services)
  {
    if s.apply.Some? && s.apply.value.CreateApplication? {
      if NothingToDo(s, applications, services) {
        forall i | 0 <= i < |services| && services[i].id in s.apply.value.serviceIds
                   && (forall j | i < j < |services| :: services[j].id != services[i].id)
          ensures services[i].applicationId == Some(s.apply.value.application)
        {
          FindIsLast(services, i);
        }
      }
      if IsDone(s, applications, services) {
        forall id | id in s.apply.value.serviceIds && FindRec(services, id).Some?
          ensures FindRec(services, id).value.applicationId == Some(s.apply.value.application)
        {
          var i := FoundAtItsLast(services, id);
        }
      }
    }
  }

  /** Suggested for the first time, as the last report has it, and not done yet. */
  ghost predicate IsNew(m: Model, doc: ServerState, s: Suggestion) {
    && IsLastSuggestion(doc.suggestions, s)
    && !IsSuggested(m.suggestions, s.id)
    && !IsDone(s, m.applications, Polled(m, doc).model.services)
  }

  /**
   Stored suggestions stay in order but those that are taken back, decisions untouched and open ones
   as suggested now; then come the new ones, each once.
   */
  lemma SuggestionsAfterPoll(m: Model, doc: ServerState) returns (kept: seq<Suggestion>, added: seq<Suggestion>)
    ensures Polled(m, doc).model.suggestions == kept + added
    ensures ThinsTo(Upto(|m.suggestions|), kept, StaysTest(m, doc), Becomes(m, doc))
    ensures DistinctSuggestions(added) && forall s :: s in added <==> IsNew(m, doc, s)
  {
    var services := Polled(m, doc).model.services;
    kept := KeptOf(m, doc, |m.suggestions|);
    KeptAre(m, doc, |m.suggestions|);
    added := NewSuggestions(EachOnce(doc.suggestions), SuggestionIds(m.suggestions), m.applications, services);
    assert m.suggestions[..|m.suggestions|] == m.suggestions;
    AddedAre(m.suggestions, doc.suggestions, m.applications, services);
  }

  lemma AddedAre(stored: seq<Suggestion>, incoming: seq<Suggestion>, applications: set<string>, services: seq<Rec>)
    ensures var added := NewSuggestions(EachOnce(incoming), SuggestionIds(stored), applications, services);
            && DistinctSuggestions(added)
            && forall s :: s in added <==>
                 IsLastSuggestion(incoming, s) && !IsSuggested(stored, s.id) && !IsDone(s, applications, services)
  {
    var added := NewSuggestions(EachOnce(incoming), SuggestionIds(stored), applications, services);
    EachOnceIs(incoming);
    NewAre(EachOnce(incoming), SuggestionIds(stored), applications, services);
    NewAreNot(EachOnce(incoming), SuggestionIds(stored), applications, services);
    forall s
      ensures s in EachOnce(incoming) <==> IsLastSuggestion(incoming, s)
      ensures s.id in SuggestionIds(stored) <==> IsSuggested(stored, s.id)
      ensures NothingToDo(s, applications, services) <==> IsDone(s, applications, services)
    {
      OnceIsLast(incoming, s);
      NothingToDoIs(s, applications, services);
    }
  }

  lemma {:induction false} NewAreNot(incoming: seq<Suggestion>, held: set<string>, applications: set<string>,
                                     services: seq<Rec>)
    ensures forall s | s in NewSuggestions(incoming, held, applications, services) ::
              !NothingToDo(s, applications, services)
  {
    if incoming != [] {
      NewAreNot(incoming[..|incoming| - 1], held, applications, services);
    }
  }

  lemma OnceIsLast(incoming: seq<Suggestion>, s: Suggestion)
    ensures s in EachOnce(incoming) <==> IsLastSuggestion(incoming, s)
  {
    EachOnceIs(incoming);
    LastSuggestionIs(incoming, s.id);
    if IsLastSuggestion(incoming, s) {
      var i :| 0 <= i < |incoming| && incoming[i] == s && forall j | i < j < |incoming| :: incoming[j].id != s.id;
      LastAt(incoming, i);
      assert s in incoming && s.id in SuggestionIds(EachOnce(incoming));
      var t :| t in EachOnce(incoming) && t.id == s.id;
      assert LastSuggestion(incoming, t.id) == Some(t);
    }
  }

  lemma {:induction false} LastAt(ss: seq<Suggestion>, i: nat)
    requires i < |ss| && forall j | i < j < |ss| :: ss[j].id != ss[i].id
    ensures LastSuggestion(ss, ss[i].id) == Some(ss[i])
  {
    if i < |ss| - 1 {
      LastAt(ss[..|ss| - 1], i);
    }
  }
}
