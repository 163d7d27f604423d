/**
 Bringing what agents reported into the model. Reported values replace the stored ones; what
 people said is kept; a record its agent no longer reports is marked as gone; and what was said
 about a record before it was known here lands on it when it first appears.
 */
module Discovered {
  import opened Options
  import opened Records

  datatype Agent = Agent(id: string, fields: Values)

  /** An agent as the server reports it. `exitIp` is its connecting address, when that is a public one. */
  datatype ServerAgent = ServerAgent(id: string, fields: Values, clusterId: Option<string>, exitIp: Option<string>,
                                     synced: bool, approved: bool)

  datatype Status = Open | Accepted | Dismissed

  datatype Apply = CreateApplication(application: string, serviceIds: seq<string>) | OtherApply(content: Json)

  datatype Suggestion = Suggestion(id: string, status: Status, agentId: Option<string>, title: string, detail: string,
                                   apply: Option<Apply>)

  datatype Event = Event(id: string, content: Json)

  datatype Dependency = Dependency(id: string, sources: seq<string>, fields: Values)

  datatype SiteLink = SiteLink(id: string, measured: bool, measuredAt: Option<string>, fields: Values)

  /** What a poll leaves alone: the other records, and what connects them. */
  datatype Rest = Rest(
    applications: seq<Values>,
    externals: seq<Values>,
    devices: seq<Values>,
    dependencies: seq<Dependency>,
    siteLinks: seq<SiteLink>)

  /** `applications` holds the ids of the applications that still exist; a poll never changes them. */
  datatype Model = Model(
    clusters: seq<Rec>,
    nodes: seq<Rec>,
    namespaces: seq<Rec>,
    services: seq<Rec>,
    applications: set<string>,
    agents: seq<Agent>,
    suggestions: seq<Suggestion>,
    auditLog: seq<Event>,
    refs: Refs,
    rest: Rest)

  datatype ServerState = ServerState(
    generatedAt: string,
    agents: seq<ServerAgent>,
    clusters: seq<Rec>,
    nodes: seq<Rec>,
    namespaces: seq<Rec>,
    services: seq<Rec>,
    suggestions: seq<Suggestion>,
    auditLog: seq<Event>)

  /** What is added to a record of one list beyond what was reported. */
  datatype Tweak = NoTweak | ExitAddress(exit: map<string, string>) | AcceptHint(applications: set<string>)

  datatype Merge = Merge(kind: Kind, synced: set<string>, now: string, tweak: Tweak)

  datatype Merged = Merged(list: seq<Rec>, changed: bool, left: Refs)

  /* ---------- one record ---------- */

  function Tweaked(t: Tweak, r: Rec): Rec {
    match t
    case NoTweak => r
    case ExitAddress(exit) =>
      if r.id in exit then r.(fields := r.fields["egressIp" := Str(exit[r.id])]) else r
    case AcceptHint(applications) =>
      if !Truthy(r.applicationId) && Truthy(r.applicationHint) && r.applicationHint.value in applications
      then r.(applicationId := r.applicationHint) else r
  }

  /** What is reported now over what is stored: overrides and assignments are the stored ones. */
  function MergeOne(n: Rec, e: Rec): Rec {
    n.(overrides := e.overrides,
       applicationId := if n.applicationId.None? then e.applicationId else n.applicationId,
       siteId := if n.siteId.None? then e.siteId else n.siteId)
  }

  predicate Gone(m: Merge, e: Rec) {
    e.discovered && Truthy(e.agentId) && e.agentId.value in m.synced && !Truthy(e.deletedAt)
  }

  /** What becomes of a stored record, given the report about it, if there is one. */
  function Updated(m: Merge, e: Rec, n: Option<Rec>): Rec {
    if n.Some? then
      var result := Tweaked(m.tweak, MergeOne(n.value, e));
      if RecEqual(result, e) then e else result
    else if Gone(m, e) then e.(deletedAt := Some(m.now))
    else e
  }

  predicate Changes(m: Merge, e: Rec, n: Option<Rec>) {
    if n.Some? then !RecEqual(Tweaked(m.tweak, MergeOne(n.value, e)), e) else Gone(m, e)
  }

  /** A record seen for the first time, with what was said about it before. */
  function Landed(m: Merge, n: Rec, left: Refs): Rec {
    Tweaked(m.tweak, if n.id in left && left[n.id].kind == m.kind then ApplyRef(n, Some(left[n.id]), m.kind) else n)
  }

  /* ---------- one list ---------- */

  function ById(incoming: seq<Rec>): (inc: map<string, Rec>)
    ensures forall id | id in inc :: inc[id].id == id && inc[id] in incoming
  {
    if incoming == [] then map[]
    else ById(incoming[..|incoming| - 1])[incoming[|incoming| - 1].id := incoming[|incoming| - 1]]
  }

  /** The ids in the order of their first reports: the order in which a map of them is walked. */
  function Order(incoming: seq<Rec>): (ids: seq<string>)
    ensures forall i, j | 0 <= i < j < |ids| :: ids[i] != ids[j]
    ensures forall id | id in ids :: id in ById(incoming)
  {
    if incoming == [] then []
    else
      var done, last := Order(incoming[..|incoming| - 1]), incoming[|incoming| - 1].id;
      if last in done then done else done + [last]
  }

  function IdsOf(list: seq<Rec>): set<string> {
    set r | r in list :: r.id
  }

  /** The report about the i-th stored record: only the first record with an id takes it. */
  function ReportFor(existing: seq<Rec>, i: nat, inc: map<string, Rec>): Option<Rec>
    requires i < |existing|
  {
    var id := existing[i].id;
    if id in inc && id !in IdsOf(existing[..i]) then Some(inc[id]) else None
  }

  function UpdatedAll(m: Merge, existing: seq<Rec>, inc: map<string, Rec>): (out: seq<Rec>)
    ensures |out| == |existing|
  {
    seq(|existing|, i requires 0 <= i < |existing| => Updated(m, existing[i], ReportFor(existing, i, inc)))
  }

  predicate SomeChange(m: Merge, existing: seq<Rec>, inc: map<string, Rec>) {
    exists i | 0 <= i < |existing| :: Changes(m, existing[i], ReportFor(existing, i, inc))
  }

  /** The ids among `order` that no stored record has. */
  function NewIds(order: seq<string>, held: set<string>): (ids: seq<string>)
    ensures forall id | id in ids :: id in order && id !in held
    ensures forall id | id in order && id !in held :: id in ids
  {
    if order == [] then []
    else
      var done, last := NewIds(order[..|order| - 1], held), order[|order| - 1];
      if last in held then done else done + [last]
  }

  function LandedAll(m: Merge, ids: seq<string>, inc: map<string, Rec>, left: Refs): (out: seq<Rec>)
    requires forall id | id in ids :: id in inc
    ensures |out| == |ids|
  {
    seq(|ids|, i requires 0 <= i < |ids| => Landed(m, inc[ids[i]], left))
  }

  function Without(left: Refs, ids: seq<string>): Refs {
    map id | id in left && id !in ids :: left[id]
  }

  function Arrivals(existing: seq<Rec>, incoming: seq<Rec>): (ids: seq<string>)
    ensures forall id | id in ids :: id in ById(incoming) && id !in IdsOf(existing)
  {
    NewIds(Order(incoming), IdsOf(existing))
  }

  function MergedList(m: Merge, existing: seq<Rec>, incoming: seq<Rec>, left: Refs): Merged {
    var inc, ids := ById(incoming), Arrivals(existing, incoming);
    var changed := SomeChange(m, existing, inc) || ids != [];
    Merged(if changed then UpdatedAll(m, existing, inc) + LandedAll(m, ids, inc, left) else existing,
           changed,
           Without(left, ids))
  }

  /** Walks the stored records and takes their reports out of a map; what is left in it is new. */
  method MergeList(m: Merge, existing: seq<Rec>, incoming: seq<Rec>, refs: Refs)
    returns (list: seq<Rec>, changed: bool, left: Refs)
    ensures Merged(list, changed, left) == MergedList(m, existing, incoming, refs)
  {
    var inc, order := Index(incoming);
    ghost var all := inc;
    var out;
    out, inc, changed := UpdateStored(m, existing, inc);
    var landed;
    landed, left := LandNew(m, inc, order, refs, IdsOf(existing), all);
    if landed != [] {
      changed := true;
    }
    list := if changed then out + landed else existing;
  }

  lemma LeftStep(existing: seq<Rec>, i: nat, all: map<string, Rec>)
    requires i < |existing|
    ensures all - IdsOf(existing[..i + 1]) == all - IdsOf(existing[..i]) - {existing[i].id}
    ensures var left, id := all - IdsOf(existing[..i]), existing[i].id;
            ReportFor(existing, i, all) == if id in left then Some(left[id]) else None
  {
    assert existing[..i + 1] == existing[..i] + [existing[i]];
  }

  lemma UpdatedStep(m: Merge, existing: seq<Rec>, i: nat, all: map<string, Rec>)
    requires i < |existing|
    ensures UpdatedAll(m, existing, all)[..i + 1]
            == UpdatedAll(m, existing, all)[..i] + [Updated(m, existing[i], ReportFor(existing, i, all))]
  {
  }

  predicate ChangedBefore(m: Merge, existing: seq<Rec>, all: map<string, Rec>, i: nat)
    requires i <= |existing|
  {
    exists j | 0 <= j < i :: Changes(m, existing[j], ReportFor(existing, j, all))
  }

  lemma ChangedStep(m: Merge, existing: seq<Rec>, i: nat, all: map<string, Rec>)
    requires i < |existing|
    ensures ChangedBefore(m, existing, all, i + 1)
            <==> ChangedBefore(m, existing, all, i) || Changes(m, existing[i], ReportFor(existing, i, all))
  {
  }

  method UpdateStored(m: Merge, existing: seq<Rec>, all: map<string, Rec>)
    returns (out: seq<Rec>, inc: map<string, Rec>, changed: bool)
    ensures out == UpdatedAll(m, existing, all)
    ensures inc == all - IdsOf(existing)
    ensures changed <==> SomeChange(m, existing, all)
  {
    out, inc, changed := [], all, false;
    for i := 0 to |existing|
      invariant inc == all - IdsOf(existing[..i])
      invariant out == UpdatedAll(m, existing, all)[..i]
      invariant changed <==> ChangedBefore(m, existing, all, i)
    {
      LeftStep(existing, i, all);
      UpdatedStep(m, existing, i, all);
      ChangedStep(m, existing, i, all);
      var e := existing[i];
      var n := if e.id in inc then Some(inc[e.id]) else None;
      inc := inc - {e.id};
      var result, moved := UpdateOne(m, e, n);
      out := out + [result];
      changed := changed || moved;
    }
    assert existing[..|existing|] == existing;
  }

  method UpdateOne(m: Merge, e: Rec, n: Option<Rec>) returns (r: Rec, changed: bool)
    ensures r == Updated(m, e, n) && (changed <==> Changes(m, e, n))
  {
    if n.Some? {
      var result := Tweaked(m.tweak, MergeOne(n.value, e));
      if RecEqual(result, e) {
        return e, false;
      }
      return result, true;
    }
    if Gone(m, e) {
      return e.(deletedAt := Some(m.now)), true;
    }
    return e, false;
  }

  method Index(incoming: seq<Rec>) returns (inc: map<string, Rec>, order: seq<string>)
    ensures inc == ById(incoming) && order == Order(incoming)
  {
    inc, order := map[], [];
    for i := 0 to |incoming|
      invariant inc == ById(incoming[..i]) && order == Order(incoming[..i])
    {
      assert incoming[..i + 1][..i] == incoming[..i];
      inc := inc[incoming[i].id := incoming[i]];
      if incoming[i].id !in order {
        order := order + [incoming[i].id];
      }
    }
    assert incoming[..|incoming|] == incoming;
  }

  lemma LandedGrows(m: Merge, ids: seq<string>, id: string, inc: map<string, Rec>, left: Refs)
    requires id in inc && forall known | known in ids :: known in inc
    ensures LandedAll(m, ids + [id], inc, left) == LandedAll(m, ids, inc, left) + [Landed(m, inc[id], left)]
  {
  }

  lemma WithoutOneMore(left: Refs, ids: seq<string>, id: string)
    ensures Without(left, ids + [id]) == Without(left, ids) - {id}
  {
  }

  method LandNew(m: Merge, inc: map<string, Rec>, order: seq<string>, refs: Refs,
                 ghost held: set<string>, ghost all: map<string, Rec>)
    returns (out: seq<Rec>, left: Refs)
    requires inc == all - held
    requires forall id | id in order :: id in all
    requires forall id | id in all :: all[id].id == id
    requires forall i, j | 0 <= i < j < |order| :: order[i] != order[j]
    ensures out == LandedAll(m, NewIds(order, held), all, refs)
    ensures left == Without(refs, NewIds(order, held))
  {
    out, left := [], refs;
    for i := 0 to |order|
      invariant out == LandedAll(m, NewIds(order[..i], held), all, refs)
      invariant left == Without(refs, NewIds(order[..i], held))
    {
      assert order[..i + 1][..i] == order[..i];
      var id := order[i];
      ghost var done := NewIds(order[..i], held);
      assert id !in order[..i];
      if id in inc {
        var n := inc[id];
        assert id in left <==> id in refs;
        assert NewIds(order[..i + 1], held) == done + [id];
        LandedGrows(m, done, id, all, refs);
        out := out + [Landed(m, n, left)];
        left := left - {id};
        WithoutOneMore(refs, done, id);
      }
    }
    assert order[..|order|] == order;
  }

  /* ---------- agents, suggestions, audit events ---------- */

  function Reported(agents: seq<ServerAgent>): (out: seq<Agent>)
    ensures |out| == |agents|
  {
    seq(|agents|, i requires 0 <= i < |agents| => Agent(agents[i].id, agents[i].fields))
  }

  function ServerIds(agents: seq<ServerAgent>): set<string> {
    set a | a in agents :: a.id
  }

  /** Agents this server does not know: the ones that stay as they are. */
  function LocalAgents(stored: seq<Agent>, known: set<string>): seq<Agent> {
    if stored == [] then []
    else
      var done, last := LocalAgents(stored[..|stored| - 1], known), stored[|stored| - 1];
      if last.id in known then done else done + [last]
  }

  function LastAgent(stored: seq<Agent>, id: string): Option<Agent> {
    if stored == [] then None
    else if stored[|stored| - 1].id == id then Some(stored[|stored| - 1])
    else LastAgent(stored[..|stored| - 1], id)
  }

  /** A reported agent, or the stored one when nothing about it moved. */
  function AgentNow(stored: seq<Agent>, next: Agent): Agent {
    var was := LastAgent(stored, next.id);
    if was.Some? && DeepEqual(Obj(next.fields), Obj(was.value.fields)) then was.value else next
  }

  function AgentsNow(stored: seq<Agent>, reported: seq<Agent>): (out: seq<Agent>)
    ensures |out| == |reported|
  {
    seq(|reported|, i requires 0 <= i < |reported| => AgentNow(stored, reported[i]))
  }

  function MergedAgents(stored: seq<Agent>, agents: seq<ServerAgent>): seq<Agent> {
    LocalAgents(stored, ServerIds(agents)) + AgentsNow(stored, Reported(agents))
  }

  function LastSuggestion(ss: seq<Suggestion>, id: string): Option<Suggestion> {
    if ss == [] then None
    else if ss[|ss| - 1].id == id then Some(ss[|ss| - 1])
    else LastSuggestion(ss[..|ss| - 1], id)
  }

  function FindRec(list: seq<Rec>, id: string): Option<Rec> {
    if list == [] then None
    else if list[|list| - 1].id == id then Some(list[|list| - 1])
    else FindRec(list[..|list| - 1], id)
  }

  /** Whether a grouping is already what the model says: there is nothing left to suggest. */
  predicate NothingToDo(s: Suggestion, applications: set<string>, services: seq<Rec>) {
    && s.apply.Some? && s.apply.value.CreateApplication?
    && s.apply.value.application in applications
    && forall id | id in s.apply.value.serviceIds ::
         var r := FindRec(services, id); r.None? || r.value.applicationId == Some(s.apply.value.application)
  }

  predicate Withdrawn(s: Suggestion, synced: set<string>) {
    s.status.Open? && (("sg-app-" <= s.id && Truthy(s.agentId) && s.agentId.value in synced)
                       || ("sg-unk-" <= s.id && synced != {}))
  }

  /** A stored suggestion after a poll: updated while open, never reopened, gone when withdrawn. */
  function SuggestionNow(s: Suggestion, n: Option<Suggestion>, synced: set<string>): Option<Suggestion> {
    if n.Some? then
      Some(if s.status.Open? then s.(title := n.value.title, detail := n.value.detail, apply := n.value.apply) else s)
    else if Withdrawn(s, synced) then None
    else Some(s)
  }

  /** What is reported about a stored suggestion: only the first one with an id takes the report. */
  function SuggestionReport(s: Suggestion, earlier: seq<Suggestion>, incoming: seq<Suggestion>): Option<Suggestion> {
    if s.id in SuggestionIds(earlier) then None else LastSuggestion(incoming, s.id)
  }

  function KeptSuggestions(stored: seq<Suggestion>, incoming: seq<Suggestion>, synced: set<string>): seq<Suggestion> {
    if stored == [] then []
    else
      var earlier, last := stored[..|stored| - 1], stored[|stored| - 1];
      var done := KeptSuggestions(earlier, incoming, synced);
      var now := SuggestionNow(last, SuggestionReport(last, earlier, incoming), synced);
      if now.Some? then done + [now.value] else done
  }

  function SuggestionIds(ss: seq<Suggestion>): set<string> {
    set s | s in ss :: s.id
  }

  function Replaced(ss: seq<Suggestion>, s: Suggestion): (out: seq<Suggestion>)
    ensures |out| == |ss|
  {
    seq(|ss|, i requires 0 <= i < |ss| => if ss[i].id == s.id then s else ss[i])
  }

  /** Each reported suggestion once: at the place of the first report, as the last one has it. */
  function EachOnce(incoming: seq<Suggestion>): seq<Suggestion> {
    if incoming == [] then []
    else
      var done, last := EachOnce(incoming[..|incoming| - 1]), incoming[|incoming| - 1];
      if last.id in SuggestionIds(done) then Replaced(done, last) else done + [last]
  }

  function NewSuggestions(incoming: seq<Suggestion>, held: set<string>, applications: set<string>,
                          services: seq<Rec>): seq<Suggestion> {
    if incoming == [] then []
    else
      var done := NewSuggestions(incoming[..|incoming| - 1], held, applications, services);
      var last := incoming[|incoming| - 1];
      if last.id in held || NothingToDo(last, applications, services) then done else done + [last]
  }

  function MergedSuggestions(stored: seq<Suggestion>, incoming: seq<Suggestion>, synced: set<string>,
                             applications: set<string>, services: seq<Rec>): seq<Suggestion> {
    KeptSuggestions(stored, incoming, synced)
    + NewSuggestions(EachOnce(incoming), SuggestionIds(stored), applications, services)
  }

  function EventIds(es: seq<Event>): set<string> {
    set e | e in es :: e.id
  }

  function NewEvents(incoming: seq<Event>, have: set<string>): seq<Event> {
    if incoming == [] then []
    else
      var done, last := NewEvents(incoming[..|incoming| - 1], have), incoming[|incoming| - 1];
      if last.id in have then done else done + [last]
  }

  /* ---------- the whole document ---------- */

  function Synced(agents: seq<ServerAgent>): set<string> {
    set a | a in agents && a.synced && a.approved :: a.id
  }

  /** The public addresses clusters reach the server from. */
  function Exits(agents: seq<ServerAgent>): map<string, string> {
    if agents == [] then map[]
    else
      var done, last := Exits(agents[..|agents| - 1]), agents[|agents| - 1];
      if Truthy(last.clusterId) && Truthy(last.exitIp) then done[last.clusterId.value := last.exitIp.value] else done
  }

  datatype Poll = Poll(model: Model, clustersChanged: bool, nodesChanged: bool, namespacesChanged: bool,
                       servicesChanged: bool)

  function MergeFor(kind: Kind, applications: set<string>, doc: ServerState): Merge {
    Merge(kind, Synced(doc.agents), doc.generatedAt,
          match kind
          case ClusterKind => ExitAddress(Exits(doc.agents))
          case ServiceKind => AcceptHint(applications)
          case _ => NoTweak)
  }

  function Polled(m: Model, doc: ServerState): Poll {
    var clusters := MergedList(MergeFor(ClusterKind, m.applications, doc), m.clusters, doc.clusters, m.refs);
    var nodes := MergedList(MergeFor(NodeKind, m.applications, doc), m.nodes, doc.nodes, clusters.left);
    var namespaces :=
      MergedList(MergeFor(NamespaceKind, m.applications, doc), m.namespaces, doc.namespaces, nodes.left);
    var services := MergedList(MergeFor(ServiceKind, m.applications, doc), m.services, doc.services, namespaces.left);
    Poll(Model(clusters.list, nodes.list, namespaces.list, services.list,
               m.applications,
               MergedAgents(m.agents, doc.agents),
               MergedSuggestions(m.suggestions, doc.suggestions, Synced(doc.agents), m.applications, services.list),
               m.auditLog + NewEvents(doc.auditLog, EventIds(m.auditLog)),
               if |services.left| == |m.refs| then m.refs else services.left,
               m.rest),
         clusters.changed, nodes.changed, namespaces.changed, services.changed)
  }

  method MergeDiscovered(m: Model, doc: ServerState) returns (p: Poll)
    ensures p == Polled(m, doc)
  {
    var left := m.refs;
    var clusters, c, nodes, n, namespaces, a, services, s;
    clusters, c, left := MergeList(MergeFor(ClusterKind, m.applications, doc), m.clusters, doc.clusters, left);
    nodes, n, left := MergeList(MergeFor(NodeKind, m.applications, doc), m.nodes, doc.nodes, left);
    namespaces, a, left := MergeList(MergeFor(NamespaceKind, m.applications, doc), m.namespaces, doc.namespaces, left);
    services, s, left := MergeList(MergeFor(ServiceKind, m.applications, doc), m.services, doc.services, left);
    var agents := MergedAgents(m.agents, doc.agents);
    var suggestions := MergedSuggestions(m.suggestions, doc.suggestions, Synced(doc.agents), m.applications, services);
    var log := m.auditLog + NewEvents(doc.auditLog, EventIds(m.auditLog));
    var refs := if |left| == |m.refs| then m.refs else left;
    p := Poll(Model(clusters, nodes, namespaces, services, m.applications, agents, suggestions, log, refs, m.rest),
              c, n, a, s);
  }
}
