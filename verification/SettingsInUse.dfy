/**
 The settings store beside the server store: whose settings are shown. The epoch keeps answers of
 before the last clear out, but a switch that was overtaken still asks for the settings of the
 organisation it was started for, after the clear of the switch that overtook it.
 */
module SettingsInUse {
  import opened Options
  import S = Server
  import T = Settings

  /**
   Both stores, the switches that wait for their last refresh before they ask for the settings, the
   organisation each settings request is for, and the one the loaded settings are of.
   */
  datatype Stores = Stores(
    server: S.State,
    settings: T.State,
    refreshing: map<nat, string>,
    askedFor: map<nat, string>,
    shownFor: Option<string>)

  datatype Event =
    | OnServer(step: S.Event)
    | Refreshed(activation: nat)  // the end of a switch: it asks for the settings
    | PageLoads
    | PageSaves
    | OnSettings(reply: T.Event)      // an answer, a refusal, a failure, or a refused save going on

  const INITIAL := Stores(S.INITIAL, T.INITIAL, map[], map[], None)

  predicate IsReply(e: T.Event) {
    e.Answered? || e.Refused? || e.Failed? || e.Resumed?
  }

  predicate Enabled(b: Stores, e: Event) {
    match e
    case OnServer(se) => S.Enabled(b.server, se)
    case Refreshed(a) => a in b.refreshing
    case PageLoads => S.Conn(b.server).Some?
    case PageSaves => S.Conn(b.server).Some?
    case OnSettings(te) => IsReply(te) && T.Enabled(b.settings, te) && CallOf(te) in b.askedFor
  }

  function CallOf(e: T.Event): nat
    requires IsReply(e)
  {
    match e
    case Answered(call, _) => call
    case Refused(call, _) => call
    case Failed(call, _) => call
    case Resumed(call) => call
  }

  /** The steps of the server store that clear the settings: entering an organisation, and leaving for good. */
  predicate ClearsSettings(e: S.Event) {
    e.Stopped? || e.SignedOut? || e.Disconnect?
  }

  function Clear(b: Stores): Stores {
    b.(settings := T.Step(b.settings, T.Clear), shownFor := None)
  }

  function Ask(b: Stores, e: T.Event, org: string): Stores
    requires e.Load? || e.Save?
  {
    b.(settings := T.Step(b.settings, e), askedFor := b.askedFor[b.settings.next := org])
  }

  /** The reply is adopted: its call is of the present epoch and it brings a document. */
  predicate Adopts(b: Stores, e: T.Event)
    requires IsReply(e) && T.Enabled(b.settings, e)
  {
    T.EpochOf(b.settings.pending[CallOf(e)]) == b.settings.epoch && (e.Answered? || (e.Refused? && e.current.Some?))
  }

  function Reply(b: Stores, e: T.Event): Stores
    requires IsReply(e) && T.Enabled(b.settings, e) && CallOf(e) in b.askedFor
  {
    var org := b.askedFor[CallOf(e)];
    b.(settings := T.Step(b.settings, e),
       askedFor :=
         if T.Step(b.settings, e).next != b.settings.next then b.askedFor[b.settings.next := org] else b.askedFor,
       shownFor := if Adopts(b, e) then Some(org) else b.shownFor)
  }

  function Step(b: Stores, e: Event): Stores
    requires Enabled(b, e)
  {
    match e
    case OnServer(se) =>
      var after := b.(server := S.Step(b.server, se));
      if ClearsSettings(se) then Clear(after)
      else if se.Started? then
        after.(refreshing := b.refreshing[se.activation := b.server.activations[se.activation].org])
      else after
    case Refreshed(a) => Ask(b, T.Load, b.refreshing[a]).(refreshing := b.refreshing - {a})
    case PageLoads => Ask(b, T.Load, S.Conn(b.server).value)
    case PageSaves => Ask(b, T.Save, S.Conn(b.server).value)
    case OnSettings(te) => Reply(b, te)
  }

  predicate Legal(es: seq<Event>)
    decreases |es|, 0
  {
    es == [] || (Legal(es[..|es| - 1]) && Enabled(Run(es[..|es| - 1]), es[|es| - 1]))
  }

  function Run(es: seq<Event>): Stores
    requires Legal(es)
    decreases |es|, 1
  {
    if es == [] then INITIAL else Step(Run(es[..|es| - 1]), es[|es| - 1])
  }

  /* ---------- bookkeeping ---------- */

  /** Requests are numbered upward, none is of a later epoch, and each is for some organisation. */
  predicate Kept(b: Stores) {
    && (forall c | c in b.settings.pending :: c < b.settings.next && c in b.askedFor)
    && (forall c | c in b.settings.pending :: T.EpochOf(b.settings.pending[c]) <= b.settings.epoch)
    && (forall c | c in b.settings.pending && b.settings.pending[c].Reloading? ::
          b.settings.pending[c].saveEpoch <= b.settings.epoch)
  }

  lemma ReplyKeepsKept(b: Stores, e: T.Event)
    requires Kept(b) && IsReply(e) && T.Enabled(b.settings, e) && CallOf(e) in b.askedFor
    ensures Kept(Reply(b, e))
  {
  }

  lemma StepKeepsKept(b: Stores, e: Event)
    requires Kept(b) && Enabled(b, e)
    ensures Kept(Step(b, e))
  {
    match e {
      case OnSettings(te) =>
        ReplyKeepsKept(b, te);
      case _ =>
    }
  }

  lemma {:induction false} AlwaysKept(es: seq<Event>)
    requires Legal(es)
    ensures Kept(Run(es))
  {
    if es != [] {
      AlwaysKept(es[..|es| - 1]);
      StepKeepsKept(Run(es[..|es| - 1]), es[|es| - 1]);
    }
  }

  /* ---------- whose settings are loaded ---------- */

  predicate ShownAreInUse(b: Stores) {
    b.settings.loaded ==> b.shownFor.Some? && b.shownFor == b.server.orgId
  }

  /** The request can still be adopted: it is of the present epoch and has not been answered. */
  predicate CanBeAdopted(b: Stores, c: nat) {
    && c in b.settings.pending && !b.settings.pending[c].Returning?
    && T.EpochOf(b.settings.pending[c]) == b.settings.epoch
  }

  /** Loaded settings, and those any request in flight may still bring, are of the organisation in use. */
  predicate InOrder(b: Stores) {
    && ShownAreInUse(b)
    && forall c | c in b.settings.pending && CanBeAdopted(b, c) ::
       c in b.askedFor && Some(b.askedFor[c]) == b.server.orgId
  }

  /** A switch that was overtaken asks for its own settings, or a session ends with settings loaded or asked for. */
  predicate LeavesOldSettings(b: Stores, e: Event)
    requires Enabled(b, e)
  {
    || (e.Refreshed? && Some(b.refreshing[e.activation]) != b.server.orgId)
    || (e.OnServer? && e.step.Ended? && (b.settings.loaded || exists c | c in b.settings.pending :: CanBeAdopted(b, c)))
  }

  lemma AskExactlyWhen(b: Stores, e: T.Event, org: string)
    requires Kept(b) && InOrder(b) && (e.Load? || e.Save?)
    ensures InOrder(Ask(b, e, org)) <==> Some(org) == b.server.orgId
  {
    var after := Ask(b, e, org);
    assert CanBeAdopted(after, b.settings.next);
    forall c | CanBeAdopted(after, c) && c != b.settings.next
      ensures c in after.askedFor && Some(after.askedFor[c]) == b.server.orgId
    {
      assert CanBeAdopted(b, c);
    }
  }

  lemma ClearIsInOrder(b: Stores)
    requires Kept(b)
    ensures InOrder(Clear(b))
  {
    forall c | c in b.settings.pending
      ensures !CanBeAdopted(Clear(b), c)
    {
    }
  }

  lemma ReplyIsInOrder(b: Stores, e: T.Event)
    requires Kept(b) && InOrder(b) && IsReply(e) && T.Enabled(b.settings, e) && CallOf(e) in b.askedFor
    ensures InOrder(Reply(b, e))
  {
    var after := Reply(b, e);
    if T.EpochOf(b.settings.pending[CallOf(e)]) == b.settings.epoch && !e.Resumed? {
      assert CanBeAdopted(b, CallOf(e));
    }
    forall c | CanBeAdopted(after, c)
      ensures c in after.askedFor && Some(after.askedFor[c]) == b.server.orgId
    {
      if c != b.settings.next {
        assert CanBeAdopted(b, c);
      }
    }
  }

  lemma SameOrganisation(s: S.State, e: S.Event)
    requires S.Enabled(s, e) && !ClearsSettings(e) && !e.Ended?
    ensures S.Step(s, e).orgId == s.orgId
  {
  }

  lemma ServerStepExactlyWhen(b: Stores, e: S.Event)
    requires Kept(b) && InOrder(b) && S.Enabled(b.server, e)
    ensures InOrder(Step(b, OnServer(e))) <==> !LeavesOldSettings(b, OnServer(e))
  {
    var after := Step(b, OnServer(e));
    if ClearsSettings(e) {
      ClearIsInOrder(b.(server := S.Step(b.server, e)));
    } else {
      forall c
        ensures CanBeAdopted(after, c) <==> CanBeAdopted(b, c)
      {
      }
      if !e.Ended? {
        SameOrganisation(b.server, e);
      }
    }
  }

  /** A step leaves settings of another organisation, loaded or on their way, exactly when it is one of those two. */
  lemma StaysInOrderExactlyWhen(b: Stores, e: Event)
    requires Kept(b) && InOrder(b) && Enabled(b, e)
    ensures InOrder(Step(b, e)) <==> !LeavesOldSettings(b, e)
  {
    match e {
      case OnServer(se) =>
        ServerStepExactlyWhen(b, se);
      case Refreshed(a) =>
        AskExactlyWhen(b, T.Load, b.refreshing[a]);
        RefreshingAside(Ask(b, T.Load, b.refreshing[a]), Step(b, e));
      case PageLoads =>
        AskExactlyWhen(b, T.Load, S.Conn(b.server).value);
      case PageSaves =>
        AskExactlyWhen(b, T.Save, S.Conn(b.server).value);
      case OnSettings(te) =>
        ReplyIsInOrder(b, te);
    }
  }

  lemma RefreshingAside(b: Stores, c: Stores)
    requires c == b.(refreshing := c.refreshing)
    ensures InOrder(b) <==> InOrder(c)
  {
    forall call
      ensures CanBeAdopted(b, call) <==> CanBeAdopted(c, call)
    {
    }
  }

  predicate AlwaysInOrder(es: seq<Event>)
    requires Legal(es)
  {
    InOrder(Run(es)) && (es == [] || AlwaysInOrder(es[..|es| - 1]))
  }

  predicate NeverLeavesOld(es: seq<Event>)
    requires Legal(es)
  {
    es == [] || (NeverLeavesOld(es[..|es| - 1]) && !LeavesOldSettings(Run(es[..|es| - 1]), es[|es| - 1]))
  }

  /** Over a run, settings are at every step those of the organisation in use exactly when neither ever happens. */
  lemma {:induction false} SettingsAreInUseExactlyWhen(es: seq<Event>)
    requires Legal(es)
    ensures AlwaysInOrder(es) <==> NeverLeavesOld(es)
  {
    if es != [] {
      var k := |es| - 1;
      SettingsAreInUseExactlyWhen(es[..k]);
      AlwaysKept(es[..k]);
      if AlwaysInOrder(es[..k]) {
        StaysInOrderExactlyWhen(Run(es[..k]), es[k]);
      }
    }
  }

  /* ---------- an overtaken switch ---------- */

  lemma RunSnoc(es: seq<Event>, e: Event) returns (next: seq<Event>)
    requires Legal(es) && Enabled(Run(es), e)
    ensures next == es + [e] && Legal(next) && Run(next) == Step(Run(es), e)
  {
    next := es + [e];
    assert next[..|es|] == es;
  }

  lemma ServerSnoc(es: seq<Event>, e: S.Event) returns (next: seq<Event>)
    requires Legal(es) && S.Enabled(Run(es).server, e) && !Run(es).settings.loaded
    ensures next == es + [OnServer(e)] && Legal(next)
    ensures Run(next).server == S.Step(Run(es).server, e) && !Run(next).settings.loaded
  {
    next := RunSnoc(es, OnServer(e));
  }

  /** The server store in the course of two overlapping switches, to a and to b. */
  function Switching(status: S.Status, orgId: Option<string>, info: Option<string>, first: S.Waiting,
                     second: S.Waiting): S.State {
    S.State(status, true, false, {"a", "b"}, orgId, None, info, None, None, 2, map[],
            map[0 := first, 1 := second], map[], 0)
  }

  lemma BothBegun() returns (es: seq<Event>)
    ensures Legal(es) && !Run(es).settings.loaded
    ensures Run(es).server == Switching(S.Disconnected, None, None, S.Stopping(Some("a")), S.Stopping(Some("b")))
  {
    es := [];
    es := ServerSnoc(es, S.Session(true, false, {"a", "b"}));
    es := ServerSnoc(es, S.Activate(Some("a")));
    es := ServerSnoc(es, S.Activate(Some("b")));
    assert Run(es).server.activations == map[0 := S.Stopping(Some("a")), 1 := S.Stopping(Some("b"))];
  }

  lemma BothStopped() returns (es: seq<Event>)
    ensures Legal(es) && !Run(es).settings.loaded
    ensures Run(es).server == Switching(S.Disconnected, Some("b"), None, S.ForInfo("a"), S.ForInfo("b"))
  {
    es := BothBegun();
    es := ServerSnoc(es, S.Stopped(0));
    es := ServerSnoc(es, S.Stopped(1));
    assert Run(es).server.activations == map[0 := S.ForInfo("a"), 1 := S.ForInfo("b")];
  }

  lemma BothRead() returns (es: seq<Event>)
    ensures Legal(es) && !Run(es).settings.loaded
    ensures Run(es).server == Switching(S.Connected, Some("b"), Some("b"), S.ForStart("a"), S.ForStart("b"))
  {
    es := BothStopped();
    es := ServerSnoc(es, S.InfoRead(0));
    es := ServerSnoc(es, S.InfoRead(1));
    assert Run(es).server.activations == map[0 := S.ForStart("a"), 1 := S.ForStart("b")];
  }

  /** The first switch, overtaken by now, ends: it waits for a refresh, and the second organisation is in use. */
  lemma FirstEnds() returns (es: seq<Event>)
    ensures Legal(es) && S.Conn(Run(es).server) == Some("b")
    ensures 0 in Run(es).refreshing && Run(es).refreshing[0] == "a"
  {
    es := BothRead();
    es := RunSnoc(es, OnServer(S.Started(0)));
  }

  lemma AskedInPresentEpoch(b: Stores, e: T.Event, org: string)
    requires e.Load? || e.Save?
    ensures var call, after := b.settings.next, Ask(b, e, org);
            CanBeAdopted(after, call) && call in after.askedFor && after.askedFor[call] == org
  {
  }

  lemma AdoptedIsShown(b: Stores, call: nat, doc: string)
    requires CanBeAdopted(b, call) && call in b.askedFor
    ensures Enabled(b, OnSettings(T.Answered(call, doc)))
    ensures var after := Step(b, OnSettings(T.Answered(call, doc)));
            after.settings.loaded && after.shownFor == Some(b.askedFor[call]) && after.server == b.server
  {
  }

  /** Settings marked loaded can be the overtaken organisation's, although they were asked for after the last clear. */
  lemma OvertakenSwitchShowsOldSettings() returns (es: seq<Event>)
    ensures Legal(es) && Run(es).settings.loaded
    ensures Run(es).shownFor == Some("a") && S.Conn(Run(es).server) == Some("b")
  {
    es := FirstEnds();
    var before := Run(es);
    AskedInPresentEpoch(before, T.Load, "a");
    es := RunSnoc(es, Refreshed(0));
    AdoptedIsShown(Run(es), before.settings.next, "of a");
    es := RunSnoc(es, OnSettings(T.Answered(before.settings.next, "of a")));
  }
}
