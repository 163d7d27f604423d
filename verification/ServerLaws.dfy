/**
 No stale picture under any interleaving, and what the slot guarantees. The same guard is missing
 where the organisation's info is written, and exactly when that shows is stated here.
 */
module ServerLaws {
  import opened Options
  import opened Server

  predicate Legal(es: seq<Event>)
    decreases |es|, 0
  {
    es == [] || (Legal(es[..|es| - 1]) && Enabled(Run(es[..|es| - 1]), es[|es| - 1]))
  }

  function Run(es: seq<Event>): State
    requires Legal(es)
    decreases |es|, 1
  {
    if es == [] then INITIAL else Step(Run(es[..|es| - 1]), es[|es| - 1])
  }

  /* ---------- the picture ---------- */

  predicate HeldIsInUse(s: State) {
    s.held.Some? ==> s.held == s.orgId
  }

  lemma StepKeepsHeld(s: State, e: Event)
    requires Enabled(s, e) && HeldIsInUse(s)
    ensures HeldIsInUse(Step(s, e))
  {
    match e {
      case Answered(f) =>
      case Stopped(a) =>
      case Ended(_) =>
      case SignedOut =>
      case Disconnect =>
      case _ =>
        assert Step(s, e).held == s.held && Step(s, e).orgId == s.orgId;
    }
  }

  /** A held state was fetched for the organisation in use, however switches, sign-outs and answers interleave. */
  lemma {:induction false} NoStalePicture(es: seq<Event>)
    requires Legal(es)
    ensures HeldIsInUse(Run(es))
  {
    if es != [] {
      NoStalePicture(es[..|es| - 1]);
      StepKeepsHeld(Run(es[..|es| - 1]), es[|es| - 1]);
    }
  }

  /* ---------- the slot ---------- */

  /** The slot names a request of its own organisation that is in flight; ids of requests in flight were given out. */
  predicate SlotIsLive(s: State) {
    && (forall f | f in s.flights :: f < s.next)
    && (s.slot.Some? ==> s.slot.value in s.flights && s.slotOrg == Some(s.flights[s.slot.value].org))
    && (s.slot.None? ==> s.slotOrg.None?)
  }

  lemma BeginKeepsSlotLive(s: State)
    requires SlotIsLive(s)
    ensures SlotIsLive(BeginRefresh(s))
  {
  }

  lemma MarkKeepsSlotLive(s: State, f: nat, phase: Phase)
    requires f in s.flights && SlotIsLive(s)
    ensures SlotIsLive(Mark(s, f, phase))
  {
  }

  lemma SettleKeepsSlotLive(s: State, f: nat)
    requires f in s.flights && SlotIsLive(s)
    ensures var gone := s.(flights := s.flights - {f});
            SlotIsLive(if s.slot == Some(f) then gone.(slot := None, slotOrg := None) else gone)
  {
  }

  lemma StepKeepsSlotLive(s: State, e: Event)
    requires Enabled(s, e) && SlotIsLive(s)
    ensures SlotIsLive(Step(s, e))
  {
    match e {
      case Refresh =>
        BeginKeepsSlotLive(s);
      case Started(a) =>
        BeginKeepsSlotLive(s);
      case Settle(f) =>
        SettleKeepsSlotLive(s, f);
      case Answered(f) =>
        MarkKeepsSlotLive(s, f, Over);
      case Unauthorised(f) =>
        MarkKeepsSlotLive(s, f, Ending);
      case Ended(f) =>
        MarkKeepsSlotLive(s, f, Over);
      case Broken(f) =>
        MarkKeepsSlotLive(s, f, Over);
      case _ =>
        assert Step(s, e).flights == s.flights && Step(s, e).slot == s.slot && Step(s, e).slotOrg == s.slotOrg;
    }
  }

  lemma {:induction false} SlotStaysLive(es: seq<Event>)
    requires Legal(es)
    ensures SlotIsLive(Run(es))
  {
    if es != [] {
      SlotStaysLive(es[..|es| - 1]);
      StepKeepsSlotLive(Run(es[..|es| - 1]), es[|es| - 1]);
    }
  }

  /** A caller is only handed a request in flight of its own connection. */
  lemma SharedIsOwn(es: seq<Event>)
    requires Legal(es) && Shares(Run(es)) && Conn(Run(es)).Some?
    ensures var s := Run(es); s.slot.value in s.flights && Some(s.flights[s.slot.value].org) == Conn(s)
  {
    SlotStaysLive(es);
  }

  /** A request begun by a step: the one that took the next number into the slot. */
  predicate BeginsFlight(s: State, e: Event)
    requires Enabled(s, e)
  {
    (e.Refresh? || e.Started?) && BeginRefresh(s) != s
  }

  /** From the step that begins a request until its own `finally` or the next request, the slot is its own. */
  predicate KeepsSlot(es: seq<Event>, i: nat, f: nat)
    requires Legal(es)
  {
    i <= |es| && f in Run(es).flights && forall l | i <= l < |es| ::
      LegalAt(es, l) && !BeginsFlight(Run(es[..l]), es[l])
  }

  predicate LegalAt(es: seq<Event>, l: nat)
    requires l < |es|
  {
    Legal(es[..l]) && Enabled(Run(es[..l]), es[l])
  }

  /** However many older requests finish meanwhile, none frees the slot of a newer one still in flight. */
  lemma {:induction false} OlderNeverFreesNewer(es: seq<Event>, i: nat, f: nat)
    requires Legal(es) && KeepsSlot(es, i, f) && Legal(es[..i]) && Run(es[..i]).slot == Some(f)
    ensures Run(es).slot == Some(f)
    decreases |es|
  {
    if i < |es| {
      var k := |es| - 1;
      var before := Run(es[..k]);
      assert es[..k][..i] == es[..i];
      FlightsOnlyLeave(es[..k], es[k], f);
      forall l | i <= l < k
        ensures LegalAt(es[..k], l) && !BeginsFlight(Run(es[..k][..l]), es[..k][l])
      {
        assert es[..k][..l] == es[..l];
        assert LegalAt(es, l);
      }
      OlderNeverFreesNewer(es[..k], i, f);
      assert LegalAt(es, k) && !BeginsFlight(before, es[k]);
      QuietStepKeepsSlot(before, es[k], f);
    } else {
      assert es[..i] == es;
    }
  }

  lemma QuietStepKeepsSlot(s: State, e: Event, f: nat)
    requires Enabled(s, e) && !BeginsFlight(s, e) && s.slot == Some(f) && f in Step(s, e).flights
    ensures Step(s, e).slot == Some(f)
  {
    match e {
      case Refresh =>
      case Started(a) =>
      case Settle(g) =>
      case _ =>
        assert Step(s, e).slot == s.slot;
    }
  }

  lemma FlightsOnlyLeave(es: seq<Event>, e: Event, f: nat)
    requires Legal(es) && Enabled(Run(es), e) && !BeginsFlight(Run(es), e)
    ensures f in Step(Run(es), e).flights ==> f in Run(es).flights
  {
  }

  /* ---------- how many requests are in flight ---------- */

  /** The organisation in use changes while a request is in the slot. */
  predicate IsOvertaken(s: State, e: Event)
    requires Enabled(s, e)
  {
    s.slot.Some? && Step(s, e).orgId != s.orgId
  }

  /** How often the organisation in use changed under a request in the slot; entering one with none out
      is no such change. */
  function Switches(es: seq<Event>): nat
    requires Legal(es)
  {
    if es == [] then 0
    else Switches(es[..|es| - 1]) + if IsOvertaken(Run(es[..|es| - 1]), es[|es| - 1]) then 1 else 0
  }

  predicate SlotIsElsewhere(s: State) {
    s.slot.Some? && s.slotOrg != s.orgId
  }

  lemma MarkKeepsCount(s: State, f: nat, phase: Phase)
    requires f in s.flights
    ensures |Mark(s, f, phase).flights| == |s.flights|
  {
    assert Mark(s, f, phase).flights.Keys == s.flights.Keys;
  }

  lemma BeginAddsOne(s: State)
    ensures |BeginRefresh(s).flights| <= |s.flights| + if BeginRefresh(s) != s then 1 else 0
  {
    if BeginRefresh(s) != s {
      assert BeginRefresh(s).flights.Keys == s.flights.Keys + {s.next};
    }
  }

  lemma FlightsBound(s: State, e: Event)
    requires Enabled(s, e)
    ensures |Step(s, e).flights| <= |s.flights| + if BeginsFlight(s, e) then 1 else 0
  {
    match e {
      case Settle(f) =>
        SettleFrees(s, f);
      case Refresh =>
        BeginAddsOne(s);
      case Started(_) =>
        BeginAddsOne(s);
      case Answered(f) =>
        MarkKeepsCount(s, f, Over);
      case Unauthorised(f) =>
        MarkKeepsCount(s, f, Ending);
      case Ended(f) =>
        MarkKeepsCount(s, f, Over);
      case Broken(f) =>
        MarkKeepsCount(s, f, Over);
      case _ =>
        OthersLeaveFlights(s, e);
    }
  }

  lemma OthersLeaveFlights(s: State, e: Event)
    requires Enabled(s, e) && !e.Settle? && !e.Refresh? && !e.Started?
    requires !e.Answered? && !e.Unauthorised? && !e.Ended? && !e.Broken?
    ensures Step(s, e).flights == s.flights
  {
  }

  lemma SettleFrees(s: State, f: nat)
    requires Enabled(s, Settle(f))
    ensures |Step(s, Settle(f)).flights| == |s.flights| - 1
  {
    assert (s.flights - {f}).Keys == s.flights.Keys - {f};
  }

  /** Flights beyond the slot's own are paid for by switches already made. */
  predicate Paid(s: State, switches: nat) {
    |s.flights| + (if s.slot.None? then 1 else 0) + (if SlotIsElsewhere(s) then 1 else 0) <= 1 + switches
  }

  lemma StepIsPaid(s: State, e: Event, switches: nat)
    requires Enabled(s, e) && SlotIsLive(s) && Paid(s, switches)
    ensures Paid(Step(s, e), switches + if IsOvertaken(s, e) then 1 else 0)
  {
    FlightsBound(s, e);
    if e.Settle? {
      SettleFrees(s, e.flight);
    }
  }

  /** At most one request is in flight, plus one for every switch of organisation made while one was. */
  lemma {:induction false} OneRequestPerSwitch(es: seq<Event>)
    requires Legal(es)
    ensures |Run(es).flights| <= 1 + Switches(es)
    ensures Paid(Run(es), Switches(es))
  {
    if es != [] {
      var k := |es| - 1;
      OneRequestPerSwitch(es[..k]);
      SlotStaysLive(es[..k]);
      StepIsPaid(Run(es[..k]), es[k], Switches(es[..k]));
    }
  }

  /** Signed in to a server with the organisations a and b, a entered, its info read and its state asked for: one
      request, no switch. */
  lemma OneOrganisationOneRequest() returns (es: seq<Event>)
    ensures Legal(es) && |Run(es).flights| == 1 && Switches(es) == 0
    ensures Run(es) == State(Connected, true, false, {"a", "b"}, Some("a"), None, Some("a"), Some(1), Some("a"), 2,
                             map[1 := Flight("a", Out)], map[], map[], 0)
  {
    es := Entered();
    es := QuietSnoc(es, Started(0));
  }

  lemma Entered() returns (es: seq<Event>)
    ensures Legal(es) && Switches(es) == 0
    ensures Run(es) == State(Connected, true, false, {"a", "b"}, Some("a"), None, Some("a"), None, None, 1, map[],
                             map[0 := ForStart("a")], map[], 0)
  {
    es := [];
    es := QuietSnoc(es, Session(true, false, {"a", "b"}));
    es := QuietSnoc(es, Activate(Some("a")));
    es := QuietSnoc(es, Stopped(0));
    es := QuietSnoc(es, InfoRead(0));
  }

  lemma QuietSnoc(es: seq<Event>, e: Event) returns (next: seq<Event>)
    requires Legal(es) && Enabled(Run(es), e) && Switches(es) == 0 && Run(es).slot.None?
    ensures next == es + [e] && Legal(next) && Run(next) == Step(Run(es), e) && Switches(next) == 0
  {
    next := RunSnoc(es, e);
    assert next[..|es|] == es;
  }

  /** The bound is reached: one switch under a request in flight, and two are. */
  lemma OneSwitchTwoRequests() returns (es: seq<Event>)
    ensures Legal(es) && Switches(es) == 1 && |Run(es).flights| == 2
  {
    es := OneOrganisationOneRequest();
    var flights := Run(es).flights;
    es := SwitchSnoc(es, Activate(Some("b")));
    es := SwitchSnoc(es, Stopped(2));
    es := SwitchSnoc(es, InfoRead(2));
    var s := Run(es);
    assert Conn(s) == Some("b") && s.flights == flights && s.next == 3;
    es := SwitchSnoc(es, Started(2));
    assert Run(es).flights.Keys == {1, 3};
  }

  lemma SwitchSnoc(es: seq<Event>, e: Event) returns (next: seq<Event>)
    requires Legal(es) && Enabled(Run(es), e)
    ensures next == es + [e] && Legal(next) && Run(next) == Step(Run(es), e)
    ensures Switches(next) == Switches(es) + if IsOvertaken(Run(es), e) then 1 else 0
  {
    next := RunSnoc(es, e);
    assert next[..|es|] == es;
  }

  /* ---------- the organisation's info ---------- */

  predicate InfoIsInUse(s: State) {
    s.info.Some? ==> s.info == s.orgId
  }

  /**
   The three places that leave another organisation's info: an activation overtaken while it waited,
   a page's own inquiry overtaken while it waited, and an expired session.
   */
  predicate LeavesOldInfo(s: State, e: Event)
    requires Enabled(s, e)
  {
    || (e.InfoRead? && Some(s.activations[e.activation].org) != s.orgId)
    || (e.InfoAnswered? && Some(s.inquiries[e.inquiry]) != s.orgId)
    || (e.Ended? && s.info.Some?)
  }

  lemma InfoStaysInUseExactlyWhen(s: State, e: Event)
    requires Enabled(s, e) && InfoIsInUse(s)
    ensures InfoIsInUse(Step(s, e)) <==> !LeavesOldInfo(s, e)
  {
  }

  predicate InfoAlwaysInUse(es: seq<Event>)
    requires Legal(es)
  {
    InfoIsInUse(Run(es)) && (es == [] || InfoAlwaysInUse(es[..|es| - 1]))
  }

  predicate NeverLeavesOldInfo(es: seq<Event>)
    requires Legal(es)
  {
    es == []
    || (NeverLeavesOldInfo(es[..|es| - 1]) && !LeavesOldInfo(Run(es[..|es| - 1]), es[|es| - 1]))
  }

  /** A run shows at every step only the info of the organisation in use exactly when none of them ever happens. */
  lemma {:induction false} InfoIsAlwaysInUseExactlyWhen(es: seq<Event>)
    requires Legal(es)
    ensures InfoAlwaysInUse(es) <==> NeverLeavesOldInfo(es)
  {
    if es != [] {
      var k := |es| - 1;
      InfoIsAlwaysInUseExactlyWhen(es[..k]);
      if InfoAlwaysInUse(es[..k]) {
        InfoStaysInUseExactlyWhen(Run(es[..k]), es[k]);
      }
    }
  }

  lemma RunSnoc(es: seq<Event>, e: Event) returns (next: seq<Event>)
    requires Legal(es) && Enabled(Run(es), e)
    ensures next == es + [e] && Legal(next) && Run(next) == Step(Run(es), e)
  {
    next := es + [e];
    assert next[..|es|] == es;
  }

  /** Two overlapping switches can leave the first organisation's info beside the second one. */
  lemma OverlappingSwitchesShowOldInfo() returns (es: seq<Event>)
    ensures Legal(es) && Run(es).info == Some("a") && Run(es).orgId == Some("b") && Run(es).status == Connected
  {
    es := [];
    es := RunSnoc(es, Session(true, false, {"a", "b"}));
    es := RunSnoc(es, Activate(Some("a")));
    es := RunSnoc(es, Activate(Some("b")));
    var s := Run(es);
    assert s.activations[0] == Stopping(Some("a")) && s.activations[1] == Stopping(Some("b"));
    es := RunSnoc(es, Stopped(0));
    es := RunSnoc(es, Stopped(1));
    es := RunSnoc(es, InfoRead(0));
  }

  /** The answers a run writes too late. */
  predicate OnlyInquiriesLate(es: seq<Event>)
    requires Legal(es)
  {
    forall l | 0 <= l < |es| :: LegalAt(es, l) && LeavesOldInfo(Run(es[..l]), es[l]) ==> es[l].InfoAnswered?
  }

  lemma LateSnoc(es: seq<Event>, e: Event) returns (next: seq<Event>)
    requires Legal(es) && Enabled(Run(es), e) && OnlyInquiriesLate(es)
    requires LeavesOldInfo(Run(es), e) ==> e.InfoAnswered?
    ensures next == es + [e] && Legal(next) && Run(next) == Step(Run(es), e) && OnlyInquiriesLate(next)
  {
    next := RunSnoc(es, e);
    forall l | 0 <= l < |next| && LegalAt(next, l) && LeavesOldInfo(Run(next[..l]), next[l])
      ensures next[l].InfoAnswered?
    {
      if l < |es| {
        assert next[..l] == es[..l];
        assert LegalAt(es, l);
      } else {
        assert next[..l] == es;
      }
    }
  }

  /** A page's inquiry alone does it: asked in one organisation, answered after a whole switch to another. */
  lemma LateInquiryShowsOldInfo() returns (es: seq<Event>)
    ensures Legal(es) && OnlyInquiriesLate(es)
    ensures Run(es).info == Some("a") && Conn(Run(es)) == Some("b")
  {
    es := [];
    es := LateSnoc(es, Session(true, false, {"a", "b"}));
    es := LateSnoc(es, Activate(Some("a")));
    es := LateSnoc(es, Stopped(0));
    es := LateSnoc(es, InfoRead(0));
    es := LateSnoc(es, AskInfo);
    es := LateSnoc(es, Activate(Some("b")));
    es := LateSnoc(es, Stopped(2));
    es := LateSnoc(es, InfoRead(2));
    assert Run(es).info == Some("b") && Run(es).inquiries[1] == "a";
    es := LateSnoc(es, InfoAnswered(1));
  }
}
