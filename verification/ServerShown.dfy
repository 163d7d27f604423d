/**
 What the store does show: an answer for the organisation in use is held until the organisation is
 left, a switch ends with its own organisation and its info, and after leaving nothing of an
 organisation comes back before the next sign-in.
 */
module ServerShown {
  import opened Options
  import opened Server
  import opened ServerLaws

  /* ---------- answers ---------- */

  /** An answer for the present connection is held, and any other changes nothing that is shown. */
  lemma AnswerIsHeldExactlyWhen(s: State, f: nat)
    requires Enabled(s, Answered(f))
    ensures var t, org := Step(s, Answered(f)), s.flights[f].org;
            && t.held == (if Conn(s) == Some(org) then Some(org) else s.held)
            && t.orgId == s.orgId && t.info == s.info && t.status == s.status && t.user == s.user
            && t.flights.Keys == s.flights.Keys && t.flights[f].phase == Over
  {
  }

  /** The steps after which another organisation, or none, is in use. */
  predicate LeavesOrganisation(e: Event) {
    e.Stopped? || e.Ended? || e.SignedOut? || e.Disconnect?
  }

  predicate NoneLeavesSince(es: seq<Event>, i: nat) {
    forall l | i < l < |es| :: !LeavesOrganisation(es[l])
  }

  /** Event `i` answers a request for the organisation of the connection. */
  predicate AnswersInUse(es: seq<Event>, i: nat)
    requires i < |es|
  {
    && LegalAt(es, i) && es[i].Answered?
    && Conn(Run(es[..i])) == Some(Run(es[..i]).flights[es[i].flight].org)
  }

  lemma StaysHeld(s: State, e: Event)
    requires Enabled(s, e) && !LeavesOrganisation(e) && s.held.Some? && s.held == s.orgId
    ensures Step(s, e).held == s.held && Step(s, e).orgId == s.orgId
  {
  }

  /** What was answered for the organisation in use is held as long as that organisation is not left. */
  lemma {:induction false} AnswerStaysHeld(es: seq<Event>, i: nat)
    requires Legal(es) && i < |es| && AnswersInUse(es, i) && NoneLeavesSince(es, i)
    ensures Run(es).held == Run(es).orgId == Some(Run(es[..i]).flights[es[i].flight].org)
  {
    var k := |es| - 1;
    if i == k {
      assert es[..i] == es[..k];
    } else {
      assert es[..k][..i] == es[..i];
      assert AnswersInUse(es[..k], i);
      AnswerStaysHeld(es[..k], i);
      StaysHeld(Run(es[..k]), es[k]);
    }
  }

  /* ---------- a switch ---------- */

  /** Event `i` of the run enters an organisation of the person's, for the given switch. */
  predicate Enters(es: seq<Event>, i: nat, a: nat, org: string)
    requires i < |es|
  {
    && LegalAt(es, i) && es[i] == Stopped(a) && Run(es[..i]).activations[a] == Stopping(Some(org))
    && org in Run(es[..i]).orgs
  }

  /** A switch enters an organisation of the person's, or ends connected without one; nothing old is held either way. */
  lemma EnteringClears(s: State, a: nat)
    requires Enabled(s, Stopped(a))
    ensures var t, wanted := Step(s, Stopped(a)), s.activations[a].wanted;
            && t.held.None? && t.info.None?
            && if wanted.Some? && wanted.value in s.orgs then t.orgId == wanted && t.status == s.status
               else t.orgId.None? && t.status == Connected && a !in t.activations
  {
  }

  lemma {:induction false} EnteredStays(es: seq<Event>, i: nat, a: nat, org: string)
    requires Legal(es) && i < |es| && Enters(es, i, a, org) && NoneLeavesSince(es, i)
    ensures Run(es).orgId == Some(org)
  {
    var k := |es| - 1;
    if i < k {
      assert es[..k][..i] == es[..i];
      assert Enters(es[..k], i, a, org);
      EnteredStays(es[..k], i, a, org);
    }
  }

  /** From event `j` on nothing writes another organisation's info, and no sign-in screen moves the status. */
  predicate CalmSince(es: seq<Event>, j: nat) {
    forall l | j < l < |es| :: LegalAt(es, l) && !es[l].Moved? && !LeavesOldInfo(Run(es[..l]), es[l])
  }

  lemma CalmStep(s: State, e: Event, org: string)
    requires Enabled(s, e) && !LeavesOrganisation(e) && !e.Moved? && !LeavesOldInfo(s, e)
    requires ShowsOrganisation(s, org)
    ensures ShowsOrganisation(Step(s, e), org)
  {
  }

  predicate ShowsOrganisation(s: State, org: string) {
    s.orgId == Some(org) && s.info == Some(org) && s.status == Connected
  }

  lemma ReadShows(s: State, a: nat, org: string)
    requires Enabled(s, InfoRead(a)) && s.activations[a] == ForInfo(org) && s.orgId == Some(org)
    ensures ShowsOrganisation(Step(s, InfoRead(a)), org)
  {
  }

  /** When its info is read, a switch that entered its organisation shows it, if nothing left it meanwhile. */
  lemma ReadAfterEntering(es: seq<Event>, i: nat, a: nat, org: string)
    requires Legal(es) && i < |es| && Enters(es, i, a, org) && NoneLeavesSince(es, i)
    requires Enabled(Run(es), InfoRead(a)) && Run(es).activations[a] == ForInfo(org)
    ensures ShowsOrganisation(Step(Run(es), InfoRead(a)), org)
  {
    EnteredStays(es, i, a, org);
    ReadShows(Run(es), a, org);
  }

  lemma {:induction false} ShownWhileCalm(es: seq<Event>, j: nat, org: string)
    requires Legal(es) && j < |es| && Legal(es[..j + 1]) && ShowsOrganisation(Run(es[..j + 1]), org)
    requires NoneLeavesSince(es, j) && CalmSince(es, j)
    ensures ShowsOrganisation(Run(es), org)
  {
    var k := |es| - 1;
    if j < k {
      assert es[..k][..j + 1] == es[..j + 1];
      CalmBefore(es, j);
      ShownWhileCalm(es[..k], j, org);
      CalmStep(Run(es[..k]), es[k], org);
    } else {
      assert es[..j + 1] == es;
    }
  }

  /**
   A switch that entered its organisation at event `i` and read its info at event `j`, with nothing
   leaving the organisation meanwhile, is connected to it and shows its info.
   */
  lemma SwitchShowsItsOrganisation(es: seq<Event>, i: nat, j: nat, a: nat, org: string)
    requires Legal(es) && i < j < |es| && Enters(es, i, a, org) && NoneLeavesSince(es, i)
    requires LegalAt(es, j) && es[j] == InfoRead(a) && Run(es[..j]).activations[a] == ForInfo(org)
    requires CalmSince(es, j)
    ensures ShowsOrganisation(Run(es), org)
  {
    assert es[..j][..i] == es[..i] && es[..j + 1][..j] == es[..j];
    assert Enters(es[..j], i, a, org);
    ReadAfterEntering(es[..j], i, a, org);
    assert Run(es[..j + 1]) == Step(Run(es[..j]), es[j]);
    ShownWhileCalm(es, j, org);
  }

  lemma CalmBefore(es: seq<Event>, j: nat)
    requires es != [] && CalmSince(es, j)
    ensures CalmSince(es[..|es| - 1], j)
  {
    var k := |es| - 1;
    forall l | j < l < k
      ensures LegalAt(es[..k], l) && !es[..k][l].Moved? && !LeavesOldInfo(Run(es[..k][..l]), es[..k][l])
    {
      assert es[..k][..l] == es[..l] && LegalAt(es, l);
    }
  }

  /* ---------- leaving ---------- */

  /** Nobody is signed in, and nothing of an organisation but perhaps its info is left. */
  predicate IsSignedOut(s: State) {
    !s.user && s.orgs == {} && s.orgId.None? && s.held.None?
  }

  predicate SignsOut(e: Event) {
    e.Ended? || e.SignedOut? || e.Disconnect?
  }

  lemma LeavingSignsOut(s: State, e: Event)
    requires Enabled(s, e) && SignsOut(e)
    ensures IsSignedOut(Step(s, e))
    ensures Step(s, e).status == if e.Disconnect? then Disconnected else SignIn
    ensures !e.Ended? ==> Step(s, e).info.None?
  {
  }

  lemma SignedOutStays(s: State, e: Event)
    requires Enabled(s, e) && IsSignedOut(s) && !e.Session?
    ensures IsSignedOut(Step(s, e)) && !BeginsFlight(s, e)
  {
  }

  /** After leaving, whatever answers and switches come late, nobody is signed in before a new sign-in. */
  lemma {:induction false} SignedOutUntilSignIn(es: seq<Event>, i: nat)
    requires Legal(es) && i < |es| && SignsOut(es[i]) && LegalAt(es, i)
    requires forall l | i < l < |es| :: !es[l].Session?
    ensures IsSignedOut(Run(es))
  {
    var k := |es| - 1;
    if i < k {
      assert es[..k][..i] == es[..i] && LegalAt(es[..k], i);
      SignedOutUntilSignIn(es[..k], i);
      SignedOutStays(Run(es[..k]), es[k]);
    } else {
      LeavingSignsOut(Run(es[..k]), es[k]);
    }
  }

  /* ---------- requests ---------- */

  /** A refresh, by itself or at the end of a switch, has a request for the connection in flight afterwards. */
  lemma RefreshAsks(s: State, e: Event)
    requires Enabled(s, e) && (e.Refresh? || e.Started?) && SlotIsLive(s)
    requires s.user && Conn(s).Some?
    ensures var t := Step(s, e);
            t.slot.Some? && t.slot.value in t.flights && Some(t.flights[t.slot.value].org) == Conn(s)
  {
  }

  /** Somebody is signed in who need not change the password first, and the organisation is in use. */
  predicate MayAskFor(s: State, org: string) {
    s.status == Connected && !s.mustChange && s.orgId == Some(org) && org != ""
  }

  /** Requests are made only for the organisation in use, by a connection that is complete. */
  lemma RequestsNeedAConnection(s: State, e: Event)
    requires Enabled(s, e)
    ensures forall f | f in Step(s, e).flights && f !in s.flights ::
              s.user && MayAskFor(s, Step(s, e).flights[f].org) && Step(s, e).flights[f].phase == Out
    ensures forall q | q in Step(s, e).inquiries && q !in s.inquiries :: MayAskFor(s, Step(s, e).inquiries[q])
  {
  }
}
