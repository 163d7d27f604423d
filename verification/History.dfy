/**
 "The estate as it was": a recorded moment is asked for, answers come back in any order, and the
 person may return to live at any time. Everything between two awaits of the source is one step.
 A ticket counter lets only the newest request write.
 */
module History {
  import opened Options

  /** `pending` holds the tickets of the requests that are in flight: the environment may answer any of them. */
  datatype State = State(ticket: nat, at: Option<string>, loading: bool, failed: bool, pending: set<nat>)

  datatype Event = Ask | Answer(ticket: nat, moment: string) | Fail(ticket: nat) | Live

  const INITIAL := State(0, None, false, false, {})

  function Step(s: State, e: Event): State {
    match e
    case Ask => s.(ticket := s.ticket + 1, loading := true, failed := false, pending := s.pending + {s.ticket + 1})
    case Answer(mine, moment) =>
      var left := s.(pending := s.pending - {mine});
      if mine != s.ticket then left else left.(at := Some(moment), loading := false)
    case Fail(mine) =>
      var left := s.(pending := s.pending - {mine});
      if mine != s.ticket then left else left.(loading := false, failed := true)
    case Live => s.(ticket := s.ticket + 1, at := None, loading := false, failed := false)
  }

  predicate Enabled(s: State, e: Event) {
    match e
    case Answer(mine, _) => mine in s.pending
    case Fail(mine) => mine in s.pending
    case _ => true
  }

  /** The store: the module counter and the fields it sets. */
  class HistoryView {
    var ticket: nat
    var at: Option<string>
    var loading: bool
    var failed: bool
    ghost var pending: set<nat>

    ghost function Abs(): State
      reads this
    {
      State(ticket, at, loading, failed, pending)
    }

    constructor ()
      ensures Abs() == INITIAL
    {
      ticket, at, loading, failed, pending := 0, None, false, false, {};
    }

    /** `view` up to its await. */
    method View() returns (mine: nat)
      modifies this
      ensures Abs() == Step(old(Abs()), Ask)
      ensures mine == ticket && mine in pending
    {
      ticket := ticket + 1;
      mine := ticket;
      loading, failed := true, false;
      pending := pending + {mine};
    }

    /** `view` once its snapshot arrived. */
    method Arrived(mine: nat, moment: string)
      requires Enabled(Abs(), Answer(mine, moment))
      modifies this
      ensures Abs() == Step(old(Abs()), Answer(mine, moment))
    {
      pending := pending - {mine};
      if mine != ticket {
        return;
      }
      at, loading := Some(moment), false;
    }

    /** `view` once its request failed. */
    method Failed(mine: nat)
      requires Enabled(Abs(), Fail(mine))
      modifies this
      ensures Abs() == Step(old(Abs()), Fail(mine))
    {
      pending := pending - {mine};
      if mine != ticket {
        return;
      }
      loading, failed := false, true;
    }

    method BackToLive()
      modifies this
      ensures Abs() == Step(old(Abs()), Live)
    {
      ticket := ticket + 1;
      at, loading, failed := None, false, false;
    }
  }

  /* ---------- every run ---------- */

  function Run(es: seq<Event>): State {
    if es == [] then INITIAL else Step(Run(es[..|es| - 1]), es[|es| - 1])
  }

  predicate Legal(es: seq<Event>) {
    es == [] || (Legal(es[..|es| - 1]) && Enabled(Run(es[..|es| - 1]), es[|es| - 1]))
  }

  /** Event `i` asked with this ticket. */
  predicate AskedWith(es: seq<Event>, i: nat, ticket: nat) {
    i < |es| && es[i].Ask? && Run(es[..i + 1]).ticket == ticket
  }

  predicate NewestSince(es: seq<Event>, i: nat) {
    forall l | i < l < |es| :: !es[l].Ask? && !es[l].Live?
  }

  predicate NoLiveSince(es: seq<Event>, i: nat) {
    forall l | i < l < |es| :: !es[l].Live?
  }

  lemma NewestStays(es: seq<Event>, i: nat)
    requires es != [] && NewestSince(es[..|es| - 1], i) && !es[|es| - 1].Ask? && !es[|es| - 1].Live?
    ensures NewestSince(es, i) && NoLiveSince(es, i)
  {
    forall l | i < l < |es|
      ensures !es[l].Ask? && !es[l].Live?
    {
      if l < |es| - 1 {
        assert es[..|es| - 1][l] == es[l];
      }
    }
  }

  lemma NoLiveStays(es: seq<Event>, i: nat)
    requires es != [] && NoLiveSince(es[..|es| - 1], i) && !es[|es| - 1].Live?
    ensures NoLiveSince(es, i)
  {
    forall l | i < l < |es|
      ensures !es[l].Live?
    {
      if l < |es| - 1 {
        assert es[..|es| - 1][l] == es[l];
      }
    }
  }

  lemma PrefixAsked(es: seq<Event>, i: nat, ticket: nat)
    requires es != [] && i < |es| - 1
    ensures AskedWith(es, i, ticket) <==> AskedWith(es[..|es| - 1], i, ticket)
  {
    assert es[..|es| - 1][..i + 1] == es[..i + 1];
  }

  lemma {:induction false} TicketsBound(es: seq<Event>)
    requires Legal(es)
    ensures forall t | t in Run(es).pending :: t <= Run(es).ticket
  {
    if es != [] {
      TicketsBound(es[..|es| - 1]);
    }
  }

  /** Every request in flight was asked by some event, and the newest one by the last that took a ticket. */
  lemma {:induction false} PendingWasAsked(es: seq<Event>, t: nat) returns (i: nat)
    requires Legal(es) && t in Run(es).pending
    ensures AskedWith(es, i, t)
    ensures t == Run(es).ticket ==> NewestSince(es, i)
  {
    var k := |es| - 1;
    TicketsBound(es[..k]);
    if es[k].Ask? && t == Run(es).ticket {
      i := k;
      assert es[..k + 1] == es;
    } else {
      i := PendingWasAsked(es[..k], t);
      PrefixAsked(es, i, t);
      if t == Run(es).ticket {
        NewestStays(es, i);
      }
    }
  }

  /** `loading` holds exactly while the newest-ticket request is in flight. */
  lemma {:induction false} LoadingIsNewestPending(es: seq<Event>)
    requires Legal(es)
    ensures Run(es).loading <==> Run(es).ticket in Run(es).pending
  {
    if es != [] {
      TicketsBound(es[..|es| - 1]);
      LoadingIsNewestPending(es[..|es| - 1]);
    }
  }

  /** From event `j` on, every answer came too late for its own ticket. */
  predicate LaterAnswersIgnored(es: seq<Event>, j: nat) {
    forall l | j < l < |es| && es[l].Answer? :: es[l].ticket != Run(es[..l]).ticket
  }

  lemma IgnoredStays(es: seq<Event>, j: nat)
    requires es != [] && LaterAnswersIgnored(es[..|es| - 1], j)
    requires es[|es| - 1].Answer? ==> es[|es| - 1].ticket != Run(es[..|es| - 1]).ticket
    ensures LaterAnswersIgnored(es, j)
  {
    forall l | j < l < |es| && es[l].Answer?
      ensures es[l].ticket != Run(es[..l]).ticket
    {
      if l < |es| - 1 {
        assert es[..|es| - 1][l] == es[l] && es[..|es| - 1][..l] == es[..l];
      }
    }
  }

  /**
   Event `i` asked for the moment shown, event `j` answered it; there was no return to live since
   it was asked, and every later answer came too late for its own ticket and was ignored.
   */
  predicate Explains(es: seq<Event>, i: nat, j: nat, moment: string) {
    && i < j < |es| && es[i].Ask?
    && es[j] == Answer(Run(es[..i + 1]).ticket, moment)
    && NoLiveSince(es, i)
    && LaterAnswersIgnored(es, j)
  }

  /** The recorded moment shown was asked for after the last return to live, and nothing older overwrote it. */
  lemma {:induction false} ShownWasAskedSinceLive(es: seq<Event>) returns (i: nat, j: nat)
    requires Legal(es) && Run(es).at.Some?
    ensures Explains(es, i, j, Run(es).at.value)
  {
    var k := |es| - 1;
    var before, e := Run(es[..k]), es[k];
    if e.Answer? && e.ticket == before.ticket {
      i := PendingWasAsked(es[..k], e.ticket);
      j := k;
      PrefixAsked(es, i, e.ticket);
      NewestStays(es, i);
    } else {
      i, j := ShownWasAskedSinceLive(es[..k]);
      assert es[..k][..i + 1] == es[..i + 1];
      IgnoredStays(es, j);
      NoLiveStays(es, i);
    }
  }

  /* ---------- what does get shown ---------- */

  lemma {:induction false} NewestTicket(es: seq<Event>, i: nat, ticket: nat)
    requires AskedWith(es, i, ticket) && NewestSince(es, i)
    ensures Run(es).ticket == ticket
  {
    var k := |es| - 1;
    if i < k {
      PrefixAsked(es, i, ticket);
      assert NewestSince(es[..k], i) by {
        assert forall l | i < l < k :: es[..k][l] == es[l];
      }
      NewestTicket(es[..k], i, ticket);
    } else {
      assert es[..i + 1] == es;
    }
  }

  lemma {:induction false} OverStaysOver(es: seq<Event>, i: nat, j: nat, ticket: nat)
    requires Legal(es) && AskedWith(es, i, ticket) && i < j < |es| && NewestSince(es, i)
    requires (es[j].Answer? || es[j].Fail?) && es[j].ticket == ticket
    ensures ticket !in Run(es).pending && Run(es).ticket == ticket
    ensures if es[j].Answer? then Run(es).at == Some(es[j].moment) && !Run(es).loading && !Run(es).failed
            else Run(es).at == Run(es[..j]).at && !Run(es).loading && Run(es).failed
  {
    var k := |es| - 1;
    var before := es[..k];
    PrefixAsked(es, i, ticket);
    assert NewestSince(before, i) by {
      assert forall l | i < l < k :: before[l] == es[l];
    }
    NewestTicket(before, i, ticket);
    if j < k {
      assert before[..j] == es[..j];
      OverStaysOver(before, i, j, ticket);
    } else {
      assert es[..j] == before;
      NotFailedYet(before, i, ticket);
    }
  }

  /** While the newest request is in flight nothing has failed since it was made. */
  lemma {:induction false} NotFailedYet(es: seq<Event>, i: nat, ticket: nat)
    requires Legal(es) && AskedWith(es, i, ticket) && NewestSince(es, i) && ticket in Run(es).pending
    ensures !Run(es).failed
  {
    var k := |es| - 1;
    if i < k {
      PrefixAsked(es, i, ticket);
      assert NewestSince(es[..k], i) by {
        assert forall l | i < l < k :: es[..k][l] == es[l];
      }
      NewestTicket(es[..k], i, ticket);
      NotFailedYet(es[..k], i, ticket);
    }
  }

  /**
   The answer to the newest request is shown: the moment it brought stays, nothing loads and nothing
   failed, until something else is asked for or the person returns to live.
   */
  lemma NewestAnswerIsShown(es: seq<Event>, i: nat, j: nat, ticket: nat, moment: string)
    requires Legal(es) && AskedWith(es, i, ticket) && i < j < |es| && NewestSince(es, i)
    requires es[j] == Answer(ticket, moment)
    ensures Run(es).at == Some(moment) && !Run(es).loading && !Run(es).failed
  {
    OverStaysOver(es, i, j, ticket);
  }

  /** Its failure is shown likewise, beside the moment that was shown before. */
  lemma NewestFailureIsShown(es: seq<Event>, i: nat, j: nat, ticket: nat)
    requires Legal(es) && AskedWith(es, i, ticket) && i < j < |es| && NewestSince(es, i)
    requires es[j] == Fail(ticket)
    ensures Run(es).at == Run(es[..j]).at && !Run(es).loading && Run(es).failed
  {
    OverStaysOver(es, i, j, ticket);
  }

  /** After a return to live nothing recorded is shown until something is asked for again. */
  lemma {:induction false} LiveIsLive(es: seq<Event>, i: nat)
    requires Legal(es) && i < |es| && es[i].Live? && forall l | i < l < |es| :: !es[l].Ask?
    ensures Run(es).at.None? && !Run(es).loading && !Run(es).failed && Run(es).ticket !in Run(es).pending
  {
    var k := |es| - 1;
    if i < k {
      assert es[..k][i] == es[i] && forall l | i < l < k :: es[..k][l] == es[l];
      LiveIsLive(es[..k], i);
    }
    TicketsBound(es[..k]);
  }
}
