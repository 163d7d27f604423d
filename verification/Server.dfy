/**
 The connection to a server: which organisation is in use, the state fetched for it, and the one
 slot that shares a request in flight. Everything between two awaits is one step; the environment
 answers requests, resumes waiting calls and moves the sign-in along in any order.

 The address of the server is fixed, so a connection is known by its organisation.
 */
module Server {
  import opened Options

  datatype Status = Disconnected | Connecting | SignIn | TwoFactor | Connected | Error

  /** A request for the state of an organisation: out, ending the session after a 401, or done but for its `finally`. */
  datatype Phase = Out | Ending | Over

  datatype Flight = Flight(org: string, phase: Phase)

  /** An activation waits for the workspace to stop, then for the organisation's info, then for it to start. */
  datatype Waiting = Stopping(wanted: Option<string>) | ForInfo(org: string) | ForStart(org: string)

  /** `held` is the organisation the held state was fetched for, `info` the one the held info describes. */
  datatype State = State(
    status: Status,
    user: bool,
    mustChange: bool,
    orgs: set<string>,
    orgId: Option<string>,
    held: Option<string>,
    info: Option<string>,
    slot: Option<nat>,
    slotOrg: Option<string>,
    next: nat,
    flights: map<nat, Flight>,
    activations: map<nat, Waiting>,
    inquiries: map<nat, string>,
    leaving: nat)

  datatype Event =
    | Session(user: bool, mustChange: bool, orgs: set<string>)  // signed in, or the list of organisations read again
    | Moved(status: Status)                                     // the sign-in screens move the status along
    | Activate(wanted: Option<string>)
    | Stopped(activation: nat)
    | InfoRead(activation: nat)
    | InfoFailed(activation: nat)
    | Started(activation: nat)
    | AskInfo                                                   // a page asks for the organisation's info again
    | InfoAnswered(inquiry: nat)
    | InfoRefused(inquiry: nat)
    | Refresh
    | Answered(flight: nat)
    | Unauthorised(flight: nat)
    | Ended(flight: nat)
    | Broken(flight: nat)                                       // any other failure
    | Settle(flight: nat)                                       // the `finally` of a request
    | SignOut
    | SignedOut
    | Disconnect

  const INITIAL := State(Disconnected, false, false, {}, None, None, None, None, None, 0, map[], map[], map[], 0)

  /** The organisation requests are made for, when there is a connection at all. */
  function Conn(s: State): Option<string> {
    if s.status == Connected && !s.mustChange && s.orgId.Some? && s.orgId.value != "" then s.orgId else None
  }

  predicate Shares(s: State) {
    s.slot.Some? && s.slotOrg == Conn(s)
  }

  function BeginRefresh(s: State): State {
    if Conn(s).None? || !s.user || Shares(s) then s
    else s.(slot := Some(s.next), slotOrg := Conn(s), next := s.next + 1,
            flights := s.flights[s.next := Flight(Conn(s).value, Out)])
  }

  function Mark(s: State, flight: nat, phase: Phase): State
    requires flight in s.flights
  {
    s.(flights := s.flights[flight := s.flights[flight].(phase := phase)])
  }

  /** Nobody is signed in any more, and no organisation is in use; the info is another matter. */
  function Left(s: State, status: Status): State {
    s.(status := status, user := false, orgs := {}, orgId := None, held := None)
  }

  predicate Enabled(s: State, e: Event) {
    match e
    case Stopped(a) => a in s.activations && s.activations[a].Stopping?
    case InfoRead(a) => a in s.activations && s.activations[a].ForInfo?
    case InfoFailed(a) => a in s.activations && s.activations[a].ForInfo?
    case Started(a) => a in s.activations && s.activations[a].ForStart?
    case InfoAnswered(q) => q in s.inquiries
    case InfoRefused(q) => q in s.inquiries
    case Answered(f) => f in s.flights && s.flights[f].phase == Out
    case Unauthorised(f) => f in s.flights && s.flights[f].phase == Out
    case Broken(f) => f in s.flights && s.flights[f].phase == Out
    case Ended(f) => f in s.flights && s.flights[f].phase == Ending
    case Settle(f) => f in s.flights && s.flights[f].phase == Over
    case SignedOut => s.leaving > 0
    case _ => true
  }

  function Enter(s: State, a: nat, wanted: Option<string>): State {
    if wanted.Some? && wanted.value in s.orgs then
      s.(orgId := wanted, held := None, info := None, activations := s.activations[a := ForInfo(wanted.value)])
    else
      s.(orgId := None, held := None, info := None, status := Connected, activations := s.activations - {a})
  }

  function Step(s: State, e: Event): State
    requires Enabled(s, e)
  {
    match e
    case Session(user, mustChange, orgs) => s.(user := user, mustChange := mustChange, orgs := orgs)
    case Moved(status) => s.(status := status)
    case Activate(wanted) => s.(next := s.next + 1, activations := s.activations[s.next := Stopping(wanted)])
    case Stopped(a) => Enter(s, a, s.activations[a].wanted)
    case InfoRead(a) => s.(info := Some(s.activations[a].org), status := Connected,
                           activations := s.activations[a := ForStart(s.activations[a].org)])
    case InfoFailed(a) => s.(activations := s.activations - {a})
    case Started(a) => BeginRefresh(s).(activations := s.activations - {a})
    case AskInfo =>
      if Conn(s).None? then s
      else s.(next := s.next + 1, inquiries := s.inquiries[s.next := Conn(s).value])
    case InfoAnswered(q) => s.(info := Some(s.inquiries[q]), inquiries := s.inquiries - {q})
    case InfoRefused(q) => s.(inquiries := s.inquiries - {q})
    case Refresh => BeginRefresh(s)
    case Answered(f) =>
      var over := Mark(s, f, Over);
      if Conn(s) != Some(s.flights[f].org) then over else over.(held := Conn(s))
    case Unauthorised(f) => Mark(s, f, Ending)
    case Ended(f) => Left(Mark(s, f, Over), SignIn)
    case Broken(f) => Mark(s, f, Over)
    case Settle(f) =>
      var gone := s.(flights := s.flights - {f});
      if s.slot == Some(f) then gone.(slot := None, slotOrg := None) else gone
    case SignOut => s.(leaving := s.leaving + 1)
    case SignedOut => Left(s, SignIn).(info := None, leaving := s.leaving - 1)
    case Disconnect => Left(s, Disconnected).(info := None)
  }

  /** What the store shows: the state that every `set` replaces in part. */
  datatype Shown = Shown(
    status: Status,
    user: bool,
    mustChange: bool,
    orgs: set<string>,
    orgId: Option<string>,
    held: Option<string>,
    info: Option<string>)

  /** The calls that have not finished. */
  datatype Calls = Calls(
    flights: map<nat, Flight>,
    activations: map<nat, Waiting>,
    inquiries: map<nat, string>,
    leaving: nat)

  /** The store: what it shows, the slot, and (ghost) the calls that have not finished. */
  class ServerStore {
    var shown: Shown
    var slot: Option<nat>
    var slotOrg: Option<string>
    var next: nat
    ghost var calls: Calls

    ghost function Abs(): State
      reads this
    {
      State(shown.status, shown.user, shown.mustChange, shown.orgs, shown.orgId, shown.held, shown.info,
            slot, slotOrg, next, calls.flights, calls.activations, calls.inquiries, calls.leaving)
    }

    constructor ()
      ensures Abs() == INITIAL
    {
      shown := Shown(Disconnected, false, false, {}, None, None, None);
      slot, slotOrg, next := None, None, 0;
      calls := Calls(map[], map[], map[], 0);
    }

    function Connection(): (c: Option<string>)
      reads this
      ensures c == Conn(Abs())
    {
      if shown.status == Connected && !shown.mustChange && shown.orgId.Some? && shown.orgId.value != ""
      then shown.orgId else None
    }

    /** The request a caller gets: the one in flight for its own connection, or a new one. */
    method RefreshState() returns (handed: Option<nat>)
      modifies this
      ensures Abs() == Step(old(Abs()), Refresh)
      ensures handed.Some? <==> Conn(old(Abs())).Some? && old(shown.user)
      ensures handed.Some? ==> handed == slot && slotOrg == Connection()
    {
      var c := Connection();
      if c.None? || !shown.user {
        return None;
      }
      if slot.Some? && slotOrg == c {
        return slot;
      }
      slotOrg := c;
      calls := calls.(flights := calls.flights[next := Flight(c.value, Out)]);
      slot := Some(next);
      next := next + 1;
      handed := slot;
    }

    /** A request once its answer arrived; an answer for a connection that is no longer the current one is dropped. */
    method StateArrived(mine: nat, org: string)
      requires Enabled(Abs(), Answered(mine)) && calls.flights[mine].org == org
      modifies this
      ensures Abs() == Step(old(Abs()), Answered(mine))
      ensures shown == if old(Connection()) == Some(org) then old(shown).(held := Some(org)) else old(shown)
    {
      calls := calls.(flights := calls.flights[mine := Flight(org, Over)]);
      var now := Connection();
      if now != Some(org) {
        return;
      }
      shown := shown.(held := now);
    }

    method RequestUnauthorised(mine: nat)
      requires Enabled(Abs(), Unauthorised(mine))
      modifies this
      ensures Abs() == Step(old(Abs()), Unauthorised(mine))
    {
      calls := calls.(flights := calls.flights[mine := calls.flights[mine].(phase := Ending)]);
    }

    method SessionEnded(mine: nat)
      requires Enabled(Abs(), Ended(mine))
      modifies this
      ensures Abs() == Step(old(Abs()), Ended(mine))
    {
      calls := calls.(flights := calls.flights[mine := calls.flights[mine].(phase := Over)]);
      shown := shown.(status := SignIn, user := false, orgs := {}, orgId := None, held := None);
    }

    /** Only the newest request clears the slot. */
    method Finally(mine: nat)
      requires Enabled(Abs(), Settle(mine))
      modifies this
      ensures Abs() == Step(old(Abs()), Settle(mine))
    {
      calls := calls.(flights := calls.flights - {mine});
      if slot == Some(mine) {
        slot, slotOrg := None, None;
      }
    }

    method BeginActivate(wanted: Option<string>) returns (mine: nat)
      modifies this
      ensures Abs() == Step(old(Abs()), Activate(wanted))
    {
      mine := next;
      next := next + 1;
      calls := calls.(activations := calls.activations[mine := Stopping(wanted)]);
    }

    method EnterOrganisation(mine: nat, wanted: Option<string>)
      requires Enabled(Abs(), Stopped(mine)) && calls.activations[mine].wanted == wanted
      modifies this
      ensures Abs() == Step(old(Abs()), Stopped(mine))
    {
      if wanted.None? || wanted.value !in shown.orgs {
        calls := calls.(activations := calls.activations - {mine});
        shown := shown.(orgId := None, held := None, info := None, status := Connected);
        return;
      }
      calls := calls.(activations := calls.activations[mine := ForInfo(wanted.value)]);
      shown := shown.(orgId := wanted, held := None, info := None);
    }

    method InfoArrived(mine: nat, org: string)
      requires Enabled(Abs(), InfoRead(mine)) && calls.activations[mine].org == org
      modifies this
      ensures Abs() == Step(old(Abs()), InfoRead(mine))
    {
      calls := calls.(activations := calls.activations[mine := ForStart(org)]);
      shown := shown.(info := Some(org), status := Connected);
    }

    /** A page asks for the organisation's info again; the copy already held stays when that fails. */
    method ReloadInfo() returns (mine: Option<nat>)
      modifies this
      ensures Abs() == Step(old(Abs()), AskInfo)
      ensures mine.Some? <==> Conn(old(Abs())).Some?
      ensures mine.Some? ==> mine.value in calls.inquiries && Some(calls.inquiries[mine.value]) == Conn(Abs())
    {
      var c := Connection();
      if c.None? {
        return None;
      }
      calls := calls.(inquiries := calls.inquiries[next := c.value]);
      mine := Some(next);
      next := next + 1;
    }

    /** The answer is written without asking whether that organisation is still in use. */
    method InfoReloaded(mine: nat, org: string)
      requires Enabled(Abs(), InfoAnswered(mine)) && calls.inquiries[mine] == org
      modifies this
      ensures Abs() == Step(old(Abs()), InfoAnswered(mine))
    {
      calls := calls.(inquiries := calls.inquiries - {mine});
      shown := shown.(info := Some(org));
    }

    method WorkspaceStarted(mine: nat)
      requires Enabled(Abs(), Started(mine))
      modifies this
      ensures Abs() == Step(old(Abs()), Started(mine))
    {
      var handed := RefreshState();
      calls := calls.(activations := calls.activations - {mine});
    }

    method FinishSignOut()
      requires Enabled(Abs(), SignedOut)
      modifies this
      ensures Abs() == Step(old(Abs()), SignedOut)
    {
      calls := calls.(leaving := calls.leaving - 1);
      shown := shown.(status := SignIn, user := false, orgs := {}, orgId := None, held := None, info := None);
    }

    method DisconnectNow()
      modifies this
      ensures Abs() == Step(old(Abs()), Event.Disconnect)
    {
      shown := shown.(status := Disconnected, user := false, orgs := {}, orgId := None, held := None, info := None);
    }
  }
}
