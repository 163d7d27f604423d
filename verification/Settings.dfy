/**
 The server's settings: loaded, saved with a revision, reloaded after a conflict, and cleared on
 every organisation switch. An epoch keeps the answer of a request begun before the last clear out.
 */
module Settings {
  import opened Options

  /** What an async call is waiting for, and the epoch it began in. */
  datatype Call =
    | Loading(epoch: nat)
    | Saving(epoch: nat)
    | Reloading(epoch: nat, saveEpoch: nat)  // the load a refused save waits for
    | Returning(saveEpoch: nat)              // that load is done; the save has yet to say why it failed

  /** Calls are numbered; `pending` holds those that have not finished. `settings` is None for the defaults. */
  datatype State = State(epoch: nat, settings: Option<string>, loaded: bool, error: Option<string>, next: nat,
                         pending: map<nat, Call>)

  datatype Event =
    | Load
    | Save
    | Clear
    | Answered(call: nat, doc: string)
    | Refused(call: nat, current: Option<string>)  // 409, with the current document when it came through
    | Failed(call: nat, message: string)
    | Resumed(call: nat)

  const CONFLICT := "Someone else changed the settings; reloaded - try again."

  const INITIAL := State(0, None, false, None, 0, map[])

  function Begin(s: State, c: Call): State {
    s.(next := s.next + 1, pending := s.pending[s.next := c])
  }

  function Done(s: State, call: nat): State {
    s.(pending := s.pending - {call})
  }

  function EpochOf(c: Call): nat {
    if c.Returning? then c.saveEpoch else c.epoch
  }

  function Adopt(s: State, doc: string, error: Option<string>): State {
    s.(settings := Some(doc), loaded := true, error := error)
  }

  predicate Enabled(s: State, e: Event) {
    match e
    case Answered(call, _) => call in s.pending && !s.pending[call].Returning?
    case Failed(call, _) => call in s.pending && !s.pending[call].Returning?
    case Refused(call, _) => call in s.pending && s.pending[call].Saving?
    case Resumed(call) => call in s.pending && s.pending[call].Returning?
    case _ => true
  }

  /** What is left waiting once a call's request is over: only a refused save still has something to do. */
  function AfterRequest(s: State, call: nat): State
    requires call in s.pending
  {
    var c := s.pending[call];
    if c.Reloading? then s.(pending := s.pending[call := Returning(c.saveEpoch)]) else Done(s, call)
  }

  function Step(s: State, e: Event): State
    requires Enabled(s, e)
  {
    match e
    case Load => Begin(s, Loading(s.epoch))
    case Save => Begin(s, Saving(s.epoch))
    case Clear => s.(epoch := s.epoch + 1, settings := None, loaded := false, error := None)
    case Answered(call, doc) =>
      var after := AfterRequest(s, call);
      if EpochOf(s.pending[call]) != s.epoch then after else Adopt(after, doc, None)
    case Failed(call, message) =>
      var after := AfterRequest(s, call);
      if EpochOf(s.pending[call]) != s.epoch then after else after.(error := Some(message))
    case Refused(call, current) =>
      if EpochOf(s.pending[call]) != s.epoch then Done(s, call)
      else if current.Some? then Adopt(Done(s, call), current.value, Some(CONFLICT))
      else Begin(Done(s, call), Reloading(s.epoch, EpochOf(s.pending[call])))
    case Resumed(call) =>
      if EpochOf(s.pending[call]) != s.epoch then Done(s, call) else Done(s, call).(error := Some(CONFLICT))
  }

  /** The store: the module counter and the fields it sets. */
  class SettingsStore {
    var epoch: nat
    var settings: Option<string>
    var loaded: bool
    var error: Option<string>
    var next: nat
    ghost var pending: map<nat, Call>

    ghost function Abs(): State
      reads this
    {
      State(epoch, settings, loaded, error, next, pending)
    }

    constructor ()
      ensures Abs() == INITIAL
    {
      epoch, settings, loaded, error, next, pending := 0, None, false, None, 0, map[];
    }

    method BeginLoad() returns (call: nat, myEpoch: nat)
      modifies this
      ensures Abs() == Step(old(Abs()), Load)
      ensures call == old(next) && pending[call] == Loading(myEpoch)
    {
      call, myEpoch := next, epoch;
      next := next + 1;
      pending := pending[call := Loading(myEpoch)];
    }

    method BeginSave() returns (call: nat, myEpoch: nat)
      modifies this
      ensures Abs() == Step(old(Abs()), Save)
      ensures call == old(next) && pending[call] == Saving(myEpoch)
    {
      call, myEpoch := next, epoch;
      next := next + 1;
      pending := pending[call := Saving(myEpoch)];
    }

    method ClearAll()
      modifies this
      ensures Abs() == Step(old(Abs()), Clear)
    {
      epoch := epoch + 1;
      settings, loaded, error := None, false, None;
    }

    /** A load or save once its document arrived. */
    method Arrived(call: nat, myEpoch: nat, doc: string)
      requires Enabled(Abs(), Answered(call, doc)) && EpochOf(pending[call]) == myEpoch
      modifies this
      ensures Abs() == Step(old(Abs()), Answered(call, doc))
    {
      pending := AfterRequest(Abs(), call).pending;
      if myEpoch != epoch {
        return;
      }
      settings, loaded, error := Some(doc), true, None;
    }

    method RequestFailed(call: nat, myEpoch: nat, message: string)
      requires Enabled(Abs(), Failed(call, message)) && EpochOf(pending[call]) == myEpoch
      modifies this
      ensures Abs() == Step(old(Abs()), Failed(call, message))
    {
      pending := AfterRequest(Abs(), call).pending;
      if myEpoch != epoch {
        return;
      }
      error := Some(message);
    }

    /** A save the server refused: its document is adopted, or read again when it did not come through. */
    method SaveRefused(call: nat, myEpoch: nat, current: Option<string>)
      requires Enabled(Abs(), Refused(call, current)) && EpochOf(pending[call]) == myEpoch
      modifies this
      ensures Abs() == Step(old(Abs()), Refused(call, current))
    {
      pending := pending - {call};
      if myEpoch != epoch {
        return;
      }
      if current.Some? {
        settings, loaded, error := current, true, Some(CONFLICT);
      } else {
        pending := pending[next := Reloading(epoch, myEpoch)];
        next := next + 1;
      }
    }

    /** A refused save after the reload it waited for. */
    method SaveResumed(call: nat, myEpoch: nat)
      requires Enabled(Abs(), Resumed(call)) && EpochOf(pending[call]) == myEpoch
      modifies this
      ensures Abs() == Step(old(Abs()), Resumed(call))
    {
      pending := pending - {call};
      if myEpoch != epoch {
        return;
      }
      error := Some(CONFLICT);
    }
  }

  /* ---------- every run ---------- */

  predicate Legal(es: seq<Event>)
    decreases |es|, 0
  {
    es == [] || (Legal(es[..|es| - 1]) && Enabled(Run(es[..|es| - 1]), es[|es| - 1]))
  }

  function Run(es: seq<Event>): State
    requires Legal(es)
    decreases |es|, 1
  {
    if es == [] then INITIAL else Step(Run(es[..|es| - 1]), es[|es| - 1])
  }

  /** Event `i` begins the request of this call: a load, a save, or the reload of a refused save. */
  predicate Begins(es: seq<Event>, i: nat, call: nat)
    requires Legal(es)
  {
    && i < |es|
    && (es[i].Load? || es[i].Save? || (es[i].Refused? && es[i].current.None?))
    && Legal(es[..i]) && Run(es[..i]).next == call
  }

  predicate ClearedAfter(es: seq<Event>, i: nat) {
    exists l | i < l < |es| :: es[l].Clear?
  }

  lemma BeginsLater(es: seq<Event>, i: nat, call: nat)
    requires Legal(es) && es != [] && i < |es| - 1
    ensures Begins(es, i, call) <==> Begins(es[..|es| - 1], i, call)
  {
    assert es[..|es| - 1][..i] == es[..i];
  }

  lemma {:induction false} CallsAreBelow(es: seq<Event>)
    requires Legal(es)
    ensures forall c | c in Run(es).pending :: c < Run(es).next && EpochOf(Run(es).pending[c]) <= Run(es).epoch
    ensures forall c | c in Run(es).pending && Run(es).pending[c].Reloading? ::
              Run(es).pending[c].saveEpoch <= Run(es).epoch
  {
    if es != [] {
      CallsAreBelow(es[..|es| - 1]);
    }
  }

  /** The step begins this call: it is new, of the present epoch, and the step is a load, a save or a reload. */
  predicate IsNewCall(s: State, e: Event, call: nat)
    requires Enabled(s, e)
  {
    call == s.next && Step(s, e).next == s.next + 1
  }

  lemma WasPendingOrNew(s: State, e: Event, call: nat)
    requires Enabled(s, e) && forall c | c in s.pending :: c < s.next
    requires call in Step(s, e).pending && !Step(s, e).pending[call].Returning?
    ensures if IsNewCall(s, e, call) then e.Load? || e.Save? || (e.Refused? && e.current.None?)
            else call in s.pending && !s.pending[call].Returning? && Step(s, e).pending[call] == s.pending[call]
    ensures Step(s, e).epoch == if e.Clear? then s.epoch + 1 else s.epoch
  {
  }

  lemma NotClearedYet(es: seq<Event>, i: nat)
    requires es != [] && !ClearedAfter(es[..|es| - 1], i) && !es[|es| - 1].Clear?
    ensures !ClearedAfter(es, i)
  {
    forall l | i < l < |es|
      ensures !es[l].Clear?
    {
      assert l < |es| - 1 ==> es[..|es| - 1][l] == es[l];
    }
  }

  /** A pending request was begun by some event, and is of the current epoch only when nothing was cleared since. */
  lemma {:induction false} PendingWasBegun(es: seq<Event>, call: nat) returns (i: nat)
    requires Legal(es) && call in Run(es).pending && !Run(es).pending[call].Returning?
    ensures Begins(es, i, call)
    ensures EpochOf(Run(es).pending[call]) == Run(es).epoch ==> !ClearedAfter(es, i)
  {
    var k := |es| - 1;
    CallsAreBelow(es[..k]);
    WasPendingOrNew(Run(es[..k]), es[k], call);
    if IsNewCall(Run(es[..k]), es[k], call) {
      i := k;
    } else {
      i := PendingWasBegun(es[..k], call);
      BeginsLater(es, i, call);
      if EpochOf(Run(es).pending[call]) == Run(es).epoch {
        NotClearedYet(es, i);
      }
    }
  }

  /** Event `j` is the answer that a call begun by event `i` brought, with nothing cleared since `i`. */
  predicate Explains(es: seq<Event>, i: nat, j: nat, doc: string)
    requires Legal(es)
  {
    && i < j < |es|
    && (es[j].Answered? || es[j].Refused?)
    && Begins(es, i, es[j].call)
    && (if es[j].Answered? then es[j].doc == doc else es[j].current == Some(doc))
    && !ClearedAfter(es, i)
  }

  /** Settings marked loaded answer a request begun after the last clear, the conflict paths included. */
  lemma {:induction false} LoadedAnswersSinceClear(es: seq<Event>) returns (i: nat, j: nat)
    requires Legal(es) && Run(es).loaded
    ensures Run(es).settings.Some? && Explains(es, i, j, Run(es).settings.value)
  {
    var k := |es| - 1;
    var before, e := Run(es[..k]), es[k];
    if (e.Answered? || (e.Refused? && e.current.Some?)) && EpochOf(before.pending[e.call]) == before.epoch {
      i := PendingWasBegun(es[..k], e.call);
      j := k;
      BeginsLater(es, i, e.call);
    } else {
      i, j := LoadedAnswersSinceClear(es[..k]);
      BeginsLater(es, i, es[j].call);
    }
    forall l | i < l < |es|
      ensures !es[l].Clear?
    {
      if l < k {
        assert es[..k][l] == es[l];
      }
    }
  }

  /* ---------- what does get shown ---------- */

  predicate NotClearedSince(es: seq<Event>, i: nat) {
    forall l | i <= l < |es| :: !es[l].Clear?
  }

  /** Every reload was begun in its save's own epoch. */
  predicate ReloadsOfOwnEpoch(s: State) {
    forall c | c in s.pending && s.pending[c].Reloading? :: s.pending[c].saveEpoch == s.pending[c].epoch
  }

  lemma {:induction false} ReloadsAreOwn(es: seq<Event>)
    requires Legal(es)
    ensures ReloadsOfOwnEpoch(Run(es))
  {
    if es != [] {
      ReloadsAreOwn(es[..|es| - 1]);
    }
  }

  lemma PresentStays(s: State, e: Event, call: nat)
    requires Enabled(s, e) && !e.Clear? && ReloadsOfOwnEpoch(s)
    requires call in s.pending ==> EpochOf(s.pending[call]) == s.epoch
    ensures call in Step(s, e).pending ==> EpochOf(Step(s, e).pending[call]) == Step(s, e).epoch
  {
  }

  /** A call begun at event `i` or later, with nothing cleared since, is of the present epoch. */
  lemma {:induction false} BegunSinceIsPresent(es: seq<Event>, i: nat, call: nat)
    requires Legal(es) && i <= |es| && Legal(es[..i]) && NotClearedSince(es, i)
    requires Run(es[..i]).next <= call
    ensures call in Run(es).pending ==> EpochOf(Run(es).pending[call]) == Run(es).epoch
  {
    if i < |es| {
      var k := |es| - 1;
      assert es[..k][..i] == es[..i];
      assert forall l | i <= l < k :: es[..k][l] == es[l];
      BegunSinceIsPresent(es[..k], i, call);
      ReloadsAreOwn(es[..k]);
      PresentStays(Run(es[..k]), es[k], call);
    } else {
      assert es[..i] == es;
      CallsAreBelow(es);
    }
  }

  /** What the store shows. */
  datatype Shown = Shown(settings: Option<string>, loaded: bool, error: Option<string>)

  function ShownBy(s: State): Shown {
    Shown(s.settings, s.loaded, s.error)
  }

  predicate OnlyRequestsSince(es: seq<Event>, j: nat) {
    forall l | j < l < |es| :: es[l].Load? || es[l].Save?
  }

  lemma {:induction false} ShownStays(es: seq<Event>, j: nat)
    requires Legal(es) && j < |es| && Legal(es[..j + 1]) && OnlyRequestsSince(es, j)
    ensures ShownBy(Run(es)) == ShownBy(Run(es[..j + 1]))
  {
    var k := |es| - 1;
    if j < k {
      assert es[..k][..j + 1] == es[..j + 1];
      assert forall l | j < l < k :: es[..k][l] == es[l];
      ShownStays(es[..k], j);
    } else {
      assert es[..j + 1] == es;
    }
  }

  /** Event `j` is the reply to a call that event `i` or a later one began, with nothing cleared meanwhile. */
  predicate RepliesTo(es: seq<Event>, i: nat, j: nat, call: nat) {
    && i <= j < |es| && Legal(es[..i]) && Legal(es[..j]) && Legal(es[..j + 1])
    && Run(es[..i]).next <= call && NotClearedSince(es[..j], i)
    && match es[j]
       case Answered(c, _) => c == call
       case Refused(c, _) => c == call
       case Failed(c, _) => c == call
       case Resumed(c) => c == call
       case _ => false
  }

  /** What a reply leaves to be shown. */
  function ToldBy(e: Event, before: Shown): Shown {
    match e
    case Answered(_, doc) => Shown(Some(doc), true, None)
    case Refused(_, current) => if current.Some? then Shown(current, true, Some(CONFLICT)) else before
    case Failed(_, message) => before.(error := Some(message))
    case Resumed(_) => before.(error := Some(CONFLICT))
    case _ => before
  }

  /**
   A reply to a call begun since the last clear is shown until the next one: the document it
   brought, the message it failed with, or that someone else changed the settings.
   */
  lemma ReplyIsShown(es: seq<Event>, i: nat, j: nat, call: nat)
    requires Legal(es) && RepliesTo(es, i, j, call) && OnlyRequestsSince(es, j)
    ensures ShownBy(Run(es)) == ToldBy(es[j], ShownBy(Run(es[..j])))
  {
    ShownStays(es, j);
    assert es[..j + 1][..j] == es[..j];
    assert es[..j][..i] == es[..i];
    BegunSinceIsPresent(es[..j], i, call);
  }

  /** A refused save whose document did not come through reads it again, and then tells the conflict. */
  lemma RefusedSaveReadsAgain(es: seq<Event>, i: nat, j: nat, call: nat)
    requires Legal(es) && RepliesTo(es, i, j, call) && es[j] == Refused(call, None)
    ensures var reload := Run(es[..j]).next;
            && reload in Run(es[..j + 1]).pending && Run(es[..j + 1]).pending[reload].Reloading?
            && Begins(es, j, reload)
  {
    assert es[..j + 1][..j] == es[..j];
    assert es[..j][..i] == es[..i];
    BegunSinceIsPresent(es[..j], i, call);
  }

  lemma ReloadReturns(s: State, call: nat, doc: string)
    requires Enabled(s, Answered(call, doc)) && s.pending[call].Reloading?
    ensures Enabled(Step(s, Answered(call, doc)), Resumed(call))
    ensures forall message :: Enabled(Step(s, Failed(call, message)), Resumed(call))
  {
  }

  /** Once cleared nothing is shown, whatever is answered late, until something is asked for again. */
  lemma {:induction false} ClearedStaysClear(es: seq<Event>, i: nat)
    requires Legal(es) && i < |es| && es[i].Clear?
    requires forall l | i < l < |es| :: !es[l].Load? && !es[l].Save?
    ensures ShownBy(Run(es)) == Shown(None, false, None)
    ensures forall c | c in Run(es).pending :: EpochOf(Run(es).pending[c]) < Run(es).epoch
  {
    var k := |es| - 1;
    CallsAreBelow(es[..k]);
    ReloadsAreOwn(es[..k]);
    if i < k {
      assert es[..k][i] == es[i] && forall l | i < l < k :: es[..k][l] == es[l];
      ClearedStaysClear(es[..k], i);
    }
  }
}
