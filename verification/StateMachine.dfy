/** The abstract connector state machine: which event leads where, and the bounded history it keeps. */
module StateMachine {
  import opened Wrappers
  import opened Transactions

  datatype Status =
    Available | Preparing | Charging | SuspendedEV | SuspendedEVSE | Finishing | Reserved | Unavailable | Faulted

  datatype ErrorCode = NoError | SomeError(code: string)

  datatype Event =
    | CablePluggedIn
    | CableUnplugged
    | Authorized(idTag: string)
    | AuthorizationFailed
    | ChargingStarted
    | ChargingStoppedByEV
    | ChargingStoppedByEVSE
    | ChargingResumed
    | TransactionFinished
    | FaultOccurred(error: ErrorCode)
    | FaultCleared
    | MakeAvailable
    | MakeUnavailable
    | ReservationMade(reservedTag: string)
    | ReservationCancelled
    | Reset
    | RemoteStart(remoteTag: string)
    | RemoteStop
    | EmergencyStopped

  function NextState(state: Status, event: Event): Option<Status> {
    match (state, event)
    case (Available, CablePluggedIn) => Some(Preparing)
    case (Reserved, CablePluggedIn) => Some(Preparing)
    case (Preparing, CableUnplugged) => Some(Available)
    case (Finishing, CableUnplugged) => Some(Available)
    case (Charging, CableUnplugged) => Some(Available)
    case (SuspendedEV, CableUnplugged) => Some(Available)
    case (SuspendedEVSE, CableUnplugged) => Some(Available)
    case (Faulted, CableUnplugged) => Some(Available)
    case (Preparing, Authorized(_)) => Some(Charging)
    case (Reserved, Authorized(_)) => Some(Charging)
    case (Charging, ChargingStoppedByEV) => Some(SuspendedEV)
    case (Charging, ChargingStoppedByEVSE) => Some(SuspendedEVSE)
    case (SuspendedEV, ChargingResumed) => Some(Charging)
    case (SuspendedEVSE, ChargingResumed) => Some(Charging)
    case (Charging, TransactionFinished) => Some(Finishing)
    case (SuspendedEV, TransactionFinished) => Some(Finishing)
    case (SuspendedEVSE, TransactionFinished) => Some(Finishing)
    case (Preparing, TransactionFinished) => Some(Finishing)
    case (Finishing, TransactionFinished) => Some(Available)
    case (Charging, RemoteStop) => Some(Finishing)
    case (SuspendedEV, RemoteStop) => Some(Finishing)
    case (SuspendedEVSE, RemoteStop) => Some(Finishing)
    case (Available, RemoteStart(_)) => Some(Preparing)
    case (Reserved, RemoteStart(_)) => Some(Preparing)
    case (_, FaultOccurred(_)) => Some(Faulted)
    case (Faulted, FaultCleared) => Some(Available)
    case (Available, MakeUnavailable) => Some(Unavailable)
    case (Preparing, MakeUnavailable) => Some(Unavailable)
    case (Finishing, MakeUnavailable) => Some(Unavailable)
    case (Reserved, MakeUnavailable) => Some(Unavailable)
    case (Faulted, MakeUnavailable) => Some(Unavailable)
    case (Unavailable, MakeAvailable) => Some(Available)
    case (Available, ReservationMade(_)) => Some(Reserved)
    case (Reserved, ReservationCancelled) => Some(Available)
    case (Charging, EmergencyStopped) => Some(Finishing)
    case (SuspendedEV, EmergencyStopped) => Some(Finishing)
    case (SuspendedEVSE, EmergencyStopped) => Some(Finishing)
    case (_, Reset) => Some(Available)
    case _ => None
  }

  /** The Unicode white space that trimming removes. */
  predicate IsWhiteSpace(c: char) {
    var x := c as int;
    9 <= x <= 13 || x == 32 || x == 0x85 || x == 0xA0 || x == 0x1680 || 0x2000 <= x <= 0x200A ||
    x == 0x2028 || x == 0x2029 || x == 0x202F || x == 0x205F || x == 0x3000
  }

  /** A tag that is empty once trimmed. */
  predicate Blank(tag: string) {
    forall i :: 0 <= i < |tag| ==> IsWhiteSpace(tag[i])
  }

  predicate Valid(from: Status, to: Status, event: Event) {
    match (from, to, event)
    case (Preparing, Charging, Authorized(tag)) => !Blank(tag)
    case (Available, Reserved, ReservationMade(tag)) => !Blank(tag)
    case (_, Preparing, RemoteStart(tag)) => !Blank(tag)
    case (_, Faulted, FaultOccurred(error)) => error != NoError
    case _ => true
  }

  /** One logged step; a refused event leaves the state where it was. */
  datatype Transition = Transition(from: Status, to: Status, event: Event, success: bool)

  function Outcome(state: Status, event: Event): Transition {
    match NextState(state, event)
    case Some(to) => if Valid(state, to, event) then
        Transition(state, to, event, true) else Transition(state, state, event, false)
    case None => Transition(state, state, event, false)
  }

  const MAX_TRANSITIONS: nat := 100

  // ----- charging needs authorization -----

  predicate InSession(s: Status) {
    s == Charging || s == SuspendedEV || s == SuspendedEVSE
  }

  /** A session is entered exactly by an authorization of a prepared or reserved connector. Only the prepared
      one checks that the tag is not blank. */
  lemma SessionNeedsAuthorization(state: Status, event: Event)
    requires !InSession(state)
    ensures InSession(Outcome(state, event).to) <==>
            event.Authorized? && (state == Reserved || (state == Preparing && !Blank(event.idTag)))
  {
    hide Blank, NextState, Valid;
    if event.Authorized? {
      AuthorizationLeads(state, event.idTag);
    } else {
      OnlyAuthorizationEnters(state, event);
    }
  }

  lemma AuthorizationLeads(state: Status, tag: string)
    ensures NextState(state, Authorized(tag)) ==
            if state == Preparing || state == Reserved then Some(Charging) else None
    ensures Valid(state, Charging, Authorized(tag)) <==> state != Preparing || !Blank(tag)
  {
    hide Blank;
  }

  lemma OnlyAuthorizationEnters(state: Status, event: Event)
    requires !InSession(state) && !event.Authorized?
    ensures NextState(state, event).Some? ==> !InSession(NextState(state, event).value)
  {
  }

  function StateAfter(state: Status, events: seq<Event>): Status {
    if events == [] then state else
    var n := |events| - 1;
    Outcome(StateAfter(state, events[..n]), events[n]).to
  }

  /** Over any run that starts outside a session and ends inside one, some event authorized it, and after the
      last entry no event has led out again. */
  lemma {:induction false} RunNeedsAuthorization(state: Status, events: seq<Event>) returns (k: nat)
    requires !InSession(state) && InSession(StateAfter(state, events))
    ensures k < |events| && events[k].Authorized?
    ensures StateAfter(state, events[..k]) == Preparing || StateAfter(state, events[..k]) == Reserved
    ensures forall j :: k < j <= |events| ==> InSession(StateAfter(state, events[..j]))
  {
    var n := |events| - 1;
    assert events[..n + 1] == events;
    var before := StateAfter(state, events[..n]);
    if InSession(before) {
      k := RunNeedsAuthorization(state, events[..n]);
      assert forall j :: 0 <= j <= n ==> events[..n][..j] == events[..j];
    } else {
      SessionNeedsAuthorization(before, events[n]);
      k := n;
    }
  }

  // ----- where every event leads -----

  lemma {:induction false} StateAfterAppend(state: Status, a: seq<Event>, b: seq<Event>)
    ensures StateAfter(state, a + b) == StateAfter(StateAfter(state, a), b)
  {
    if b == [] {
      assert a + b == a;
    } else {
      var n := |b| - 1;
      StateAfterAppend(state, a, b[..n]);
      assert (a + b)[..|a| + n] == a + b[..n];
    }
  }

  predicate EndsSession(event: Event) {
    event == TransactionFinished || event == RemoteStop || event == EmergencyStopped ||
    event == CableUnplugged || event == Reset || (event.FaultOccurred? && event.error != NoError)
  }

  /** A session ends exactly by a finish, a remote or emergency stop, an unplugged cable, a reset or a real fault, each
      leading to its own state. */
  lemma SessionEndsBy(state: Status, event: Event)
    requires InSession(state)
    ensures !InSession(Outcome(state, event).to) <==> EndsSession(event)
    ensures event == TransactionFinished || event == RemoteStop || event == EmergencyStopped ==>
              Outcome(state, event).to == Finishing
    ensures event == CableUnplugged || event == Reset ==> Outcome(state, event).to == Available
    ensures event.FaultOccurred? && event.error != NoError ==> Outcome(state, event).to == Faulted
  {
    hide NextState, Valid;
    SessionMoves(state, event);
    SessionMovesAreValid(state, event);
  }

  /** The moves of the table from within a session. */
  lemma SessionMoves(state: Status, event: Event)
    requires InSession(state)
    ensures NextState(state, event) ==
            match event
            case TransactionFinished | RemoteStop | EmergencyStopped => Some(Finishing)
            case CableUnplugged | Reset => Some(Available)
            case FaultOccurred(_) => Some(Faulted)
            case ChargingStoppedByEV => if state == Charging then Some(SuspendedEV) else None
            case ChargingStoppedByEVSE => if state == Charging then Some(SuspendedEVSE) else None
            case ChargingResumed => if state == Charging then None else Some(Charging)
            case _ => None
  {
  }

  lemma SessionMovesAreValid(state: Status, event: Event)
    requires InSession(state)
    ensures forall to :: to != Preparing ==> (Valid(state, to, event) <==>
                                              to != Faulted || event != FaultOccurred(NoError))
  {
    hide Blank;
  }

  /** Within a session the vehicle or the station suspends charging, and charging resumes from either; any other event
      that does not end the session is refused. */
  lemma SessionContinues(state: Status, event: Event)
    requires InSession(state) && !EndsSession(event)
    ensures Outcome(state, event).success <==>
            (state == Charging && (event == ChargingStoppedByEV || event == ChargingStoppedByEVSE)) ||
            (state != Charging && event == ChargingResumed)
    ensures Outcome(state, event).to ==
            if state == Charging && event == ChargingStoppedByEV then SuspendedEV
            else if state == Charging && event == ChargingStoppedByEVSE then SuspendedEVSE
            else if event == ChargingResumed then Charging
            else state
  {
    hide NextState, Valid;
    SessionMoves(state, event);
    SessionMovesAreValid(state, event);
  }

  /** The event succeeds and leads to `to` if it is accepted; otherwise it is refused and nothing changes. */
  predicate LeadsIf(state: Status, event: Event, accepted: bool, to: Status) {
    var t := Outcome(state, event);
    t.success == accepted && t.to == if accepted then to else state
  }

  /** Where the cable leads outside a session. */
  lemma CableEvents(state: Status)
    requires !InSession(state)
    ensures LeadsIf(state, CablePluggedIn, state == Available || state == Reserved, Preparing)
    ensures LeadsIf(state, CableUnplugged, state == Preparing || state == Finishing || state == Faulted, Available)
  {
  }

  /** Where a change of availability leads. */
  lemma AvailabilityEvents(state: Status)
    requires !InSession(state)
    ensures LeadsIf(state, MakeUnavailable, state != Unavailable, Unavailable)
    ensures LeadsIf(state, MakeAvailable, state == Unavailable, Available)
  {
  }

  /** Where a cleared fault leads. */
  lemma FaultClearedEvents(state: Status)
    requires !InSession(state)
    ensures LeadsIf(state, FaultCleared, state == Faulted, Available)
  {
  }

  /** Where reservations lead. */
  lemma ReservationEvents(state: Status, tag: string)
    requires !InSession(state)
    ensures LeadsIf(state, ReservationMade(tag), state == Available && !Blank(tag), Reserved)
    ensures LeadsIf(state, ReservationCancelled, state == Reserved, Available)
  {
    hide Blank;
  }

  /** Where a remote start leads. */
  lemma RemoteStartEvents(state: Status, tag: string)
    requires !InSession(state)
    ensures LeadsIf(state, RemoteStart(tag), (state == Available || state == Reserved) && !Blank(tag), Preparing)
  {
    hide Blank;
  }

  /** Without a session there is nothing to stop remotely or in an emergency. */
  lemma NothingToStop(state: Status)
    requires !InSession(state)
    ensures LeadsIf(state, RemoteStop, false, state) && LeadsIf(state, EmergencyStopped, false, state)
  {
  }

  /** Where the end of a transaction leads outside a session. */
  lemma FinishEvents(state: Status)
    requires !InSession(state)
    ensures LeadsIf(state, TransactionFinished, state == Preparing || state == Finishing,
                    if state == Preparing then Finishing else Available)
  {
  }

  /** In every state resets and real faults go through, and reports of a failed authorization or of charging change
      nothing. */
  lemma EventsAnywhere(state: Status, error: ErrorCode)
    ensures LeadsIf(state, Reset, true, Available)
    ensures LeadsIf(state, FaultOccurred(error), error != NoError, Faulted)
    ensures LeadsIf(state, AuthorizationFailed, false, state) && LeadsIf(state, ChargingStarted, false, state)
  {
    hide Outcome;
    UnconditionalEvents(state, error);
    IgnoredEvents(state);
  }

  /** In every state resets and real faults go through. */
  lemma UnconditionalEvents(state: Status, error: ErrorCode)
    ensures Outcome(state, Reset) == Transition(state, Available, Reset, true)
    ensures Outcome(state, FaultOccurred(error)) ==
            if error == NoError then Transition(state, state, FaultOccurred(error), false)
            else Transition(state, Faulted, FaultOccurred(error), true)
  {
  }

  /** Reports of a failed authorization or of charging change nothing. */
  lemma IgnoredEvents(state: Status)
    ensures Outcome(state, AuthorizationFailed) == Transition(state, state, AuthorizationFailed, false)
    ensures Outcome(state, ChargingStarted) == Transition(state, state, ChargingStarted, false)
  {
  }

  /** Where every event but an authorization leads outside a session, and from which states it is refused. */
  lemma EventsOutsideSessions(state: Status, tag: string)
    requires !InSession(state)
    ensures LeadsIf(state, CablePluggedIn, state == Available || state == Reserved, Preparing)
    ensures LeadsIf(state, CableUnplugged, state == Preparing || state == Finishing || state == Faulted, Available)
    ensures LeadsIf(state, MakeUnavailable, state != Unavailable, Unavailable)
    ensures LeadsIf(state, MakeAvailable, state == Unavailable, Available)
    ensures LeadsIf(state, FaultCleared, state == Faulted, Available)
    ensures LeadsIf(state, ReservationMade(tag), state == Available && !Blank(tag), Reserved)
    ensures LeadsIf(state, ReservationCancelled, state == Reserved, Available)
    ensures LeadsIf(state, RemoteStart(tag), (state == Available || state == Reserved) && !Blank(tag), Preparing)
    ensures LeadsIf(state, TransactionFinished, state == Preparing || state == Finishing,
                    if state == Preparing then Finishing else Available)
    ensures forall event :: event in [RemoteStop, EmergencyStopped, ChargingStoppedByEV, ChargingStoppedByEVSE,
                                       ChargingResumed] ==>
              LeadsIf(state, event, false, state)
  {
    hide LeadsIf, Blank;
    CableEvents(state);
    AvailabilityEvents(state);
    FaultClearedEvents(state);
    ReservationEvents(state, tag);
    RemoteStartEvents(state, tag);
    FinishEvents(state);
    NothingToStop(state);
    NothingToSuspend(state);
  }

  /** Without a session there is nothing to suspend or resume. */
  lemma NothingToSuspend(state: Status)
    requires !InSession(state)
    ensures LeadsIf(state, ChargingStoppedByEV, false, state) && LeadsIf(state, ChargingStoppedByEVSE, false, state)
    ensures LeadsIf(state, ChargingResumed, false, state)
  {
  }

  /** After a remote or emergency stop of a session there is no session again until a later authorization. */
  lemma StopHolds(state: Status, events: seq<Event>, i: nat, j: nat) returns (k: nat)
    requires i < j <= |events| && (events[i] == RemoteStop || events[i] == EmergencyStopped)
    requires InSession(StateAfter(state, events[..i])) && InSession(StateAfter(state, events[..j]))
    ensures i < k < j && events[k].Authorized?
  {
    hide Outcome, StateAfter;
    var stopped := StateAfter(state, events[..i + 1]);
    StepAfter(state, events, i);
    SessionEndsBy(StateAfter(state, events[..i]), events[i]);
    StateAfterAppend(state, events[..i + 1], events[i + 1..j]);
    assert events[..i + 1] + events[i + 1..j] == events[..j];
    var m := RunNeedsAuthorization(stopped, events[i + 1..j]);
    assert events[i + 1..j][m] == events[i + 1 + m];
    k := i + 1 + m;
  }

  lemma StepAfter(state: Status, events: seq<Event>, i: nat)
    requires i < |events|
    ensures StateAfter(state, events[..i + 1]) == Outcome(StateAfter(state, events[..i]), events[i]).to
  {
    assert events[..i + 1][..i] == events[..i];
  }

  /** What puts an unavailable connector back into service. */
  predicate Reinstates(event: Event) {
    event == MakeAvailable || event == Reset || (event.FaultOccurred? && event.error != NoError)
  }

  /** An unavailable connector stays so until it is made available, reset, or faults. */
  lemma {:induction false} OutOfServiceHolds(events: seq<Event>)
    requires forall e :: e in events ==> !Reinstates(e)
    ensures StateAfter(Unavailable, events) == Unavailable
  {
    if events != [] {
      var n := |events| - 1;
      OutOfServiceHolds(events[..n]);
      UnavailableRefuses(events[n]);
      hide Outcome;
    }
  }

  lemma UnavailableRefuses(event: Event)
    ensures Outcome(Unavailable, event).success <==> Reinstates(event)
    ensures !Reinstates(event) ==> Outcome(Unavailable, event).to == Unavailable
  {
    hide Blank;
  }

  /** The characters that leave a tag blank: the Unicode white space, one by one. */
  const WHITE_SPACE: seq<int> := [
    0x09, 0x0A, 0x0B, 0x0C, 0x0D, 0x20, 0x85, 0xA0, 0x1680, 0x2000, 0x2001, 0x2002, 0x2003, 0x2004, 0x2005, 0x2006,
    0x2007, 0x2008, 0x2009, 0x200A, 0x2028, 0x2029, 0x202F, 0x205F, 0x3000]

  /** A tag is blank exactly when it has no other characters. */
  lemma BlankTags(tag: string)
    ensures Blank(tag) <==> forall c :: c in tag ==> c as int in WHITE_SPACE
  {
    if Blank(tag) {
      forall c | c in tag ensures c as int in WHITE_SPACE {
        var i :| 0 <= i < |tag| && tag[i] == c;
        WhiteSpaceIsListed(c);
      }
    } else {
      var i :| 0 <= i < |tag| && !IsWhiteSpace(tag[i]);
      WhiteSpaceIsListed(tag[i]);
      assert tag[i] in tag;
    }
  }

  lemma WhiteSpaceIsListed(c: char)
    ensures IsWhiteSpace(c) <==> c as int in WHITE_SPACE
  {
  }

  // ----- the history -----

  /** Every step starts where the one before it ended. */
  ghost predicate Chained(log: seq<Transition>) {
    forall i :: 0 < i < |log| ==> log[i].from == log[i - 1].to
  }

  class ConnectorStateMachine {
    var current: Status
    var previous: Option<Status>
    var history: seq<Transition>
    ghost var logged: seq<Transition>

    /** `logged` is everything logged since the history was last cleared. */
    ghost predicate Consistent()
      reads this
    {
      history == Last(logged, MAX_TRANSITIONS) && Chained(logged) &&
      (logged != [] ==> logged[|logged| - 1].to == current)
    }

    constructor (initial: Status)
      ensures Consistent() && current == initial && logged == [] && previous == None
    {
      current, previous, history, logged := initial, None, [], [];
    }

    method AddToHistory(t: Transition)
      requires history == Last(logged, MAX_TRANSITIONS)
      modifies this`history, this`logged
      ensures logged == old(logged) + [t] && history == Last(logged, MAX_TRANSITIONS)
    {
      PushKeepsLast(logged, t, MAX_TRANSITIONS);
      if |history| >= MAX_TRANSITIONS {
        history := history[1..];
      }
      history := history + [t];
      logged := logged + [t];
    }

    method ProcessEvent(event: Event) returns (t: Transition)
      requires Consistent()
      modifies this
      ensures Consistent()
      ensures t == Outcome(old(current), event) && current == t.to && logged == old(logged) + [t]
      ensures t.from == old(current) && t.event == event && (!t.success ==> current == old(current))
      ensures previous == if t.success then Some(old(current)) else old(previous)
    {
      var from := current;
      match NextState(from, event) {
        case Some(to) =>
          if !Valid(from, to, event) {
            t := Transition(from, from, event, false);
            AddToHistory(t);
            return;
          }
          previous := Some(current);
          current := to;
          t := Transition(from, to, event, true);
          AddToHistory(t);
        case None =>
          t := Transition(from, from, event, false);
          AddToHistory(t);
      }
    }

    /** Recovery: a forced state is logged as a reset. */
    method ForceState(state: Status) returns (t: Transition)
      requires Consistent()
      modifies this
      ensures Consistent()
      ensures t == Transition(old(current), state, Reset, true)
      ensures current == state && previous == Some(old(current)) && logged == old(logged) + [t]
    {
      var from := current;
      previous := Some(from);
      current := state;
      t := Transition(from, state, Reset, true);
      AddToHistory(t);
    }

    method ClearHistory()
      requires Consistent()
      modifies this`history, this`logged
      ensures Consistent() && history == [] && logged == []
    {
      history, logged := [], [];
    }
  }

  /** The kept history chains and ends in the current state, whatever was evicted. */
  lemma HistoryChains(log: seq<Transition>, current: Status)
    requires Chained(log) && (log != [] ==> log[|log| - 1].to == current)
    ensures var kept := Last(log, MAX_TRANSITIONS);
            |kept| == (if |log| < 100 then |log| else 100) && Chained(kept) &&
            (log != [] ==> kept != [] && kept[|kept| - 1].to == current)
  {
    var kept := Last(log, MAX_TRANSITIONS);
    forall i | 0 < i < |kept| ensures kept[i].from == kept[i - 1].to {
      var shift := |log| - |kept|;
      assert kept[i] == log[shift + i] && kept[i - 1] == log[shift + (i - 1)];
    }
  }
}
