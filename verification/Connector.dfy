/** The connector: what every run of its operations keeps, and the abstract machine run that simulates it. */
module Connector {
  import opened Wrappers
  import opened Transactions
  import opened StateMachine

  datatype Physical = Unplugged | Plugged | PluggedAndLocked

  /** The connector's fields, together with the transactions it has stopped so far. */
  datatype ConnectorState = ConnectorState(
    status: Status,
    physical: Physical,
    error: ErrorCode,
    transaction: Option<TransactionData>,
    reservedFor: Option<string>,
    lastEnergy: int,
    ended: seq<TransactionData>)

  datatype Operation =
    | PlugIn
    | PlugOut(outAt: int)
    | StartTransaction(idTag: string, startId: int, startAt: int)
    | StopTransaction(reason: StopReason, stopAt: int)
    | SuspendByEv
    | SuspendByEvse
    | ResumeCharging
    | SetFault(fault: ErrorCode, faultAt: int)
    | ClearFault
    | Reserve(reserveFor: string)
    | CancelReservation
    | UpdateMeterReading(energyWh: int, readAt: int)

  // ----- what each operation does -----

  /** Take the transaction out and stop it. */
  function EndTransaction(s: ConnectorState, reason: StopReason, now: int): ConnectorState {
    match s.transaction
    case None => s
    case Some(d) => s.(transaction := None, ended := s.ended + [StoppedData(d, reason, now)])
  }

  function AfterPlugOut(s: ConnectorState, now: int): ConnectorState {
    var out := s.(physical := Unplugged);
    match s.status
    case Preparing => out.(status := Available)
    case Finishing => out.(status := Available, transaction := None)
    case Charging | SuspendedEV | SuspendedEVSE => EndTransaction(out, EmergencyStop, now).(status := Available)
    case _ => out
  }

  datatype StartResult = Started | CableNotPlugged | AnotherTransactionActive | ReservedForOther | InvalidStatus

  function StartOutcome(s: ConnectorState, idTag: string): StartResult {
    if s.physical == Unplugged then CableNotPlugged
    else if s.transaction.Some? then AnotherTransactionActive
    else if s.reservedFor.Some? && s.reservedFor.value != idTag then ReservedForOther
    else if s.status != Preparing then InvalidStatus
    else Started
  }

  predicate CanStart(s: ConnectorState, idTag: string) {
    StartOutcome(s, idTag) == Started
  }

  function AfterStart(s: ConnectorState, idTag: string, id: int, connector: int, now: int): ConnectorState {
    if !CanStart(s, idTag) then s
    else s.(transaction := Some(NewTransaction(id, connector, idTag, s.lastEnergy, now)),
            physical := PluggedAndLocked, status := Charging, reservedFor := None)
  }

  function AfterStop(s: ConnectorState, reason: StopReason, now: int): ConnectorState {
    if s.transaction == None then s
    else if s.physical == Unplugged then EndTransaction(s, reason, now).(status := Available)
    else EndTransaction(s, reason, now).(status := Finishing, physical := Plugged)
  }

  function AfterFault(s: ConnectorState, error: ErrorCode, now: int): ConnectorState {
    if error == NoError then s.(error := error)
    else EndTransaction(s.(error := error, status := Faulted), Other, now)
  }

  function AfterReading(s: ConnectorState, energyWh: int, now: int): ConnectorState {
    s.(lastEnergy := energyWh,
       transaction := match s.transaction
                      case None => None
                      case Some(d) => Some(WithReading(d, MeterValue(now, energyWh))))
  }

  function After(s: ConnectorState, connector: int, op: Operation): ConnectorState {
    match op
    case PlugIn =>
      s.(physical := Plugged, status := if s.status == Available || s.status == Reserved then Preparing else s.status)
    case PlugOut(now) => AfterPlugOut(s, now)
    case StartTransaction(idTag, id, now) => AfterStart(s, idTag, id, connector, now)
    case StopTransaction(reason, now) => AfterStop(s, reason, now)
    case SuspendByEv => if s.status == Charging then s.(status := SuspendedEV) else s
    case SuspendByEvse => if s.status == Charging then s.(status := SuspendedEVSE) else s
    case ResumeCharging => if s.status == SuspendedEV || s.status == SuspendedEVSE then s.(status := Charging) else s
    case SetFault(error, now) => AfterFault(s, error, now)
    case ClearFault => s.(error := NoError, status := if s.physical == Unplugged then Available else Preparing)
    case Reserve(idTag) => if s.status == Available then s.(reservedFor := Some(idTag), status := Reserved) else s
    case CancelReservation => s.(reservedFor := None, status := if s.status == Reserved then Available else s.status)
    case UpdateMeterReading(energyWh, now) => AfterReading(s, energyWh, now)
  }

  class ChargeConnector {
    const id: int
    var status: Status
    var physical: Physical
    var error: ErrorCode
    var currentTransaction: Option<TransactionData>
    var reservedFor: Option<string>
    var lastEnergy: int
    ghost var ended: seq<TransactionData>

    ghost function State(): ConnectorState
      reads this
    {
      ConnectorState(status, physical, error, currentTransaction, reservedFor, lastEnergy, ended)
    }

    constructor (id: int)
      ensures this.id == id && State() == INITIAL
    {
      this.id := id;
      status, physical, error := Available, Unplugged, NoError;
      currentTransaction, reservedFor, lastEnergy, ended := None, None, 0, [];
    }

    /** Take the held transaction, if any, and stop it. */
    method EndHeld(reason: StopReason, now: int)
      modifies this`currentTransaction, this`ended
      ensures State() == EndTransaction(old(State()), reason, now)
    {
      if currentTransaction.Some? {
        var transaction := new Transaction(currentTransaction.value);
        transaction.Stop(reason, now);
        ended := ended + [transaction.data];
        currentTransaction := None;
      }
    }

    method PlugIn()
      modifies this
      ensures State() == After(old(State()), id, Operation.PlugIn)
    {
      physical := Plugged;
      match status {
        case Available => status := Preparing;
        case Reserved => status := Preparing;
        case _ =>
      }
    }

    method PlugOut(now: int)
      modifies this
      ensures State() == After(old(State()), id, Operation.PlugOut(now))
    {
      physical := Unplugged;
      match status {
        case Preparing => status := Available;
        case Finishing =>
          status := Available;
          currentTransaction := None;
        case Charging | SuspendedEV | SuspendedEVSE =>
          EndHeld(EmergencyStop, now);
          status := Available;
        case _ =>
      }
    }

    method StartTransaction(idTag: string, transactionId: int, now: int) returns (result: StartResult)
      modifies this
      ensures State() == After(old(State()), id, Operation.StartTransaction(idTag, transactionId, now))
      ensures result == StartOutcome(old(State()), idTag)
    {
      if physical == Unplugged {
        return CableNotPlugged;
      }
      if currentTransaction.Some? {
        return AnotherTransactionActive;
      }
      if reservedFor.Some? && reservedFor.value != idTag {
        return ReservedForOther;
      }
      if status != Preparing {
        return InvalidStatus;
      }
      currentTransaction := Some(NewTransaction(transactionId, id, idTag, lastEnergy, now));
      physical := PluggedAndLocked;
      status := Charging;
      reservedFor := None;
      return Started;
    }

    method StopTransaction(reason: StopReason, now: int)
      modifies this
      ensures State() == After(old(State()), id, Operation.StopTransaction(reason, now))
    {
      if currentTransaction.Some? {
        EndHeld(reason, now);
        match physical {
          case PluggedAndLocked | Plugged =>
            status := Finishing;
            physical := Plugged;
          case Unplugged =>
            status := Available;
        }
      }
    }

    method SuspendByEv()
      modifies this
      ensures State() == After(old(State()), id, Operation.SuspendByEv)
    {
      if status == Charging { status := SuspendedEV; }
    }

    method SuspendByEvse()
      modifies this
      ensures State() == After(old(State()), id, Operation.SuspendByEvse)
    {
      if status == Charging { status := SuspendedEVSE; }
    }

    method ResumeCharging()
      modifies this
      ensures State() == After(old(State()), id, Operation.ResumeCharging)
    {
      match status {
        case SuspendedEV | SuspendedEVSE => status := Charging;
        case _ =>
      }
    }

    method SetFault(code: ErrorCode, now: int)
      modifies this
      ensures State() == After(old(State()), id, Operation.SetFault(code, now))
    {
      error := code;
      if code != NoError {
        status := Faulted;
        EndHeld(Other, now);
      }
    }

    method ClearFault()
      modifies this
      ensures State() == After(old(State()), id, Operation.ClearFault)
    {
      error := NoError;
      match physical {
        case Unplugged => status := Available;
        case Plugged | PluggedAndLocked => status := Preparing;
      }
    }

    method Reserve(idTag: string) returns (ok: bool)
      modifies this
      ensures State() == After(old(State()), id, Operation.Reserve(idTag))
      ensures ok <==> old(status) == Available
    {
      ok := status == Available;
      if ok {
        reservedFor := Some(idTag);
        status := Reserved;
      }
    }

    method CancelReservation()
      modifies this
      ensures State() == After(old(State()), id, Operation.CancelReservation)
    {
      reservedFor := None;
      if status == Reserved { status := Available; }
    }

    method UpdateMeterReading(energyWh: int, now: int)
      modifies this
      ensures State() == After(old(State()), id, Operation.UpdateMeterReading(energyWh, now))
    {
      lastEnergy := energyWh;
      if currentTransaction.Some? {
        var transaction := new Transaction(currentTransaction.value);
        transaction.AddMeterValue(MeterValue(now, energyWh));
        currentTransaction := Some(transaction.data);
      }
    }
  }

  const INITIAL := ConnectorState(Available, Unplugged, NoError, None, None, 0, [])

  // ----- what every run keeps -----

  /** A transaction is held exactly in a session, is then unfinished and up to date with the meter, and excludes
      a reservation; the cable is out when
      the connector is free and in when it is in use; a reserved connector knows for whom. */
  predicate Sound(s: ConnectorState) {
    (s.transaction.Some? <==> InSession(s.status)) &&
    (s.transaction.Some? ==>
      !IsFinished(s.transaction.value) && LatestEnergy(s.transaction.value) == s.lastEnergy && s.reservedFor == None) &&
    (s.status == Available || s.status == Reserved ==> s.physical == Unplugged) &&
    (s.status == Preparing || s.status == Finishing || InSession(s.status) ==> s.physical != Unplugged) &&
    (s.status == Reserved ==> s.reservedFor.Some?)
  }

  /** Every operation keeps the connector sound, except clearing a fault while a transaction is held. */
  lemma OperationKeepsSound(s: ConnectorState, connector: int, op: Operation)
    requires Sound(s)
    ensures Sound(After(s, connector, op)) <==> !(op == ClearFault && s.transaction.Some?)
  {
  }

  /** From a sound state a transaction that leaves the connector has been stopped, its meter stop is the
      connector's meter, its energy is accounted for, and the cable is still in when a stop is requested. */
  lemma NothingIsDropped(s: ConnectorState, connector: int, op: Operation)
    requires Sound(s)
    ensures var after := After(s, connector, op);
            s.transaction.Some? && after.transaction.None? ==>
              |after.ended| == |s.ended| + 1 && after.ended[..|s.ended|] == s.ended &&
              var d := after.ended[|s.ended|];
              d.id == s.transaction.value.id && d.state == Stopped && d.meterStop == Some(s.lastEnergy) &&
              d.meterStart == s.transaction.value.meterStart && Conserves(d) &&
              (op.PlugOut? ==> d.stopReason == Some(EmergencyStop) && d.stopTime == Some(op.outAt)) &&
              (op.StopTransaction? ==> d.stopReason == Some(op.reason) && d.stopTime == Some(op.stopAt)) &&
              (op.SetFault? ==> d.stopReason == Some(StopReason.Other) && d.stopTime == Some(op.faultAt))
    ensures !(s.transaction.Some? && After(s, connector, op).transaction.None?) ==>
            After(s, connector, op).ended == s.ended
    ensures op.StopTransaction? && s.transaction.Some? ==>
            s.physical != Unplugged && After(s, connector, op).status == Finishing
  {
  }

  /** On a sound connector a start is refused for a missing cable first, then for a running session, then for someone
      else's reservation, and otherwise unless the connector is preparing. */
  lemma StartRefusals(s: ConnectorState, idTag: string)
    requires Sound(s)
    ensures StartOutcome(s, idTag) == CableNotPlugged <==> s.physical == Unplugged
    ensures StartOutcome(s, idTag) == AnotherTransactionActive <==> InSession(s.status)
    ensures StartOutcome(s, idTag) == ReservedForOther <==>
            s.physical != Unplugged && !InSession(s.status) && s.reservedFor != None && s.reservedFor != Some(idTag)
    ensures StartOutcome(s, idTag) == Started <==>
            s.status == Preparing && (s.reservedFor == None || s.reservedFor == Some(idTag))
  {
  }

  /** Which operation touches which field: the cable and its lock, the error code, the meter, the reservation. */
  lemma FieldsChangedBy(s: ConnectorState, connector: int, op: Operation)
    ensures var after := After(s, connector, op);
            var started := op.StartTransaction? && StartOutcome(s, op.idTag) == Started;
            after.physical == (if op.PlugIn? then Plugged
                               else if op.PlugOut? then Unplugged
                               else if started then PluggedAndLocked
                               else if op.StopTransaction? && s.transaction != None &&
                                   s.physical != Unplugged then Plugged
                               else s.physical) &&
            after.error == (if op.SetFault? then op.fault else if op.ClearFault? then NoError else s.error) &&
            after.lastEnergy == (if op.UpdateMeterReading? then op.energyWh else s.lastEnergy) &&
            after.reservedFor == (if op.Reserve? && s.status == Available then Some(op.reserveFor)
                                  else if op.CancelReservation? || started then None
                                  else s.reservedFor)
  {
  }

  /** A started transaction carries the tag, the id and the connector's own number and meter; a reading reaches the
      meter log of the transaction that is held. */
  lemma TransactionOpened(s: ConnectorState, connector: int, op: Operation)
    ensures var after := After(s, connector, op);
            (s.transaction == None && after.transaction != None ==>
               op.StartTransaction? && s.status == Preparing &&
               var d := after.transaction.value;
               d.id == op.startId && d.connector == connector && d.idTag == op.idTag && d.startTime == op.startAt &&
               d.meterStart == s.lastEnergy && d.meterValues == [] && d.state == Starting &&
               d.meterStop == None && d.stopTime == None && d.stopReason == None) &&
            (s.transaction != None && after.transaction != None ==>
               after.transaction.value.id == s.transaction.value.id &&
               if op.UpdateMeterReading? then
                 after.transaction.value.meterValues != [] &&
                 var log := after.transaction.value.meterValues;
                 log[|log| - 1] == MeterValue(op.readAt, op.energyWh)
               else after.transaction == s.transaction)
  {
  }

  /** No fault is cleared while a transaction is held. */
  predicate InOrder(s: ConnectorState, op: Operation) {
    op == ClearFault ==> s.transaction == None
  }

  function Run(connector: int, ops: seq<Operation>): ConnectorState {
    if ops == [] then INITIAL else
    var n := |ops| - 1;
    After(Run(connector, ops[..n]), connector, ops[n])
  }

  ghost predicate RunInOrder(connector: int, ops: seq<Operation>) {
    forall i :: 0 <= i < |ops| ==> InOrder(Run(connector, ops[..i]), ops[i])
  }

  lemma RunInOrderPrefix(connector: int, ops: seq<Operation>)
    requires ops != [] && RunInOrder(connector, ops)
    ensures RunInOrder(connector, ops[..|ops| - 1])
  {
    var n := |ops| - 1;
    assert forall i :: 0 <= i < n ==> ops[..n][..i] == ops[..i] && ops[..n][i] == ops[i];
  }

  /** Every run keeps the connector sound, and every transaction that left it was stopped and accounts for its energy.
      */
  lemma {:induction false} RunIsSound(connector: int, ops: seq<Operation>)
    requires RunInOrder(connector, ops)
    ensures Sound(Run(connector, ops))
    ensures forall i :: 0 <= i < |Run(connector, ops).ended| ==>
              Run(connector, ops).ended[i].state == Stopped && Conserves(Run(connector, ops).ended[i])
  {
    if ops != [] {
      var n := |ops| - 1;
      RunInOrderPrefix(connector, ops);
      RunIsSound(connector, ops[..n]);
      var s := Run(connector, ops[..n]);
      assert InOrder(s, ops[n]);
      OperationKeepsSound(s, connector, ops[n]);
      NothingIsDropped(s, connector, ops[n]);
      hide After, Conserves;
    }
  }

  /** A run is sound throughout if and only if it never clears a fault while a transaction is held. */
  lemma RunIsSoundIff(connector: int, ops: seq<Operation>)
    ensures RunInOrder(connector, ops) <==> forall i :: 0 <= i <= |ops| ==> Sound(Run(connector, ops[..i]))
  {
    hide After, Sound;
    if RunInOrder(connector, ops) {
      forall i | 0 <= i <= |ops| ensures Sound(Run(connector, ops[..i])) {
        assert forall j :: 0 <= j < i ==> ops[..i][..j] == ops[..j] && ops[..i][j] == ops[j];
        RunIsSound(connector, ops[..i]);
      }
    }
    if forall i :: 0 <= i <= |ops| ==> Sound(Run(connector, ops[..i])) {
      forall i | 0 <= i < |ops| ensures InOrder(Run(connector, ops[..i]), ops[i]) {
        OperationKeepsSound(Run(connector, ops[..i]), connector, ops[i]);
        assert ops[..i + 1][..i] == ops[..i] && ops[..i + 1][i] == ops[i];
        assert Sound(Run(connector, ops[..i + 1]));
      }
    }
  }

  // ----- the abstract machine simulates the connector -----

  /** The machine event for clearing a fault; where there is none to clear, resetting does the same. */
  function Clearing(s: ConnectorState): Event {
    if s.status == Faulted then FaultCleared else Reset
  }

  /** The machine events that stand for one operation. */
  function Events(s: ConnectorState, op: Operation): seq<Event> {
    match op
    case PlugIn => if s.status == Available || s.status == Reserved then [CablePluggedIn] else []
    case PlugOut(_) =>
      if s.status == Preparing || s.status == Finishing || InSession(s.status) then [CableUnplugged] else []
    case StartTransaction(idTag, _, _) => if CanStart(s, idTag) then [Authorized(idTag)] else []
    case StopTransaction(_, _) => if s.transaction.Some? then [TransactionFinished] else []
    case SuspendByEv => if s.status == Charging then [ChargingStoppedByEV] else []
    case SuspendByEvse => if s.status == Charging then [ChargingStoppedByEVSE] else []
    case ResumeCharging => if s.status == SuspendedEV || s.status == SuspendedEVSE then [ChargingResumed] else []
    case SetFault(error, _) => if error != NoError then [FaultOccurred(error)] else []
    case ClearFault => if s.physical == Unplugged then [Clearing(s)] else [Clearing(s), CablePluggedIn]
    case Reserve(idTag) => if s.status == Available then [ReservationMade(idTag)] else []
    case CancelReservation => if s.status == Reserved then [ReservationCancelled] else []
    case UpdateMeterReading(_, _) => []
  }

  /** The status the transition table leads to, or None if it has no entry for some event. */
  function Follow(state: Status, events: seq<Event>): Option<Status>
    decreases |events|
  {
    if events == [] then Some(state) else
    match NextState(state, events[0])
    case None => None
    case Some(next) => Follow(next, events[1..])
  }

  /** Every operation from a sound state is zero, one or two moves of the transition table. */
  lemma OperationIsSimulated(s: ConnectorState, connector: int, op: Operation)
    requires Sound(s) && InOrder(s, op)
    ensures |Events(s, op)| <= 2
    ensures Follow(s.status, Events(s, op)) == Some(After(s, connector, op).status)
    ensures |Events(s, op)| == 2 && s.status == Faulted ==>
              forall event :: NextState(s.status, event) != Some(After(s, connector, op).status)
  {
    hide Follow, StateAfter, Outcome, NextState;
    forall event ensures NextState(Faulted, event) != Some(Preparing) { ClearFaultNeedsTwoSteps(event); }
    var es := Events(s, op);
    if |es| == 0 {
      NoStep(s.status, es);
    } else if |es| == 1 {
      assert es == [es[0]];
      OneStep(s.status, es[0]);
      OneMove(s, connector, op);
    } else {
      ClearedWithCable(s.status, es[0]);
    }
  }

  /** An operation that stands for a single event is that move of the table. */
  lemma OneMove(s: ConnectorState, connector: int, op: Operation)
    requires Sound(s) && InOrder(s, op) && |Events(s, op)| == 1
    ensures NextState(s.status, Events(s, op)[0]) == Some(After(s, connector, op).status)
  {
    hide IsFinished, LatestEnergy;
  }

  /** The machine events of a whole run. */
  function RunEvents(connector: int, ops: seq<Operation>): seq<Event> {
    if ops == [] then [] else
    var n := |ops| - 1;
    RunEvents(connector, ops[..n]) + Events(Run(connector, ops[..n]), ops[n])
  }

  lemma {:induction false} FollowAppend(state: Status, a: seq<Event>, b: seq<Event>)
    requires Follow(state, a).Some?
    ensures Follow(state, a + b) == Follow(Follow(state, a).value, b)
    decreases |a|
  {
    if a == [] {
      assert a + b == b;
    } else {
      FollowAppend(NextState(state, a[0]).value, a[1..], b);
      assert (a + b)[1..] == a[1..] + b;
    }
  }

  /** Every connector run is a run of the transition table through the same statuses. */
  lemma {:induction false} RunIsSimulated(connector: int, ops: seq<Operation>)
    requires RunInOrder(connector, ops)
    ensures Follow(Available, RunEvents(connector, ops)) == Some(Run(connector, ops).status)
  {
    if ops != [] {
      var n := |ops| - 1;
      RunInOrderPrefix(connector, ops);
      RunIsSimulated(connector, ops[..n]);
      RunIsSound(connector, ops[..n]);
      var s := Run(connector, ops[..n]);
      assert InOrder(s, ops[n]);
      OperationIsSimulated(s, connector, ops[n]);
      FollowAppend(Available, RunEvents(connector, ops[..n]), Events(s, ops[n]));
      hide After, Events, Follow;
    }
  }

  /** No single event does what clearing a fault with the cable in does. */
  lemma ClearFaultNeedsTwoSteps(event: Event)
    ensures NextState(Faulted, event) != Some(Preparing)
  {
  }

  /** The validating machine refuses none of the events. */
  ghost predicate Accepted(state: Status, events: seq<Event>) {
    forall k :: 0 <= k < |events| ==> Outcome(StateAfter(state, events[..k]), events[k]).success
  }

  /** The operation starts or reserves for a blank tag: the connector does not check its tags, the machine does. */
  predicate UsesBlankTag(s: ConnectorState, op: Operation) {
    (op.StartTransaction? && CanStart(s, op.idTag) && Blank(op.idTag)) ||
    (op.Reserve? && s.status == Available && Blank(op.reserveFor))
  }

  /** The validating machine accepts an operation's events, and follows it, unless it uses a blank tag. */
  lemma MachineAcceptsUnlessBlank(s: ConnectorState, connector: int, op: Operation)
    requires Sound(s) && InOrder(s, op)
    ensures Accepted(s.status, Events(s, op)) <==> !UsesBlankTag(s, op)
    ensures StateAfter(s.status, Events(s, op)) == After(s, connector, op).status <==> !UsesBlankTag(s, op)
  {
    hide NextState, StateAfter, Follow, Accepted, Sound;
    var es := Events(s, op);
    OperationIsSimulated(s, connector, op);
    if |es| == 0 {
      NoStep(s.status, es);
    } else if |es| == 1 {
      assert es == [es[0]];
      OneStep(s.status, es[0]);
    } else {
      ClearedWithCable(s.status, es[0]);
    }
  }

  lemma NoStep(state: Status, events: seq<Event>)
    requires events == []
    ensures StateAfter(state, events) == state && Follow(state, events) == Some(state) && Accepted(state, events)
  {
  }

  lemma OneStep(state: Status, event: Event)
    ensures StateAfter(state, [event]) == Outcome(state, event).to
    ensures Follow(state, [event]) == NextState(state, event)
    ensures Accepted(state, [event]) <==> Outcome(state, event).success
  {
    assert [event][..0] == [] && [event][1..] == [];
    assert StateAfter(state, []) == state;
  }

  lemma ClearedWithCable(state: Status, clearing: Event)
    requires clearing == Reset || (state == Faulted && clearing == FaultCleared)
    ensures StateAfter(state, [clearing, CablePluggedIn]) == Preparing
    ensures Follow(state, [clearing, CablePluggedIn]) == Some(Preparing)
    ensures Accepted(state, [clearing, CablePluggedIn])
  {
    var es := [clearing, CablePluggedIn];
    OneStep(Available, CablePluggedIn);
    assert es[1..] == [CablePluggedIn];
    OneStep(state, clearing);
    assert es[..1] == [clearing] && es[..0] == [];
    assert StateAfter(state, []) == state;
    hide Follow, StateAfter;
  }

  lemma AcceptedAppend(state: Status, a: seq<Event>, b: seq<Event>)
    ensures Accepted(state, a + b) <==> Accepted(state, a) && Accepted(StateAfter(state, a), b)
  {
    forall k | 0 <= k < |a| ensures (a + b)[..k] == a[..k] {}
    forall j | 0 <= j < |b|
      ensures (a + b)[|a| + j] == b[j] && StateAfter(state, (a + b)[..|a| + j]) ==
              StateAfter(StateAfter(state, a), b[..j])
    {
      assert (a + b)[..|a| + j] == a + b[..j];
      StateAfterAppend(state, a, b[..j]);
    }
    hide StateAfter, Outcome;
    if Accepted(state, a) && Accepted(StateAfter(state, a), b) {
      forall k | 0 <= k < |a + b| ensures Outcome(StateAfter(state, (a + b)[..k]), (a + b)[k]).success {
        if k >= |a| { assert Outcome(StateAfter(StateAfter(state, a), b[..k - |a|]), b[k - |a|]).success; }
      }
    }
    if Accepted(state, a + b) {
      forall k | 0 <= k < |a| ensures Outcome(StateAfter(state, a[..k]), a[k]).success {
        assert Outcome(StateAfter(state, (a + b)[..k]), (a + b)[k]).success;
      }
      forall j | 0 <= j < |b| ensures Outcome(StateAfter(StateAfter(state, a), b[..j]), b[j]).success {
        assert Outcome(StateAfter(state, (a + b)[..|a| + j]), (a + b)[|a| + j]).success;
      }
    }
  }

  ghost predicate UsesNoBlankTag(connector: int, ops: seq<Operation>) {
    forall i :: 0 <= i < |ops| ==> !UsesBlankTag(Run(connector, ops[..i]), ops[i])
  }

  lemma UsesNoBlankTagSplit(connector: int, ops: seq<Operation>)
    requires ops != []
    ensures var n := |ops| - 1;
            UsesNoBlankTag(connector, ops) <==>
            UsesNoBlankTag(connector, ops[..n]) && !UsesBlankTag(Run(connector, ops[..n]), ops[n])
  {
    hide Run, UsesBlankTag;
    var n := |ops| - 1;
    assert forall i :: 0 <= i < n ==> ops[..n][..i] == ops[..i] && ops[..n][i] == ops[i];
  }

  /** The validating machine accepts every event of a run, and ends in the connector's status, if and only if no
      operation of the run uses a blank tag. */
  lemma {:induction false} RunIsAccepted(connector: int, ops: seq<Operation>)
    requires RunInOrder(connector, ops)
    ensures Accepted(Available, RunEvents(connector, ops)) <==> UsesNoBlankTag(connector, ops)
    ensures UsesNoBlankTag(connector, ops) ==>
            StateAfter(Available, RunEvents(connector, ops)) == Run(connector, ops).status
  {
    hide Accepted, StateAfter, After, Events, Sound, UsesBlankTag;
    if ops == [] {
      NoStep(Available, []);
    } else {
      var n := |ops| - 1;
      var s := Run(connector, ops[..n]);
      RunInOrderPrefix(connector, ops);
      RunIsAccepted(connector, ops[..n]);
      RunIsSound(connector, ops[..n]);
      assert InOrder(s, ops[n]);
      UsesNoBlankTagSplit(connector, ops);
      hide UsesNoBlankTag, RunInOrder;
      MachineAcceptsUnlessBlank(s, connector, ops[n]);
      StateAfterAppend(Available, RunEvents(connector, ops[..n]), Events(s, ops[n]));
      AcceptedAppend(Available, RunEvents(connector, ops[..n]), Events(s, ops[n]));
    }
  }
}
