/** Transactions, their bounded meter log, and the manager that issues, tracks and archives them. */
module Transactions {
  import opened Wrappers

  datatype TransactionState = Starting | Active | Suspended | Stopping | Stopped | Failed

  datatype StopReason =
    EmergencyStop | EVDisconnected | HardReset | Local | Other | PowerLoss | Reboot | Remote | SoftReset |
    UnlockCommand | DeAuthorized

  datatype MeterValue = MeterValue(timestamp: int, energyWh: int)

  datatype TransactionData = TransactionData(
    id: int,
    connector: int,
    idTag: string,
    startTime: int,
    stopTime: Option<int>,
    meterStart: int,
    meterStop: Option<int>,
    state: TransactionState,
    stopReason: Option<StopReason>,
    reservation: Option<int>,
    meterValues: seq<MeterValue>)

  const MAX_METER_VALUES: nat := 1000
  const MAX_HISTORY: nat := 1000

  // ----- bounded logs -----

  /** The last `limit` elements. */
  function Last<T>(xs: seq<T>, limit: nat): seq<T> {
    if |xs| <= limit then xs else xs[|xs| - limit..]
  }

  /** Evict the oldest when full, then append. */
  function PushBounded<T>(ring: seq<T>, x: T, limit: nat): seq<T> {
    (if |ring| >= limit && ring != [] then ring[1..] else ring) + [x]
  }

  /** A bounded log holds exactly the last elements ever pushed. */
  lemma PushKeepsLast<T>(xs: seq<T>, x: T, limit: nat)
    requires 0 < limit
    ensures PushBounded(Last(xs, limit), x, limit) == Last(xs + [x], limit)
  {
    if |xs| >= limit {
      assert (xs + [x])[|xs| + 1 - limit..] == xs[|xs| + 1 - limit..] + [x];
      assert xs[|xs| - limit..][1..] == xs[|xs| + 1 - limit..];
    }
  }

  // ----- one transaction -----

  function NewTransaction(id: int, connector: int, idTag: string, meterStart: int, now: int): TransactionData {
    TransactionData(id, connector, idTag, now, None, meterStart, None, Starting, None, None, [])
  }

  function WithReading(d: TransactionData, v: MeterValue): TransactionData {
    d.(meterValues := PushBounded(d.meterValues, v, MAX_METER_VALUES))
  }

  /** The latest reading, or the one the transaction started from. */
  function LatestEnergy(d: TransactionData): int {
    if d.meterValues == [] then d.meterStart else d.meterValues[|d.meterValues| - 1].energyWh
  }

  function EnergyConsumed(d: TransactionData): int {
    LatestEnergy(d) - d.meterStart
  }

  predicate IsFinished(d: TransactionData) {
    d.state == Stopped || d.state == Failed
  }

  /** Stopping a finished transaction changes nothing. */
  function StoppedData(d: TransactionData, reason: StopReason, now: int): TransactionData {
    if IsFinished(d) then d
    else d.(state := Stopped, stopTime := Some(now), stopReason := Some(reason), meterStop := Some(LatestEnergy(d)))
  }

  function FailedData(d: TransactionData, reason: StopReason, now: int): TransactionData {
    d.(state := Failed, stopTime := Some(now), stopReason := Some(reason))
  }

  class Transaction {
    var data: TransactionData

    constructor (d: TransactionData)
      ensures data == d
    {
      data := d;
    }

    method Start() returns (ok: bool)
      modifies this
      ensures ok <==> old(data).state == Starting
      ensures data == if ok then old(data).(state := Active) else old(data)
    {
      ok := data.state == Starting;
      if ok { data := data.(state := Active); }
    }

    method Suspend() returns (ok: bool)
      modifies this
      ensures ok <==> old(data).state == Active
      ensures data == if ok then old(data).(state := Suspended) else old(data)
    {
      ok := data.state == Active;
      if ok { data := data.(state := Suspended); }
    }

    method Resume() returns (ok: bool)
      modifies this
      ensures ok <==> old(data).state == Suspended
      ensures data == if ok then old(data).(state := Active) else old(data)
    {
      ok := data.state == Suspended;
      if ok { data := data.(state := Active); }
    }

    method Stop(reason: StopReason, now: int)
      modifies this
      ensures data == StoppedData(old(data), reason, now)
    {
      if data.state == Stopped || data.state == Failed {
        return;
      }
      data := data.(state := Stopping);
      data := data.(stopTime := Some(now));
      data := data.(stopReason := Some(reason));
      if data.meterValues != [] {
        data := data.(meterStop := Some(data.meterValues[|data.meterValues| - 1].energyWh));
      } else {
        data := data.(meterStop := Some(data.meterStart));
      }
      data := data.(state := Stopped);
    }

    method Fail(reason: StopReason, now: int)
      modifies this
      ensures data == FailedData(old(data), reason, now)
    {
      data := data.(state := Failed);
      data := data.(stopTime := Some(now));
      data := data.(stopReason := Some(reason));
    }

    method AddMeterValue(v: MeterValue)
      modifies this
      ensures data == WithReading(old(data), v)
    {
      var values := data.meterValues;
      if |values| >= MAX_METER_VALUES {
        values := values[1..];
      }
      data := data.(meterValues := values + [v]);
    }
  }

  function WithReadings(d: TransactionData, vs: seq<MeterValue>): TransactionData {
    if vs == [] then d else
    var n := |vs| - 1;
    WithReading(WithReadings(d, vs[..n]), vs[n])
  }

  /** However many readings are evicted, the log is the last thousand of them and the energy is the last
      reading ever taken minus the first. */
  lemma {:induction false} EvictionKeepsEnergy(d: TransactionData, vs: seq<MeterValue>)
    requires d.meterValues == []
    ensures WithReadings(d, vs) == d.(meterValues := Last(vs, 1_000))
    ensures vs != [] ==> EnergyConsumed(WithReadings(d, vs)) == vs[|vs| - 1].energyWh - d.meterStart
  {
    if vs != [] {
      var n := |vs| - 1;
      EvictionKeepsEnergy(d, vs[..n]);
      PushKeepsLast(vs[..n], vs[n], MAX_METER_VALUES);
      assert vs[..n] + [vs[n]] == vs;
    }
  }

  // ----- the manager -----

  /** The manager's fields, together with the list of every transaction it ever stopped. */
  datatype ManagerState = ManagerState(
    active: map<int, TransactionData>,
    history: seq<TransactionData>,
    nextId: int,
    stops: seq<TransactionData>)

  /** What a caller can do to an active transaction it borrows from the manager. */
  datatype Change =
    | StartIt
    | SuspendIt
    | ResumeIt
    | ReadIt(v: MeterValue)
    | StopIt(stopReason: StopReason, stopAt: int)
    | FailIt(failReason: StopReason, failAt: int)

  function Changed(d: TransactionData, c: Change): TransactionData {
    match c
    case StartIt => if d.state == Starting then d.(state := Active) else d
    case SuspendIt => if d.state == Active then d.(state := Suspended) else d
    case ResumeIt => if d.state == Suspended then d.(state := Active) else d
    case ReadIt(v) => WithReading(d, v)
    case StopIt(reason, now) => StoppedData(d, reason, now)
    case FailIt(reason, now) => FailedData(d, reason, now)
  }

  datatype Command =
    | Create(connector: int, idTag: string, meterStart: int, reservation: Option<int>, now: int)
    | ChangeActive(borrowed: int, change: Change)
    | Stop(ended: int, reason: StopReason, endedAt: int)

  function CreateIn(m: ManagerState, connector: int, idTag: string, meterStart: int, reservation: Option<int>,
                    now: int): ManagerState {
    if connector in m.active then m
    else m.(active := m.active[connector := NewTransaction(m.nextId, connector, idTag, meterStart, now).(reservation :=
        reservation)],
            nextId := m.nextId + 1)
  }

  function StopIn(m: ManagerState, connector: int, reason: StopReason, now: int): ManagerState {
    if connector !in m.active then m else
    var d := StoppedData(m.active[connector], reason, now);
    m.(active := m.active - {connector}, history := PushBounded(m.history, d, MAX_HISTORY), stops := m.stops + [d])
  }

  function ChangeIn(m: ManagerState, connector: int, change: Change): ManagerState {
    if connector !in m.active then m
    else m.(active := m.active[connector := Changed(m.active[connector], change)])
  }

  function Step(m: ManagerState, c: Command): ManagerState {
    match c
    case Create(connector, idTag, meterStart, reservation, now) => CreateIn(m, connector, idTag, meterStart,
        reservation, now)
    case ChangeActive(connector, change) => ChangeIn(m, connector, change)
    case Stop(connector, reason, now) => StopIn(m, connector, reason, now)
  }

  const IDLE := ManagerState(map[], [], 1, [])

  function Run(commands: seq<Command>): ManagerState {
    if commands == [] then IDLE else
    var n := |commands| - 1;
    Step(Run(commands[..n]), commands[n])
  }

  /** Ids never repeat among active and stopped transactions and stay below the counter, every stopped
      transaction is finished, and the history is the last thousand stops. */
  ghost predicate Accounted(m: ManagerState) {
    (forall c :: c in m.active ==> m.active[c].connector == c && m.active[c].id < m.nextId) &&
    (forall c, d :: c in m.active && d in m.active && c != d ==> m.active[c].id != m.active[d].id) &&
    (forall i :: 0 <= i < |m.stops| ==> m.stops[i].id < m.nextId && IsFinished(m.stops[i])) &&
    (forall i, j :: 0 <= i < j < |m.stops| ==> m.stops[i].id != m.stops[j].id) &&
    (forall c, i :: c in m.active && 0 <= i < |m.stops| ==> m.active[c].id != m.stops[i].id) &&
    m.history == Last(m.stops, 1_000)
  }

  lemma ChangeKeepsIdentity(d: TransactionData, c: Change)
    ensures Changed(d, c).id == d.id && Changed(d, c).connector == d.connector
    ensures !IsFinished(d) && !c.StopIt? && !c.FailIt? ==> !IsFinished(Changed(d, c))
  {
  }

  lemma StepKeepsAccounted(m: ManagerState, c: Command)
    requires Accounted(m)
    ensures Accounted(Step(m, c))
  {
    match c {
      case Create(connector, idTag, meterStart, reservation, now) =>
        hide Last;
        CreateKeepsAccounted(m, connector, idTag, meterStart, reservation, now);
      case ChangeActive(connector, change) =>
        hide Last, Changed;
        if connector in m.active { ChangeKeepsIdentity(m.active[connector], change); }
      case Stop(connector, reason, now) =>
        hide Accounted;
        StopKeepsAccounted(m, connector, reason, now);
    }
    hide Accounted;
  }

  lemma CreateKeepsAccounted(m: ManagerState, connector: int, idTag: string, meterStart: int, reservation: Option<int>,
                             now: int)
    requires Accounted(m)
    ensures Accounted(CreateIn(m, connector, idTag, meterStart, reservation, now))
  {
    hide Last;
  }

  lemma StopKeepsAccounted(m: ManagerState, connector: int, reason: StopReason, now: int)
    requires Accounted(m)
    ensures Accounted(StopIn(m, connector, reason, now))
  {
    if connector in m.active {
      PushKeepsLast(m.stops, StoppedData(m.active[connector], reason, now), MAX_HISTORY);
    }
    hide Last, PushBounded;
  }

  /** Every run of the manager keeps its accounts. */
  lemma {:induction false} RunIsAccounted(commands: seq<Command>)
    ensures Accounted(Run(commands))
  {
    if commands != [] {
      var n := |commands| - 1;
      RunIsAccounted(commands[..n]);
      StepKeepsAccounted(Run(commands[..n]), commands[n]);
    }
  }

  /** The ids a run hands out, in order. */
  function Issued(commands: seq<Command>): seq<int> {
    if commands == [] then [] else
    var n := |commands| - 1;
    var m := Run(commands[..n]);
    Issued(commands[..n]) + if commands[n].Create? && commands[n].connector !in m.active then [m.nextId] else []
  }

  /** Issued ids strictly increase and stay below the counter. */
  lemma {:induction false} IssuedIdsIncrease(commands: seq<Command>)
    ensures forall i, j :: 0 <= i < j < |Issued(commands)| ==> Issued(commands)[i] < Issued(commands)[j]
    ensures forall i :: 0 <= i < |Issued(commands)| ==> 1 <= Issued(commands)[i] < Run(commands).nextId
    ensures 1 <= Run(commands).nextId
  {
    if commands != [] {
      IssuedIdsIncrease(commands[..|commands| - 1]);
    }
  }

  /** What one command does to the manager: a creation opens a fresh record under the next id, a borrowed record changes
      alone and keeps its identity, and a stop moves a finished record into the archive. */
  lemma StepExactly(m: ManagerState, c: Command)
    ensures var after := Step(m, c);
            match c
            case Create(connector, idTag, meterStart, reservation, now) =>
              if connector in m.active then after == m else
              after == m.(active := m.active[connector := TransactionData(
                            m.nextId, connector, idTag, now, None, meterStart, None, Starting, None, reservation, [])],
                          nextId := m.nextId + 1)
            case ChangeActive(connector, change) =>
              after.active.Keys == m.active.Keys && after == m.(active := after.active) &&
              (forall d :: d in m.active && d != connector ==> after.active[d] == m.active[d]) &&
              (connector in m.active ==>
                 after.active[connector].id == m.active[connector].id &&
                 after.active[connector].idTag == m.active[connector].idTag &&
                 after.active[connector].meterStart == m.active[connector].meterStart)
            case Stop(connector, reason, now) =>
              if connector !in m.active then after == m else
              after.active == m.active - {connector} && after.nextId == m.nextId && |after.stops| == |m.stops| + 1 &&
              after.stops[..|m.stops|] == m.stops && IsStopOf(after.stops[|m.stops|], m.active[connector], reason, now)
  {
  }

  /** `e` is `d` as a stop leaves it: a finished record as it was, any other stopped with reason, time and meter. */
  predicate IsStopOf(e: TransactionData, d: TransactionData, reason: StopReason, now: int) {
    if d.state == Stopped || d.state == Failed then e == d else
    e.state == Stopped && e.stopTime == Some(now) && e.stopReason == Some(reason) &&
    e.meterStop == Some(if d.meterValues == [] then d.meterStart else d.meterValues[|d.meterValues| - 1].energyWh) &&
    e == d.(state := e.state, stopTime := e.stopTime, stopReason := e.stopReason, meterStop := e.meterStop)
  }

  /** What a caller can do to a record: start, suspend and resume in their states only, read, stop unless finished,
      fail. */
  lemma ChangeExactly(d: TransactionData, c: Change)
    ensures var e := Changed(d, c);
            match c
            case StartIt => e == if d.state == Starting then d.(state := Active) else d
            case SuspendIt => e == if d.state == Active then d.(state := Suspended) else d
            case ResumeIt => e == if d.state == Suspended then d.(state := Active) else d
            case ReadIt(v) => e == d.(meterValues := e.meterValues) && e.meterValues != [] &&
                              e.meterValues[|e.meterValues| - 1] == v
            case StopIt(reason, now) => IsStopOf(e, d, reason, now)
            case FailIt(reason, now) => e == d.(state := Failed, stopTime := Some(now), stopReason := Some(reason))
  {
  }

  // ----- energy -----

  /** The archived record's own account of its energy. */
  predicate Conserves(d: TransactionData) {
    d.meterStop.Some? && EnergyConsumed(d) == d.meterStop.value - d.meterStart
  }

  /** What callers do to a transaction between its creation and its stop by the manager. */
  datatype Life = Life(meterStart: int, changes: seq<Change>)

  predicate Ends(c: Change) {
    c.StopIt? || c.FailIt?
  }

  /** The position of the first change that ends the transaction; past the end if none does. */
  function FirstEnd(changes: seq<Change>): (k: nat)
    ensures k <= |changes| && (k < |changes| ==> Ends(changes[k]))
    ensures forall i :: 0 <= i < k ==> !Ends(changes[i])
  {
    if changes == [] then 0 else
    var n := |changes| - 1;
    var k := FirstEnd(changes[..n]);
    if k == n && !Ends(changes[n]) then n + 1 else k
  }

  /** The last reading among the changes, or the one the transaction starts from. */
  function LastRead(meterStart: int, changes: seq<Change>): int {
    if changes == [] then meterStart else
    var n := |changes| - 1;
    if changes[n].ReadIt? then changes[n].v.energyWh else LastRead(meterStart, changes[..n])
  }

  /** No caller ends the transaction, or the first to end it stops it and no reading after that shows another energy
      in the end. */
  predicate EndsWell(life: Life) {
    var k := FirstEnd(life.changes);
    k < |life.changes| ==>
      life.changes[k].StopIt? && LastRead(life.meterStart, life.changes) == LastRead(life.meterStart, life.changes[..k])
  }

  /** What a life leaves behind in the record, however many readings were evicted. */
  ghost predicate Lived(d: TransactionData, life: Life) {
    var k := FirstEnd(life.changes);
    d.meterStart == life.meterStart && LatestEnergy(d) == LastRead(life.meterStart, life.changes) &&
    (IsFinished(d) <==> k < |life.changes|) &&
    d.meterStop ==
      if k < |life.changes| && life.changes[k].StopIt? then Some(LastRead(life.meterStart, life.changes[..k])) else None
  }

  lemma ChangeIsLived(d: TransactionData, life: Life, c: Change)
    requires Lived(d, life)
    ensures Lived(Changed(d, c), life.(changes := life.changes + [c]))
  {
    var k, n, after := FirstEnd(life.changes), |life.changes|, life.changes + [c];
    assert after[..n] == life.changes;
    assert after[..k] == life.changes[..k];
    assert FirstEnd(after) == if k == n && !Ends(c) then n + 1 else k;
  }

  function ChangedBy(d: TransactionData, changes: seq<Change>): TransactionData {
    if changes == [] then d else
    var n := |changes| - 1;
    Changed(ChangedBy(d, changes[..n]), changes[n])
  }

  predicate IsFresh(d: TransactionData) {
    d.state == Starting && d.meterStop == None && d.meterValues == []
  }

  lemma {:induction false} ChangesAreLived(d: TransactionData, changes: seq<Change>)
    requires IsFresh(d)
    ensures Lived(ChangedBy(d, changes), Life(d.meterStart, changes))
  {
    if changes != [] {
      var n := |changes| - 1;
      ChangesAreLived(d, changes[..n]);
      ChangeIsLived(ChangedBy(d, changes[..n]), Life(d.meterStart, changes[..n]), changes[n]);
      assert changes[..n] + [changes[n]] == changes;
    }
  }

  lemma LifeConservesIff(d: TransactionData, life: Life, reason: StopReason, now: int)
    requires Lived(d, life)
    ensures Conserves(StoppedData(d, reason, now)) <==> EndsWell(life)
  {
  }

  /** Whatever callers do to a new transaction, the record a manager stop archives explains its energy if and only if
      no caller failed it before stopping it, and a caller's stop was followed by no reading that ends elsewhere. */
  lemma StopConserves(d: TransactionData, changes: seq<Change>, reason: StopReason, now: int)
    requires IsFresh(d)
    ensures Conserves(StoppedData(ChangedBy(d, changes), reason, now)) <==> EndsWell(Life(d.meterStart, changes))
  {
    ChangesAreLived(d, changes);
    LifeConservesIff(ChangedBy(d, changes), Life(d.meterStart, changes), reason, now);
  }

  /** The lives a run of commands leads, read off the commands: those still open by connector, those closed in order. */
  datatype Journal = Journal(open: map<int, Life>, closed: seq<Life>)

  function Noted(j: Journal, c: Command): Journal {
    match c
    case Create(connector, _, meterStart, _, _) =>
      if connector in j.open then j else j.(open := j.open[connector := Life(meterStart, [])])
    case ChangeActive(connector, change) =>
      if connector !in j.open then j else
      var life := j.open[connector];
      j.(open := j.open[connector := life.(changes := life.changes + [change])])
    case Stop(connector, _, _) =>
      if connector !in j.open then j
      else Journal(j.open - {connector}, j.closed + [j.open[connector]])
  }

  function JournalOf(commands: seq<Command>): Journal {
    if commands == [] then Journal(map[], []) else
    var n := |commands| - 1;
    Noted(JournalOf(commands[..n]), commands[n])
  }

  ghost predicate Tells(j: Journal, m: ManagerState) {
    j.open.Keys == m.active.Keys && (forall c :: c in m.active ==> Lived(m.active[c], j.open[c])) &&
    |j.closed| == |m.stops| && forall i :: 0 <= i < |m.stops| ==> (Conserves(m.stops[i]) <==> EndsWell(j.closed[i]))
  }

  lemma StepKeepsTelling(j: Journal, m: ManagerState, c: Command)
    requires Tells(j, m)
    ensures Tells(Noted(j, c), Step(m, c))
  {
    match c {
      case Create(connector, idTag, meterStart, reservation, now) =>
        ChangesAreLived(NewTransaction(m.nextId, connector, idTag, meterStart, now).(reservation := reservation), []);
        hide Lived;
      case ChangeActive(connector, change) =>
        if connector in m.active { ChangeIsLived(m.active[connector], j.open[connector], change); }
        hide Changed, Lived;
      case Stop(connector, reason, now) =>
        if connector in m.active { LifeConservesIff(m.active[connector], j.open[connector], reason, now); }
        hide StoppedData, Conserves, EndsWell, Lived;
    }
  }

  /** Over every run an archived record explains its energy if and only if its transaction's life ended well. */
  lemma {:induction false} RunConservesIff(commands: seq<Command>)
    ensures Tells(JournalOf(commands), Run(commands))
  {
    if commands != [] {
      var n := |commands| - 1;
      RunConservesIff(commands[..n]);
      StepKeepsTelling(JournalOf(commands[..n]), Run(commands[..n]), commands[n]);
    }
  }

  /** Both ways to end badly: a caller fails the transaction, so that no meter stop is ever recorded; or a caller stops
      it and the transaction goes on taking readings. */
  lemma EarlyEndsMisreport(connector: int, idTag: string, meterStart: int, reason: StopReason, now: int, v: MeterValue)
    requires v.energyWh != meterStart
    ensures var failed := RunOf(connector, idTag, meterStart, now, [FailIt(reason, now)], reason).stops;
            var stopped := RunOf(connector, idTag, meterStart, now, [StopIt(reason, now), ReadIt(v)], reason).stops;
            |failed| == 1 == |stopped| && failed[0].meterStop == None && stopped[0].meterStop == Some(meterStart) &&
            !Conserves(failed[0]) && !Conserves(stopped[0])
  {
    RunOfStops(connector, idTag, meterStart, now, [FailIt(reason, now)], reason);
    RunOfStops(connector, idTag, meterStart, now, [StopIt(reason, now), ReadIt(v)], reason);
    hide RunOf;
    var created := NewTransaction(1, connector, idTag, meterStart, now);
    assert [FailIt(reason, now)][..0] == [] && ChangedBy(created, []) == created;
    assert [StopIt(reason, now), ReadIt(v)][..1] == [StopIt(reason, now)] && [StopIt(reason, now)][..0] == [];
  }

  function Borrowings(connector: int, changes: seq<Change>): seq<Command> {
    seq(|changes|, i requires 0 <= i < |changes| => ChangeActive(connector, changes[i]))
  }

  /** A manager that creates one transaction, lets callers change it, and stops it. */
  function RunOf(connector: int, idTag: string, meterStart: int, now: int, changes: seq<Change>,
                 reason: StopReason): ManagerState {
    Run([Create(connector, idTag, meterStart, None, now)] + Borrowings(connector, changes) +
        [Stop(connector, reason, now)])
  }

  lemma {:induction false} ChangesWhileActive(connector: int, idTag: string, meterStart: int, now: int,
                                              changes: seq<Change>)
    ensures var m := Run([Create(connector, idTag, meterStart, None, now)] + Borrowings(connector, changes));
            m.stops == [] && connector in m.active &&
            m.active[connector] == ChangedBy(NewTransaction(1, connector, idTag, meterStart, now), changes)
  {
    var create := Create(connector, idTag, meterStart, None, now);
    if changes == [] {
      RunSnoc([], create);
      assert [] + [create] == [create] == [create] + Borrowings(connector, changes);
    } else {
      var n := |changes| - 1;
      ChangesWhileActive(connector, idTag, meterStart, now, changes[..n]);
      RunSnoc([create] + Borrowings(connector, changes[..n]), ChangeActive(connector, changes[n]));
      assert [create] + Borrowings(connector, changes[..n]) + [ChangeActive(connector, changes[n])] ==
             [create] + Borrowings(connector, changes);
      hide Changed, NewTransaction, Run;
    }
  }

  lemma RunOfStops(connector: int, idTag: string, meterStart: int, now: int, changes: seq<Change>, reason: StopReason)
    ensures RunOf(connector, idTag, meterStart, now, changes, reason).stops ==
            [StoppedData(ChangedBy(NewTransaction(1, connector, idTag, meterStart, now), changes), reason, now)]
  {
    ChangesWhileActive(connector, idTag, meterStart, now, changes);
    RunSnoc([Create(connector, idTag, meterStart, None, now)] + Borrowings(connector, changes),
            Stop(connector, reason, now));
    hide StoppedData, ChangedBy, NewTransaction, Run;
  }

  lemma RunSnoc(commands: seq<Command>, c: Command)
    ensures Run(commands + [c]) == Step(Run(commands), c)
    ensures Run([]) == IDLE
  {
    assert (commands + [c])[..|commands|] == commands;
  }

  /** A caller that leaves stopping to the manager. */
  predicate Orderly(c: Command) {
    c.ChangeActive? ==> !c.change.StopIt? && !c.change.FailIt?
  }

  /** In every run that stops transactions through the manager alone, each archived energy is meter stop
      minus meter start, and no archived transaction failed. */
  lemma {:induction false} OrderlyRunConserves(commands: seq<Command>)
    requires forall c :: c in commands ==> Orderly(c)
    ensures forall c :: c in Run(commands).active ==> !IsFinished(Run(commands).active[c])
    ensures forall i :: 0 <= i < |Run(commands).stops| ==>
              Conserves(Run(commands).stops[i]) && Run(commands).stops[i].state == Stopped
  {
    if commands != [] {
      var n := |commands| - 1;
      OrderlyRunConserves(commands[..n]);
      assert Orderly(commands[n]);
      var m := Run(commands[..n]);
      match commands[n] {
        case Create(connector, idTag, meterStart, reservation, now) =>
        case ChangeActive(connector, change) =>
          if connector in m.active { ChangeKeepsIdentity(m.active[connector], change); }
          hide Changed;
        case Stop(connector, reason, now) =>
          assert connector in m.active ==> Conserves(StoppedData(m.active[connector], reason, now));
          hide Conserves;
      }
    }
  }

  // ----- statistics -----

  function CountIn(ds: seq<TransactionData>, n: nat, state: TransactionState): nat
    requires n <= |ds|
  {
    if n == 0 then 0 else CountIn(ds, n - 1, state) + if ds[n - 1].state == state then 1 else 0
  }

  function EnergyIn(ds: seq<TransactionData>, n: nat): int
    requires n <= |ds|
  {
    if n == 0 then 0 else EnergyIn(ds, n - 1) + EnergyConsumed(ds[n - 1])
  }

  function MeteredIn(ds: seq<TransactionData>, n: nat): int
    requires n <= |ds|
  {
    if n == 0 then 0 else
    MeteredIn(ds, n - 1) + if ds[n - 1].meterStop.Some? then ds[n - 1].meterStop.value - ds[n - 1].meterStart else 0
  }

  lemma {:induction false} FinishedSplit(ds: seq<TransactionData>, n: nat)
    requires n <= |ds| && forall i :: 0 <= i < |ds| ==> IsFinished(ds[i])
    ensures CountIn(ds, n, Stopped) + CountIn(ds, n, Failed) == n
  {
    if n > 0 { FinishedSplit(ds, n - 1); }
  }

  lemma {:induction false} EnergyIsMetered(ds: seq<TransactionData>, n: nat)
    requires n <= |ds| && forall i :: 0 <= i < |ds| ==> Conserves(ds[i])
    ensures EnergyIn(ds, n) == MeteredIn(ds, n)
  {
    if n > 0 { EnergyIsMetered(ds, n - 1); }
  }

  datatype Statistics = Statistics(active: nat, total: nat, completed: nat, failed: nat, energyWh: int)

  function StatisticsOf(m: ManagerState): Statistics {
    var n := |m.history|;
    Statistics(|m.active|, n + |m.active|, CountIn(m.history, n, Stopped), CountIn(m.history, n, Failed),
               EnergyIn(m.history, n))
  }

  /** After any run every counted transaction is active, completed or failed; the total energy is the sum of meter stop
      minus meter start if every life ended well; and none failed if stops went through the manager alone. */
  lemma StatisticsAddUp(commands: seq<Command>)
    ensures var s := StatisticsOf(Run(commands)); s.completed + s.failed + s.active == s.total
    ensures (forall life :: life in JournalOf(commands).closed ==> EndsWell(life)) ==>
              StatisticsOf(Run(commands)).energyWh == MeteredIn(Run(commands).history, |Run(commands).history|)
    ensures (forall c :: c in commands ==> Orderly(c)) ==>
              StatisticsOf(Run(commands)).failed == 0 &&
              StatisticsOf(Run(commands)).energyWh == MeteredIn(Run(commands).history, |Run(commands).history|)
  {
    var m := Run(commands);
    RunIsAccounted(commands);
    FinishedSplit(m.history, |m.history|);
    if forall life :: life in JournalOf(commands).closed ==> EndsWell(life) {
      RunConservesIff(commands);
      hide Conserves, Run, EndsWell, JournalOf;
      EnergyIsMetered(m.history, |m.history|);
    }
    if forall c :: c in commands ==> Orderly(c) {
      OrderlyRunConserves(commands);
      hide Conserves, Run;
      EnergyIsMetered(m.history, |m.history|);
      NoneFailed(m.history, |m.history|);
    }
  }

  lemma {:induction false} NoneFailed(ds: seq<TransactionData>, n: nat)
    requires n <= |ds| && forall i :: 0 <= i < |ds| ==> ds[i].state == Stopped
    ensures CountIn(ds, n, Failed) == 0
  {
    if n > 0 { NoneFailed(ds, n - 1); }
  }

  class TransactionManager {
    var transactions: map<int, TransactionData>
    var history: seq<TransactionData>
    var nextTransactionId: int
    ghost var stops: seq<TransactionData>

    ghost function State(): ManagerState
      reads this
    {
      ManagerState(transactions, history, nextTransactionId, stops)
    }

    constructor ()
      ensures State() == IDLE
    {
      transactions, history, nextTransactionId, stops := map[], [], 1, [];
    }

    method CreateTransaction(connector: int, idTag: string, meterStart: int, reservation: Option<int>, now: int)
      returns (id: Option<int>)
      modifies this
      ensures State() == CreateIn(old(State()), connector, idTag, meterStart, reservation, now)
      ensures id == if connector in old(transactions) then None else Some(old(nextTransactionId))
    {
      if connector in transactions {
        return None;
      }
      id := Some(nextTransactionId);
      nextTransactionId := nextTransactionId + 1;
      var d := NewTransaction(id.value, connector, idTag, meterStart, now);
      transactions := transactions[connector := d.(reservation := reservation)];
    }

    /** A caller's use of the transaction it borrows. */
    method ChangeTransaction(connector: int, change: Change)
      modifies this
      ensures State() == ChangeIn(old(State()), connector, change)
    {
      if connector in transactions {
        var transaction := new Transaction(transactions[connector]);
        var ok;
        match change {
          case StartIt => ok := transaction.Start();
          case SuspendIt => ok := transaction.Suspend();
          case ResumeIt => ok := transaction.Resume();
          case ReadIt(v) => transaction.AddMeterValue(v);
          case StopIt(reason, now) => transaction.Stop(reason, now);
          case FailIt(reason, now) => transaction.Fail(reason, now);
        }
        transactions := transactions[connector := transaction.data];
      }
    }

    method StopTransaction(connector: int, reason: StopReason, now: int) returns (archived: Option<TransactionData>)
      modifies this
      ensures State() == StopIn(old(State()), connector, reason, now)
      ensures archived == if connector in old(transactions)
                          then Some(StoppedData(old(transactions)[connector], reason, now)) else None
    {
      if connector !in transactions {
        return None;
      }
      var transaction := new Transaction(transactions[connector]);
      transactions := transactions - {connector};
      transaction.Stop(reason, now);
      var data := transaction.data;
      if |history| >= MAX_HISTORY {
        history := history[1..];
      }
      history := history + [data];
      stops := stops + [data];
      return Some(data);
    }

    method Summarize() returns (s: Statistics)
      ensures s == StatisticsOf(State())
    {
      var completed, failed, energy := 0, 0, 0;
      for i := 0 to |history|
        invariant completed == CountIn(history, i, Stopped) && failed == CountIn(history, i, Failed)
        invariant energy == EnergyIn(history, i)
      {
        if history[i].state == Stopped { completed := completed + 1; }
        if history[i].state == Failed { failed := failed + 1; }
        energy := energy + EnergyConsumed(history[i]);
      }
      s := Statistics(|transactions|, |history| + |transactions|, completed, failed, energy);
    }
  }
}
