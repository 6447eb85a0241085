/** What one charging profile imposes at an instant, and at which instants that may change.
    The OCPP 1.6 and 2.0.1 resolvers evaluate a schedule in the same way; this module is the
    part they share. Instants are whole seconds, limits are reals. */
module Timetables {
  import opened Wrappers
  import opened Division

  datatype RateUnit = W | A

  datatype Kind = Absolute | Recurring | Relative

  datatype Recurrency = Daily | Weekly

  datatype Period = Period(startPeriod: int, limit: real, numberPhases: Option<int>)

  datatype Schedule = Schedule(
    duration: Option<int>,
    startSchedule: Option<int>,
    unit: RateUnit,
    periods: seq<Period>,
    minChargingRate: Option<real>)

  /** The part of a profile that says when its schedule applies. */
  datatype Timetable = Timetable(
    kind: Kind,
    recurrency: Option<Recurrency>,
    validFrom: Option<int>,
    validTo: Option<int>,
    schedule: Schedule)

  /** What a period imposes: two periods with the same level are indistinguishable to a consumer. */
  datatype Level = Level(limit: real, phases: Option<int>)

  function LevelOf(period: Option<Period>): Option<Level> {
    match period
    case None => None
    case Some(p) => Some(Level(p.limit, p.numberPhases))
  }

  // ----- choosing the period in force -----

  /** `chosen` is the last listed among the reached periods with the greatest start. */
  ghost predicate IsInForce(periods: seq<Period>, offset: int, chosen: Option<Period>) {
    match chosen
    case None => forall p :: p in periods ==> offset < p.startPeriod
    case Some(c) =>
      c.startPeriod <= offset &&
      exists i :: 0 <= i < |periods| && periods[i] == c && Outranks(periods, offset, i)
  }

  ghost predicate Outranks(periods: seq<Period>, offset: int, i: int)
    requires 0 <= i < |periods|
  {
    forall j :: 0 <= j < |periods| && periods[j].startPeriod <= offset ==>
      periods[j].startPeriod < periods[i].startPeriod ||
      (periods[j].startPeriod == periods[i].startPeriod && j <= i)
  }

  lemma InForceIsUnique(periods: seq<Period>, offset: int, a: Option<Period>, b: Option<Period>)
    requires IsInForce(periods, offset, a) && IsInForce(periods, offset, b)
    ensures a == b
  {
    if a.Some? && b.Some? {
      var i :| 0 <= i < |periods| && periods[i] == a.value && Outranks(periods, offset, i);
      var j :| 0 <= j < |periods| && periods[j] == b.value && Outranks(periods, offset, j);
      assert i == j;
    }
  }

  function PeriodInForce(periods: seq<Period>, offset: int): Option<Period> {
    if periods == [] then None else
    var n := |periods| - 1;
    var best := PeriodInForce(periods[..n], offset);
    if periods[n].startPeriod <= offset && (best.None? || best.value.startPeriod <= periods[n].startPeriod)
    then Some(periods[n])
    else best
  }

  lemma {:induction false} PeriodInForceIsInForce(periods: seq<Period>, offset: int)
    ensures IsInForce(periods, offset, PeriodInForce(periods, offset))
  {
    if periods != [] {
      var n := |periods| - 1;
      PeriodInForceIsInForce(periods[..n], offset);
      var best, chosen := PeriodInForce(periods[..n], offset), PeriodInForce(periods, offset);
      assert forall p :: p in periods <==> p in periods[..n] || p == periods[n];
      if chosen == Some(periods[n]) && periods[n].startPeriod <= offset &&
          (best.None? || best.value.startPeriod <= periods[n].startPeriod) {
        assert forall j :: 0 <= j < n ==> periods[j] in periods[..n];
        assert Outranks(periods, offset, n);
      } else if best.Some? {
        var i :| 0 <= i < n && periods[..n][i] == best.value && Outranks(periods[..n], offset, i);
        assert forall j :: 0 <= j < n ==> periods[..n][j] == periods[j];
        assert Outranks(periods, offset, i);
      }
    }
  }

  /** The 1.6 selection loop. */
  method ChoosePeriod(periods: seq<Period>, offset: int) returns (chosen: Option<Period>)
    ensures IsInForce(periods, offset, chosen)
    ensures chosen == PeriodInForce(periods, offset)
  {
    chosen := None;
    for i := 0 to |periods|
      invariant chosen == PeriodInForce(periods[..i], offset)
    {
      assert periods[..i + 1][..i] == periods[..i];
      if periods[i].startPeriod <= offset && (chosen.None? || periods[i].startPeriod >= chosen.value.startPeriod) {
        chosen := Some(periods[i]);
      }
    }
    assert periods[..|periods|] == periods;
    PeriodInForceIsInForce(periods, offset);
  }

  /** The 2.0.1 selection: keep the reached periods, then take the last with the greatest start. */
  function Reached(periods: seq<Period>, offset: int): seq<Period> {
    if periods == [] then []
    else if periods[0].startPeriod <= offset then [periods[0]] + Reached(periods[1..], offset)
    else Reached(periods[1..], offset)
  }

  function MaxByStart(periods: seq<Period>): Option<Period> {
    if periods == [] then None else
    var n := |periods| - 1;
    match MaxByStart(periods[..n])
    case None => Some(periods[n])
    case Some(best) => if best.startPeriod <= periods[n].startPeriod then Some(periods[n]) else Some(best)
  }

  lemma {:induction false} ReachedSnoc(periods: seq<Period>, p: Period, offset: int)
    ensures Reached(periods + [p], offset) ==
            Reached(periods, offset) + (if p.startPeriod <= offset then [p] else [])
  {
    if periods == [] {
      assert periods + [p] == [p];
    } else {
      ReachedSnoc(periods[1..], p, offset);
      assert (periods + [p])[1..] == periods[1..] + [p];
    }
  }

  /** Both protocol versions choose the same period. */
  lemma {:induction false} FilterMaxIsInForce(periods: seq<Period>, offset: int)
    ensures MaxByStart(Reached(periods, offset)) == PeriodInForce(periods, offset)
  {
    if periods != [] {
      var n := |periods| - 1;
      FilterMaxIsInForce(periods[..n], offset);
      ReachedSnoc(periods[..n], periods[n], offset);
      assert periods[..n] + [periods[n]] == periods;
      var kept := Reached(periods[..n], offset);
      assert kept + [] == kept;
      assert (kept + [periods[n]])[..|kept|] == kept;
    }
  }

  /** The choice can only move at an offset where some period starts. */
  lemma {:induction false} InForceIsStable(periods: seq<Period>, offset: int)
    requires !StartsAt(periods, offset)
    ensures PeriodInForce(periods, offset) == PeriodInForce(periods, offset - 1)
  {
    if periods != [] {
      var n := |periods| - 1;
      assert periods[n] in periods;
      assert forall p :: p in periods[..n] ==> p in periods;
      InForceIsStable(periods[..n], offset);
    }
  }

  predicate StartsAt(periods: seq<Period>, offset: int) {
    exists p :: p in periods && p.startPeriod == offset
  }

  // ----- evaluating a timetable at an instant -----

  /** The instant the schedule is anchored to. */
  function Anchor(tt: Timetable, origin: int): int {
    match tt.kind
    case Relative => origin
    case Absolute | Recurring =>
      match tt.schedule.startSchedule
      case Some(s) => s
      case None => origin
  }

  const DAY := 86_400
  const WEEK := 604_800

  function RecurrencePeriod(tt: Timetable): (r: Option<int>)
    ensures r.Some? ==> r.value > 0
  {
    if tt.kind != Recurring then None else
    match tt.recurrency
    case Some(Daily) => Some(DAY)
    case Some(Weekly) => Some(WEEK)
    case None => None
  }

  /** The period a schedule has in force `offset` seconds into one of its occurrences. */
  function AtPosition(s: Schedule, offset: int): Option<Period> {
    if s.duration.Some? && offset >= s.duration.value then None
    else PeriodInForce(s.periods, offset)
  }

  predicate ValidAt(tt: Timetable, at: int) {
    (tt.validFrom.Some? ==> tt.validFrom.value <= at) &&
    (tt.validTo.Some? ==> at <= tt.validTo.value)
  }

  /** The period a profile has in force at instant `at`; `origin` anchors schedules that carry no start. */
  function ActiveAt(tt: Timetable, at: int, origin: int): Option<Period> {
    if !ValidAt(tt, at) then None else
    var raw := at - Anchor(tt, origin);
    match RecurrencePeriod(tt)
    case Some(period) => AtPosition(tt.schedule, raw % period)
    case None => if raw < 0 then None else AtPosition(tt.schedule, raw)
  }

  /** What a profile imposes at second `t` of a window that starts at `origin`. */
  function LevelAt(tt: Timetable, origin: int, t: int): Option<Level> {
    LevelOf(ActiveAt(tt, origin + t, origin))
  }

  lemma PositionIsStable(s: Schedule, offset: int)
    requires !StartsAt(s.periods, offset) && s.duration != Some(offset)
    ensures AtPosition(s, offset) == AtPosition(s, offset - 1)
  {
    InForceIsStable(s.periods, offset);
  }

  // ----- the evaluation, told from the calendar -----

  ghost predicate WithinValidity(tt: Timetable, at: int) {
    (tt.validFrom == None || tt.validFrom.value <= at) && (tt.validTo == None || at <= tt.validTo.value)
  }

  /** Where the first occurrence starts: a start of the schedule's own counts, unless the profile is relative. */
  ghost predicate StartsFrom(tt: Timetable, origin: int, start: int) {
    if tt.kind != Relative && tt.schedule.startSchedule.Some? then tt.schedule.startSchedule == Some(start)
    else start == origin
  }

  ghost predicate Repeats(tt: Timetable) {
    tt.kind == Recurring && tt.recurrency.Some?
  }

  /** Instant `at` is `x` seconds into an occurrence: the `k`-th day or week of a recurring schedule, the only
      occurrence of any other. */
  ghost predicate StandsAt(tt: Timetable, at: int, start: int, k: int, x: int) {
    0 <= x &&
    if Repeats(tt) && tt.recurrency.value == Daily then x < 86_400 && at == start + k * 86_400 + x
    else if Repeats(tt) then x < 604_800 && at == start + k * 604_800 + x
    else at == start + x
  }

  /** What a schedule imposes `x` seconds into an occurrence. */
  ghost predicate IsImposed(s: Schedule, x: int, chosen: Option<Period>) {
    if s.duration.Some? && s.duration.value <= x then chosen == None else IsInForce(s.periods, x, chosen)
  }

  /** Inside its validity a timetable has in force what its schedule imposes at the position reached. */
  lemma ActiveWhereItStands(tt: Timetable, at: int, origin: int, start: int, k: int, x: int)
    requires WithinValidity(tt, at) && StartsFrom(tt, origin, start) && StandsAt(tt, at, start, k, x)
    ensures IsImposed(tt.schedule, x, ActiveAt(tt, at, origin))
  {
    hide IsInForce, PeriodInForce;
    if Repeats(tt) { DivModUnique(at - start, k, x, if tt.recurrency.value == Daily then 86_400 else 604_800); }
    PeriodInForceIsInForce(tt.schedule.periods, x);
  }

  /** Nothing is in force outside the validity, nor before the start of a schedule that runs once. */
  lemma InactiveElsewhere(tt: Timetable, at: int, origin: int, start: int)
    requires StartsFrom(tt, origin, start)
    requires !WithinValidity(tt, at) || (!Repeats(tt) && at < start)
    ensures ActiveAt(tt, at, origin) == None
  {
  }

  /** These are all the cases. */
  lemma StandsSomewhere(tt: Timetable, at: int, start: int) returns (k: int, x: int)
    requires Repeats(tt) || start <= at
    ensures StandsAt(tt, at, start, k, x)
  {
    var period := if Repeats(tt) && tt.recurrency.value == Daily then 86_400 else 604_800;
    DivMod(at - start, period);
    k, x := (at - start) / period, if Repeats(tt) then (at - start) % period else at - start;
  }

  lemma ActivePeriodIsListed(tt: Timetable, at: int, origin: int)
    ensures ActiveAt(tt, at, origin).Some? ==> ActiveAt(tt, at, origin).value in tt.schedule.periods
  {
    var raw := at - Anchor(tt, origin);
    match RecurrencePeriod(tt) {
      case Some(period) => PeriodInForceIsInForce(tt.schedule.periods, raw % period);
      case None => PeriodInForceIsInForce(tt.schedule.periods, raw);
    }
  }
}
