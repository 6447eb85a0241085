/** OCPP 2.0.1 charging limits (Part 2, section K, use case K01): the metering resolver, and the composite
    schedule of a base profile capped by station ceilings. */
module Composite201 {
  import opened Wrappers
  import opened Timetables
  import opened Breakpoints
  import opened Walk

  datatype Purpose = ChargingStationExternalConstraints | ChargingStationMaxProfile | TxDefaultProfile | TxProfile

  /** Only the first listed schedule is honoured. */
  datatype Profile = Profile(
    id: int,
    stackLevel: int,
    purpose: Purpose,
    kind: Kind,
    recurrency: Option<Recurrency>,
    validFrom: Option<int>,
    validTo: Option<int>,
    schedules: seq<Schedule>)

  const NO_SCHEDULE := Schedule(None, None, W, [], None)

  /** The timetable of a profile's first schedule; a profile without one has nothing to apply. */
  function TableOf(p: Profile): Timetable {
    Timetable(p.kind, p.recurrency, p.validFrom, p.validTo, if p.schedules == [] then NO_SCHEDULE else p.schedules[0])
  }

  // ----- the resolver -----

  function ResolveActive(p: Profile, elapsed: int, txStart: int): Option<(Schedule, Period)> {
    var now := txStart + elapsed;
    if p.validFrom.Some? && now < p.validFrom.value then None
    else if p.validTo.Some? && now > p.validTo.value then None
    else if p.schedules == [] then None
    else
      var s := p.schedules[0];
      var raw := now - Anchor(TableOf(p), txStart);
      var recurrence := RecurrencePeriod(TableOf(p));
      if recurrence.None? && raw < 0 then None else
      var offset := if recurrence.Some? then raw % recurrence.value else raw;
      if s.duration.Some? && offset >= s.duration.value then None else
      match MaxByStart(Reached(s.periods, offset))
      case None => None
      case Some(period) => Some((s, period))
  }

  /** The resolver finds the period the shared timetable has in force. */
  lemma ResolverFollowsTimetable(p: Profile, elapsed: int, txStart: int)
    ensures var active := ActiveAt(TableOf(p), txStart + elapsed, txStart);
            ResolveActive(p, elapsed, txStart) ==
            if active.None? then None else Some((TableOf(p).schedule, active.value))
  {
    var tt := TableOf(p);
    var raw := txStart + elapsed - Anchor(tt, txStart);
    match RecurrencePeriod(tt) {
      case Some(period) => FilterMaxIsInForce(tt.schedule.periods, raw % period);
      case None => FilterMaxIsInForce(tt.schedule.periods, raw);
    }
  }

  /** The resolver finds what the first schedule imposes at the position reached on the calendar, and nothing outside
      the profile's validity, before a start that comes once, or without a schedule. */
  lemma ResolvedOnCalendar(p: Profile, elapsed: int, txStart: int, start: int, k: int, x: int)
    ensures p.schedules == [] ==> ResolveActive(p, elapsed, txStart) == None
    ensures p.schedules != [] ==>
              var s := p.schedules[0];
              var tt, now := Timetable(p.kind, p.recurrency, p.validFrom, p.validTo, s), txStart + elapsed;
              StartsFrom(tt, txStart, start) ==>
                (WithinValidity(tt, now) && StandsAt(tt, now, start, k, x) ==>
                   IsResolved(s, x, ResolveActive(p, elapsed, txStart))) &&
                (!WithinValidity(tt, now) || (!Repeats(tt) && now < start) ==>
                 ResolveActive(p, elapsed, txStart) == None)
  {
    ResolverFollowsTimetable(p, elapsed, txStart);
    NothingToResolve(p, elapsed, txStart);
    hide ResolveActive, ActiveAt, IsImposed;
    if p.schedules != [] {
      var tt, now := TableOf(p), txStart + elapsed;
      if StartsFrom(tt, txStart, start) {
        if WithinValidity(tt, now) && StandsAt(tt, now, start, k, x) {
          ActiveWhereItStands(tt, now, txStart, start, k, x);
          assert IsImposed(tt.schedule, x, ActiveAt(tt, now, txStart));
        }
        if !WithinValidity(tt, now) || (!Repeats(tt) && now < start) { InactiveElsewhere(tt, now, txStart, start); }
      }
    }
  }

  lemma NothingToResolve(p: Profile, elapsed: int, txStart: int)
    ensures p.schedules == [] ==> ResolveActive(p, elapsed, txStart) == None
  {
  }

  /** What the resolver answers `x` seconds into an occurrence. */
  ghost predicate IsResolved(s: Schedule, x: int, r: Option<(Schedule, Period)>) {
    exists chosen :: IsImposed(s, x, chosen) && r == if chosen.None? then None else Some((s, chosen.value))
  }

  /** The limit lifted to the schedule's minimum charging rate, never lowered. */
  function FlooredLimit(s: Schedule, period: Period): (limit: real)
    ensures period.limit <= limit && (s.minChargingRate.Some? ==> s.minChargingRate.value <= limit)
    ensures limit == period.limit || s.minChargingRate == Some(limit)
  {
    match s.minChargingRate
    case Some(floor) => if period.limit < floor then floor else period.limit
    case None => period.limit
  }

  /** Absent counts as three phases; any other value is clamped into 1..3. */
  function EffectivePhases(phases: Option<int>): (n: int)
    ensures 1 <= n <= 3
    ensures phases == None ==> n == 3
    ensures phases.Some? && 1 <= phases.value <= 3 ==> n == phases.value
    ensures phases.Some? && phases.value < 1 ==> n == 1
    ensures phases.Some? && phases.value > 3 ==> n == 3
  {
    var raw := if phases.Some? then phases.value else 3;
    if raw < 1 then 1 else if raw > 3 then 3 else raw
  }

  function ActiveLimitW(p: Profile, elapsed: int, txStart: int, voltage: real): Option<real> {
    match ResolveActive(p, elapsed, txStart)
    case None => None
    case Some((s, period)) =>
      var limit := FlooredLimit(s, period);
      match s.unit
      case W => Some(limit)
      case A => Some(AmperesToWatts(limit, voltage, EffectivePhases(period.numberPhases)))
  }

  function AmperesToWatts(amperes: real, voltage: real, phases: int): real {
    amperes * voltage * phases as real
  }

  function BoundedPowerW(p: Profile, elapsed: int, txStart: int, natural: real, voltage: real): Option<real> {
    match ActiveLimitW(p, elapsed, txStart, voltage)
    case None => None
    case Some(w) => if w < natural then Some(w) else None
  }

  function Min(a: real, b: real): real { if b < a then b else a }

  /** The tightest of the limits the first `n` profiles impose. */
  function TightestW(profiles: seq<Profile>, n: nat, elapsed: int, txStart: int, voltage: real): Option<real>
    requires n <= |profiles|
  {
    if n == 0 then None else
    match (TightestW(profiles, n - 1, elapsed, txStart, voltage),
           ActiveLimitW(profiles[n - 1], elapsed, txStart, voltage))
    case (None, last) => last
    case (rest, None) => rest
    case (Some(a), Some(b)) => Some(Min(a, b))
  }

  ghost predicate IsTightest(profiles: seq<Profile>, elapsed: int, txStart: int, voltage: real, w: Option<real>) {
    (forall p :: p in profiles && ActiveLimitW(p, elapsed, txStart, voltage).Some? ==>
      w.Some? && w.value <= ActiveLimitW(p, elapsed, txStart, voltage).value) &&
    (w.Some? ==> exists p :: p in profiles && ActiveLimitW(p, elapsed, txStart, voltage) == w)
  }

  /** `TightestW` is the least of the limits in force, so the order of the profiles is irrelevant to it. */
  lemma {:induction false} TightestIsLeast(profiles: seq<Profile>, n: nat, elapsed: int, txStart: int, voltage: real)
    requires n <= |profiles|
    ensures IsTightest(profiles[..n], elapsed, txStart, voltage, TightestW(profiles, n, elapsed, txStart, voltage))
  {
    hide ActiveLimitW;
    if n > 0 {
      TightestIsLeast(profiles, n - 1, elapsed, txStart, voltage);
      assert forall p :: p in profiles[..n] <==> p in profiles[..n - 1] || p == profiles[n - 1];
    }
  }

  /** The metering resolver: the natural rate lowered by every limit in force. */
  method BoundedPowerWCapped(effective: Option<Profile>, ceilings: seq<Profile>, elapsed: int, txStart: int,
                             natural: real, voltage: real) returns (bound: Option<real>)
    ensures var all := (if effective.Some? then [effective.value] else []) + ceilings;
            bound == Bind(TightestW(all, |all|, elapsed, txStart, voltage), natural)
    ensures var all := (if effective.Some? then [effective.value] else []) + ceilings;
            match bound
            case Some(w) => w < natural && IsTightest(all, elapsed, txStart, voltage, bound)
            case None => forall p :: p in all && ActiveLimitW(p, elapsed, txStart, voltage).Some? ==>
                           natural <= ActiveLimitW(p, elapsed, txStart, voltage).value
  {
    hide ActiveLimitW;
    var all := (if effective.Some? then [effective.value] else []) + ceilings;
    var limit := natural;
    for i := 0 to |all|
      invariant limit == match TightestW(all, i, elapsed, txStart, voltage)
                         case None => natural
                         case Some(w) => Min(natural, w)
    {
      match ActiveLimitW(all[i], elapsed, txStart, voltage) {
        case None =>
        case Some(w) => limit := Min(limit, w);
      }
    }
    bound := if limit < natural then Some(limit) else None;
    TightestIsLeast(all, |all|, elapsed, txStart, voltage);
    assert all[..|all|] == all;
  }

  /** A limit binds only below the natural rate. */
  function Bind(limit: Option<real>, natural: real): Option<real> {
    if limit.Some? && limit.value < natural then limit else None
  }

  // ----- the composite -----

  function ConvertRate(limit: real, from: RateUnit, to: RateUnit, phases: int, voltage: real): real {
    match (from, to)
    case (A, A) => limit
    case (W, W) => limit
    case (A, W) => AmperesToWatts(limit, voltage, phases)
    case (W, A) =>
      var denominator := voltage * phases as real;
      if denominator == 0.0 then limit else limit / denominator
  }

  function ContributionAt(p: Profile, offset: int, windowStart: int, unit: RateUnit, voltage: real): Option<Level> {
    match ResolveActive(p, offset, windowStart)
    case None => None
    case Some((s, period)) =>
      Some(Level(ConvertRate(FlooredLimit(s, period), s.unit, unit, EffectivePhases(period.numberPhases), voltage),
                 period.numberPhases))
  }

  /** `limit` lowered by those of the first `n` ceilings that are in force. */
  function Capped(limit: real, ceilings: seq<Profile>, n: nat, offset: int, windowStart: int, unit: RateUnit,
                  voltage: real): real
    requires n <= |ceilings|
  {
    if n == 0 then limit else
    var rest := Capped(limit, ceilings, n - 1, offset, windowStart, unit, voltage);
    match ContributionAt(ceilings[n - 1], offset, windowStart, unit, voltage)
    case None => rest
    case Some(l) => Min(rest, l.limit)
  }

  /** A ceiling lowers the limit the base imposes; it never imposes one by itself, nor changes the phases. */
  function CappedAt(base: Profile, ceilings: seq<Profile>, windowStart: int, t: int, unit: RateUnit,
                    voltage: real): Option<Level> {
    match ContributionAt(base, t, windowStart, unit, voltage)
    case None => None
    case Some(l) => Some(Level(Capped(l.limit, ceilings, |ceilings|, t, windowStart, unit, voltage), l.phases))
  }

  function LevelsOf(base: Profile, ceilings: seq<Profile>, windowStart: int, duration: nat, unit: RateUnit,
                    voltage: real): Levels {
    seq(duration, t => CappedAt(base, ceilings, windowStart, t, unit, voltage))
  }

  function TablesOf(profiles: seq<Profile>): (tts: seq<Timetable>)
    ensures |tts| == |profiles|
    ensures forall i :: 0 <= i < |tts| ==> tts[i] == TableOf(profiles[i])
  {
    seq(|profiles|, i requires 0 <= i < |profiles| => TableOf(profiles[i]))
  }

  function OffsetsOf(base: Profile, ceilings: seq<Profile>, windowStart: int, duration: int): seq<int> {
    AllOffsets(TablesOf([base] + ceilings), windowStart, duration)
  }

  datatype CompositeSchedule = CompositeSchedule(evseId: int, duration: int, scheduleStart: int, unit: RateUnit,
                                                 periods: seq<Period>)

  function OutputUnit(base: Profile, requested: Option<RateUnit>): RateUnit {
    if requested.Some? then requested.value else TableOf(base).schedule.unit
  }

  function ScheduleFrom(evseId: int, periods: seq<Period>, windowStart: int, duration: int,
                        unit: RateUnit): Option<CompositeSchedule> {
    if periods == [] then None else Some(CompositeSchedule(evseId, duration, windowStart, unit, periods))
  }

  /** What the sparse walk reports. */
  function Compose(evseId: int, base: Profile, ceilings: seq<Profile>, windowStart: int, duration: int,
                   requested: Option<RateUnit>, voltage: real, eps: real): Option<CompositeSchedule>
  {
    if duration <= 0 then None else
    var unit := OutputUnit(base, requested);
    AllOffsetsInWindow(TablesOf([base] + ceilings), windowStart, duration);
    ScheduleFrom(evseId, Sparse(LevelsOf(base, ceilings, windowStart, duration, unit, voltage), eps,
                                OffsetsOf(base, ceilings, windowStart, duration)), windowStart, duration, unit)
  }

  /** The reference: what a look at every second of the window reports. */
  function PerSecondCompose(evseId: int, base: Profile, ceilings: seq<Profile>, windowStart: int, duration: int,
                            requested: Option<RateUnit>, voltage: real, eps: real): Option<CompositeSchedule>
  {
    if duration <= 0 then None else
    var unit := OutputUnit(base, requested);
    ScheduleFrom(evseId, Scan(LevelsOf(base, ceilings, windowStart, duration, unit, voltage), eps), windowStart,
                 duration, unit)
  }

  /** What a schedule contributes just before and at the start of its occurrences. */
  function AroundStart(p: Profile, unit: RateUnit, voltage: real): (Option<Level>, Option<Level>) {
    var s := TableOf(p).schedule;
    (Converted(s, BeforeStart(TableOf(p)), unit, voltage), Converted(s, AtStart(TableOf(p)), unit, voltage))
  }

  predicate CapsAlikeAroundStart(p: Profile, unit: RateUnit, voltage: real) {
    LimitOf(AroundStart(p, unit, voltage).0) == LimitOf(AroundStart(p, unit, voltage).1)
  }

  /** A ceiling whose occurrence starts are breakpoints, or that caps alike on both sides of them. */
  predicate CapCovered(p: Profile, duration: int, unit: RateUnit, voltage: real) {
    Covered(TableOf(p), duration) || CapsAlikeAroundStart(p, unit, voltage)
  }

  /** A base whose occurrence starts are breakpoints, or that contributes alike on both sides of them. */
  predicate BaseCovered(p: Profile, duration: int, unit: RateUnit, voltage: real) {
    Covered(TableOf(p), duration) || AroundStart(p, unit, voltage).0 == AroundStart(p, unit, voltage).1
  }

  /** The breakpoints of the base and of every ceiling are enough. */
  ghost predicate AllCovered(base: Profile, ceilings: seq<Profile>, duration: int, unit: RateUnit, voltage: real) {
    BaseCovered(base, duration, unit, voltage) && forall c :: c in ceilings ==> CapCovered(c, duration, unit, voltage)
  }

  /** The converted level of a period, a function of what the timetable says and of the schedule's constants. */
  function Converted(s: Schedule, level: Option<Level>, unit: RateUnit, voltage: real): Option<Level> {
    match level
    case None => None
    case Some(l) =>
      Some(Level(ConvertRate(FlooredLimit(s, Period(0, l.limit, l.phases)), s.unit, unit, EffectivePhases(l.phases),
                             voltage), l.phases))
  }

  method CompositeBoundaryOffsets(p: Profile, windowStart: int, duration: nat) returns (offsets: seq<int>)
    ensures StrictlyIncreasing(offsets)
    ensures forall t :: t in offsets <==> t == 0 || t in Marks(TableOf(p), windowStart, duration)
  {
    hide Marks;
    offsets := PushMarks([0], TableOf(p), windowStart, duration);
    offsets := SortDedup(offsets);
  }

  /** What a report says of itself: its own unit is the one requested, or else that of the base's first schedule. */
  lemma ReportedFields(evseId: int, base: Profile, ceilings: seq<Profile>, windowStart: int, duration: int,
                       requested: Option<RateUnit>, voltage: real, eps: real)
    requires Compose(evseId, base, ceilings, windowStart, duration, requested, voltage, eps).Some?
    ensures var report := Compose(evseId, base, ceilings, windowStart, duration, requested, voltage, eps).value;
            report.evseId == evseId && report.scheduleStart == windowStart && report.duration == duration &&
            report.periods != [] && base.schedules != [] &&
            report.unit == if requested.Some? then requested.value else base.schedules[0].unit
  {
    hide AllOffsets, SparseTo;
    if base.schedules == [] { NothingToReport(base, ceilings, windowStart, duration, OutputUnit(base, requested),
                                              voltage, eps); }
  }

  lemma NothingToReport(base: Profile, ceilings: seq<Profile>, windowStart: int, duration: nat, unit: RateUnit,
                        voltage: real, eps: real)
    requires base.schedules == [] && 0 < duration
    ensures var levels, offsets := LevelsOf(base, ceilings, windowStart, duration, unit, voltage),
                                   OffsetsOf(base, ceilings, windowStart, duration);
            InRange(offsets, levels) && Sparse(levels, eps, offsets) == []
  {
    hide AllOffsets, SparseTo, Capped;
    AllOffsetsInWindow(TablesOf([base] + ceilings), windowStart, duration);
    SparseToIsEmptyIff(LevelsOf(base, ceilings, windowStart, duration, unit, voltage), eps,
                       OffsetsOf(base, ceilings, windowStart, duration),
                           |OffsetsOf(base, ceilings, windowStart, duration)|);
  }

  /** The union of the base's and every ceiling's breakpoints. */
  method UnionOffsets(base: Profile, ceilings: seq<Profile>, windowStart: int, duration: nat)
      returns (offsets: seq<int>)
    ensures offsets == OffsetsOf(base, ceilings, windowStart, duration)
  {
    hide Marks;
    ghost var tts := TablesOf([base] + ceilings);
    offsets := CompositeBoundaryOffsets(base, windowStart, duration);
    assert tts[0] == TableOf(base);
    for i := 0 to |ceilings|
      invariant forall t :: t in offsets <==> t == 0 || exists j ::
                0 <= j <= i && t in Marks(tts[j], windowStart, duration)
    {
      var more := CompositeBoundaryOffsets(ceilings[i], windowStart, duration);
      assert tts[i + 1] == TableOf(ceilings[i]);
      offsets := offsets + more;
    }
    offsets := SortDedup(offsets);
    AllOffsetsAre(tts, windowStart, duration);
    IncreasingIsUnique(offsets, OffsetsOf(base, ceilings, windowStart, duration));
  }

  method ComposeCompositeScheduleCapped(evseId: int, base: Profile, ceilings: seq<Profile>, windowStart: int,
                                        duration: int,
                                        requested: Option<RateUnit>, voltage: real, eps: real)
    returns (schedule: Option<CompositeSchedule>)
    requires eps > 0.0
    ensures schedule == Compose(evseId, base, ceilings, windowStart, duration, requested, voltage, eps)
    ensures AllCovered(base, ceilings, duration, OutputUnit(base, requested), voltage) ==>
              schedule == PerSecondCompose(evseId, base, ceilings, windowStart, duration, requested, voltage, eps)
  {
    if AllCovered(base, ceilings, duration, OutputUnit(base, requested), voltage) {
      ComposeLosesNothing(evseId, base, ceilings, windowStart, duration, requested, voltage, eps);
    }
    if duration <= 0 {
      return None;
    }
    var unit := OutputUnit(base, requested);
    var offsets := UnionOffsets(base, ceilings, windowStart, duration);
    AllOffsetsInWindow(TablesOf([base] + ceilings), windowStart, duration);
    var periods := WalkOffsets(base, ceilings, windowStart, duration, unit, voltage, offsets, eps);
    if periods == [] {
      return None;
    }
    return Some(CompositeSchedule(evseId, duration, windowStart, unit, periods));
  }

  /** The coalescing loop of the composite. */
  method WalkOffsets(base: Profile, ceilings: seq<Profile>, windowStart: int, duration: nat, unit: RateUnit,
                     voltage: real,
                     offsets: seq<int>, eps: real) returns (periods: seq<Period>)
    requires InRange(offsets, LevelsOf(base, ceilings, windowStart, duration, unit, voltage))
    ensures periods == Sparse(LevelsOf(base, ceilings, windowStart, duration, unit, voltage), eps, offsets)
  {
    hide ContributionAt, Unchanged;
    ghost var levels := LevelsOf(base, ceilings, windowStart, duration, unit, voltage);
    var prev: Option<Level> := None;
    periods := [];
    for i := 0 to |offsets|
      invariant periods == SparseTo(levels, eps, offsets, i)
      invariant prev == if i == 0 then None else levels[offsets[i - 1]]
    {
      var current := ComputeCappedAt(base, ceilings, windowStart, offsets[i], unit, voltage);
      assert current == levels[offsets[i]];
      if current.Some? && !Unchanged(prev, current.value, eps) {
        periods := periods + [Period(offsets[i], current.value.limit, current.value.phases)];
      }
      prev := current;
    }
  }

  method ComputeCappedAt(base: Profile, ceilings: seq<Profile>, windowStart: int, t: int, unit: RateUnit, voltage: real)
    returns (current: Option<Level>)
    ensures current == CappedAt(base, ceilings, windowStart, t, unit, voltage)
  {
    hide ContributionAt;
    current := ContributionAt(base, t, windowStart, unit, voltage);
    if current.Some? {
      var limit := current.value.limit;
      for i := 0 to |ceilings|
        invariant limit == Capped(current.value.limit, ceilings, i, t, windowStart, unit, voltage)
      {
        match ContributionAt(ceilings[i], t, windowStart, unit, voltage) {
          case None =>
          case Some(l) => limit := Min(limit, l.limit);
        }
      }
      current := Some(Level(limit, current.value.phases));
    }
  }

  // ----- nothing is lost between breakpoints -----

  lemma ContributionIsConverted(p: Profile, t: int, windowStart: int, unit: RateUnit, voltage: real)
    ensures ContributionAt(p, t, windowStart, unit, voltage) ==
            Converted(TableOf(p).schedule, LevelAt(TableOf(p), windowStart, t), unit, voltage)
  {
    ResolverFollowsTimetable(p, t, windowStart);
    hide ResolveActive, ActiveAt, ConvertRate, EffectivePhases;
  }

  lemma {:induction false} CappedIsStable(limit: real, ceilings: seq<Profile>, n: nat, windowStart: int, t: int,
                                          unit: RateUnit, voltage: real)
    requires n <= |ceilings|
    requires forall i :: 0 <= i < n ==>
      LimitOf(ContributionAt(ceilings[i], t, windowStart, unit, voltage)) ==
      LimitOf(ContributionAt(ceilings[i], t - 1, windowStart, unit, voltage))
    ensures Capped(limit, ceilings, n, t, windowStart, unit, voltage) ==
            Capped(limit, ceilings, n, t - 1, windowStart, unit, voltage)
  {
    hide ContributionAt;
    if n > 0 { CappedIsStable(limit, ceilings, n - 1, windowStart, t, unit, voltage); }
  }

  lemma UnmarkedCapsAlike(c: Profile, windowStart: int, duration: int, unit: RateUnit, voltage: real, t: int)
    requires CapCovered(c, duration, unit, voltage)
    requires 0 < t < duration && t !in Marks(TableOf(c), windowStart, duration)
    ensures LimitOf(ContributionAt(c, t, windowStart, unit, voltage)) ==
            LimitOf(ContributionAt(c, t - 1, windowStart, unit, voltage))
  {
    ContributionIsConverted(c, t, windowStart, unit, voltage);
    ContributionIsConverted(c, t - 1, windowStart, unit, voltage);
    if LevelAt(TableOf(c), windowStart, t) != LevelAt(TableOf(c), windowStart, t - 1) {
      UnmarkedIsAStart(TableOf(c), windowStart, duration, t);
    }
    hide Marks, ContributionAt, Converted, LevelAt;
  }

  lemma UnmarkedContributesAlike(base: Profile, windowStart: int, duration: int, unit: RateUnit, voltage: real, t: int)
    requires BaseCovered(base, duration, unit, voltage)
    requires 0 < t < duration && t !in Marks(TableOf(base), windowStart, duration)
    ensures ContributionAt(base, t, windowStart, unit, voltage) ==
            ContributionAt(base, t - 1, windowStart, unit, voltage)
  {
    ContributionIsConverted(base, t, windowStart, unit, voltage);
    ContributionIsConverted(base, t - 1, windowStart, unit, voltage);
    if LevelAt(TableOf(base), windowStart, t) != LevelAt(TableOf(base), windowStart, t - 1) {
      UnmarkedIsAStart(TableOf(base), windowStart, duration, t);
    }
    hide Marks, ContributionAt, Converted, LevelAt;
  }

  lemma UnlistedIsUnmarked(base: Profile, ceilings: seq<Profile>, windowStart: int, duration: int, t: int)
    requires t !in OffsetsOf(base, ceilings, windowStart, duration)
    ensures forall p :: p in [base] + ceilings ==> t !in Marks(TableOf(p), windowStart, duration)
  {
    hide Marks;
    var all := [base] + ceilings;
    AllOffsetsAre(TablesOf(all), windowStart, duration);
    forall p | p in all ensures t !in Marks(TableOf(p), windowStart, duration) {
      var i :| 0 <= i < |all| && all[i] == p;
      assert TablesOf(all)[i] in TablesOf(all);
    }
  }

  lemma UnlistedSecondIsStable(base: Profile, ceilings: seq<Profile>, windowStart: int, duration: nat, unit: RateUnit,
                               voltage: real, t: int)
    requires AllCovered(base, ceilings, duration, unit, voltage)
    requires 0 < t < duration && t !in OffsetsOf(base, ceilings, windowStart, duration)
    ensures CappedAt(base, ceilings, windowStart, t, unit, voltage) ==
            CappedAt(base, ceilings, windowStart, t - 1, unit, voltage)
  {
    UnlistedIsUnmarked(base, ceilings, windowStart, duration, t);
    hide AllOffsets, ContributionAt, CapCovered, BaseCovered, Marks;
    assert base in [base] + ceilings && forall c :: c in ceilings ==> c in [base] + ceilings;
    UnmarkedContributesAlike(base, windowStart, duration, unit, voltage, t);
    forall i | 0 <= i < |ceilings|
      ensures LimitOf(ContributionAt(ceilings[i], t, windowStart, unit, voltage)) ==
              LimitOf(ContributionAt(ceilings[i], t - 1, windowStart, unit, voltage))
    {
      UnmarkedCapsAlike(ceilings[i], windowStart, duration, unit, voltage, t);
    }
    match ContributionAt(base, t, windowStart, unit, voltage) {
      case None =>
      case Some(l) => CappedIsStable(l.limit, ceilings, |ceilings|, windowStart, t, unit, voltage);
    }
  }

  lemma LevelsAreComplete(base: Profile, ceilings: seq<Profile>, windowStart: int, duration: nat, unit: RateUnit,
                          voltage: real)
    requires AllCovered(base, ceilings, duration, unit, voltage)
    ensures Complete(LevelsOf(base, ceilings, windowStart, duration, unit, voltage),
                     OffsetsOf(base, ceilings, windowStart, duration))
  {
    hide CappedAt, AllOffsets, AllCovered;
    var levels := LevelsOf(base, ceilings, windowStart, duration, unit, voltage);
    var offsets := OffsetsOf(base, ceilings, windowStart, duration);
    forall t | 0 < t < duration && levels[t] != levels[t - 1] ensures t in offsets {
      if t !in offsets { UnlistedSecondIsStable(base, ceilings, windowStart, duration, unit, voltage, t); }
    }
  }

  /** The sparse composite is the second-by-second composite of the capped limit. */
  lemma ComposeLosesNothing(evseId: int, base: Profile, ceilings: seq<Profile>, windowStart: int, duration: int,
                            requested: Option<RateUnit>, voltage: real, eps: real)
    requires eps > 0.0 && AllCovered(base, ceilings, duration, OutputUnit(base, requested), voltage)
    ensures Compose(evseId, base, ceilings, windowStart, duration, requested, voltage, eps) ==
            PerSecondCompose(evseId, base, ceilings, windowStart, duration, requested, voltage, eps)
  {
    if 0 < duration {
      var unit := OutputUnit(base, requested);
      LevelsAreComplete(base, ceilings, windowStart, duration, unit, voltage);
      hide CappedAt, AllOffsets, AllCovered;
      AllOffsetsInWindow(TablesOf([base] + ceilings), windowStart, duration);
      SparseIsScan(LevelsOf(base, ceilings, windowStart, duration, unit, voltage), eps,
                   OffsetsOf(base, ceilings, windowStart, duration));
    }
  }

  lemma GapIffUnresolved(base: Profile, ceilings: seq<Profile>, windowStart: int, t: int, unit: RateUnit, voltage: real)
    ensures CappedAt(base, ceilings, windowStart, t, unit, voltage) == None <==>
            ResolveActive(base, t, windowStart) == None
  {
    hide ResolveActive, ConvertRate, EffectivePhases, Capped;
  }

  lemma ResolvesIff(p: Profile, t: int, windowStart: int)
    ensures ResolveActive(p, t, windowStart) == None <==> LevelAt(TableOf(p), windowStart, t) == None
  {
    ResolverFollowsTimetable(p, t, windowStart);
    hide ResolveActive, ActiveAt;
  }

  lemma ArrivalIsListed(base: Profile, ceilings: seq<Profile>, windowStart: int, duration: nat, t: int)
    requires Arrives(TableOf(base), duration) && 0 < t < duration
    requires ResolveActive(base, t - 1, windowStart) == None && ResolveActive(base, t, windowStart) != None
    ensures t in OffsetsOf(base, ceilings, windowStart, duration)
  {
    ResolvesIff(base, t - 1, windowStart);
    ResolvesIff(base, t, windowStart);
    hide ResolveActive, LevelAt, OffsetsOf, Marks, Arrives;
    ArrivalsAreMarked(TableOf(base), windowStart, duration);
    assert base in [base] + ceilings;
    if t !in OffsetsOf(base, ceilings, windowStart, duration) {
      UnlistedIsUnmarked(base, ceilings, windowStart, duration, t);
    }
  }

  lemma ArrivalsAreListed(base: Profile, ceilings: seq<Profile>, windowStart: int, duration: nat, unit: RateUnit,
                          voltage: real)
    requires Arrives(TableOf(base), duration)
    ensures ListsArrivals(LevelsOf(base, ceilings, windowStart, duration, unit, voltage),
                          OffsetsOf(base, ceilings, windowStart, duration))
  {
    hide CappedAt, OffsetsOf, Arrives, ResolveActive;
    var levels := LevelsOf(base, ceilings, windowStart, duration, unit, voltage);
    var offsets := OffsetsOf(base, ceilings, windowStart, duration);
    forall t | 0 < t < duration && levels[t - 1] == None && levels[t] != None ensures t in offsets {
      GapIffUnresolved(base, ceilings, windowStart, t - 1, unit, voltage);
      GapIffUnresolved(base, ceilings, windowStart, t, unit, voltage);
      ArrivalIsListed(base, ceilings, windowStart, duration, t);
    }
  }

  /** A ceiling alone reports nothing: the answer is a rejection exactly when the base imposes nothing at any
      second of the window, whatever the ceilings. */
  lemma RejectedIff(evseId: int, base: Profile, ceilings: seq<Profile>, windowStart: int, duration: int,
                    requested: Option<RateUnit>, voltage: real, eps: real)
    requires Arrives(TableOf(base), duration)
    ensures Compose(evseId, base, ceilings, windowStart, duration, requested, voltage, eps) == None <==>
            forall t :: 0 <= t < duration ==> ResolveActive(base, t, windowStart) == None
  {
    if 0 < duration {
      var unit := OutputUnit(base, requested);
      var levels := LevelsOf(base, ceilings, windowStart, duration, unit, voltage);
      ArrivalsAreListed(base, ceilings, windowStart, duration, unit, voltage);
      AllOffsetsInWindow(TablesOf([base] + ceilings), windowStart, duration);
      hide CappedAt, AllOffsets, Sparse, ResolveActive;
      SparseIsEmptyIff(levels, eps, OffsetsOf(base, ceilings, windowStart, duration));
      forall t | 0 <= t < duration ensures levels[t] == None <==> ResolveActive(base, t, windowStart) == None {
        GapIffUnresolved(base, ceilings, windowStart, t, unit, voltage);
      }
    }
  }

  /** The profile with its first schedule placed elsewhere in time. */
  function PlacedProfile(p: Profile, start: int, validFrom: Option<int>, validTo: Option<int>): Profile
    requires p.schedules != []
  {
    p.(validFrom := validFrom, validTo := validTo,
       schedules := [p.schedules[0].(startSchedule := Some(start))] + p.schedules[1..])
  }

  /** Rejection is right wherever the base's schedule is placed, and under whatever ceilings, if and only if no
      constraint of the base appears at an unmarked start. */
  lemma RejectionIsExact(p: Profile, voltage: real)
    requires p.kind != Relative && p.schedules != []
    ensures ArrivalIsMarked(TableOf(p)) <==>
            forall evseId, start, validFrom, validTo, ceilings, windowStart, duration, requested, eps ::
              RejectedRightly(evseId, PlacedProfile(p, start, validFrom, validTo), ceilings, windowStart, duration,
                              requested, voltage, eps)
  {
    hide RejectedRightly;
    if ArrivalIsMarked(TableOf(p)) {
      forall evseId, start, validFrom, validTo, ceilings, windowStart, duration, requested, eps
        ensures RejectedRightly(evseId, PlacedProfile(p, start, validFrom, validTo), ceilings, windowStart, duration,
                                requested, voltage, eps)
      {
        var placed := PlacedProfile(p, start, validFrom, validTo);
        assert TableOf(placed) == Placed(TableOf(p), start, validFrom, validTo);
        PlacedIsAlike(TableOf(p), start, validFrom, validTo);
        assert Arrives(TableOf(placed), duration);
        RejectionIsRight(evseId, placed, ceilings, windowStart, duration, requested, voltage, eps);
      }
    } else {
      ArrivalIsRejected(p, voltage, 1.0);
    }
  }

  ghost predicate RejectedRightly(evseId: int, base: Profile, ceilings: seq<Profile>, windowStart: int, duration: int,
                                  requested: Option<RateUnit>, voltage: real, eps: real) {
    Compose(evseId, base, ceilings, windowStart, duration, requested, voltage, eps) == None <==>
    forall t :: 0 <= t < duration ==> ResolveActive(base, t, windowStart) == None
  }

  lemma RejectionIsRight(evseId: int, base: Profile, ceilings: seq<Profile>, windowStart: int, duration: int,
                         requested: Option<RateUnit>, voltage: real, eps: real)
    requires Arrives(TableOf(base), duration)
    ensures RejectedRightly(evseId, base, ceilings, windowStart, duration, requested, voltage, eps)
  {
    RejectedIff(evseId, base, ceilings, windowStart, duration, requested, voltage, eps);
  }

  /** A base whose constraint appears at an unmarked start is rejected as if it imposed nothing. */
  lemma ArrivalIsRejected(p: Profile, voltage: real, eps: real)
    requires p.kind != Relative && p.schedules != [] && !ArrivalIsMarked(TableOf(p))
    ensures !RejectedRightly(0, PlacedProfile(p, 1, None, None), [], 0, 2, Some(W), voltage, eps)
  {
    hide Compose, ResolveActive, PlacedProfile;
    StartUnwalked(p, []);
    var placed := PlacedProfile(p, 1, None, None);
    ArrivalSeconds(p);
    GapIffUnresolved(placed, [], 0, 0, W, voltage);
    hide CappedAt, OffsetsOf, LimitAt, ArrivalIsMarked;
    ReportStaysAtOpening(0, placed, [], W, voltage, eps);
    assert ResolveActive(placed, 1, 0) != None;
  }

  lemma ArrivalSeconds(p: Profile)
    requires p.kind != Relative && p.schedules != [] && !ArrivalIsMarked(TableOf(p))
    ensures !StartsCovered(TableOf(p))
    ensures var placed := PlacedProfile(p, 1, None, None);
            ResolveActive(placed, 0, 0) == None && ResolveActive(placed, 1, 0) != None
  {
    var placed := PlacedProfile(p, 1, None, None);
    PlacedTable(p, 1, None, None);
    PlacedStarts(TableOf(p), 0, None, None);
    PlacedIsAlike(TableOf(p), 1, None, None);
    hide LevelAt, ResolveActive;
    LevelsAroundStart(TableOf(placed), 0, 1);
    ResolvesIff(placed, 0, 0);
    ResolvesIff(placed, 1, 0);
  }

  lemma PlacedTable(p: Profile, start: int, validFrom: Option<int>, validTo: Option<int>)
    requires p.schedules != []
    ensures TableOf(PlacedProfile(p, start, validFrom, validTo)) == Placed(TableOf(p), start, validFrom, validTo)
  {
  }

  /** In the two seconds around an uncovered start the second one is not walked, unless another profile marks it. */
  lemma StartUnwalked(p: Profile, others: seq<Profile>)
    requires p.kind != Relative && p.schedules != [] && !StartsCovered(TableOf(p))
    requires forall q :: q in others ==> 1 !in Marks(TableOf(q), 0, 2)
    ensures forall base, ceilings ::
              (forall q :: q in [base] + ceilings ==> q == PlacedProfile(p, 1, None, None) || q in others) ==>
              1 !in OffsetsOf(base, ceilings, 0, 2)
  {
    var placed := PlacedProfile(p, 1, None, None);
    PlacedTable(p, 1, None, None);
    PlacedStarts(TableOf(p), 0, None, None);
    PlacedIsAlike(TableOf(p), 1, None, None);
    StartIsUnlisted(TableOf(placed), 0, 2, 1);
    hide Marks, StartsCovered, PlacedProfile;
    forall base, ceilings | forall q :: q in [base] + ceilings ==> q == placed || q in others
      ensures 1 !in OffsetsOf(base, ceilings, 0, 2)
    {
      UnmarkedIsUnlisted(base, ceilings, 0, 2, 1);
    }
  }

  lemma UnmarkedIsUnlisted(base: Profile, ceilings: seq<Profile>, windowStart: int, duration: int, t: int)
    requires t != 0 && forall p :: p in [base] + ceilings ==> t !in Marks(TableOf(p), windowStart, duration)
    ensures t !in OffsetsOf(base, ceilings, windowStart, duration)
  {
    hide Marks;
    var all := [base] + ceilings;
    AllOffsetsAre(TablesOf(all), windowStart, duration);
    forall tt | tt in TablesOf(all) ensures t !in Marks(tt, windowStart, duration) {
      var i :| 0 <= i < |all| && TablesOf(all)[i] == tt;
      assert all[i] in all;
    }
  }

  /** When only the opening of two seconds is walked, the report stays at the opening's limit. */
  lemma ReportStaysAtOpening(evseId: int, base: Profile, ceilings: seq<Profile>, unit: RateUnit, voltage: real,
                             eps: real)
    requires 1 !in OffsetsOf(base, ceilings, 0, 2)
    ensures var report := Compose(evseId, base, ceilings, 0, 2, Some(unit), voltage, eps);
            (report == None <==> CappedAt(base, ceilings, 0, 0, unit, voltage) == None) &&
            Reported(report, 1) == LimitOf(CappedAt(base, ceilings, 0, 0, unit, voltage))
  {
    hide CappedAt, PeriodInForce, AllOffsets;
    AllOffsetsInWindow(TablesOf([base] + ceilings), 0, 2);
    OnlyOpening(OffsetsOf(base, ceilings, 0, 2));
    var levels := LevelsOf(base, ceilings, 0, 2, unit, voltage);
    OpeningHolds(levels, eps, 1);
    SparseToIsEmptyIff(levels, eps, [0], 1);
    hide SparseTo, OffsetsOf;
  }

  /** The limit a report gives at second `t`. */
  function Reported(report: Option<CompositeSchedule>, t: int): Option<real> {
    if report.None? then None else LimitAt(report.value.periods, t)
  }

  /** Every reported period opens at a second where the base applies, keeps the base's phase count and carries
      the capped limit of that second, whatever the schedules. */
  lemma OnlyTheBaseOpensPeriods(evseId: int, base: Profile, ceilings: seq<Profile>, windowStart: int, duration: int,
                                requested: Option<RateUnit>, voltage: real, eps: real, p: Period)
    requires Compose(evseId, base, ceilings, windowStart, duration, requested, voltage, eps).Some?
    requires p in Compose(evseId, base, ceilings, windowStart, duration, requested, voltage, eps).value.periods
    ensures 0 <= p.startPeriod < duration
    ensures var active := ResolveActive(base, p.startPeriod, windowStart);
            active.Some? && p.numberPhases == active.value.1.numberPhases
    ensures CappedAt(base, ceilings, windowStart, p.startPeriod, OutputUnit(base, requested), voltage) ==
            Some(Level(p.limit, p.numberPhases))
  {
    var levels := LevelsOf(base, ceilings, windowStart, duration, OutputUnit(base, requested), voltage);
    var offsets := OffsetsOf(base, ceilings, windowStart, duration);
    AllOffsetsInWindow(TablesOf([base] + ceilings), windowStart, duration);
    OpenedAreTrue(levels, eps, offsets, |offsets|);
    assert levels[p.startPeriod] == CappedAt(base, ceilings, windowStart, p.startPeriod, OutputUnit(base, requested),
                                             voltage);
    hide AllOffsets, SparseTo, Capped, ResolveActive, ConvertRate, EffectivePhases;
  }

  /** In the schedule's own unit and without ceilings nothing is converted: every period reports the base's active
      limit, lifted to the minimum charging rate. */
  lemma OwnUnitIsUnconverted(evseId: int, base: Profile, windowStart: int, duration: int, voltage: real, eps: real,
                             p: Period)
    requires Compose(evseId, base, [], windowStart, duration, None, voltage, eps).Some?
    requires p in Compose(evseId, base, [], windowStart, duration, None, voltage, eps).value.periods
    ensures base.schedules != []
    ensures var active := ResolveActive(base, p.startPeriod, windowStart);
            active.Some? && p.numberPhases == active.value.1.numberPhases &&
            var floor := base.schedules[0].minChargingRate;
            p.limit == if floor.Some? && active.value.1.limit < floor.value then floor.value else active.value.1.limit
  {
    ReportedFields(evseId, base, [], windowStart, duration, None, voltage, eps);
    OnlyTheBaseOpensPeriods(evseId, base, [], windowStart, duration, None, voltage, eps, p);
    ResolverFollowsTimetable(base, p.startPeriod, windowStart);
    hide Compose, ResolveActive, ActiveAt, EffectivePhases;
  }

  // ----- the order of the ceilings -----

  predicate Caps(c: Profile, offset: int, windowStart: int, unit: RateUnit, voltage: real, capped: real) {
    var l := ContributionAt(c, offset, windowStart, unit, voltage);
    l.Some? && l.value.limit == capped
  }

  /** `capped` is the least of the base limit and the limits of the ceilings in force. */
  ghost predicate IsCap(limit: real, ceilings: seq<Profile>, offset: int, windowStart: int, unit: RateUnit,
                        voltage: real, capped: real) {
    capped <= limit &&
    (forall c :: c in ceilings && ContributionAt(c, offset, windowStart, unit, voltage).Some? ==>
      capped <= ContributionAt(c, offset, windowStart, unit, voltage).value.limit) &&
    (capped == limit || exists c :: c in ceilings && Caps(c, offset, windowStart, unit, voltage, capped))
  }

  lemma {:induction false} CappedIsCap(limit: real, ceilings: seq<Profile>, n: nat, offset: int, windowStart: int,
                                       unit: RateUnit, voltage: real)
    requires n <= |ceilings|
    ensures IsCap(limit, ceilings[..n], offset, windowStart, unit, voltage,
                  Capped(limit, ceilings, n, offset, windowStart, unit, voltage))
  {
    hide ContributionAt;
    if n > 0 {
      CappedIsCap(limit, ceilings, n - 1, offset, windowStart, unit, voltage);
      assert forall c :: c in ceilings[..n] <==> c in ceilings[..n - 1] || c == ceilings[n - 1];
      var capped := Capped(limit, ceilings, n, offset, windowStart, unit, voltage);
      if capped != Capped(limit, ceilings, n - 1, offset, windowStart, unit, voltage) {
        assert Caps(ceilings[n - 1], offset, windowStart, unit, voltage, capped);
      }
    }
  }

  /** Stacking is order-independent: the report depends on which ceilings there are, not on their order. */
  lemma CeilingOrderIsIrrelevant(evseId: int, base: Profile, a: seq<Profile>, b: seq<Profile>, windowStart: int,
                                 duration: int,
                                 requested: Option<RateUnit>, voltage: real, eps: real)
    requires forall c :: c in a <==> c in b
    ensures Compose(evseId, base, a, windowStart, duration, requested, voltage, eps) ==
            Compose(evseId, base, b, windowStart, duration, requested, voltage, eps)
  {
    if 0 < duration {
      SameTables([base] + a, [base] + b);
      SameTables([base] + b, [base] + a);
      AllOffsetsIgnoreOrder(TablesOf([base] + a), TablesOf([base] + b), windowStart, duration);
      LevelsIgnoreOrder(base, a, b, windowStart, duration, OutputUnit(base, requested), voltage);
      hide LevelsOf, AllOffsets, Sparse;
    }
  }

  lemma LevelsIgnoreOrder(base: Profile, a: seq<Profile>, b: seq<Profile>, windowStart: int, duration: nat,
                          unit: RateUnit, voltage: real)
    requires forall c :: c in a <==> c in b
    ensures LevelsOf(base, a, windowStart, duration, unit, voltage) ==
            LevelsOf(base, b, windowStart, duration, unit, voltage)
  {
    hide ContributionAt;
    forall t | 0 <= t < duration
      ensures CappedAt(base, a, windowStart, t, unit, voltage) == CappedAt(base, b, windowStart, t, unit, voltage)
    {
      match ContributionAt(base, t, windowStart, unit, voltage) {
        case None =>
        case Some(l) =>
          CappedIsCap(l.limit, a, |a|, t, windowStart, unit, voltage);
          CappedIsCap(l.limit, b, |b|, t, windowStart, unit, voltage);
          assert a[..|a|] == a && b[..|b|] == b;
      }
    }
  }

  lemma SameTables(a: seq<Profile>, b: seq<Profile>)
    requires forall p :: p in a ==> p in b
    ensures forall tt :: tt in TablesOf(a) ==> tt in TablesOf(b)
  {
    forall tt | tt in TablesOf(a) ensures tt in TablesOf(b) {
      var i :| 0 <= i < |a| && TablesOf(a)[i] == tt;
      assert a[i] in a;
      var j :| 0 <= j < |b| && b[j] == a[i];
      assert TablesOf(b)[j] == tt;
    }
  }

  // ----- the report and the meter agree -----

  /** In watts the composite caps to exactly the limit the metering resolver works with. */
  lemma {:induction false} CappedIsTightest(base: Profile, ceilings: seq<Profile>, n: nat, t: int, windowStart: int,
                                            voltage: real)
    requires n <= |ceilings| && ContributionAt(base, t, windowStart, W, voltage).Some?
    ensures TightestW([base] + ceilings, n + 1, t, windowStart, voltage) ==
            Some(Capped(ContributionAt(base, t, windowStart, W, voltage).value.limit, ceilings, n, t, windowStart, W,
                        voltage))
  {
    var all := [base] + ceilings;
    WattsAgree(base, t, windowStart, voltage);
    if n == 0 {
      assert TightestW(all, 0, t, windowStart, voltage) == None;
    } else {
      CappedIsTightest(base, ceilings, n - 1, t, windowStart, voltage);
      WattsAgree(ceilings[n - 1], t, windowStart, voltage);
    }
    hide ContributionAt, ActiveLimitW;
  }

  lemma WattsAgree(p: Profile, t: int, windowStart: int, voltage: real)
    ensures ActiveLimitW(p, t, windowStart, voltage) ==
            match ContributionAt(p, t, windowStart, W, voltage)
            case None => None
            case Some(l) => Some(l.limit)
  {
  }

  /** The metering bound `elapsed` seconds into the transaction. */
  function MeterBound(base: Profile, ceilings: seq<Profile>, elapsed: int, txStart: int, natural: real,
                      voltage: real): Option<real> {
    var all := [base] + ceilings;
    Bind(TightestW(all, |all|, elapsed, txStart, voltage), natural)
  }

  /** Without ceilings the meter enforces the base profile's own bound. */
  lemma UncappedMeterBound(base: Profile, elapsed: int, txStart: int, natural: real, voltage: real)
    ensures MeterBound(base, [], elapsed, txStart, natural, voltage) ==
            BoundedPowerW(base, elapsed, txStart, natural, voltage)
  {
    SoleTightest(base, elapsed, txStart, voltage);
    hide ActiveLimitW, TightestW;
    assert [base] + [] == [base];
  }

  /** `elapsed` seconds into the transaction the meter binds to just what the report in watts gives at second `t`. */
  predicate Agrees(report: Option<CompositeSchedule>, t: int, base: Profile, ceilings: seq<Profile>, elapsed: int,
                   txStart: int,
                   natural: real, voltage: real) {
    MeterBound(base, ceilings, elapsed, txStart, natural, voltage) == Bind(Reported(report, t), natural)
  }

  /** A base that is covered, imposes nothing at the start of its occurrences, or the same watts on both sides of it. */
  predicate MeterCovered(p: Profile, duration: int, voltage: real) {
    Covered(TableOf(p), duration) || AtStart(TableOf(p)).None? || CapsAlikeAroundStart(p, W, voltage)
  }

  /** The breakpoints are enough for the watts at every second the base applies. */
  ghost predicate AllMetered(base: Profile, ceilings: seq<Profile>, duration: int, voltage: real) {
    MeterCovered(base, duration, voltage) && forall c :: c in ceilings ==> CapCovered(c, duration, W, voltage)
  }

  /** Walked seconds that coalesce have equal limits. */
  ghost predicate CoalescesExactly(base: Profile, ceilings: seq<Profile>, windowStart: int, duration: int,
                                   unit: RateUnit, voltage: real, eps: real) {
    if duration <= 0 then true else
    AllOffsetsInWindow(TablesOf([base] + ceilings), windowStart, duration);
    ExactlyCoalesced(LevelsOf(base, ceilings, windowStart, duration, unit, voltage), eps,
                     OffsetsOf(base, ceilings, windowStart, duration))
  }

  lemma UnmarkedBaseKeepsWatts(base: Profile, windowStart: int, duration: int, voltage: real, t: int)
    requires MeterCovered(base, duration, voltage)
    requires 0 < t < duration && t !in Marks(TableOf(base), windowStart, duration)
    requires ContributionAt(base, t, windowStart, W, voltage).Some?
    ensures LimitOf(ContributionAt(base, t, windowStart, W, voltage)) ==
            LimitOf(ContributionAt(base, t - 1, windowStart, W, voltage))
  {
    ContributionIsConverted(base, t, windowStart, W, voltage);
    ContributionIsConverted(base, t - 1, windowStart, W, voltage);
    if LevelAt(TableOf(base), windowStart, t) != LevelAt(TableOf(base), windowStart, t - 1) {
      UnmarkedIsAStart(TableOf(base), windowStart, duration, t);
    }
    hide Marks, ContributionAt, ConvertRate, FlooredLimit, EffectivePhases, LevelAt;
  }

  lemma UnlistedKeepsWatts(base: Profile, ceilings: seq<Profile>, windowStart: int, duration: nat, voltage: real,
                           t: int)
    requires AllMetered(base, ceilings, duration, voltage)
    requires 0 < t < duration && t !in OffsetsOf(base, ceilings, windowStart, duration)
    requires CappedAt(base, ceilings, windowStart, t, W, voltage).Some?
    ensures LimitOf(CappedAt(base, ceilings, windowStart, t, W, voltage)) ==
            LimitOf(CappedAt(base, ceilings, windowStart, t - 1, W, voltage))
  {
    hide OffsetsOf, ContributionAt, CapCovered, MeterCovered, Marks;
    UnlistedIsUnmarked(base, ceilings, windowStart, duration, t);
    assert base in [base] + ceilings && forall c :: c in ceilings ==> c in [base] + ceilings;
    UnmarkedBaseKeepsWatts(base, windowStart, duration, voltage, t);
    forall i | 0 <= i < |ceilings|
      ensures LimitOf(ContributionAt(ceilings[i], t, windowStart, W, voltage)) ==
              LimitOf(ContributionAt(ceilings[i], t - 1, windowStart, W, voltage))
    {
      UnmarkedCapsAlike(ceilings[i], windowStart, duration, W, voltage, t);
    }
    CappedIsStable(ContributionAt(base, t, windowStart, W, voltage).value.limit, ceilings, |ceilings|, windowStart, t,
                   W, voltage);
    hide Capped;
  }

  lemma WattsHold(base: Profile, ceilings: seq<Profile>, windowStart: int, duration: nat, voltage: real)
    requires AllMetered(base, ceilings, duration, voltage)
    ensures LimitsHold(LevelsOf(base, ceilings, windowStart, duration, W, voltage),
                       OffsetsOf(base, ceilings, windowStart, duration))
  {
    hide CappedAt, OffsetsOf, AllMetered;
    var levels := LevelsOf(base, ceilings, windowStart, duration, W, voltage);
    var offsets := OffsetsOf(base, ceilings, windowStart, duration);
    forall t | 0 < t < duration && levels[t].Some? && t !in offsets
        ensures LimitOf(levels[t - 1]) == LimitOf(levels[t]) {
      UnlistedKeepsWatts(base, ceilings, windowStart, duration, voltage, t);
    }
  }

  /** Where the base applies, the report in watts gives the true limit everywhere if and only if walked seconds
      coalesce exactly. */
  lemma ReportIsTrueIff(evseId: int, base: Profile, ceilings: seq<Profile>, start: int, duration: nat, voltage: real,
                        eps: real)
    requires AllMetered(base, ceilings, duration, voltage)
    ensures CoalescesExactly(base, ceilings, start, duration, W, voltage, eps) <==>
            forall t :: 0 <= t < duration && CappedAt(base, ceilings, start, t, W, voltage).Some? ==>
              Reported(Compose(evseId, base, ceilings, start, duration, Some(W), voltage, eps), t) ==
              LimitOf(CappedAt(base, ceilings, start, t, W, voltage))
  {
    hide CappedAt, OffsetsOf, AllMetered, LimitsHold, PeriodInForce, SparseTo, ExactlyCoalesced;
    if 0 < duration {
      var levels, offsets := LevelsOf(base, ceilings, start, duration, W, voltage),
          OffsetsOf(base, ceilings, start, duration);
      WattsHold(base, ceilings, start, duration, voltage);
      WalkedInWindow(base, ceilings, start, duration);
      WalkIsExactIff(levels, eps, offsets);
      NothingInForce();
      forall t | 0 <= t < duration
        ensures levels[t] == CappedAt(base, ceilings, start, t, W, voltage)
        ensures Reported(Compose(evseId, base, ceilings, start, duration, Some(W), voltage, eps), t) ==
                LimitAt(Sparse(levels, eps, offsets), t)
      {}
      hide Compose, Sparse, LimitAt;
    }
  }

  lemma WalkedInWindow(base: Profile, ceilings: seq<Profile>, windowStart: int, duration: int)
    requires 0 < duration
    ensures var offsets := OffsetsOf(base, ceilings, windowStart, duration);
            StrictlyIncreasing(offsets) && offsets != [] && offsets[0] == 0 &&
            forall k :: 0 <= k < |offsets| ==> 0 <= offsets[k] < duration
  {
    AllOffsetsInWindow(TablesOf([base] + ceilings), windowStart, duration);
  }

  /** A report in watts over a window that opens with the transaction gives, at every second the base applies,
      exactly the limit the meter enforces there whenever that limit is below the natural rate. */
  lemma ReportAgreesWithMeter(evseId: int, base: Profile, ceilings: seq<Profile>, start: int, duration: nat,
                              voltage: real, eps: real, natural: real, t: nat)
    requires AllMetered(base, ceilings, duration, voltage) && t < duration
    requires CoalescesExactly(base, ceilings, start, duration, W, voltage, eps)
    requires ResolveActive(base, t, start).Some?
    ensures var report := Compose(evseId, base, ceilings, start, duration, Some(W), voltage, eps);
            Reported(report, t).Some? &&
            Reported(report, t) == TightestW([base] + ceilings, |ceilings| + 1, t, start, voltage) &&
            Agrees(report, t, base, ceilings, t, start, natural, voltage)
  {
    hide Compose, CappedAt, TightestW, LimitAt, AllMetered, CoalescesExactly, ResolveActive;
    ReportIsTrueIff(evseId, base, ceilings, start, duration, voltage, eps);
    MeteredLevel(base, ceilings, start, t, voltage);
    assert |[base] + ceilings| == |ceilings| + 1;
  }

  /** Where the base applies, the composite's limit in watts is the meter's. */
  lemma MeteredLevel(base: Profile, ceilings: seq<Profile>, start: int, t: int, voltage: real)
    requires ResolveActive(base, t, start).Some?
    ensures LimitOf(CappedAt(base, ceilings, start, t, W, voltage)).Some?
    ensures LimitOf(CappedAt(base, ceilings, start, t, W, voltage)) ==
            TightestW([base] + ceilings, |ceilings| + 1, t, start, voltage)
  {
    assert ContributionAt(base, t, start, W, voltage).Some?;
    CappedIsTightest(base, ceilings, |ceilings|, t, start, voltage);
    hide ContributionAt, TightestW, Capped;
  }

  /** Report and meter agree at every second the base applies, whatever the natural rate, if and only if walked seconds
      that coalesce have equal watts. */
  lemma AgreementIsExact(evseId: int, base: Profile, ceilings: seq<Profile>, start: int, duration: nat, voltage: real,
                         eps: real)
    requires AllMetered(base, ceilings, duration, voltage)
    ensures CoalescesExactly(base, ceilings, start, duration, W, voltage, eps) <==>
            forall t, natural :: 0 <= t < duration && ResolveActive(base, t, start).Some? ==>
              Agrees(Compose(evseId, base, ceilings, start, duration, Some(W), voltage, eps), t,
                     base, ceilings, t, start, natural, voltage)
  {
    hide Compose, ResolveActive, AllMetered, Agrees, CoalescesExactly;
    if CoalescesExactly(base, ceilings, start, duration, W, voltage, eps) {
      forall t, natural | 0 <= t < duration && ResolveActive(base, t, start).Some?
        ensures Agrees(Compose(evseId, base, ceilings, start, duration, Some(W), voltage, eps), t,
                       base, ceilings, t, start, natural, voltage)
      {
        ReportAgreesWithMeter(evseId, base, ceilings, start, duration, voltage, eps, natural, t);
      }
    } else {
      var t, natural := CloseStepsMislead(evseId, base, ceilings, start, duration, voltage, eps);
    }
  }

  lemma CloseStepsMislead(evseId: int, base: Profile, ceilings: seq<Profile>, start: int, duration: nat, voltage: real,
                          eps: real)
    returns (t: int, natural: real)
    requires AllMetered(base, ceilings, duration, voltage)
    requires !CoalescesExactly(base, ceilings, start, duration, W, voltage, eps)
    ensures 0 <= t < duration && ResolveActive(base, t, start).Some?
    ensures !Agrees(Compose(evseId, base, ceilings, start, duration, Some(W), voltage, eps), t,
                    base, ceilings, t, start, natural, voltage)
  {
    hide Compose, CappedAt, TightestW, LimitAt, AllMetered, CoalescesExactly, ResolveActive;
    ReportIsTrueIff(evseId, base, ceilings, start, duration, voltage, eps);
    var report := Compose(evseId, base, ceilings, start, duration, Some(W), voltage, eps);
    t :| 0 <= t < duration && CappedAt(base, ceilings, start, t, W, voltage).Some? &&
         Reported(report, t) != LimitOf(CappedAt(base, ceilings, start, t, W, voltage));
    GapIffUnresolved(base, ceilings, start, t, W, voltage);
    MeteredLevel(base, ceilings, start, t, voltage);
    natural := DisagreementShows(report, t, base, ceilings, start, voltage);
  }

  lemma DisagreementShows(report: Option<CompositeSchedule>, t: int, base: Profile, ceilings: seq<Profile>, start: int,
                          voltage: real)
    returns (natural: real)
    requires Reported(report, t) != TightestW([base] + ceilings, |ceilings| + 1, t, start, voltage)
    ensures !Agrees(report, t, base, ceilings, t, start, natural, voltage)
  {
    hide LimitAt, TightestW;
    natural := Above(Reported(report, t), TightestW([base] + ceilings, |ceilings| + 1, t, start, voltage));
    assert |[base] + ceilings| == |ceilings| + 1;
  }

  /** A rate above both limits, so that each of them binds. */
  function Above(a: Option<real>, b: Option<real>): (r: real)
    ensures (a.Some? ==> a.value < r) && (b.Some? ==> b.value < r)
  {
    match (a, b)
    case (None, None) => 0.0
    case (Some(x), None) => x + 1.0
    case (None, Some(y)) => y + 1.0
    case (Some(x), Some(y)) => if x < y then y + 1.0 else x + 1.0
  }

  // ----- a window that opens later in the transaction -----

  /** A profile whose schedule is tied to the calendar resolves alike from any origin. */
  predicate Pinned(p: Profile) {
    p.schedules == [] || (p.kind != Relative && p.schedules[0].startSchedule.Some?)
  }

  predicate EverValid(p: Profile) {
    p.validFrom.Some? && p.validTo.Some? ==> p.validFrom.value <= p.validTo.value
  }

  /** The positions a schedule passes through before it recurs. */
  predicate InCycle(tt: Timetable, position: int) {
    0 <= position && match RecurrencePeriod(tt) case Some(period) => position < period case None => true
  }

  function WattsAt(p: Profile, position: int, voltage: real): Option<real> {
    LimitOf(Converted(TableOf(p).schedule, LevelOf(AtPosition(TableOf(p).schedule, position)), W, voltage))
  }

  /** Every mark of the schedule leaves the watts it imposes as they are at its start. */
  predicate Steady(p: Profile, voltage: real) {
    var tt := TableOf(p);
    (forall q :: q in tt.schedule.periods && InCycle(tt, q.startPeriod) ==>
     WattsAt(p, q.startPeriod, voltage) == WattsAt(p, 0, voltage)) &&
    (tt.schedule.duration.Some? && InCycle(tt, tt.schedule.duration.value) ==>
       WattsAt(p, tt.schedule.duration.value, voltage) == WattsAt(p, 0, voltage))
  }

  /** Where in its schedule the profile stands makes no difference to it. */
  predicate Portable(p: Profile, voltage: real) {
    Pinned(p) || Steady(p, voltage) || !EverValid(p)
  }

  lemma {:induction false} SteadyIsFlat(p: Profile, position: int, voltage: real)
    requires Steady(p, voltage) && InCycle(TableOf(p), position)
    ensures WattsAt(p, position, voltage) == WattsAt(p, 0, voltage)
    decreases position
  {
    var s := TableOf(p).schedule;
    if position > 0 && !IsMark(s, position) {
      PositionIsStable(s, position);
      SteadyIsFlat(p, position - 1, voltage);
    }
  }

  /** The watts an unpinned profile imposes, by its position. */
  lemma UnpinnedWatts(p: Profile, elapsed: nat, txStart: int, voltage: real) returns (position: int)
    requires !Pinned(p)
    ensures InCycle(TableOf(p), position) && (InCycle(TableOf(p), elapsed) ==> position == elapsed)
    ensures ActiveLimitW(p, elapsed, txStart, voltage) ==
            if ValidAt(TableOf(p), txStart + elapsed) then WattsAt(p, position, voltage) else None
  {
    var tt := TableOf(p);
    position := match RecurrencePeriod(tt) case Some(period) => elapsed % period case None => elapsed;
    WattsAgree(p, elapsed, txStart, voltage);
    ContributionIsConverted(p, elapsed, txStart, W, voltage);
    assert txStart + elapsed - Anchor(tt, txStart) == elapsed;
    hide ContributionAt, ActiveLimitW, Converted, AtPosition;
  }

  lemma PinnedResolvesAlike(p: Profile, elapsed: int, txStart: int, windowStart: int)
    requires Pinned(p)
    ensures ResolveActive(p, elapsed + (windowStart - txStart), txStart) == ResolveActive(p, elapsed, windowStart)
  {
    assert txStart + (elapsed + (windowStart - txStart)) == windowStart + elapsed;
  }

  lemma PortableBindsAlike(p: Profile, elapsed: nat, txStart: int, windowStart: int, voltage: real)
    requires Pinned(p) || (txStart <= windowStart && Portable(p, voltage))
    ensures ActiveLimitW(p, elapsed + (windowStart - txStart), txStart, voltage) ==
            ActiveLimitW(p, elapsed, windowStart, voltage)
  {
    if Pinned(p) {
      PinnedResolvesAlike(p, elapsed, txStart, windowStart);
    } else {
      var there := UnpinnedWatts(p, elapsed + (windowStart - txStart), txStart, voltage);
      var here := UnpinnedWatts(p, elapsed, windowStart, voltage);
      if Steady(p, voltage) {
        SteadyIsFlat(p, there, voltage);
        SteadyIsFlat(p, here, voltage);
      }
    }
    hide ActiveLimitW, ResolveActive, Steady, WattsAt;
  }

  lemma {:induction false} PortableTightestAlike(profiles: seq<Profile>, n: nat, elapsed: nat, txStart: int,
                                                 windowStart: int, voltage: real)
    requires n <= |profiles|
    requires forall p :: p in profiles ==> Pinned(p) || (txStart <= windowStart && Portable(p, voltage))
    ensures TightestW(profiles, n, elapsed + (windowStart - txStart), txStart, voltage) ==
            TightestW(profiles, n, elapsed, windowStart, voltage)
  {
    hide ActiveLimitW, Portable, Pinned;
    if n > 0 {
      PortableTightestAlike(profiles, n - 1, elapsed, txStart, windowStart, voltage);
      PortableBindsAlike(profiles[n - 1], elapsed, txStart, windowStart, voltage);
    }
  }

  /** For calendar-tied and for steady profiles the agreement holds for a window that opens later in the transaction
      too. */
  lemma LaterReportAgreesWithMeter(evseId: int, base: Profile, ceilings: seq<Profile>, txStart: int, windowStart: int,
                                   duration: nat, voltage: real, eps: real, natural: real, t: nat)
    requires AllMetered(base, ceilings, duration, voltage) && t < duration
    requires forall p :: p in [base] + ceilings ==> Pinned(p) || (txStart <= windowStart && Portable(p, voltage))
    requires CoalescesExactly(base, ceilings, windowStart, duration, W, voltage, eps)
    requires ResolveActive(base, t + (windowStart - txStart), txStart).Some?
    ensures var report := Compose(evseId, base, ceilings, windowStart, duration, Some(W), voltage, eps);
            Reported(report, t).Some? &&
            Agrees(report, t, base, ceilings, t + (windowStart - txStart), txStart, natural, voltage)
  {
    hide Compose, TightestW, LimitAt, AllMetered, CoalescesExactly, ResolveActive, ActiveLimitW, Pinned, Portable;
    assert base in [base] + ceilings && |[base] + ceilings| == |ceilings| + 1;
    PortableBindsAlike(base, t, txStart, windowStart, voltage);
    LimitIffActive(base, t + (windowStart - txStart), txStart, voltage);
    LimitIffActive(base, t, windowStart, voltage);
    PortableTightestAlike([base] + ceilings, |ceilings| + 1, t, txStart, windowStart, voltage);
    ReportAgreesWithMeter(evseId, base, ceilings, windowStart, duration, voltage, eps, natural, t);
  }

  lemma LimitIffActive(p: Profile, elapsed: int, txStart: int, voltage: real)
    ensures ActiveLimitW(p, elapsed, txStart, voltage).Some? <==> ResolveActive(p, elapsed, txStart).Some?
  {
    hide ResolveActive;
  }

  predicate AgreesAtOpening(evseId: int, p: Profile, txStart: int, windowStart: int, duration: int, voltage: real,
                            eps: real, natural: real) {
    Agrees(Compose(evseId, p, [], windowStart, duration, Some(W), voltage, eps), 0, p, [], windowStart - txStart,
           txStart, natural, voltage)
  }

  /** At the moment a later window opens, report and meter agree on a lone profile, wherever in its transaction that
      is, if and only if the profile is portable. */
  lemma OpeningAgreementIsExact(p: Profile, voltage: real)
    ensures Portable(p, voltage) <==>
            forall evseId, txStart, windowStart, duration, eps, natural :: txStart <= windowStart && 0 < duration ==>
              AgreesAtOpening(evseId, p, txStart, windowStart, duration, voltage, eps, natural)
  {
    hide AgreesAtOpening, Portable;
    if Portable(p, voltage) {
      forall evseId, txStart, windowStart, duration, eps, natural | txStart <= windowStart && 0 < duration
        ensures AgreesAtOpening(evseId, p, txStart, windowStart, duration, voltage, eps, natural)
      {
        OpeningAgrees(evseId, p, txStart, windowStart, duration, voltage, eps, natural);
        PortableBindsAlike(p, 0, txStart, windowStart, voltage);
      }
    } else {
      var txStart, windowStart := UnportableDiffers(p, voltage);
      var natural := Above(ActiveLimitW(p, windowStart - txStart, txStart, voltage),
                           ActiveLimitW(p, 0, windowStart, voltage));
      OpeningAgrees(0, p, txStart, windowStart, 1, voltage, 1.0, natural);
      hide ActiveLimitW;
    }
  }

  lemma OpeningAgrees(evseId: int, p: Profile, txStart: int, windowStart: int, duration: nat, voltage: real, eps: real,
                      natural: real)
    requires 0 < duration
    ensures AgreesAtOpening(evseId, p, txStart, windowStart, duration, voltage, eps, natural) <==>
            Bind(ActiveLimitW(p, windowStart - txStart, txStart, voltage), natural) ==
            Bind(ActiveLimitW(p, 0, windowStart, voltage), natural)
  {
    hide Compose, ActiveLimitW, ContributionAt, LimitAt, CappedAt;
    ReportedAtOpening(evseId, p, [], windowStart, duration, voltage, eps);
    UncappedOpening(p, windowStart, voltage);
    SoleTightest(p, windowStart - txStart, txStart, voltage);
    assert [p] + [] == [p];
    hide TightestW;
  }

  /** The first second of a window is always reported as it is. */
  lemma ReportedAtOpening(evseId: int, base: Profile, ceilings: seq<Profile>, windowStart: int, duration: nat,
                          voltage: real, eps: real)
    requires 0 < duration
    ensures Reported(Compose(evseId, base, ceilings, windowStart, duration, Some(W), voltage, eps), 0) ==
            LimitOf(CappedAt(base, ceilings, windowStart, 0, W, voltage))
  {
    hide CappedAt, PeriodInForce, OffsetsOf, SparseTo;
    var levels := LevelsOf(base, ceilings, windowStart, duration, W, voltage);
    WalkedInWindow(base, ceilings, windowStart, duration);
    OpeningIsExact(levels, eps, OffsetsOf(base, ceilings, windowStart, duration));
    NothingInForce();
    assert levels[0] == CappedAt(base, ceilings, windowStart, 0, W, voltage);
    hide Sparse, LevelsOf;
  }

  lemma UncappedOpening(p: Profile, windowStart: int, voltage: real)
    ensures LimitOf(CappedAt(p, [], windowStart, 0, W, voltage)) == ActiveLimitW(p, 0, windowStart, voltage)
  {
    WattsAgree(p, 0, windowStart, voltage);
    hide ContributionAt, ActiveLimitW;
  }

  lemma SoleTightest(p: Profile, elapsed: int, txStart: int, voltage: real)
    ensures TightestW([p], 1, elapsed, txStart, voltage) == ActiveLimitW(p, elapsed, txStart, voltage)
  {
    hide ActiveLimitW;
    assert TightestW([p], 0, elapsed, txStart, voltage) == None;
  }

  /** An unpinned profile that is not steady binds differently at its start and at one of its marks. */
  lemma UnportableDiffers(p: Profile, voltage: real) returns (txStart: int, windowStart: int)
    requires !Portable(p, voltage)
    ensures txStart <= windowStart
    ensures ActiveLimitW(p, windowStart - txStart, txStart, voltage) != ActiveLimitW(p, 0, windowStart, voltage)
  {
    var tt := TableOf(p);
    windowStart := if p.validFrom.Some? then p.validFrom.value else if p.validTo.Some? then p.validTo.value else 0;
    var mark: int;
    if q :| q in tt.schedule.periods && InCycle(tt, q.startPeriod) &&
             WattsAt(p, q.startPeriod, voltage) != WattsAt(p, 0, voltage) {
      mark := q.startPeriod;
    } else {
      mark := tt.schedule.duration.value;
    }
    txStart := windowStart - mark;
    var there := UnpinnedWatts(p, mark, txStart, voltage);
    var here := UnpinnedWatts(p, 0, windowStart, voltage);
    hide ActiveLimitW, WattsAt;
  }

  // ----- an uncovered base or ceiling -----

  function FlatBase(watts: real): Profile {
    Profile(0, 0, TxDefaultProfile, Absolute, None, None, None,
            [Schedule(None, Some(0), W, [Period(0, watts, None)], None)])
  }

  lemma FlatBaseLevel(watts: real, t: nat, voltage: real)
    ensures ContributionAt(FlatBase(watts), t, 0, W, voltage) == Some(Level(watts, None))
    ensures StartsCovered(TableOf(FlatBase(watts))) && 1 !in Marks(TableOf(FlatBase(watts)), 0, 2)
  {
    var p, period := FlatBase(watts), Period(0, watts, None);
    ResolverFollowsTimetable(p, t, 0);
    SolePeriod(period, t);
    assert TableOf(p).schedule.periods[0].startPeriod == 0;
    ScheduleMarksAre(TableOf(p).schedule, 0, 2);
    hide ResolveActive, PeriodInForce;
  }

  /** Two seconds of which only the first is walked, and the meter follows the second: the two disagree. */
  lemma StaleReportMisleads(base: Profile, ceilings: seq<Profile>, voltage: real, eps: real) returns (natural: real)
    requires 1 !in OffsetsOf(base, ceilings, 0, 2) && ResolveActive(base, 1, 0).Some?
    requires LimitOf(CappedAt(base, ceilings, 0, 0, W, voltage)) != LimitOf(CappedAt(base, ceilings, 0, 1, W, voltage))
    ensures CoalescesExactly(base, ceilings, 0, 2, W, voltage, eps)
    ensures !Agrees(Compose(0, base, ceilings, 0, 2, Some(W), voltage, eps), 1, base, ceilings, 1, 0, natural, voltage)
  {
    hide CappedAt, OffsetsOf, ResolveActive, TightestW, Compose, LimitAt;
    WalkedInWindow(base, ceilings, 0, 2);
    OnlyOpening(OffsetsOf(base, ceilings, 0, 2));
    MeteredLevel(base, ceilings, 0, 1, voltage);
    ReportStaysAtOpening(0, base, ceilings, W, voltage, eps);
    natural := DisagreementShows(Compose(0, base, ceilings, 0, 2, Some(W), voltage, eps), 1, base, ceilings, 0,
                                 voltage);
  }

  /** What a placed profile contributes in the two seconds around its start. */
  lemma PlacedContributions(p: Profile, voltage: real)
    requires p.kind != Relative && p.schedules != []
    ensures var placed := PlacedProfile(p, 1, None, None);
            ContributionAt(placed, 0, 0, W, voltage) == AroundStart(p, W, voltage).0 &&
            ContributionAt(placed, 1, 0, W, voltage) == AroundStart(p, W, voltage).1
  {
    var placed := PlacedProfile(p, 1, None, None);
    PlacedTable(p, 1, None, None);
    PlacedStarts(TableOf(p), 0, None, None);
    PlacedIsAlike(TableOf(p), 1, None, None);
    LevelsAroundStart(TableOf(placed), 0, 1);
    ContributionIsConverted(placed, 0, 0, W, voltage);
    ContributionIsConverted(placed, 1, 0, W, voltage);
    hide ContributionAt, LevelAt, BeforeStart, AtStart, ConvertRate, FlooredLimit, EffectivePhases;
  }

  /** Placing a profile elsewhere keeps what it contributes around its start. */
  lemma PlacedAroundStart(p: Profile, start: int, validFrom: Option<int>, validTo: Option<int>, unit: RateUnit,
                          voltage: real)
    requires p.kind != Relative && p.schedules != []
    ensures var placed := PlacedProfile(p, start, validFrom, validTo);
            AroundStart(placed, unit, voltage) == AroundStart(p, unit, voltage) &&
            AtStart(TableOf(placed)) == AtStart(TableOf(p)) &&
            (StartsCovered(TableOf(placed)) <==> StartsCovered(TableOf(p)))
  {
    PlacedTable(p, start, validFrom, validTo);
    PlacedIsAlike(TableOf(p), start, validFrom, validTo);
    hide BeforeStart, AtStart, StartsCovered, ConvertRate, EffectivePhases;
  }

  lemma Uncapped(base: Profile, t: int, voltage: real)
    ensures LimitOf(CappedAt(base, [], 0, t, W, voltage)) == LimitOf(ContributionAt(base, t, 0, W, voltage))
  {
    hide ContributionAt;
  }

  lemma CappedByOne(base: Profile, ceiling: Profile, watts: real, t: int, voltage: real)
    requires ContributionAt(base, t, 0, W, voltage) == Some(Level(watts, None))
    ensures var cap := LimitOf(ContributionAt(ceiling, t, 0, W, voltage));
            LimitOf(CappedAt(base, [ceiling], 0, t, W, voltage)) ==
                Some(if cap.Some? then Min(watts, cap.value) else watts)
  {
    hide ContributionAt;
    assert Capped(watts, [ceiling], 0, t, 0, W, voltage) == watts;
  }

  /** The report stays at the cap that an uncovered ceiling imposed before its start, while the meter follows it. */
  lemma UncoveredCeilingMisleads(p: Profile, voltage: real, eps: real) returns (base: Profile, natural: real)
    requires p.kind != Relative && p.schedules != []
    requires !StartsCovered(TableOf(p)) && !CapsAlikeAroundStart(p, W, voltage)
    ensures StartsCovered(TableOf(base)) && ResolveActive(base, 1, 0).Some?
    ensures var ceilings := [PlacedProfile(p, 1, None, None)];
            CoalescesExactly(base, ceilings, 0, 2, W, voltage, eps) &&
            !Agrees(Compose(0, base, ceilings, 0, 2, Some(W), voltage, eps), 1, base, ceilings, 1, 0, natural, voltage)
  {
    hide AroundStart, StartsCovered, CappedAt, Marks, PlacedProfile, OffsetsOf, Compose, Agrees, CoalescesExactly;
    var placed := PlacedProfile(p, 1, None, None);
    var watts := Above(LimitOf(AroundStart(p, W, voltage).0), LimitOf(AroundStart(p, W, voltage).1));
    base := FlatBase(watts);
    FlatBaseLevel(watts, 0, voltage);
    FlatBaseLevel(watts, 1, voltage);
    assert ResolveActive(base, 1, 0).Some?;
    hide FlatBase, ResolveActive;
    StartUnwalked(p, [base]);
    assert forall q :: q in [base] + [placed] ==> q == placed || q in [base];
    PlacedContributions(p, voltage);
    hide ContributionAt;
    CappedByOne(base, placed, watts, 0, voltage);
    CappedByOne(base, placed, watts, 1, voltage);
    natural := StaleReportMisleads(base, [placed], voltage, eps);
  }

  /** The report stays at what an uncovered base imposed before its start, while the meter follows it. */
  lemma UncoveredBaseMisleads(p: Profile, voltage: real, eps: real) returns (natural: real)
    requires p.kind != Relative && p.schedules != [] && !StartsCovered(TableOf(p))
    requires AtStart(TableOf(p)).Some? && !CapsAlikeAroundStart(p, W, voltage)
    ensures var base := PlacedProfile(p, 1, None, None);
            ResolveActive(base, 1, 0).Some? && CoalescesExactly(base, [], 0, 2, W, voltage, eps) &&
            !Agrees(Compose(0, base, [], 0, 2, Some(W), voltage, eps), 1, base, [], 1, 0, natural, voltage)
  {
    hide StartsCovered, CappedAt, PlacedProfile, OffsetsOf, Compose, Agrees, CoalescesExactly, BeforeStart, AtStart;
    var base := PlacedProfile(p, 1, None, None);
    StartUnwalked(p, []);
    PlacedContributions(p, voltage);
    assert ResolveActive(base, 1, 0).Some?;
    Uncapped(base, 0, voltage);
    Uncapped(base, 1, voltage);
    hide ContributionAt, ResolveActive, AroundStart;
    natural := StaleReportMisleads(base, [], voltage, eps);
  }

  /** Under a covered base and covered company, report and meter agree wherever a ceiling is placed, if and only if the
      ceiling covers its start or caps alike on both sides of it. */
  lemma CeilingCoverIsExact(p: Profile, voltage: real, eps: real)
    requires p.kind != Relative && p.schedules != []
    ensures StartsCovered(TableOf(p)) || CapsAlikeAroundStart(p, W, voltage) <==>
            forall start, validFrom, validTo, base, others, windowStart, duration, natural, t ::
              var ceilings := [PlacedProfile(p, start, validFrom, validTo)] + others;
              AllMetered(base, others, duration, voltage) && 0 <= t < duration &&
              ResolveActive(base, t, windowStart).Some? &&
              CoalescesExactly(base, ceilings, windowStart, duration, W, voltage, eps) ==>
              Agrees(Compose(0, base, ceilings, windowStart, duration, Some(W), voltage, eps), t,
                     base, ceilings, t, windowStart, natural, voltage)
  {
    hide Agrees, Compose, CoalescesExactly, ResolveActive, StartsCovered, CapsAlikeAroundStart, PlacedProfile,
        MeterCovered;
    if StartsCovered(TableOf(p)) || CapsAlikeAroundStart(p, W, voltage) {
      forall start, validFrom, validTo, base, others, windowStart, duration: int, natural, t: int |
          var ceilings := [PlacedProfile(p, start, validFrom, validTo)] + others;
          AllMetered(base, others, duration, voltage) && 0 <= t < duration &&
          ResolveActive(base, t, windowStart).Some? &&
          CoalescesExactly(base, ceilings, windowStart, duration, W, voltage, eps)
        ensures var ceilings := [PlacedProfile(p, start, validFrom, validTo)] + others;
                Agrees(Compose(0, base, ceilings, windowStart, duration, Some(W), voltage, eps), t,
                       base, ceilings, t, windowStart, natural, voltage)
      {
        PlacedIsCapCovered(p, start, validFrom, validTo, duration, voltage);
        hide CapCovered;
        ReportAgreesWithMeter(0, base, [PlacedProfile(p, start, validFrom, validTo)] + others, windowStart, duration,
                              voltage, eps, natural, t);
      }
    } else {
      var base, natural := UncoveredCeilingMisleads(p, voltage, eps);
      assert [PlacedProfile(p, 1, None, None)] + [] == [PlacedProfile(p, 1, None, None)];
      CoveredIsMetered(base, 2, voltage);
    }
  }

  lemma CoveredIsMetered(base: Profile, duration: int, voltage: real)
    requires StartsCovered(TableOf(base))
    ensures AllMetered(base, [], duration, voltage)
  {
  }

  lemma PlacedIsCapCovered(p: Profile, start: int, validFrom: Option<int>, validTo: Option<int>, duration: int,
                           voltage: real)
    requires p.kind != Relative && p.schedules != []
    requires StartsCovered(TableOf(p)) || CapsAlikeAroundStart(p, W, voltage)
    ensures CapCovered(PlacedProfile(p, start, validFrom, validTo), duration, W, voltage)
  {
    PlacedAroundStart(p, start, validFrom, validTo, W, voltage);
    hide AroundStart, StartsCovered, PlacedProfile;
  }

  /** Under covered ceilings, report and meter agree at every second the base applies, wherever the base is placed, if
      and only if the base covers its start, imposes nothing at it, or the same watts on both sides of it. */
  lemma BaseCoverIsExact(p: Profile, voltage: real, eps: real)
    requires p.kind != Relative && p.schedules != []
    ensures StartsCovered(TableOf(p)) || AtStart(TableOf(p)).None? || CapsAlikeAroundStart(p, W, voltage) <==>
            forall start, validFrom, validTo, ceilings, windowStart, duration, natural, t ::
              var base := PlacedProfile(p, start, validFrom, validTo);
              AllCapped(ceilings, duration, voltage) && 0 <= t < duration &&
              ResolveActive(base, t, windowStart).Some? &&
              CoalescesExactly(base, ceilings, windowStart, duration, W, voltage, eps) ==>
              Agrees(Compose(0, base, ceilings, windowStart, duration, Some(W), voltage, eps), t,
                     base, ceilings, t, windowStart, natural, voltage)
  {
    hide Agrees, Compose, CoalescesExactly, ResolveActive, StartsCovered, AtStart, CapsAlikeAroundStart, PlacedProfile,
        CapCovered;
    if StartsCovered(TableOf(p)) || AtStart(TableOf(p)).None? || CapsAlikeAroundStart(p, W, voltage) {
      forall start, validFrom, validTo, ceilings, windowStart, duration: int, natural, t: int |
          var base := PlacedProfile(p, start, validFrom, validTo);
          AllCapped(ceilings, duration, voltage) && 0 <= t < duration &&
          ResolveActive(base, t, windowStart).Some? &&
          CoalescesExactly(base, ceilings, windowStart, duration, W, voltage, eps)
        ensures var base := PlacedProfile(p, start, validFrom, validTo);
                Agrees(Compose(0, base, ceilings, windowStart, duration, Some(W), voltage, eps), t,
                       base, ceilings, t, windowStart, natural, voltage)
      {
        PlacedIsMeterCovered(p, start, validFrom, validTo, duration, voltage);
        hide MeterCovered;
        ReportAgreesWithMeter(0, PlacedProfile(p, start, validFrom, validTo), ceilings, windowStart, duration,
                              voltage, eps, natural, t);
      }
    } else {
      var natural := UncoveredBaseMisleads(p, voltage, eps);
      assert AllCapped([], 2, voltage);
    }
  }

  ghost predicate AllCapped(ceilings: seq<Profile>, duration: int, voltage: real) {
    forall c :: c in ceilings ==> CapCovered(c, duration, W, voltage)
  }

  lemma PlacedIsMeterCovered(p: Profile, start: int, validFrom: Option<int>, validTo: Option<int>, duration: int,
                             voltage: real)
    requires p.kind != Relative && p.schedules != []
    requires StartsCovered(TableOf(p)) || AtStart(TableOf(p)).None? || CapsAlikeAroundStart(p, W, voltage)
    ensures MeterCovered(PlacedProfile(p, start, validFrom, validTo), duration, voltage)
  {
    PlacedAroundStart(p, start, validFrom, validTo, W, voltage);
    hide AroundStart, StartsCovered, AtStart, PlacedProfile;
  }

  // ----- changing the reported unit -----

  /** Every period in play converts with the same phase count. */
  ghost predicate SamePhases(profiles: seq<Profile>, n: int) {
    forall p, period :: p in profiles && period in TableOf(p).schedule.periods ==>
        EffectivePhases(period.numberPhases) == n
  }

  function ToWatts(voltage: real, n: int): real -> real {
    x => x * (voltage * n as real)
  }

  lemma RateConverts(limit: real, from: RateUnit, n: int, voltage: real)
    requires voltage > 0.0 && n > 0
    ensures ConvertRate(limit, from, W, n, voltage) == ToWatts(voltage, n)(ConvertRate(limit, from, A, n, voltage))
  {
    var d := voltage * n as real;
    assert d > 0.0;
    if from == W {
      assert limit / d * d == limit;
    } else {
      assert limit * voltage * n as real == limit * d;
    }
  }

  /** Watts are amperes times voltage and phases; a connector without voltage keeps the figure it cannot convert. */
  lemma RateInBothUnits(limit: real, n: int, voltage: real)
    requires 1 <= n <= 3
    ensures ConvertRate(limit, A, A, n, voltage) == limit == ConvertRate(limit, W, W, n, voltage)
    ensures ConvertRate(limit, A, W, n, voltage) == limit * (voltage * n as real)
    ensures ConvertRate(limit, W, A, n, voltage) * (voltage * n as real) == if voltage == 0.0 then 0.0 else limit
    ensures voltage == 0.0 ==> ConvertRate(limit, W, A, n, voltage) == limit
  {
    var d := voltage * n as real;
    assert d == 0.0 <==> voltage == 0.0;
    assert limit * voltage * n as real == limit * d;
    if d != 0.0 { assert limit / d * d == limit; }
  }

  /** Converting there and back is exact unless a connector without voltage is asked to convert a limit other than 0. */
  lemma RateRoundTrips(limit: real, from: RateUnit, to: RateUnit, n: int, voltage: real)
    requires 1 <= n <= 3
    ensures ConvertRate(ConvertRate(limit, from, to, n, voltage), to, from, n, voltage) == limit <==>
            from == to || voltage != 0.0 || limit == 0.0
  {
    var d := voltage * n as real;
    assert d == 0.0 <==> voltage == 0.0;
    assert limit * voltage * n as real == limit * d;
    if d != 0.0 {
      assert limit * d / d == limit && limit / d * d == limit;
      assert limit / d * voltage * n as real == limit / d * d;
    }
  }

  lemma ToWattsIncreases(a: real, b: real, voltage: real, n: int)
    requires voltage > 0.0 && n > 0
    ensures a < b <==> ToWatts(voltage, n)(a) < ToWatts(voltage, n)(b)
  {
    var d := voltage * n as real;
    assert d > 0.0;
    assert (b - a) * d == b * d - a * d;
    if a < b { assert (b - a) * d > 0.0; }
    if b < a { assert (a - b) * d > 0.0 && (a - b) * d == a * d - b * d; }
  }

  lemma ContributionConverts(p: Profile, t: int, windowStart: int, voltage: real, n: int)
    requires voltage > 0.0 && n > 0 && SamePhases([p], n)
    ensures ContributionAt(p, t, windowStart, W, voltage) ==
            MapLevel(ContributionAt(p, t, windowStart, A, voltage), ToWatts(voltage, n))
  {
    ResolverFollowsTimetable(p, t, windowStart);
    var active := ResolveActive(p, t, windowStart);
    if active.Some? {
      ActivePeriodIsListed(TableOf(p), windowStart + t, windowStart);
      assert p in [p];
      RateConverts(FlooredLimit(active.value.0, active.value.1), active.value.0.unit, n, voltage);
    }
    hide ResolveActive, ConvertRate, ActiveAt, EffectivePhases, ToWatts;
  }

  lemma {:induction false} CappedConverts(limit: real, ceilings: seq<Profile>, m: nat, t: int, windowStart: int,
                                          voltage: real, n: int)
    requires voltage > 0.0 && n > 0 && m <= |ceilings|
    requires forall c :: c in ceilings ==> SamePhases([c], n)
    ensures Capped(ToWatts(voltage, n)(limit), ceilings, m, t, windowStart, W, voltage) ==
            ToWatts(voltage, n)(Capped(limit, ceilings, m, t, windowStart, A, voltage))
  {
    if m > 0 {
      var c := ceilings[m - 1];
      CappedConverts(limit, ceilings, m - 1, t, windowStart, voltage, n);
      ContributionConverts(c, t, windowStart, voltage, n);
      var a := ContributionAt(c, t, windowStart, A, voltage);
      if a.Some? {
        ToWattsIncreases(a.value.limit, Capped(limit, ceilings, m - 1, t, windowStart, A, voltage), voltage, n);
      }
      hide ContributionAt, ToWatts, SamePhases;
    }
  }

  /** Changing the unit commutes with composing: with one phase count and a positive voltage the watt report is
      the ampere report, each limit times voltage and phases. */
  lemma UnitChangeCommutes(evseId: int, base: Profile, ceilings: seq<Profile>, windowStart: int, duration: int,
                           voltage: real, n: int, eps: real)
    requires eps > 0.0 && voltage > 0.0 && n > 0 && SamePhases([base] + ceilings, n)
    requires CoalescesExactly(base, ceilings, windowStart, duration, A, voltage, eps)
    requires CoalescesExactly(base, ceilings, windowStart, duration, W, voltage, eps)
    ensures var amperes := Compose(evseId, base, ceilings, windowStart, duration, Some(A), voltage, eps);
            var watts := Compose(evseId, base, ceilings, windowStart, duration, Some(W), voltage, eps);
            (amperes.None? <==> watts.None?) &&
            (amperes.Some? ==> PeriodsMapped(amperes.value.periods, watts.value.periods, ToWatts(voltage, n)))
  {
    if 0 < duration {
      hide OffsetsOf, LevelsOf, ToWatts, SamePhases, ExactlyCoalesced, Sparse;
      var amperes := LevelsOf(base, ceilings, windowStart, duration, A, voltage);
      var watts := LevelsOf(base, ceilings, windowStart, duration, W, voltage);
      var offsets := OffsetsOf(base, ceilings, windowStart, duration);
      WalkedInWindow(base, ceilings, windowStart, duration);
      LevelsConvert(base, ceilings, windowStart, duration, voltage, n);
      ToWattsIsInjective(voltage, n);
      SparseMaps(amperes, watts, eps, ToWatts(voltage, n), offsets);
    }
    hide PeriodsMapped;
  }

  lemma ToWattsIsInjective(voltage: real, n: int)
    requires voltage > 0.0 && n > 0
    ensures Injective(ToWatts(voltage, n))
  {
    forall a, b | ToWatts(voltage, n)(a) == ToWatts(voltage, n)(b) ensures a == b {
      ToWattsIncreases(a, b, voltage, n);
      ToWattsIncreases(b, a, voltage, n);
    }
  }

  lemma LevelsConvert(base: Profile, ceilings: seq<Profile>, windowStart: int, duration: nat, voltage: real, n: int)
    requires voltage > 0.0 && n > 0 && SamePhases([base] + ceilings, n)
    ensures MappedBy(LevelsOf(base, ceilings, windowStart, duration, A, voltage),
                     LevelsOf(base, ceilings, windowStart, duration, W, voltage), ToWatts(voltage, n))
  {
    assert base in [base] + ceilings && forall c :: c in ceilings ==> c in [base] + ceilings;
    assert SamePhases([base], n) && forall c :: c in ceilings ==> SamePhases([c], n);
    hide SamePhases, ToWatts;
    forall t | 0 <= t < duration
      ensures CappedAt(base, ceilings, windowStart, t, W, voltage) ==
              MapLevel(CappedAt(base, ceilings, windowStart, t, A, voltage), ToWatts(voltage, n))
    {
      ContributionConverts(base, t, windowStart, voltage, n);
      var a := ContributionAt(base, t, windowStart, A, voltage);
      if a.Some? { CappedConverts(a.value.limit, ceilings, |ceilings|, t, windowStart, voltage, n); }
      hide ContributionAt, Capped;
    }
    hide CappedAt;
  }
}
