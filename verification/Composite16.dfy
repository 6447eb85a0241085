/** The OCPP 1.6 composite schedule: the strictest of the winning override and the winning ceiling,
    reported over a window. Every method is proved against a function of its inputs; the lemmas say
    what those functions mean. */
module Composite16 {
  import opened Wrappers
  import opened Timetables
  import opened Breakpoints
  import opened Walk
  import opened Profiles

  const NOMINAL_VOLTAGE := 230.0

  /** A profile installed on the requested connector itself, or inherited from connector 0. */
  datatype ScopedProfile = ScopedProfile(specific: bool, profile: Profile)

  datatype Contribution = Contribution(limit: real, unit: RateUnit, phases: Option<int>)

  function Convert(limit: real, from: RateUnit, to: RateUnit, phases: int): real
    requires phases > 0
  {
    match (from, to)
    case (A, A) => limit
    case (W, W) => limit
    case (A, W) => limit * NOMINAL_VOLTAGE * phases as real
    case (W, A) => limit / (NOMINAL_VOLTAGE * phases as real)
  }

  /** Converting there and back is exact. */
  lemma ConvertRoundTrips(limit: real, from: RateUnit, to: RateUnit, phases: int)
    requires phases > 0
    ensures Convert(Convert(limit, from, to, phases), to, from, phases) == limit
  {
    var d := NOMINAL_VOLTAGE * phases as real;
    assert limit * NOMINAL_VOLTAGE * phases as real == limit * d;
    assert limit * d / d == limit && limit / d * d == limit;
    assert limit / d * NOMINAL_VOLTAGE * phases as real == limit / d * d;
  }

  // ----- one profile -----

  function ProfileLimitAt(profile: Profile, at: int, windowStart: int): Option<Contribution> {
    match LevelOf(ActiveAt(profile.timetable, at, windowStart))
    case None => None
    case Some(l) => Some(Contribution(l.limit, profile.timetable.schedule.unit, l.phases))
  }

  /** What a profile contributes `x` seconds into an occurrence, in the schedule's own unit. */
  ghost predicate IsContribution(s: Schedule, x: int, r: Option<Contribution>) {
    exists chosen :: IsImposed(s, x, chosen) &&
      r == match chosen
           case None => None
           case Some(p) => Some(Contribution(p.limit, s.unit, p.numberPhases))
  }

  /** A profile contributes what its schedule imposes at the position reached on the calendar, and nothing outside its
      validity or before a start that comes once. */
  lemma ProfileLimitOnCalendar(profile: Profile, at: int, windowStart: int, start: int, k: int, x: int)
    requires StartsFrom(profile.timetable, windowStart, start)
    ensures WithinValidity(profile.timetable, at) && StandsAt(profile.timetable, at, start, k, x) ==>
              IsContribution(profile.timetable.schedule, x, ProfileLimitAt(profile, at, windowStart))
    ensures !WithinValidity(profile.timetable, at) || (!Repeats(profile.timetable) && at < start) ==>
              ProfileLimitAt(profile, at, windowStart) == None
  {
    var tt := profile.timetable;
    hide ActiveAt, IsImposed;
    if WithinValidity(tt, at) && StandsAt(tt, at, start, k, x) {
      ActiveWhereItStands(tt, at, windowStart, start, k, x);
      assert IsImposed(tt.schedule, x, ActiveAt(tt, at, windowStart));
    }
    if !WithinValidity(tt, at) || (!Repeats(tt) && at < start) { InactiveElsewhere(tt, at, windowStart, start); }
  }

  method ComputeProfileLimitAt(profile: Profile, at: int, windowStart: int) returns (r: Option<Contribution>)
    ensures r == ProfileLimitAt(profile, at, windowStart)
  {
    var tt := profile.timetable;
    if tt.validFrom.Some? && at < tt.validFrom.value {
      return None;
    }
    if tt.validTo.Some? && at > tt.validTo.value {
      return None;
    }
    var offset := at - Anchor(tt, windowStart);
    match RecurrencePeriod(tt) {
      case Some(period) => offset := offset % period;
      case None => if offset < 0 { return None; }
    }
    if tt.schedule.duration.Some? && offset >= tt.schedule.duration.value {
      return None;
    }
    var chosen := ChoosePeriod(tt.schedule.periods, offset);
    match chosen {
      case None => return None;
      case Some(period) => return Some(Contribution(period.limit, tt.schedule.unit, period.numberPhases));
    }
  }

  // ----- precedence -----

  /** The two parts a profile can play at an instant. */
  datatype Role = Override | Ceiling

  function OverrideRank(purpose: Purpose): Option<int> {
    match purpose
    case TxProfile => Some(2)
    case TxDefaultProfile => Some(1)
    case ChargePointMaxProfile => None
  }

  predicate HasRole(role: Role, c: ScopedProfile) {
    role.Override? <==> OverrideRank(c.profile.purpose).Some?
  }

  predicate Plays(role: Role, c: ScopedProfile, at: int, windowStart: int) {
    HasRole(role, c) && ProfileLimitAt(c.profile, at, windowStart).Some?
  }

  /** Overrides compare by (rank, specific, stack level), ceilings by stack level alone. */
  predicate KeyLe(role: Role, a: ScopedProfile, b: ScopedProfile)
    requires HasRole(role, a) && HasRole(role, b)
  {
    match role
    case Ceiling => a.profile.stackLevel <= b.profile.stackLevel
    case Override =>
      var ra, rb := OverrideRank(a.profile.purpose).value, OverrideRank(b.profile.purpose).value;
      ra < rb ||
      (ra == rb && !a.specific && b.specific) ||
      (ra == rb && a.specific == b.specific && a.profile.stackLevel <= b.profile.stackLevel)
  }

  /** The last of the greatest applicable candidates. */
  function Winner(role: Role, candidates: seq<ScopedProfile>, at: int, windowStart: int): (w: Option<ScopedProfile>)
    ensures w.Some? ==> Plays(role, w.value, at, windowStart)
  {
    if candidates == [] then None else
    var n := |candidates| - 1;
    var best := Winner(role, candidates[..n], at, windowStart);
    if Plays(role, candidates[n], at, windowStart) && (best.None? || KeyLe(role, best.value, candidates[n]))
    then Some(candidates[n])
    else best
  }

  /** `w` is an applicable candidate that no applicable candidate outranks; None when none applies. */
  ghost predicate IsWinner(role: Role, candidates: seq<ScopedProfile>, at: int, windowStart: int,
                           w: Option<ScopedProfile>) {
    match w
    case None => forall c :: c in candidates ==> !Plays(role, c, at, windowStart)
    case Some(best) =>
      best in candidates && Plays(role, best, at, windowStart) &&
      forall c :: c in candidates && Plays(role, c, at, windowStart) ==> KeyLe(role, c, best)
  }

  lemma {:induction false} WinnerWins(role: Role, candidates: seq<ScopedProfile>, at: int, windowStart: int)
    ensures IsWinner(role, candidates, at, windowStart, Winner(role, candidates, at, windowStart))
  {
    if candidates != [] {
      var n := |candidates| - 1;
      WinnerWins(role, candidates[..n], at, windowStart);
      assert forall c :: c in candidates <==> c in candidates[..n] || c == candidates[n];
    }
  }

  /** A transaction profile outranks a default, then a profile of the connector outranks an inherited one, then the
      higher stack level wins. */
  lemma OverridePrecedence(candidates: seq<ScopedProfile>, at: int, windowStart: int, c: ScopedProfile)
    requires c in candidates && Plays(Override, c, at, windowStart)
    ensures var w := Winner(Override, candidates, at, windowStart);
            w.Some? &&
            (c.profile.purpose == TxProfile ==> w.value.profile.purpose == TxProfile) &&
            (c.profile.purpose == w.value.profile.purpose ==>
               (c.specific ==> w.value.specific) &&
               (c.specific == w.value.specific ==> c.profile.stackLevel <= w.value.profile.stackLevel))
  {
    WinnerWins(Override, candidates, at, windowStart);
  }

  /** Among ceilings the highest stack level wins. */
  lemma CeilingPrecedence(candidates: seq<ScopedProfile>, at: int, windowStart: int, c: ScopedProfile)
    requires c in candidates && c.profile.purpose == ChargePointMaxProfile
    requires ProfileLimitAt(c.profile, at, windowStart).Some?
    ensures var w := Winner(Ceiling, candidates, at, windowStart);
            w.Some? && w.value in candidates && w.value.profile.purpose == ChargePointMaxProfile &&
            ProfileLimitAt(w.value.profile, at, windowStart).Some? &&
            c.profile.stackLevel <= w.value.profile.stackLevel
  {
    WinnerWins(Ceiling, candidates, at, windowStart);
    hide ProfileLimitAt;
  }

  /** Of candidates of equal precedence the last listed wins. */
  lemma {:induction false} LastOfEqualsWins(role: Role, candidates: seq<ScopedProfile>, at: int, windowStart: int,
                                            i: int)
    requires 0 <= i < |candidates| && Plays(role, candidates[i], at, windowStart)
    requires forall j :: i < j < |candidates| ==> !Plays(role, candidates[j], at, windowStart)
                                                  || KeyLt(role, candidates[j], candidates[i])
    requires forall j :: 0 <= j < i && Plays(role, candidates[j], at, windowStart) ==>
               !KeyLt(role, candidates[i], candidates[j])
    ensures Winner(role, candidates, at, windowStart) == Some(candidates[i])
  {
    hide ProfileLimitAt;
    var n := |candidates| - 1;
    if i < n {
      LastOfEqualsWins(role, candidates[..n], at, windowStart, i);
    } else {
      var best := Winner(role, candidates[..n], at, windowStart);
      if best.Some? {
        WinnerWins(role, candidates[..n], at, windowStart);
        var j :| 0 <= j < n && candidates[..n][j] == best.value;
        assert candidates[j] == best.value;
      }
    }
  }

  /** Strictly lower precedence, in the source's order of comparison. */
  predicate KeyLt(role: Role, a: ScopedProfile, b: ScopedProfile) {
    match role
    case Ceiling => a.profile.stackLevel < b.profile.stackLevel
    case Override =>
      (a.profile.purpose == TxDefaultProfile && b.profile.purpose == TxProfile) ||
      (a.profile.purpose == b.profile.purpose && !a.specific && b.specific) ||
      (a.profile.purpose == b.profile.purpose && a.specific == b.specific &&
       a.profile.stackLevel < b.profile.stackLevel)
  }

  function RoleLimitAt(role: Role, candidates: seq<ScopedProfile>, at: int, windowStart: int): Option<Contribution> {
    match Winner(role, candidates, at, windowStart)
    case None => None
    case Some(c) => ProfileLimitAt(c.profile, at, windowStart)
  }

  // ----- the effective limit -----

  /** An absent or non-positive phase count converts as single-phase. */
  function PhaseCount(phases: Option<int>): (n: int)
    ensures n > 0
  {
    if phases.Some? && phases.value > 0 then phases.value else 1
  }

  function InUnit(c: Contribution, unit: RateUnit): Level {
    Level(Convert(c.limit, c.unit, unit, PhaseCount(c.phases)), c.phases)
  }

  function Stricter(a: Option<Level>, b: Option<Level>): Option<Level> {
    if a.None? then b
    else if b.None? || a.value.limit <= b.value.limit then a
    else b
  }

  function LevelIn(c: Option<Contribution>, unit: RateUnit): Option<Level> {
    match c
    case None => None
    case Some(x) => Some(InUnit(x, unit))
  }

  function EffectiveLimitAt(candidates: seq<ScopedProfile>, at: int, windowStart: int, unit: RateUnit): Option<Level> {
    Stricter(LevelIn(RoleLimitAt(Override, candidates, at, windowStart), unit),
             LevelIn(RoleLimitAt(Ceiling, candidates, at, windowStart), unit))
  }

  method ComputeEffectiveLimitAt(candidates: seq<ScopedProfile>, at: int, windowStart: int, unit: RateUnit)
    returns (r: Option<Level>)
    ensures r == EffectiveLimitAt(candidates, at, windowStart, unit)
  {
    var contributions := [RoleLimitAt(Override, candidates, at, windowStart),
                          RoleLimitAt(Ceiling, candidates, at, windowStart)];
    r := None;
    for i := 0 to 2
      invariant i == 0 ==> r == None
      invariant i == 1 ==> r == LevelIn(contributions[0], unit)
      invariant i == 2 ==> r == Stricter(LevelIn(contributions[0], unit), LevelIn(contributions[1], unit))
    {
      match contributions[i] {
        case None =>
        case Some(c) =>
          var value := Convert(c.limit, c.unit, unit, PhaseCount(c.phases));
          if r.None? || !(r.value.limit <= value) {
            r := Some(Level(value, c.phases));
          }
      }
    }
  }

  // ----- the composite -----

  function TimetablesOf(candidates: seq<ScopedProfile>): (tts: seq<Timetable>)
    ensures |tts| == |candidates|
    ensures forall i :: 0 <= i < |tts| ==> tts[i] == candidates[i].profile.timetable
  {
    seq(|candidates|, i requires 0 <= i < |candidates| => candidates[i].profile.timetable)
  }

  /** The effective limit at second `t` of the window that starts at `start`. */
  function EffectiveAt(candidates: seq<ScopedProfile>, start: int, t: int, unit: RateUnit): Option<Level> {
    EffectiveLimitAt(candidates, start + t, start, unit)
  }

  function LevelsOf(candidates: seq<ScopedProfile>, start: int, duration: nat, unit: RateUnit): Levels {
    seq(duration, t => EffectiveAt(candidates, start, t, unit))
  }

  predicate IsOverride(c: ScopedProfile) { OverrideRank(c.profile.purpose).Some? }

  /** Overrides compare for the unit by (rank, stack level); where they are installed does not enter. */
  predicate UnitKeyLe(a: ScopedProfile, b: ScopedProfile)
    requires IsOverride(a) && IsOverride(b)
  {
    var ra, rb := OverrideRank(a.profile.purpose).value, OverrideRank(b.profile.purpose).value;
    ra < rb || (ra == rb && a.profile.stackLevel <= b.profile.stackLevel)
  }

  /** The last of the greatest overrides by that comparison. */
  function OverrideUnit(candidates: seq<ScopedProfile>): (c: Option<ScopedProfile>)
    ensures c.Some? ==> IsOverride(c.value)
  {
    if candidates == [] then None else
    var n := |candidates| - 1;
    var best, last := OverrideUnit(candidates[..n]), candidates[n];
    if IsOverride(last) && (best.None? || UnitKeyLe(best.value, last)) then Some(last) else best
  }

  function OutputUnit(candidates: seq<ScopedProfile>, requested: Option<RateUnit>): RateUnit {
    if requested.Some? then requested.value else
    var chosen := OverrideUnit(candidates);
    if chosen.Some? then chosen.value.profile.timetable.schedule.unit
    else if candidates != [] then candidates[0].profile.timetable.schedule.unit
    else A
  }

  method BoundaryOffsets(candidates: seq<ScopedProfile>, windowStart: int, duration: int) returns (offsets: seq<int>)
    requires 0 < duration
    ensures offsets == AllOffsets(TimetablesOf(candidates), windowStart, duration)
    ensures StrictlyIncreasing(offsets) && forall k :: 0 <= k < |offsets| ==> 0 <= offsets[k] < duration
    ensures |offsets| <= 1 + MarksBound(TimetablesOf(candidates), |candidates|, duration)
  {
    hide Marks;
    ghost var tts := TimetablesOf(candidates);
    offsets := [0];
    for i := 0 to |candidates|
      invariant offsets == [0] + MarksOf(tts, i, windowStart, duration)
    {
      offsets := PushMarks(offsets, candidates[i].profile.timetable, windowStart, duration);
    }
    offsets := SortDedup(offsets);
    AllOffsetsInWindow(tts, windowStart, duration);
    AllOffsetsLength(tts, windowStart, duration);
  }

  function ScheduleFrom(periods: seq<Period>, start: int, duration: int, unit: RateUnit): Option<Schedule> {
    if periods == [] then None
    else Some(Schedule(Some(duration), Some(start), unit, periods, None))
  }

  /** What the sparse walk reports. */
  function Composite(candidates: seq<ScopedProfile>, start: int, duration: int, requested: Option<RateUnit>,
                     eps: real): Option<Schedule> {
    if duration <= 0 then None else
    var unit := OutputUnit(candidates, requested);
    AllOffsetsInWindow(TimetablesOf(candidates), start, duration);
    ScheduleFrom(Sparse(LevelsOf(candidates, start, duration, unit), eps,
                        AllOffsets(TimetablesOf(candidates), start, duration)), start, duration, unit)
  }

  /** The reference: what a look at every second of the window reports. */
  function PerSecondComposite(candidates: seq<ScopedProfile>, start: int, duration: int, requested: Option<RateUnit>,
                              eps: real): Option<Schedule> {
    if duration <= 0 then None else
    var unit := OutputUnit(candidates, requested);
    ScheduleFrom(Scan(LevelsOf(candidates, start, duration, unit), eps), start, duration, unit)
  }

  ghost predicate AllCovered(candidates: seq<ScopedProfile>, duration: int) {
    forall c :: c in candidates ==> Covered(c.profile.timetable, duration)
  }

  method ComputeComposite(candidates: seq<ScopedProfile>, start: int, duration: int, requested: Option<RateUnit>,
                          eps: real)
    returns (schedule: Option<Schedule>)
    requires eps > 0.0
    ensures schedule == Composite(candidates, start, duration, requested, eps)
    ensures AllCovered(candidates, duration) ==>
            schedule == PerSecondComposite(candidates, start, duration, requested, eps)
  {
    if AllCovered(candidates, duration) { CompositeLosesNothing(candidates, start, duration, requested, eps); }
    if duration <= 0 {
      return None;
    }
    var unit := OutputUnit(candidates, requested);
    var offsets := BoundaryOffsets(candidates, start, duration);
    var periods := WalkOffsets(candidates, start, duration, unit, offsets, eps);
    if periods == [] {
      return None;
    }
    return Some(Schedule(Some(duration), Some(start), unit, periods, None));
  }

  /** The coalescing loop of the composite. */
  method WalkOffsets(candidates: seq<ScopedProfile>, start: int, duration: nat, unit: RateUnit, offsets: seq<int>,
                     eps: real)
    returns (periods: seq<Period>)
    requires InRange(offsets, LevelsOf(candidates, start, duration, unit))
    ensures periods == Sparse(LevelsOf(candidates, start, duration, unit), eps, offsets)
  {
    hide EffectiveLimitAt, Unchanged;
    ghost var levels := LevelsOf(candidates, start, duration, unit);
    var prev: Option<Level> := None;
    periods := [];
    for i := 0 to |offsets|
      invariant periods == SparseTo(levels, eps, offsets, i)
      invariant prev == if i == 0 then None else levels[offsets[i - 1]]
    {
      var current := ComputeEffectiveLimitAt(candidates, start + offsets[i], start, unit);
      assert current == levels[offsets[i]];
      if current.Some? && !Unchanged(prev, current.value, eps) {
        periods := periods + [Period(offsets[i], current.value.limit, current.value.phases)];
      }
      prev := current;
    }
  }

  // ----- nothing is lost between breakpoints -----

  lemma {:induction false} WinnerIsStable(role: Role, candidates: seq<ScopedProfile>, start: int, t: int)
    requires forall c :: c in candidates ==>
               LevelAt(c.profile.timetable, start, t) == LevelAt(c.profile.timetable, start, t - 1)
    ensures Winner(role, candidates, start + t, start) == Winner(role, candidates, start + (t - 1), start)
  {
    if candidates != [] {
      var n := |candidates| - 1;
      assert candidates[n] in candidates;
      assert forall c :: c in candidates[..n] ==> c in candidates;
      WinnerIsStable(role, candidates[..n], start, t);
    }
  }

  lemma EffectiveIsStable(candidates: seq<ScopedProfile>, start: int, t: int, unit: RateUnit)
    requires forall c :: c in candidates ==>
               LevelAt(c.profile.timetable, start, t) == LevelAt(c.profile.timetable, start, t - 1)
    ensures EffectiveAt(candidates, start, t, unit) == EffectiveAt(candidates, start, t - 1, unit)
  {
    WinnerIsStable(Override, candidates, start, t);
    WinnerIsStable(Ceiling, candidates, start, t);
    WinnerWins(Override, candidates, start + t, start);
    WinnerWins(Ceiling, candidates, start + t, start);
  }

  lemma CandidateChangesNothing(candidates: seq<ScopedProfile>, start: int, duration: nat, t: int)
    requires AllCovered(candidates, duration)
    requires 0 < t < duration && t !in AllOffsets(TimetablesOf(candidates), start, duration)
    ensures forall c :: c in candidates ==>
              LevelAt(c.profile.timetable, start, t) == LevelAt(c.profile.timetable, start, t - 1)
  {
    var tts := TimetablesOf(candidates);
    forall tt | tt in tts ensures Covered(tt, duration) {
      var i :| 0 <= i < |tts| && tts[i] == tt;
      assert candidates[i] in candidates;
    }
    UnlistedChangesNothing(tts, start, duration, t);
    forall c | c in candidates
      ensures LevelAt(c.profile.timetable, start, t) == LevelAt(c.profile.timetable, start, t - 1)
    {
      var i :| 0 <= i < |candidates| && candidates[i] == c;
      assert tts[i] in tts;
    }
  }

  lemma LevelsAreComplete(candidates: seq<ScopedProfile>, start: int, duration: nat, unit: RateUnit)
    requires AllCovered(candidates, duration)
    ensures Complete(LevelsOf(candidates, start, duration, unit), AllOffsets(TimetablesOf(candidates), start, duration))
  {
    hide EffectiveAt, AllOffsets, LevelAt;
    var levels := LevelsOf(candidates, start, duration, unit);
    forall t | 0 < t < duration && levels[t] != levels[t - 1]
      ensures t in AllOffsets(TimetablesOf(candidates), start, duration)
    {
      if t !in AllOffsets(TimetablesOf(candidates), start, duration) {
        CandidateChangesNothing(candidates, start, duration, t);
        EffectiveIsStable(candidates, start, t, unit);
      }
    }
  }

  /** The sparse composite is the second-by-second composite. */
  lemma CompositeLosesNothing(candidates: seq<ScopedProfile>, start: int, duration: int, requested: Option<RateUnit>,
                              eps: real)
    requires eps > 0.0 && AllCovered(candidates, duration)
    ensures Composite(candidates, start, duration, requested, eps) ==
            PerSecondComposite(candidates, start, duration, requested, eps)
  {
    if 0 < duration {
      var unit := OutputUnit(candidates, requested);
      LevelsAreComplete(candidates, start, duration, unit);
      AllOffsetsInWindow(TimetablesOf(candidates), start, duration);
      SparseIsScan(LevelsOf(candidates, start, duration, unit), eps,
                   AllOffsets(TimetablesOf(candidates), start, duration));
    }
  }

  // ----- what the effective limit means -----

  /** The effective limit is the least of the winning override and the winning ceiling, and absent
      exactly when no candidate imposes anything. */
  lemma EffectiveIsLeast(candidates: seq<ScopedProfile>, at: int, windowStart: int, unit: RateUnit)
    ensures var e := EffectiveLimitAt(candidates, at, windowStart, unit);
            (e == None <==> forall c :: c in candidates ==> ProfileLimitAt(c.profile, at, windowStart) == None) &&
            (e.Some? ==>
               (exists role :: LevelIn(RoleLimitAt(role, candidates, at, windowStart), unit) == e) &&
               (var o := LevelIn(RoleLimitAt(Override, candidates, at, windowStart), unit);
                o.Some? && o.value.limit == e.value.limit ==> e == o) &&
               forall role :: RoleLimitAt(role, candidates, at, windowStart).Some? ==>
                 e.value.limit <= LevelIn(RoleLimitAt(role, candidates, at, windowStart), unit).value.limit)
  {
    hide Winner, ProfileLimitAt, Convert;
    WinnerWins(Override, candidates, at, windowStart);
    WinnerWins(Ceiling, candidates, at, windowStart);
    var o := LevelIn(RoleLimitAt(Override, candidates, at, windowStart), unit);
    var c := LevelIn(RoleLimitAt(Ceiling, candidates, at, windowStart), unit);
    assert Stricter(o, c) == o || Stricter(o, c) == c;
    assert forall x :: x in candidates && ProfileLimitAt(x.profile, at, windowStart).Some? ==>
      Plays(Override, x, at, windowStart) || Plays(Ceiling, x, at, windowStart);
  }

  /** With ceilings alone the limit is that of an applicable candidate of the highest stack level. */
  lemma CeilingsAlone(candidates: seq<ScopedProfile>, at: int, windowStart: int, unit: RateUnit, c: ScopedProfile)
    returns (w: ScopedProfile)
    requires forall d :: d in candidates ==> d.profile.purpose == ChargePointMaxProfile
    requires c in candidates && ProfileLimitAt(c.profile, at, windowStart).Some?
    ensures w in candidates && ProfileLimitAt(w.profile, at, windowStart).Some?
    ensures forall d :: d in candidates && ProfileLimitAt(d.profile, at, windowStart).Some? ==>
              d.profile.stackLevel <= w.profile.stackLevel
    ensures EffectiveLimitAt(candidates, at, windowStart, unit) ==
            Some(InUnit(ProfileLimitAt(w.profile, at, windowStart).value, unit))
  {
    hide ProfileLimitAt, InUnit;
    CeilingPrecedence(candidates, at, windowStart, c);
    w := Winner(Ceiling, candidates, at, windowStart).value;
    WinnerWins(Override, candidates, at, windowStart);
    WinnerWins(Ceiling, candidates, at, windowStart);
  }

  /** What a report says of itself, and that each of its periods opens with the effective limit of its own second. */
  lemma ReportedFields(candidates: seq<ScopedProfile>, start: int, duration: int, requested: Option<RateUnit>,
                       eps: real)
    requires Composite(candidates, start, duration, requested, eps).Some?
    ensures var report := Composite(candidates, start, duration, requested, eps).value;
            report.duration == Some(duration) && report.startSchedule == Some(start) &&
            report.minChargingRate == None && report.periods != [] &&
            (requested.Some? ==> report.unit == requested.value) &&
            (requested.None? ==> report.unit == OutputUnit(candidates, None)) &&
            forall p :: p in report.periods ==>
              0 <= p.startPeriod < duration &&
              EffectiveLimitAt(candidates, start + p.startPeriod, start, report.unit) ==
                  Some(Level(p.limit, p.numberPhases))
  {
    hide EffectiveLimitAt, AllOffsets, SparseTo;
    var unit, offsets := OutputUnit(candidates, requested), AllOffsets(TimetablesOf(candidates), start, duration);
    AllOffsetsInWindow(TimetablesOf(candidates), start, duration);
    OpenedAreTrue(LevelsOf(candidates, start, duration, unit), eps, offsets, |offsets|);
  }

  ghost predicate Unconstrained(candidates: seq<ScopedProfile>, start: int, t: int) {
    forall c :: c in candidates ==> ProfileLimitAt(c.profile, start + t, start) == None
  }

  ghost predicate AllArrive(candidates: seq<ScopedProfile>, duration: int) {
    forall c :: c in candidates ==> Arrives(c.profile.timetable, duration)
  }

  lemma ImposesIff(p: Profile, start: int, t: int)
    ensures ProfileLimitAt(p, start + t, start) == None <==> LevelAt(p.timetable, start, t) == None
  {
  }

  lemma ArrivalsAreListed(candidates: seq<ScopedProfile>, start: int, duration: nat, unit: RateUnit)
    requires AllArrive(candidates, duration)
    ensures ListsArrivals(LevelsOf(candidates, start, duration, unit),
                          AllOffsets(TimetablesOf(candidates), start, duration))
  {
    hide AllOffsets, TimetablesOf, EffectiveAt, AllArrive, Unconstrained;
    var levels := LevelsOf(candidates, start, duration, unit);
    forall t | 0 < t < duration && levels[t - 1] == None && levels[t] != None
      ensures t in AllOffsets(TimetablesOf(candidates), start, duration)
    {
      GapIffUnconstrained(candidates, start, t - 1, unit);
      GapIffUnconstrained(candidates, start, t, unit);
      ArrivalIsListed(candidates, start, duration, t);
    }
  }

  lemma ArrivalIsListed(candidates: seq<ScopedProfile>, start: int, duration: nat, t: int)
    requires AllArrive(candidates, duration) && 0 < t < duration
    requires Unconstrained(candidates, start, t - 1) && !Unconstrained(candidates, start, t)
    ensures t in AllOffsets(TimetablesOf(candidates), start, duration)
  {
    var tts := TimetablesOf(candidates);
    AllOffsetsAre(tts, start, duration);
    hide AllOffsets, LevelAt, Marks, Arrives, ProfileLimitAt;
    var c :| c in candidates && ProfileLimitAt(c.profile, start + t, start) != None;
    ImposesIff(c.profile, start, t - 1);
    ImposesIff(c.profile, start, t);
    ArrivalsAreMarked(c.profile.timetable, start, duration);
    var i :| 0 <= i < |candidates| && candidates[i] == c;
    assert tts[i] in tts;
  }

  /** A request is rejected exactly when the window is empty or no second of it is constrained. */
  lemma RejectedIff(candidates: seq<ScopedProfile>, start: int, duration: int, requested: Option<RateUnit>, eps: real)
    requires AllArrive(candidates, duration)
    ensures Composite(candidates, start, duration, requested, eps) == None <==>
            forall t :: 0 <= t < duration ==> Unconstrained(candidates, start, t)
  {
    if 0 < duration {
      var unit := OutputUnit(candidates, requested);
      var levels := LevelsOf(candidates, start, duration, unit);
      ArrivalsAreListed(candidates, start, duration, unit);
      AllOffsetsInWindow(TimetablesOf(candidates), start, duration);
      SparseIsEmptyIff(levels, eps, AllOffsets(TimetablesOf(candidates), start, duration));
      hide AllOffsets, EffectiveAt, Sparse, Unconstrained, AllArrive;
      forall t | 0 <= t < duration ensures levels[t] == None <==> Unconstrained(candidates, start, t) {
        GapIffUnconstrained(candidates, start, t, unit);
      }
    }
  }

  lemma GapIffUnconstrained(candidates: seq<ScopedProfile>, start: int, t: int, unit: RateUnit)
    ensures EffectiveAt(candidates, start, t, unit) == None <==> Unconstrained(candidates, start, t)
  {
    EffectiveIsLeast(candidates, start + t, start, unit);
  }

  /** The report depends on the effective limits alone: two candidate sets that impose the same at every
      second get the same period list. */
  lemma SameLimitsSameReport(a: seq<ScopedProfile>, b: seq<ScopedProfile>, start: int, duration: int, unit: RateUnit,
                             eps: real)
    requires eps > 0.0 && AllCovered(a, duration) && AllCovered(b, duration)
    requires forall t :: 0 <= t < duration ==> EffectiveAt(a, start, t, unit) == EffectiveAt(b, start, t, unit)
    ensures Composite(a, start, duration, Some(unit), eps) == Composite(b, start, duration, Some(unit), eps)
  {
    CompositeLosesNothing(a, start, duration, Some(unit), eps);
    CompositeLosesNothing(b, start, duration, Some(unit), eps);
    hide Composite, EffectiveAt, AllCovered, Scan;
    if 0 < duration {
      assert LevelsOf(a, start, duration, unit) == LevelsOf(b, start, duration, unit);
    }
  }

  /** At every constrained second the reported period has the true phase count, and its limit is off by
      less than `eps` for each breakpoint coalesced since that period opened. */
  lemma ReportedLimitDrift(candidates: seq<ScopedProfile>, start: int, duration: nat, requested: Option<RateUnit>,
                           eps: real, t: nat)
    requires eps > 0.0 && AllCovered(candidates, duration) && t < duration
    requires EffectiveAt(candidates, start, t, OutputUnit(candidates, requested)).Some?
    ensures var levels := LevelsOf(candidates, start, duration, OutputUnit(candidates, requested));
            var offsets := AllOffsets(TimetablesOf(candidates), start, duration);
            var report := Composite(candidates, start, duration, requested, eps);
            AreOffsets(offsets, levels) && report.Some? &&
            Within(PeriodInForce(report.value.periods, t), levels[t].value, eps,
                   Coalesced(levels, eps, offsets, LastBreakpoint(offsets, t)))
  {
    var unit := OutputUnit(candidates, requested);
    LevelsAreComplete(candidates, start, duration, unit);
    AllOffsetsInWindow(TimetablesOf(candidates), start, duration);
    ReportDrift(LevelsOf(candidates, start, duration, unit), eps, AllOffsets(TimetablesOf(candidates), start, duration),
                t);
    hide EffectiveAt, AllOffsets, Coalesced, Sparse;
  }

  // ----- candidate order -----

  predicate Tied(role: Role, a: ScopedProfile, b: ScopedProfile) {
    HasRole(role, a) && HasRole(role, b) && KeyLe(role, a, b) && KeyLe(role, b, a)
  }

  /** No two different candidates have equal precedence. */
  ghost predicate NoTies(candidates: seq<ScopedProfile>) {
    forall role, a, b :: a in candidates && b in candidates && Tied(role, a, b) ==> a == b
  }

  lemma RoleLimitIgnoresOrder(role: Role, a: seq<ScopedProfile>, b: seq<ScopedProfile>, at: int, windowStart: int)
    requires NoTies(a) && forall c :: c in a <==> c in b
    ensures RoleLimitAt(role, a, at, windowStart) == RoleLimitAt(role, b, at, windowStart)
  {
    WinnerWins(role, a, at, windowStart);
    WinnerWins(role, b, at, windowStart);
    var x, y := Winner(role, a, at, windowStart), Winner(role, b, at, windowStart);
    assert x.Some? && y.Some? ==> Tied(role, x.value, y.value);
  }

  lemma LevelsIgnoreOrder(a: seq<ScopedProfile>, b: seq<ScopedProfile>, start: int, duration: nat, unit: RateUnit)
    requires NoTies(a) && forall c :: c in a <==> c in b
    ensures LevelsOf(a, start, duration, unit) == LevelsOf(b, start, duration, unit)
  {
    forall t | 0 <= t < duration ensures EffectiveAt(a, start, t, unit) == EffectiveAt(b, start, t, unit) {
      RoleLimitIgnoresOrder(Override, a, b, start + t, start);
      RoleLimitIgnoresOrder(Ceiling, a, b, start + t, start);
    }
  }

  /** With no ties the composite in a requested unit depends on which candidates there are, not on their order. */
  lemma OrderIsIrrelevant(a: seq<ScopedProfile>, b: seq<ScopedProfile>, start: int, duration: int, unit: RateUnit,
                          eps: real)
    requires NoTies(a) && forall c :: c in a <==> c in b
    ensures Composite(a, start, duration, Some(unit), eps) == Composite(b, start, duration, Some(unit), eps)
  {
    if 0 < duration {
      SameTimetables(a, b);
      SameTimetables(b, a);
      AllOffsetsIgnoreOrder(TimetablesOf(a), TimetablesOf(b), start, duration);
      LevelsIgnoreOrder(a, b, start, duration, unit);
      hide LevelsOf, AllOffsets, NoTies, Sparse;
    }
  }

  lemma SameTimetables(a: seq<ScopedProfile>, b: seq<ScopedProfile>)
    requires forall c :: c in a ==> c in b
    ensures forall tt :: tt in TimetablesOf(a) ==> tt in TimetablesOf(b)
  {
    forall tt | tt in TimetablesOf(a) ensures tt in TimetablesOf(b) {
      var i :| 0 <= i < |a| && TimetablesOf(a)[i] == tt;
      assert a[i] in a;
      var j :| 0 <= j < |b| && b[j] == a[i];
      assert TimetablesOf(b)[j] == tt;
    }
  }

  // ----- the unit when none is requested -----

  /** The candidates whose unit may be chosen: the greatest overrides, or any candidate if there is no override. */
  ghost predicate Decides(candidates: seq<ScopedProfile>, c: ScopedProfile) {
    c in candidates &&
    forall d :: d in candidates && IsOverride(d) ==> IsOverride(c) && UnitKeyLe(d, c)
  }

  ghost predicate UnitIsSettled(candidates: seq<ScopedProfile>) {
    forall c, d :: Decides(candidates, c) && Decides(candidates, d) ==>
      c.profile.timetable.schedule.unit == d.profile.timetable.schedule.unit
  }

  lemma {:induction false} OverrideUnitDecides(candidates: seq<ScopedProfile>)
    ensures OverrideUnit(candidates) == None <==> forall c :: c in candidates ==> !IsOverride(c)
    ensures OverrideUnit(candidates).Some? ==>
              Decides(candidates, OverrideUnit(candidates).value)
  {
    if candidates != [] {
      var n := |candidates| - 1;
      OverrideUnitDecides(candidates[..n]);
      assert forall c :: c in candidates <==> c in candidates[..n] || c == candidates[n];
    }
  }

  /** Strictly less authoritative over the unit. */
  predicate UnitKeyLt(a: ScopedProfile, b: ScopedProfile) {
    (a.profile.purpose == TxDefaultProfile && b.profile.purpose == TxProfile) ||
    (a.profile.purpose == b.profile.purpose && a.profile.stackLevel < b.profile.stackLevel)
  }

  predicate IsCeiling(c: ScopedProfile) {
    c.profile.purpose == ChargePointMaxProfile
  }

  lemma {:induction false} LastOfEqualsDecides(candidates: seq<ScopedProfile>, i: int)
    requires 0 <= i < |candidates| && !IsCeiling(candidates[i])
    requires forall j :: i < j < |candidates| ==> IsCeiling(candidates[j]) || UnitKeyLt(candidates[j], candidates[i])
    requires forall j :: 0 <= j < i && !IsCeiling(candidates[j]) ==> !UnitKeyLt(candidates[i], candidates[j])
    ensures OverrideUnit(candidates) == Some(candidates[i])
  {
    var n := |candidates| - 1;
    if i < n {
      LastOfEqualsDecides(candidates[..n], i);
    } else {
      var best := OverrideUnit(candidates[..n]);
      OverrideUnitDecides(candidates[..n]);
      if best.Some? {
        var j :| 0 <= j < n && candidates[..n][j] == best.value;
        assert candidates[j] == best.value;
      }
    }
  }

  /** With no unit requested the unit is that of the last listed among the overrides of highest purpose, then highest
      stack level; without overrides that of the first candidate; and amperes when there is none. */
  lemma DefaultUnitPrecedence(candidates: seq<ScopedProfile>, i: int)
    requires 0 <= i < |candidates| && !IsCeiling(candidates[i]) ==>
               (forall j :: i < j < |candidates| ==>
                IsCeiling(candidates[j]) || UnitKeyLt(candidates[j], candidates[i])) &&
               (forall j :: 0 <= j < i && !IsCeiling(candidates[j]) ==> !UnitKeyLt(candidates[i], candidates[j]))
    ensures 0 <= i < |candidates| && !IsCeiling(candidates[i]) ==>
              OutputUnit(candidates, None) == candidates[i].profile.timetable.schedule.unit
    ensures candidates != [] && (forall c :: c in candidates ==> IsCeiling(c)) ==>
              OutputUnit(candidates, None) == candidates[0].profile.timetable.schedule.unit
    ensures candidates == [] ==> OutputUnit(candidates, None) == A
  {
    if 0 <= i < |candidates| && !IsCeiling(candidates[i]) { LastOfEqualsDecides(candidates, i); }
    OverrideUnitDecides(candidates);
    hide OverrideUnit;
  }

  lemma DefaultUnitDecides(candidates: seq<ScopedProfile>)
    requires candidates != []
    ensures exists c :: Decides(candidates, c) && OutputUnit(candidates, None) == c.profile.timetable.schedule.unit
  {
    OverrideUnitDecides(candidates);
    assert candidates[0] in candidates;
    assert OverrideUnit(candidates) == None ==> Decides(candidates, candidates[0]);
  }

  /** A deciding candidate decides alone once it is moved behind the other overrides, or to the front when
      there is no override. */
  lemma DecidingTakesOver(candidates: seq<ScopedProfile>, c: ScopedProfile) returns (reordered: seq<ScopedProfile>)
    requires Decides(candidates, c)
    ensures multiset(reordered) == multiset(candidates)
    ensures OutputUnit(reordered, None) == c.profile.timetable.schedule.unit
  {
    var i :| 0 <= i < |candidates| && candidates[i] == c;
    var rest := candidates[..i] + candidates[i + 1..];
    assert candidates == candidates[..i] + [c] + candidates[i + 1..];
    assert forall d :: d in rest ==> d in candidates;
    OverrideUnitDecides(rest);
    if IsOverride(c) {
      reordered := rest + [c];
      assert reordered[..|rest|] == rest;
    } else {
      reordered := [c] + rest;
      assert forall d :: d in reordered ==> d in candidates;
      OverrideUnitDecides(reordered);
    }
  }

  lemma SettledUnitIgnoresOrder(a: seq<ScopedProfile>, b: seq<ScopedProfile>)
    requires UnitIsSettled(a) && forall c :: c in a <==> c in b
    ensures OutputUnit(a, None) == OutputUnit(b, None)
  {
    if a != [] { assert a[0] in a; }
    if b != [] { assert b[0] in b; }
    if a != [] {
      DefaultUnitDecides(a);
      DefaultUnitDecides(b);
      assert forall c :: Decides(a, c) <==> Decides(b, c);
    }
  }

  lemma SameElements(a: seq<ScopedProfile>, b: seq<ScopedProfile>)
    requires multiset(a) == multiset(b)
    ensures forall c :: c in a <==> c in b
  {
    assert forall c :: (c in a <==> c in multiset(a)) && (c in b <==> c in multiset(b));
  }

  /** With no unit requested the chosen unit survives every reordering of the candidates if and only if the
      candidates that can decide it agree. */
  lemma UnitOrderIsExact(candidates: seq<ScopedProfile>)
    ensures UnitIsSettled(candidates) <==>
            forall reordered :: multiset(reordered) == multiset(candidates) ==>
              OutputUnit(reordered, None) == OutputUnit(candidates, None)
  {
    if UnitIsSettled(candidates) {
      forall reordered | multiset(reordered) == multiset(candidates)
        ensures OutputUnit(reordered, None) == OutputUnit(candidates, None)
      {
        SameElements(candidates, reordered);
        SettledUnitIgnoresOrder(candidates, reordered);
      }
    } else {
      var c, d :| Decides(candidates, c) && Decides(candidates, d) &&
        c.profile.timetable.schedule.unit != d.profile.timetable.schedule.unit;
      var first := DecidingTakesOver(candidates, c);
      var second := DecidingTakesOver(candidates, d);
    }
  }

  /** Without ties and with the unit settled, the composite ignores candidate order even when no unit is requested. */
  lemma DefaultUnitOrderIsIrrelevant(a: seq<ScopedProfile>, b: seq<ScopedProfile>, start: int, duration: int, eps: real)
    requires NoTies(a) && UnitIsSettled(a) && forall c :: c in a <==> c in b
    ensures Composite(a, start, duration, None, eps) == Composite(b, start, duration, None, eps)
  {
    SettledUnitIgnoresOrder(a, b);
    OrderIsIrrelevant(a, b, start, duration, OutputUnit(a, None), eps);
  }

  /** Without ties, a schedule that is reported when no unit is requested survives every reordering of the
      candidates if and only if their unit is settled. */
  lemma DefaultUnitOrderIsExact(candidates: seq<ScopedProfile>, start: int, duration: int, eps: real)
    requires NoTies(candidates) && Composite(candidates, start, duration, None, eps).Some?
    ensures UnitIsSettled(candidates) <==>
            forall reordered :: multiset(reordered) == multiset(candidates) ==>
              Composite(reordered, start, duration, None, eps) == Composite(candidates, start, duration, None, eps)
  {
    UnitOrderIsExact(candidates);
    hide UnitIsSettled, NoTies;
    forall reordered | multiset(reordered) == multiset(candidates)
      ensures OutputUnit(reordered, None) == OutputUnit(candidates, None) <==>
              Composite(reordered, start, duration, None, eps) == Composite(candidates, start, duration, None, eps)
    {
      SameElements(candidates, reordered);
      OrderIsIrrelevant(candidates, reordered, start, duration, OutputUnit(candidates, None), eps);
      assert Composite(candidates, start, duration, Some(OutputUnit(candidates, None)), eps) ==
             Composite(candidates, start, duration, None, eps);
      hide OutputUnit, LevelsOf, AllOffsets, Sparse;
    }
    hide Composite, OutputUnit;
  }

  // ----- feeding a report back -----

  /** A reported schedule installed as one absolute override. */
  function AsOverride(schedule: Schedule, purpose: Purpose, id: int, stackLevel: int, specific: bool): ScopedProfile {
    ScopedProfile(specific, Profile(id, stackLevel, purpose, Timetable(Absolute, None, None, None, schedule)))
  }

  lemma OverrideReplays(schedule: Schedule, purpose: Purpose, id: int, stackLevel: int, specific: bool, start: int,
                        duration: nat)
    requires OverrideRank(purpose).Some?
    requires schedule.startSchedule == Some(start) && schedule.duration == Some(duration)
    ensures LevelsOf([AsOverride(schedule, purpose, id, stackLevel, specific)], start, duration, schedule.unit) ==
            Replay(schedule.periods, duration)
  {
    var fed := AsOverride(schedule, purpose, id, stackLevel, specific);
    forall t | 0 <= t < duration
      ensures EffectiveAt([fed], start, t, schedule.unit) == LevelOf(PeriodInForce(schedule.periods, t))
    {
      SoleOverride(fed, start + t, start, schedule.unit);
      assert start + t - start == t;
      assert ActiveAt(fed.profile.timetable, start + t, start) == PeriodInForce(schedule.periods, t);
    }
  }

  /** A lone override is the effective limit. */
  lemma SoleOverride(c: ScopedProfile, at: int, windowStart: int, unit: RateUnit)
    requires OverrideRank(c.profile.purpose).Some?
    ensures EffectiveLimitAt([c], at, windowStart, unit) == LevelIn(ProfileLimitAt(c.profile, at, windowStart), unit)
  {
    assert [c][..0] == [];
    assert Winner(Override, [], at, windowStart) == None == Winner(Ceiling, [], at, windowStart);
    assert Winner(Ceiling, [c], at, windowStart) == None;
  }

  /** Where every second is constrained and coalescing is exact, installing the report as the only profile
      and asking again for the same window gives the report back. */
  lemma FeedbackIsFixedPoint(candidates: seq<ScopedProfile>, start: int, duration: int, requested: Option<RateUnit>,
                             eps: real,
                             purpose: Purpose, id: int, stackLevel: int, specific: bool)
    requires eps > 0.0 && 0 < duration && AllCovered(candidates, duration) && OverrideRank(purpose).Some?
    requires forall t :: 0 <= t < duration ==>
               EffectiveAt(candidates, start, t, OutputUnit(candidates, requested)).Some?
    requires Separated(LevelsOf(candidates, start, duration, OutputUnit(candidates, requested)), eps)
    ensures var report := Composite(candidates, start, duration, requested, eps);
            report.Some? &&
            Composite([AsOverride(report.value, purpose, id, stackLevel, specific)], start, duration, None, eps) ==
                report
  {
    var unit := OutputUnit(candidates, requested);
    var levels := LevelsOf(candidates, start, duration, unit);
    assert forall t :: 0 <= t < duration ==> levels[t].Some?;
    CompositeLosesNothing(candidates, start, duration, requested, eps);
    ScanToIsEmptyIff(levels, eps, duration);
    var report := Schedule(Some(duration), Some(start), unit, Scan(levels, eps), None);
    assert Composite(candidates, start, duration, requested, eps) == Some(report);
    hide EffectiveAt, LevelsOf, AllOffsets;
    OpensAtZero(levels, eps);
    ReplayGivesBack(levels, eps);
    hide Separated, Scan, ScanTo, Replay;
    var fed := AsOverride(report, purpose, id, stackLevel, specific);
    assert Covered(fed.profile.timetable, duration);
    CompositeLosesNothing([fed], start, duration, None, eps);
    hide Composite;
    OverrideReplays(report, purpose, id, stackLevel, specific, start, duration);
    SoleUnit(fed);
  }

  /** Installing any report as the only profile and asking again for the same window gives the report back if and only
      if no reported period is within the tolerance of the one before it. */
  lemma FeedbackIsExact(candidates: seq<ScopedProfile>, start: int, duration: int, requested: Option<RateUnit>,
                        eps: real,
                        purpose: Purpose, id: int, stackLevel: int, specific: bool)
    requires eps > 0.0 && OverrideRank(purpose).Some?
    requires Composite(candidates, start, duration, requested, eps).Some?
    ensures var report := Composite(candidates, start, duration, requested, eps);
            Composite([AsOverride(report.value, purpose, id, stackLevel, specific)], start, duration, None, eps) ==
                report <==>
            NoneCoalesce(report.value.periods, eps)
  {
    var unit, offsets := OutputUnit(candidates, requested), AllOffsets(TimetablesOf(candidates), start, duration);
    AllOffsetsInWindow(TimetablesOf(candidates), start, duration);
    SparseIsOrdered(LevelsOf(candidates, start, duration, unit), eps, offsets, |offsets|);
    var report := Composite(candidates, start, duration, requested, eps).value;
    assert Ordered(report.periods) && forall p :: p in report.periods ==> 0 <= p.startPeriod < duration;
    hide LevelsOf, AllOffsets, Sparse, Scan;
    FedReportScans(report, start, duration, eps, purpose, id, stackLevel, specific);
    ReplayIsFixedIff(report.periods, eps, duration);
    hide Composite, Ordered, NoneCoalesce, Replay;
  }

  /** A report fed back is scanned from its own periods. */
  lemma FedReportScans(report: Schedule, start: int, duration: nat, eps: real,
                       purpose: Purpose, id: int, stackLevel: int, specific: bool)
    requires eps > 0.0 && 0 < duration && OverrideRank(purpose).Some?
    requires report == Schedule(Some(duration), Some(start), report.unit, report.periods, None)
    requires forall p :: p in report.periods ==> 0 <= p.startPeriod
    ensures Composite([AsOverride(report, purpose, id, stackLevel, specific)], start, duration, None, eps) ==
            ScheduleFrom(Scan(Replay(report.periods, duration), eps), start, duration, report.unit)
  {
    var fed := AsOverride(report, purpose, id, stackLevel, specific);
    PeriodInForceIsInForce(report.periods, 0);
    assert Covered(fed.profile.timetable, duration);
    OverrideReplays(report, purpose, id, stackLevel, specific, start, duration);
    SoleUnit(fed);
    hide PeriodInForce, Covered;
    CompositeLosesNothing([fed], start, duration, None, eps);
    hide Composite, LevelsOf, Scan, Replay, OutputUnit;
  }

  lemma SoleUnit(c: ScopedProfile)
    requires OverrideRank(c.profile.purpose).Some?
    ensures OutputUnit([c], None) == c.profile.timetable.schedule.unit
  {
    assert [c][..0] == [];
    assert OverrideUnit([]) == None;
    assert OverrideUnit([c]) == Some(c);
  }

  lemma OpensAtZero(levels: Levels, eps: real)
    requires eps > 0.0 && Separated(levels, eps) && levels != [] && levels[0].Some?
    ensures StartsAt(Scan(levels, eps), 0)
  {
    ScanToReports(levels, eps, |levels|, 0);
    ScanStarts(levels, eps, |levels|);
    PeriodInForceIsInForce(Scan(levels, eps), 0);
  }

  // ----- exactly when the report is right -----

  /** For covered candidates the report gives the true limit at every constrained second if and only if no two
      neighbouring seconds differ by less than the tolerance. */
  lemma CompositeIsExactIff(candidates: seq<ScopedProfile>, start: int, duration: nat, requested: Option<RateUnit>,
                            eps: real)
    requires eps > 0.0 && AllCovered(candidates, duration)
    requires Composite(candidates, start, duration, requested, eps).Some?
    ensures var levels := LevelsOf(candidates, start, duration, OutputUnit(candidates, requested));
            var report := Composite(candidates, start, duration, requested, eps).value.periods;
            Separated(levels, eps) <==>
            forall t :: 0 <= t < duration && levels[t].Some? ==> LimitAt(report, t) == Some(levels[t].value.limit)
  {
    CompositeLosesNothing(candidates, start, duration, requested, eps);
    hide Composite, EffectiveAt, Scan, LimitAt;
    ReportIsExactIff(LevelsOf(candidates, start, duration, OutputUnit(candidates, requested)), eps);
    hide Separated;
  }

  /** One period a second. */
  function EverySecond(levels: Levels): (periods: seq<Period>)
    requires forall t :: 0 <= t < |levels| ==> levels[t].Some?
    ensures |periods| == |levels|
    ensures forall t :: 0 <= t < |levels| ==> periods[t] == Period(t, levels[t].value.limit, levels[t].value.phases)
  {
    seq(|levels|, t requires 0 <= t < |levels| => Period(t, levels[t].value.limit, levels[t].value.phases))
  }

  /** Every list of levels without gaps is what one installed profile imposes. */
  lemma EveryLevelListOccurs(levels: Levels, start: int, unit: RateUnit, purpose: Purpose, id: int, stackLevel: int,
                             specific: bool)
    requires OverrideRank(purpose).Some?
    requires forall t :: 0 <= t < |levels| ==> levels[t].Some?
    ensures var s := Schedule(Some(|levels|), Some(start), unit, EverySecond(levels), None);
            LevelsOf([AsOverride(s, purpose, id, stackLevel, specific)], start, |levels|, unit) == levels
  {
    var s := Schedule(Some(|levels|), Some(start), unit, EverySecond(levels), None);
    OverrideReplays(s, purpose, id, stackLevel, specific, start, |levels|);
    forall t | 0 <= t < |levels| ensures LevelOf(PeriodInForce(s.periods, t)) == levels[t] {
      PeriodInForceIsInForce(s.periods, t);
      assert Outranks(s.periods, t, t);
      InForceIsUnique(s.periods, t, PeriodInForce(s.periods, t), Some(s.periods[t]));
    }
    hide LevelsOf, PeriodInForce;
  }

  /** The drift has no bound: for any error there is a profile, raised by half the tolerance every second,
      whose report is off by more than that error. */
  lemma DriftIsUnbounded(start: int, eps: real, error: real) returns (profile: ScopedProfile, t: nat)
    requires eps > 0.0 && error >= 0.0
    ensures StartsCovered(profile.profile.timetable)
    ensures var report := Composite([profile], start, t + 1, Some(A), eps);
            report.Some? && LimitAt(report.value.periods, t) == Some(0.0)
    ensures var actual := EffectiveAt([profile], start, t, A);
            actual.Some? && actual.value.limit > error
  {
    var step := eps / 2.0;
    t := (error / step).Floor + 1;
    ClimbPasses(step, error, t);
    profile := Climber(step, start, t + 1);
    ClimberLevels(step, start, t + 1);
    ClimberReport(step, eps, start, t + 1, t);
    assert LevelsOf([profile], start, t + 1, A)[t] == Some(Level(Climb(step, t), None));
    hide Composite, Climber, StartsCovered, EffectiveAt, PeriodInForce;
  }

  /** A profile raised by `step` every second. */
  function Climber(step: real, start: int, n: nat): ScopedProfile {
    AsOverride(Schedule(Some(n), Some(start), A, EverySecond(Staircase(step, n)), None), TxDefaultProfile, 1, 0, true)
  }

  lemma ClimberLevels(step: real, start: int, n: nat)
    requires 0 < n
    ensures StartsCovered(Climber(step, start, n).profile.timetable)
    ensures LevelsOf([Climber(step, start, n)], start, n, A) == Staircase(step, n)
  {
    var periods := EverySecond(Staircase(step, n));
    assert periods[0] in periods;
    EveryLevelListOccurs(Staircase(step, n), start, A, TxDefaultProfile, 1, 0, true);
    hide LevelsOf, EverySecond;
  }

  lemma ClimberReport(step: real, eps: real, start: int, n: nat, t: nat)
    requires 0.0 <= step < eps && 0 < n
    ensures var report := Composite([Climber(step, start, n)], start, n, Some(A), eps);
            report.Some? && LimitAt(report.value.periods, t) == Some(0.0)
  {
    hide LevelsOf, Staircase, Climber, Composite, ScanTo, PeriodInForce;
    ClimberLevels(step, start, n);
    StaircaseIsFlattened(step, eps, n, n);
    CompositeLosesNothing([Climber(step, start, n)], start, n, Some(A), eps);
    SolePeriod(Period(0, 0.0, None), t);
    StaircaseLength(step, n);
  }

  lemma StaircaseLength(step: real, n: nat)
    ensures |Staircase(step, n)| == n
  {
  }

  // ----- changing the reported unit -----

  /** Every period in play converts with `n` phases: its own positive count, or one. */
  ghost predicate ConvertsWith(candidates: seq<ScopedProfile>, n: int) {
    forall c, p :: c in candidates && p in c.profile.timetable.schedule.periods ==>
      n == if p.numberPhases.Some? && p.numberPhases.value > 0 then p.numberPhases.value else 1
  }

  /** Amperes to watts at the nominal voltage. */
  function ToWatts(n: int): real -> real {
    x => x * (230.0 * n as real)
  }

  lemma LimitConverts(limit: real, from: RateUnit, n: int)
    requires n > 0
    ensures Convert(limit, from, W, n) == ToWatts(n)(Convert(limit, from, A, n))
  {
    var d := 230.0 * n as real;
    assert d > 0.0;
    if from == W {
      assert limit / d * d == limit;
    } else {
      assert limit * 230.0 * n as real == limit * d;
    }
  }

  lemma ToWattsIncreases(a: real, b: real, n: int)
    requires n > 0
    ensures a < b <==> ToWatts(n)(a) < ToWatts(n)(b)
  {
    var d := 230.0 * n as real;
    assert d > 0.0 && (b - a) * d == b * d - a * d;
    if a < b { assert (b - a) * d > 0.0; }
    if b < a { assert (a - b) * d > 0.0 && (a - b) * d == a * d - b * d; }
  }

  lemma ToWattsIsInjective(n: int)
    requires n > 0
    ensures Injective(ToWatts(n))
  {
    forall a, b | ToWatts(n)(a) == ToWatts(n)(b) ensures a == b {
      ToWattsIncreases(a, b, n);
      ToWattsIncreases(b, a, n);
    }
  }

  lemma RoleConverts(role: Role, candidates: seq<ScopedProfile>, at: int, windowStart: int, n: int)
    requires n > 0 && ConvertsWith(candidates, n)
    ensures var r := RoleLimitAt(role, candidates, at, windowStart);
            LevelIn(r, W) == MapLevel(LevelIn(r, A), ToWatts(n))
  {
    hide Convert, ToWatts, ActiveAt;
    WinnerWins(role, candidates, at, windowStart);
    var w := Winner(role, candidates, at, windowStart);
    if w.Some? {
      var tt := w.value.profile.timetable;
      ActivePeriodIsListed(tt, at, windowStart);
      var r := ProfileLimitAt(w.value.profile, at, windowStart).value;
      assert PhaseCount(r.phases) == n;
      LimitConverts(r.limit, r.unit, n);
    }
    hide Winner;
  }

  lemma StricterConverts(a: Option<Level>, b: Option<Level>, n: int)
    requires n > 0
    ensures MapLevel(Stricter(a, b), ToWatts(n)) == Stricter(MapLevel(a, ToWatts(n)), MapLevel(b, ToWatts(n)))
  {
    if a.Some? && b.Some? {
      ToWattsIncreases(a.value.limit, b.value.limit, n);
      ToWattsIncreases(b.value.limit, a.value.limit, n);
    }
    hide ToWatts;
  }

  lemma LevelsConvert(candidates: seq<ScopedProfile>, start: int, duration: nat, n: int)
    requires n > 0 && ConvertsWith(candidates, n)
    ensures MappedBy(LevelsOf(candidates, start, duration, A), LevelsOf(candidates, start, duration, W), ToWatts(n))
  {
    hide ConvertsWith, RoleLimitAt, Stricter, LevelIn, ToWatts;
    forall t | 0 <= t < duration
      ensures EffectiveAt(candidates, start, t, W) == MapLevel(EffectiveAt(candidates, start, t, A), ToWatts(n))
    {
      RoleConverts(Override, candidates, start + t, start, n);
      RoleConverts(Ceiling, candidates, start + t, start, n);
      StricterConverts(LevelIn(RoleLimitAt(Override, candidates, start + t, start), A),
                       LevelIn(RoleLimitAt(Ceiling, candidates, start + t, start), A), n);
    }
    hide EffectiveAt;
  }

  /** Walked seconds that coalesce have equal limits. */
  ghost predicate CoalescesExactly(candidates: seq<ScopedProfile>, start: int, duration: int, unit: RateUnit,
                                   eps: real) {
    if duration <= 0 then true else
    AllOffsetsInWindow(TimetablesOf(candidates), start, duration);
    ExactlyCoalesced(LevelsOf(candidates, start, duration, unit), eps,
                     AllOffsets(TimetablesOf(candidates), start, duration))
  }

  /** Changing the unit commutes with composing: when every period converts with `n` phases the watt report is the
      ampere report, each limit times 230 volts and `n`. */
  lemma UnitChangeCommutes(candidates: seq<ScopedProfile>, start: int, duration: int, n: int, eps: real)
    requires eps > 0.0 && n > 0 && ConvertsWith(candidates, n)
    requires CoalescesExactly(candidates, start, duration, A, eps) &&
             CoalescesExactly(candidates, start, duration, W, eps)
    ensures var amperes := Composite(candidates, start, duration, Some(A), eps);
            var watts := Composite(candidates, start, duration, Some(W), eps);
            (amperes.None? <==> watts.None?) &&
            (amperes.Some? ==>
               amperes.value.unit == A && watts.value.unit == W &&
               PeriodsMapped(amperes.value.periods, watts.value.periods, x => x * (230.0 * n as real)))
  {
    if 0 < duration {
      hide AllOffsets, LevelsOf, ToWatts, ConvertsWith, ExactlyCoalesced, Sparse;
      var amperes, watts := LevelsOf(candidates, start, duration, A), LevelsOf(candidates, start, duration, W);
      var offsets := AllOffsets(TimetablesOf(candidates), start, duration);
      AllOffsetsInWindow(TimetablesOf(candidates), start, duration);
      LevelsConvert(candidates, start, duration, n);
      ToWattsIsInjective(n);
      SparseMaps(amperes, watts, eps, ToWatts(n), offsets);
      MappedLiterally(Sparse(amperes, eps, offsets), Sparse(watts, eps, offsets), n);
    }
    hide PeriodsMapped;
  }

  lemma MappedLiterally(amperes: seq<Period>, watts: seq<Period>, n: int)
    requires PeriodsMapped(amperes, watts, ToWatts(n))
    ensures PeriodsMapped(amperes, watts, x => x * (230.0 * n as real))
  {
  }

  // ----- what goes wrong when a schedule does not cover its start -----

  /** The candidate valid at other times. */
  function Revalidated(c: ScopedProfile, validFrom: Option<int>, validTo: Option<int>): ScopedProfile {
    c.(profile := c.profile.(timetable := c.profile.timetable.(validFrom := validFrom, validTo := validTo)))
  }

  /** The candidate with its schedule placed elsewhere in time. */
  function PlacedCandidate(c: ScopedProfile, start: int, validFrom: Option<int>, validTo: Option<int>): ScopedProfile {
    c.(profile := c.profile.(timetable := Placed(c.profile.timetable, start, validFrom, validTo)))
  }

  /** A flat profile of the given purpose in the unit of `c`. */
  function Flat(c: ScopedProfile, purpose: Purpose, start: int, validFrom: Option<int>, level: Level): ScopedProfile {
    ScopedProfile(false, Profile(c.profile.id + 1, 0, purpose,
      Timetable(Absolute, None, validFrom, None,
        Schedule(None, Some(start), c.profile.timetable.schedule.unit,
                 [Period(0, level.limit, level.phases)], None))))
  }

  lemma FlatLevels(c: ScopedProfile, purpose: Purpose, start: int, validFrom: Option<int>, level: Level, t: nat)
    ensures LevelAt(Flat(c, purpose, start, validFrom, level).profile.timetable, start, t) ==
            if validFrom.Some? && start + t < validFrom.value then None else Some(level)
  {
    SolePeriod(Period(0, level.limit, level.phases), t);
    assert start + t - start == t;
    hide PeriodInForce;
  }

  lemma FlatMarks(c: ScopedProfile, purpose: Purpose, start: int, validFrom: Option<int>, level: Level, duration: int)
    ensures var tt := Flat(c, purpose, start, validFrom, level).profile.timetable;
            StartsCovered(tt) && forall t :: t in Marks(tt, start, duration) ==> validFrom == Some(start + t)
  {
    var tt := Flat(c, purpose, start, validFrom, level).profile.timetable;
    assert tt.schedule.periods[0].startPeriod == 0;
    ScheduleMarksAre(tt.schedule, 0, duration);
  }

  /** The other role: what combines with `c` by the stricter limit instead of by precedence. */
  function OtherRole(c: ScopedProfile): Purpose {
    if IsOverride(c) then ChargePointMaxProfile else TxDefaultProfile
  }

  /** A lone candidate is the effective limit. */
  lemma SoleLevel(c: ScopedProfile, start: int, t: int)
    ensures EffectiveAt([c], start, t, c.profile.timetable.schedule.unit) == LevelAt(c.profile.timetable, start, t)
  {
    assert [c][..0] == [];
    assert Winner(Override, [], start + t, start) == None;
    assert Winner(Ceiling, [], start + t, start) == None;
    hide ActiveAt;
  }

  lemma WinnerOfPair(role: Role, c: ScopedProfile, d: ScopedProfile, at: int, windowStart: int)
    ensures Winner(role, [c, d], at, windowStart) ==
            if Plays(role, d, at, windowStart) && (Plays(role, c, at, windowStart) ==> KeyLe(role, c, d)) then Some(d)
            else if Plays(role, c, at, windowStart) then Some(c)
            else None
  {
    assert [c][..0] == [] && [c, d][..1] == [c];
    assert Winner(role, [], at, windowStart) == None;
    hide Plays, KeyLe;
  }

  lemma PairLevel(c: ScopedProfile, d: ScopedProfile, start: int, t: int)
    requires d.profile.purpose == OtherRole(c)
    requires d.profile.timetable.schedule.unit == c.profile.timetable.schedule.unit
    requires var a, b := LevelAt(c.profile.timetable, start, t), LevelAt(d.profile.timetable, start, t);
             a.Some? && b.Some? ==> a.value.limit < b.value.limit
    ensures var a, b := LevelAt(c.profile.timetable, start, t), LevelAt(d.profile.timetable, start, t);
            EffectiveAt([c, d], start, t, c.profile.timetable.schedule.unit) == if a.Some? then a else b
  {
    WinnerOfPair(Override, c, d, start + t, start);
    WinnerOfPair(Ceiling, c, d, start + t, start);
    hide ActiveAt, Winner;
  }

  /** An inherited default applies only while the override that outranks it does not. */
  lemma OutrankedLevel(c: ScopedProfile, d: ScopedProfile, start: int, t: int)
    requires c.profile.purpose == TxProfile || (c.profile.purpose == TxDefaultProfile && c.specific)
    requires d.profile.purpose == TxDefaultProfile && !d.specific
    requires d.profile.timetable.schedule.unit == c.profile.timetable.schedule.unit
    ensures var a, b := LevelAt(c.profile.timetable, start, t), LevelAt(d.profile.timetable, start, t);
            EffectiveAt([c, d], start, t, c.profile.timetable.schedule.unit) == if a.Some? then a else b
  {
    WinnerOfPair(Override, c, d, start + t, start);
    WinnerOfPair(Ceiling, c, d, start + t, start);
    hide ActiveAt, Winner;
  }

  lemma ListedIff(candidates: seq<ScopedProfile>, start: int, duration: int, t: int)
    ensures t in AllOffsets(TimetablesOf(candidates), start, duration) <==>
            t == 0 || exists c :: c in candidates && t in Marks(c.profile.timetable, start, duration)
  {
    var tts := TimetablesOf(candidates);
    AllOffsetsAre(tts, start, duration);
    hide Marks, AllOffsets;
    if tt :| tt in tts && t in Marks(tt, start, duration) {
      var i :| 0 <= i < |tts| && tts[i] == tt;
      assert candidates[i] in candidates;
    }
    if c :| c in candidates && t in Marks(c.profile.timetable, start, duration) {
      var i :| 0 <= i < |candidates| && candidates[i] == c;
      assert tts[i] in tts;
    }
  }

  /** A change at a second that is not walked is missing from the report. */
  lemma ChangeIsLost(candidates: seq<ScopedProfile>, start: int, duration: nat, unit: RateUnit, eps: real, t: nat)
    requires 0 < t < duration && t !in AllOffsets(TimetablesOf(candidates), start, duration)
    requires EffectiveAt(candidates, start, t, unit).Some?
    requires !Unchanged(EffectiveAt(candidates, start, t - 1, unit), EffectiveAt(candidates, start, t, unit).value, eps)
    ensures Composite(candidates, start, duration, Some(unit), eps) !=
            PerSecondComposite(candidates, start, duration, Some(unit), eps)
  {
    hide EffectiveAt, AllOffsets, TimetablesOf, Unchanged;
    AllOffsetsInWindow(TimetablesOf(candidates), start, duration);
    var levels := LevelsOf(candidates, start, duration, unit);
    UnlistedChangeIsLost(levels, eps, AllOffsets(TimetablesOf(candidates), start, duration), t);
    hide LevelsOf, Sparse, Scan;
  }

  lemma Neighbours(offsets: seq<int>, t: int) returns (k: nat)
    requires StrictlyIncreasing(offsets) && t in offsets && t - 1 !in offsets && t - 2 in offsets
    ensures 0 < k < |offsets| && offsets[k] == t && offsets[k - 1] == t - 2
  {
    k :| k < |offsets| && offsets[k] == t;
    var j :| 0 <= j < |offsets| && offsets[j] == t - 2;
    assert offsets[k - 1] in offsets;
  }

  /** A walked second whose predecessor is not walked is compared with the second before that. */
  lemma ChangeIsJudgedWrongly(candidates: seq<ScopedProfile>, start: int, duration: nat, unit: RateUnit, eps: real,
                              t: nat)
    requires 1 < t < duration && t in AllOffsets(TimetablesOf(candidates), start, duration)
    requires t - 1 !in AllOffsets(TimetablesOf(candidates), start, duration)
    requires t - 2 in AllOffsets(TimetablesOf(candidates), start, duration)
    requires EffectiveAt(candidates, start, t, unit).Some?
    requires Unchanged(EffectiveAt(candidates, start, t - 2, unit), EffectiveAt(candidates, start, t, unit).value,
                       eps) !=
             Unchanged(EffectiveAt(candidates, start, t - 1, unit), EffectiveAt(candidates, start, t, unit).value, eps)
    ensures Composite(candidates, start, duration, Some(unit), eps) !=
            PerSecondComposite(candidates, start, duration, Some(unit), eps)
  {
    hide EffectiveAt, AllOffsets, TimetablesOf, Unchanged;
    AllOffsetsInWindow(TimetablesOf(candidates), start, duration);
    var levels, offsets := LevelsOf(candidates, start, duration, unit),
        AllOffsets(TimetablesOf(candidates), start, duration);
    var k := Neighbours(offsets, t);
    ChangeIsMisjudged(levels, eps, offsets, k);
    hide LevelsOf, Sparse, Scan;
  }

  /** A step at a second that is not marked: the profile alone shows it. */
  lemma StepIsLost(p: ScopedProfile, start: int, t: nat, eps: real)
    requires 0 < t && t !in Marks(p.profile.timetable, start, t + 1)
    requires LevelAt(p.profile.timetable, start, t).Some?
    requires !Unchanged(LevelAt(p.profile.timetable, start, t - 1), LevelAt(p.profile.timetable, start, t).value, eps)
    ensures var unit := p.profile.timetable.schedule.unit;
            Composite([p], start, t + 1, Some(unit), eps) != PerSecondComposite([p], start, t + 1, Some(unit), eps)
  {
    hide LevelAt, Marks, EffectiveAt, Unchanged, Composite, PerSecondComposite;
    SoleLevel(p, start, t - 1);
    SoleLevel(p, start, t);
    ListedIff([p], start, t + 1, t);
    hide AllOffsets, TimetablesOf;
    ChangeIsLost([p], start, t + 1, p.profile.timetable.schedule.unit, eps, t);
  }

  /** The laxer limit that shows a gap after `level`. */
  function Laxer(level: Level, eps: real): Level {
    Level(level.limit + eps, None)
  }

  /** A gap that opens at a second that is not marked: what applies in it is never reported. */
  lemma GapIsLost(p: ScopedProfile, start: int, t: nat, eps: real)
    requires eps > 0.0 && 0 < t && t !in Marks(p.profile.timetable, start, t + 1)
    requires LevelAt(p.profile.timetable, start, t - 1).Some? && LevelAt(p.profile.timetable, start, t).None?
    ensures var unit := p.profile.timetable.schedule.unit;
            var flat := Flat(p, OtherRole(p), start, None,
                             Laxer(LevelAt(p.profile.timetable, start, t - 1).value, eps));
            Composite([p, flat], start, t + 1, Some(unit), eps) !=
            PerSecondComposite([p, flat], start, t + 1, Some(unit), eps)
  {
    hide LevelAt, Marks, EffectiveAt, Composite, PerSecondComposite;
    var level := Laxer(LevelAt(p.profile.timetable, start, t - 1).value, eps);
    var flat := Flat(p, OtherRole(p), start, None, level);
    FlatMarks(p, OtherRole(p), start, None, level, t + 1);
    FlatLevels(p, OtherRole(p), start, None, level, t - 1);
    FlatLevels(p, OtherRole(p), start, None, level, t);
    PairLevel(p, flat, start, t - 1);
    PairLevel(p, flat, start, t);
    ListedIff([p, flat], start, t + 1, t);
    hide AllOffsets, TimetablesOf, StartsCovered;
    ChangeIsLost([p, flat], start, t + 1, p.profile.timetable.schedule.unit, eps, t);
  }

  /** A limit that coalesces with exactly one of two different limits which coalesce with each other. */
  function Between(before: Level, after: Level, eps: real): Level {
    Level((if before.limit < after.limit then after.limit else before.limit) - eps, after.phases)
  }

  lemma BetweenTellsApart(before: Level, after: Level, eps: real)
    requires eps > 0.0 && Unchanged(Some(before), after, eps) && before != after
    ensures var between := Between(before, after, eps);
            Unchanged(Some(before), between, eps) != Unchanged(Some(after), between, eps)
  {
  }

  /** Valid for seconds `t - 1` and `t` only. */
  predicate ValidForTwo(p: ScopedProfile, start: int, t: int) {
    p.profile.timetable.validFrom == Some(start + t - 1) && p.profile.timetable.validTo == Some(start + t)
  }

  lemma TwoSecondsMarked(p: ScopedProfile, start: int, t: nat)
    requires 0 < t && ValidForTwo(p, start, t)
    ensures t + 1 in Marks(p.profile.timetable, start, t + 2)
    ensures t == 1 || t - 1 in Marks(p.profile.timetable, start, t + 2)
    ensures LevelAt(p.profile.timetable, start, t + 1) == None
  {
    var tt := p.profile.timetable;
    ValidityEdgeIsMarked(tt, start, t + 2, t + 1);
    if t > 1 { ValidityEdgeIsMarked(tt, start, t + 2, t - 1); }
    hide Marks;
  }

  /** A step below the tolerance at a second that is not marked: the next change is compared with the wrong side of
      it. */
  lemma SmallStepIsLost(p: ScopedProfile, start: int, t: nat, eps: real)
    requires eps > 0.0 && 0 < t && t !in Marks(p.profile.timetable, start, t + 2) && ValidForTwo(p, start, t)
    requires var before, after := LevelAt(p.profile.timetable, start, t - 1), LevelAt(p.profile.timetable, start, t);
             after.Some? && before != after && Unchanged(before, after.value, eps)
    ensures var tt := p.profile.timetable;
            var level := Between(LevelAt(tt, start, t - 1).value, LevelAt(tt, start, t).value, eps);
            var candidates := [p, Flat(p, OtherRole(p), start, Some(start + t + 1), level)];
            Composite(candidates, start, t + 2, Some(tt.schedule.unit), eps) !=
            PerSecondComposite(candidates, start, t + 2, Some(tt.schedule.unit), eps)
  {
    hide LevelAt, Marks, EffectiveAt, Composite, PerSecondComposite;
    var tt := p.profile.timetable;
    var level := Between(LevelAt(tt, start, t - 1).value, LevelAt(tt, start, t).value, eps);
    var candidates := [p, Flat(p, OtherRole(p), start, Some(start + t + 1), level)];
    BetweenTellsApart(LevelAt(tt, start, t - 1).value, LevelAt(tt, start, t).value, eps);
    hide Between, Unchanged;
    SmallStepLevels(p, start, t, level);
    SmallStepOffsets(p, start, t, level);
    hide AllOffsets, TimetablesOf, Flat, ValidForTwo;
    ChangeIsJudgedWrongly(candidates, start, t + 2, tt.schedule.unit, eps, t + 1);
  }

  lemma SmallStepLevels(p: ScopedProfile, start: int, t: nat, level: Level)
    requires 0 < t && ValidForTwo(p, start, t)
    ensures var tt, candidates := p.profile.timetable, [p, Flat(p, OtherRole(p), start, Some(start + t + 1), level)];
            EffectiveAt(candidates, start, t - 1, tt.schedule.unit) == LevelAt(tt, start, t - 1) &&
            EffectiveAt(candidates, start, t, tt.schedule.unit) == LevelAt(tt, start, t) &&
            EffectiveAt(candidates, start, t + 1, tt.schedule.unit) == Some(level)
  {
    hide LevelAt, Marks, EffectiveAt;
    var flat := Flat(p, OtherRole(p), start, Some(start + t + 1), level);
    TwoSecondsMarked(p, start, t);
    FlatLevels(p, OtherRole(p), start, Some(start + t + 1), level, t - 1);
    FlatLevels(p, OtherRole(p), start, Some(start + t + 1), level, t);
    FlatLevels(p, OtherRole(p), start, Some(start + t + 1), level, t + 1);
    PairLevel(p, flat, start, t - 1);
    PairLevel(p, flat, start, t);
    PairLevel(p, flat, start, t + 1);
  }

  lemma SmallStepOffsets(p: ScopedProfile, start: int, t: nat, level: Level)
    requires 0 < t && t !in Marks(p.profile.timetable, start, t + 2) && ValidForTwo(p, start, t)
    ensures var candidates := [p, Flat(p, OtherRole(p), start, Some(start + t + 1), level)];
            var offsets := AllOffsets(TimetablesOf(candidates), start, t + 2);
            t - 1 in offsets && t !in offsets && t + 1 in offsets
  {
    hide Marks, AllOffsets, TimetablesOf, StartsCovered, Flat, LevelAt;
    var flat := Flat(p, OtherRole(p), start, Some(start + t + 1), level);
    TwoSecondsMarked(p, start, t);
    FlatMarks(p, OtherRole(p), start, Some(start + t + 1), level, t + 2);
    ListedByPair(p, flat, start, t + 2, t - 1);
    ListedByPair(p, flat, start, t + 2, t);
    ListedByPair(p, flat, start, t + 2, t + 1);
  }

  lemma ListedByPair(c: ScopedProfile, d: ScopedProfile, start: int, duration: int, t: int)
    ensures t in AllOffsets(TimetablesOf([c, d]), start, duration) <==>
            t == 0 || t in Marks(c.profile.timetable, start, duration) ||
                t in Marks(d.profile.timetable, start, duration)
  {
    hide Marks, AllOffsets, TimetablesOf;
    ListedIff([c, d], start, duration, t);
    assert c in [c, d] && d in [c, d];
  }

  /** Wherever a schedule starts uncovered inside a window, some validity and some covered company make the report
      differ from the per-second report. */
  lemma UncoveredMisreports(c: ScopedProfile, start: int, t: nat, eps: real)
    returns (validFrom: Option<int>, validTo: Option<int>, others: seq<ScopedProfile>, duration: int)
    requires eps > 0.0 && 1 <= t && StartsAtSecond(c.profile.timetable, start, t) && !StartsCovered(c.profile.timetable)
    ensures var candidates := [Revalidated(c, validFrom, validTo)] + others;
            var unit := c.profile.timetable.schedule.unit;
            AllCovered(others, duration) &&
            Composite(candidates, start, duration, Some(unit), eps) !=
            PerSecondComposite(candidates, start, duration, Some(unit), eps)
  {
    hide Composite, PerSecondComposite, Marks, LevelAt;
    var tt := c.profile.timetable;
    if AtStart(tt).Some? && Unchanged(BeforeStart(tt), AtStart(tt).value, eps) {
      validFrom, validTo, duration := Some(start + t - 1), Some(start + t), t + 2;
    } else {
      validFrom, validTo, duration := None, None, t + 1;
    }
    var p := Revalidated(c, validFrom, validTo);
    RevalidatedIsAlike(c, validFrom, validTo, start, t);
    StartIsUnlisted(p.profile.timetable, start, duration, t);
    LevelsAroundStart(p.profile.timetable, start, t);
    if AtStart(tt).None? {
      GapIsLost(p, start, t, eps);
      var level := Laxer(BeforeStart(tt).value, eps);
      FlatMarks(p, OtherRole(p), start, None, level, duration);
      others := [Flat(p, OtherRole(p), start, None, level)];
    } else if Unchanged(BeforeStart(tt), AtStart(tt).value, eps) {
      SmallStepIsLost(p, start, t, eps);
      var level := Between(BeforeStart(tt).value, AtStart(tt).value, eps);
      FlatMarks(p, OtherRole(p), start, Some(start + t + 1), level, duration);
      others := [Flat(p, OtherRole(p), start, Some(start + t + 1), level)];
    } else {
      StepIsLost(p, start, t, eps);
      others := [];
    }
    hide StartsCovered, AtStart, BeforeStart, Unchanged, Between, Laxer, Flat, StartsAtSecond, ValidAt;
    if others != [] { AloneOrPaired(p, others[0], duration); } else { AloneOrPaired(p, p, duration); }
  }

  lemma AloneOrPaired(p: ScopedProfile, d: ScopedProfile, duration: int)
    ensures [p] + [] == [p] && [p] + [d] == [p, d]
    ensures AllCovered([], duration) && (StartsCovered(d.profile.timetable) ==> AllCovered([d], duration))
  {
  }

  lemma RevalidatedIsAlike(c: ScopedProfile, validFrom: Option<int>, validTo: Option<int>, start: int, t: int)
    ensures var tt, p := c.profile.timetable, Revalidated(c, validFrom, validTo).profile.timetable;
            BeforeStart(p) == BeforeStart(tt) && AtStart(p) == AtStart(tt) &&
            RecurrencePeriod(p) == RecurrencePeriod(tt) &&
            (StartsCovered(p) <==> StartsCovered(tt)) && (StartsAtSecond(p, start, t) <==> StartsAtSecond(tt, start, t))
  {
  }

  /** The report is the per-second report wherever the schedule is placed, however long it is valid, whatever covered
      candidates it is combined with and whatever window is asked for, if and only if the schedule covers its start. */
  lemma ReportCoverIsExact(c: ScopedProfile, eps: real)
    requires eps > 0.0 && c.profile.timetable.kind != Relative
    ensures StartsCovered(c.profile.timetable) <==>
            forall start, validFrom, validTo, others, windowStart, duration, requested ::
                AllCovered(others, duration) ==>
              ReportedRightly([PlacedCandidate(c, start, validFrom, validTo)] + others,
                              windowStart, duration, requested, eps)
  {
    hide ReportedRightly, StartsCovered;
    var tt := c.profile.timetable;
    if StartsCovered(tt) {
      forall start, validFrom, validTo, others, windowStart, duration, requested | AllCovered(others, duration)
        ensures ReportedRightly([PlacedCandidate(c, start, validFrom, validTo)] + others,
                                windowStart, duration, requested, eps)
      {
        PlacedIsAlike(tt, start, validFrom, validTo);
        CoveredIsReportedRightly(PlacedCandidate(c, start, validFrom, validTo), others, windowStart, duration,
                                 requested, eps);
      }
    } else {
      PlacedIsAlike(tt, 1, None, None);
      PlacedStarts(tt, 0, None, None);
      var validFrom, validTo, others, duration := UncoveredMisreports(PlacedCandidate(c, 1, None, None), 0, 1, eps);
      assert Revalidated(PlacedCandidate(c, 1, None, None), validFrom, validTo) ==
             PlacedCandidate(c, 1, validFrom, validTo);
      WrongIsNotRight([PlacedCandidate(c, 1, validFrom, validTo)] + others, 0, duration, tt.schedule.unit, eps);
    }
  }

  ghost predicate ReportedRightly(candidates: seq<ScopedProfile>, start: int, duration: int,
                                  requested: Option<RateUnit>, eps: real) {
    Composite(candidates, start, duration, requested, eps) ==
        PerSecondComposite(candidates, start, duration, requested, eps)
  }

  lemma WrongIsNotRight(candidates: seq<ScopedProfile>, start: int, duration: int, unit: RateUnit, eps: real)
    requires Composite(candidates, start, duration, Some(unit), eps) !=
             PerSecondComposite(candidates, start, duration, Some(unit), eps)
    ensures !ReportedRightly(candidates, start, duration, Some(unit), eps)
  {
    hide Composite, PerSecondComposite;
  }

  lemma CoveredIsReportedRightly(c: ScopedProfile, others: seq<ScopedProfile>, start: int, duration: int,
                                 requested: Option<RateUnit>, eps: real)
    requires eps > 0.0 && StartsCovered(c.profile.timetable) && AllCovered(others, duration)
    ensures ReportedRightly([c] + others, start, duration, requested, eps)
  {
    hide Composite, PerSecondComposite, StartsCovered;
    CompositeLosesNothing([c] + others, start, duration, requested, eps);
  }

  /** The same for a recurring schedule without a start of its own, which every window anchors to its opening and which
      starts again only in windows longer than its period. */
  lemma UnanchoredCoverIsExact(c: ScopedProfile, eps: real)
    requires eps > 0.0
    requires RecurrencePeriod(c.profile.timetable).Some? && c.profile.timetable.schedule.startSchedule == None
    ensures StartsCovered(c.profile.timetable) <==>
            forall validFrom, validTo, others, windowStart, duration, requested :: AllCovered(others, duration) ==>
              ReportedRightly([Revalidated(c, validFrom, validTo)] + others, windowStart, duration, requested, eps)
  {
    hide ReportedRightly, StartsCovered;
    var tt := c.profile.timetable;
    if StartsCovered(tt) {
      forall validFrom, validTo, others, windowStart, duration, requested | AllCovered(others, duration)
        ensures ReportedRightly([Revalidated(c, validFrom, validTo)] + others, windowStart, duration, requested, eps)
      {
        RevalidatedIsAlike(c, validFrom, validTo, 0, 0);
        CoveredIsReportedRightly(Revalidated(c, validFrom, validTo), others, windowStart, duration, requested, eps);
      }
    } else {
      UnanchoredStarts(tt, 0);
      var validFrom, validTo, others, duration := UncoveredMisreports(c, 0, RecurrencePeriod(tt).value, eps);
      WrongIsNotRight([Revalidated(c, validFrom, validTo)] + others, 0, duration, tt.schedule.unit, eps);
    }
  }

  /** An uncovered gap makes the report give a wrong limit: over any inherited default it goes on reporting what the
      profile imposed before the gap, at a second at which the default alone applies. */
  lemma GapMisreports(c: ScopedProfile, inherited: Level, start: int, eps: real)
    requires c.profile.timetable.kind != Relative && !StartsCovered(c.profile.timetable)
    requires BeforeStart(c.profile.timetable).Some? && AtStart(c.profile.timetable).None?
    requires c.profile.purpose == TxProfile || (c.profile.purpose == TxDefaultProfile && c.specific)
    ensures var unit := c.profile.timetable.schedule.unit;
            var flat := Flat(c, TxDefaultProfile, start, None, inherited);
            var candidates := [PlacedCandidate(c, start + 1, None, None), flat];
            var report := Composite(candidates, start, 2, Some(unit), eps);
            report.Some? && LevelOf(PeriodInForce(report.value.periods, 1)) == BeforeStart(c.profile.timetable) &&
            EffectiveAt(candidates, start, 1, unit) == Some(inherited)
  {
    hide Marks, LevelAt, EffectiveAt, Composite, StartsCovered, AtStart, BeforeStart;
    var p, flat := PlacedCandidate(c, start + 1, None, None), Flat(c, TxDefaultProfile, start, None, inherited);
    PlacedIsAlike(c.profile.timetable, start + 1, None, None);
    PlacedStarts(c.profile.timetable, start, None, None);
    StartIsUnlisted(p.profile.timetable, start, 2, 1);
    LevelsAroundStart(p.profile.timetable, start, 1);
    FlatMarks(c, TxDefaultProfile, start, None, inherited, 2);
    FlatLevels(c, TxDefaultProfile, start, None, inherited, 0);
    FlatLevels(c, TxDefaultProfile, start, None, inherited, 1);
    OutrankedLevel(p, flat, start, 0);
    OutrankedLevel(p, flat, start, 1);
    ListedIff([p, flat], start, 2, 1);
    hide AllOffsets, TimetablesOf, PeriodInForce;
    ReportStaysAtOpening([p, flat], start, c.profile.timetable.schedule.unit, eps);
  }

  /** When only the opening of two seconds is walked, the report stays at the opening's level. */
  lemma ReportStaysAtOpening(candidates: seq<ScopedProfile>, start: int, unit: RateUnit, eps: real)
    requires 1 !in AllOffsets(TimetablesOf(candidates), start, 2)
    ensures var report := Composite(candidates, start, 2, Some(unit), eps);
            match EffectiveAt(candidates, start, 0, unit)
            case None => report == None
            case Some(level) => report.Some? && LevelOf(PeriodInForce(report.value.periods, 1)) == Some(level)
  {
    hide EffectiveAt, AllOffsets, TimetablesOf, PeriodInForce;
    AllOffsetsInWindow(TimetablesOf(candidates), start, 2);
    OnlyOpening(AllOffsets(TimetablesOf(candidates), start, 2));
    var levels := LevelsOf(candidates, start, 2, unit);
    OpeningHolds(levels, eps, 1);
    SparseToIsEmptyIff(levels, eps, [0], 1);
    NothingInForce();
    hide SparseTo;
  }

  ghost predicate RejectedRightly(candidates: seq<ScopedProfile>, start: int, duration: int,
                                  requested: Option<RateUnit>, eps: real) {
    Composite(candidates, start, duration, requested, eps) == None <==>
    forall t :: 0 <= t < duration ==> Unconstrained(candidates, start, t)
  }

  lemma RejectionIsRight(candidates: seq<ScopedProfile>, start: int, duration: int, requested: Option<RateUnit>,
                         eps: real)
    requires AllArrive(candidates, duration)
    ensures RejectedRightly(candidates, start, duration, requested, eps)
  {
    RejectedIff(candidates, start, duration, requested, eps);
  }

  /** Rejection is right wherever the schedule is placed, and with whatever candidates, if and only if no constraint of
      the schedule appears at an unmarked start. */
  lemma RejectionIsExact(c: ScopedProfile, eps: real)
    requires c.profile.timetable.kind != Relative
    ensures ArrivalIsMarked(c.profile.timetable) <==>
            forall start, validFrom, validTo, others, windowStart, duration, requested ::
                AllArrive(others, duration) ==>
              RejectedRightly([PlacedCandidate(c, start, validFrom, validTo)] + others,
                              windowStart, duration, requested, eps)
  {
    hide RejectedRightly;
    var tt := c.profile.timetable;
    if ArrivalIsMarked(tt) {
      forall start, validFrom, validTo, others, windowStart, duration, requested | AllArrive(others, duration)
        ensures RejectedRightly([PlacedCandidate(c, start, validFrom, validTo)] + others,
                                windowStart, duration, requested, eps)
      {
        PlacedIsAlike(tt, start, validFrom, validTo);
        hide ArrivalIsMarked;
        RejectionIsRight([PlacedCandidate(c, start, validFrom, validTo)] + others, windowStart, duration, requested,
                         eps);
      }
    } else {
      ArrivalIsRejected(c, 0, eps);
      AloneOrPaired(PlacedCandidate(c, 1, None, None), c, 2);
      assert AllArrive([], 2);
    }
  }

  /** A constraint that appears at an unmarked start is rejected as if there were none. */
  lemma ArrivalIsRejected(c: ScopedProfile, start: int, eps: real)
    requires c.profile.timetable.kind != Relative && !ArrivalIsMarked(c.profile.timetable)
    ensures var candidates, unit := [PlacedCandidate(c, start + 1, None, None)], c.profile.timetable.schedule.unit;
            !RejectedRightly(candidates, start, 2, Some(unit), eps)
  {
    hide Composite, Unconstrained, EffectiveAt, AllOffsets, TimetablesOf, PlacedCandidate, ArrivalIsMarked,
        PeriodInForce;
    ArrivalSeconds(c, start);
    var p := PlacedCandidate(c, start + 1, None, None);
    ReportStaysAtOpening([p], start, c.profile.timetable.schedule.unit, eps);
  }

  lemma ArrivalSeconds(c: ScopedProfile, start: int)
    requires c.profile.timetable.kind != Relative && !ArrivalIsMarked(c.profile.timetable)
    ensures var candidates := [PlacedCandidate(c, start + 1, None, None)];
            1 !in AllOffsets(TimetablesOf(candidates), start, 2) &&
            EffectiveAt(candidates, start, 0, c.profile.timetable.schedule.unit) == None &&
            !Unconstrained(candidates, start, 1)
  {
    var tt, p := c.profile.timetable, PlacedCandidate(c, start + 1, None, None);
    assert !StartsCovered(tt);
    hide Marks, LevelAt, EffectiveAt, ProfileLimitAt, StartsCovered, AllOffsets, TimetablesOf;
    PlacedIsAlike(tt, start + 1, None, None);
    PlacedStarts(tt, start, None, None);
    StartIsUnlisted(p.profile.timetable, start, 2, 1);
    LevelsAroundStart(p.profile.timetable, start, 1);
    hide AtStart, BeforeStart, StartsAtSecond;
    SoleLevel(p, start, 0);
    ImposesIff(p.profile, start, 1);
    ListedIff([p], start, 2, 1);
    assert p in [p];
  }
}
