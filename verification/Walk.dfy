/** From a level at every second to a reported period list: the second-by-second scan, and the walk
    over sparse breakpoints that stands in for it. */
module Walk {
  import opened Wrappers
  import opened Timetables
  import opened Breakpoints

  /** One entry a second: the level in force, or None where nothing is imposed. */
  type Levels = seq<Option<Level>>

  function Abs(x: real): real { if x < 0.0 then -x else x }

  predicate Unchanged(prev: Option<Level>, current: Level, eps: real) {
    prev.Some? && Abs(prev.value.limit - current.limit) < eps && prev.value.phases == current.phases
  }

  /** The period opened at second `t`, if any. */
  function Emit(t: int, prev: Option<Level>, current: Option<Level>, eps: real): seq<Period> {
    if current.Some? && !Unchanged(prev, current.value, eps)
    then [Period(t, current.value.limit, current.value.phases)]
    else []
  }

  // ----- the reference: look at every second -----

  function Before(levels: Levels, t: nat): Option<Level>
    requires t <= |levels|
  {
    if t == 0 then None else levels[t - 1]
  }

  /** The periods opened in the first `n` seconds. */
  function ScanTo(levels: Levels, eps: real, n: nat): seq<Period>
    requires n <= |levels|
  {
    if n == 0 then [] else
    ScanTo(levels, eps, n - 1) + Emit(n - 1, Before(levels, n - 1), levels[n - 1], eps)
  }

  function Scan(levels: Levels, eps: real): seq<Period> {
    ScanTo(levels, eps, |levels|)
  }

  // ----- the walk: look at the breakpoints only -----

  ghost predicate InRange(offsets: seq<int>, levels: Levels) {
    forall k :: 0 <= k < |offsets| ==> 0 <= offsets[k] < |levels|
  }

  ghost predicate AreOffsets(offsets: seq<int>, levels: Levels) {
    StrictlyIncreasing(offsets) && offsets != [] && offsets[0] == 0 && InRange(offsets, levels)
  }

  /** Every second at which the level changes is listed. */
  ghost predicate Complete(levels: Levels, offsets: seq<int>) {
    forall t :: 0 < t < |levels| && levels[t] != levels[t - 1] ==> t in offsets
  }

  function PrevAt(levels: Levels, offsets: seq<int>, k: nat): Option<Level>
    requires k < |offsets| && InRange(offsets, levels)
  {
    if k == 0 then None else levels[offsets[k - 1]]
  }

  function EmitAt(levels: Levels, eps: real, offsets: seq<int>, k: nat): seq<Period>
    requires k < |offsets| && InRange(offsets, levels)
  {
    Emit(offsets[k], PrevAt(levels, offsets, k), levels[offsets[k]], eps)
  }

  /** The periods opened at the first `k` breakpoints. */
  function SparseTo(levels: Levels, eps: real, offsets: seq<int>, k: nat): seq<Period>
    requires InRange(offsets, levels) && k <= |offsets|
  {
    if k == 0 then [] else SparseTo(levels, eps, offsets, k - 1) + EmitAt(levels, eps, offsets, k - 1)
  }

  function Sparse(levels: Levels, eps: real, offsets: seq<int>): seq<Period>
    requires InRange(offsets, levels)
  {
    SparseTo(levels, eps, offsets, |offsets|)
  }

  lemma {:induction false} FlatBetween(levels: Levels, offsets: seq<int>, s: int, t: int)
    requires Complete(levels, offsets) && 0 <= s <= t < |levels|
    requires forall u :: s < u <= t ==> u !in offsets
    ensures levels[s] == levels[t]
    decreases t - s
  {
    if s < t { FlatBetween(levels, offsets, s, t - 1); }
  }

  lemma NotListed(offsets: seq<int>, k: nat, t: int)
    requires StrictlyIncreasing(offsets) && k < |offsets|
    requires k + 1 < |offsets| ==> t < offsets[k + 1]
    ensures forall u :: offsets[k] < u <= t ==> u !in offsets
  {
  }

  lemma FlatAfter(levels: Levels, offsets: seq<int>, k: nat, t: int)
    requires AreOffsets(offsets, levels) && Complete(levels, offsets) && k < |offsets|
    requires offsets[k] <= t < |levels| && (k + 1 < |offsets| ==> t < offsets[k + 1])
    ensures levels[offsets[k]] == levels[t]
  {
    NotListed(offsets, k, t);
    FlatBetween(levels, offsets, offsets[k], t);
  }

  /** Up to any second, the walk over the breakpoints reached so far has opened the scanned periods. */
  lemma {:induction false} SparsePrefix(levels: Levels, eps: real, offsets: seq<int>, n: nat, k: nat)
    requires eps > 0.0 && AreOffsets(offsets, levels) && Complete(levels, offsets)
    requires n <= |levels| && k <= |offsets|
    requires k == 0 <==> n == 0
    requires 0 < k ==> offsets[k - 1] < n
    requires k < |offsets| ==> n <= offsets[k]
    ensures SparseTo(levels, eps, offsets, k) == ScanTo(levels, eps, n)
  {
    if n > 0 {
      if offsets[k - 1] == n - 1 {
        SparsePrefix(levels, eps, offsets, n - 1, k - 1);
        if k > 1 { FlatAfter(levels, offsets, k - 2, n - 2); }
      } else {
        SparsePrefix(levels, eps, offsets, n - 1, k);
        FlatAfter(levels, offsets, k - 1, n - 1);
        FlatAfter(levels, offsets, k - 1, n - 2);
        assert Emit(n - 1, levels[n - 2], levels[n - 1], eps) == [];
      }
    }
  }

  /** The sparse walk over a complete list of breakpoints loses nothing. */
  lemma SparseIsScan(levels: Levels, eps: real, offsets: seq<int>)
    requires eps > 0.0 && AreOffsets(offsets, levels) && Complete(levels, offsets)
    ensures Sparse(levels, eps, offsets) == Scan(levels, eps)
  {
    SparsePrefix(levels, eps, offsets, |levels|, |offsets|);
  }

  lemma {:induction false} ScanToIsEmptyIff(levels: Levels, eps: real, n: nat)
    requires n <= |levels|
    ensures ScanTo(levels, eps, n) == [] <==> forall t :: 0 <= t < n ==> levels[t] == None
  {
    if n > 0 {
      ScanToIsEmptyIff(levels, eps, n - 1);
      ScanToStep(levels, eps, n);
      FirstIsEmitted(levels, eps, n - 1);
    }
    hide Emit;
  }

  /** The first constrained second opens a period. */
  lemma FirstIsEmitted(levels: Levels, eps: real, t: nat)
    requires t < |levels|
    ensures levels[t] == None ==> Emit(t, Before(levels, t), levels[t], eps) == []
    ensures Before(levels, t) == None && levels[t].Some? ==> Emit(t, Before(levels, t), levels[t], eps) != []
  {
  }

  /** Whatever breakpoints are walked, every opened period carries the level of the second it opens at. */
  lemma {:induction false} OpenedAreTrue(levels: Levels, eps: real, offsets: seq<int>, k: nat)
    requires InRange(offsets, levels) && k <= |offsets|
    ensures forall p :: p in SparseTo(levels, eps, offsets, k) ==>
              0 <= p.startPeriod < |levels| && levels[p.startPeriod] == Some(Level(p.limit, p.numberPhases))
  {
    if k > 0 { OpenedAreTrue(levels, eps, offsets, k - 1); }
  }

  /** The walk opens nothing exactly when it meets no constrained breakpoint. */
  lemma {:induction false} SparseToIsEmptyIff(levels: Levels, eps: real, offsets: seq<int>, k: nat)
    requires InRange(offsets, levels) && k <= |offsets|
    ensures SparseTo(levels, eps, offsets, k) == [] <==> forall i :: 0 <= i < k ==> levels[offsets[i]] == None
  {
    if k > 0 { SparseToIsEmptyIff(levels, eps, offsets, k - 1); }
  }

  /** Every second at which a constraint appears out of nothing is listed. */
  ghost predicate ListsArrivals(levels: Levels, offsets: seq<int>) {
    forall t :: 0 < t < |levels| && levels[t - 1] == None && levels[t] != None ==> t in offsets
  }

  lemma {:induction false} UnconstrainedUpTo(levels: Levels, offsets: seq<int>, t: nat)
    requires AreOffsets(offsets, levels) && ListsArrivals(levels, offsets)
    requires forall k :: 0 <= k < |offsets| ==> levels[offsets[k]] == None
    requires t < |levels|
    ensures levels[t] == None
  {
    if t > 0 { UnconstrainedUpTo(levels, offsets, t - 1); }
  }

  /** Listing the arrivals is enough for the walk to report nothing exactly when nothing is constrained. */
  lemma SparseIsEmptyIff(levels: Levels, eps: real, offsets: seq<int>)
    requires AreOffsets(offsets, levels) && ListsArrivals(levels, offsets)
    ensures Sparse(levels, eps, offsets) == [] <==> forall t :: 0 <= t < |levels| ==> levels[t] == None
  {
    SparseToIsEmptyIff(levels, eps, offsets, |offsets|);
    if Sparse(levels, eps, offsets) == [] {
      forall t | 0 <= t < |levels| ensures levels[t] == None { UnconstrainedUpTo(levels, offsets, t); }
    }
  }

  // ----- reading a report back -----

  lemma {:induction false} InForceIgnoresLater(periods: seq<Period>, later: seq<Period>, t: int)
    requires forall p :: p in later ==> t < p.startPeriod
    ensures PeriodInForce(periods + later, t) == PeriodInForce(periods, t)
  {
    if later == [] {
      assert periods + later == periods;
    } else {
      var n := |later| - 1;
      assert later[n] in later;
      assert forall p :: p in later[..n] ==> p in later;
      InForceIgnoresLater(periods, later[..n], t);
      assert (periods + later)[..|periods| + n] == periods + later[..n];
    }
  }

  lemma InForceIsLatest(periods: seq<Period>, p: Period, t: int)
    requires p.startPeriod <= t && forall q :: q in periods ==> q.startPeriod <= p.startPeriod
    ensures PeriodInForce(periods + [p], t) == Some(p)
  {
    PeriodInForceIsInForce(periods, t);
    assert (periods + [p])[..|periods|] == periods;
  }

  lemma {:induction false} InForceHolds(periods: seq<Period>, s: int, t: int)
    requires s <= t && forall p :: p in periods ==> !(s < p.startPeriod <= t)
    ensures PeriodInForce(periods, s) == PeriodInForce(periods, t)
    decreases t - s
  {
    if s < t {
      InForceIsStable(periods, t);
      InForceHolds(periods, s, t - 1);
    }
  }

  /** The limit a period list gives at second `t`. */
  function LimitAt(periods: seq<Period>, t: int): Option<real> {
    LimitOf(LevelOf(PeriodInForce(periods, t)))
  }

  function LimitOf(level: Option<Level>): Option<real> {
    match level
    case None => None
    case Some(l) => Some(l.limit)
  }

  // ----- how far the report can drift -----

  /** How many breakpoints up to the `k`-th were coalesced since the last period opened. */
  function Coalesced(levels: Levels, eps: real, offsets: seq<int>, k: nat): nat
    requires k < |offsets| && InRange(offsets, levels)
  {
    if k == 0 || levels[offsets[k]].None? || EmitAt(levels, eps, offsets, k) != [] then 0
    else 1 + Coalesced(levels, eps, offsets, k - 1)
  }

  /** `reported` is within `steps` coalescings of `actual`: exact when there were none. */
  predicate Within(reported: Option<Period>, actual: Level, eps: real, steps: nat) {
    reported.Some? && reported.value.numberPhases == actual.phases &&
    (if steps == 0 then reported.value.limit == actual.limit
     else Abs(reported.value.limit - actual.limit) < eps * steps as real)
  }

  lemma WithinStep(reported: Option<Period>, last: Level, next: Level, eps: real, steps: nat)
    requires eps > 0.0 && Within(reported, last, eps, steps) && Unchanged(Some(last), next, eps)
    ensures Within(reported, next, eps, steps + 1)
  {
    OneMore(eps, steps);
    Triangle(reported.value.limit, last.limit, next.limit);
  }

  lemma OneMore(eps: real, steps: nat)
    ensures eps * (steps + 1) as real == eps * steps as real + eps
  {
  }

  lemma Triangle(a: real, b: real, c: real)
    ensures Abs(a - c) <= Abs(a - b) + Abs(b - c)
  {
  }

  lemma {:induction false} SparseStarts(levels: Levels, eps: real, offsets: seq<int>, k: nat)
    requires AreOffsets(offsets, levels) && k < |offsets|
    ensures forall p :: p in SparseTo(levels, eps, offsets, k + 1) ==> p.startPeriod <= offsets[k]
    ensures forall p :: p in SparseTo(levels, eps, offsets, k) ==> p.startPeriod < offsets[k]
  {
    hide SparseTo, EmitAt;
    SparseToStep(levels, eps, offsets, k + 1);
    if k > 0 {
      SparseStarts(levels, eps, offsets, k - 1);
      assert offsets[k - 1] < offsets[k];
    } else {
      SparseToNone(levels, eps, offsets);
    }
    hide StrictlyIncreasing;
  }

  lemma SparseToNone(levels: Levels, eps: real, offsets: seq<int>)
    requires InRange(offsets, levels)
    ensures SparseTo(levels, eps, offsets, 0) == []
  {
  }

  /** Each breakpoint adds the period it opens, if any. */
  lemma SparseToStep(levels: Levels, eps: real, offsets: seq<int>, k: nat)
    requires InRange(offsets, levels) && 0 < k <= |offsets|
    ensures var emitted := EmitAt(levels, eps, offsets, k - 1);
            SparseTo(levels, eps, offsets, k) == SparseTo(levels, eps, offsets, k - 1) + emitted &&
            (emitted != [] ==> emitted == [emitted[0]] && emitted[0].startPeriod == offsets[k - 1])
  {
  }

  lemma {:induction false} DriftAtBreakpoint(levels: Levels, eps: real, offsets: seq<int>, k: nat)
    requires eps > 0.0 && AreOffsets(offsets, levels) && k < |offsets|
    requires levels[offsets[k]].Some?
    ensures Within(PeriodInForce(SparseTo(levels, eps, offsets, k + 1), offsets[k]),
                   levels[offsets[k]].value, eps, Coalesced(levels, eps, offsets, k))
  {
    SparseStarts(levels, eps, offsets, k);
    if EmitAt(levels, eps, offsets, k) != [] {
      InForceIsLatest(SparseTo(levels, eps, offsets, k), EmitAt(levels, eps, offsets, k)[0], offsets[k]);
    } else {
      DriftAtBreakpoint(levels, eps, offsets, k - 1);
      CoalescedKeepsReport(levels, eps, offsets, k);
      WithinStep(PeriodInForce(SparseTo(levels, eps, offsets, k), offsets[k]), levels[offsets[k - 1]].value,
                 levels[offsets[k]].value, eps, Coalesced(levels, eps, offsets, k - 1));
    }
  }

  lemma CoalescedKeepsReport(levels: Levels, eps: real, offsets: seq<int>, k: nat)
    requires AreOffsets(offsets, levels) && 0 < k < |offsets| && EmitAt(levels, eps, offsets, k) == []
    ensures SparseTo(levels, eps, offsets, k + 1) == SparseTo(levels, eps, offsets, k)
    ensures PeriodInForce(SparseTo(levels, eps, offsets, k), offsets[k]) ==
            PeriodInForce(SparseTo(levels, eps, offsets, k), offsets[k - 1])
  {
    SparseStarts(levels, eps, offsets, k - 1);
    InForceHolds(SparseTo(levels, eps, offsets, k), offsets[k - 1], offsets[k]);
  }

  lemma {:induction false} InForceOfPrefix(levels: Levels, eps: real, offsets: seq<int>, k: nat, j: nat, t: int)
    requires AreOffsets(offsets, levels) && k <= j <= |offsets|
    requires k < |offsets| ==> t < offsets[k]
    ensures PeriodInForce(SparseTo(levels, eps, offsets, j), t) == PeriodInForce(SparseTo(levels, eps, offsets, k), t)
    decreases j
  {
    if k < j {
      InForceOfPrefix(levels, eps, offsets, k, j - 1, t);
      InForceIgnoresLater(SparseTo(levels, eps, offsets, j - 1), EmitAt(levels, eps, offsets, j - 1), t);
    }
  }

  /** The index of the last breakpoint at or before `t`. */
  function LastBreakpoint(offsets: seq<int>, t: int): (k: nat)
    requires StrictlyIncreasing(offsets) && offsets != [] && offsets[0] <= t
    ensures k < |offsets| && offsets[k] <= t && (k + 1 < |offsets| ==> t < offsets[k + 1])
  {
    var n := |offsets| - 1;
    if offsets[n] <= t then n else LastBreakpoint(offsets[..n], t)
  }

  /** What is reported between two breakpoints is what was reported at the first of them. */
  lemma ReportHolds(levels: Levels, eps: real, offsets: seq<int>, k: nat, t: int)
    requires AreOffsets(offsets, levels) && k < |offsets|
    requires offsets[k] <= t && (k + 1 < |offsets| ==> t < offsets[k + 1])
    ensures PeriodInForce(Sparse(levels, eps, offsets), t) ==
            PeriodInForce(SparseTo(levels, eps, offsets, k + 1), offsets[k])
  {
    SparseStarts(levels, eps, offsets, k);
    InForceHolds(SparseTo(levels, eps, offsets, k + 1), offsets[k], t);
    InForceOfPrefix(levels, eps, offsets, k + 1, |offsets|, t);
  }

  /** The first second of a window is always reported as it is. */
  lemma OpeningIsExact(levels: Levels, eps: real, offsets: seq<int>)
    requires AreOffsets(offsets, levels)
    ensures LevelOf(PeriodInForce(Sparse(levels, eps, offsets), 0)) == levels[0]
  {
    hide PeriodInForce;
    InForceOfPrefix(levels, eps, offsets, 1, |offsets|, 0);
    OpeningOnly(levels, eps, offsets, 0);
  }

  lemma OpeningOnly(levels: Levels, eps: real, offsets: seq<int>, t: nat)
    requires AreOffsets(offsets, levels)
    ensures LevelOf(PeriodInForce(SparseTo(levels, eps, offsets, 1), t)) == levels[0]
  {
    assert SparseTo(levels, eps, offsets, 0) == [];
    assert SparseTo(levels, eps, offsets, 1) == Emit(0, None, levels[0], eps);
    if levels[0].Some? { SolePeriod(Emit(0, None, levels[0], eps)[0], t); }
  }

  lemma SolePeriod(p: Period, t: int)
    ensures PeriodInForce([p], t) == if p.startPeriod <= t then Some(p) else None
  {
    assert [p][..0] == [];
    assert PeriodInForce([], t) == None;
  }

  lemma NothingInForce()
    ensures forall t :: PeriodInForce([], t) == None
  {
  }

  lemma OnlyOpening(offsets: seq<int>)
    requires StrictlyIncreasing(offsets) && offsets != [] && 1 !in offsets
    requires forall k :: 0 <= k < |offsets| ==> 0 <= offsets[k] < 2
    ensures offsets == [0]
  {
    assert offsets[0] in offsets && forall k :: 0 <= k < |offsets| ==> offsets[k] in offsets && offsets[k] == 0;
    IncreasingIsUnique(offsets, [0]);
  }

  /** When nothing but the opening is walked, the report stays at its level. */
  lemma OpeningHolds(levels: Levels, eps: real, t: nat)
    requires levels != []
    ensures InRange([0], levels) && LevelOf(PeriodInForce(Sparse(levels, eps, [0]), t)) == levels[0]
  {
    OpeningOnly(levels, eps, [0], t);
  }

  /** At every constrained second the reported limit differs from the true one by less than `eps` for
      each breakpoint coalesced since the last opened period, and not at all when there is none. */
  lemma ReportDrift(levels: Levels, eps: real, offsets: seq<int>, t: nat)
    requires eps > 0.0 && AreOffsets(offsets, levels) && Complete(levels, offsets)
    requires t < |levels| && levels[t].Some?
    ensures var steps := Coalesced(levels, eps, offsets, LastBreakpoint(offsets, t));
            Within(PeriodInForce(Sparse(levels, eps, offsets), t), levels[t].value, eps, steps)
  {
    var k := LastBreakpoint(offsets, t);
    FlatAfter(levels, offsets, k, t);
    ReportHolds(levels, eps, offsets, k, t);
    DriftAtBreakpoint(levels, eps, offsets, k);
  }

  /** How far a limit has risen after `t` seconds of `step` each. */
  function Climb(step: real, t: nat): real {
    if t == 0 then 0.0 else Climb(step, t - 1) + step
  }

  lemma {:induction false} ClimbPasses(step: real, bound: real, t: nat)
    requires 0.0 < step && bound / step < t as real
    ensures bound < Climb(step, t)
  {
    ClimbIsProduct(step, t);
    assert bound / step * step == bound;
    assert (t as real - bound / step) * step > 0.0;
  }

  lemma {:induction false} ClimbIsProduct(step: real, t: nat)
    ensures Climb(step, t) == t as real * step
  {
    if t > 0 {
      ClimbIsProduct(step, t - 1);
      assert (t - 1) as real * step + step == t as real * step;
    }
  }

  /** A limit that rises by `step` every second. */
  function Staircase(step: real, n: nat): Levels {
    seq(n, t requires 0 <= t => Some(Level(Climb(step, t), None)))
  }

  /** Steps below the tolerance are all coalesced into the first period, however many there are. */
  lemma {:induction false} StaircaseIsFlattened(step: real, eps: real, n: nat, k: nat)
    requires 0.0 <= step < eps && 0 < k <= n
    ensures ScanTo(Staircase(step, n), eps, k) == [Period(0, 0.0, None)]
  {
    var levels := Staircase(step, n);
    if k > 1 {
      StaircaseIsFlattened(step, eps, n, k - 1);
      assert Climb(step, k - 1) == Climb(step, k - 2) + step;
      assert Emit(k - 1, levels[k - 2], levels[k - 1], eps) == [];
    } else {
      assert ScanTo(levels, eps, 0) == [];
    }
  }

  // ----- exact coalescing -----

  /** Neighbouring seconds that coalesce are equal. */
  ghost predicate Separated(levels: Levels, eps: real) {
    forall t :: 0 < t < |levels| ==> Apart(levels, eps, t)
  }

  /** Second `t` is no closer to the one before it than the tolerance, or is equal to it. */
  predicate Apart(levels: Levels, eps: real, t: int)
    requires 0 < t < |levels|
  {
    levels[t].Some? && Unchanged(levels[t - 1], levels[t].value, eps) ==> levels[t - 1] == levels[t]
  }

  lemma {:induction false} ScanStarts(levels: Levels, eps: real, n: nat)
    requires n <= |levels|
    ensures forall p :: p in ScanTo(levels, eps, n) ==> 0 <= p.startPeriod < n
  {
    if n > 0 { ScanStarts(levels, eps, n - 1); }
  }

  /** With exact coalescing the report gives back the level of every constrained second. */
  lemma {:induction false} ScanToReports(levels: Levels, eps: real, n: nat, t: nat)
    requires eps > 0.0 && Separated(levels, eps) && t < n <= |levels| && levels[t].Some?
    ensures LevelOf(PeriodInForce(ScanTo(levels, eps, n), t)) == levels[t]
  {
    if t < n - 1 {
      ScanToReports(levels, eps, n - 1, t);
      InForceIgnoresLater(ScanTo(levels, eps, n - 1), Emit(n - 1, Before(levels, n - 1), levels[n - 1], eps), t);
    } else {
      if t > 0 && levels[t - 1].Some? { ScanToReports(levels, eps, t, t - 1); }
      LatestReports(levels, eps, t);
    }
  }

  lemma LatestReports(levels: Levels, eps: real, t: nat)
    requires eps > 0.0 && Separated(levels, eps) && t < |levels| && levels[t].Some?
    requires t > 0 && levels[t - 1].Some? ==>
               LevelOf(PeriodInForce(ScanTo(levels, eps, t), t - 1)) == levels[t - 1]
    ensures LevelOf(PeriodInForce(ScanTo(levels, eps, t + 1), t)) == levels[t]
  {
    var periods, emitted := ScanTo(levels, eps, t), Emit(t, Before(levels, t), levels[t], eps);
    assert ScanTo(levels, eps, t + 1) == periods + emitted;
    ScanStarts(levels, eps, t);
    if emitted != [] {
      InForceIsLatest(periods, emitted[0], t);
    } else {
      assert Apart(levels, eps, t);
      assert periods + emitted == periods;
      InForceHolds(periods, t - 1, t);
    }
  }

  /** The scan opens a period exactly where the level changes by the tolerance test. */
  lemma {:induction false} ScanOpensIff(levels: Levels, eps: real, n: nat, t: nat)
    requires t < n <= |levels|
    ensures StartsAt(ScanTo(levels, eps, n), t) <==> Emit(t, Before(levels, t), levels[t], eps) != []
  {
    hide ScanTo, Emit;
    ScanStarts(levels, eps, n - 1);
    ScanToStep(levels, eps, n);
    EmitStarts(n - 1, Before(levels, n - 1), levels[n - 1], eps);
    StartsAtAppend(ScanTo(levels, eps, n - 1), Emit(n - 1, Before(levels, n - 1), levels[n - 1], eps), t);
    if t < n - 1 { ScanOpensIff(levels, eps, n - 1, t); }
  }

  lemma EmitStarts(t: int, prev: Option<Level>, current: Option<Level>, eps: real)
    ensures StartsAt(Emit(t, prev, current, eps), t) <==> Emit(t, prev, current, eps) != []
    ensures forall u :: u != t ==> !StartsAt(Emit(t, prev, current, eps), u)
  {
    if Emit(t, prev, current, eps) != [] { assert Emit(t, prev, current, eps)[0] in Emit(t, prev, current, eps); }
  }

  lemma StartsAtAppend(a: seq<Period>, b: seq<Period>, t: int)
    ensures StartsAt(a + b, t) <==> StartsAt(a, t) || StartsAt(b, t)
  {
    if p :| p in a && p.startPeriod == t { assert p in a + b; }
    if p :| p in b && p.startPeriod == t { assert p in a + b; }
  }

  /** The per-second report gives the true limit at every constrained second if and only if no two
      neighbouring seconds differ by less than the tolerance. */
  lemma ReportIsExactIff(levels: Levels, eps: real)
    requires eps > 0.0
    ensures Separated(levels, eps) <==>
            forall t :: 0 <= t < |levels| && levels[t].Some? ==>
              LimitAt(Scan(levels, eps), t) == Some(levels[t].value.limit)
  {
    if Separated(levels, eps) {
      forall t | 0 <= t < |levels| && levels[t].Some?
        ensures LimitAt(Scan(levels, eps), t) == Some(levels[t].value.limit)
      {
        ScanToReports(levels, eps, |levels|, t);
      }
    } else {
      var t :| 0 < t < |levels| && !Apart(levels, eps, t);
      ScanOpensIff(levels, eps, |levels|, t);
      InForceIsStable(Scan(levels, eps), t);
      assert LimitAt(Scan(levels, eps), t - 1) == LimitAt(Scan(levels, eps), t);
      assert levels[t - 1].Some? && levels[t].Some? && levels[t - 1].value.limit != levels[t].value.limit;
    }
  }

  /** The level a period list gives at each of the first `n` seconds. */
  function Replay(periods: seq<Period>, n: nat): (levels: Levels)
    ensures |levels| == n
  {
    seq(n, t => LevelOf(PeriodInForce(periods, t)))
  }

  /** Where every second is constrained, a report replayed is the levels it was made from. */
  lemma ReplayGivesBack(levels: Levels, eps: real)
    requires eps > 0.0 && Separated(levels, eps)
    requires forall t :: 0 <= t < |levels| ==> levels[t].Some?
    ensures Replay(Scan(levels, eps), |levels|) == levels
  {
    forall t | 0 <= t < |levels| ensures Replay(Scan(levels, eps), |levels|)[t] == levels[t] {
      ScanToReports(levels, eps, |levels|, t);
    }
  }

  // ----- exactly when a walk is exact, whatever it lists -----

  /** Walked seconds that coalesce have equal limits. */
  ghost predicate ExactlyCoalesced(levels: Levels, eps: real, offsets: seq<int>)
    requires InRange(offsets, levels)
  {
    forall k :: 0 < k < |offsets| ==> StepIsExact(levels, eps, offsets, k)
  }

  predicate StepIsExact(levels: Levels, eps: real, offsets: seq<int>, k: int)
    requires 0 < k < |offsets| && InRange(offsets, levels)
  {
    var prev, current := levels[offsets[k - 1]], levels[offsets[k]];
    current.Some? && Unchanged(prev, current.value, eps) ==> prev.value.limit == current.value.limit
  }

  /** A constrained second that is not listed has the limit of the second before it. */
  ghost predicate LimitsHold(levels: Levels, offsets: seq<int>) {
    forall t :: 0 < t < |levels| && levels[t].Some? && t !in offsets ==> LimitOf(levels[t - 1]) == LimitOf(levels[t])
  }

  lemma {:induction false} ExactAtBreakpoint(levels: Levels, eps: real, offsets: seq<int>, k: nat)
    requires AreOffsets(offsets, levels) && ExactlyCoalesced(levels, eps, offsets) && k < |offsets|
    requires levels[offsets[k]].Some?
    ensures LimitAt(SparseTo(levels, eps, offsets, k + 1), offsets[k]) == LimitOf(levels[offsets[k]])
  {
    SparseStarts(levels, eps, offsets, k);
    if EmitAt(levels, eps, offsets, k) != [] {
      InForceIsLatest(SparseTo(levels, eps, offsets, k), EmitAt(levels, eps, offsets, k)[0], offsets[k]);
    } else {
      assert StepIsExact(levels, eps, offsets, k);
      ExactAtBreakpoint(levels, eps, offsets, k - 1);
      CoalescedKeepsReport(levels, eps, offsets, k);
    }
    hide PeriodInForce, ExactlyCoalesced, AreOffsets;
  }

  lemma {:induction false} LimitFlatBetween(levels: Levels, offsets: seq<int>, s: int, t: int)
    requires LimitsHold(levels, offsets) && 0 <= s <= t < |levels| && levels[t].Some?
    requires forall u :: s < u <= t ==> u !in offsets
    ensures LimitOf(levels[s]) == LimitOf(levels[t])
    decreases t - s
  {
    if s < t { LimitFlatBetween(levels, offsets, s, t - 1); }
  }

  lemma ExactAt(levels: Levels, eps: real, offsets: seq<int>, t: nat)
    requires AreOffsets(offsets, levels) && LimitsHold(levels, offsets) && ExactlyCoalesced(levels, eps, offsets)
    requires t < |levels| && levels[t].Some?
    ensures LimitAt(Sparse(levels, eps, offsets), t) == LimitOf(levels[t])
  {
    var k := LastBreakpoint(offsets, t);
    NotListed(offsets, k, t);
    LimitFlatBetween(levels, offsets, offsets[k], t);
    ReportHolds(levels, eps, offsets, k, t);
    ExactAtBreakpoint(levels, eps, offsets, k);
    hide PeriodInForce, Sparse, SparseTo;
  }

  lemma CoalescedReportsAlike(levels: Levels, eps: real, offsets: seq<int>, k: nat)
    requires AreOffsets(offsets, levels) && 0 < k < |offsets| && EmitAt(levels, eps, offsets, k) == []
    ensures LimitAt(Sparse(levels, eps, offsets), offsets[k]) == LimitAt(Sparse(levels, eps, offsets), offsets[k - 1])
  {
    hide PeriodInForce, Sparse, SparseTo, EmitAt;
    CoalescedKeepsReport(levels, eps, offsets, k);
    ReportHolds(levels, eps, offsets, k, offsets[k]);
    ReportHolds(levels, eps, offsets, k - 1, offsets[k - 1]);
  }

  /** If constrained seconds that are not listed keep their limits, the walk reports the true limit at every constrained
      second if and only if walked seconds that coalesce have equal limits. */
  lemma WalkIsExactIff(levels: Levels, eps: real, offsets: seq<int>)
    requires AreOffsets(offsets, levels) && LimitsHold(levels, offsets)
    ensures ExactlyCoalesced(levels, eps, offsets) <==>
            forall t :: 0 <= t < |levels| && levels[t].Some? ==>
              LimitAt(Sparse(levels, eps, offsets), t) == LimitOf(levels[t])
  {
    hide LimitAt, Sparse, LimitsHold;
    if ExactlyCoalesced(levels, eps, offsets) {
      forall t | 0 <= t < |levels| && levels[t].Some?
        ensures LimitAt(Sparse(levels, eps, offsets), t) == LimitOf(levels[t])
      {
        ExactAt(levels, eps, offsets, t);
      }
    } else {
      var k :| 0 < k < |offsets| && !StepIsExact(levels, eps, offsets, k);
      CoalescedReportsAlike(levels, eps, offsets, k);
      assert levels[offsets[k]].Some? && levels[offsets[k - 1]].Some?;
    }
  }

  /** Over complete breakpoints walked seconds coalesce exactly if and only if neighbouring seconds do. */
  lemma SeparatedIff(levels: Levels, eps: real, offsets: seq<int>)
    requires eps > 0.0 && AreOffsets(offsets, levels) && Complete(levels, offsets)
    ensures LimitsHold(levels, offsets)
    ensures Separated(levels, eps) <==> ExactlyCoalesced(levels, eps, offsets)
  {
    if Separated(levels, eps) {
      forall k | 0 < k < |offsets| ensures StepIsExact(levels, eps, offsets, k) {
        FlatAfter(levels, offsets, k - 1, offsets[k] - 1);
        assert Apart(levels, eps, offsets[k]);
      }
    }
    if ExactlyCoalesced(levels, eps, offsets) {
      forall t | 0 < t < |levels| ensures Apart(levels, eps, t) {
        if t in offsets {
          var k :| 0 <= k < |offsets| && offsets[k] == t;
          FlatAfter(levels, offsets, k - 1, t - 1);
          assert StepIsExact(levels, eps, offsets, k);
        }
      }
    }
  }

  // ----- what a walk that misses a change loses -----

  lemma {:induction false} SparseOpensListed(levels: Levels, eps: real, offsets: seq<int>, k: nat, t: int)
    requires InRange(offsets, levels) && k <= |offsets| && t !in offsets
    ensures !StartsAt(SparseTo(levels, eps, offsets, k), t)
  {
    if k > 0 {
      SparseOpensListed(levels, eps, offsets, k - 1, t);
      SparseToStep(levels, eps, offsets, k);
      hide SparseTo, EmitAt;
    }
  }

  /** The walk opens a period at a listed second exactly where it differs from the one listed before it. */
  lemma {:induction false} SparseOpensIff(levels: Levels, eps: real, offsets: seq<int>, n: nat, k: nat)
    requires AreOffsets(offsets, levels) && k < n <= |offsets|
    ensures StartsAt(SparseTo(levels, eps, offsets, n), offsets[k]) <==> EmitAt(levels, eps, offsets, k) != []
  {
    hide SparseTo, Emit;
    SparseStarts(levels, eps, offsets, n - 1);
    SparseToStep(levels, eps, offsets, n);
    EmitStarts(offsets[n - 1], PrevAt(levels, offsets, n - 1), levels[offsets[n - 1]], eps);
    StartsAtAppend(SparseTo(levels, eps, offsets, n - 1), EmitAt(levels, eps, offsets, n - 1), offsets[k]);
    if k < n - 1 { SparseOpensIff(levels, eps, offsets, n - 1, k); }
    hide StrictlyIncreasing, EmitAt;
  }

  /** A change that the scan would open, at a second that is not listed. */
  lemma UnlistedChangeIsLost(levels: Levels, eps: real, offsets: seq<int>, t: int)
    requires InRange(offsets, levels) && 0 <= t < |levels| && t !in offsets
    requires Emit(t, Before(levels, t), levels[t], eps) != []
    ensures Sparse(levels, eps, offsets) != Scan(levels, eps)
  {
    ScanOpensIff(levels, eps, |levels|, t);
    SparseOpensListed(levels, eps, offsets, |offsets|, t);
    hide ScanTo, SparseTo;
  }

  /** A listed second judged by another second than the one before it. */
  lemma ChangeIsMisjudged(levels: Levels, eps: real, offsets: seq<int>, k: nat)
    requires AreOffsets(offsets, levels) && k < |offsets|
    requires (EmitAt(levels, eps, offsets, k) == []) !=
             (Emit(offsets[k], Before(levels, offsets[k]), levels[offsets[k]], eps) == [])
    ensures Sparse(levels, eps, offsets) != Scan(levels, eps)
  {
    ScanOpensIff(levels, eps, |levels|, offsets[k]);
    SparseOpensIff(levels, eps, offsets, |offsets|, k);
    hide ScanTo, SparseTo, EmitAt, Emit;
  }

  // ----- replaying any report -----

  ghost predicate Ordered(periods: seq<Period>) {
    forall i, j :: 0 <= i < j < |periods| ==> periods[i].startPeriod < periods[j].startPeriod
  }

  function Imposed(p: Period): Level {
    Level(p.limit, p.numberPhases)
  }

  /** No period is within the tolerance of the one listed before it. */
  ghost predicate NoneCoalesce(periods: seq<Period>, eps: real) {
    forall i :: 0 < i < |periods| ==> !Coalesces(periods, eps, i)
  }

  predicate Coalesces(periods: seq<Period>, eps: real, i: int)
    requires 0 < i < |periods|
  {
    Unchanged(Some(Imposed(periods[i - 1])), Imposed(periods[i]), eps)
  }

  lemma OrderedSnoc(periods: seq<Period>, p: Period)
    requires Ordered(periods) && forall q :: q in periods ==> q.startPeriod < p.startPeriod
    ensures Ordered(periods + [p])
  {
    assert forall i :: 0 <= i < |periods| ==> periods[i] in periods;
  }

  lemma {:induction false} SparseIsOrdered(levels: Levels, eps: real, offsets: seq<int>, k: nat)
    requires AreOffsets(offsets, levels) && k <= |offsets|
    ensures Ordered(SparseTo(levels, eps, offsets, k))
    ensures forall p :: p in SparseTo(levels, eps, offsets, k) ==> 0 <= p.startPeriod < |levels|
  {
    hide EmitAt, Complete;
    if k > 0 {
      SparseIsOrdered(levels, eps, offsets, k - 1);
      SparseStarts(levels, eps, offsets, k - 1);
      SparseToStep(levels, eps, offsets, k);
      var before := SparseTo(levels, eps, offsets, k - 1);
      if EmitAt(levels, eps, offsets, k - 1) == [] {
        assert before + [] == before;
      } else {
        OrderedSnoc(before, EmitAt(levels, eps, offsets, k - 1)[0]);
      }
      hide Ordered;
    }
    hide StrictlyIncreasing;
  }

  lemma InForceOfOrdered(periods: seq<Period>, t: int, j: nat)
    requires Ordered(periods) && j <= |periods|
    requires (0 < j ==> periods[j - 1].startPeriod <= t) && (j < |periods| ==> t < periods[j].startPeriod)
    ensures PeriodInForce(periods, t) == if j == 0 then None else Some(periods[j - 1])
  {
    PeriodInForceIsInForce(periods, t);
    if j > 0 { assert Outranks(periods, t, j - 1); }
    InForceIsUnique(periods, t, PeriodInForce(periods, t), if j == 0 then None else Some(periods[j - 1]));
  }

  /** A replayed list gives at each second the last of its periods begun by then. */
  lemma ReplayedAt(periods: seq<Period>, n: nat, t: nat, j: nat)
    requires Ordered(periods) && j <= |periods| && t < n
    requires (0 < j ==> periods[j - 1].startPeriod <= t) && (j < |periods| ==> t < periods[j].startPeriod)
    ensures Replay(periods, n)[t] == if j == 0 then None else Some(Imposed(periods[j - 1]))
  {
    InForceOfOrdered(periods, t, j);
  }

  /** Replaying opens a period exactly where one of the list begins. */
  lemma ReplayOpens(periods: seq<Period>, eps: real, n: nat, t: nat, j: nat)
    requires eps > 0.0 && Ordered(periods) && NoneCoalesce(periods, eps) && t < n && j <= |periods|
    requires forall p :: p in periods ==> 0 <= p.startPeriod
    requires (0 < j ==> periods[j - 1].startPeriod <= t) && (j < |periods| ==> t < periods[j].startPeriod)
    ensures var levels := Replay(periods, n);
            Emit(t, Before(levels, t), levels[t], eps) ==
            if 0 < j && periods[j - 1].startPeriod == t then [periods[j - 1]] else []
  {
    ReplayedAt(periods, n, t, j);
    if 0 < j { assert periods[j - 1] in periods; }
    if 0 < j && periods[j - 1].startPeriod == t {
      if t > 0 {
        assert 1 < j ==> periods[j - 2].startPeriod < t && !Coalesces(periods, eps, j - 1);
        ReplayedAt(periods, n, t - 1, j - 1);
      }
    } else if t > 0 {
      ReplayedAt(periods, n, t - 1, j);
    }
    hide Ordered, NoneCoalesce, Replay;
  }

  lemma {:induction false} ReplayScans(periods: seq<Period>, eps: real, n: nat, k: nat, j: nat)
    requires eps > 0.0 && Ordered(periods) && NoneCoalesce(periods, eps) && k <= n && j <= |periods|
    requires forall p :: p in periods ==> 0 <= p.startPeriod
    requires (0 < j ==> periods[j - 1].startPeriod < k) && (j < |periods| ==> k <= periods[j].startPeriod)
    ensures ScanTo(Replay(periods, n), eps, k) == periods[..j]
  {
    hide NoneCoalesce, Replay, Emit, ScanTo;
    if 0 < j { assert periods[j - 1] in periods; }
    if k > 0 {
      ReplayOpens(periods, eps, n, k - 1, j);
      ScanToStep(Replay(periods, n), eps, k);
      if 0 < j && periods[j - 1].startPeriod == k - 1 {
        ReplayScans(periods, eps, n, k - 1, j - 1);
        SliceSnoc(periods, j);
      } else {
        ReplayScans(periods, eps, n, k - 1, j);
        assert periods[..j] + [] == periods[..j];
      }
    } else {
      ScanToNone(Replay(periods, n), eps);
    }
    hide Ordered;
  }

  lemma ScanToNone(levels: Levels, eps: real)
    ensures ScanTo(levels, eps, 0) == []
  {
  }

  lemma ScanToStep(levels: Levels, eps: real, k: nat)
    requires 0 < k <= |levels|
    ensures ScanTo(levels, eps, k) == ScanTo(levels, eps, k - 1) +
            Emit(k - 1, Before(levels, k - 1), levels[k - 1], eps)
  {
  }

  lemma SliceSnoc(periods: seq<Period>, j: nat)
    requires 0 < j <= |periods|
    ensures periods[..j - 1] + [periods[j - 1]] == periods[..j]
  {
  }

  lemma CoalescedIsDropped(periods: seq<Period>, eps: real, n: nat, i: nat)
    requires Ordered(periods) && forall p :: p in periods ==> 0 <= p.startPeriod < n
    requires 0 < i < |periods| && Coalesces(periods, eps, i)
    ensures Scan(Replay(periods, n), eps) != periods
  {
    var t, levels := periods[i].startPeriod, Replay(periods, n);
    assert periods[i] in periods && periods[i - 1] in periods;
    assert periods[i - 1].startPeriod < t && (i + 1 < |periods| ==> t < periods[i + 1].startPeriod);
    ReplayedAt(periods, n, t, i + 1);
    ReplayedAt(periods, n, t - 1, i);
    hide Ordered, Replay;
    assert Emit(t, Before(levels, t), levels[t], eps) == [];
    ScanOpensIff(levels, eps, n, t);
    hide ScanTo;
  }

  /** An ordered period list replayed over a window and scanned again comes back unchanged if and only if none of its
      periods coalesces with the one before it. */
  lemma ReplayIsFixedIff(periods: seq<Period>, eps: real, n: nat)
    requires eps > 0.0 && Ordered(periods) && forall p :: p in periods ==> 0 <= p.startPeriod < n
    ensures Scan(Replay(periods, n), eps) == periods <==> NoneCoalesce(periods, eps)
  {
    hide Replay, ScanTo, Coalesces;
    if NoneCoalesce(periods, eps) {
      if periods != [] { assert periods[|periods| - 1] in periods; }
      ReplayScans(periods, eps, n, n, |periods|);
      assert periods[..|periods|] == periods;
    } else {
      var i :| 0 < i < |periods| && Coalesces(periods, eps, i);
      CoalescedIsDropped(periods, eps, n, i);
    }
  }

  // ----- changing the unit -----

  function MapLevel(level: Option<Level>, f: real -> real): Option<Level> {
    match level
    case None => None
    case Some(l) => Some(Level(f(l.limit), l.phases))
  }

  /** The same periods with every limit re-expressed by `f`. */
  ghost predicate PeriodsMapped(periods: seq<Period>, mapped: seq<Period>, f: real -> real) {
    |periods| == |mapped| &&
    forall i :: 0 <= i < |periods| ==>
      mapped[i] == Period(periods[i].startPeriod, f(periods[i].limit), periods[i].numberPhases)
  }

  ghost predicate Injective(f: real -> real) {
    forall a, b :: f(a) == f(b) ==> a == b
  }

  ghost predicate MappedBy(levels: Levels, mapped: Levels, f: real -> real) {
    |levels| == |mapped| && forall t :: 0 <= t < |levels| ==> mapped[t] == MapLevel(levels[t], f)
  }

  lemma StepMaps(levels: Levels, mapped: Levels, eps: real, f: real -> real, offsets: seq<int>, k: nat)
    requires eps > 0.0 && Injective(f) && MappedBy(levels, mapped, f)
    requires InRange(offsets, levels) && k < |offsets|
    requires 0 < k ==> StepIsExact(levels, eps, offsets, k) && StepIsExact(mapped, eps, offsets, k)
    ensures PeriodsMapped(EmitAt(levels, eps, offsets, k), EmitAt(mapped, eps, offsets, k), f)
  {
    assert levels[offsets[k]].Some? && mapped[offsets[k]].Some? ==>
           mapped[offsets[k]] == MapLevel(levels[offsets[k]], f);
    assert 0 < k ==> mapped[offsets[k - 1]] == MapLevel(levels[offsets[k - 1]], f);
    hide MappedBy;
  }

  lemma PeriodsMappedAppend(a: seq<Period>, b: seq<Period>, c: seq<Period>, d: seq<Period>, f: real -> real)
    requires PeriodsMapped(a, c, f) && PeriodsMapped(b, d, f)
    ensures PeriodsMapped(a + b, c + d, f)
  {
  }

  lemma {:induction false} SparseToMaps(levels: Levels, mapped: Levels, eps: real, f: real -> real, offsets: seq<int>,
                                        k: nat)
    requires eps > 0.0 && Injective(f) && MappedBy(levels, mapped, f)
    requires InRange(offsets, levels) && InRange(offsets, mapped) && k <= |offsets|
    requires ExactlyCoalesced(levels, eps, offsets) && ExactlyCoalesced(mapped, eps, offsets)
    ensures PeriodsMapped(SparseTo(levels, eps, offsets, k), SparseTo(mapped, eps, offsets, k), f)
  {
    hide Injective, MappedBy, EmitAt, StepIsExact;
    if k > 0 {
      SparseToMaps(levels, mapped, eps, f, offsets, k - 1);
      StepMaps(levels, mapped, eps, f, offsets, k - 1);
      PeriodsMappedAppend(SparseTo(levels, eps, offsets, k - 1), EmitAt(levels, eps, offsets, k - 1),
                          SparseTo(mapped, eps, offsets, k - 1), EmitAt(mapped, eps, offsets, k - 1), f);
      hide PeriodsMapped;
    }
  }

  /** Re-expressing every limit through an injective map re-expresses the walked periods and nothing else, whatever is
      walked. */
  lemma SparseMaps(levels: Levels, mapped: Levels, eps: real, f: real -> real, offsets: seq<int>)
    requires eps > 0.0 && Injective(f) && MappedBy(levels, mapped, f)
    requires InRange(offsets, levels) && InRange(offsets, mapped)
    requires ExactlyCoalesced(levels, eps, offsets) && ExactlyCoalesced(mapped, eps, offsets)
    ensures PeriodsMapped(Sparse(levels, eps, offsets), Sparse(mapped, eps, offsets), f)
    ensures Sparse(levels, eps, offsets) == [] <==> Sparse(mapped, eps, offsets) == []
  {
    hide Injective, MappedBy, ExactlyCoalesced;
    SparseToMaps(levels, mapped, eps, f, offsets, |offsets|);
  }
}
