/** The candidate seconds of a window at which a profile's level may change, and why no change is missed. */
module Breakpoints {
  import opened Wrappers
  import opened Timetables
  import opened Division

  // ----- strictly increasing offset lists -----

  ghost predicate StrictlyIncreasing(xs: seq<int>) {
    forall i, j :: 0 <= i < j < |xs| ==> xs[i] < xs[j]
  }

  lemma ConsIncreases(x: int, xs: seq<int>)
    requires StrictlyIncreasing(xs) && forall y :: y in xs ==> x < y
    ensures StrictlyIncreasing([x] + xs) && forall y :: y in [x] + xs <==> y == x || y in xs
  {
    assert forall i :: 0 <= i < |xs| ==> xs[i] in xs;
  }

  lemma TailIncreases(xs: seq<int>)
    requires StrictlyIncreasing(xs) && xs != []
    ensures StrictlyIncreasing(xs[1..]) && (forall y :: y in xs[1..] ==> xs[0] < y) && xs == [xs[0]] + xs[1..]
  {
  }

  function Insert(x: int, xs: seq<int>): (r: seq<int>)
    requires StrictlyIncreasing(xs)
    ensures StrictlyIncreasing(r)
    ensures forall y :: y in r <==> y == x || y in xs
    ensures |r| <= |xs| + 1
  {
    if xs == [] then [x] else
    TailIncreases(xs);
    ConsIncreases(xs[0], xs[1..]);
    if x < xs[0] then
      ConsIncreases(x, xs);
      [x] + xs
    else if x == xs[0] then xs
    else
      var rest := Insert(x, xs[1..]);
      ConsIncreases(xs[0], rest);
      [xs[0]] + rest
  }

  /** The library sort followed by the removal of adjacent duplicates. */
  function SortDedup(xs: seq<int>): (r: seq<int>)
    ensures StrictlyIncreasing(r)
    ensures forall y :: y in r <==> y in xs
    ensures |r| <= |xs|
  {
    if xs == [] then [] else Insert(xs[0], SortDedup(xs[1..]))
  }

  lemma {:induction false} IncreasingIsUnique(a: seq<int>, b: seq<int>)
    requires StrictlyIncreasing(a) && StrictlyIncreasing(b)
    requires forall y :: y in a <==> y in b
    ensures a == b
  {
    if a != [] { assert a[0] in a; }
    if b != [] { assert b[0] in b; }
    if a != [] && b != [] {
      assert a[0] == b[0];
      forall y ensures y in a[1..] <==> y in b[1..] {
        assert y in a[1..] <==> y in a && y != a[0];
        assert y in b[1..] <==> y in b && y != b[0];
      }
      IncreasingIsUnique(a[1..], b[1..]);
    }
  }

  // ----- the marks of one timetable -----

  function Push(offsets: seq<int>, o: int, duration: int): seq<int> {
    if 0 < o < duration then offsets + [o] else offsets
  }

  function PeriodMarks(periods: seq<Period>, start: int, duration: int): seq<int> {
    if periods == [] then [] else
    var n := |periods| - 1;
    Push(PeriodMarks(periods[..n], start, duration), start + periods[n].startPeriod, duration)
  }

  predicate IsMark(s: Schedule, offset: int) {
    StartsAt(s.periods, offset) || s.duration == Some(offset)
  }

  /** The marks of the occurrence that begins at window second `start`. */
  function ScheduleMarks(s: Schedule, start: int, duration: int): seq<int> {
    var marks := PeriodMarks(s.periods, start, duration);
    match s.duration
    case None => marks
    case Some(d) => Push(marks, start + d, duration)
  }

  lemma {:induction false} PeriodMarksAre(periods: seq<Period>, start: int, duration: int)
    ensures forall t :: t in PeriodMarks(periods, start, duration) <==> 0 < t < duration && StartsAt(periods, t - start)
    ensures |PeriodMarks(periods, start, duration)| <= |periods|
  {
    if periods != [] {
      var n := |periods| - 1;
      PeriodMarksAre(periods[..n], start, duration);
      assert forall p :: p in periods <==> p in periods[..n] || p == periods[n];
    }
  }

  /** An occurrence marks exactly its period starts and its end, inside the window. */
  lemma ScheduleMarksAre(s: Schedule, start: int, duration: int)
    ensures forall t :: t in ScheduleMarks(s, start, duration) <==> 0 < t < duration && IsMark(s, t - start)
    ensures |ScheduleMarks(s, start, duration)| <= |s.periods| + 1
  {
    PeriodMarksAre(s.periods, start, duration);
  }

  /** The marks of every occurrence from the one at `start` up to the end of the window. */
  function Unroll(s: Schedule, start: int, period: int, duration: int): seq<int>
    requires period > 0
    decreases duration - start
  {
    if start >= duration then []
    else ScheduleMarks(s, start, duration) + Unroll(s, start + period, period, duration)
  }

  function Rounds(start: int, period: int, duration: int): nat
    requires period > 0
    decreases duration - start
  {
    if start >= duration then 0 else 1 + Rounds(start + period, period, duration)
  }

  /** The last occurrence that begins at or before window second 0. */
  function FirstOccurrence(base: int, period: int): (start: int)
    requires period > 0
    ensures -period < start <= 0
  {
    DivMod(-base, period);
    base + (-base) / period * period
  }

  function Marks(tt: Timetable, origin: int, duration: int): seq<int> {
    var base := Anchor(tt, origin) - origin;
    var marks := match RecurrencePeriod(tt)
      case Some(period) => Unroll(tt.schedule, FirstOccurrence(base, period), period, duration)
      case None => ScheduleMarks(tt.schedule, base, duration);
    var from := match tt.validFrom
      case None => marks
      case Some(vf) => Push(marks, vf - origin, duration);
    match tt.validTo
    case None => from
    case Some(vt) => Push(from, vt - origin + 1, duration)
  }

  lemma PushAppends(before: seq<int>, marks: seq<int>, o: int, duration: int)
    ensures Push(before + marks, o, duration) == before + Push(marks, o, duration)
  {
  }

  /** The body both protocol versions run for one profile. */
  method PushMarks(before: seq<int>, tt: Timetable, origin: int, duration: nat) returns (offsets: seq<int>)
    ensures offsets == before + Marks(tt, origin, duration)
  {
    hide Unroll, FirstOccurrence, ScheduleMarks, Push;
    var base := Anchor(tt, origin) - origin;
    match RecurrencePeriod(tt) {
      case Some(period) =>
        ghost var rounds;
        offsets, rounds := PushUnrolled(before, tt.schedule, base, period, duration);
      case None =>
        offsets := PushScheduleMarks(before, tt.schedule, base, duration);
    }
    ghost var marks := match RecurrencePeriod(tt)
      case Some(period) => Unroll(tt.schedule, FirstOccurrence(base, period), period, duration)
      case None => ScheduleMarks(tt.schedule, base, duration);
    if tt.validFrom.Some? {
      PushAppends(before, marks, tt.validFrom.value - origin, duration);
      marks := Push(marks, tt.validFrom.value - origin, duration);
      offsets := Push(offsets, tt.validFrom.value - origin, duration);
    }
    if tt.validTo.Some? {
      PushAppends(before, marks, tt.validTo.value - origin + 1, duration);
      offsets := Push(offsets, tt.validTo.value - origin + 1, duration);
    }
  }

  /** The occurrence loop; `rounds` counts its iterations. */
  method PushUnrolled(before: seq<int>, s: Schedule, base: int, period: int, duration: nat)
    returns (offsets: seq<int>, ghost rounds: nat)
    requires period > 0
    ensures offsets == before + Unroll(s, FirstOccurrence(base, period), period, duration)
    ensures rounds <= duration / period + 2
  {
    offsets, rounds := before, 0;
    ghost var first := FirstOccurrence(base, period);
    ghost var total := Rounds(first, period, duration);
    RoundsBound(first, period, duration);
    var k := (-base) / period;
    var start := base + k * period;
    while start < duration
      invariant start == base + k * period
      invariant offsets + Unroll(s, start, period, duration) == before + Unroll(s, first, period, duration)
      invariant rounds + Rounds(start, period, duration) == total
      decreases duration - start
    {
      UnrollStep(offsets, s, start, period, duration);
      offsets := PushScheduleMarks(offsets, s, start, duration);
      Distribute(k, 1, period);
      k, rounds := k + 1, rounds + 1;
      start := base + k * period;
    }
  }

  lemma UnrollStep(done: seq<int>, s: Schedule, start: int, period: int, duration: int)
    requires period > 0 && start < duration
    ensures done + Unroll(s, start, period, duration) ==
            (done + ScheduleMarks(s, start, duration)) + Unroll(s, start + period, period, duration)
  {
  }

  method PushScheduleMarks(before: seq<int>, s: Schedule, start: int, duration: int) returns (offsets: seq<int>)
    ensures offsets == before + ScheduleMarks(s, start, duration)
  {
    offsets := before;
    for i := 0 to |s.periods|
      invariant offsets == before + PeriodMarks(s.periods[..i], start, duration)
    {
      assert s.periods[..i + 1][..i] == s.periods[..i];
      offsets := Push(offsets, start + s.periods[i].startPeriod, duration);
    }
    assert s.periods[..|s.periods|] == s.periods;
    if s.duration.Some? {
      offsets := Push(offsets, start + s.duration.value, duration);
    }
  }

  // ----- how long the walk is -----

  lemma {:induction false} RoundsReach(start: int, period: int, duration: int)
    requires period > 0
    ensures start < duration ==> (Rounds(start, period, duration) - 1) * period < duration - start
    decreases duration - start
  {
    if start < duration {
      RoundsReach(start + period, period, duration);
      Distribute(Rounds(start + period, period, duration), 1, period);
    }
  }

  lemma RoundsBound(start: int, period: int, duration: nat)
    requires period > 0 && -period < start
    ensures Rounds(start, period, duration) <= duration / period + 2
  {
    RoundsReach(start, period, duration);
    var n := Rounds(start, period, duration);
    RoundsArithmetic(n, start, period, duration);
  }

  lemma RoundsArithmetic(n: nat, start: int, period: int, duration: nat)
    requires period > 0 && -period < start
    requires start < duration ==> (n - 1) * period < duration - start
    requires duration <= start ==> n == 0
    ensures n <= duration / period + 2
  {
    var q := duration / period;
    DivMod(duration, period);
    if n > q + 2 {
      MulMonotone(q + 2, n - 1, period);
      Distribute(q, 2, period);
    }
  }

  lemma {:induction false} UnrollLength(s: Schedule, start: int, period: int, duration: int)
    requires period > 0
    ensures |Unroll(s, start, period, duration)| <= Rounds(start, period, duration) * (|s.periods| + 1)
    decreases duration - start
  {
    if start < duration {
      ScheduleMarksAre(s, start, duration);
      UnrollLength(s, start + period, period, duration);
      Distribute(1, Rounds(start + period, period, duration), |s.periods| + 1);
    }
  }

  /** How many occurrences the walk visits at most: one for a schedule that does not recur. */
  function MaxRounds(tt: Timetable, duration: nat): nat {
    match RecurrencePeriod(tt)
    case Some(period) => duration / period + 2
    case None => 1
  }

  lemma MarksLength(tt: Timetable, origin: int, duration: nat)
    ensures |Marks(tt, origin, duration)| <= MaxRounds(tt, duration) * (|tt.schedule.periods| + 1) + 2
  {
    match RecurrencePeriod(tt) {
      case Some(period) =>
        var first := FirstOccurrence(Anchor(tt, origin) - origin, period);
        UnrollLength(tt.schedule, first, period, duration);
        RoundsBound(first, period, duration);
        MulMonotone(Rounds(first, period, duration), MaxRounds(tt, duration), |tt.schedule.periods| + 1);
      case None =>
        ScheduleMarksAre(tt.schedule, Anchor(tt, origin) - origin, duration);
    }
  }

  // ----- no change is missed -----

  /** What a schedule imposes at the start of each occurrence. */
  function AtStart(tt: Timetable): Option<Level> {
    LevelOf(AtPosition(tt.schedule, 0))
  }

  /** What it imposes one second earlier: the end of the occurrence before, if it recurs. */
  function BeforeStart(tt: Timetable): Option<Level> {
    match RecurrencePeriod(tt)
    case Some(period) => LevelOf(AtPosition(tt.schedule, period - 1))
    case None => None
  }

  /** The walk only ever marks `start + startPeriod` and `start + duration`, so an occurrence start is a
      breakpoint only if a period of this occurrence starts there or one before it ends there. */
  predicate StartIsMarked(tt: Timetable) {
    var s := tt.schedule;
    StartsAt(s.periods, 0) ||
    match RecurrencePeriod(tt)
    case Some(period) => StartsAt(s.periods, period) || s.duration == Some(period)
    case None => false
  }

  /** The occurrence start is a breakpoint, or nothing changes there. */
  predicate StartsCovered(tt: Timetable) {
    StartIsMarked(tt) || BeforeStart(tt) == AtStart(tt)
  }

  /** A schedule anchored to the window starts at second 0, which is always marked, and starts again only if it
      recurs within the window. */
  predicate StartsAtOpeningOnly(tt: Timetable, duration: int) {
    (tt.kind == Relative || tt.schedule.startSchedule == None) &&
    match RecurrencePeriod(tt)
    case Some(period) => duration <= period
    case None => true
  }

  predicate Covered(tt: Timetable, duration: int) {
    StartsCovered(tt) || StartsAtOpeningOnly(tt, duration)
  }

  /** A constraint never appears out of nothing at an unmarked occurrence start. */
  predicate ArrivalIsMarked(tt: Timetable) {
    StartIsMarked(tt) || BeforeStart(tt).Some? || AtStart(tt).None?
  }

  predicate Arrives(tt: Timetable, duration: int) {
    ArrivalIsMarked(tt) || StartsAtOpeningOnly(tt, duration)
  }

  /** Every second of the window at which the level changes is marked. */
  ghost predicate MissesNothing(tt: Timetable, origin: int, duration: int) {
    forall t :: 0 < t < duration && LevelAt(tt, origin, t) != LevelAt(tt, origin, t - 1) ==>
      t in Marks(tt, origin, duration)
  }

  lemma {:induction false} UnrollCovers(s: Schedule, start: int, period: int, duration: int, j: nat, occurrence: int,
                                        t: int)
    requires period > 0 && 0 < t < duration
    requires occurrence == start + j * period && occurrence < duration && IsMark(s, t - occurrence)
    ensures t in Unroll(s, start, period, duration)
    decreases j
  {
    hide IsMark, ScheduleMarks;
    if j == 0 {
      ScheduleMarksAre(s, start, duration);
    } else {
      MulSign(j, period);
      Distribute(j, 1, period);
      UnrollCovers(s, start + period, period, duration, j - 1, occurrence, t);
    }
  }

  /** The occurrence that contains window second `t` is the `j`-th of those the walk visits. */
  lemma OccurrenceOf(base: int, period: int, t: int) returns (j: nat)
    requires period > 0 && 0 < t
    ensures FirstOccurrence(base, period) + j * period == t - (t - base) % period
    ensures (t - base) % period == 0 ==> 1 <= j
  {
    DivMod(t - base, period);
    DivMod(-base, period);
    var d := (t - base) / period - (-base) / period;
    Distribute((t - base) / period, (-base) / period, period);
    MulSign(d, period);
    j := d;
  }

  lemma RecurringChangeIsMarked(s: Schedule, base: int, period: int, duration: int, t: int)
    requires period > 0 && 0 < t < duration
    requires LevelOf(AtPosition(s, (t - base) % period)) != LevelOf(AtPosition(s, (t - base - 1) % period))
    requires t !in Unroll(s, FirstOccurrence(base, period), period, duration)
    ensures (t - base) % period == 0 && (t - base - 1) % period == period - 1
    ensures !StartsAt(s.periods, 0) && !StartsAt(s.periods, period) && s.duration != Some(period)
  {
    hide Unroll, FirstOccurrence, AtPosition;
    var first, o := FirstOccurrence(base, period), (t - base) % period;
    ModStep(t - base, period);
    var j := OccurrenceOf(base, period, t);
    DivMod(t - base, period);
    if o > 0 {
      if !IsMark(s, o) { PositionIsStable(s, o); }
      UnrollCovers(s, first, period, duration, j, t - o, t);
    } else {
      if StartsAt(s.periods, 0) { UnrollCovers(s, first, period, duration, j, t, t); }
      if IsMark(s, period) {
        Distribute(j, 1, period);
        UnrollCovers(s, first, period, duration, j - 1, t - period, t);
      }
    }
  }

  /** The one place a change can go unmarked: a second at which an occurrence starts. */
  lemma UnmarkedIsAStart(tt: Timetable, origin: int, duration: int, t: int)
    requires 0 < t < duration && t !in Marks(tt, origin, duration)
    requires LevelAt(tt, origin, t) != LevelAt(tt, origin, t - 1)
    ensures !StartIsMarked(tt) && !StartsAtOpeningOnly(tt, duration)
    ensures LevelAt(tt, origin, t - 1) == BeforeStart(tt) && LevelAt(tt, origin, t) == AtStart(tt)
  {
    hide Unroll, ScheduleMarks, AtPosition, FirstOccurrence, StartIsMarked;
    if ValidAt(tt, origin + t) != ValidAt(tt, origin + t - 1) { ValidityEdgeIsMarked(tt, origin, duration, t); }
    LevelInOccurrence(tt, origin, t);
    LevelInOccurrence(tt, origin, t - 1);
    var base := Anchor(tt, origin) - origin;
    MarksContain(tt, origin, duration, t);
    hide LevelAt, Marks, ValidAt;
    match RecurrencePeriod(tt) {
      case Some(period) => RecurringUnmarked(tt, period, base, duration, t);
      case None => SingleUnmarked(tt, base, duration, t);
    }
  }

  lemma MarksContain(tt: Timetable, origin: int, duration: int, t: int)
    requires t !in Marks(tt, origin, duration)
    ensures var base := Anchor(tt, origin) - origin;
            match RecurrencePeriod(tt)
            case Some(period) => t !in Unroll(tt.schedule, FirstOccurrence(base, period), period, duration)
            case None => t !in ScheduleMarks(tt.schedule, base, duration)
  {
    hide Unroll, ScheduleMarks, FirstOccurrence;
  }

  lemma RecurringUnmarked(tt: Timetable, period: int, base: int, duration: int, t: int)
    requires RecurrencePeriod(tt) == Some(period) && 0 < t < duration
    requires LevelOf(AtPosition(tt.schedule, (t - base) % period)) !=
             LevelOf(AtPosition(tt.schedule, (t - 1 - base) % period))
    requires t !in Unroll(tt.schedule, FirstOccurrence(base, period), period, duration)
    ensures !StartIsMarked(tt) && !(base == 0 && duration <= period)
    ensures LevelOf(AtPosition(tt.schedule, (t - base) % period)) == AtStart(tt)
    ensures LevelOf(AtPosition(tt.schedule, (t - 1 - base) % period)) == BeforeStart(tt)
  {
    hide AtPosition, Unroll, FirstOccurrence;
    assert t - 1 - base == t - base - 1;
    RecurringChangeIsMarked(tt.schedule, base, period, duration, t);
    if base == 0 && t < period { DivModUnique(t, 0, t, period); }
  }

  lemma SingleUnmarked(tt: Timetable, base: int, duration: int, t: int)
    requires RecurrencePeriod(tt) == None && 0 < t < duration && t !in ScheduleMarks(tt.schedule, base, duration)
    requires var x, s := t - base, tt.schedule;
             (if x < 0 then None else LevelOf(AtPosition(s, x))) !=
                 (if x - 1 < 0 then None else LevelOf(AtPosition(s, x - 1)))
    ensures t == base && !StartIsMarked(tt)
  {
    ScheduleMarksAre(tt.schedule, base, duration);
    if t != base && !IsMark(tt.schedule, t - base) { PositionIsStable(tt.schedule, t - base); }
    hide AtPosition;
  }

  lemma LevelInOccurrence(tt: Timetable, origin: int, t: int)
    requires ValidAt(tt, origin + t)
    ensures var x := t - (Anchor(tt, origin) - origin);
            LevelAt(tt, origin, t) ==
            match RecurrencePeriod(tt)
            case Some(period) => LevelOf(AtPosition(tt.schedule, x % period))
            case None => if x < 0 then None else LevelOf(AtPosition(tt.schedule, x))
  {
    assert origin + t - Anchor(tt, origin) == t - (Anchor(tt, origin) - origin);
  }

  lemma ChangeIsMarked(tt: Timetable, origin: int, duration: int)
    requires Covered(tt, duration)
    ensures MissesNothing(tt, origin, duration)
  {
    forall t | 0 < t < duration && LevelAt(tt, origin, t) != LevelAt(tt, origin, t - 1)
      ensures t in Marks(tt, origin, duration)
    {
      if t !in Marks(tt, origin, duration) { UnmarkedIsAStart(tt, origin, duration, t); }
    }
  }

  /** Every second at which a profile starts to constrain is marked, even where other changes are missed. */
  lemma ArrivalsAreMarked(tt: Timetable, origin: int, duration: int)
    requires Arrives(tt, duration)
    ensures forall t :: 0 < t < duration && LevelAt(tt, origin, t - 1) == None && LevelAt(tt, origin, t) != None ==>
              t in Marks(tt, origin, duration)
  {
    forall t | 0 < t < duration && LevelAt(tt, origin, t - 1) == None && LevelAt(tt, origin, t) != None
      ensures t in Marks(tt, origin, duration)
    {
      if t !in Marks(tt, origin, duration) { UnmarkedIsAStart(tt, origin, duration, t); }
    }
  }

  /** Schedules without negative period starts always do. */
  lemma NonNegativeStartsArrive(tt: Timetable)
    requires forall p :: p in tt.schedule.periods ==> 0 <= p.startPeriod
    ensures ArrivalIsMarked(tt)
  {
    PeriodInForceIsInForce(tt.schedule.periods, 0);
  }

  /** A daily or weekly schedule whose periods all start late in its occurrence does not cover its start: the
      last period of one occurrence ends, unmarked, where the next occurrence begins. */
  lemma LateStartsAreUncovered(tt: Timetable)
    requires RecurrencePeriod(tt).Some? && tt.schedule.periods != []
    requires forall p :: p in tt.schedule.periods ==> 0 < p.startPeriod < RecurrencePeriod(tt).value
    requires tt.schedule.duration.Some? ==> RecurrencePeriod(tt).value < tt.schedule.duration.value
    ensures !StartIsMarked(tt) && BeforeStart(tt).Some? && AtStart(tt).None?
  {
    assert tt.schedule.periods[0] in tt.schedule.periods;
    PeriodInForceIsInForce(tt.schedule.periods, 0);
    PeriodInForceIsInForce(tt.schedule.periods, RecurrencePeriod(tt).value - 1);
  }

  lemma ValidityEdgeIsMarked(tt: Timetable, origin: int, duration: int, t: int)
    requires 0 < t < duration
    requires ValidAt(tt, origin + t) != ValidAt(tt, origin + t - 1)
    ensures t in Marks(tt, origin, duration)
  {
    if tt.validFrom.Some? && origin + t - 1 < tt.validFrom.value {
      assert t == tt.validFrom.value - origin;
    } else {
      assert t == tt.validTo.value - origin + 1;
    }
  }

  /** A daily profile imposes the same a day later and a weekly one a week later, as long as it is still valid. */
  lemma RecurringRepeats(tt: Timetable, at: int, origin: int)
    requires tt.kind == Recurring && tt.recurrency.Some?
    ensures var later := at + if tt.recurrency == Some(Daily) then 86_400 else 604_800;
            ValidAt(tt, at) && ValidAt(tt, later) ==> ActiveAt(tt, later, origin) == ActiveAt(tt, at, origin)
  {
    var period, x := RecurrencePeriod(tt).value, at - Anchor(tt, origin);
    ModPeriod(x, period);
    assert at + period - Anchor(tt, origin) == x + period;
    hide AtPosition;
  }

  // ----- exactly when no change is missed -----

  /** The same schedule placed elsewhere in time. */
  function Placed(tt: Timetable, start: int, validFrom: Option<int>, validTo: Option<int>): Timetable {
    tt.(schedule := tt.schedule.(startSchedule := Some(start)), validFrom := validFrom, validTo := validTo)
  }

  /** Second `t` is where the only occurrence starts, or the one after the first that is walked. */
  predicate StartsAtSecond(tt: Timetable, origin: int, t: int) {
    var base := Anchor(tt, origin) - origin;
    match RecurrencePeriod(tt)
    case Some(period) => FirstOccurrence(base, period) == t - period
    case None => base == t
  }

  lemma PlacedStarts(tt: Timetable, origin: int, validFrom: Option<int>, validTo: Option<int>)
    requires tt.kind != Relative
    ensures StartsAtSecond(Placed(tt, origin + 1, validFrom, validTo), origin, 1)
  {
    var p := Placed(tt, origin + 1, validFrom, validTo);
    assert Anchor(p, origin) - origin == 1;
    match RecurrencePeriod(tt) {
      case Some(period) => DivModUnique(-1, -1, period - 1, period);
      case None =>
    }
  }

  /** A recurring schedule without a start of its own starts again one period into every window. */
  lemma UnanchoredStarts(tt: Timetable, origin: int)
    requires RecurrencePeriod(tt).Some? && tt.schedule.startSchedule == None
    ensures StartsAtSecond(tt, origin, RecurrencePeriod(tt).value)
  {
    DivModUnique(0, 0, 0, RecurrencePeriod(tt).value);
  }

  /** An uncovered start is no breakpoint. */
  lemma StartIsUnlisted(tt: Timetable, origin: int, duration: int, t: int)
    requires StartsAtSecond(tt, origin, t) && !StartsCovered(tt)
    requires 0 < t < duration && (RecurrencePeriod(tt).Some? ==> duration <= t + RecurrencePeriod(tt).value)
    requires tt.validFrom != Some(origin + t) && tt.validTo != Some(origin + t - 1)
    ensures t !in Marks(tt, origin, duration)
  {
    hide Unroll, ScheduleMarks, StartsCovered, IsMark, FirstOccurrence;
    NoMarkAtStart(tt);
    match RecurrencePeriod(tt) {
      case Some(period) => RecurringStartUnlisted(tt.schedule, period, duration, t);
      case None => ScheduleMarksAre(tt.schedule, t, duration);
    }
  }

  lemma NoMarkAtStart(tt: Timetable)
    requires !StartsCovered(tt)
    ensures !IsMark(tt.schedule, 0)
    ensures RecurrencePeriod(tt).Some? ==> !IsMark(tt.schedule, RecurrencePeriod(tt).value)
  {
  }

  lemma RecurringStartUnlisted(s: Schedule, period: int, duration: int, t: int)
    requires period > 0 && 0 < t < duration <= t + period && !IsMark(s, 0) && !IsMark(s, period)
    ensures t !in Unroll(s, t - period, period, duration)
  {
    hide Unroll, ScheduleMarks, IsMark;
    ScheduleMarksAre(s, t - period, duration);
    ScheduleMarksAre(s, t, duration);
    UnrollTwo(s, t - period, period, duration);
  }

  lemma UnrollTwo(s: Schedule, start: int, period: int, duration: int)
    requires period > 0 && start + period < duration <= start + 2 * period
    ensures Unroll(s, start, period, duration) ==
            ScheduleMarks(s, start, duration) + ScheduleMarks(s, start + period, duration)
  {
    assert Unroll(s, start + period + period, period, duration) == [];
    assert Unroll(s, start + period, period, duration) == ScheduleMarks(s, start + period, duration) + [];
    hide ScheduleMarks;
  }

  lemma LevelsAroundStart(tt: Timetable, origin: int, t: int)
    requires StartsAtSecond(tt, origin, t) && 0 < t && ValidAt(tt, origin + t - 1) && ValidAt(tt, origin + t)
    ensures LevelAt(tt, origin, t - 1) == BeforeStart(tt) && LevelAt(tt, origin, t) == AtStart(tt)
  {
    LevelInOccurrence(tt, origin, t - 1);
    LevelInOccurrence(tt, origin, t);
    hide LevelAt;
    match RecurrencePeriod(tt) {
      case Some(period) =>
        var base := Anchor(tt, origin) - origin;
        var k := (-base) / period;
        Distribute(k, 1, period);
        DivModUnique(t - base, k + 1, 0, period);
        ModStep(t - base, period);
        assert t - 1 - base == t - base - 1;
      case None =>
    }
  }

  /** A schedule that does not cover its start misses a change in a two-second window that
      begins one second before that start. */
  lemma UncoveredMisses(tt: Timetable, origin: int)
    requires tt.kind != Relative && !StartsCovered(tt)
    ensures !MissesNothing(Placed(tt, origin + 1, None, None), origin, 2)
  {
    var p := Placed(tt, origin + 1, None, None);
    PlacedStarts(tt, origin, None, None);
    PlacedIsAlike(tt, origin + 1, None, None);
    StartIsUnlisted(p, origin, 2, 1);
    LevelsAroundStart(p, origin, 1);
    assert LevelAt(p, origin, 1) != LevelAt(p, origin, 1 - 1);
  }

  /** Moving a schedule changes nothing around its start. */
  lemma PlacedIsAlike(tt: Timetable, start: int, validFrom: Option<int>, validTo: Option<int>)
    requires tt.kind != Relative
    ensures var p := Placed(tt, start, validFrom, validTo);
            BeforeStart(p) == BeforeStart(tt) && AtStart(p) == AtStart(tt) &&
            RecurrencePeriod(p) == RecurrencePeriod(tt) &&
            (StartIsMarked(p) <==> StartIsMarked(tt)) && (StartsCovered(p) <==> StartsCovered(tt)) &&
            (ArrivalIsMarked(p) <==> ArrivalIsMarked(tt))
  {
  }

  /** A schedule's marks are complete wherever it is placed and whatever window is asked for
      if and only if it covers its own start. */
  lemma CoverIsExact(tt: Timetable)
    requires tt.kind != Relative
    ensures StartsCovered(tt) <==>
            forall start, validFrom, validTo, origin, duration ::
              MissesNothing(Placed(tt, start, validFrom, validTo), origin, duration)
  {
    if StartsCovered(tt) {
      forall start, validFrom, validTo, origin, duration
        ensures MissesNothing(Placed(tt, start, validFrom, validTo), origin, duration)
      {
        PlacedIsAlike(tt, start, validFrom, validTo);
        ChangeIsMarked(Placed(tt, start, validFrom, validTo), origin, duration);
      }
    } else {
      UncoveredMisses(tt, 0);
    }
  }

  // ----- the breakpoints of several profiles together -----

  /** The marks of the first `n` timetables. */
  function MarksOf(tts: seq<Timetable>, n: nat, origin: int, duration: int): seq<int>
    requires n <= |tts|
  {
    if n == 0 then [] else MarksOf(tts, n - 1, origin, duration) + Marks(tts[n - 1], origin, duration)
  }

  /** The candidate seconds of the window, the first of them second 0. */
  function AllOffsets(tts: seq<Timetable>, origin: int, duration: int): seq<int> {
    SortDedup([0] + MarksOf(tts, |tts|, origin, duration))
  }

  lemma {:induction false} MarksOfAre(tts: seq<Timetable>, n: nat, origin: int, duration: int)
    requires n <= |tts|
    ensures forall t :: t in MarksOf(tts, n, origin, duration) <==>
              exists i :: 0 <= i < n && t in Marks(tts[i], origin, duration)
  {
    hide Marks;
    if n > 0 { MarksOfAre(tts, n - 1, origin, duration); }
  }

  lemma AllOffsetsAre(tts: seq<Timetable>, origin: int, duration: int)
    ensures forall t :: t in AllOffsets(tts, origin, duration) <==>
              t == 0 || exists tt :: tt in tts && t in Marks(tt, origin, duration)
  {
    MarksOfAre(tts, |tts|, origin, duration);
  }

  lemma {:induction false} UnrollInWindow(s: Schedule, start: int, period: int, duration: int)
    requires period > 0
    ensures forall t :: t in Unroll(s, start, period, duration) ==> 0 < t < duration
    decreases duration - start
  {
    if start < duration {
      ScheduleMarksAre(s, start, duration);
      UnrollInWindow(s, start + period, period, duration);
    }
  }

  lemma MarksInWindow(tt: Timetable, origin: int, duration: int)
    ensures forall t :: t in Marks(tt, origin, duration) ==> 0 < t < duration
  {
    var base := Anchor(tt, origin) - origin;
    match RecurrencePeriod(tt) {
      case Some(period) => UnrollInWindow(tt.schedule, FirstOccurrence(base, period), period, duration);
      case None => ScheduleMarksAre(tt.schedule, base, duration);
    }
  }

  /** The candidate seconds start at 0, strictly increase and stay inside the window, so each fits the
      width of the window's own duration. */
  lemma AllOffsetsInWindow(tts: seq<Timetable>, origin: int, duration: int)
    requires 0 < duration
    ensures var offsets := AllOffsets(tts, origin, duration);
            StrictlyIncreasing(offsets) && offsets != [] && offsets[0] == 0 &&
            forall k :: 0 <= k < |offsets| ==> 0 <= offsets[k] < duration
  {
    var offsets := AllOffsets(tts, origin, duration);
    AllOffsetsAre(tts, origin, duration);
    forall tt | tt in tts ensures forall t :: t in Marks(tt, origin, duration) ==> 0 < t < duration {
      MarksInWindow(tt, origin, duration);
    }
    assert 0 in offsets;
    forall k | 0 <= k < |offsets| ensures 0 <= offsets[k] < duration {
      assert offsets[k] in offsets;
    }
  }

  /** A second that is not listed changes no profile's level. */
  lemma UnlistedChangesNothing(tts: seq<Timetable>, origin: int, duration: int, t: int)
    requires forall tt :: tt in tts ==> Covered(tt, duration)
    requires 0 < t < duration && t !in AllOffsets(tts, origin, duration)
    ensures forall tt :: tt in tts ==> LevelAt(tt, origin, t) == LevelAt(tt, origin, t - 1)
  {
    AllOffsetsAre(tts, origin, duration);
    forall tt | tt in tts ensures LevelAt(tt, origin, t) == LevelAt(tt, origin, t - 1) {
      ChangeIsMarked(tt, origin, duration);
    }
  }

  /** Only which profiles there are matters, not their order. */
  lemma AllOffsetsIgnoreOrder(a: seq<Timetable>, b: seq<Timetable>, origin: int, duration: int)
    requires forall tt :: tt in a <==> tt in b
    ensures AllOffsets(a, origin, duration) == AllOffsets(b, origin, duration)
  {
    AllOffsetsAre(a, origin, duration);
    AllOffsetsAre(b, origin, duration);
    IncreasingIsUnique(AllOffsets(a, origin, duration), AllOffsets(b, origin, duration));
  }

  function MarksBound(tts: seq<Timetable>, n: nat, duration: nat): nat
    requires n <= |tts|
  {
    if n == 0 then 0 else
    MarksBound(tts, n - 1, duration) + MaxRounds(tts[n - 1], duration) * (|tts[n - 1].schedule.periods| + 1) + 2
  }

  lemma {:induction false} MarksOfLength(tts: seq<Timetable>, n: nat, origin: int, duration: nat)
    requires n <= |tts|
    ensures |MarksOf(tts, n, origin, duration)| <= MarksBound(tts, n, duration)
  {
    hide Marks, MaxRounds;
    if n > 0 {
      MarksOfLength(tts, n - 1, origin, duration);
      MarksLength(tts[n - 1], origin, duration);
    }
  }

  /** The walk is never a per-second scan: the candidates number one, plus for each profile its
      occurrences times its marks and its two validity edges. */
  lemma AllOffsetsLength(tts: seq<Timetable>, origin: int, duration: nat)
    ensures |AllOffsets(tts, origin, duration)| <= 1 + MarksBound(tts, |tts|, duration)
  {
    MarksOfLength(tts, |tts|, origin, duration);
  }

  /** For one profile: at most one occurrence a day or week of the window and two more, or a single one, each with its
      periods and its end, two validity edges and the opening. */
  lemma SoleOffsetsLength(tt: Timetable, origin: int, duration: nat)
    ensures var occurrences := if Repeats(tt) then
            duration / (if tt.recurrency == Some(Daily) then 86_400 else 604_800) + 2
                               else 1;
            |AllOffsets([tt], origin, duration)| <= 3 + occurrences * (|tt.schedule.periods| + 1)
  {
    MarksLength(tt, origin, duration);
    hide Marks;
    assert MarksOf([tt], 0, origin, duration) == [];
    assert MarksOf([tt], 1, origin, duration) == Marks(tt, origin, duration);
  }
}
