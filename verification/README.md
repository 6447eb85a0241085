# Verified model of the charge point's smart charging

The charge point turns installed charging profiles into a composite schedule: what a connector may draw,
second by second, over a requested window. It never looks at every second. It collects a sparse set of
breakpoints, unrolling daily and weekly recurrences, evaluates the limit there, and coalesces equal neighbours.
This project models both versions of that computation, OCPP 1.6 and OCPP 2.0.1 (Part 2, section K, use case K01),
and the stateful components around it: the 1.6 profile store, the Local Authorization List, the connector with the
abstract connector state machine, the transaction manager, and two report pagers.

## How the project is laid out

| file | what it holds |
|---|---|
| `Timetables.dfy` | choosing the period in force, and evaluating one profile at an instant (shared by both versions) |
| `Breakpoints.dfy` | the breakpoint walk, why it misses no change, exactly when it does, how long it is |
| `Walk.dfy` | the second-by-second scan, the sparse walk, coalescing drift, exact coalescing, unit changes |
| `Composite16.dfy` | the 1.6 composite: precedence, the effective limit, the refinement theorem |
| `Composite201.dfy` | the 2.0.1 composite under station ceilings, and the metering resolver that must agree with it |
| `ProfileStore.dfy` | installing and clearing 1.6 profiles, and why no precedence ties arise |
| `LocalList.dfy` | versioned, capacity-bounded, all-or-nothing updates |
| `StateMachine.dfy`, `Connector.dfy` | the abstract machine, the connector, and the simulation between them |
| `Transactions.dfy` | the bounded meter log, ids, history and energy accounts |
| `Reports.dfy` | fixed-size pages, and pages by EVSE and limit source |
| `Wrappers.dfy`, `Profiles.dfy`, `Division.dfy`, `Sets.dfy` | shared data types and arithmetic |

Time is whole seconds (`int`), limits are `real`, hash maps are `map`. The coalescing tolerance is a parameter
`eps > 0` (`f64::EPSILON` in the code). "Exact coalescing" means that walked seconds that coalesce have equal limits
(`ExactlyCoalesced`); where no change is missed that is the same as `Separated`, which says it of neighbouring seconds.
`WalkIsExactIff` and `ReportIsExactIff` show that these are the exact conditions for a true report.
Where the source changes state, a class has methods proved equal to functions of the old state, and the lemmas are
about every run of those functions.

## What turned out not to hold

* The breakpoint walk is documented as collecting every second at which the limit may change. It marks
  `start + startPeriod` and `start + duration` of each occurrence, never the occurrence start itself.
  `Composite16.ReportCoverIsExact` shows that a schedule is reported rightly in all circumstances if and only if it covers
  its own start, for example by a period at `startPeriod` 0; `Breakpoints.CoverIsExact` says the same of the breakpoints.
  A daily schedule that begins late in its day does not (`LateStartsAreUncovered`), and over an inherited default its
  report is wrong at a constrained second (`GapMisreports`). In 2.0.1 an uncovered schedule makes the report disagree with
  the meter exactly when the watts differ around its start: `CeilingCoverIsExact` says so of a ceiling and
  `BaseCoverIsExact` of a base, whose gaps alone do no harm. Rejections need less: `RejectionIsExact`, in both versions.
* Coalescing compares each breakpoint with the one before it, not with the last reported period, so small steps add up.
  `ReportedLimitDrift` bounds the error, `CompositeIsExactIff` says exactly when there is none, and `DriftIsUnbounded`
  gives profiles whose reports are off by any amount. A report fed back can change for the same reason: `FeedbackIsExact`.
* When no unit is requested, the 1.6 output unit ranks overrides without looking at where they are installed.
  `UnitOrderIsExact` says exactly when the choice does not depend on candidate order, and `StoredUnitDependsOnOrder` gives
  a store for which it does.
* A window that opens later than the transaction anchors relative profiles to itself. `OpeningAgreementIsExact` says
  exactly for which profiles report and meter still agree.
* A transaction that callers fail or stop themselves can be archived with an energy that its meter stop does not explain.
  `StopConserves` and `RunConservesIff` give the exact condition on what callers do, `EarlyEndsMisreport` both failing runs.
* Clearing a fault while a transaction is held breaks the connector, and nothing else does: `RunIsSoundIff`.
* The connector accepts blank id tags and the abstract machine refuses them, except for an authorization of a reserved
  connector: `MachineAcceptsUnlessBlank`, `SessionNeedsAuthorization`.

## Model

| member | source | states |
|---|---|---|
| `Timetables.ChoosePeriod` | crates/ocpp-cp/src/composite.rs:179-187 | the selection loop returns the last listed among the reached periods with the greatest start, or nothing if none is reached |
| `Timetables.FilterMaxIsInForce` | crates/ocpp-cp/src/v201_charging_profiles.rs:256-263 | filtering the reached periods and taking the last maximum by start chooses the very period the 1.6 loop chooses |
| `Timetables.InForceIsStable` | crates/ocpp-cp/src/composite.rs:176-187 | the chosen period moves only at an offset where some period starts, for unordered period lists too |
| `Breakpoints.RecurringRepeats` | crates/ocpp-cp/src/composite.rs:154-167 | a daily profile imposes the same 86400 seconds later and a weekly one 604800 seconds later, before and after its anchor, as long as it is valid |
| `Breakpoints.ScheduleMarksAre` | crates/ocpp-cp/src/composite.rs:298-303 | the marks of one occurrence are exactly its period starts and its end that fall strictly inside the window |
| `Breakpoints.PushUnrolled` | crates/ocpp-cp/src/composite.rs:291-305 | the unrolling loop ends after at most duration / period + 2 rounds having pushed the marks of every occurrence from the last one at or before second 0 |
| `Breakpoints.PushMarks` | crates/ocpp-cp/src/v201_charging_profiles.rs:500-540 | one profile's pushes are exactly its marks inside the window: period starts and ends of each occurrence and validity edges |
| `Breakpoints.ChangeIsMarked` | crates/ocpp-cp/src/composite.rs:268-328 | every second at which a covered profile's contribution changes is a breakpoint, including recurrence wraps, per-occurrence ends and validity edges |
| `Breakpoints.UnmarkedIsAStart` | crates/ocpp-cp/src/composite.rs:291-317 | for any schedule, the only seconds at which a change can go unmarked are the starts of its occurrences, and only if neither a period start nor an end is marked there |
| `Breakpoints.ArrivalsAreMarked` | crates/ocpp-cp/src/composite.rs:291-317 | a profile never starts to constrain at an unmarked second, unless it imposes nothing just before an occurrence and something at its unmarked start |
| `Breakpoints.NonNegativeStartsArrive` | crates/ocpp-cp/src/composite.rs:291-305 | a schedule without negative period starts never starts to constrain at an unmarked occurrence start |
| `Breakpoints.LateStartsAreUncovered` | crates/ocpp-cp/src/composite.rs:291-305 | every daily or weekly schedule whose periods all begin late in its occurrence loses the change at its start |
| `Breakpoints.CoverIsExact` | crates/ocpp-cp/src/composite.rs:298-303 | a schedule's breakpoints are complete for every placement, validity and window if and only if it covers its own start |
| `Breakpoints.AllOffsetsInWindow` | crates/ocpp-cp/src/composite.rs:277-282 | the breakpoints start at 0, strictly increase and lie in [0, duration), so the narrowing cast is safe |
| `Breakpoints.AllOffsetsLength` | crates/ocpp-cp/src/v201_charging_profiles.rs:483-487 | the list has at most 1 + the sum over profiles of occurrences × (periods + 1) + 2 entries: never a per-second scan |
| `Breakpoints.SoleOffsetsLength` | crates/ocpp-cp/src/composite.rs:277-327 | for one profile the list has at most 3 + occurrences × (periods + 1) entries, with duration / 86400 + 2 or duration / 604800 + 2 occurrences when it recurs |
| `Walk.SparseIsScan` | crates/ocpp-cp/src/composite.rs:390-411 | a walk over complete breakpoints opens exactly the periods of the second-by-second scan, with the same tolerance test |
| `Walk.ReportDrift` | crates/ocpp-cp/src/composite.rs:398-409 | at every constrained second the reported phases are exact and the limit is off by less than eps per breakpoint coalesced since the period opened, by nothing if there was none |
| `Walk.ScanToReports` | crates/ocpp-cp/src/composite.rs:390-411 | where neighbouring seconds are equal or at least the tolerance apart, the report gives back the level of every constrained second, across gaps |
| `Walk.ReportIsExactIff` | crates/ocpp-cp/src/composite.rs:390-411 | the report gives the true limit at every constrained second if and only if no two neighbouring seconds of equal phases differ by less than the tolerance |
| `Walk.WalkIsExactIff` | crates/ocpp-cp/src/v201_charging_profiles.rs:639-681 | if constrained seconds that are not walked keep their limits, the report gives the true limit at every constrained second if and only if walked seconds that coalesce have equal limits |
| `Walk.SeparatedIff` | crates/ocpp-cp/src/composite.rs:390-411 | over complete breakpoints that condition on walked seconds is the one on neighbouring seconds |
| `Walk.OpenedAreTrue` | crates/ocpp-cp/src/composite.rs:396-409 | whatever breakpoints are walked, every opened period carries the limit and phases of the second it opens at |
| `Walk.ReplayIsFixedIff` | crates/ocpp-cp/src/composite.rs:390-411 | any ordered period list replayed over a window and scanned again comes back unchanged if and only if no period coalesces with the one before it |
| `Walk.SparseMaps` | crates/ocpp-cp/src/v201_charging_profiles.rs:657-681 | re-expressing limits through an injective map re-expresses the reported periods and moves none, whatever breakpoints are walked |
| `Composite16.ComputeProfileLimitAt` | crates/ocpp-cp/src/composite.rs:135-194 | the stepwise evaluation of one profile is its timetable's level at that instant |
| `Composite16.ProfileLimitOnCalendar` | crates/ocpp-cp/src/composite.rs:110-194 | a profile contributes what its schedule imposes at the position reached in its day of 86400 or week of 604800 seconds, or since its only start; nothing outside its validity, before a start that comes once, or past the duration |
| `Composite16.WinnerWins` | crates/ocpp-cp/src/composite.rs:208-242 | the winner is an applicable candidate no applicable candidate outranks, and there is one whenever any applies |
| `Composite16.LastOfEqualsWins` | crates/ocpp-cp/src/composite.rs:208-242 | of applicable candidates of equal precedence the last listed wins, as override and as ceiling |
| `Composite16.OverridePrecedence` | crates/ocpp-cp/src/composite.rs:197-223 | transaction profiles outrank defaults, then the connector's own outrank inherited ones, then the higher stack level wins |
| `Composite16.CeilingPrecedence` | crates/ocpp-cp/src/composite.rs:225-242 | among applicable charge-point maxima the highest stack level wins |
| `Composite16.ComputeEffectiveLimitAt` | crates/ocpp-cp/src/composite.rs:335-363 | the loop over the two contributions computes the effective limit |
| `Composite16.EffectiveIsLeast` | crates/ocpp-cp/src/composite.rs:330-334 | the effective limit is the least of winning override and winning ceiling, the override when they are equal, and absent exactly when no profile applies |
| `Composite16.CeilingsAlone` | crates/ocpp-cp/src/composite.rs:335-363 | with ceilings alone the limit is that of an applicable candidate of the highest stack level |
| `Composite16.BoundaryOffsets` | crates/ocpp-cp/src/composite.rs:272-328 | the imperative collection yields the strictly increasing, bounded-length breakpoint list of all candidates |
| `Composite16.ComputeComposite` | crates/ocpp-cp/src/composite.rs:372-424 | the computed schedule is the sparse composite, and for covered candidates the per-second composite |
| `Composite16.ReportedFields` | crates/ocpp-cp/src/composite.rs:413-423 | the report carries the window and the unit, and each of its periods opens with the effective limit and phases of its own second |
| `Composite16.WalkOffsets` | crates/ocpp-cp/src/composite.rs:382-411 | the coalescing loop opens exactly the periods of the sparse walk |
| `Composite16.CompositeLosesNothing` | crates/ocpp-cp/src/composite.rs:372-424 | the sparse composite equals the composite of a look at every second of the window |
| `Composite16.ReportCoverIsExact` | crates/ocpp-cp/src/composite.rs:272-328 | the report is the per-second report for every placement, validity, window and covered company of a schedule if and only if the schedule covers its start, whatever the tolerance |
| `Composite16.UnanchoredCoverIsExact` | crates/ocpp-cp/src/composite.rs:291-305 | the same for recurring schedules without a start of their own, which every window anchors to its opening and which start again only in windows longer than their period |
| `Composite16.GapMisreports` | crates/ocpp-cp/src/composite.rs:385-411 | over any inherited default, a schedule with an uncovered gap goes on being reported at a second at which the default alone applies |
| `Composite16.RejectedIff` | crates/ocpp-cp/src/composite.rs:368-371 | no schedule is returned exactly when the window is empty or no second of it is constrained by any profile; covered or not, for every schedule without negative period starts |
| `Composite16.RejectionIsExact` | crates/ocpp-cp/src/composite.rs:368-371 | rejection is right wherever a schedule is placed and with whatever candidates if and only if none of its constraints appears at an unmarked start |
| `Composite16.UnitChangeCommutes` | crates/ocpp-cp/src/composite.rs:82-99 | when every period converts with n phases (its own positive count, or one) the watt report is the ampere report, each limit times 230 and n |
| `Composite16.SameLimitsSameReport` | crates/ocpp-cp/src/composite.rs:365-424 | candidate sets that impose the same limit at every second get the same period list |
| `Composite16.ReportedLimitDrift` | crates/ocpp-cp/src/composite.rs:390-411 | the drift bound, for the schedule the composite returns |
| `Composite16.CompositeIsExactIff` | crates/ocpp-cp/src/composite.rs:390-411 | the returned schedule gives the true limit at every constrained second if and only if no two neighbouring seconds differ by less than the tolerance |
| `Composite16.DriftIsUnbounded` | crates/ocpp-cp/src/composite.rs:385-409 | for every error there is a profile, rising by half the tolerance each second, whose report is off by more than that error |
| `Composite16.OrderIsIrrelevant` | crates/ocpp-cp/src/composite.rs:208-242 | without precedence ties the composite in a requested unit does not depend on candidate order |
| `Composite16.UnitOrderIsExact` | crates/ocpp-cp/src/composite.rs:246-266 | with no unit requested the chosen unit survives every permutation of the candidates if and only if the candidates that can decide it agree |
| `Composite16.DefaultUnitPrecedence` | crates/ocpp-cp/src/composite.rs:244-266 | with no unit requested the unit is that of the last listed of the overrides of highest purpose, then stack level; without overrides that of the first candidate; without candidates amperes |
| `Composite16.DefaultUnitOrderIsIrrelevant` | crates/ocpp-cp/src/composite.rs:246-266 | without ties and with the unit settled the whole composite ignores candidate order |
| `Composite16.DefaultUnitOrderIsExact` | crates/ocpp-cp/src/composite.rs:246-266 | without ties, a schedule reported with no unit requested survives every permutation of the candidates if and only if the unit is settled |
| `Composite16.FeedbackIsFixedPoint` | crates/ocpp-cp/src/composite.rs:372-424 | where every second is constrained and coalescing is exact, installing the report as the only override and asking again returns it unchanged |
| `Composite16.FeedbackIsExact` | crates/ocpp-cp/src/composite.rs:372-424 | installing any report as the only override and asking again returns it unchanged if and only if no reported period is within the tolerance of the one before it |
| `Composite201.ResolverFollowsTimetable` | crates/ocpp-cp/src/v201_charging_profiles.rs:210-265 | the resolver finds the first schedule and the period the shared timetable has in force |
| `Composite201.ResolvedOnCalendar` | crates/ocpp-cp/src/v201_charging_profiles.rs:200-265 | the resolver answers what the first schedule imposes at the position reached in its day of 86400 or week of 604800 seconds, or since its only start; nothing outside validity, before a start that comes once, past the duration, or without a schedule |
| `Composite201.EffectivePhases` | crates/ocpp-cp/src/v201_charging_profiles.rs:290-292 | absent means three phases, 1 to 3 are kept, less becomes 1 and more becomes 3 |
| `Composite201.TightestIsLeast` | crates/ocpp-cp/src/v201_charging_profiles.rs:370-382 | the composed metering limit is the least limit in force, whatever the order of the profiles |
| `Composite201.BoundedPowerWCapped` | crates/ocpp-cp/src/v201_charging_profiles.rs:389-407 | the bound is the least limit in force when that is below the natural rate, and absent when every limit in force is at or above it |
| `Composite201.CompositeBoundaryOffsets` | crates/ocpp-cp/src/v201_charging_profiles.rs:488-545 | one profile's breakpoints: second 0 and its marks, strictly increasing |
| `Composite201.UnionOffsets` | crates/ocpp-cp/src/v201_charging_profiles.rs:628-637 | the merged list is the breakpoints of the base and all ceilings together |
| `Composite201.ComputeCappedAt` | crates/ocpp-cp/src/v201_charging_profiles.rs:647-668 | the fold over the ceilings computes the capped level, phases untouched |
| `Composite201.CappedIsCap` | crates/ocpp-cp/src/v201_charging_profiles.rs:664-668 | the capped limit is the least of the base limit and the ceilings in force |
| `Composite201.ComposeCompositeScheduleCapped` | crates/ocpp-cp/src/v201_charging_profiles.rs:610-698 | the computed schedule is the sparse composite, and for covered profiles the per-second composite of the capped limit |
| `Composite201.ReportedFields` | crates/ocpp-cp/src/v201_charging_profiles.rs:622-697 | the report carries the EVSE, the window, and the unit requested, or else that of the base's first schedule |
| `Composite201.OwnUnitIsUnconverted` | crates/ocpp-cp/src/v201_charging_profiles.rs:615-627 | with no unit requested and no ceilings every period reports the base's active limit, lifted to the minimum charging rate and otherwise unconverted |
| `Composite201.ComposeLosesNothing` | crates/ocpp-cp/src/v201_charging_profiles.rs:610-698 | breakpoints of base and ceilings together lose no change of the capped limit, for bases and ceilings that are covered or contribute alike around their starts |
| `Composite201.RejectedIff` | crates/ocpp-cp/src/v201_charging_profiles.rs:596-604 | nothing is reported exactly when the base imposes nothing at any second, whatever the ceilings; the base may be uncovered as long as it has no negative period start |
| `Composite201.RejectionIsExact` | crates/ocpp-cp/src/v201_charging_profiles.rs:596-604 | rejection is right wherever the base is placed and under whatever ceilings if and only if none of its constraints appears at an unmarked start |
| `Composite201.OnlyTheBaseOpensPeriods` | crates/ocpp-cp/src/v201_charging_profiles.rs:588-604 | for all schedules, every reported period opens where the base applies, with the base's phases and the capped limit of that second |
| `Composite201.CeilingOrderIsIrrelevant` | crates/ocpp-cp/src/v201_charging_profiles.rs:610-698 | the report depends on which ceilings there are, not on their order |
| `Composite201.ReportAgreesWithMeter` | crates/ocpp-cp/src/v201_charging_profiles.rs:389-475 | in watts, for a window that opens with the transaction, the reported limit at every second the base applies is the least limit in force, and the meter binds to it exactly when it is below the natural rate; the base may be uncovered as long as it imposes nothing at its start, or the same watts on both sides of it |
| `Composite201.AgreementIsExact` | crates/ocpp-cp/src/v201_charging_profiles.rs:389-475 | report and meter agree at every second the base applies, whatever the natural rate, if and only if walked seconds that coalesce have equal limits |
| `Composite201.CeilingCoverIsExact` | crates/ocpp-cp/src/v201_charging_profiles.rs:514-519 | at any fixed tolerance, report and meter agree wherever a ceiling is placed, under every covered base and company, if and only if the ceiling covers its start or caps alike on both sides of it |
| `Composite201.BaseCoverIsExact` | crates/ocpp-cp/src/v201_charging_profiles.rs:514-519 | at any fixed tolerance, report and meter agree at every second the base applies, wherever the base is placed and under whatever covered ceilings, if and only if the base covers its start, imposes nothing at it, or the same watts on both sides of it |
| `Composite201.LaterReportAgreesWithMeter` | crates/ocpp-cp/src/v201_charging_profiles.rs:561-569 | for profiles tied to the calendar, and for those whose marks never change the watts they impose, the agreement holds for a window that opens later in the transaction |
| `Composite201.OpeningAgreementIsExact` | crates/ocpp-cp/src/v201_charging_profiles.rs:561-569 | at the opening of later windows report and meter agree on a profile if and only if it is tied to the calendar, never valid, or imposes the same watts at each of its marks |
| `Composite201.UnitChangeCommutes` | crates/ocpp-cp/src/v201_charging_profiles.rs:424-446 | with one phase count n and voltage V > 0 the watt report is the ampere report with every limit times V·n, for covered and uncovered profiles alike |
| `ProfileStore.ChargingProfileStore.Set` | crates/ocpp-cp/src/charging_profiles.rs:100-118 | the in-place install produces the new store function |
| `ProfileStore.ChargingProfileStore.Clear` | crates/ocpp-cp/src/charging_profiles.rs:126-162 | the in-place clear removes what matches and answers Accepted if and only if the total count dropped |
| `ProfileStore.SetExactly` | crates/ocpp-cp/src/charging_profiles.rs:89-118 | an install adds the newcomer and displaces only its id anywhere and its slot on the target |
| `ProfileStore.ClearExactly` | crates/ocpp-cp/src/charging_profiles.rs:120-162 | a clear removes exactly the profiles that match every filter |
| `ProfileStore.InstalledIfAllowed` | crates/ocpp-cp/src/charging_profiles.rs:46-118 | a request installs its profile, last on its connector, exactly when the connector is known or 0, a charge-point maximum goes to 0, and a transaction profile to a connector with a transaction under way; otherwise nothing changes |
| `ProfileStore.InstalledWasAllowed` | crates/ocpp-cp/src/charging_profiles.rs:46-118 | over every run, whatever is installed was asked for by a request that those rules allowed |
| `ProfileStore.RunIsConsistent` | crates/ocpp-cp/src/charging_profiles.rs:46-118 | every run of guarded installs and clears keeps ids unique station-wide, slots unique per connector, no empty lists, and profiles only where their purpose may be |
| `ProfileStore.CandidatesHaveNoTies` | crates/ocpp-cp/src/lib.rs:5079-5097 | the candidates gathered from a consistent store have no precedence ties, as overrides or as ceilings |
| `ProfileStore.StoredCompositeIgnoresOrder` | crates/ocpp-cp/src/composite.rs:65-75 | for any store a run produced, the composite in a requested unit does not depend on the order of the gathered candidates |
| `ProfileStore.StoredUnitDependsOnOrder` | crates/ocpp-cp/src/composite.rs:246-266 | after two plain installs, a connector's own default and a shared one at one stack level, the unit reported when none is requested is that of whichever is gathered last |
| `LocalList.ProjectedCount` | crates/ocpp-cp/src/local_list.rs:193-213 | the count projected without touching the list is the size of the list the update would make |
| `LocalList.ProjectionIsExact` | crates/ocpp-cp/src/local_list.rs:193-210 | without duplicate tags the running count is at every prefix the size of the map that prefix makes, so it never underflows |
| `LocalList.EntriesChange` | crates/ocpp-cp/src/local_list.rs:214-226 | an update is (old minus deletes) plus adds |
| `LocalList.EntryOrderIsIrrelevant` | crates/ocpp-cp/src/local_list.rs:193-199 | the result does not depend on the order of the entries |
| `LocalList.LocalAuthList.Apply` | crates/ocpp-cp/src/local_list.rs:156-232 | all or nothing: the answer is a decision on duplicates, version and the real resulting size; anything but Accepted leaves version and entries alone |
| `LocalList.LocalAuthList.ApplyV201` | crates/ocpp-cp/src/local_list.rs:262-264 | the 2.0.1 request steps the same list through its translation, with the mapped answer |
| `LocalList.TranslationIsFaithful` | crates/ocpp-cp/src/local_list.rs:281-331 | the translation keeps tags, duplicates, deletes, groups and the statuses both dialects have, reads every other refusal as invalid and drops the expiry |
| `LocalList.AcceptedIff` | crates/ocpp-cp/src/local_list.rs:156-232 | exactly which updates are accepted, and which are version mismatches: distinct tags, complete and small enough lists, later versions |
| `LocalList.StepExactly` | crates/ocpp-cp/src/local_list.rs:156-232 | an accepted full update leaves exactly its own entries, a differential one (old minus deletes) plus adds, both with the request's version; a refused one changes nothing |
| `LocalList.AcceptedFits` | crates/ocpp-cp/src/local_list.rs:176-178 | an accepted update, full or differential, leaves a list within capacity |
| `LocalList.RunFits` | crates/ocpp-cp/src/local_list.rs:67-71 | over every run the list never exceeds its maximum length |
| `LocalList.VersionRises` | crates/ocpp-cp/src/local_list.rs:186-191 | between full updates the version rises with every accepted update, and without one nothing changes |
| `StateMachine.SessionNeedsAuthorization` | crates/ocpp-cp/src/state_machine.rs:332-520 | a step enters a session exactly on an authorization from Preparing with a tag that is not blank, or from Reserved |
| `StateMachine.SessionEndsBy` | crates/ocpp-cp/src/state_machine.rs:347-407 | a session ends exactly by a finish, remote stop or emergency stop (to Finishing), an unplugged cable or reset (to Available), or a real fault (to Faulted) |
| `StateMachine.SessionContinues` | crates/ocpp-cp/src/state_machine.rs:361-365 | within a session the vehicle or the station suspends, charging resumes, and every other event is refused |
| `StateMachine.EventsOutsideSessions` | crates/ocpp-cp/src/state_machine.rs:338-407 | outside a session, where cables, availability, cleared faults, reservations, remote starts and the end of a transaction lead, from which states they are refused, and that there is nothing to stop, suspend or resume |
| `StateMachine.EventsAnywhere` | crates/ocpp-cp/src/state_machine.rs:338-409 | in every state resets and real faults go through, and a failed authorization or a report of charging changes nothing |
| `StateMachine.RunNeedsAuthorization` | crates/ocpp-cp/src/state_machine.rs:414-459 | a run that ends in a session was last brought into it by an authorization |
| `StateMachine.StopHolds` | crates/ocpp-cp/src/state_machine.rs:414-459 | after a remote or emergency stop of a session there is no session again until a later authorization |
| `StateMachine.OutOfServiceHolds` | crates/ocpp-cp/src/state_machine.rs:414-459 | an unavailable connector stays so until it is made available, reset, or faults |
| `StateMachine.ConnectorStateMachine.ProcessEvent` | crates/ocpp-cp/src/state_machine.rs:414-459 | the new state, previous state and logged transition; refused events leave the state alone; the history stays the last 100 logged, chained and ending in the current state |
| `StateMachine.ConnectorStateMachine.ForceState` | crates/ocpp-cp/src/state_machine.rs:546-567 | the forced state is logged as a reset and keeps the same history invariant |
| `StateMachine.HistoryChains` | crates/ocpp-cp/src/state_machine.rs:522-528 | the kept history has min(n, 100) entries, chains and ends in the current state whatever was evicted |
| `Connector.ChargeConnector.PlugIn` | crates/ocpp-cp/src/connector.rs:249-284 | plugging in marks the cable in, takes Available and Reserved to Preparing and leaves every other status |
| `Connector.ChargeConnector.PlugOut` | crates/ocpp-cp/src/connector.rs:287-337 | unplugging frees a preparing or finishing connector and stops a session's transaction as an emergency before freeing it; faulted and unavailable stay |
| `Connector.ChargeConnector.StartTransaction` | crates/ocpp-cp/src/connector.rs:340-426 | a start opens a session, locks the cable and clears the reservation, or answers the first refusal that applies and changes nothing |
| `Connector.ChargeConnector.StopTransaction` | crates/ocpp-cp/src/connector.rs:429-470 | a stop ends the held transaction and goes to Finishing with the cable in, to Available without; without a transaction nothing changes |
| `Connector.ChargeConnector.SetFault` | crates/ocpp-cp/src/connector.rs:529-560 | a real error code faults the connector and stops its transaction; NoError only records the code |
| `Connector.ChargeConnector.ClearFault` | crates/ocpp-cp/src/connector.rs:563-586 | clearing a fault leads to Available or Preparing according to the cable |
| `Connector.OperationKeepsSound` | crates/ocpp-cp/src/connector.rs:249-641 | a transaction is held exactly in a session and is up to date with the meter, the cable is out when free and in when in use; every operation keeps this except, exactly, clearing a fault while a transaction is held |
| `Connector.NothingIsDropped` | crates/ocpp-cp/src/connector.rs:287-560 | a transaction that leaves the connector was stopped at the connector's meter, for the reason and at the time of the operation, with its energy accounted for; the unplugged branch of a stop is dead |
| `Connector.FieldsChangedBy` | crates/ocpp-cp/src/connector.rs:249-640 | which operation touches the cable and its lock, the error code, the meter and the reservation, and how; every other leaves them |
| `Connector.TransactionOpened` | crates/ocpp-cp/src/connector.rs:340-640 | only a start opens a transaction, with the tag, id, connector and meter it is given; a held one changes by readings alone |
| `Connector.RunIsSound` | crates/ocpp-cp/src/connector.rs:249-641 | the invariant, and stopped and accounted transactions, over every run that clears no fault while a transaction is held |
| `Connector.RunIsSoundIff` | crates/ocpp-cp/src/connector.rs:249-641 | a run is sound throughout if and only if it clears no fault while a transaction is held |
| `Connector.OperationIsSimulated` | crates/ocpp-cp/src/state_machine.rs:332-411 | every operation from a sound state is zero, one or two moves of the transition table, and where clearing a fault takes two no single event would do |
| `Connector.RunIsSimulated` | crates/ocpp-cp/src/connector.rs:249-628 | every connector run is a run of the transition table through the same statuses |
| `Connector.MachineAcceptsUnlessBlank` | crates/ocpp-cp/src/state_machine.rs:462-519 | the validating machine accepts an operation's events and follows it if and only if it does not start or reserve for a blank tag |
| `Connector.RunIsAccepted` | crates/ocpp-cp/src/state_machine.rs:414-459 | every event of a run is logged as a success if and only if no operation that takes effect uses a blank tag, and the machine then ends in the connector's status |
| `Transactions.PushKeepsLast` | crates/ocpp-cp/src/transaction.rs:207-213 | evict-then-append keeps exactly the last elements ever pushed |
| `Transactions.EvictionKeepsEnergy` | crates/ocpp-cp/src/transaction.rs:207-227 | however many readings are evicted the energy is the last reading ever taken minus the start |
| `Transactions.ChangeExactly` | crates/ocpp-cp/src/transaction.rs:337-447 | what each use of a borrowed record does to it, and that it leaves every other field alone |
| `Transactions.Transaction.Stop` | crates/ocpp-cp/src/transaction.rs:398-431 | the record after a stop; a finished transaction is left alone |
| `Transactions.Transaction.AddMeterValue` | crates/ocpp-cp/src/transaction.rs:207-213 | the in-place eviction and push on the meter log |
| `Transactions.StopConserves` | crates/ocpp-cp/src/transaction.rs:398-431 | whatever callers do to a new transaction, the record archived by a manager stop explains its energy if and only if no caller failed it before stopping it and no reading after a caller's stop ends elsewhere |
| `Transactions.RunConservesIff` | crates/ocpp-cp/src/transaction.rs:398-616 | over every run of the manager that condition, read off the commands, decides for each archived record whether it explains its energy |
| `Transactions.EarlyEndsMisreport` | crates/ocpp-cp/src/transaction.rs:399-447 | both failing runs: a failed transaction has no meter stop, and one that keeps taking readings after a caller's stop has a stale one |
| `Transactions.TransactionManager.CreateTransaction` | crates/ocpp-cp/src/transaction.rs:554-584 | the new state and the issued id, or a refusal that changes nothing |
| `Transactions.TransactionManager.ChangeTransaction` | crates/ocpp-cp/src/transaction.rs:592-594 | what a caller does to a borrowed transaction changes that record and nothing else |
| `Transactions.TransactionManager.StopTransaction` | crates/ocpp-cp/src/transaction.rs:597-616 | the new state, bounded history included, and the archived record |
| `Transactions.TransactionManager.Summarize` | crates/ocpp-cp/src/transaction.rs:634-659 | the statistics counted in one pass |
| `Transactions.StepExactly` | crates/ocpp-cp/src/transaction.rs:554-616 | a creation opens a fresh record under the next id, a borrowed record changes alone, and a stop moves the record into the archive with its reason, time and meter |
| `Transactions.RunIsAccounted` | crates/ocpp-cp/src/transaction.rs:554-616 | over every run ids never repeat among active and stopped transactions and stay below the counter, and history is the last 1000 stops |
| `Transactions.IssuedIdsIncrease` | crates/ocpp-cp/src/transaction.rs:568-569 | issued ids strictly increase |
| `Transactions.OrderlyRunConserves` | crates/ocpp-cp/src/transaction.rs:398-616 | if transactions stop through the manager alone, every archived energy is meter stop minus meter start |
| `Transactions.StatisticsAddUp` | crates/ocpp-cp/src/transaction.rs:634-659 | completed + failed + active = total, and the total energy is the sum of the metered differences when every archived life ended well |
| `Reports.ReportPages` | crates/ocpp-cp/src/v201_command.rs:1941-1962 | pages concatenate to the input, hold 1 to 25 entries and are full but for the last, are numbered from 0 up to the wire width, and announce more on all but the last; no entries make one empty page |
| `Reports.ReportChargingProfilesPages` | crates/ocpp-cp/src/v201_command.rs:1138-1178 | the grouping and paging loops compute the page function, so each page holds exactly what matched under its key |
| `Reports.PagesPartition` | crates/ocpp-cp/src/v201_command.rs:1138-1178 | keys strictly increase, a key has a page exactly when something matched under it, and the page holds exactly that multiset in id order |
| `Reports.PageHolds` | crates/ocpp-cp/src/v201_command.rs:1109-1178 | a page holds each profile as often as it matched on that EVSE under its source, external constraints under SO and all others under CSO, and SO pages come before CSO pages of the same EVSE |
| `Reports.SortIsStable` | crates/ocpp-cp/src/v201_command.rs:1156-1158 | profiles of equal id keep their order of arrival within a page |
| `Reports.MatchOrderIsIrrelevant` | crates/ocpp-cp/src/v201_command.rs:1109-1113 | when ids identify the profiles under each key the pages do not depend on the order of the matches |
| `Composite16.ConvertRoundTrips` | crates/ocpp-cp/src/composite.rs:86-99 | converting between amperes and watts and back is exact |
| `Composite201.RateRoundTrips` | crates/ocpp-cp/src/v201_charging_profiles.rs:424-446 | converting there and back is exact if and only if units match, the voltage is not zero, or the limit is zero |
| `Composite201.RateInBothUnits` | crates/ocpp-cp/src/v201_charging_profiles.rs:424-446 | watts are amperes times voltage and phases, and without voltage watts are kept as the figure for amperes |
| `Composite201.UncappedMeterBound` | crates/ocpp-cp/src/v201_charging_profiles.rs:349-358 | without ceilings the capped bound is the base profile's own bound |
| `LocalList.DuplicatesMislead` | crates/ocpp-cp/src/local_list.rs:157-161 | with a duplicated tag the projection would be wrong |
| `Connector.StartRefusals` | crates/ocpp-cp/src/connector.rs:350-379 | on a sound connector a start is refused for a missing cable, a running session, someone else's reservation, and otherwise unless the connector is preparing |
| `StateMachine.BlankTags` | crates/ocpp-cp/src/state_machine.rs:474-499 | a tag is blank exactly when it has no characters but the 25 of Unicode white space |
| `ProfileStore.ChargingProfileStore.Len` | crates/ocpp-cp/src/charging_profiles.rs:173-175 | the total over all connectors |
| `StateMachine.ConnectorStateMachine.ClearHistory` | crates/ocpp-cp/src/state_machine.rs:541-543 | the log starts afresh and the state is untouched |

## Left out

- Locks, async tasks, channels, connector events and tracing: each operation is one atomic step.
- f64 rounding, NaN and infinities, overflow of absolute instants, counters and energy sums, and sub-second instants.
- Parsing of RFC 3339 text and of stop reasons: instants are optional integers, and reasons are already parsed.
- The clock and the ids it seeds are parameters; strings that only explain a refusal are dropped.
- `Connector.OperationKeepsSound`: statuses written from outside with `set_status` are not among the operations, because the method accepts any status.
- `Transactions.RunIsAccounted`: `clear_old_history` and direct access to a transaction's record are not among the commands; the first would turn the history into a selection of the last stops.
- `Composite201.ComposeLosesNothing`: equality with the per-second period list is proved for covered profiles; for the others what is proved exact is the agreement with the meter and the rejection.
- The `valid_transitions` table and `get_valid_events` of the state machine, which the transition function never reads and does not agree with.
- The voltage, current, temperature and state-of-charge parts of meter values, and the error text of a fault.
- The per-EVSE 2.0.1 profile store, request and response builders, status tables and the remaining stores of the crate: thin wrappers over one map or finite case tables.
