# Verified model of Kintrinsic's rules

A Dafny model of the parts of Kintrinsic where a rule has to hold over every run,
every saved policy or every interleaving, with proofs that it does, or with the
exact condition under which it does.

Kintrinsic limits a child's screen time. A guardian's app edits schedules, named
times and app rules and signs them; the child's device (the ward) decides every
tick whether it is locked; both sides exchange wraps over relays and a local link.

| files | what they model |
|---|---|
| `ScheduleMeaning` | schedules with tagged windows and what runs at an instant: the one reference meaning |
| `GuardianTimes`, `NextOpening`, `ScheduleEditing`, `TimeWindows`, `AcceptedEdits` | the guardian app's queries and edits, proved against that meaning; which edits are accepted and what they write |
| `WardSchedule`, `SignedSchedules`, `OpenSpans` | the ward's two schedule evaluators and the wire body between guardian and ward; which schedules are signed; how long an open span lasts |
| `LockDecision`, `LockRuns`, `EdgeMachine`, `WarnedLocks` | the lock verdict, the today-only ledger, whole runs of ticks, and the lock and warning effects |
| `EffectivePolicy`, `AppHolds` | one base charter with per-device overrides; holds that last for an interval |
| `NamedTimes`, `NamedTimesLaws`, `SignedEntries`, `AppsFragment`, `AppMoves` | groups of apps compiled to three clauses and read back |
| `Slugs` | the three id allocators |
| `BreakGlass`, `BreakGlassRuns` | the emergency-override journal, over every clock and every pattern of failed writes |
| `Outbox`, `Relay` | the spool of wraps every relay refused |
| `LinkDrain`, `StateDir` | winding down the ward's link; claiming the guardian carrier's state directory |
| `ClauseCache` | the SDK's clause register fed by relays in any order |
| `Seqs`, `JsText` | sequence and string helpers |

`dafny verify dfyconfig.toml` checks everything.

How the model is cut:

- Code that updates fields or files in place is a class or a method with loops
  (`EdgeMachine`, `Warden`, `Journal`, `Outbox`, `BlockingRelay`, `Carrier`,
  `Evaluator`, and the app's loops over windows, devices and groups), proved against
  a function; the laws are then lemmas about that function.
- The clock is (day key, weekday, second of the day) in the schedule's own zone. Zone
  arithmetic and the search for the next opening's distance are given by `Zone`.
- Disks, relays and the process dying are parameters of the step they affect: which
  write fails, how much of a file lands, after how many deletions the process stops,
  which relay accepts.
- Cryptography is a field: whether an event verifies, what its content decrypts to,
  what building a wrap gives.
- Numbers are unbounded; the source's saturating subtractions and its `-1` for "no cap"
  are written out.

What the proofs found the code not to do, each with the exact condition or an input:

- `setTimeWindows` keeps every other paired device's schedule only for a paired target.
  For an unpaired device that has reported, beside one paired sibling, it writes the
  base and the sibling runs the new windows (`TimeWindows.SpareExactly`,
  `TimeWindows.UnpairedTargetReachesItsSibling`).
- `nextWindow` can be wrong both ways beside an undefined tag: one that starts with the
  answered window keeps the device locked there, and one that ends before it lets a known
  window run early (`GuardianTimes.UndefinedTagHidesTheOpening`,
  `NextOpening.UndefinedTagEndsBeforeTheOpening`). `NextOpening.NextWindowExactly` says
  exactly when each half holds.
- A hold put on one app can change another's later: pruning drops holds dated over a day
  ahead and those past the 64th, which may have decided the other app or crowded out the
  hold that does (`AppHolds.ADatedHoldIsLost`, `AppHolds.The65thHoldIsLost`,
  `AppHolds.ACrowdedHoldIsFreed`; exactly when: `AppHolds.OthersUndisturbedExactly`).
- A free app whose saved entry says `free: false`, or that is listed under an id that is
  not its own identity, is lost by one save (`NamedTimesLaws.RoundTripUnlessMarkedCosting`,
  `NamedTimesLaws.MarkedCostingIsLost`, `NamedTimesLaws.RenamedIsLost`).
- With 998 ids taken `namedTimeSlug` can give an id of 41 characters, which the wire
  drops; with fewer it never does (`Slugs.NineHundredNinetyEightTaken`,
  `Slugs.NamedTimeSlug`).
- A manual block that was also on request is lifted with the request
  (`AppsFragment.SavesComposeExactly`).
- The seconds a closed device runs are not always paid for: the charge is chosen at the
  end of an interval, by an assessment that need not be the verdict the device ran under,
  and is 300 seconds at most. A stand-down that bites at the tick, a long gap and a late
  tick leave seconds unpaid; locked seconds are charged to Free's pool
  (`LockRuns.StandDownIntervalIsUnpaid`, `LockRuns.LongGapIsUnpaid`,
  `LockRuns.SlowTickOverruns`, `LockRuns.LockedIntervalIsCharged`).
  `LockRuns.ExactAccount` balances the books and `LockRuns.PaidExactlyWhenCovered` says
  exactly when every second is paid for.
- The journal's comment promises one identical event for every retry. A wrap the disk
  refused still goes to the relays and goes again under a new id
  (`BreakGlassRuns.FailedWriteIsSentAgain`); `BreakGlassRuns.RetryIsIdenticalExactly`
  says exactly when a retry is the identical event.
- A STATUS accepted directly leaves an older parked one, which a later drain publishes
  after it (`Relay.AStaleStatusIsPublished`, exactly when: `Relay.StalePublishedExactly`),
  and one whose JSON names no subject is never
  parked (`Relay.BlockingRelay.EmitStatus`).
- The runtime can be shut down under a live task before the drain limit in two ways: the
  retire thread reads zero and a session that has not noticed the close then ingests,
  be it past its frame's checks or still to read the frame
  (`LinkDrain.AStragglerIsCutOff`, `LinkDrain.ALateReaderIsCutOff`), or the thread cannot be started and nothing is waited
  for (`LinkDrain.SpawnFailureHappens`). `LinkDrain.TornDownBeforeTheLimit` says exactly
  when it is not.
- Showing the stripped app rules to the other editor and saving them drops the managed
  apps from the stored allow list (`AppsFragment.StrippingTrimsTheAllowList`).
- The clause cache marks an id as seen before it verifies the event, so a damaged copy
  keeps the genuine one out (`ClauseCache.ADamagedStream`; nothing newer is missed exactly
  when `ClauseCache.MissesNothingExactly` says); and two newest events of one date make the record depend on
  the order (`ClauseCache.ConvergesExactly`).

## Model

| member | source | states |
|---|---|---|
| ScheduleMeaning.TextOrderIsClockOrder | apps/charter-app/src/domain/times.ts:290-306 | comparing two "HH:MM" texts, as the overlap check does, is comparing their minutes, as the meaning does |
| ScheduleMeaning.CarverOfCovering | apps/charter-app/src/domain/times.ts:133-154 | only the windows covering an instant decide which tagged window wins there and whether anything covers it |
| GuardianTimes.ScanDay | apps/charter-app/src/domain/times.ts:133-154 | the one-pass scan finds the tagged covering window that is first by start, then by array order, and whether any window covers |
| GuardianTimes.ActiveTimeAt | apps/charter-app/src/domain/times.ts:133-154 | the scan over covering windows gives the reference meaning: the winning tag's time, locked for an undefined tag, Free under an untagged window, else locked |
| GuardianTimes.Pick | apps/charter-app/src/domain/times.ts:239-252 | the pick is the earliest later window, a tagged one before an untagged one at the same start, then array order; none only if there is no candidate |
| GuardianTimes.FindNextWindow | apps/charter-app/src/domain/times.ts:232-268 | today's pick, else tomorrow's, else nothing; nothing for an absent or lifted schedule |
| GuardianTimes.PickOpens | apps/charter-app/src/domain/times.ts:232-268 | at the picked window's start exactly its time runs (Free if untagged) |
| GuardianTimes.NextWindowIsExact | apps/charter-app/src/domain/times.ts:232-268 | locked now, well-formed windows and no undefined tag: every instant before the answered opening is locked, at it the named time runs; no answer means both days stay locked |
| GuardianTimes.UndefinedTagHidesTheOpening | apps/charter-app/src/domain/times.ts:232-268 | a schedule where the answered opening is locked, because an undefined tag starts with it |
| NextOpening.NextWindowExactly | apps/charter-app/src/domain/times.ts:232-269 | asked while locked, of any schedule whose windows start before they end: today stays locked until the opening if and only if no undefined tag's window ends over a known window that covers now; tomorrow is locked until its opening; at the opening the answered time runs if and only if its tag is defined and no other tag's window is ahead of it there |
| NextOpening.QuietExactly | apps/charter-app/src/domain/times.ts:133-154 | a locked stretch in which nothing known starts stays locked if and only if no undefined tag's end uncovers a known window already covering |
| NextOpening.OpensExactly | apps/charter-app/src/domain/times.ts:133-154 | a window's time runs at an instant it covers if and only if its tag is defined and no other tag's window is ahead of its own; Free only with no tagged window over it |
| NextOpening.UndefinedTagEndsBeforeTheOpening | apps/charter-app/src/domain/times.ts:239-252 | Free 16:00-19:00 under an undefined tag 16:00-17:00, asked at 16:00: the answer is 20:00, though Free runs from 17:00 |
| NextOpening.AKnownTagCanBeAhead | apps/charter-app/src/domain/times.ts:239-252 | a defined time hidden now by an undefined tag can be what runs at the answered opening |
| ScheduleEditing.FindTaggedOverlaps | apps/charter-app/src/domain/times.ts:290-306 | lists every overlapping pair of tagged windows of every weekday and override date, and only such pairs |
| ScheduleEditing.BothInsideOverlap | apps/charter-app/src/domain/times.ts:290-306 | two tagged windows that both cover an instant overlap as the check sees it |
| ScheduleEditing.StripTag | apps/charter-app/src/domain/times.ts:419-441 | strips one tag: a weekday that empties goes, one already empty stays, an override that empties stays |
| ScheduleEditing.RemoveNamedTime | apps/charter-app/src/domain/times.ts:452-467 | Free is refused; else the loop over the base and every device's own controls leaves `RemovalResult`, the policy that the lemmas below say has lost the definition and its windows and nothing else |
| ScheduleEditing.RemovalDeletesTheTime | apps/charter-app/src/domain/times.ts:452-467 | only Free is refused; otherwise the time is defined no longer, every other time is defined as before, what is left of the definitions keeps its order, and an absent list stays absent |
| ScheduleEditing.RemovalChangesOnlySchedules | apps/charter-app/src/domain/times.ts:452-467 | beside the definitions nothing but schedules changes, on the base and on every device, and a schedule keeps its zone and whether it is lifted |
| ScheduleEditing.StrippedWindows | apps/charter-app/src/domain/times.ts:419-441 | on every day the windows in force are the old ones without that tag |
| ScheduleEditing.RemovalOnlyDropsItsWindows | apps/charter-app/src/domain/times.ts:452-467 | after a deletion every device at every instant runs what the same rule gives on its old windows without that time's |
| ScheduleEditing.RemovalSparesOtherInstants | apps/charter-app/src/domain/times.ts:452-467 | deleting a defined time leaves every instant that was not running it exactly as it was |
| ScheduleEditing.RemovalLeavesNoTag | apps/charter-app/src/domain/times.ts:452-467 | no schedule tags the id any more, and a date override that empties stays a closed day |
| TimeWindows.SetTimeWindows | apps/charter-app/src/domain/times.ts:494-559 | the guards in turn, the split, the loops over the week and the overlap check leave `SetResult`, whose outcome and contents the lemmas below settle |
| AcceptedEdits.AcceptedExactly | apps/charter-app/src/domain/times.ts:494-559 | an edit is accepted if and only if the time is defined under a usable id, the first listed device of that id is ready for times, every given window starts before it ends, the device has a schedule that is not lifted, and no two tagged windows would share a minute of a weekday or a date |
| AcceptedEdits.OutcomeExactly | apps/charter-app/src/domain/times.ts:494-559 | which of the eight errors an edit gives: that of the first of these conditions, in this order, that fails |
| AcceptedEdits.AcceptedEditWrites | apps/charter-app/src/domain/times.ts:540-569 | an accepted edit leaves each weekday its windows without that tag, in order, and then the given ones tagged; dates, zone and definitions stay; the device then has its own schedule exactly if it had one or two devices are paired |
| TimeWindows.OverlapsFound | apps/charter-app/src/domain/times.ts:552-557 | the list of overlaps is empty exactly when no two tagged windows of any day overlap |
| TimeWindows.WindowsMeanWhatTheySay | apps/charter-app/src/domain/times.ts:494-559 | after success the device runs the time exactly inside the given windows, elsewhere what its old windows give without that time's; a day with a date override runs as before |
| TimeWindows.WardRunsTheGivenWindows | apps/charter-app/src/domain/times.ts:494-559 | once the edited schedule is signed, the ward's status names the time exactly inside the given windows, on days without a date override |
| TimeWindows.OneTimeAtOnce | apps/charter-app/src/domain/times.ts:552-557 | at no instant do two tagged windows of the edited schedule both cover |
| TimeWindows.EditSparesOtherDevices | apps/charter-app/src/domain/times.ts:522-558 | every other device keeps its whole effective policy unless the base was written and it follows it; the edited device keeps its other controls |
| TimeWindows.PairedSiblingsKeepTheirRules | apps/charter-app/src/domain/times.ts:522-558 | for a paired device, every other paired device's effective policy is unchanged |
| TimeWindows.SpareExactly | apps/charter-app/src/domain/times.ts:522-558 | any other device is unchanged if and only if the base was not written, or it has its own schedule, or the edit changed nothing |
| TimeWindows.UnpairedTargetReachesItsSibling | apps/charter-app/src/domain/times.ts:523-535 | a concrete unpaired target whose edit changes its paired sibling's rules |
| WardSchedule.LabelMeansRunning | core/crates/charter-schedule/src/times.rs:150-173 | the ward's label of a minute is the guardian's answer for it |
| WardSchedule.SpanEndIsFirstChange | core/crates/charter-schedule/src/times.rs:177-198 | the label holds for every minute up to the span's end and is different at it |
| WardSchedule.CountdownHoldsTheAnswer | core/crates/charter-schedule/src/times.rs:187-198 | on one day's windows the guardian's answer cannot change before the end of the label's span |
| WardSchedule.GuardianAndWardAgree | apps/charter-app/src/wire/clause.ts:65-110 | for every schedule the app signs, at every instant, the ward's status under the signed body is the guardian's answer, through both evaluators and the paused inversion |
| SignedSchedules.SignedExactly | apps/charter-app/src/wire/clause.ts:44-110 | a schedule is signed if and only if its zone is named and it is lifted or every day's windows start before they end, carry usable tags and, where tagged, share no minute; lifted it is signed as no limit, without a window as closed, else as it stands |
| OpenSpans.OpenEndsAtTheFirstChange | core/crates/charter-schedule/src/times.rs:187-262 | when the ward's status of a signed schedule with tagged windows is open until an instant, the guardian's answer is the same at every instant up to it and another at it, unless it is the local midnight; for a zone whose two directions agree that day |
| OpenSpans.FixedZoneAgrees | core/crates/charter-schedule/src/times.rs:204-208 | a zone without clock changes is such a zone at every instant |
| OpenSpans.SecondsRunOutAtTheChange | android/jni/src/times.rs:172-254 | with no budget, stand-down or pools in force the verdict's seconds run out exactly at the first instant the guardian's answer changes, or at midnight |
| OpenSpans.OpenSpanSeconds | android/jni/src/times.rs:185-213 | the schedule's seconds of an open span run to the first change; only where that is from Free to locked is Free's pool, less deductions, added; never past the day |
| OpenSpans.ClosedSpanSeconds | android/jni/src/times.rs:214-224 | while the guardian's answer is locked the schedule's seconds are Free's pool less deductions, within the day, and a schedule lock tells the zone's next opening unless no window is listed at all |
| OpenSpans.ClassicSpanSeconds | android/jni/src/times.rs:111-213 | without tagged windows the seconds run to the end of the first listed window over the instant, and Free's pool is always added |
| OpenSpans.LiftedScheduleIsNoLimit | apps/charter-app/src/wire/clause.ts:65-70 | a lifted schedule sets the ward no limit |
| OpenSpans.LeastLimitDecides | android/jni/src/times.rs:226-265 | without a named pool the device runs for the least of what schedule, budget and stand-down leave, and a lock names the stand-down before the schedule and the schedule before the budget |
| OpenSpans.VerdictFollowsTheAnswer | android/jni/src/times.rs:143-319 | the guardian's answer decides which time the verdict names, whether the budget applies and is charged, and whether Free's pool burns |
| OpenSpans.UnreadableScheduleLocks | android/jni/src/times.rs:180-184 | a newer schedule version, or an unpaused one whose zone cannot be read, locks as malformed |
| OpenSpans.OnlyUnreadableIsMalformed | android/jni/src/times.rs:178-250 | nothing else reads as malformed |
| ExtensionLedger.MostRecent | core/crates/charter-schedule/src/extension.rs:346-359 | the named pool most recently topped up that still has seconds, among the defined ids; none only if there is none |
| ExtensionLedger.MostRecentIsUnique | core/crates/charter-schedule/src/extension.rs:346-359 | there is only one such pool |
| OpenSpans.GrantsAddTheirMinutes | core/crates/charter-schedule/src/extension.rs:228-304 | a grant adds sixty seconds a minute to the pool it is for and changes no other; a topped-up pool of a defined time is the next to run |
| LockDecision.LockedMeansNoTimeMeansReason | android/jni/src/times.rs:143-319 | in every verdict: locked, no seconds left and having a reason are the same thing |
| LockDecision.FailSafeLocks | android/jni/src/times.rs:227-292 | a malformed schedule and an expired stand-down always lock, and no pool runs |
| LockDecision.StandDownCapsEveryRun | android/jni/src/times.rs:226-302 | under a stand-down no run, a pool's included, is longer than its cap |
| LockDecision.ClosedOpensOnlyFromPools | android/jni/src/times.rs:143-319 | a closed schedule, an undefined tag included, opens only as Free for at most Free's pool or as a defined time for at most that time's pool |
| LockDecision.OnePoolBurns | android/jni/src/times.rs:224-319 | never both pools, and none while a window decides |
| LockDecision.NamedPoolsOnlyUnlock | android/jni/src/times.rs:280-319 | named pools change the verdict if and only if Free's window and pool leave the device locked by schedule or budget and a defined time's pool has seconds left today; the one topped up last then carries it for exactly its seconds within the day and the stand-down, else nothing differs |
| LockDecision.ChargedUnlessExempt | android/jni/src/times.rs:267-318 | the budget is charged unless a defined, non-counting time runs; what runs as a time is always defined; a locked verdict names none |
| LockDecision.ExemptTimeIgnoresBudget | android/jni/src/times.rs:143-319 | a time that does not count runs its whole window whatever the budget says |
| LockDecision.ScheduleGrantNeverLocks | android/jni/src/times.rs:143-319 | enlarging Free's schedule pool never turns an unlocked verdict locked |
| LockDecision.TimeGrantNeverLocks | android/jni/src/times.rs:143-319 | topping up any named pool, known or not, never turns an unlocked verdict locked |
| LockDecision.UntaggedIsClassic | android/jni/src/times.rs:143-319 | with no tagged window the verdict is the classic computation's if and only if no named pool carries the device |
| LockRuns.Warden.Tick | android/jni/src/warden.rs:3271-3320 | burns the pool that the assessment at the tick, before burning, names, for the seconds since the last tick and 300 at most; assesses again and drives the edge machine |
| LockRuns.Warden.ElapsedSince | android/jni/src/warden.rs:3876-3881 | seconds since the last tick, none after a start or when the clock went back, 300 at most |
| LockRuns.TickChargesOnePool | android/jni/src/warden.rs:3265-3293 | a closed tick takes its seconds, or all that is left, from exactly one pool, the named one its assessment runs or else Free's; every other pool keeps what it had |
| LockRuns.ExactAccount | android/jni/src/warden.rs:3265-3293 | over every closed run, whatever the budget, the stand-downs and the clock do: seconds run plus pools left plus seconds charged while locked equal the pools at the start plus seconds run unpaid; a change of day only loses pools |
| LockRuns.PaidExactlyWhenCovered | android/jni/src/warden.rs:3265-3293 | every second run is paid for if and only if every interval run under an unlocked verdict is at most 300 seconds and at most what the pool charged for it holds |
| LockRuns.CoveredRunStaysWithinThePools | android/jni/src/warden.rs:3265-3293 | then the device never runs longer than Free's pool and the defined times' pools allow |
| LockRuns.PromptTickIsCovered | android/jni/src/times.rs:76-87 | a tick no later than the verdict in force promised, within 300 seconds, that charges the pool it ran on is covered |
| LockRuns.ClosedRunIsPaidFor | android/jni/src/warden.rs:3265-3293 | over every paced closed run without grants the seconds run, by the verdict in force over each interval, are paid for by the pools, each overrun only by the tick that empties it, but for intervals a stand-down, the budget or a new day cut off |
| LockRuns.EmptyPoolsStayLocked | android/jni/src/times.rs:143-319 | once Free's pool and the defined times' pools are empty every later verdict of a closed run is locked |
| LockRuns.StandDownIntervalIsUnpaid | android/jni/src/warden.rs:3271-3293 | a stand-down that bites at the tick: the minute before it ran on a named pool and no pool is charged |
| LockRuns.LongGapIsUnpaid | android/jni/src/warden.rs:3876-3881 | a 1000-second gap inside a promised grant of 6000 leaves 700 seconds unpaid |
| LockRuns.SlowTickOverruns | android/jni/src/warden.rs:3271-3293 | a 60-second grant found spent 100 seconds later ran 40 seconds unpaid |
| LockRuns.LockedIntervalIsCharged | android/jni/src/warden.rs:3271-3293 | a stand-down's own 100 seconds burn Free's grant though the device is locked |
| EdgeMachine.EdgeMachine.Tick | android/jni/src/times.rs:354-393 | one verdict's changes to the three flags, and the effects in the order pushed; what they amount to is said below without either function |
| EdgeMachine.LocksAlternate | android/jni/src/times.rs:338-393 | over every run lock, freeze and locked audit, then thaw, hide and thawed audit follow one another strictly; after it the screen, the apps and the audit all say what the last verdict says, and the screen's reason is that of the verdict that began the lock (schedule where it gives none) |
| EdgeMachine.WarnsExactly | android/jni/src/times.rs:371-389 | a tick warns ten minutes if and only if it is the first of an unlocked stretch with 61 to 600 seconds left, and one minute if and only if it is the first with 0 to 60; never both and never twice |
| EdgeMachine.EachTickTellsTheTime | android/jni/src/times.rs:390-392 | every tick's last effect, and no other, tells the time left of its verdict |
| EdgeMachine.OneImpliesTen | android/jni/src/times.rs:338-393 | in every reachable state the one-minute latch implies the ten-minute latch |
| EdgeMachine.NoRepeatWithoutRearm | android/jni/src/times.rs:338-393 | between two warnings of one level some tick re-armed it |
| EdgeMachine.NoLockWithoutWarning | android/jni/src/times.rs:338-393 | if time left falls by at most a minute into a lock, a one-minute warning was given in that same last minute |
| WarnedLocks.EveryLockIsWarned | android/jni/src/warden.rs:3265-3320 | over every closed run of one day with ticks at most a minute apart, no stand-down and the budget not spent, every lock shown after the first tick follows a one-minute warning in that same last minute |
| WarnedLocks.MoreThanAMinuteLasts | android/jni/src/times.rs:143-319 | on such ticks a verdict that promises more than a minute is not followed, within a minute, by a lock |
| WarnedLocks.RunWarden | android/jni/src/warden.rs:3265-3320 | the warden over a run: its ledger and clock, the edge machine and the whole trace of effects are the specification's |
| EffectivePolicy.EffectivePolicyForDevice | apps/charter-app/src/domain/effectivePolicy.ts:42-55 | defined overrides win over the base, undefined ones do not, and the override map is not sent |
| EffectivePolicy.SetControlSplit | apps/charter-app/src/domain/effectivePolicy.ts:76-87 | each listed device is seeded with its current value; one already split keeps its own |
| EffectivePolicy.SetControlShared | apps/charter-app/src/domain/effectivePolicy.ts:90-107 | the control leaves every override; an override, and then the map, that empties is dropped |
| EffectivePolicy.PickOverrides | apps/charter-app/src/domain/effectivePolicy.ts:131-145 | the overrides narrowed to the signed controls, empty ones dropped |
| EffectivePolicy.SplitIsNeutral | apps/charter-app/src/domain/effectivePolicy.ts:76-87 | splitting changes no device's effective policy, listed or not |
| EffectivePolicy.EditReachesOneControl | apps/charter-app/src/domain/effectivePolicy.ts:110-119 | editing one device's control changes that device's that control only |
| EffectivePolicy.SharingReturnsToBase | apps/charter-app/src/domain/effectivePolicy.ts:90-107 | sharing returns every device to the base for that control and keeps all others |
| EffectivePolicy.SharingUndoesSplitting | apps/charter-app/src/domain/effectivePolicy.ts:76-107 | sharing a freshly split control restores the policy exactly |
| EffectivePolicy.PickBringsInNothingElse | apps/charter-app/src/domain/effectivePolicy.ts:131-145 | overlaying picked overrides brings in the signed controls as before and no other |
| EffectivePolicy.DeviceControlValueIsEffective | apps/charter-app/src/domain/effectivePolicy.ts:148-154 | what the app shows as a device's value for a control is what the device would be sent |
| EffectivePolicy.SentIsOwnOverBase | apps/charter-app/src/domain/effectivePolicy.ts:42-56 | a device is sent the base's definitions and other fields as they are, its own value for each control it has set, the base's for any other, and not the map |
| AppHolds.HoldLivesItsInterval | apps/charter-app/src/domain/appHolds.ts:39-84 | a hold put now is in force at exactly the instants before its end |
| AppHolds.HoldIsKeptIffThereIsRoom | apps/charter-app/src/domain/appHolds.ts:39-84 | the hold takes effect if and only if fewer than 64 other holds are live |
| AppHolds.LiftReturnsToStanding | apps/charter-app/src/domain/appHolds.ts:67-155 | lifting a hold returns the app to its standing state from then on |
| AppHolds.OthersUndisturbedExactly | apps/charter-app/src/domain/appHolds.ts:39-84 | a put or a lift leaves another app's effective state as it was at every later moment if and only if, at each of the finitely many moments a listed hold changes, the holds pruning keeps say of that app what the whole list says |
| AppHolds.OthersGoByTheKept | apps/charter-app/src/domain/appHolds.ts:39-84 | after a put another app goes by the holds pruning kept, and by them alone, at every later moment |
| AppHolds.OthersAreUndisturbedNow | apps/charter-app/src/domain/appHolds.ts:39-84 | at the moment of the put no other app changes |
| AppHolds.NothingPendingDropped | apps/charter-app/src/domain/appHolds.ts:39-84 | a list of at most 64 holds, none dated over a day ahead, loses nothing: every other app is undisturbed for good |
| AppHolds.ADatedHoldIsLost | apps/charter-app/src/domain/appHolds.ts:39-84 | a hold dated over a day ahead is dropped by a put on another app: blocked later without it, allowed after it |
| AppHolds.The65thHoldIsLost | apps/charter-app/src/domain/appHolds.ts:39-84 | the 65th live hold is dropped by a put on another app, though it would have counted once the 64 before it ended |
| AppHolds.ACrowdedHoldIsFreed | apps/charter-app/src/domain/appHolds.ts:39-84 | 64 holds dated ahead of a hold crowd it out later; a put on another app drops them and so lengthens it |
| AppHolds.LiveIsTheRule | apps/charter-app/src/domain/appHolds.ts:39-49 | the model's live holds are those the pruning filters keep: a name left after trimming, an end after now and within a day |
| AppHolds.ListsDecide | apps/charter-app/src/domain/appHolds.ts:141-155 | an app with no hold in force is blocked exactly if listed blocked, under a blocklist, or not listed allowed, under an allow list |
| AppHolds.LastInForceDecides | apps/charter-app/src/domain/appHolds.ts:39-155 | of at most 64 holds the last one in force on the app gives its state |
| AppHolds.HoldLandsInOnePlace | apps/charter-app/src/domain/appHolds.ts:105-135 | a hold changes one list of holds and nothing else: the asking device's own, or the base's when it has no rules of its own or none is named |
| AppHolds.BaseHoldLivesItsInterval | apps/charter-app/src/domain/appHolds.ts:105-135 | a hold that lands in the base is in force there for its interval |
| AppHolds.HoldReachesItsDevice | apps/charter-app/src/domain/appHolds.ts:105-155 | the app rules the asking device runs hold the app until the end and give its standing state from then, whether or not it splits them |
| AppHolds.AppsOnAreSent | apps/charter-app/src/domain/appHolds.ts:105-135 | those rules are the `apps` control of the policy the device is sent |
| AppHolds.HoldIsSentForItsInterval | apps/charter-app/src/domain/appHolds.ts:105-155 | in the policy the asking device is sent, the app is in the held state until the end and in its standing state from then on |
| AppHolds.HoldLeavesSplitSiblingsAlone | apps/charter-app/src/domain/appHolds.ts:105-135 | every other device with its own app rules is sent what it was sent before |
| NamedTimes.LearningAppPool | apps/charter-app/src/domain/namedTimes.ts:159-175 | the two loops leave, for every id at once, the last known entry answering to it, replaced by the catalogue's where that is the same site |
| NamedTimes.GroupsToClauses | apps/charter-app/src/domain/namedTimes.ts:235-332 | the loops over free ids and costing sites produce the compiled clauses; their contents are settled by `SignedEntries` |
| SignedEntries.EverySignedEntry | apps/charter-app/src/domain/namedTimes.ts:272-332 | the signed learning entries are one for each app a free group lists, first, and one marked costing for each other site a signed limit or ask names; each is the entry its id is signed as, no id twice |
| SignedEntries.ResolvedIsSigned | apps/charter-app/src/domain/namedTimes.ts:159-202 | with distinct catalogue ids, an id is signed as the catalogue's entry when no known entry answers to it or the last that does is the same site or has no host; as that known entry when the sites differ or the catalogue has none; as a plain native app when neither knows it |
| SignedEntries.SignedForOne | apps/charter-app/src/domain/namedTimes.ts:159-202 | that names one entry |
| SignedEntries.SignedLimits | apps/charter-app/src/domain/namedTimes.ts:238-258 | the first twelve counted groups are signed in order, each with its own minutes and its first 64 apps, trimmed and each once |
| SignedEntries.SignedAsks | apps/charter-app/src/domain/namedTimes.ts:266-275 | what is asked for first is exactly what the on-request groups list, launch signatures aside, and is blocked as well |
| SignedEntries.SaveKeepsTheRest | apps/charter-app/src/domain/namedTimes.ts:259-330 | a save leaves the learning cap, the week's start and a zone as they were, and signs UTC where there was none |
| NamedTimes.Decompose | apps/charter-app/src/domain/namedTimes.ts:371-450 | the loops rebuild the saved groups, what no group claims joins the first, or a synthetic container, then buckets, then the on-request group |
| SignedEntries.SavedGroupsReadBack | apps/charter-app/src/domain/namedTimes.ts:371-450 | a saved group reads back under its name with those of its apps still free on the wire, in order; an app no saved group lists joins the first |
| SignedEntries.UnsavedReadsBack | apps/charter-app/src/domain/namedTimes.ts:371-450 | without a saved grouping one reserved group stands for all that is free, if the clause exists; an absent clause reads as switched on |
| SignedEntries.CountedReadBack | apps/charter-app/src/domain/namedTimes.ts:371-450 | counted groups are the signed limits as they are |
| NamedTimesLaws.WireIdsAreFreeKeys | apps/charter-app/src/domain/namedTimes.ts:397-399 | the wire's free ids are the trimmed, non-blank membership keys of its entries not marked costing |
| NamedTimesLaws.ReadingBackKeepsFreeApps | apps/charter-app/src/domain/namedTimes.ts:371-450 | for every clause state and saved list, absent, empty, stale or overlapping, the free groups together hold exactly the wire's free members |
| NamedTimesLaws.CostingSiteStaysOut | apps/charter-app/src/domain/namedTimes.ts:389-399 | a site that costs never reads back into a free group |
| NamedTimesLaws.ReadBackKeepsGroupsApart | apps/charter-app/src/domain/namedTimes.ts:400-427 | if the saved groups share no app, the groups read back share none, drift included |
| NamedTimesLaws.RoundTripExactly | apps/charter-app/src/domain/namedTimes.ts:235-450 | a tidy draft (free groups, then at most 12 counted, then at most one on-request group) reads back whole, groups and switches, if and only if its free ids are exactly what its resolved free entries are members as |
| NamedTimesLaws.RoundTripUnlessMarkedCosting | apps/charter-app/src/domain/namedTimes.ts:235-450 | when every free id is its own membership key, the round trip holds if and only if none resolves to an entry marked `free: false` |
| NamedTimesLaws.MarkedCostingIsLost | apps/charter-app/src/domain/namedTimes.ts:281-314 | a concrete draft that loses its free app to a `free: false` entry |
| NamedTimesLaws.RenamedIsLost | apps/charter-app/src/domain/namedTimes.ts:205-207 | an app listed under an id that is not its entry's membership key does not come back |
| NamedTimesLaws.NoSignatureEscapes | apps/charter-app/src/domain/namedTimes.ts:274-290 | no launch-signature identity leaves a counted group |
| NamedTimesLaws.CostingSiteHasItsWindow | apps/charter-app/src/domain/namedTimes.ts:291-324 | every site a signed bucket or askable identity names has its learning entry, marked costing unless it is free too |
| NamedTimesLaws.EveryEntryIsNamed | apps/charter-app/src/domain/namedTimes.ts:290-324 | no learning entry is a phantom: each is a free id's, or a costing site's that something signed names |
| AppsFragment.CompiledFragment | apps/charter-app/src/domain/namedTimes.ts:274-275 | a compiled on-request fragment blocks exactly what it asks for, trimmed, non-blank and without repeats |
| AppsFragment.BlockedIsManualAndAsked | apps/charter-app/src/domain/namedTimes.ts:551-573 | afterwards exactly the manual blocks (trimmed) and the on-request apps are blocked |
| AppsFragment.RulesNeverSwitchOff | apps/charter-app/src/domain/namedTimes.ts:551-573 | a save that asks for anything switches the app rules on, no save switches them off, and holds, posture and allow list stay |
| AppsFragment.ReplacingAFragment | apps/charter-app/src/domain/namedTimes.ts:551-573 | a second save lifts what the first asked for unless asked again, and keeps every manual block the first had not absorbed |
| AppsFragment.SavesComposeExactly | apps/charter-app/src/domain/namedTimes.ts:551-573 | two saves block what the second alone would if and only if no manual block was asked for in the first and dropped in the second |
| AppsFragment.ApplyingAgainIsNeutral | apps/charter-app/src/domain/namedTimes.ts:551-573 | applying one fragment again changes nothing but, at most, the order of the block list |
| AppsFragment.StrippingKeepsTheBlocks | apps/charter-app/src/domain/namedTimes.ts:589-602 | stripping the managed apps for the other editor and layering them back blocks the same apps, whatever was asked for before |
| AppsFragment.StrippingTrimsTheAllowList | apps/charter-app/src/domain/namedTimes.ts:589-602 | the allow list written back lacks exactly the managed apps, and is unchanged if and only if it held none |
| AppsFragment.StrippingIsFreeExactly | apps/charter-app/src/domain/namedTimes.ts:589-602 | the strip changes nothing but the order of blocks if and only if no managed app is on the allow list |
| AppMoves.MovedAt | apps/charter-app/src/domain/namedTimes.ts:466-478 | after a move the app is in the target and nowhere else; every other app and every group's id, name and limits stay |
| AppMoves.MoveNamesTheOrigin | apps/charter-app/src/domain/namedTimes.ts:466-478 | the move reports exactly the other group the app lived in |
| AppMoves.MovesLeaveEachAppInOneGroup | apps/charter-app/src/domain/namedTimes.ts:466-478 | over any run of moves each app is in at most one group: the last existing one it was moved to, else where it started |
| Slugs.TimeSlug | apps/charter-app/src/domain/times.ts:616-632 | ends for every taken list with an id not taken, 1 to 32 of [a-z0-9-], no hyphen at either end, never `free`: the base, else the first numbered candidate not held |
| Slugs.NamedTimeSlug | apps/charter-app/src/domain/namedTimes.ts:608-615 | ends with an id not taken, of [a-z0-9-] and never starting with a hyphen, so never a reserved id; at most 40 long, as the wire requires, with fewer than 998 taken |
| Slugs.NamedTimeCandidateFits | apps/charter-app/src/domain/namedTimes.ts:608-615 | a numbered candidate is of [a-z0-9-]; on a base of 36 or more it is at most 40 long if and only if its number is below 1000 |
| Slugs.NineHundredNinetyEightTaken | apps/charter-app/src/domain/namedTimes.ts:608-615 | a label and 998 taken ids whose id must be 41 long |
| Slugs.SiteIdFor | apps/charter-app/src/domain/siteClosure.ts:144-156 | ends with an id not taken: the base, else the first numbered candidate not taken |
| Slugs.HeldNumbersAreFew | apps/charter-app/src/domain/times.ts:627-631 | distinct numbers give distinct candidates, so no more are held than ids are taken |
| Slugs.TimeCandidateFits | apps/charter-app/src/domain/times.ts:627-631 | a numbered candidate is 1 to 32 of [a-z0-9-] with no hyphen at either end and not `free` |
| Slugs.BasesAreTheWords | apps/charter-app/src/domain/times.ts:616-632 | each base is the label's runs of letters and digits joined by single hyphens, cut to 32 for a time or a site, a cut hyphen dropped for a time, and a fixed word for a label without any |
| Slugs.WellFormedIsItsBase | apps/charter-app/src/domain/times.ts:616-632 | a well-formed id of at most 32 characters is its own base |
| Slugs.CandidatesKeepTheBase | apps/charter-app/src/domain/times.ts:627-631 | a numbered candidate is its base, shortened to fit where it must be, then a hyphen and the number |
| JsText.DecimalReads | apps/charter-app/src/domain/times.ts:627-631 | the number of a candidate reads back from its digits, which have no leading zero |
| BreakGlass.Journal.WriteEntries | android/jni/src/breakglass.rs:143-162 | all or nothing: a write that fails leaves the journal, one that lands replaces it, removing a missing file succeeds |
| BreakGlass.Journal.QueueAudit | android/jni/src/breakglass.rs:114-121 | the audit joins at the end of the journal |
| BreakGlass.Journal.WrapsToPublish | android/jni/src/breakglass.rs:164-209 | builds what is due, stores it, offers exactly the new wraps and only if the write landed, and returns every entry's wrap within two days of now |
| BreakGlass.Journal.MarkSent | android/jni/src/breakglass.rs:211-219 | drops exactly the entries whose stored wrap was sent |
| BreakGlass.PublishedAreFit | android/jni/src/breakglass.rs:205-208 | what goes to the relays is exactly the entries' wraps dated within two days of now |
| BreakGlass.EveryBuiltAuditGoesOut | android/jni/src/breakglass.rs:164-209 | with builds dated now, every waiting audit whose build succeeds goes out, no copy over a day old |
| BreakGlass.RoundRebuildsExactly | android/jni/src/breakglass.rs:164-204 | a round keeps every audit's tags and gives it a new wrap exactly where the old one is missing or dated over a day away and the new one builds |
| BreakGlass.PublishedInOrder | android/jni/src/breakglass.rs:205-208 | the wraps returned are every stored one within two days, oldest entry first |
| BreakGlass.OfferedInOrder | android/jni/src/breakglass.rs:164-204 | the wraps offered are every one built this round, oldest entry first |
| BreakGlassRuns.RunFollowsJournal | android/jni/src/breakglass.rs:117-219 | the run's steps leave the journal as the methods do |
| BreakGlassRuns.OldestFirst | android/jni/src/breakglass.rs:117-219 | over every run the journal stays oldest first |
| BreakGlassRuns.LeavesOnlyWhenNamed | android/jni/src/breakglass.rs:117-219 | over every run, clock and pattern of failed writes a journaled audit leaves only when a mark that reached the disk named the wrap it had stored at that moment |
| BreakGlassRuns.NoIdIsOfferedTwice | android/jni/src/breakglass.rs:164-204 | builds giving new ids, no id is offered twice over any run, and each is the stored wrap of a journaled audit when offered |
| BreakGlassRuns.RetryIsIdenticalExactly | android/jni/src/breakglass.rs:164-209 | over every run, builds giving new ids: two successive rounds that both hand out an audit hand out one id if and only if the first round's wrap is in the journal and is still within a day of the clock, or its rebuild fails |
| BreakGlassRuns.FailedWriteIsSentAgain | android/jni/src/breakglass.rs:196-208 | after a write that failed, marking the published copy sent drops nothing and the next round sends the same audit under another id |
| BreakGlassRuns.OneBuildADay | android/jni/src/breakglass.rs:28-33 | with a working disk and a clock that does not go back an audit is built at most 1 + elapsed/24h times |
| Outbox.StatusNamesDiffer | android/jni/src/outbox.rs:34-42 | two subjects never share a file |
| Outbox.RequestNamesDiffer | android/jni/src/outbox.rs:44-47 | two requests share a file only with the same second and id |
| Outbox.Outbox.PutStatus | android/jni/src/outbox.rs:34-56 | parks under the subject's one file, replacing the last; a write that fails once the file is emptied leaves it corrupt; a subject that is not hex is dropped |
| Outbox.Outbox.Entries | android/jni/src/outbox.rs:58-81 | sweeps exactly the expired and the corrupt, whatever order the directory is read in, and lists the rest once each, oldest first |
| Relay.BlockingRelay.EmitStatus | android/jni/src/relay.rs:164-197 | parks the exact wrap, as the disk lets it, only when no relay took it and its JSON names a hex subject |
| Relay.BlockingRelay.PublishRequest | android/jni/src/relay.rs:401-419 | parks the exact wrap only when no relay took it |
| Relay.BlockingRelay.DrainOutbox | android/jni/src/relay.rs:224-240 | retries every live wrap, oldest first, leaves exactly those no relay accepted, and sent plus left is the live wraps there were |
| Relay.RequestStays | android/jni/src/outbox.rs:44-85 | over every run of puts and drains a parked REQUEST stays until a drain got it accepted or found it over seven days old |
| Relay.ParkedRequestStaysExactly | android/jni/src/outbox.rs:44-85 | over every run of puts and drains a parked REQUEST is there, as it was parked, if and only if no drain since got it accepted or found it over seven days old |
| Relay.OneLatestStatus | android/jni/src/outbox.rs:34-42 | over every run a subject's parked STATUS is the latest one put for it |
| Relay.NothingUnexplained | android/jni/src/outbox.rs:34-56 | every file is a STATUS of a hex subject or a REQUEST that was put under that name |
| Relay.ParkedStatusStaysExactly | android/jni/src/outbox.rs:34-85 | over every run a subject's last parked STATUS is in the spool if and only if no drain since got it accepted or found it over seven days old |
| Relay.StalePublishedExactly | android/jni/src/relay.rs:164-240 | over every run a drain publishes a STATUS older than one some relay already took directly if and only if it is the last parked for the subject, no drain in between let it go, and it is not over seven days old |
| Relay.AStaleStatusIsPublished | android/jni/src/relay.rs:164-240 | refused, a newer one accepted directly, then drained: the stale one is published |
| LinkDrain.CounterIsLiveTasks | android/jni/src/link.rs:263-341 | under every interleaving the counter is the number of ingest and audit tasks counted in and not over |
| LinkDrain.NoGapBeforeTheAudits | android/jni/src/link.rs:279-341 | from an ingest call to the end of the audits it spawned the counter never touches zero |
| LinkDrain.TakenOnceForgottenLast | android/jni/src/link.rs:197-261 | however retire and drop combine the runtime is taken and shut down at most once; state files go only after the link is shut down and stay gone |
| LinkDrain.TornDownBeforeTheLimit | android/jni/src/link.rs:201-254 | over every run a runtime shut down before the limit was so decided by a zero reading or by a retire whose thread could not be started; no task is left, then or later, if and only if at that decision the count was zero and every session had noticed the close or ended |
| LinkDrain.SpawnFailureHappens | android/jni/src/link.rs:243-253 | from any idle link: a frame's ingest runs, the retire thread cannot be started, and the runtime is shut down with that ingest alive |
| LinkDrain.ZeroReadLeavesOnlyStragglers | android/jni/src/link.rs:223-241 | after a zero reading every ingest called so far is over for good; a later task needs a session that has not noticed the close, and with none nothing is alive when the runtime goes |
| LinkDrain.AStragglerIsCutOff | core/crates/charter-link/src/ward.rs:752-769 | from every zero reading with a session past its frame's checks there is a run that shuts the runtime down under its ingest before the deadline |
| LinkDrain.ALateReaderIsCutOff | core/crates/charter-link/src/ward.rs:597-601 | the same from every zero reading with a session that has not noticed the close, though it has not read its frame yet |
| LinkDrain.StragglersHappen | core/crates/charter-link/src/ward.rs:562-601 | such a reading comes from any idle link: it is retired while a session is open |
| StateDir.ReadsAsOne | android/jni-guardian/src/link.rs:224-230 | a marker's text reads as at most one guardian |
| StateDir.TornMarkerNamesNobody | android/jni-guardian/src/link.rs:224-238 | a marker cut short reads as no guardian |
| StateDir.FewerFilesStaySound | android/jni-guardian/src/link.rs:231-236 | deleting any one file, the marker included, keeps "the marker's guardian wrote everything" true |
| StateDir.Carrier.ClaimStateDir | android/jni-guardian/src/link.rs:221-238 | at every crash point and failure, for any deletion order, an emptied directory and a torn marker included, that stays true; a claim that succeeds leaves the guardian's own files or a fresh marker alone |
| StateDir.Carrier.Start | android/jni-guardian/src/link.rs:149-216 | a start that comes up or stays up does so on its own guardian's files only, and touches no other directory |
| StateDir.Carrier.Live | android/jni-guardian/src/link.rs:149-286 | over any sequence of starts, writes, stops and crashes every served directory holds one guardian's files |
| ClauseCache.Evaluator.ProcessIncomingEvent | src/evaluator/evaluator.ts:145-185 | one delivery as the specification has it: seen ids are dropped, an accepted event replaces a record that is not newer |
| ClauseCache.Evaluator.Receive | src/evaluator/evaluator.ts:145-222 | the cache after a whole relay stream is the fold of its deliveries from an empty cache |
| ClauseCache.Evaluator.Check | src/evaluator/evaluator.ts:296-327 | the session's own clause before the asked subject's, else `relay_unavailable` when no relay connected, else allowed; allowed with no session or a subject that is not 64 hex |
| ClauseCache.Evaluator.Init | src/evaluator/evaluator.ts:238-268 | an empty cache and seen set, and a session only for authors, relays and a 64-hex subject, its keys lower-cased |
| ClauseCache.Evaluator.Shutdown | src/evaluator/evaluator.ts:329-340 | no session, no clause and no seen id is left |
| ClauseCache.RecordIsNewest | src/evaluator/evaluator.ts:145-185 | after any deliveries a key's record is an accepted first delivery, none is newer, and there is one as soon as one was accepted |
| ClauseCache.OwnClauseDecides | src/evaluator/evaluator.ts:296-327 | a clause for the session's own subject decides whoever is asked about, then the asked subject's; without either only an unreachable set of relays denies |
| ClauseCache.AcceptsExactly | src/evaluator/evaluator.ts:145-184 | an event becomes a key's record if and only if it verifies, is from a known author, carries a readable clause and is tagged with the key: a subject, one colon, the app's own name |
| ClauseCache.NotASubject | src/evaluator/evaluator.ts:296-305 | an asked subject that is not 64 hex characters reads as no pairing |
| ClauseCache.AnySpellingOfTheSubject | src/evaluator/evaluator.ts:296-327 | the answer does not depend on the case of the asked subject |
| ClauseCache.OrderDoesNotMatter | src/evaluator/evaluator.ts:145-185 | with faithful copies and a unique newest event the record is the same for every order and duplication |
| ClauseCache.ChecksConverge | src/evaluator/evaluator.ts:145-327 | and so is every later check |
| ClauseCache.ConvergesExactly | src/evaluator/evaluator.ts:145-185 | with faithful copies a key's record is the same for every order of the same events if and only if its newest accepted event is unique |
| ClauseCache.TieGoesToTheLast | src/evaluator/evaluator.ts:171-183 | two newest events of one date leave different records in different orders |
| ClauseCache.DamagedCopyHidesTheGenuine | src/evaluator/evaluator.ts:146-152 | a copy that is not accepted, delivered first, keeps the genuine event of that id out |
| ClauseCache.MissesNothingExactly | src/evaluator/evaluator.ts:145-185 | over all deliveries, damaged copies included: no accepted event for a key is newer than its record if and only if each is matched by an accepted first copy at least as new |
| ClauseCache.FaithfulMissNothing | src/evaluator/evaluator.ts:145-185 | when all copies of an id are the same event nothing accepted is newer than the record |
| ClauseCache.ADamagedStream | src/evaluator/evaluator.ts:146-152 | a literal stream of two in which the accepted clause is missed because a damaged copy came first |

## Left out

- Windows with a malformed "HH:MM" already in a stored schedule: windows are typed as well-formed times; only the ones given to `setTimeWindows` may be malformed, and are refused.
- Time zones, DST, `unixAtLocal` and the ward's search for seconds to the next opening: `Zone` gives the wall reading and those distances.
- OpenSpans.OpenEndsAtTheFirstChange: is about zones whose two directions agree for the rest of the local day. Where a clock change skips or repeats a minute later that day, the instant of a minute is the zone's to choose and the reading goes back or jumps.
- LockRuns.ExactAccount: is about runs without grants and without a restart of the process; an open full-scope break-glass window, which lifts the lock over any verdict, is not part of the run.
- Budget arithmetic (usage, consolidated pools, weeks): the quota dimension is an input, -1 or at least 0.
- The rest of a named time's definition (posture, apps, sites), labels, icons and display wording.
- `addNamedTime`, `updateNamedTime`, `renameNamedTime`, `defaultExtendTime`, `unknownTimeTags`, `untilBedtime`, `namedTimesError`, `partitionOnPolicyChange`: they would add easy members.
- NamedTimesLaws.RoundTripExactly: says nothing of drafts with groups in another order, more than 12 counted groups, more than 64 apps in one, or more than one on-request group, which compiling reorders, truncates or merges by design.
- AppsFragment.SavesComposeExactly: compares blocked apps as sets, because the order of the list may change.
- Slugs.TimeSlug: takes the label already lower-cased, since Unicode case mapping is not modelled, and a taken list shorter than 2^32, which is the longest a JavaScript array can be; the 32-character bound needs it.
- Relay.ParkedRequestStaysExactly: is about a working disk, as are the other runs of the spool; a put that fails is lost silently, and one that fails after emptying the file loses what was parked there.
- BreakGlassRuns.OneBuildADay: needs the working disk and a clock that does not go back; otherwise every round may build.
- The break-glass window itself, the audit tags and JSON parsing; reading the journal always succeeds in the model.
- LinkDrain: sockets, hello and ACK frames, and how long each wait is; the deadline may pass at any moment of the drain.
- The local link's port probing, allow lists and address filters in the carrier's `start`.
- The IndexedDB seeding of the clause cache and persisting a record: convergence is about the relay stream from an empty cache.
- `evaluateSchedule` of the SDK: `check` is proved for every rule applied to the cached clause.
- JNI surfaces, Kotlin, React screens, the desktop shells, transport and NIP-44/59 cryptography.
