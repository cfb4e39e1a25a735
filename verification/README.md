# AgentPod, verified

AgentPod is an agent service with a sandbox worker beside it. Its hard parts are small in-memory protocols
and some calendar, paging and rounding arithmetic. This project models them in Dafny and proves what they
are there for. `dafny verify dfyconfig.toml` checks all of it.

How it is laid out:

- **Sandboxes.** `LeaseRules` says what each operation of the worker does to its state, one step for each
  stretch of code between two awaits. `LeaseManager` carries the steps out in place. `WorkerRuns` interleaves
  them freely: slots are conserved, leases keep their time bounds, the park quota holds. `ParkQuota` lets other
  work run while a park waits. `Sticky` is the agent's table of sandboxes left for a later turn, and `Handover`
  puts runs, that table, the worker and an unreliable network together: no lease is ever in the hands of two
  runs. `LateUse` is about commands that are still under way when their run ends. What must happen is in
  `Preemption` (a preempting acquire gets its lease), `KeyClaims` (a session's key is free between its turns, and
  what one turn leaves the next one gets) and `TurnEnds`.
- **Time.** `Calendar` is the Gregorian calendar by day numbers, `WallTime` the two-pass inversion of a wall
  clock, `QuotaDay` the day a token quota is counted over, `CronParse` and `CronSchedule` the fields and the
  search of a cron expression, `CronDays` its two day fields, `CronClaims` several replicas racing for its slots.
- **Streams.** `RunRegistry` replays the frames of a run, `ExecJobs` and `ExecResume` are the two ends of a
  resumable command and `ExecSession` joins them, `FrameEncoder` sends a growing text as increments.
- **Paging.** `UsagePaging` joins two lists under one cursor; `SessionPaging` pages a list that keeps moving.
- **Storage and limits.** `ArtifactStore` commits versions in steps that a crash may cut, `ArtifactCalls` says
  which calls are accepted and what they leave, `RateLimit` is the sliding window, `Pricing` the money and
  `UsageViews` the grouped rows it is shown in, `Smtp` the framing of mail.
- `Retention` ("sort by time, drop the oldest") and `Wrappers` are shared.

Functions describe one synchronous step on values; methods of classes do it in place and are proved equal to
those functions; lemmas then speak about every input, every run or every reachable state.

What the proofs say about the code beyond confirming it:

- The hour and minute re-check of `nextFireAfter` rejects a skipped local time exactly when the gap is not a
  whole number of days. A zone that crosses the date line skips 24 hours, and the minutes of the skipped day
  pass (`WallTime.SkippedDayPasses`).
- The day computed for an instant need not contain it. `QuotaDay.InstantIsWithinItsDay` gives the exact
  condition around a change of offset: it fails for some skipped midnights (`QuotaDay.SkippedMidnight`: the day
  ends where it begins), for some repeated ones (`QuotaDay.RepeatedMidnight`), and for a repeated evening before
  midnight (`QuotaDay.EveningTwice`). A skipped midnight need not do harm
  (`QuotaDay.SkippedMidnightMayBeHarmless`).
- Two parks of one user, the second of which begins while the first waits, leave one parked lease too many,
  whatever the quota, exactly if the quota was full and neither is refused (`ParkQuota.TwoParksExceed`): the
  second sees neither the lease the first is dropping nor the one it is about to park.
  `ParkQuota.FullQuotaIsReached` is a run of the worker in which it happens.
- A command that has passed the token check and still reads its body is not taken back by the end of its run,
  the park, or the rotation of the token. `LateUse.LateUseHappens` is a run of the system in which it may start
  after the next run of the same user has attached the lease. This cannot happen if runs send commands only while
  they are going, and none ends while a command of its is under way (`LateUse.UsesAreTheUsers`).
- The bound on accepted calls per window survives a sweep of the rate limiter that forgets expired keys. A key
  forgotten early, which takes more than `maxKeys` keys at once, starts afresh, and each such loss counts like a
  strike (`RateLimit.AcceptedDespiteSweeps`, `RateLimit.EarlyLossCosts`).
- If the connection breaks after the client has read the exit frame but before the stream ends, the execution
  fails although everything was received: later connections have no exit frame to show
  (`ExecResume.ReturnsExactlyOnCleanDelivery`, `ExecResume.LostExit`).
- A page size strictly between 0 and 1 becomes a page of nothing, which claims more and hands on no cursor
  (`SessionPaging.LimitIsPositive`, `SessionPaging.EmptyPagesGoNowhere`).
- The replacement that stuffs dots, taken as a function on texts, does not double a dot at the very beginning,
  and gives a bare line feed in front of a dot a carriage return; apart from these two the receiver gets back
  what was sent (`Smtp.StuffingIsUndone`). Messages put together by `buildMessage` begin with a header and have a
  base64 body, so the first never comes up there.
- The comment on `priceRow` says that a row always costs what its children cost together. For a model's row this
  holds exactly if the rounding of the children has not shifted their sum by half a millionth
  (`Pricing.ModelRowAddsUpExactly`), and two children of one token each are enough to break it
  (`Pricing.ModelRowMayNotAddUp`).

## Model

| member | source | states |
|---|---|---|
| `LeaseRules.Extend` | sandbox-worker/src/leases.js:54-58 | an extension changes nothing but the expiry, never shortens it, never passes the ceiling, and gives the window asked for where the ceiling allows |
| `LeaseRules.OldestParkedIsOldest` | sandbox-worker/src/leases.js:218-226 | the preemption candidate is past its grace window and parked no later than any other; there is none exactly when nothing is preemptible |
| `LeaseRules.AcquirePreemptsFairly` | sandbox-worker/src/leases.js:244-268 | up to its first await acquire grants a lease on a slot that was free; it takes a lease only when every slot is busy, and then only one that is parked, past its grace window, and parked longest; a refusal changes nothing and means every parked lease is within its grace window |
| `LeaseRules.AcquireTakesAFreeSlot` | sandbox-worker/src/leases.js:244-249 | the first try is granted exactly if a slot is free |
| `LeaseRules.RetryTakesAFreeSlot` | sandbox-worker/src/leases.js:262-268 | the second try, after the wait, is granted exactly if a slot is free by then: a new lease of this user on a slot that was free; otherwise it refuses and changes nothing |
| `LeaseRules.FirstFree` | sandbox-worker/src/leases.js:246-265 | the pool hands out a free slot whenever one exists (the pool is taken by its contract) |
| `LeaseRules.CreatedLeaseIsUsable` | sandbox-worker/src/leases.js:270-313 | a granted lease is visible, owns exactly the slot it was given, and lives for the window asked for within the cap |
| `LeaseRules.ParkedThenAttached` | sandbox-worker/src/leases.js:404-443 | parking moves the expiry to the park window, forward or back; attaching ends the parking and restores the working window, with a new token and nothing else changed |
| `LeaseRules.RenewalGivesItsWindow` | sandbox-worker/src/leases.js:349-361 | a renewal gives the window asked for, within the cap for the lease's state and the ceiling, and never takes time away |
| `LeaseRules.RenewalSlidesTheWindow` | sandbox-worker/src/leases.js:349-361 | the renewal of a lease object, in the table or not, does that and counts as use; nothing else changes |
| `LeaseRules.LookupSlidesTheWindow` | sandbox-worker/src/leases.js:322-338 | a request on a lease that is in the table and not expired gives it its window from now, the working one or, if it is parked, only the park window; on any other it does nothing |
| `LeaseRules.SweepSlidesTheBusy` | sandbox-worker/src/leases.js:464-472 | a sweep gives a lease with a running command the working window from now, unless it is parked, and leaves any other alone |
| `LeaseRules.ParkNeedsMoreThanGrace` | sandbox-worker/src/leases.js:375-386 | a park is allowed exactly if parking is on at all and the lease, once parked, outlives its grace window |
| `LeaseRules.VictimsAreOthers` | sandbox-worker/src/leases.js:387-394 | a park drops exactly as many leases as exceed the quota, never the one it parks |
| `LeaseRules.ParkTakesEffect` | sandbox-worker/src/leases.js:375-423 | an allowed park parks the lease and keeps it in the table; one that is not allowed does nothing |
| `LeaseManager.LeaseObject.Extend` | sandbox-worker/src/leases.js:54-58 | the in-place extension is the rule's |
| `LeaseManager.Manager.Get` | sandbox-worker/src/leases.js:322-338 | finds a lease exactly if it is in the table and not expired, and finding it slides its window, a parked one's by the park window only |
| `LeaseManager.Manager.Renew` | sandbox-worker/src/leases.js:349-361 | the in-place renewal caps the requested time by the window that applies and counts as use |
| `LeaseManager.Manager.Park` | sandbox-worker/src/leases.js:375-423 | an uninterrupted park refuses, or drops the user's own excess parked leases and parks this one: the whole new state |
| `LeaseManager.Manager.Attach` | sandbox-worker/src/leases.js:432-453 | attaching unparks, rotates the token to a fresh one and slides the window: the whole new state |
| `LeaseManager.Manager.Release` | sandbox-worker/src/leases.js:168-209 | up to its first await, releasing takes the lease out of the table at once, and finds it at most once |
| `LeaseManager.Manager.FindOldestParked` | sandbox-worker/src/leases.js:218-226 | the loop over the table finds the rule's candidate |
| `LeaseManager.Manager.Acquire` | sandbox-worker/src/leases.js:244-314 | a new lease on a free slot, or a victim on its way out, or nothing: the whole new state |
| `LeaseManager.Manager.Retry` | sandbox-worker/src/leases.js:262-268 | the second try in place: a lease exactly if a slot is free, and the whole new state |
| `Preemption.PreemptionPaysOff` | sandbox-worker/src/leases.js:244-268 | after a preempting first try in any reachable state, whatever the worker does meanwhile: if nobody acquires, then once the release of the victim has come back the second try is granted, for the user that asked, on a slot that was free |
| `Preemption.RetryIsGranted` | sandbox-worker/src/leases.js:168-209 | so one pool call of that release, which succeeds, is enough, with anything but acquires before, between and after |
| `LeaseManager.Manager.ListVictims` | sandbox-worker/src/leases.js:387-394 | the leases a park drops first are the user's own, longest parked first, as many as exceed the quota |
| `LeaseManager.Manager.ScanExpired` | sandbox-worker/src/leases.js:464-478 | one pass over the table extends the busy leases and lists exactly the expired ones |
| `LeaseManager.Manager.Sweep` | sandbox-worker/src/leases.js:464-488 | a sweep is that scan followed by the release of everything it found |
| `WorkerRuns.SlotsAreConserved` | sandbox-worker/src/leases.js:168-209 | in every reachable state, whatever interleaves at the awaits, each slot is in exactly one of free, bound to a live lease, being released, abandoned; no two leases own one slot; `slotPool.release` was called exactly once for a lease whose release has got that far, and not at all for one in the table or on its way there |
| `WorkerRuns.LeasesStayInBounds` | sandbox-worker/src/leases.js:322-488 | in every reachable state every lease is within its ceiling and its windows, a parked one within the park window of its last use, whatever stray lookups and renewals arrive |
| `WorkerRuns.LeaseOperationsTimed` | sandbox-worker/src/config.js:382-400 | under the ordering of windows that start-up insists on, every single operation on a lease keeps those bounds |
| `WorkerRuns.CeilingNeverMoves` | sandbox-worker/src/leases.js:270-310 | over any run the owner, slot and ceiling of a lease stay what they were at creation |
| `WorkerRuns.StepKeepsOrigin` | sandbox-worker/src/leases.js:54-58 | only parking ever brings an expiry forward |
| `WorkerRuns.FirstSweepCollects` | sandbox-worker/src/leases.js:464-488 | an idle or parked lease is collected by the first sweep at or after the end of its window or its ceiling; a busy one below its ceiling is not, and lives on for the working window or to its ceiling |
| `WorkerRuns.ParkDropsOwnOldest` | sandbox-worker/src/leases.js:387-394 | a park drops only the same user's parked leases, none parked after one that stays, and touches nobody else's |
| `WorkerRuns.QuotaHolds` | sandbox-worker/src/leases.js:229-233 | with parks that run to completion no user ever has more parked leases than allowed, whatever runs between them |
| `ParkQuota.QuotaHoldsWhileWaiting` | sandbox-worker/src/leases.js:387-423 | it holds as well while parks wait for the leases they drop, with lookups, renewals, attaches, preemptions, sweeps and other users' parks in between, as long as no user has two parks under way |
| `ParkQuota.TwoParksExceed` | sandbox-worker/src/leases.js:387-416 | for any quota, two parks of leases a user has in use, the second beginning while the first waits, exceed the quota exactly if it was full when the first began and neither is refused, and then by one |
| `ParkQuota.OverlapRuns` | sandbox-worker/src/leases.js:387-416 | two such parks are a run of the worker's steps |
| `ParkQuota.FullQuotaIsReached` | sandbox-worker/src/leases.js:387-416 | a reachable worker in which it happens |
| `Sticky.KeysDoNotCollide` | src/sandbox/sticky.js:59 | the NUL between user and session keeps any two of them apart |
| `Sticky.KeptHandleIsClaimedOnce` | src/sandbox/sticky.js:79-142 | what one run keeps the next claim gets, once: until that run is done, whatever calls other runs make, every other claim comes back empty and writes nothing |
| `Sticky.ClaimLocksOthersOut` | src/sandbox/sticky.js:79-127 | no sequence of calls by other runs changes a claimed entry or gets anything from it |
| `Sticky.DroppedKeyIsFree` | src/sandbox/sticky.js:121-127 | a dropped key is free: after any calls on other keys, whoever claims it next owns it, finds nothing there, and holds it |
| `Sticky.ForgottenKeyStaysClaimed` | src/sandbox/sticky.js:136-142 | a run that forgets its handle keeps the claim through any calls of others, finds nothing if it claims again, and locks the others out |
| `Sticky.ExpiredHandleIsGone` | src/sandbox/sticky.js:79-118 | a kept handle goes to the next claim exactly until it expires; after that the claim owns the key, gets nothing, and the entry is gone |
| `Sticky.StickyLeases.Store` | src/sandbox/sticky.js:61-67 | a full table gives up the key that came first, and only that; keys keep the order in which they came |
| `Sticky.StickyLeases.ClaimKey` | src/sandbox/sticky.js:79-102 | a claim held by another run yields nothing; an expired entry is deleted and yields ownership without a handle; otherwise the key is locked and its handle handed out |
| `Sticky.StickyLeases.KeepHandle` | src/sandbox/sticky.js:111-118 | storing a handle unlocks the key and works only for the run that holds the claim |
| `Sticky.StickyLeases.DropKey` | src/sandbox/sticky.js:121-127 | giving the key up works only for the run that holds it, and deletes the entry: the whole new table |
| `Sticky.StickyLeases.ForgetHandle` | src/sandbox/sticky.js:136-142 | the handle goes, the claim stays |
| `Handover.MutualExclusion` | src/sandbox/client.js:452-823 | with messages lost, delayed or reordered and runs, evictions, preemptions and sweeps interleaved, no lease is ever in use by two runs, nor with a run and in an unlocked table entry |
| `Handover.OwnLeasesOnly` | sandbox-worker/src/server.js:498-530 | every lease a run uses, or may attach, was created for its own user |
| `Handover.SoleAuthority` | sandbox-worker/src/server.js:456-524 | while a run uses a lease its token is the current one; any request under way that the worker would accept for it comes from that run; no attach of it is under way, before or past the check; a park of it, before or past the check, is the run's own |
| `Handover.AdmittedIsOwn` | sandbox-worker/src/server.js:456-524 | any command, attach or park past the token check is for a lease made for its run's own user |
| `Handover.AdmittedUseStays` | sandbox-worker/src/server.js:812-852 | no event but its own start or the loss of its connection takes an admitted command back |
| `Handover.AdmittedUseStarts` | sandbox-worker/src/server.js:812-852 | so an admitted command may start in any later state |
| `LateUse.LateUseHappens` | sandbox-worker/src/server.js:816-852 | a reachable state in which run 2 uses the lease with the current token and an admitted command of run 1 may still start on it; nothing in the story is careless but the end of run 1 |
| `LateUse.UsesAreTheUsers` | src/sandbox/client.js:775-823 | if runs end only with no command of theirs under way, and send commands only while going, then in every reachable state every command under way for a lease in use, before or past the check, belongs to the run using it |
| `Handover.RotatedInv` | sandbox-worker/src/leases.js:432-453 | rotating the token on attach leaves no other way to the lease: the invariant behind the three results survives it |
| `Handover.KeptInv` | src/sandbox/client.js:790-811 | handing a parked lease to the table keeps the invariant |
| `Handover.GiveUpInv` | src/sandbox/client.js:380-419 | giving up on an attach whose outcome is unknown keeps the invariant: the lease is then nobody's |
| `Handover.ServeInv` | src/sandbox/client.js:483-513 | a newly granted lease keeps the invariant |
| `Handover.NextInv` | src/sandbox/client.js:775-823 | every event of the system keeps the invariant |
| `Handover.RequestIsServed` | src/sandbox/client.js:483-513 | a run that asks for a lease while a slot is free gets a new one, made for its user, with its token, on the first try as on the second |
| `Handover.PreemptingRequestWaits` | src/sandbox/client.js:483-513 | a request that has to preempt stays as it is for its second try |
| `KeyClaims.KeysAreHeldByTheLiving` | src/sandbox/client.js:775-823 | in every reachable state whoever holds a key of the table is a run that exists, has not ended, owns its key, and holds that very key |
| `KeyClaims.NextTurnOwnsItsKey` | src/sandbox/client.js:452-470 | so when no turn of a session that owns its key is going, the next one owns it |
| `KeyClaims.LeftForTheNextTurn` | src/sandbox/client.js:781-811 | a parked lease, or a handle that was not used, goes to the next turn of the session with its very credential, whatever happens in between to other sessions, and that turn asks for it first |
| `TurnEnds.FailedAttachGoesOn` | src/sandbox/client.js:380-419 | a run whose attach failed or timed out works on without the handle and may ask for a lease |
| `TurnEnds.LostLeaseIsReplaced` | src/sandbox/client.js:73-82 | so may one whose lease is gone |
| `TurnEnds.LeaseIsSentBack` | src/sandbox/client.js:790-811 | at its end a turn asks for its lease to be parked if it may and owns its key, and otherwise to be released |
| `TurnEnds.UnparkedLeaseIsReleased` | src/sandbox/client.js:790-808 | a park that is refused or times out turns into a release |
| `TurnEnds.DeleteTakesTheLease` | sandbox-worker/src/leases.js:168-185 | an accepted release takes the lease, and only it, out of the table and begins its recycling |
| `TurnEnds.TurnCanEnd` | src/sandbox/client.js:775-823 | a working run can end without waiting for anyone, and then holds no key |
| `Calendar.DateOf` | src/cron/schedule.js:182-187 | every day number has a valid date that counts back to it |
| `Calendar.DateRoundTrip` | src/cron/schedule.js:182-187 | every date is the date of its day number |
| `Calendar.CountingIsStepping` | src/cron/schedule.js:236-240 | adding a day to the day number is stepping through the calendar, over month ends and leap days |
| `Calendar.MonthsAlternate` | src/cron/schedule.js:182-187 | long and short months alternate, apart from February, with two long ones in July and August |
| `Calendar.WeekdaysFollow` | src/cron/schedule.js:148-161 | day 0 is a Thursday, and weekdays follow one another |
| `Calendar.WeekdaysRepeat` | src/cron/schedule.js:148-161 | after 400 years every date has its weekday again |
| `WallTime.OffsetAtIsExact` | src/cron/schedule.js:166-170 | the offset worked out from the wall clock is the zone's |
| `WallTime.MeasuredIsExact` | src/cron/schedule.js:182-187 | so the inversion through the calendar is the two-pass one on local times |
| `WallTime.InversionAcrossChange` | src/cron/schedule.js:182-187 | across one change of offset, of any size, every local time that exists comes back exactly, also one shown twice; a skipped one comes out displaced by the gap |
| `WallTime.RecheckRejectsSkipped` | src/cron/schedule.js:225-231 | the re-check passes every full minute that exists and rejects a skipped one exactly when the gap is not a whole number of days |
| `WallTime.SkippedDayPasses` | src/cron/schedule.js:225-231 | a concrete zone in which it does not reject |
| `QuotaDay.InstantIsWithinItsDay` | src/telemetry/quota.js:58-73 | startOfDay <= ts < nextDayStart holds exactly if neither midnight is skipped or shown twice on the harmful side of the change: both directions, for a change of less than a day |
| `QuotaDay.UnambiguousMidnightsSuffice` | src/telemetry/quota.js:58-73 | in particular when both midnights are shown exactly once |
| `QuotaDay.SkippedMidnightMayBeHarmless` | src/telemetry/quota.js:58-73 | a concrete zone in which midnight is skipped and every instant of the day is within it |
| `QuotaDay.EveningTwice` | src/telemetry/quota.js:70-73 | a concrete zone in which the day ends before the evening's second half hour |
| `QuotaDay.SkippedMidnight` | src/telemetry/quota.js:70-73 | a concrete zone in which it fails because midnight is skipped |
| `QuotaDay.RepeatedMidnight` | src/telemetry/quota.js:58-61 | a concrete zone in which it fails because midnight is shown twice |
| `CronParse.ParseField` | src/cron/schedule.js:57-93 | a field is rejected exactly when one of its pieces is, and otherwise allows exactly the values some piece names, with 7 read as Sunday |
| `CronParse.Walk` | src/cron/schedule.js:84 | the stepping loop collects exactly the values on the step |
| `CronParse.PieceForms` | src/cron/schedule.js:65-84 | what each of the six forms of a piece names: a value with a step, for one, itself and what follows on the step to the end of the range |
| `CronParse.PieceIsRejected` | src/cron/schedule.js:61-83 | exactly which pieces are rejected |
| `CronParse.FieldStaysInRange` | src/cron/schedule.js:81-91 | allowed values lie within the field's range, weekdays within 0 to 6 |
| `CronParse.FieldIsNotEmpty` | src/cron/schedule.js:81-84 | an accepted field allows something |
| `CronSchedule.NextFireAfter` | src/cron/schedule.js:204-245 | the nested loops compute the search that NextFireIsFirst, NextFireIsLeast and FiresAtTheEarlier are about |
| `CronSchedule.SearchDay` | src/cron/schedule.js:218-234 | within a day, the first allowed, existing, late enough minute |
| `CronSchedule.NextFireIsSound` | src/cron/schedule.js:225-232 | in any zone a result is later than `after` and shows an allowed hour and minute |
| `CronSchedule.NoonSteps` | src/cron/schedule.js:216-240 | judging a day by its noon and stepping from noon to noon is reading and stepping the calendar |
| `CronSchedule.NextFireIsFirst` | src/cron/schedule.js:204-245 | take the days from the start of the search around which the offset changes rarely, by less than twelve hours, and skips no noon: if they hold a minute that all five fields name (which days those are is DayRule), that exists and is late enough, the result is the first such minute, in wall-clock order, whatever the zone does later; if all 366 are of that kind and hold none, there is no result |
| `CronSchedule.NextFireIsLeast` | src/cron/schedule.js:204-245 | for a fixed offset of whole minutes the search refines the plain definition: the least minute-aligned instant after `after` within 366 local days whose hour and minute are named and whose day is one of DayRule, nothing exactly if there is none |
| `CronDays.ParseCron` | src/cron/schedule.js:102-118 | an expression is rejected exactly if it has not five fields or one of them is rejected; otherwise each field has its values, and a day field restricts unless it is just a star |
| `CronDays.DayRule` | src/cron/schedule.js:189-196 | which days an expression names: a day field that is just a star leaves the day to the other one; two that restrict are each enough |
| `CronDays.EitherDayWillDo` | src/cron/schedule.js:189-196 | the days of an expression with both day fields are those it names with a star for the weekday and those it names with a star for the day of the month |
| `CronDays.FiresAtTheEarlier` | src/cron/schedule.js:189-245 | so, for a fixed offset of whole minutes, it fires next at the earlier of the times of these two, and never exactly if neither does |
| `CronClaims.ClaimMovesOn` | src/cron/store.js:146-171 | the stored slot is later than the claim and, on a calendar, than the slot claimed; a claim made when due leaves a slot later than the claim, or none |
| `CronClaims.Store.DueNow` | src/cron/store.js:200-217 | every task that is due is listed, once, with the slot it waits for, and the earliest come first; nothing else is listed |
| `CronClaims.Store.ClaimSlot` | src/cron/store.js:146-171 | succeeds exactly if the record is enabled, not archived, and waiting for that very slot, and then makes it wait for the slot that the following rows are about |
| `CronClaims.Scheduler.Tick` | src/cron/scheduler.js:178-201 | an undisturbed tick fires the earliest due jobs, at most five, moves exactly those on, and does nothing while another tick is at work |
| `CronClaims.SlotsAreClaimedOnce` | src/cron/store.js:146-171 | over any interleaving of replicas with skewed clocks, the claimed slots of a job strictly increase, each later than the moment of the claim before: no slot twice, one catch-up after an outage |
| `CronClaims.NextSlotIsAhead` | src/cron/schedule.js:289-307 | after a claim the next slot is later than the claim, or none is ever claimable again |
| `CronClaims.IntervalCountsFromTheClaim` | src/cron/schedule.js:289-293 | an interval job claimed at a time waits for exactly its interval after that time, whatever the slot was |
| `CronClaims.CalendarGoesOnFromTheLater` | src/cron/store.js:163-164 | a calendar job, for a fixed offset, waits for the first minute its expression names after the slot or the claim, whichever is later |
| `CronClaims.LastClaimDecides` | src/cron/store.js:146-171 | over any interleaving, a job waits for what its last claim says: an interval for exactly its length after that claim, a calendar for what the search finds after it |
| `CronClaims.LastClaimDecidesMinute` | src/cron/store.js:146-171 | for a fixed offset that is the first minute its expression names after the claim |
| `CronClaims.UnclaimedWaitsOn` | src/cron/store.js:146-171 | a job that nobody has claimed waits for what it was waiting for |
| `CronClaims.LostSlotIsRecovered` | src/cron/schedule.js:301-307 | over any interleaving from jobs as they are created, a record that loses its stored slot at any time recovers the very same one |
| `CronClaims.SwitchedOffStaysOff` | src/cron/store.js:146-151 | after a job has been switched off no replica claims it any more |
| `RunRegistry.BufferIsSuffix` | src/agent/run-registry.js:90-149 | in every reachable state the buffer is the contiguous range ending at nextSeq - 1, within both caps, its byte count exact, and marked truncated exactly if something is missing |
| `RunRegistry.BufferIsLongest` | src/agent/run-registry.js:91-98 | and that range is the longest that fits both caps: nothing is dropped that need not be |
| `RunRegistry.GapIsToldExactly` | src/agent/run-registry.js:172-187 | a reader is told of a gap exactly when a frame it has not seen was dropped |
| `RunRegistry.ReplayThenLiveIsEverything` | src/agent/run-registry.js:172-201 | otherwise replay followed by live frames is everything after its last frame, in order and once; exactly as long as it does not claim frames from the future |
| `RunRegistry.Run.TrimFrames` | src/agent/run-registry.js:91-98 | the loop drops oldest frames until the caps hold |
| `RunRegistry.Run.AppendFrame` | src/agent/run-registry.js:128-149 | a frame is recorded and reaches every listener once, at once or as pending |
| `RunRegistry.Run.Close` | src/agent/run-registry.js:152-161 | every listener is told, once, and none is left |
| `RunRegistry.Run.Subscribe` | src/agent/run-registry.js:172-201 | replay, gap mark and registration in one go |
| `RunRegistry.Reader.Receive` | src/http/server.js:1258-1263 | a frame that comes before the response is open waits and nothing is sent, later it is sent at once: the whole new state |
| `RunRegistry.Reader.Open` | src/http/server.js:1267-1287 | the replay goes first, then what waited |
| `RunRegistry.ServeEvents` | src/http/server.js:1248-1300 | a whole subscription, with frames before and after the response is open, to the end of the run: unless told to start over the reader is sent exactly the frames after its last one, in order and once, and then the end |
| `RunRegistry.SweepSparesTheLiving` | src/agent/run-registry.js:73-88 | a run still going is never swept, an expired one always; others go in the order in which they ended, and only down to the limit; the limit is exceeded only by running ones |
| `RunRegistry.Registry.Sweep` | src/agent/run-registry.js:73-88 | the in-place sweep is that one |
| `ExecJobs.Job.Emit` | sandbox-worker/src/exec-jobs.js:84-97 | a frame is numbered, kept, and pushed to every subscriber |
| `ExecJobs.Job.Print` | sandbox-worker/src/exec-jobs.js:84-97 | output of a running job keeps the numbering, the history and the subscribers |
| `ExecJobs.Job.Settle` | sandbox-worker/src/exec-jobs.js:104-130 | the error frame, if the command failed, and the exit frame are kept, the exit frame is the last, and both reach every subscriber |
| `ExecJobs.Job.Subscribe` | sandbox-worker/src/exec-jobs.js:165-172 | history first, then live: a subscriber has every frame after the point it asked for, or, if that lies ahead, every frame that comes |
| `ExecJobs.Sink.Write` | sandbox-worker/src/server.js:940-945 | the response ends with the exit frame |
| `ExecJobs.NewestFinishedAreKept` | sandbox-worker/src/exec-jobs.js:50-57 | running jobs are always kept, and of the finished ones exactly the most recently finished |
| `ExecJobs.Bucket.EvictOld` | sandbox-worker/src/exec-jobs.js:50-57 | the in-place eviction is that one |
| `ExecJobs.Bucket.Start` | sandbox-worker/src/exec-jobs.js:65-135 | a new job joins the bucket and survives the eviction its start triggers, which keeps what NewestFinishedAreKept says |
| `ExecResume.LinesOfJoined` | src/sandbox/client.js:914-920 | complete lines do not depend on where the text is cut |
| `ExecResume.PrefixOfWire` | src/sandbox/client.js:900-950 | of a stream cut at any character exactly its first frames are read |
| `ExecResume.Client.ReadNdjson` | src/sandbox/client.js:900-960 | the read loop over chunks processes the frames of the whole text |
| `ExecResume.Client.Exec` | src/sandbox/client.js:157-198 | the retry loop processes and returns what the following rows are about |
| `ExecResume.RefusalsAreFinal` | src/sandbox/client.js:178-198 | a refusal or a cancellation ends the execution at once; a connection that fails, breaks, or ends without the exit frame only costs a try |
| `ExecResume.ProcessedIsPrefix` | src/sandbox/client.js:157-198 | for any cuts the processed frames are the first of the job, in order, without repeat or hole |
| `ExecResume.LastSeqIsCount` | src/sandbox/client.js:946-948 | so asking for what comes after lastSeq is asking for the rest |
| `ExecResume.ReturnMeansComplete` | src/sandbox/client.js:178-198 | a normal return means every frame up to the one final exit frame was processed, and its status is returned |
| `ExecResume.ReturnsExactlyOnCleanDelivery` | src/sandbox/client.js:178-198 | it returns exactly if the connection that brings the exit frame also ends cleanly |
| `ExecResume.LostExit` | src/sandbox/client.js:182-198 | a concrete execution that fails with everything received |
| `ExecSession.Connect` | src/sandbox/client.js:157-198 | one connection to a job that goes on: what the client reads is exactly what the worker sends after its last frame, as far as the chunks go |
| `ExecSession.GoOn` | sandbox-worker/src/exec-jobs.js:84-130 | the job produces the frames of what its command does, up to its end, and pushes them to whoever subscribes |
| `ExecSession.CommandIsOnRecord` | sandbox-worker/src/exec-jobs.js:84-130 | what a command prints is on record in order and numbered on, then its error if it failed, and at the end its outcome; nothing after that |
| `ExecSession.Execute` | src/sandbox/client.js:157-198 | job and client together, with the job printing and ending at any time, heartbeats, cuts and lost connections: every connection and every frame is the one the course of the session says, round by round; the client has processed the first frames of the job, in order and once, and a normal return means all of them, with the command's own status |
| `ExecSession.WholeDeliveryReturns` | src/sandbox/client.js:178-198 | a connection that opens, is not cut short, and by whose end the command is over, brings the result, unless the exit frame was processed before: every missing frame, and the status of the command |
| `FrameEncoder.Chunker.Next` | src/agent/events.js:53-63 | the chunker's state and output in place |
| `FrameEncoder.OnlyNewsIsSent` | src/agent/events.js:53-63 | something is sent exactly if a text is there and differs from what was sent last, never an empty piece, and a text that grew is sent as what was added |
| `FrameEncoder.Encoder.ToClientFrames` | src/agent/events.js:91-146 | both chunkers of an event, and the seal that resets them, for assistant messages only |
| `FrameEncoder.LiveTurn.HandleFrame` | web/src/stores/chat.js:215-227 | the client's handling of a frame in place |
| `FrameEncoder.EncodingUndoesItself` | src/agent/events.js:49-146 | for any texts, growing or rewritten, a client fed with increments always shows what one fed with whole texts would, in open and in sealed blocks |
| `FrameEncoder.OpenBlockIsLatest` | web/src/stores/chat.js:40-43 | an open block shows the latest non-empty text, and is there exactly if there is one |
| `FrameEncoder.FinishedTextStays` | web/src/stores/chat.js:215-227 | the final thinking and the final text of a finished message stay in view, each as a block of its own kind, whatever comes later |
| `FrameEncoder.PayloadIsFinalLength` | src/agent/events.js:45-48 | a text that only grows costs its final length |
| `UsagePaging.UserPage` | src/telemetry/usage-store.js:266-352 | a page is the next rows, at most the limit; its cursor stands for exactly the rest and is strictly further; no more means no more; a page that is short without being the last has been through ten batches of accounts, each larger than what was missing |
| `UsagePaging.Traverse` | src/telemetry/usage-store.js:266-352 | following the cursors ends, and the pages put together are the whole list |
| `UsagePaging.WholeHasEveryoneOnce` | src/telemetry/usage-store.js:309-318 | that list has every ledger user and every other account, nobody twice |
| `UsagePaging.WholeIsRanked` | src/telemetry/usage-store.js:309-318 | by tokens, then by name, and then those who have used nothing, by name |
| `UsagePaging.TakeUsed` | src/telemetry/usage-store.js:289-303 | the ledger's share of a page, by tokens and then name |
| `UsagePaging.TakeIdle` | src/telemetry/usage-store.js:305-332 | one probe of the accounts, skipping those with a ledger row and those that do not parse |
| `SessionPaging.ClauseIsTheOrder` | src/sessions/cursor.js:73-80 | the expanded clause is the strict descending lexicographic order, a total order |
| `SessionPaging.CursorRoundTrip` | src/sessions/cursor.js:39-62 | decoding a row's cursor gives its sort key back |
| `SessionPaging.LimitIsPositive` | src/persistence/page.js:37-41 | the page size is at most 200 and at least 1 exactly unless the parameter is between 0 and 1 |
| `SessionPaging.LimitIsTakenAtItsWord` | src/persistence/page.js:37-41 | from 1 on the page size is the parameter rounded down, cut at 200; without a number, or for nothing or less, it is 50 |
| `SessionPaging.List` | src/sessions/store.js:151-187 | the assembled conditions select exactly the user's matching rows behind the cursor, the cursor handed on is the last row's, and a page with more behind it is full |
| `SessionPaging.PageCoversItsRange` | src/sessions/store.js:151-187 | a page holds exactly the user's own rows, of the project if one is named, archived ones only if asked for, that lie between its cursor and the next |
| `SessionPaging.UnchangedSessionAppearsOnce` | src/sessions/store.js:151-187 | a session that does not change is on exactly one page of a traversal, however other rows move, appear or vanish between pages |
| `SessionPaging.PageListsNothingTwice` | src/sessions/store.js:179-186 | a page never lists a session twice |
| `SessionPaging.PageIsInOrder` | src/sessions/store.js:151-187 | pinned sessions first, then by the time of the last change, latest first, then by number |
| `SessionPaging.EmptyPagesGoNowhere` | src/sessions/store.js:179-186 | a page of nothing claims more and hands on no cursor |
| `ArtifactStore.CommitsSurviveCrashes` | src/artifacts/store.js:237-276 | after any calls by one writer, each cut after any step, with failing removals and leftover files: the unpruned versions are the latest ones, each reads back as committed, and the entry is a file of the current version |
| `ArtifactStore.CommitCutAnywhere` | src/artifacts/store.js:259-274 | one commit may stop after any of its steps |
| `ArtifactStore.ReadIsCommitted` | src/artifacts/store.js:299-320 | a version can be read exactly if it is not pruned |
| `ArtifactStore.HistoryIsKept` | src/artifacts/store.js:239 | what a version was committed with never changes |
| `ArtifactStore.CurrentIsReadable` | src/config.js:795-796 | under the limits that start-up insists on the current version can always be read, as committed |
| `ArtifactStore.ReadingNeedsRetention` | src/artifacts/store.js:259-265 | why start-up insists: it could be read exactly if at least one version is retained |
| `ArtifactStore.WriteMerges` | src/artifacts/store.js:384-392 | a write yields the old files without the removed, overridden by the new, no path twice |
| `ArtifactStore.WriteTakesEffect` | src/artifacts/store.js:377-413 | an accepted write past its second step is what the next read returns |
| `ArtifactStore.EntryIsAFile` | src/artifacts/store.js:142-157 | the entry is one of the files, and files without a given entry always have one |
| `ArtifactCalls.EntryByPreference` | src/artifacts/store.js:142-157 | exactly which one: the file asked for or none; else the conventional name; else the first file with the ending of the kind; else the first file |
| `ArtifactCalls.EntryStays` | src/artifacts/store.js:402-408 | a write keeps the entry as long as the file is there, and picks anew otherwise |
| `ArtifactCalls.CreateIsExact` | src/artifacts/store.js:338-368 | a create is accepted exactly if there is nothing yet, no path comes twice, some file is not blank, the entry asked for is a file, and files and bytes are within the limits |
| `ArtifactCalls.CreateTakesEffect` | src/artifacts/store.js:338-368 | past its second step it has made version 1, with the entry picked, and the next read returns the files |
| `ArtifactCalls.WriteIsExact` | src/artifacts/store.js:377-413 | a write is accepted exactly if there is an artifact, the new files have no path twice, the merge is not rejected and within the limits, and the entry asked for is one of the resulting files |
| `ArtifactCalls.MergeIsExact` | src/artifacts/store.js:381-394 | a merge is rejected exactly if it removes what is not there or leaves nothing; the files that stay keep their order, and new ones come behind in theirs |
| `ArtifactCalls.NothingElseIsStored` | src/artifacts/store.js:259-274 | after any calls that nothing interrupts, exactly the retained versions take up space |
| `ArtifactStore.Store.WriteVersion` | src/persistence/storage.js:161-179 | the files of a version go in as a whole, replacing same-named ones |
| `ArtifactStore.Store.CommitVersion` | src/artifacts/store.js:237-276 | an uninterrupted commit, with its pruning and removing loops, runs all the steps |
| `ArtifactStore.Store.Merge` | src/artifacts/store.js:381-392 | the two loops of a write compute the merge, and reject removing what is not there |
| `ArtifactStore.Store.WriteFilesOf` | src/artifacts/store.js:377-413 | a write does exactly the steps planned for it, and none if it is rejected |
| `ArtifactStore.Store.CreateFrom` | src/artifacts/store.js:338-368 | a create does exactly the steps planned for it, and none if it is rejected |
| `RateLimit.AcceptedPerWindow` | src/http/rate-limit.js:84-113 | an interval of one window, half open, with k strikes has at most max * (k + 1) accepted calls of a key that is not forgotten |
| `RateLimit.NextVerdict` | src/http/rate-limit.js:84-113 | exactly what becomes of the next call: blocked as long as the block of the last strike lasts; otherwise struck exactly if max calls have been accepted since that strike in the window that ends now; otherwise accepted |
| `RateLimit.StrikesAreDeserved` | src/http/rate-limit.js:91-98 | in particular a strike needs max accepted calls in the window before it |
| `RateLimit.NextVerdictOfLife` | src/http/rate-limit.js:70-113 | with sweeps in between only the calls since the key was last forgotten count |
| `RateLimit.Limiter.AnswersAreExact` | src/http/rate-limit.js:84-113 | that is what the limiter answers, for every key, over its own calls |
| `RateLimit.BlocksDouble` | src/http/rate-limit.js:104-108 | the first block is the base, each next one twice as long, up to the cap |
| `RateLimit.ExpiredMeansOver` | src/http/rate-limit.js:57-60 | an entry has expired exactly when its block is over and every stamp has left the window |
| `RateLimit.AcceptedDespiteSweeps` | src/http/rate-limit.js:57-113 | whatever the sweeps forget, k counts strikes and the times the key was forgotten before its entry had expired; forgetting an expired entry costs nothing |
| `RateLimit.EarlyLossCosts` | src/http/rate-limit.js:70-77 | a concrete key that is forgotten early and accepted once more |
| `RateLimit.Limiter.Bounded` | src/http/rate-limit.js:84-113 | that bound for every key of the limiter, over its own calls and losses |
| `RateLimit.BlocksOfAWindow` | src/http/rate-limit.js:104-108 | consecutive strikes are at least min(base * 2^(n-1), cap) apart, so the blocks between the strikes of one window sum to less than the window |
| `RateLimit.SweepForgetsEarliest` | src/http/rate-limit.js:70-77 | a sweep forgets all keys that have expired, and of the others exactly as many as exceed maxKeys, those that expire first |
| `RateLimit.Limiter.Sweep` | src/http/rate-limit.js:70-77 | the in-place sweep is that one |
| `RateLimit.Limiter.Consume` | src/http/rate-limit.js:84-113 | one step for the key, whose answer AnswersAreExact is about; others untouched, never more than maxKeys + 1 keys, and every call and loss is on record |
| `RateLimit.Limiter.Reset` | src/http/rate-limit.js:130-132 | forgets the key and nothing else, on record as a loss |
| `RateLimit.Limiter.Peek` | src/http/rate-limit.js:119-124 | says blocked exactly if a call now would be |
| `Pricing.RoundFacts` | src/telemetry/pricing.js:51-53 | rounding moves an amount by at most half a millionth, up from a half, and leaves whole millionths alone |
| `Pricing.RawOfMillions` | src/telemetry/pricing.js:60-66 | a million tokens of a kind cost the price of that kind |
| `Pricing.CostOfRows` | src/telemetry/pricing.js:77-97 | the cost of a list is the exact sum of its priced rows, nothing exactly if none is priced, partial exactly if a row with tokens was left out |
| `Pricing.SumBuckets` | src/telemetry/usage-store.js:109-125 | the loop adds up every row |
| `Pricing.EachIsAddedUp` | src/telemetry/usage-store.js:109-116 | runs and each kind of token are added up separately |
| `Pricing.OrderDoesNotMatter` | src/telemetry/pricing.js:77-97 | totals and the list of unpriced models do not depend on the order of rows |
| `Pricing.ViewsHaveOneTotal` | README.md:509 | grouped by user, by model or by both, the rows add up to the ledger's tokens |
| `Pricing.ViewHasOneRowEach` | src/telemetry/usage-store.js:438-462 | a view has exactly one row for each user, model, or pair that occurs, with the usage of exactly their ledger rows |
| `Pricing.TotalsAlmostAgree` | src/telemetry/usage-store.js:438-462 | the deployment's total and the total over the user-by-model rows differ by at most half a millionth per rounded row |
| `Pricing.ModelRowAlmostAddsUp` | src/telemetry/pricing.js:118-127 | a model's row differs from its children by at most half a millionth for each and one for itself |
| `Pricing.ModelRowAddsUpExactly` | src/telemetry/pricing.js:118-127 | and it costs exactly what they do if and only if their rounding has not shifted the sum by half a millionth or more |
| `Pricing.ModelRowMayNotAddUp` | src/telemetry/pricing.js:118-127 | a concrete row and its children for which it does not |
| `Pricing.FoldByDay` | src/telemetry/usage-store.js:549-567 | each day that occurs has its tokens, the exact sum of its priced rows, and a mark exactly if one was unpriced |
| `UsageViews.GroupChildren` | src/telemetry/usage-store.js:150-167 | in either dimension there is a group for each parent that occurs, and it holds exactly that parent's rows, by tokens and then name |
| `UsageViews.SortedRows` | src/telemetry/usage-store.js:131 | the sorting of a group ranks it and loses nothing |
| `UsageViews.RankedByTokensThenName` | src/telemetry/usage-store.js:131 | ranked means more input and output tokens first, and of equals the smaller name |
| `UsageViews.ParentsAddUp` | src/telemetry/pricing.js:110-116 | the costs of the grouped parents add up exactly to the priced rows |
| `UsageViews.TotalAgainstUserRows` | src/telemetry/usage-store.js:438-462 | the deployment's total and the sum of the user rows differ by at most half a millionth per rounded amount |
| `Smtp.ChunkingDoesNotMatter` | src/mail/smtp.js:52-74 | the replies are the same for every way of cutting the stream, also inside a line break or between the lines of one reply |
| `Smtp.CompleteReplyStays` | src/mail/smtp.js:52-63 | a complete reply stays what it is when more arrives |
| `Smtp.RepliesEndOnTheirLastLine` | src/mail/smtp.js:52-63 | a reply is the lines up to the first last line, its code that line's, and what remains follows it; without a last line there is none |
| `Smtp.LastLineForm` | src/mail/smtp.js:58-61 | a line that begins with a number of three digits is a last line exactly if nothing or a space follows, and its code is that number |
| `Smtp.LastLineBeginsWithCode` | src/mail/smtp.js:58-61 | and every last line begins with the three digits of its code |
| `Smtp.Channel.Take` | src/mail/smtp.js:52-63 | the scan over lines cuts off exactly one complete reply |
| `Smtp.Channel.OnData` | src/mail/smtp.js:66-74 | at every moment the replies are those of everything received, handed to waiting readers in their order |
| `Smtp.Channel.Read` | src/mail/smtp.js:84-88 | a reader gets the oldest reply or waits |
| `Smtp.StuffingIsUndone` | src/mail/smtp.js:194-195 | for every text, the receiver's rule undoes the stuffing exactly if no dot follows a bare line feed and the text does not begin with a dot |
| `Smtp.NoLineIsTheEndMark` | src/mail/smtp.js:194-195 | for every text, a stuffed line is a single dot exactly if the text's first line is one, ended by the text, a line break, or a bare line feed before a dot |

## Left out

- WorkerRuns.QuotaHolds: takes each park as one step; ParkQuota.QuotaHoldsWhileWaiting lets it wait, and
  excludes two parks of one user at once, for which the quota does not hold.
- CronSchedule.NextFireIsFirst: orders by the wall clock, since across a fall-back the earliest instant is not
  what the code looks for; days around which two changes fall close together, or one that is not of whole
  minutes, are outside it.
- QuotaDay.InstantIsWithinItsDay: for at most one change of offset within three days of the instant.
- SessionPaging.CursorRoundTrip: takes JSON and base64url as codecs that give back what they took.
- ExecJobs.Job.Settle: takes the status change and the exit frame as one step.
- Sessions of the sandbox client are transitions on values in `Handover`, not objects, because their
  interleaving with the network is what is proved; the in-place form does not show there.
- The static token mode of the worker, which skips the token check, the keepalive timer, features, trace ids
  and the descriptions of a lease; the manager that picks a worker.
- The recycling of a slot, the file and browser operations inside a sandbox, and the local and disabled modes.
- Time-outs of requests are events that may happen at any moment; their lengths are not modelled.
- Tokenising of cron text and of page parameters, month and weekday names; years before 100, which Date.UTC
  moves, and the range limits of Date.
- Editing and removing cron jobs, and the checks when one is created; the fire log; a claim given back, which nothing calls.
- `mutate` and the other database calls are atomic steps and ordered snapshots; a collation is a ranking.
- The number and byte limits of runs and jobs are parameters.
- The translation of a killed command into an exit code and a notice.
- Opening a run twice and listing a user's runs.
- The role, disabled and orphan marks of usage rows, their run counts and times of last use; the page by model,
  which slices a list already in memory; the daily roll-up, a sum like the others.
- Artifact titles, path rules, the older single-file format, `replace` and sharing; several artifacts, which
  share no key.
- Floating-point error in amounts: only the program's own rounding is there.
- Mail headers, encodings, authentication and the sockets.
