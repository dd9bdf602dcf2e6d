# PersonalOS, verified

A Dafny model of the parts of PersonalOS that act on their own and have to be right when a process
dies halfway: the interview scheduler and its calendar writes, the leased event transport and the
dispatcher that drains it, the ordering of a plan by its dependencies, the errors that survive a
checkpoint, the application lifecycle, the waits a monitor sweeps, the approval gate and the executor
behind it, the files server and the correlation of mail with applications. It proves what those parts promise, over every input,
every run or every reachable state; where a promise fails, it gives the exact condition under which it
holds and an input for which it does not.

`dafny verify dfyconfig.toml` checks the whole project (Dafny 4.11).

How it is laid out:

- **Scheduling.** `WorkingDay`, `SlotSearch`, `InterviewPlan` model the planner; `PlanLayout` says
  what a plan looks like; `CalendarWrites` the executor and the reconciler, with crashes; `PlanWrites`
  what the executor makes of a plan; `Replanning` when plan, write, plan again is a fixpoint.
- **Events.** `EventTransport` is the transport as a function of its log; `MemoryTransport` the
  mutable object that refines it; `Settlement` what each of its operations does to the one event it
  is about; `TransportRuns` and `ClaimOrder` its history over any run;
  `Dispatching` the loop that drains it; `ExactlyOnce` the composition with crashing
  dispatchers and an idempotent handler; `RetryPolicies` the backoff.
- **Tasks.** `Tasks` is Kahn's algorithm; `Ordering` the sort it relies on.
- **Errors.** `PythonRepr` prints and reads a string literal; `StoredErrors` is the printer and the
  parser; `ErrorRoundTrip` says what is read back; `FieldLimits` that this is exactly what can be;
  `Recovery` when the live error's recovery survives; `ClaimedClasses` that it need not.
- **Protocols.** `Lifecycle`; `CheckpointMonitor`, `SweepAccounts` and `MonitorSweep`;
  `ToolExecution` the executor with one row per idempotency key, `Approvals` the runs that redeem
  approved actions through it, `Redemption` what the gate and one pass come to, `ActionStatus` what is
  listed of them; `FilesServer` and `FileTools`;
  `Correlation`.

Times are integers in microseconds where the source has datetimes, and exact reals where it has
seconds as floats. A process that crashes is one that takes no further step. Whatever comes from
outside (clocks, jitter, a provider's new event id, the condition's answer, a hash) is a parameter.

Six things came out of the proofs that the source's own documentation does not say. Each has an
input that shows it and the exact condition:

- The search gives up after 500 rounds, and 500 back-to-back events are enough to make it miss a free
  slot (`SlotSearch.CapIsTight`); with fewer reaching into its window it never does
  (`SlotSearch.LatestFreeSlotIsExact`).
- Prep blocks under one slot name share one event, and planning again over what was written settles
  exactly if the blocks can share it (`Replanning.ReplanningSettlesExactly`). Two that were put in two
  places never can, whatever is done to the calendar (`Replanning.OneEventTwoPlacesNeverStays`), and a
  plan can do that (`Replanning.SharedNameTwoPlaces`); nor can one that found no place and a namesake
  whose event it could use (`Replanning.UnplacedNamesakeTakesOver`).
- An update re-stamps the event it moves, so a create that is retried afterwards inserts a second
  event (`CalendarWrites.MovingLosesTheStamp`), and only then
  (`CalendarWrites.SecondInsertExactlyIfStampLost`).
- A provider name or reason that looks like `context_id=` ends the fields of a stored error early and
  is lost (`FieldLimits.LookalikeIsUnreadable`, `FieldLimits.ProviderFailuresReadBackExactly`), and
  what comes before it there can give the error any other failure class
  (`ClaimedClasses.AnyClassCanBeClaimed`, `Recovery.FactsSurviveExactly`).
- The lifecycle's guarded write compares statuses alone, so an application stalled twice can be
  written from what was read in its first stall and go backwards (`Lifecycle.StalledTwiceCanGoBack`);
  a guard that also compared the resume status would be exact (`Lifecycle.GuardNeedsTheResumeStatus`).
- An approval covers an action's kind, target and payload but not its idempotency key, so an approved
  action that is rewritten to be pending under a second key is redeemed under both, and can be listed
  as FAILED although it has a successful receipt (`ActionStatus.SecondKeyHidesSuccess`). That is the
  only way (`ActionStatus.SuccessIsShown`): while an action keeps its key, it is EXECUTED exactly when
  a successful receipt is on file, however often it is proposed and redeemed
  (`ActionStatus.ExecutedExactlyWhenReceipted`).

## Model

| member | source | states |
|---|---|---|
| WorkingDay.LatestEndFits | personalos/domain/interview_scheduling.py:164-181 | the end `latest_end` proposes is never too late, and a block ending there fits one local working day exactly when a block that long fits any |
| WorkingDay.LatestEndIsGreatest | personalos/domain/interview_scheduling.py:173-181 | every end, up to the one asked about, of a block that fits one local working day is at or before the proposed one |
| SlotSearch.SearchSound | personalos/domain/interview_scheduling.py:386-407 | a slot found has the asked duration, lies in the window and the working hours, and hits no busy interval |
| SlotSearch.SearchOptimal | personalos/domain/interview_scheduling.py:386-407 | no free slot ends later than the one found |
| SlotSearch.SearchComplete | personalos/domain/interview_scheduling.py:386-407 | a search with more rounds than busy intervals that reach into the time still to be searched finds a slot if there is one, since every blocked round retires an interval |
| SlotSearch.LatestFreeSlotIsExact | personalos/domain/interview_scheduling.py:73-407 | the planner's search returns the latest free slot, and with fewer than 500 busy intervals reaching into the window `None` exactly when no slot is free |
| SlotSearch.CapIsTight | personalos/domain/interview_scheduling.py:73-407 | from 500 busy intervals on, the search can return `None` although a slot is free |
| SlotSearch.FindLatestFreeSlot | personalos/domain/interview_scheduling.py:386-407 | the loop that walks `end` backward computes that search, so its result is sound, optimal and, under the cap, complete |
| InterviewPlan.ComputePlan | personalos/domain/interview_scheduling.py:444-579 | the planner's loop, appending to its three lists, computes the plan the other modules are about |
| PlanLayout.BlocksAreWellPlaced | personalos/domain/interview_scheduling.py:518-577 | every prep block in a plan, shared slot names or not, is the block of one spec, and is left alone because it is over, kept because it is still usable, or put in the latest free slot around all that was booked by then |
| PlanLayout.BlocksAreAsAsked | personalos/domain/interview_scheduling.py:464-577 | every prep block is what one of the specs asks for, in that spec's own terms: named and keyed for it, and left where it is only if that is over or still right, or else put, at its length, clear of all that was booked by then, no earlier than now and the horizon, ending by the lead and inside the working hours if it asks for them, with no such place ending later |
| PlanLayout.InterviewIsAsAsked | personalos/domain/interview_scheduling.py:410-515 | the first change of a plan is the interview at the time asked for: created without an event of its own, kept where it is there already, and moved otherwise |
| PlanLayout.PastInterviewsPlanNothing | personalos/domain/interview_scheduling.py:475-515 | an interview that has begun is reported and nothing else planned; one still ahead is never reported so |
| PlanLayout.BlocksNeverOverlap | personalos/domain/interview_scheduling.py:515-577 | two planned events overlap only if both are prep blocks that are over already, kept as history |
| PlanLayout.BlocksAvoidForeignEvents | personalos/domain/interview_scheduling.py:464-577 | a block still ahead overlaps nothing anyone else has booked |
| PlanLayout.PlanAccountsForEverything | personalos/domain/interview_scheduling.py:464-579 | under each prep key a plan has as many changes and PREP_UNPLACEABLE conflicts as there are specs for it, so exactly one of either for a spec with a name of its own; and the interview overlaps reported are exactly the foreign busy events that overlap it |
| PlanLayout.UnplaceableMeansNoSlot | personalos/domain/interview_scheduling.py:529-565 | a block reported unplaceable has no free slot at all around what was booked by then, unless 500 of what was booked reach into its window |
| PlanLayout.NothingLeftMeansNothing | personalos/domain/interview_scheduling.py:518-577 | each spec comes to a change, to a PREP_UNPLACEABLE conflict under its own key when there is no place it may have, or to an error exactly when it is longer than the working day it must fit in |
| PlanWrites.WritesUpTo | personalos/executor/calendar.py:125-208 | after the executor's own creates and updates for any prefix of a plan's changes, each logical event is the event it was if there was one, is held where the changes put it if they agree on that, and is untouched if none mentions it; nobody else's events have moved, and ids stay unique |
| PlanWrites.CreatedEventsAreStamped | personalos/domain/interview_scheduling.py:582-591 | an event created for a change is at its time, and says whose it is, its key, its role, the write that made it and, for a prep block, which interview it prepares |
| Replanning.WrittenPlanIsReflected | personalos/executor/calendar.py:125-208 | once the executor has written a plan whose namesakes agree, the calendar holds each block where the plan put it, and nobody else's events have moved |
| Replanning.ReplanningSettlesExactly | personalos/domain/interview_scheduling.py:444-591 | for every calendar and every specs, shared slot names included: planning again over the written calendar leaves every block in place and nothing to write if and only if specs that share a name were put in one place or could not have used it |
| Replanning.ReplanningIsAFixpoint | personalos/domain/interview_scheduling.py:444-591 | with a slot name for each spec, planning again at the same moment over the written calendar gives the same layout, only KEEP changes, and the same conflicts |
| Replanning.OneEventTwoPlacesNeverStays | personalos/domain/interview_scheduling.py:464-579 | if two changes of a plan put one logical event in two places, no calendar at all makes the next plan keep that layout |
| Replanning.SharedNameTwoPlaces | personalos/domain/interview_scheduling.py:464-579 | a plan for two specs with one slot name does put their one event in two places |
| Replanning.UnplacedNamesakeTakesOver | personalos/domain/interview_scheduling.py:529-577 | changes with keys of their own are not enough: a spec that found no place takes over its namesake's event when planned again, and the layout changes |
| CalendarWrites.CalendarActionExecutor.Create | personalos/executor/calendar.py:125-186 | a create looks before it writes: at most one event is inserted, none if one carries the key, and each way the attempt can end is told apart |
| CalendarWrites.CalendarActionExecutor.Update | personalos/executor/calendar.py:138-208 | an update moves the named event once, leaves one already in place alone, and reports a missing one; it raises exactly without an event id or, for an event that is there, without times, and crashes exactly where it is made to |
| CalendarWrites.CalendarActionExecutor.Execute | personalos/executor/calendar.py:138-163 | makes the write the intent's kind calls for and refuses any other kind |
| CalendarWrites.InsertedAsAsked | personalos/executor/calendar.py:165-186 | an inserted event has the title, or without one the summary, the times, the properties and the key of its intent, and is busy |
| CalendarWrites.MovedAsAsked | personalos/executor/calendar.py:188-208 | a moved event is the same event at the times asked for, under the key of the intent that moved it |
| CalendarWrites.RepeatedUpdateWritesNothing | personalos/executor/calendar.py:138-208 | an update made again finds the event in place and writes nothing |
| CalendarWrites.CreatesSurviveCrashes | personalos/executor/calendar.py:125-186 | over any serial run of create attempts, other writes and reconciliations, crashing after the lookup or after the insert, the calendar never holds two events with the key; and every insert sent is still there, stamped, if and only if no step took the stamp off |
| CalendarWrites.SecondInsertExactlyIfStampLost | personalos/executor/calendar.py:165-208 | after any allowed run of updates, other writes and reconciliations, a create whose event is on the calendar is inserted a second time if and only if its stamp was taken off on the way |
| CalendarWrites.UpdateTakesTheStampExactly | personalos/executor/calendar.py:188-208 | an update takes a create's stamp off if and only if it moves the event that carries it |
| CalendarWrites.ReconcileFindsExactlyTheEvent | personalos/executor/calendar.py:211-232 | `reconcile` answers APPLIED for a create, with the receipt of its event, exactly while an event carries its key, and NOT_APPLIED exactly while none does; after NOT_APPLIED, a retry brings APPLIED |
| CalendarWrites.ReconcileFindsTheMove | personalos/executor/calendar.py:233-241 | for an update, it answers APPLIED exactly if the event is at exactly the times asked for, and NOT_APPLIED whenever the update would write; it raises exactly without an event id or, for an event that is there, without times |
| CalendarWrites.AppliedOnceMoved | personalos/executor/calendar.py:188-241 | an update of an event that is there, made once, perhaps crashing, is answered APPLIED exactly if it got past its lookup or the event was in place before, and NOT_APPLIED otherwise |
| CalendarWrites.MovingLosesTheStamp | personalos/executor/calendar.py:188-208 | create, crash after the insert, update, create again: two events |
| RetryPolicies.DelayStaysInWindow | personalos/domain/retry_policy.py:80-94 | without `Retry-After` a delay lies between half its window and its window; with it, `Retry-After` is a floor and otherwise changes nothing |
| RetryPolicies.GrowsExactlyBelowTheCap | personalos/domain/retry_policy.py:80-94 | each retry waits at least as long as the one before, whatever the jitter, if and only if the doubled window fits under `max_delay` |
| RetryPolicies.ShippedPoliciesGrow | personalos/domain/retry_policy.py:70-105 | every retry a shipped policy allows waits at least as long as the one before |
| RetryPolicies.ShippedSchedules | personalos/domain/retry_policy.py:70-105 | how often each shipped policy retries and how long its last window is; none of them meets its cap, and only calendar writes ask first |
| MemoryTransport.InMemoryEventTransport.Publish | personalos/events/memory.py:106-114 | publishing appends an event or answers that its key is held, as the log's specification says, whole new state included |
| MemoryTransport.InMemoryEventTransport.NextReady | personalos/events/memory.py:212-230 | the scan finds the lowest-sequence ready event that is not excluded, and nothing when none is ready |
| MemoryTransport.InMemoryEventTransport.Claim | personalos/events/memory.py:116-139 | the loop that leases or buries one event after another refines the specification's claim, and ends |
| MemoryTransport.InMemoryEventTransport.Ack | personalos/events/memory.py:141-149 | settles a delivery that is current and changes nothing otherwise |
| MemoryTransport.InMemoryEventTransport.Nack | personalos/events/memory.py:151-168 | retries with backoff, quarantines, dead-letters or reports a lost claim, as the specification says |
| MemoryTransport.InMemoryEventTransport.DeadLetter | personalos/events/memory.py:170-178 | parks a current delivery and changes nothing otherwise |
| MemoryTransport.InMemoryEventTransport.Requeue | personalos/events/memory.py:180-191 | puts a parked event back with a fresh budget, and nothing else |
| Settlement.PublishedOnce | personalos/events/memory.py:106-114 | publishing a key that is not held appends its event, pending, and one that is held changes nothing |
| Settlement.ReadyExactly | personalos/events/memory.py:212-230 | an event is ready exactly if it is not excluded and either waits for no later time or was claimed at least the visibility timeout ago |
| Settlement.FailuresAreClassified | personalos/domain/event_transport.py:139-174 | poison is quarantined, a failure nothing can cure or past the budget is dead-lettered, and any other is retried after half its window at least, or after what the error asks for |
| Settlement.NackSettlesByError | personalos/events/memory.py:151-168 | a current delivery's event becomes QUARANTINED, PENDING or DEAD_LETTER exactly as its error and its attempt say, waiting exactly the delay, and no other event changes |
| Settlement.StaleSettlingIsRefused | personalos/events/memory.py:141-178 | ack, nack and dead-letter of a delivery that is not current change nothing and say so |
| Settlement.AckIsForGood | personalos/events/memory.py:141-149 | acking a current delivery makes its event DISPATCHED and changes no other |
| Settlement.DeadLetterParks | personalos/events/memory.py:170-178 | dead-lettering a current delivery parks its event with the reason given and changes no other |
| Settlement.RequeueRenews | personalos/events/memory.py:180-191 | a requeue puts the first parked event with that id back, pending and with no attempts, and answers whether there was one |
| TransportRuns.ClaimHistoryIsClaim | personalos/events/memory.py:116-139 | the history kept beside a claim follows the very claim the object makes |
| TransportRuns.ReachableStatesAreSafe | personalos/events/memory.py:106-251 | every reachable state has distinct keys, a lease exactly on each in-progress event, every lease held by one event and issued once, attempts within budget plus one, and a delivery record for every lease |
| TransportRuns.SettlingIsConditionalOnTheLease | personalos/events/memory.py:141-178 | in a reachable state a delivery settles exactly if it was not settled and nobody has claimed the event since, however long its lease has lapsed; a stale one changes nothing; one that settles is of the event's current attempt |
| TransportRuns.BuryOne | personalos/events/memory.py:116-139 | what `claim` dead-letters is a lapsed in-progress event whose budget is spent, at one attempt more than the budget |
| TransportRuns.DeliveryBudget | personalos/events/memory.py:116-191 | between publish or requeue and the next requeue an event is handed out at most `max_attempts` times; no lease number is issued twice; every key is held once |
| ClaimOrder.ClaimTakesTheOldest | personalos/events/memory.py:116-139 | a claim hands out the lowest-sequence ready event that still has budget, and nothing exactly when there is none |
| ClaimOrder.SerialConsumerIsFifo | personalos/events/memory.py:116-149 | while no event it may take is in progress or backing off, a consumer that acks each claim before the next sees the waiting events in publish order, whatever was dispatched, parked or excluded before |
| ClaimOrder.DispatchedIsFinal | personalos/events/memory.py:106-191 | no run changes a dispatched event again |
| ClaimOrder.BackoffIsHonoured | personalos/events/memory.py:153-230 | a nacked event is left alone by every run whose claims come before its nack time plus its delay |
| ClaimOrder.LeaseIsExclusive | personalos/events/memory.py:116-230 | two hand-outs of one event with no settlement between are at least the visibility timeout apart |
| ClaimOrder.LogGrows | personalos/events/memory.py:106-191 | nothing published is ever dropped or moved |
| Dispatching.ProcessingSpends | apps/worker/outbox_dispatcher.py:83-128 | a delivery spends budget that only a publish or a requeue gives back, and processing finds nothing exactly when nothing is claimable |
| Dispatching.OutboxDispatcher.ProcessNext | apps/worker/outbox_dispatcher.py:83-128 | claims one event, then acks it if it has no handler or its handler returns, and nacks it if the handler raises |
| Dispatching.HandlersDecide | apps/worker/outbox_dispatcher.py:83-128 | what one delivery does to the oldest claimable event: dispatched exactly if its handler returned or it has none, and otherwise what its error and attempt call for, every other event as the claim leaves it |
| Dispatching.OutboxDispatcher.Drain | apps/worker/outbox_dispatcher.py:130-137 | terminates however the clock moves, delivering no more than the remaining attempts; every round before the last delivered something, and it stops at the limit or where nothing is claimable |
| ExactlyOnce.ExactlyOnceEffect | apps/worker/outbox_dispatcher.py:11-128 | over any interleaving of publishes, dispatchers, crashes, lapsed leases and requeues, a handler that commits its effect with a record of `dedupe_key` applies each fact at most once, and every dispatched event with a handler has been applied |
| ExactlyOnce.ProcessedIsARun | apps/worker/outbox_dispatcher.py:83-128 | what a dispatcher does in one go is a run of the actions that result is about |
| ExactlyOnce.CutShortIsARun | apps/worker/outbox_dispatcher.py:83-128 | and so is what it did until its process died, before its handler or after it |
| Ordering.SortedAscends | personalos/domain/tasks.py:80-93 | `sorted` lists the ready tasks in strictly rising code-point order |
| Ordering.Sort | personalos/domain/tasks.py:80-93 | the in-place sort gives that one listing |
| Tasks.TopologicalOrder | personalos/domain/tasks.py:80-93 | the loop that strikes ready tasks off computes the specification's order or its leftover |
| Tasks.KahnSound | personalos/domain/tasks.py:80-93 | an order returned holds every task once, after everything it depends on |
| Tasks.StuckMeansCycle | personalos/domain/tasks.py:80-93 | a non-empty remainder in which every task waits for another holds a dependency cycle |
| Tasks.KahnDecidesAcyclicity | personalos/domain/tasks.py:80-93 | it raises exactly when there is a dependency cycle or an unknown task, and otherwise returns an order |
| Tasks.OrderOfTasksDoesNotMatter | personalos/domain/tasks.py:80-93 | listing the same tasks in another order gives the same answer |
| Tasks.BoundedAndAcyclic | personalos/domain/tasks.py:53-73 | the validator accepts exactly the non-empty lists within the bound with unique ids, known dependencies and no cycle, and blames a cycle only when there is one |
| PythonRepr.ReprRoundTrip | personalos/domain/failures.py:467-472 | reading a printed string as a literal gives the string, whatever is in it |
| PythonRepr.HexDigitsAreRead | personalos/domain/failures.py:467-472 | an escape's hex digits are read in either case, and nothing else is one |
| PythonRepr.QuotesAreStripped | personalos/domain/failures.py:467-472 | what is not a literal loses every quote at either end and nothing else |
| PythonRepr.ReprIsOneLiteral | personalos/domain/failures.py:90-93 | the literal part of the field and message patterns takes exactly what was printed, whatever follows |
| StoredErrors.SplitPrinted | personalos/domain/failures.py:213-217 | a printed error splits into its type and its body |
| StoredErrors.MessageIsFound | personalos/domain/failures.py:92-228 | the message pattern finds the message that was printed last, whatever looks like one before it or in it |
| ErrorRoundTrip.SurvivorsAreRead | personalos/domain/failures.py:219-226 | the fields read from a printed body are all fields up to the first value that looks like `context_id=`, then whatever the beginning of that value looks like |
| ErrorRoundTrip.WhatIsReadBack | personalos/domain/failures.py:207-236 | of any error at all, the type and the message are read back, and the surviving fields |
| ErrorRoundTrip.ParsingUndoesPrinting | personalos/domain/errors.py:129-138 | parsing undoes printing, for any message and any field values none of which prints as something with a `context_id=` in it |
| ErrorRoundTrip.IdentifiersReadBack | personalos/domain/failures.py:207-236 | identifier-like field values are always read back, next to any message: quotes, backslashes, text that looks like fields |
| FieldLimits.CutValueIsLost | personalos/domain/failures.py:219-226 | no field read from the beginning of a cut field has that field's value |
| FieldLimits.FieldsReadBackExactly | personalos/domain/failures.py:207-236 | every field an error prints is read back if and only if no extra value prints as something with a `context_id=` in it |
| FieldLimits.ProviderFailuresReadBackExactly | personalos/domain/errors.py:252-270 | a provider's refusal is recovered whole if and only if that holds of its provider and its reason |
| FieldLimits.LookalikeIsUnreadable | personalos/domain/failures.py:93-226 | any value that begins with `context_id=` is one of those that are lost |
| ErrorRoundTrip.ClassAndCodeReadBack | personalos/domain/failures.py:207-236 | of any error at all, the class and the code read back are its own unless the beginning of an unreadable value names others |
| Recovery.FactsSurviveExactly | personalos/domain/failures.py:207-236 | class and code are read back if and only if no such imposter names others; all recovery reads, if and only if provider and reason survive as well |
| Recovery.ClassSurvivesTheCheckpoint | personalos/domain/failures.py:243-251 | which class any stored error gets: an imposter's if it names one, otherwise the live error's own, or the one of the code then in force; the live error's whenever no imposter claims otherwise |
| Recovery.ForeignErrorsSurviveTheCheckpoint | personalos/domain/failures.py:205-251 | an exception from outside the taxonomy is read back as its type with its arguments as printed, and counts as transient exactly if its type is one of the six builtins for a connection gone wrong |
| Recovery.ForeignErrorsGoByTheirType | personalos/domain/failures.py:243-251 | with neither class nor code to go by, the last component of the type decides, whatever module it is from |
| ClaimedClasses.AnyClassCanBeClaimed | personalos/domain/failures.py:219-251 | for each failure class there is a field value that makes any error of any class be stored as that one |
| Recovery.AssessmentFits | personalos/domain/failures.py:280-464 | status, retryability, the actions offered and their order, the integration named, the class and the cause of any assessment, each exactly: retried unless an answer, dismissed, queued or out of five attempts; reconnected exactly when the provider refused for good; side effects outrank every class but those two, which stays the cause |
| Recovery.RecoverySurvivesTheCheckpoint | personalos/domain/failures.py:280-464 | the recovery offered for any stored error is the one its recovery class and its surviving provider call for, which are the live error's own whenever its values are readable |
| Lifecycle.MoveOfEffective | personalos/domain/models.py:525-584 | a move either changes how an application is held or is a non-holding edge of the base table out of its effective status |
| Lifecycle.HeldMovesAsIfNeverHeld | personalos/domain/models.py:525-541 | a held application may make exactly the moves the status it was held from could, or resume it; that status is never terminal |
| Lifecycle.StalledExactlyFromStallable | personalos/domain/models.py:458-467 | the stall check's query asks about exactly the states STALLED is allowed from |
| Lifecycle.EnteredExactlyFrom | personalos/domain/models.py:380-541 | for each status, the statuses an application may be in to be moved there, held or not: skipped only before it applied, rejected only after and without an offer, withdrawn from any that is open |
| Lifecycle.RacingRunsStayProper | personalos/persistence/repositories.py:608-651 | however writers race, a held row's resume status is non-holding and allows the hold, and a row that is not held has none |
| Lifecycle.TerminalIsFinal | personalos/domain/models.py:452-456 | nothing follows a terminal status, however writers race |
| Lifecycle.OffersAreEarned | personalos/domain/models.py:368-443 | no application reaches OFFER, or answers one, that did not go through APPLIED and then INTERVIEWING, however writers race |
| Lifecycle.EffectiveFollowsTheTable | personalos/domain/models.py:525-584 | one writer at a time, the effective status only stutters or follows the base table |
| Lifecycle.AtMostEightMoves | personalos/domain/models.py:380-443 | one writer at a time, the effective status changes at most eight times, however often the application is held |
| Lifecycle.GuardNeedsTheResumeStatus | personalos/persistence/repositories.py:637-651 | of two rows with one status, every move decided from one is a move of the other with the same outcome if and only if they were held from the same status; so the guard on the status alone is exact for rows that are not held |
| Lifecycle.StaleWriteIsLegalExactly | personalos/persistence/repositories.py:637-651 | in any racing run, a step decided from a stale read is a move of the row it replaces if and only if that row is held from where the writer read, or the step leaves the hold for a status the row allows |
| Lifecycle.StalledTwiceCanGoBack | personalos/persistence/repositories.py:637-651 | racing writers can take the effective status from INTERVIEWING back to RESPONSE |
| CheckpointMonitor.RacingMonitorsAreSafe | apps/worker/checkpoint_monitor.py:198-388 | over any interleaving of any number of sweeps and other closes, crashing anywhere: a wait leaves PENDING at most once, its path is started at most once and only by the winner of the FIRED close, for a sweep time in [trigger, expiry), with the condition answered unmet |
| CheckpointMonitor.ClaimsAreHonoured | apps/worker/checkpoint_monitor.py:343-388 | a fired wait that no sweep still holds was started |
| SweepAccounts.FinishedSweepsAccount | apps/worker/checkpoint_monitor.py:95-388 | a sweep that finishes beside any others has put each selected wait in exactly one bucket, and for each bucket: resolved, expired, fired and failed if and only if that sweep closed or started it so; resolved only if its condition was answered met, expired only if unmet and past its expiry, fired, failed and cancelled only if unmet and in its window; cancelled only once it is closed; deferred only if that sweep did not close it; `waiting` stays empty |
| CheckpointMonitor.ClosedStaysClosed | personalos/persistence/pending_checkpoints.py:117-168 | no step reopens a wait or closes it a second way |
| CheckpointMonitor.DueExactly | personalos/persistence/pending_checkpoints.py:283-321 | a wait is selected as due exactly if it is pending and, its condition unmet, there is something to decide about it |
| CheckpointMonitor.ScheduledOnce | personalos/persistence/pending_checkpoints.py:84-115 | scheduling a key that is held changes nothing; one that is not is added, pending |
| CheckpointMonitor.KeysStayDistinct | personalos/persistence/pending_checkpoints.py:84-115 | over every run no two waits have one key |
| MonitorSweep.AloneIsHandled | apps/worker/checkpoint_monitor.py:235-388 | left alone, the steps that race handle a wait as the monitor's two methods do in one go |
| MonitorSweep.WhatBecomesOfAWait | personalos/domain/checkpoints.py:391-416 | handling a pending wait closes it RESOLVED exactly if its condition is met, EXPIRED exactly if it is unmet and its expiry has come, and, unmet, due and unexpired, CANCELLED without a thread to resume, FIRED with one that is ready; otherwise it stays pending; the bucket says which, and no other wait changes |
| MonitorSweep.ClosedWaitsAreLeft | apps/worker/checkpoint_monitor.py:235-388 | handling a wait somebody closed in the meantime changes nothing |
| MonitorSweep.SweptIsARun | apps/worker/checkpoint_monitor.py:198-388 | after any run of racing sweeps and closes, a sweep left alone is that run continued by beginning it and by its own steps, so what holds of every run holds of the object |
| MonitorSweep.PendingCheckpointStore.CloseWait | personalos/persistence/pending_checkpoints.py:117-168 | the guarded update closes the row if it is pending, changes nothing otherwise, and says which |
| MonitorSweep.PendingCheckpointMonitor.Fire | apps/worker/checkpoint_monitor.py:289-388 | cancels, defers, or claims before it starts, and puts the wait in the one right bucket |
| MonitorSweep.PendingCheckpointMonitor.Handle | apps/worker/checkpoint_monitor.py:235-287 | resolves, expires, fires or waits as the decision says, and puts the wait in the one right bucket |
| MonitorSweep.PendingCheckpointMonitor.SweepAll | apps/worker/checkpoint_monitor.py:198-233 | leaves the rows and the report of one sweep left alone, which `SweptIsARun` continues any run with |
| FilesServer.FillingIsInvisible | mcp_servers/files/server.py:382-399 | filling the temporary file, a byte at a time, touches no document |
| FilesServer.DocsAfterCall | mcp_servers/files/server.py:258-349 | after any number of a call's steps the documents are untouched, or have the backup, or have the backup and the new content |
| FilesServer.OverwritesLoseNothing | mcp_servers/files/server.py:293-349 | over any run of overwrites, each cut anywhere by a crash, every content that was ever in a document is still in one, even when backup names collide |
| FilesServer.DocumentsAreWhole | mcp_servers/files/server.py:245-409 | with either tool, cut anywhere, a document holds its whole old or whole new content, no document disappears, and the only other change is a backup that appears |
| FilesServer.RetryFinishes | mcp_servers/files/server.py:334-349 | an overwrite that crashed before its content landed can be retried, and ends as the first try would have |
| FilesServer.VersionsFormAChain | mcp_servers/files/server.py:258-349 | per path, the writes of both tools that land form a chain, each naming the hash of the content it replaced |
| FilesServer.WritesAreRefusedExactly | mcp_servers/files/server.py:245-291 | a write goes through exactly if it names the version on disk, or none where there is none, and neither is too large; each refusal says which |
| FilesServer.OverwritesAreRefusedExactly | mcp_servers/files/server.py:293-349 | an overwrite goes through exactly if it names the version on disk and that version's backup is there or can be made; each refusal says which, and the backup is of that version, beside it |
| FileTools.FilesMCPServer.ReplaceAtomically | mcp_servers/files/server.py:382-409 | the tool's loop and its final link or rename are the steps the crash results are about |
| FileTools.FilesMCPServer.BackUp | mcp_servers/files/server.py:334-349 | an existing backup is reused if it holds the version and refused if it does not; otherwise one is created |
| FileTools.FilesMCPServer.Write | mcp_servers/files/server.py:245-291 | refuses every stale, missing, unexpected or oversized case unchanged, and otherwise runs the planned steps and answers the replaced hash |
| FileTools.FilesMCPServer.Overwrite | mcp_servers/files/server.py:293-332 | refuses every stale, missing or oversized case unchanged, and otherwise makes the backup and then the replacement |
| Approvals.AuthorizedExactlyAsRaised | personalos/domain/job_search.py:1278-1414 | the gate opens exactly when kind, target and payload are what the request was raised with, an approving decision answers that request with that hash, and the window is open |
| Approvals.RewritesAreNamed | personalos/domain/job_search.py:1278-1414 | an approved action that was rewritten is refused as a hash mismatch, expired or not; one that was not is refused only when expired |
| Redemption.EachRefusalHasItsCause | personalos/domain/job_search.py:1264-1414 | each reason the gate gives has exactly one cause: no request, a decision about something else, none or none that decides, a rejection, a lapse, content that is not what was approved |
| Redemption.ApprovalsLastTheirWindow | personalos/domain/job_search.py:839-1135 | an approval of an unchanged action opens the gate for seven days for a submission, three for a message, two for the calendar and one for a document, or for the deployment's own window, and not from then on |
| Redemption.SecondCallExactly | personalos/executor/retry.py:55-70 | one attempt calls the provider twice for a calendar write only, under an unused key, exactly if the first call was broken off and the provider denies it, and never more often |
| Redemption.RedeemingIsAllOrNothing | personalos/graphs/job_search.py:1659-1721 | a pass over the pending actions leaves each with its own refusal or receipt, or, exactly if some attempt does not return, leaves the thread as it was, to be redeemed again, with what was handed over on record |
| ToolExecution.AtMostOncePerKey | personalos/executor/tool_executor.py:188-510 | over any attempts at a key, the process dying in a call, before it or after it, its action takes effect at most once, unless the provider denied one that had; and the row counts at least as many attempts as there were calls |
| ToolExecution.CarelessPoliciesRepeat | personalos/executor/tool_executor.py:283-413 | and only so: under every retry policy that repeats a failed call without asking, an action can take effect twice |
| ToolExecution.DeniedActionsRepeat | personalos/executor/tool_executor.py:461-510 | so can one that the provider denies after a crash |
| ToolExecution.AnswersAreRecorded | personalos/executor/tool_executor.py:188-246 | a success that is answered is on record, and a key with a receipt answers every later attempt with it, or refuses one for another action, calling nobody |
| ToolExecution.RowsTellTheStory | personalos/executor/tool_executor.py:188-510 | after any attempt, cut anywhere, the row's status and count, the calls made, the effects landed and the answer given fit each other and what happened: completed exactly with a receipt or the provider's word, failed exactly when a call was not to be repeated or could not be settled, in progress exactly when the process died in or before a call, in doubt exactly when it died asking |
| ToolExecution.ReceiptsAreFinal | personalos/executor/tool_executor.py:221-246 | nothing tried under a key that has its receipt changes anything |
| ToolExecution.DoubtIsSettledByAsking | personalos/executor/tool_executor.py:461-510 | an attempt without an outcome is settled by the provider's word without another call, and stays in doubt while it has none |
| ToolExecution.AttemptIsBounded | personalos/executor/tool_executor.py:283-352 | one attempt calls the provider at most as often as its policy has attempts |
| ToolExecution.ToolExecutor.Run | personalos/executor/tool_executor.py:283-413 | the retry loop over the key's row does what the specification says, to that row only |
| ToolExecution.ToolExecutor.Execute | personalos/executor/tool_executor.py:188-510 | claims a free key, refuses another action's, replays a receipt and otherwise asks first, as specified, leaving other keys alone |
| Approvals.ExecutedAsApproved | personalos/graphs/job_search.py:1545-1721 | over every run, however pending actions are rewritten, proposed again or redeemed out of turn, each effect handed to the executor was put to a reviewer with exactly that content, approved by its hash, and handed over before the approval expired |
| Approvals.ActionsLandOnce | personalos/executor/tool_executor.py:1-60 | over every run, however often an action is proposed, redeemed, interrupted and redeemed again, by this thread and others, it takes effect at most once under one key unless its provider denies what it did |
| Approvals.LandedWasApproved | personalos/graphs/job_search.py:1659-1721 | whatever took effect under a key only this thread uses, wherever it crashed, is content a reviewer approved as it is, in time |
| ActionStatus.DeriveThreadActions | personalos/domain/action_status.py:250-327 | the derivation never fails its validator and returns the listing |
| ActionStatus.EachActionIsListedOnce | personalos/domain/action_status.py:271-327 | every action with a request or a pending intent is listed exactly once, and nothing else is |
| ActionStatus.LatestReceiptDecides | personalos/domain/action_status.py:124-136 | in any thread at all, an action is EXECUTED exactly when its latest receipt is a success |
| ActionStatus.EachLabelHasItsFacts | personalos/domain/action_status.py:359-397 | for each label, exactly the facts on record that give it: what was tried outweighs what was answered, and an answer outweighs a question |
| ActionStatus.DenialsWereGiven | personalos/domain/action_status.py:359-397 | over every run, an action is listed as DENIED only if a rejection of it is on file or in the queue for its latest request |
| ActionStatus.SuccessIsShown | personalos/domain/action_status.py:124-136 | over every run, an EXECUTED action has a successful receipt, and one that has a successful receipt is EXECUTED unless it got receipts under two keys |
| ActionStatus.ExecutedExactlyWhenReceipted | personalos/domain/action_status.py:124-136 | over every run in which an action keeps its idempotency key, however often it is proposed, rewritten, redeemed and interrupted, it is EXECUTED if and only if it has a successful receipt |
| ActionStatus.SecondKeyHidesSuccess | personalos/domain/job_search.py:1278-1414 | a run of the graph in which an approved action is rewritten to be pending under two keys, and is listed as FAILED with a successful receipt on file |
| ActionStatus.OneReceiptEach | personalos/graphs/job_search.py:1205-1281 | in a run along the graph's edges that proposes nothing again once it was carried out, an action gets one receipt at most, however redeeming is interrupted |
| ActionStatus.ExecutedWasApproved | personalos/domain/action_status.py:359-397 | whatever a run did, an action listed as EXECUTED was handed over with content a reviewer approved, in time, and the row of its key has the success of exactly that content |
| Correlation.CombinedOf | personalos/domain/recruiter_events.py:303-307 | the loop combines the signals as independent evidence |
| Correlation.MoreSignalsNeverLower | personalos/domain/recruiter_events.py:213-307 | confidence stays in [0, 1], and one more signal, anywhere, never lowers it |
| Correlation.ClearsTheDefaultExactly | personalos/domain/recruiter_events.py:44-307 | rounded to four places, a thread or a reference clears the default threshold alone; the softer identifiers clear it exactly as a known sender at the company's domain, or as any three |
| Correlation.RankedIsSorted | personalos/domain/recruiter_events.py:352-353 | the ranking holds each scored candidate and falls by confidence, then by id |
| Correlation.OrderDoesNotMatter | personalos/domain/recruiter_events.py:310-372 | with distinct ids the answer does not depend on the order of the candidates |
| Correlation.LeaderIsMatched | personalos/domain/recruiter_events.py:352-364 | an application that clears the threshold and leads every other by the margin is matched |
| Correlation.MatchedLeads | personalos/domain/recruiter_events.py:352-364 | and only such an application is |
| Correlation.OthersDoNotMatter | personalos/domain/recruiter_events.py:338-372 | leaving out any other candidate keeps the match |
| Correlation.CorrelateApplication | personalos/domain/recruiter_events.py:310-372 | scores in a loop and answers as specified, a confirmation of an unknown application refused |
| Correlation.AnswersAreExact | personalos/domain/recruiter_events.py:310-372 | matched exactly if confirmed for one on file or some application leads, unmatched exactly if none shares an identifier, and otherwise for review with the three that rank first |
| Correlation.EveryMessageHasItsPlace | personalos/domain/recruiter_events.py:451-501 | end to end, which messages are recorded, with which move and for whose review, which are dropped and which are shown to a person, each exactly |
| Correlation.OneSignalIsItsWeight | personalos/domain/recruiter_events.py:213-307 | one identifier counts for its weight to four places, and a confirmation for nothing more |
| Correlation.MovesAreNeverGuessed | personalos/domain/recruiter_events.py:451-501 | a message moves an application only if it was read confidently as something other than unrelated, and a reviewer tied it to one on file or that one leads |

## Left out

Contracts stated for less than everything the source does, and why that is its promise:

- Replanning.ReplanningSettlesExactly: events have ids of their own, the provider grants unused ones, and no event carries the key of a create still to be made, which the executor and the provider see to; the interview is still ahead, since for one that is over the planner plans nothing.
- Replanning.ReplanningIsAFixpoint: with a slot name for each spec, which is more than it needs; the exact condition is `ReplanningSettlesExactly`.
- CalendarWrites.CreatesSurviveCrashes: attempts are serial and nobody else forges the stamp; two creates of one key at once can both pass the lookup, which the source says too.
- Lifecycle.EffectiveFollowsTheTable: one writer at a time, since `StalledTwiceCanGoBack` shows it false of racing ones; what racing writers keep is stated for them.
- ErrorRoundTrip.ParsingUndoesPrinting: one way; `Recovery.FactsSurviveExactly` has both for what recovery reads, and `FieldLimits` for the fields.
- Recovery.ForeignErrorsSurviveTheCheckpoint: the message is the arguments as printed, where the source reads them as literals and joins them; nothing is decided by it.
- ActionStatus.ExecutedExactlyWhenReceipted: for actions that keep their idempotency key, as all that the graph's own nodes propose do, since `SecondKeyHidesSuccess` shows it false of others.
- ToolExecution.AtMostOncePerKey: attempts at one key are serial, which the workflow lease is for; a row found in progress is taken for an abandoned attempt. The policy engine's verdict is an input; audit rows and domain events are not modelled.
- Approvals.LandedWasApproved: for keys only one thread uses, since another thread's approvals are not in this one's state.
- SweepAccounts.FinishedSweepsAccount: only for sweeps that finish; an evaluator that raises ends its sweep.
- SlotSearch.LatestFreeSlotIsExact: both ways below 500 busy intervals in the window, since `CapIsTight` shows the cap from there on.

What is not modelled:

- Input and output, frameworks, logging, tracing and the database: an awaited call is a boundary between steps, a lock or a guarded update is one atomic step.
- The order of rows, dictionaries and query results beyond what a result depends on: dictionaries are sequences in insertion order, and a sweep may select any due rows, each once.
- Texts made for people: conflict details, refusal details, log lines, why a failure is not retryable, redaction of stored errors; the transport's `last_error` text is kept as it is given.
- `EventRouter`, whose command key also carries the workflow and the kind, so a redelivery may route differently; exactly-once is for a handler keyed on `dedupe_key` alone.
- The range of datetimes.
- The length of a kept prep block, which the candidate may have changed; reminders; the working hours used when none are given.
- Python's literals beyond what `repr` prints: octal and named escapes, lone surrogates; which characters beyond ASCII are printable, word characters or spaces is a parameter nothing depends on.
- Bodies without a `context_id=`: a builtin exception's arguments are kept as the raw body.
- SHA-256: a parameter, injective only in `Approvals`, where the source's own argument needs it; canonical JSON is not modelled, so a payload is a string.
- Symbolic links, hidden and denied names in the files server: `sandbox.py` is not part of this model, nor is a writer in another process; the backup's path is taken to resolve to itself. Directories, base64 and its decoding errors are not modelled.
- `quiet_since`, the timestamps and the event log written beside a lifecycle transition.
- `supersede` and `resolve_matching` of the checkpoint store beyond the guarded closes they issue.
- Which identifiers a message shares with an application: the text matching of `_signals_for` gives the signals as an input. Floating point: confidences are exact and rounding is any function that keeps order and fixes what has four places.
- `derive_shortlist`, `approval_state`, previews, consequences and links of a listed action.
