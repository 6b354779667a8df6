# Durable step runner: verified coordination model

This project models how the runner coordinates workers through PostgreSQL, and proves what that
coordination promises. Nothing here is executed; every statement below is checked by the Dafny verifier
(`dafny verify dfyconfig.toml`).

## What is modelled

**Leases, fencing, retries.** `StepSpec` gives the six writes to `steps` (claim, renew, complete, report
failure, recover, promote) as guarded updates of one row. `Protocol` is the concurrent machine around
them: transactions made of separate statements (BEGIN, lock, scan, select with SKIP LOCKED, write, record
event, COMMIT, ROLLBACK), a row lock table, staged versions, a transaction id counter, an event id sequence
and a database clock that may advance between any two actions. Sessions that only lock a row are actors
like any other; a process that dies is a ROLLBACK, one that freezes never acts again. `now()` is the clock
at BEGIN; `clock_timestamp()` is the clock at the statement. A run is any sequence of actions; an action
that is not possible changes nothing.

- `ProtocolInvariant` proves the invariant over every action. `Refinement` shows that the committed rows of
  any run are those of a serial run of atomic operations, in commit order.
- `Writes` says column by column what each write is, when it is accepted and which event it records.
- `RowHistory`, `RowEvents`, `RowProgress` study the chain of committed writes of one row (fencing, budget,
  replay of the event log, termination, backoff); `RunTheorems` carries the results to all runs.
- `LeaseSession` (renewing in time keeps ownership), `Rejection` and `FutureGrants` (a refused generation stays
  refused, and what can still be granted), `SingleUpdate` (the rejected designs), `Sweeps` (SKIP LOCKED batches and backlogs).

**Event cursor.** `EventCursor` is the `step_events` table under concurrent writers and a reader that pages
in (xid, id) order below the oldest running transaction id. `EventStream` adds clients that disconnect and
resume. `ProtocolEvents` shows that every protocol action is a sequence of such writer actions, so the
reader's theorems hold of the protocol itself.

**Idempotent effects.** `EffectStore` is the two-statement insert-or-read race with waiting and aborting
inserts; `StepReceipts` composes it with the protocol and with repeated, stale and differently spelled
executions of a step.

**Worker and coordinator.** `WorkerLoop` is the claim/execute/report loop beside its renewal task as a state
machine over its awaits; `WorkerProcess` is the loop itself, proved to perform it. `RecoveryLoop` is the
coordinator.

**The code that changes state in place** is a class or a method with loops: `Database` (each statement is one
protocol action), `Calls` (`renewStepLease`, `completeStepSuccess`, `recordStepFailure`, `claimNextStep` with
arbitrary actions of others between their statements), `RecoveryLoop`, `EffectCalls`, `EventServer`,
`WorkerProcess`, and `Audit` (the benchmark's ownership auditor). Their contracts equate the new state with
the corresponding function of the old one.

## Assumptions

- The database clock never goes backward.
- One statement reads `clock_timestamp()` once: the SET and WHERE clauses of a renewal, and the decision
  clock and predicate of a failure report, are the same instant.
- Row locks behave as READ COMMITTED row locks; a selecting statement scans in one step and takes its whole
  batch of locks, after rechecking the newest committed versions, in a later one; COMMIT is later still.
- A transaction takes its xid when it takes its first row lock; a sweep inserts its events in batch order.
- Effects are never deleted and step payloads never change.
- The set of steps is fixed when a run starts: no step is inserted or deleted during it.
- Rows are inserted clean: not RUNNING, no owner, deadline or result, and `attempt_count < max_attempts`.

Two remarks in the source hold under a condition that the model makes exact. An event id is safe to resume from
when it was delivered; `EventServer.ResumingAheadLosesIff` says when another committed id is not. A refused
generation can never be renewed when the row has reached it, as it has for every claimed one;
`FutureGrants.RefusedUntilGrantedIff` says exactly which refused credentials can still come to be accepted.

## Model

| member | source | states |
|---|---|---|
| Lifecycle.TerminalIffNoWayOut | server/src/domain/step-transitions.ts:34-68 | a status is in the separately kept terminal set exactly when every transition out of it is illegal |
| Lifecycle.WhereEachStatusIsEntered | server/src/domain/step-transitions.ts:34-68 | from which statuses each status can be entered: nothing enters PENDING, only READY is claimed, only RUNNING ends or is retried, cancelling needs no owner; every other transition is refused |
| Base.BlankIff | server/src/db/claim-step.ts:117-125 | a text is blank exactly when trimming leaves nothing of it: every character is white space, by code point |
| StepSpec.EffectKeepsWellFormed | server/src/db/schema.ts:90-126 | every accepted write keeps the CHECK constraints, the attempt budget, owner and deadline present exactly while RUNNING, and a result only on SUCCEEDED rows |
| StepSpec.EffectFrame | server/src/db/record-step-failure.ts:51-61 | which columns each of the six writes may change; all others are carried over |
| StepSpec.WritesFollowTheLifecycle | server/src/db/recover-expired-steps.ts:79-80 | every accepted write moves along a legal lifecycle edge; RUNNING to READY is recovery alone, to SUCCEEDED completion alone, to RETRY_WAIT a failure report alone |
| StepSpec.OwnerXorRecovery | server/src/db/recover-expired-steps.ts:61-63 | at any instant a running lease is either still its owner's or recoverable, never both and never neither |
| StepSpec.BackoffIsCappedDoubling | server/src/db/record-step-failure.ts:58-59 | the clamped SQL expression is min(500 * 2^(attempt-1), 4000) for every attempt from 1 on |
| StepSpec.BackoffMonotone | server/src/db/record-step-failure.ts:58-59 | the delay never shrinks with the attempt and stays within 500 and 4000 ms |
| Writes.AcceptedIff | server/src/db/claim-step.ts:142-147 | each of the six writes is accepted exactly on its own columns: eligibility for a claim, owner, generation and an unexpired deadline for owner writes, an expired deadline for recovery, a due retry for promotion |
| Writes.BackoffTable | server/src/db/record-step-failure.ts:58-59 | the delays are 500, 1000, 2000 and then 4000 ms |
| Writes.CommittedWritesAreTheirs | server/src/db/recover-expired-steps.ts:103-129 | every write committed in any run has, for its operation, exactly the columns the statement sets and exactly the event it inserts: kind, worker, generation, attempt, reason or retry instant |
| Writes.LockableIff | server/src/db/claim-step.ts:97-104 | a SKIP LOCKED statement chooses among exactly the rows that passed its WHERE clause in its snapshot, are not locked, and still pass it |
| RowHistory.RowsStayWellFormed | server/src/db/schema.ts:122-126 | from a clean row, no sequence of committed writes leaves the row invariant |
| RowHistory.BudgetWithoutStranding | server/src/db/recover-expired-steps.ts:103-110 | attempts never exceed the budget and every READY, RETRY_WAIT or RUNNING row can still move on: claimable, promotable, recoverable |
| RowHistory.ConstantColumns | server/src/db/claim-step.ts:185-197 | payload, task type, priority and budget of a row are those it was inserted with |
| RowHistory.VersionsNeverDecrease | server/src/db/complete-step.ts:77-80 | lease_version never decreases along the committed writes of a row |
| RowHistory.OverStaysOver | server/src/db/complete-step.ts:101-114 | once a generation is superseded or no longer running, no write under its credentials is accepted again, whoever presents them and however live the successor's deadline |
| RowHistory.TerminalRowsAreFrozen | server/src/domain/step-status.ts:16-28 | nothing is ever committed over a terminal row |
| RowHistory.GrantsAreConsecutive | server/src/db/claim-step.ts:185-197 | the claims of a row grant exactly the generations initial+1 .. lease_version, once each, in order |
| RowHistory.GrantOf | server/src/db/claim-step.ts:186-192 | the generation a row is at was granted by one claim after which there are no others; while RUNNING the owner is that claimant and only renewals lie between |
| RowHistory.OneClaimPerGeneration | server/src/db/claim-step.ts:189-189 | two claims that granted the same generation are the same claim |
| RowHistory.NoLiveLeaseIsStolen | server/src/db/recover-expired-steps.ts:93-114 | a claim over an earlier grant comes after that generation ended, by recovery at or after its last committed deadline or by its own owner's retryable failure report, and nothing of that owner is accepted after the end |
| RowHistory.EndOfGeneration | server/src/db/recover-expired-steps.ts:95-111 | between a grant and the next claim there is a first write that stops the row from running, and it is a recovery or a retryable failure report |
| RowEvents.EventTellsTheMove | server/src/db/step-events.ts:75-103 | what one committed write's event says is exactly how status, generation and attempt moved; a write without event moved none of them |
| RowEvents.ReplayAgreesWithState | server/src/db/step-events.ts:75-103 | folding a step's events from its first row is always possible and yields its status, lease_version and attempt_count |
| RowEvents.EndingEventNamesTheClaimant | server/src/db/recover-expired-steps.ts:88-129 | the event that ends a generation names the worker, version and attempt of that generation's only STEP_CLAIMED event, although the owner column is cleared in the same statement |
| RowProgress.TransitionsDescend | server/src/db/promote-due-retries.ts:27-31 | every transition but a renewal strictly decreases (attempts left, status rank); a renewal leaves it unchanged |
| RowProgress.EventsConsumePotential | server/src/db/record-step-failure.ts:49-69 | events emitted plus transitions still possible never exceed what was possible at insertion |
| RowProgress.LifecycleTerminates | server/src/db/claim-step.ts:185-197 | a step inserted READY emits at most 3 * (attempts left) - 1 events, in any run |
| RowProgress.TerminationBoundIsTight | server/src/db/record-step-failure.ts:49-69 | that bound is reached by failing every attempt, from every clean READY row |
| RowProgress.BackoffIsHonoured | server/src/db/record-step-failure.ts:50-62 | after a recorded retry at attempt a nothing is committed on the row for that attempt's delay; next comes the promotion, then a claim whose transaction began no earlier |
| RowProgress.TotalBackoffClosedForm | server/src/db/record-step-failure.ts:58-59 | k delays add up to 500 * (2^k - 1) ms for k up to 3 and 3500 + 4000 * (k - 3) ms beyond |
| RowProgress.BackoffAccumulates | server/src/db/claim-step.ts:142-151 | a claim comes at least the summed delays of all retries scheduled before it after the row's first write |
| Ordering.SortSetSorts | server/src/db/claim-step.ts:148-149 | an ORDER BY whose key distinguishes the rows lists each exactly once, in order |
| Ordering.SortedListingIsUnique | server/src/db/step-events.ts:176-177 | a set of rows has one listing under a total key, so pages are determined |
| Ordering.FirstOfListing | server/src/db/recover-expired-steps.ts:99-100 | ORDER BY with LIMIT returns the least rows, as many as there are up to the limit, without repetition |
| Ordering.SelectFirst | server/src/db/claim-step.ts:148-150 | repeatedly taking the least remaining row yields exactly the first rows of the sorted listing |
| ProtocolInvariant.BatchIsLockable | server/src/db/recover-expired-steps.ts:94-102 | a SKIP LOCKED statement locks distinct, unlocked rows whose newest committed version still passes its WHERE clause, as many as the limit allows |
| ProtocolInvariant.CommitExtendsChain | server/src/db/renew-step-lease.ts:90-121 | a COMMIT extends the chain of each row it wrote by exactly its own write, and leaves every other row's chain alone |
| ProtocolInvariant.StepKeeps | server/src/db/renew-step-lease.ts:41-69 | every action keeps the protocol invariant: locks and holders agree, staged writes were authorized against what is still the committed version, rows are where their chains lead, orders are consistent |
| ProtocolInvariant.RunKeeps | server/src/db/claim-step.ts:127-235 | the invariant holds in every reachable state of every run |
| Refinement.StagedIsSerial | server/src/db/recover-expired-steps.ts:93-133 | installing what a transaction staged equals performing its writes one by one |
| Refinement.OnlyCommitInstalls | server/src/db/complete-step.ts:93-129 | nothing but COMMIT changes the committed rows or history; rolled-back and zero-row transactions change nothing |
| Refinement.EveryRunIsSerial | server/src/db/record-step-failure.ts:46-101 | after any interleaving the committed rows are what a serial machine computes from the committed operations alone, in commit order, each judged at its own instant |
| RunTheorems.RunsAreChains | server/src/db/renew-step-lease.ts:90-121 | in every reachable state each committed row is the end of a legal chain of writes from its first version |
| RunTheorems.CommittedRowsAreWellFormed | server/src/db/schema.ts:89-126 | every committed row of every run meets the schema checks and the stronger row invariant |
| RunTheorems.FencedForever | server/src/db/complete-step.ts:101-114 | once a generation is over it is over in every continuation, and a transaction writing under its credentials stages nothing |
| RunTheorems.TerminalForever | server/src/domain/step-transitions.ts:39-41 | a terminal row is the same in every continuation |
| RunTheorems.EventsAreBounded | server/src/db/claim-step.ts:185-216 | in any run however long a step inserted READY with no attempts used emits at most 3 * max_attempts - 1 events |
| RunTheorems.LogAgreesWithRows | server/src/db/schema.ts:192-194 | in every reachable committed state a step's event log replays to the step |
| RunTheorems.PerStepOrder | server/src/db/step-events.ts:152-154 | of two committed writes of a step the later has the larger xid and event id: id order and (xid, id) order are transition order |
| RunTheorems.EntriesAreRecorded | server/src/db/step-events.ts:79-83 | every committed transition carries its event, stamped with its own transaction; a renewal carries none |
| RunTheorems.ClaimConsistencyErrorIsUnreachable | server/src/db/claim-step.ts:199-205 | in no run does a claim's UPDATE miss the row it selected |
| RunTheorems.NoDeadlock | server/src/db/renew-step-lease.ts:91-96 | a transaction that waits for a row holds none, and the holder it waits for is not waiting |
| RunTheorems.LockFirstClosesTheDeadline | server/src/db/renew-step-lease.ts:41-69 | every committed renewal, completion and failure report was authorized by an evaluation made while holding the row lock, with the deadline later than the clock |
| LeaseSession.LiveLeaseIsNotSelected | server/src/db/recover-expired-steps.ts:52-57 | a sweep never locks a row whose lease is unexpired, even if it scanned an older deadline |
| LeaseSession.InTimeIff | server/src/db/renew-step-lease.ts:98-107 | the lease of an intact session lasts exactly while the clock is before the deadline of the renewal in flight or, with none, of the committed row |
| LeaseSession.StepKeepsIntact | server/src/worker/worker-loop.ts:92-121 | one action of anybody keeps a session whose lease lasts intact: owner, version and deadline of its last committed authorization, with at most its own renewal in flight, which may commit, fail or be rolled back |
| LeaseSession.RenewalKeepsOwnership | server/src/worker/worker-loop.ts:67-70 | while the lease lasts, measured from the renewal in flight or else the last committed authorization, no interleaving takes the generation away, renewals lost between write and COMMIT and retried included: the deadline never moves back, each renewal and the final report are accepted |
| LeaseSession.ClaimOpensSession | server/src/db/claim-step.ts:174-192 | a committed claim opens such a session, measured from its ownership write |
| LeaseSession.TimelyWriteIsAccepted | server/src/db/complete-step.ts:101-114 | a write attempted under the lock while the lease of an intact session lasts is accepted |
| Rejection.DeadStaysDead | server/src/db/renew-step-lease.ts:110-118 | no later write of the row makes refused credentials acceptable again |
| Rejection.RejectionIsFinal | server/src/worker/worker-loop.ts:67-70 | once an owner write has been refused under the row lock, no write with those credentials is accepted in any later state of any run |
| FutureGrants.RefusedUntilGrantedIff | server/src/db/renew-step-lease.ts:109-119 | after a refusal under the row lock, the same credentials are live in some continuation if and only if their generation lies beyond the row's own, within its remaining attempts, the row is not terminal and the worker is named; for a claimed generation, never |
| FutureGrants.GrantableCanBeLive | server/src/db/claim-step.ts:185-197 | from every reachable state, whoever holds the row, there is a run that grants such a generation to such a worker, through recoveries, promotions and claims |
| FutureGrants.LiveLaterWasGrantable | server/src/db/claim-step.ts:142-147 | no other generation beyond the row's own ever comes to be live |
| FutureGrants.GrantsSpendAttempts | server/src/db/claim-step.ts:189-190 | between any two committed versions of a row as many generations were granted as attempts were spent |
| FutureGrants.ClaimantsAreNamed | server/src/db/claim-step.ts:117-125 | no claim committed in any run names a blank worker |
| SingleUpdate.SingleUpdateCrossesDeadlineIff | server/src/db/renew-step-lease.ts:58-66 | evaluated in any reachable state and resumed after anything others did, the one-UPDATE design writes over an expired lease exactly when it was judged live before the wait, nobody modified the row meanwhile, the row is free again, and the deadline has passed |
| SingleUpdate.NowCrossesDeadlineBehindAHolder | server/src/db/renew-step-lease.ts:67-69 | from every reachable state in which a free row's lease was live at the owner's BEGIN, one lock-only session makes the lock-first evaluation with now() accept an expired lease, where clock_timestamp() refuses |
| SingleUpdate.LockFirstCrossesDeadlineIff | server/src/db/renew-step-lease.ts:64-69 | locking first acts on an expired lease exactly when the clock is now(), the credentials are the row's, and the deadline fell between BEGIN and the evaluation |
| SingleUpdate.EveryLiveLeaseIsExposed | server/src/db/complete-step.ts:68-75 | from every reachable state with a live free lease: a session locks the row, the one-UPDATE write is judged live and waits, the session lets go after the deadline, and the write lands on the expired lease, in a state in which the lock-first design refuses |
| Sweeps.SelectionIsFirst | server/src/db/promote-due-retries.ts:20-26 | a batch is the first rows, in order, of the eligible unlocked rows, as many as the limit allows |
| Sweeps.ClaimTakesTheBest | server/src/db/claim-step.ts:140-151 | a claim takes the lockable row of highest priority, then longest available, then least id; it finds nothing only if there is none |
| Sweeps.SweepTakesTheFirst | server/src/db/recover-expired-steps.ts:94-102 | a sweep takes rows it can lock, by deadline (for retries, by availability) and then id, and leaves one that it could take only when it has a hundred, all before it |
| Sweeps.SweepStepOnColumns | server/src/db/promote-due-retries.ts:27-42 | over the rows it locked, a sweep writes in order each row's new columns and its event, with consecutive event ids |
| Sweeps.DueIff | server/src/db/promote-due-retries.ts:22-22 | due are exactly the RUNNING rows whose deadline has come, or the RETRY_WAIT rows whose instant has come |
| Sweeps.ConcurrentSweepsAreDisjoint | server/src/db/promote-due-retries.ts:8-9 | writes waiting for COMMIT in different transactions are on different rows |
| Sweeps.OneRecoveryPerGeneration | server/src/db/recover-expired-steps.ts:88-92 | no generation is recovered twice |
| Sweeps.OnePromotionPerAttempt | server/src/db/promote-due-retries.ts:16-19 | no scheduled retry is promoted twice |
| Sweeps.OneSweep | server/src/db/recover-expired-steps.ts:93-133 | an undisturbed sweep resolves exactly its batch, changes no other row and leaves no lock |
| Sweeps.SweepShrinksDue | server/src/db/recover-expired-steps.ts:99-101 | an undisturbed sweep takes exactly its batch out of the due rows |
| Sweeps.BacklogAfterSweeps | server/src/db/recover-expired-steps.ts:65-66 | k sweeps, with any actions of others and any passage of time between them that leave no lock and the due rows as they are, leave exactly max(0, n - 100k) of n due rows |
| Sweeps.WaitingIsCalm | server/src/coordinator/recovery-loop.ts:66-66 | letting time pass is such a pause exactly until another row falls due |
| EventCursor.XminNeverDecreases | server/src/db/step-events.ts:136-138 | whatever a writer does, the oldest running transaction id never moves back |
| EventCursor.NothingAppearsBehind | server/src/db/step-events.ts:132-138 | no writer can make an event appear at or before a position below the watermark |
| EventCursor.PageExtendsListing | server/src/db/step-events.ts:158-186 | a page starts right after its cursor and leaves no gap: the listing up to the cursor plus the page is the listing up to the new cursor |
| EventCursor.PageOnColumns | server/src/db/step-events.ts:161-185 | a page holds, in strictly ascending (xid, id) order, committed events of the step asked for, beyond the cursor and older than every running transaction, at most as many as asked for and 500; a due event is left out only of a full page; the cursor then stands at the last event; a limit below 1 is refused |
| EventCursor.KeyOrder | server/src/db/step-events.ts:176-176 | the order of the cursor is xid first, then id, both ascending |
| EventCursor.ListingOnColumns | server/src/db/step-events.ts:132-146 | a listing is strictly ascending in (xid, id) and holds exactly the committed matching events up to its position |
| EventCursor.EveryReadDelivers | server/src/db/step-events.ts:158-186 | every read gives the reader the page due at its cursor |
| EventCursor.ReaderLosesNothing | server/src/db/step-events.ts:118-186 | for any writers, aborts and page sizes, what a reader was given is exactly the listing of committed (matching) events up to its cursor |
| EventCursor.DeliveredOnColumns | server/src/db/step-events.ts:118-186 | on the columns: what it was given is strictly ascending in (xid, id) and holds every committed matching event up to the cursor's xid and id, and no other |
| EventCursor.EmptyPageMeansComplete | server/src/db/step-events.ts:148-151 | an empty page while no transaction is open means the reader has every committed matching event |
| EventCursor.IdCursorLosesIff | server/src/db/step-events.ts:121-126 | a reader paging on id alone can lose an event exactly when some transaction already holds an id at or below the one it has reached |
| EventCursor.OutOfOrderCommit | server/src/db/step-events.ts:121-126 | the concrete run: the higher id commits first, an id reader passes it and loses the lower one, the watermark reader gets both in order |
| EventStream.ResolveReturnsPosition | server/src/db/step-events.ts:188-207 | the id of a committed event resolves to exactly its position |
| EventStream.ResolutionOnColumns | server/src/db/step-events.ts:197-207 | 0 or less is the start; an id under which an event is committed is that event's xid and id; any other id is refused |
| EventStream.CommittedStays | server/src/db/schema.ts:196-199 | a committed event stays committed and keeps resolving to the same position |
| EventStream.PrefixOfListing | server/src/api/events.ts:219-223 | the beginning of a listing is the listing up to its own last event, so a cut mid-page is a valid position |
| EventStream.ResumeLosesNothing | server/src/api/events.ts:173-229 | over all its connections, however cut, a client has received one gap-free, duplicate-free beginning of the (xid, id) order, and can reconnect exactly there (Last-Event-ID, section 9.2 of the WHATWG HTML Living Standard) |
| EventStream.ReceivedOnColumns | server/src/api/events.ts:173-229 | what a client received is strictly ascending in (xid, id), and every committed matching event it lacks comes after its last |
| EventStream.AlwaysReconnects | server/src/api/events.ts:173-187 | a client that is not connected can always connect, at exactly the last event it received |
| EventStream.PollWritesThePage | server/src/api/events.ts:211-223 | every poll of a connection writes out the page due at its cursor and moves the cursor to its end |
| EventStream.ReceivesInOrder | server/src/api/events.ts:219-221 | what a connection wrote arrives event by event, in the order written |
| EventStream.CaughtUpClientHasEverything | server/src/api/events.ts:211-227 | a client that has read what was written, when a poll finds nothing and nothing is running, has every committed matching event |
| EventStream.RestPagesMeet | server/src/api/events.ts:139-144 | nextAfterId handed back at any later time resolves to exactly where the page stopped |
| EventStream.RestPageExtends | server/src/api/events.ts:116-145 | a page from a settled position extends its listing without a gap |
| EventStream.RestOnColumns | server/src/api/events.ts:116-145 | the reply is a refusal exactly for an unknown id or a limit below 1, else the page due at the resolved position, of 100 events unless asked otherwise |
| EventServer.EventTable.SnapshotXmin | server/src/db/step-events.ts:173-173 | the watermark is the least transaction id not known to be finished |
| EventServer.EventTable.ListStepEvents | server/src/db/step-events.ts:158-186 | the query returns exactly the specified page, ascending in (xid, id), complete and bounded as EventCursor.PageOnColumns says |
| EventServer.EventTable.ResolveEventCursor | server/src/db/step-events.ts:197-207 | the lookup returns the position of a committed id, the start for 0 or less, and nothing for an unknown id |
| EventServer.EventTable.Write | server/src/db/step-events.ts:90-103 | the table changed in place by one writer is the specification's next table |
| EventServer.PollOnce | server/src/api/events.ts:211-223 | one read sends the page of 200 due at the cursor, event by event and all of it, and only then moves the cursor to its end |
| EventServer.ServeStream | server/src/api/events.ts:184-229 | a connection refuses an unknown id before sending anything; otherwise it goes through its turns, polling again after every sleep, until the client has gone or a read fails, and sends exactly what those turns say |
| EventServer.TurnOnColumns | server/src/api/events.ts:211-227 | one turn: the end with nothing sent if the read fails or the client goes away in it; else the whole page of 200 that is due, then the sleep |
| EventServer.TurnsExtendListing | server/src/api/events.ts:184-229 | however a connection ends, what the client had plus what was sent is the listing up to where it ends |
| EventServer.ReconnectContinues | server/src/api/events.ts:173-182 | any prefix received resumes, whatever was written in between, at exactly where it stopped and below the watermark |
| EventServer.ResumingAheadLosesIff | server/src/api/events.ts:92-102 | resuming a stream, filtered to a step or not, at a committed event that was not delivered loses another one in some continuation exactly when a transaction with a smaller xid is still running |
| ProtocolEvents.EveryActionWrites | server/src/db/step-events.ts:75-103 | every protocol action is, for the event table, a sequence of writer actions: the cursor's environment includes the whole protocol |
| ProtocolEvents.WatcherLosesNothing | server/src/db/step-events.ts:118-146 | cursor completeness over runs of the protocol itself |
| ProtocolEvents.WatchedOnColumns | server/src/db/step-events.ts:118-146 | the same on the columns: ascending in (xid, id), all committed events of the protocol up to the cursor, and every further read delivers the page due |
| ProtocolEvents.StepEventsAreSorted | server/src/db/step-events.ts:152-154 | a step's events in transition order are sorted by (xid, id) |
| ProtocolEvents.CaughtUpReaderKnowsTheStep | server/src/db/step-events.ts:168-178 | a caught-up reader of one step was given exactly its transitions in order, and replaying them gives the step as it is |
| EffectStore.StepKeeps | server/src/db/idempotent-effect.ts:135-170 | every statement of every caller keeps the store invariant; rows and their inserters are only ever added |
| EffectStore.RunKeeps | server/src/db/idempotent-effect.ts:112-171 | that invariant in every reachable state |
| EffectStore.CallersAgree | server/src/db/idempotent-effect.ts:112-171 | every returned outcome: refused exactly for a blank or over-long key or a blank type; conflict exactly when the stored type or request differs; else the stored result, made of this request, applied exactly for the call that inserted it; never "neither inserted nor found" |
| EffectStore.CandidateIsResult | server/src/db/idempotent-effect.ts:133-133 | a result is the caller's identifier and the request's value, if it has one, and nothing else |
| EffectStore.RowsAlwaysTell | server/src/db/idempotent-effect.ts:135-140 | in every reachable store each row holds, under its key, the type and request of the one call that inserted it and the result made of that request and that call's identifier |
| EffectStore.RowsNeverChange | server/src/db/idempotent-effect.ts:66-69 | a stored effect and who applied it are the same in every continuation |
| EffectStore.AtMostOneApplication | server/src/db/idempotent-effect.ts:26-34 | every later success under a key returns the first result and only the inserting call reports that it applied |
| EffectStore.WaitersAreReleased | server/src/db/idempotent-effect.ts:81-84 | a caller waiting for an uncommitted insert is released by its end: to read if it committed, to insert if it aborted |
| EffectStore.EffectsLinearize | server/src/db/idempotent-effect.ts:76-95 | there is one order of the calls in which the atomic insert-or-compare gives every recorded outcome and the table |
| EffectStore.OrderRespectsRealTime | server/src/db/idempotent-effect.ts:76-95 | in that order a call that had returned before another was made comes before it |
| EffectStore.EffectsHappenOnce | server/src/db/idempotent-effect.ts:76-95 | no call takes effect twice in that order |
| EffectStore.OutcomesAreRecorded | server/src/db/idempotent-effect.ts:142-170 | what a caller is told is what was recorded for it in that order |
| EffectStore.OneStatementReturnsNothingIff | server/src/db/idempotent-effect.ts:89-95 | in any run the one-statement variant returns no row exactly when the call that inserted the key took its point after this call's snapshot action |
| EffectStore.SecondStatementFinds | server/src/db/idempotent-effect.ts:147-170 | the second statement then always finds the row and answers by comparing it |
| EffectStore.OneStatementLosesRow | server/src/db/idempotent-effect.ts:89-95 | the run in which it happens: two callers of one new key |
| EffectCalls.EffectTable.Resolve | server/src/db/idempotent-effect.ts:135-140 | an insert meets its key: occupied, held by a running insert (waits) or free |
| EffectCalls.EffectTable.Read | server/src/db/idempotent-effect.ts:147-170 | the second statement answers from what is committed now |
| EffectCalls.EffectTable.CommitInsert | server/src/db/idempotent-effect.ts:135-140 | committing the insert adds the row and nothing else |
| EffectCalls.ApplyIdempotentEffect | server/src/db/idempotent-effect.ts:112-171 | one call among any others: it waits only while, at each look, somebody else is inserting the key; let through, it returns the one stored result of its key, carrying this request's value, says truthfully whether it stored it, with its own identifier and instant, and refuses exactly a different type or request; an invalid request touches nothing |
| EffectCalls.InsertStatement | server/src/db/idempotent-effect.ts:81-84 | the insert is let through at the first look that meets no other uncommitted insert of its key |
| StepReceipts.KeysIdentifySteps | server/src/worker/execute-step.ts:117-124 | two step ids have the same key exactly when they are equal ignoring case |
| StepReceipts.UuidIsFiveGroups | server/src/worker/execute-step.ts:120-122 | an id is accepted exactly when it is 8-4-4-4-12 hexadecimal digits joined by hyphens |
| StepReceipts.KeyText | server/src/worker/execute-step.ts:119-124 | the key is step:, the id without capitals, and :demo_receipt; other ids have none |
| StepReceipts.PayloadIsAcceptedIff | server/src/worker/execute-step.ts:93-115 | a payload is accepted exactly if it is an object with a non-empty text value, a delay from 0 to 60000 and no idempotencyKey |
| StepReceipts.RequestCarries | server/src/worker/execute-step.ts:140-146 | the request exists exactly for an accepted payload and a UUID, has the type demo_receipt, and carries the lower-case step id and the payload's value, no more |
| StepReceipts.RequestIgnoresSpelling | server/src/worker/execute-step.ts:140-149 | the request is the same however the id is spelled, and the store does not refuse its key |
| StepReceipts.WorldKeeps | server/src/worker/execute-step.ts:140-149 | protocol and store together: every call asks what its step's row asks, every stored receipt was asked for by an execution of its step, every completion carries a receipt's result |
| StepReceipts.ExecutionMakesItsCall | server/src/worker/execute-step.ts:140-148 | executing a step with an accepted payload makes exactly its call, from any process and under any spelling |
| StepReceipts.ReturnedCallReports | server/src/worker/worker-loop.ts:243-249 | an execution that has returned can report the step complete with exactly what it returned |
| StepReceipts.TheRestIsFree | server/src/worker/execute-step.ts:151-175 | everything else either half can do is free to happen beside it, except completing an effect step with a result nobody returned |
| StepReceipts.NoExecutionConflicts | server/src/worker/execute-step.ts:134-139 | over any crashes, recoveries, retries and stale executions no execution ever meets the conflict error or any other, and each returns its step's one receipt, with the value of the step's own payload |
| StepReceipts.OneApplicationPerStep | server/src/worker/execute-step.ts:117-119 | over all generations of a step at most one execution is told that it applied the effect |
| StepReceipts.ReceiptsAreSeparate | server/src/worker/execute-step.ts:117-124 | different steps never share a receipt |
| StepReceipts.ReceiptNeverChanges | server/src/worker/execute-step.ts:134-139 | what one execution returned is what every later execution of the step returns |
| StepReceipts.SucceededShowsItsReceipt | server/src/db/complete-step.ts:101-114 | a SUCCEEDED idempotent_effect step's result is its stored receipt's result: an identifier and the value of the step's own payload |
| StepReceipts.WorldProjects | server/src/worker/execute-step.ts:151-175 | a run of the composition is, on either side, a run of that side alone, so all results about each apply |
| WorkerLoop.EveryRunIsDisciplined | server/src/worker/worker-loop.ts:92-121 | in every interleaving of loop, renewal task and shutdown: no report while a renewal is in flight, no renewal after a rejected one or after execution ended, one active claim, renewals never overlap |
| WorkerLoop.NextKeeps | server/src/worker/worker-loop.ts:180-262 | that discipline is kept by every resumption of either task |
| WorkerLoop.OneReportPerClaim | server/src/worker/worker-loop.ts:216-261 | between a grant and the next claim there is exactly one report, complete if execution returned and fail if it threw, for that grant, retryable unless its input was invalid, with no renewal unanswered |
| WorkerLoop.AtMostOneReport | server/src/worker/worker-loop.ts:222-249 | a disciplined worker never reports a grant twice |
| WorkerLoop.NoRenewalAfterRejection | server/src/worker/worker-loop.ts:97-109 | after a rejected renewal the next renewal belongs to a later grant |
| WorkerLoop.EveryTimerRenewsIff | server/src/worker/worker-loop.ts:92-114 | while a step executes, a renewal timer sends a renewal of it if and only if none is unanswered and none of this grant was rejected: a success or a thrown write does not end the renewing |
| WorkerLoop.AnswersAreNoted | server/src/worker/worker-loop.ts:96-113 | whatever a renewal is answered, execution goes on |
| WorkerLoop.ExecutionIsReported | server/src/worker/worker-loop.ts:201-249 | the end of the execution is reported at once, or as soon as the renewal in flight is answered, complete or fail as it ended |
| WorkerLoop.LoopGoesOn | server/src/worker/worker-loop.ts:180-199 | after every report and every idle wait the loop claims again, and takes up what it is granted, until shutdown; an idle loop leaves at shutdown |
| WorkerLoop.LeftOnlyBy | server/src/worker/worker-loop.ts:180-181 | the loop is left only by shutdown or by a claim that threw |
| WorkerLoop.NoClaimAfterShutdown | server/src/worker/worker-loop.ts:145-149 | after the shutdown signal no claim is sent |
| WorkerLoop.ShutdownDoesNotAbandon | server/src/worker/worker-loop.ts:145-149 | a claimed step is reported even if shutdown was signalled, and the loop is never left with an unreported claim |
| WorkerProcess.Process.Background | server/src/worker/worker-loop.ts:92-114 | one event of the renewal task or the signal does to the fields exactly what the specification says |
| WorkerProcess.Process.ExecuteAndReport | server/src/worker/worker-loop.ts:201-261 | one claimed step from renewal start to the answer of its report performs the specification's steps |
| WorkerProcess.Process.RunWorkerLoop | server/src/worker/worker-loop.ts:168-263 | the loop, given any sequence of happenings, reaches the specification's state and leaves a disciplined trace |
| Database.Database.LockRow | server/src/db/renew-step-lease.ts:91-96 | SELECT ... FOR UPDATE in place: waits, finishes without row, or takes the lock and the xid |
| Database.Database.FirstLockable | server/src/db/recover-expired-steps.ts:94-102 | the SKIP LOCKED query executed row by row returns exactly the specified batch |
| Database.Database.WriteBatch | server/src/db/recover-expired-steps.ts:103-129 | a sweep's statement, executed row by row, writes exactly what Sweeps.SweepStepOnColumns says |
| Database.Database.SelectSkipLocked | server/src/db/claim-step.ts:140-151 | selection, locks and, for a sweep, writes, in place, as one protocol action; the invariant is kept |
| Database.Database.Write | server/src/db/complete-step.ts:101-114 | the guarded UPDATE in place: staged if its predicate holds under the lock, else nothing |
| Database.Database.RecordEvent | server/src/db/step-events.ts:90-103 | the event insert of an owner write or claim, in its own transaction |
| Database.Database.Commit | server/src/db/renew-step-lease.ts:90-121 | COMMIT installs the staged rows and their history and releases the locks |
| Database.Database.Perform | server/src/db/claim-step.ts:127-235 | each statement changes the fields to exactly the protocol's next state and keeps the invariant |
| Calls.Pause | server/src/db/renew-step-lease.ts:41-56 | whatever others do between two statements leaves the transaction's own record alone and commits nothing in its name |
| Calls.LockRow | server/src/db/renew-step-lease.ts:44-47 | the lock is asked for at every look and granted at the first that finds no other holder |
| Calls.OwnerTransaction | server/src/db/complete-step.ts:93-129 | lock, authorize, write, record, COMMIT among any other actions: it waits only while, at each request, somebody else holds the row; then it reports a write, which it committed for this row and these credentials, exactly when the predicate held at its evaluation under the lock |
| Calls.RenewStepLease | server/src/db/renew-step-lease.ts:84-122 | a renewal gets the row as soon as it is free and extends the deadline exactly when the lease is live at its evaluation under the lock, by the lease duration from that instant, changing nothing else and recording no event; refused, it commits nothing |
| Calls.CompleteStepSuccess | server/src/db/complete-step.ts:82-137 | a completion gets the row as soon as it is free and, exactly when the lease is live under the lock, stores the result, clears owner and deadline and records STEP_SUCCEEDED; else it raises the consistency error having committed nothing |
| Calls.RecordStepFailure | server/src/db/record-step-failure.ts:41-102 | a failure report gets the row as soon as it is free and is recorded exactly when the lease is live under the lock: a retry exactly when allowed and budget remains, after this attempt's backoff, else dead-lettered with the right reason; the returned row is the committed one |
| Calls.ClaimNextStep | server/src/db/claim-step.ts:109-236 | a claim returns the first row, by priority, availability and id, of those READY, available and in budget in its snapshot and still so unlocked, at the next generation and attempt with its event, and nothing only if there was none; a blank worker id is refused before any statement |
| RecoveryLoop.Sweep | server/src/db/recover-expired-steps.ts:73-136 | a sweep among any other actions returns exactly the rows it locked, the first it could take in its order, each resolved once in exactly the columns of a recovery or promotion and with exactly its event; failed by the database it leaves nothing |
| RecoveryLoop.RunRecoveryLoop | server/src/coordinator/recovery-loop.ts:43-67 | each pass tries recovery and then promotion, whatever became of either; the loop stops after the first pass in which the signal aborted and starts none if it had aborted before |
| RecoveryLoop.FailuresAreIndependent | server/src/coordinator/recovery-loop.ts:53-66 | however often one sweep fails, the other works off its own backlog at a hundred rows a pass, whatever others do while the loop sleeps that leaves no lock and its due rows as they are |
| Audit.SortAndCompare | benchmarks/contention.ts:102-108 | sorting and comparing with 1..n succeeds exactly when the versions are 1..n once each |
| Audit.HasGenerationMismatch | benchmarks/contention.ts:102-108 | the row check reports a mismatch exactly when the granted versions are not 1..lease_version once each |
| Audit.IndexClientGrants | benchmarks/contention.ts:61-73 | the two maps file every told grant under its key and its step, in order |
| Audit.CountUnmatchedGrants | benchmarks/contention.ts:87-91 | counts exactly the generations whose single client grant and single event do not agree |
| Audit.CountUnclaimedEvents | benchmarks/contention.ts:92-93 | counts exactly the generations with an event and no client grant |
| Audit.CheckRows | benchmarks/contention.ts:98-113 | counts exactly the rows with a generation mismatch and the running rows not owned by the claimer of their generation |
| Audit.CountGrants | benchmarks/contention.ts:116-116 | adding up the owner lists over all keys gives the number of grants told: none lost, none counted twice |
| Audit.SpanGenerations | benchmarks/contention.ts:127-131 | the reported minimum and maximum are attained and bound every row's generation; their sum is the rows' sum |
| Audit.VerifyOwnership | benchmarks/contention.ts:60-132 | the report is exactly those counts, the number of grants told, the number of rows, and the span and sum of their generations |
| AuditTheorems.GenerationsOkIff | benchmarks/contention.ts:104-108 | the row check passes exactly when each generation 1..lease_version was granted to exactly one claimer and no other was granted |
| AuditTheorems.NoMismatchIff | benchmarks/contention.ts:52-59 | no mismatch is reported exactly when every generation 1..lease_version of every row was granted once and no other, grants and events agree on every generation, and each running row names the claimer first told of its generation |
| AuditTheorems.OwnerOkIff | benchmarks/contention.ts:109-112 | the owner check passes exactly when a running row names the claimer first told of its generation |
| AuditTheorems.ToldIff | benchmarks/contention.ts:63-73 | what was told is exactly the grants in the claimers' records, under their ids |
| AuditTheorems.RunGrantsEachOnce | server/src/db/claim-step.ts:185-197 | any run grants each step at generation 0 its generations 1..lease_version once each, in order |
| AuditTheorems.CrashFreeRunPasses | benchmarks/contention.ts:52-59 | every run from rows at generation 0 in which each committed claim was recorded by its claimer satisfies the auditor, in whatever order records and events come |
| AuditTheorems.AuditorIsExact | benchmarks/contention.ts:52-59 | over any run from rows at generation 0, the auditor is satisfied if and only if what the claimers were told is, as a multiset, what the run granted |

## Left out

- HTTP, Fastify, query-string and SSE framing, the React page, CORS: only the cursor logic of the routes is modelled.
- Connection pools, TLS, credential rotation, configuration: plumbing without coordination decisions.
- Worker heartbeats: no ownership decision reads them.
- Demos, spike worker, throughput benchmarks, Terraform, Docker: orchestration. Of the contention benchmark only the auditor is modelled, without the samples in its report and the division and rounding of its mean.
- SHA-256, UUID generation and JSON text: values. `Base.Json` keeps text, whole numbers and objects; every other kind of JSON value is refused wherever a payload is parsed, as its closest kept kind is.
- `hash_after_delay` and `fail_then_hash`: pure executors without shared state; the worker loop takes any output or error.
- PENDING and CANCELLED: no code writes them; they are statuses of the transition table only.
- PostgreSQL beyond row locks, statement snapshots, SKIP LOCKED, unique-key waits, xids and xmin; planner, indexes, clock rollback.
- Error-text truncation in event data, `created_at`, log output, timers and sleeping: no modelled property depends on them.
- Lease durations are any integer: the database's `int` cast of the parameter, and of the backoff (at most 4000), cannot overflow on the values the code passes.
- Calls.OwnerTransaction: a connection that fails in mid-call is not one of its outcomes; `Protocol` covers it as ROLLBACK at any point of any run.
- Calls.OwnerTransaction's outcome `StillWaiting`, and the missing outcome of EffectCalls.ApplyIdempotentEffect, stand for a call still waiting when what is given of its surroundings ends.
- Calls.ClaimNextStep: likewise follows one call to its end; that its consistency error cannot arise is part of its proof.
- RecoveryLoop.RunRecoveryLoop: what happens in each pass, the signal's abort included, is its argument; the log lines are not modelled.
- EventServer.ServeStream: what happens in each turn, the client's leaving and a failed read included, is its argument.
- EffectStore.EffectsLinearize: a call whose process dies may or may not have a place in the order, as its insert may or may not have committed.
