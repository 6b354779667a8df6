/**
 * The six writes column by column: when each is accepted, what it leaves in the row and which event it
 * records. The other modules speak of writes through Accepts, Effect and EventOf; this one says what those are.
 */
module Writes {
  import opened Base
  import opened Lifecycle
  import opened StepSpec
  import opened RowHistory
  import opened Protocol
  import opened RunTheorems

  // ---------------------------------------------------------------- when a write is accepted

  /** The owner, at its generation, before its deadline. */
  predicate OwnsUntil(r: Row, worker: WorkerId, version: int, at: Instant) {
    r.status == Running && r.owner == Some(worker) && r.leaseVersion == version && r.deadline.Some? && at < r.deadline.value
  }

  predicate ClaimableSince(r: Row, began: Instant) {
    r.status == Ready && r.availableAt <= began && r.attemptCount < r.maxAttempts
  }

  predicate LapsedBy(r: Row, at: Instant) {
    r.status == Running && r.deadline.Some? && r.deadline.value <= at
  }

  predicate RetryDueBy(r: Row, at: Instant) {
    r.status == RetryWait && r.availableAt <= at
  }

  /** Acceptance depends on these columns and on nothing else. */
  lemma AcceptedIff(op: Op, r: Row, began: Instant, at: Instant)
    ensures IsOwnerOp(op) ==> (Accepts(op, r, began, at) <==> OwnsUntil(r, op.worker, op.version, at))
    ensures op.Claim? ==> (Accepts(op, r, began, at) <==> ClaimableSince(r, began))
    ensures op.Recover? ==> (Accepts(op, r, began, at) <==> LapsedBy(r, at))
    ensures op.Promote? ==> (Accepts(op, r, began, at) <==> RetryDueBy(r, at))
  {
  }

  /** `500 * 2^(attempt - 1)`, at most 4000, and 500 before any attempt. */
  function CappedBackoffMs(attempt: int): int {
    if attempt <= 1 then 500 else if attempt == 2 then 1000 else if attempt == 3 then 2000 else 4000
  }

  lemma BackoffTable(attempt: int)
    ensures BackoffMs(attempt) == CappedBackoffMs(attempt)
  {
    assert Power2(0) == 1 && Power2(1) == 2 && Power2(2) == 4 && Power2(3) == 8;
  }

  // ---------------------------------------------------------------- what a committed write is

  predicate HasBody(e: Entry, worker: Option<WorkerId>, kind: EventKind, version: int, attempt: int) {
    e.event.Some? && e.event.value.body == EventBody(worker, kind, version, attempt)
  }

  /** An eligible row, its owner, its next generation and attempt, its lease and its event. */
  predicate IsClaim(e: Entry, workerId: WorkerId, leaseMs: int) {
    && e.before.status == Ready && e.before.availableAt <= e.began && e.before.attemptCount < e.before.maxAttempts
    && e.after == e.before.(status := Running, owner := Some(workerId), leaseVersion := e.before.leaseVersion + 1,
                            attemptCount := e.before.attemptCount + 1, deadline := Some(e.at + leaseMs * 1000), updatedAt := e.began)
    && HasBody(e, Some(workerId), StepClaimed, e.before.leaseVersion + 1, e.before.attemptCount + 1)
  }

  /** The deadline moved, from an instant before the old one, and no event. */
  predicate IsRenewal(e: Entry, workerId: WorkerId, leaseVersion: int, leaseMs: int) {
    && OwnsUntil(e.before, workerId, leaseVersion, e.at)
    && e.after == e.before.(deadline := Some(e.at + leaseMs * 1000), updatedAt := e.began)
    && e.event == None
  }

  predicate IsCompletion(e: Entry, workerId: WorkerId, leaseVersion: int, output: Json) {
    && OwnsUntil(e.before, workerId, leaseVersion, e.at)
    && e.after == e.before.(status := Succeeded, result := Some(output), owner := None, deadline := None, updatedAt := e.began)
    && HasBody(e, Some(workerId), StepSucceeded, leaseVersion, e.before.attemptCount)
  }

  /** A retry exactly when allowed and budget remains, after this attempt's backoff; else the step is dead. */
  predicate IsFailure(e: Entry, workerId: WorkerId, leaseVersion: int, error: string, retryable: bool) {
    var retry := retryable && e.before.attemptCount < e.before.maxAttempts;
    var availableAt := if retry then e.at + CappedBackoffMs(e.before.attemptCount) * 1000 else e.before.availableAt;
    && OwnsUntil(e.before, workerId, leaseVersion, e.at)
    && e.after == e.before.(status := if retry then RetryWait else DeadLettered, owner := None, deadline := None,
                            lastError := Some(error), updatedAt := e.began, availableAt := availableAt)
    && HasBody(e, Some(workerId),
               if retry then StepRetryScheduled(availableAt)
               else StepDeadLettered(if retryable then "attempt_budget_exhausted" else "non_retryable_failure"),
               leaseVersion, e.before.attemptCount)
  }

  /** An expired lease ended: READY with budget left, else dead; the event names the owner that lost it. */
  predicate IsRecovery(e: Entry) {
    var left := e.before.attemptCount < e.before.maxAttempts;
    && e.before.status == Running && e.before.deadline.Some? && e.before.deadline.value <= e.at
    && e.after == e.before.(status := if left then Ready else DeadLettered, owner := None, deadline := None, updatedAt := e.began)
    && HasBody(e, e.before.owner, if left then LeaseRecovered else StepDeadLettered("lease_expired_attempt_budget_exhausted"),
               e.before.leaseVersion, e.before.attemptCount)
  }

  /** A due retry made READY, by nobody in particular. */
  predicate IsPromotion(e: Entry) {
    && e.before.status == RetryWait && e.before.availableAt <= e.at
    && e.after == e.before.(status := Ready, updatedAt := e.began)
    && HasBody(e, None, RetryReady, e.before.leaseVersion, e.before.attemptCount)
  }

  /** The entry is the write its operation names, in every column and in its event. */
  predicate IsItsWrite(e: Entry) {
    match e.op
    case Claim(worker, leaseMs) => IsClaim(e, worker, leaseMs)
    case Renew(worker, version, leaseMs) => IsRenewal(e, worker, version, leaseMs)
    case Complete(worker, version, result) => IsCompletion(e, worker, version, result)
    case Fail(worker, version, error, retryable) => IsFailure(e, worker, version, error, retryable)
    case Recover => IsRecovery(e)
    case Promote => IsPromotion(e)
  }

  lemma EntryIsItsWrite(e: Entry)
    requires EntryOk(e) && Recorded(e)
    ensures IsItsWrite(e)
  {
    BackoffTable(e.before.attemptCount);
  }

  /** Every write committed in any run, whoever made it, is in every column what its statement says. */
  lemma CommittedWritesAreTheirs(rows: map<StepId, Row>, clock: Instant, actions: seq<Action>, k: nat)
    requires k < |After(rows, clock, actions).history|
    ensures IsItsWrite(After(rows, clock, actions).history[k])
  {
    EntriesAreRecorded(rows, clock, actions, k);
    EntryIsItsWrite(After(rows, clock, actions).history[k]);
  }

  // ---------------------------------------------------------------- which rows a statement can lock, and in which order

  /** The row passes the statement's WHERE clause at this instant of a transaction begun at `began`. */
  predicate Passes(job: Job, r: Row, began: Instant, at: Instant) {
    match job
    case ClaimNext(_, _) => ClaimableSince(r, began)
    case RecoverSweep => LapsedBy(r, at)
    case PromoteSweep => RetryDueBy(r, at)
    case _ => false
  }

  /** The row passed in the snapshot, is not locked, and still passes. */
  predicate CanTake(s: Db, job: Job, began: Instant, snapshot: map<StepId, Row>, scannedAt: Instant, id: StepId) {
    && id in snapshot && Passes(job, snapshot[id], began, scannedAt)
    && id !in s.locks && id in s.rows && Passes(job, s.rows[id], began, s.clock)
  }

  /** These are the rows a SKIP LOCKED statement chooses from. */
  lemma LockableIff(s: Db, job: Job, began: Instant, snapshot: map<StepId, Row>, scannedAt: Instant, id: StepId)
    requires IsSelecting(job)
    ensures id in Lockable(s, job, began, snapshot, scannedAt) <==> CanTake(s, job, began, snapshot, scannedAt, id)
  {
    if id in snapshot { AcceptedIff(JobOp(job), snapshot[id], began, scannedAt); }
    if id in s.rows { AcceptedIff(JobOp(job), s.rows[id], began, s.clock); }
  }
}
