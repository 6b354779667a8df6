/**
 * The atomic meaning of the six writes to `steps`. Each write is one statement, so it reads the
 * clock once (`at`); `began` is the start of its transaction, which is what `now()` returns.
 * This module says nothing about locks or interleaving: Protocol.dfy does.
 */
module StepSpec {
  import opened Base
  import opened Lifecycle

  datatype Row = Row(
    status: Status,
    priority: int,
    availableAt: Instant,
    owner: Option<WorkerId>,
    leaseVersion: int,
    attemptCount: int,
    maxAttempts: int,
    lastError: Option<string>,
    deadline: Option<Instant>,
    taskType: string,
    payload: Json,
    result: Option<Json>,
    updatedAt: Instant)

  datatype Op =
    | Claim(worker: WorkerId, leaseMs: int)
    | Renew(worker: WorkerId, version: int, leaseMs: int)
    | Complete(worker: WorkerId, version: int, result: Json)
    | Fail(worker: WorkerId, version: int, error: string, retryable: bool)
    | Recover
    | Promote

  datatype EventKind =
    | StepClaimed
    | StepSucceeded
    | StepRetryScheduled(availableAt: Instant)
    | StepDeadLettered(reason: string)
    | LeaseRecovered
    | RetryReady

  /** What an event says about its transition; Protocol.dfy adds the id and xid it is stored under. */
  datatype EventBody = EventBody(worker: Option<WorkerId>, kind: EventKind, version: int, attempt: int)

  /** An operation that a worker performs with the credentials of a generation. */
  predicate IsOwnerOp(op: Op) {
    op.Renew? || op.Complete? || op.Fail?
  }

  /** The authorization predicate of renewal, completion and failure reports. */
  predicate LiveLease(r: Row, worker: WorkerId, version: int, at: Instant) {
    && r.status == Running
    && r.owner == Some(worker)
    && r.leaseVersion == version
    && r.deadline.Some? && r.deadline.value > at
  }

  predicate Accepts(op: Op, r: Row, began: Instant, at: Instant) {
    match op
    case Claim(_, _) => r.status == Ready && r.availableAt <= began && r.attemptCount < r.maxAttempts
    case Renew(worker, version, _) => LiveLease(r, worker, version, at)
    case Complete(worker, version, _) => LiveLease(r, worker, version, at)
    case Fail(worker, version, _, _) => LiveLease(r, worker, version, at)
    case Recover => r.status == Running && r.deadline.Some? && r.deadline.value <= at
    case Promote => r.status == RetryWait && r.availableAt <= at
  }

  function Power2(n: nat): int {
    if n == 0 then 1 else 2 * Power2(n - 1)
  }

  /** `500 * power(2, least(greatest(attempt_count - 1, 0), 3))`, in milliseconds. */
  function BackoffMs(attemptCount: int): int {
    500 * Power2(Min(Max(attemptCount - 1, 0), 3))
  }

  predicate SchedulesRetry(r: Row, retryable: bool) {
    retryable && r.attemptCount < r.maxAttempts
  }

  function Effect(op: Op, r: Row, began: Instant, at: Instant): Row
    requires Accepts(op, r, began, at)
  {
    match op
    case Claim(worker, leaseMs) =>
      r.(status := Running, owner := Some(worker), leaseVersion := r.leaseVersion + 1,
         attemptCount := r.attemptCount + 1, deadline := Some(at + Ms(leaseMs)), updatedAt := began)
    case Renew(_, _, leaseMs) =>
      r.(deadline := Some(at + Ms(leaseMs)), updatedAt := began)
    case Complete(_, _, result) =>
      r.(status := Succeeded, result := Some(result), owner := None, deadline := None, updatedAt := began)
    case Fail(_, _, error, retryable) =>
      r.(status := if SchedulesRetry(r, retryable) then RetryWait else DeadLettered,
         owner := None, deadline := None, lastError := Some(error),
         availableAt := if SchedulesRetry(r, retryable) then at + Ms(BackoffMs(r.attemptCount)) else r.availableAt,
         updatedAt := began)
    case Recover =>
      r.(status := if r.attemptCount < r.maxAttempts then Ready else DeadLettered,
         owner := None, deadline := None, updatedAt := began)
    case Promote =>
      r.(status := Ready, updatedAt := began)
  }

  /** The event each write inserts in its own transaction. A renewal is not a transition: it has none. */
  function EventOf(op: Op, before: Row, after: Row): Option<EventBody> {
    match op
    case Claim(worker, _) =>
      Some(EventBody(after.owner, StepClaimed, after.leaseVersion, after.attemptCount))
    case Renew(_, _, _) => None
    case Complete(worker, _, _) =>
      Some(EventBody(Some(worker), StepSucceeded, after.leaseVersion, after.attemptCount))
    case Fail(worker, _, _, retryable) =>
      var kind := if after.status == RetryWait then StepRetryScheduled(after.availableAt)
                  else StepDeadLettered(if retryable then "attempt_budget_exhausted" else "non_retryable_failure");
      Some(EventBody(Some(worker), kind, after.leaseVersion, after.attemptCount))
    case Recover =>
      var kind := if after.status == Ready then LeaseRecovered
                  else StepDeadLettered("lease_expired_attempt_budget_exhausted");
      Some(EventBody(before.owner, kind, after.leaseVersion, after.attemptCount))
    case Promote =>
      Some(EventBody(None, RetryReady, after.leaseVersion, after.attemptCount))
  }

  /** A row as it is inserted: no owner, no deadline, no result, attempt budget left. */
  predicate CleanRow(r: Row) {
    && r.status != Running
    && r.owner == None && r.deadline == None && r.result == None
    && 0 <= r.leaseVersion
    && 0 <= r.attemptCount < r.maxAttempts
  }

  /** The CHECK constraints of `steps`, and the stronger facts the writes maintain from clean rows. */
  predicate WellFormedRow(r: Row) {
    && (r.status == Running <==> r.owner.Some?)
    && (r.status == Running <==> r.deadline.Some?)
    && (r.status == Running ==> 0 < r.leaseVersion && 0 < r.attemptCount)
    && (r.status in {Ready, RetryWait} ==> r.attemptCount < r.maxAttempts)
    && (r.result.Some? ==> r.status == Succeeded)
    && 0 <= r.leaseVersion && 0 <= r.attemptCount <= r.maxAttempts
  }

  lemma EffectKeepsWellFormed(op: Op, r: Row, began: Instant, at: Instant)
    requires WellFormedRow(r) && Accepts(op, r, began, at)
    ensures WellFormedRow(Effect(op, r, began, at))
  {
  }

  /** Which columns each write may touch: everything else is carried over. */
  lemma EffectFrame(op: Op, r: Row, began: Instant, at: Instant)
    requires Accepts(op, r, began, at)
    ensures var n := Effect(op, r, began, at);
      && n.priority == r.priority && n.maxAttempts == r.maxAttempts
      && n.taskType == r.taskType && n.payload == r.payload
      && n.updatedAt == began
      && (!op.Complete? ==> n.result == r.result)
      && (!op.Fail? ==> n.lastError == r.lastError && n.availableAt == r.availableAt)
      && (!op.Claim? ==> n.leaseVersion == r.leaseVersion && n.attemptCount == r.attemptCount)
      && (op.Complete? ==> n.result == Some(op.result))
      && (op.Fail? ==> n.lastError == Some(op.error))
  {
  }

  /**
   * The guards route every persisted status change through the lifecycle table, and RUNNING -> READY
   * is recovery alone.
   */
  lemma WritesFollowTheLifecycle(op: Op, r: Row, began: Instant, at: Instant)
    requires Accepts(op, r, began, at)
    ensures var n := Effect(op, r, began, at);
      && (op.Renew? <==> n.status == r.status)
      && (!op.Renew? ==> TransitionStepStatus(r.status, n.status) == Moved(n.status))
      && (r.status == Running && n.status == Ready ==> op.Recover?)
      && (r.status == Running && n.status == Succeeded ==> op.Complete?)
      && (r.status == Running && n.status == RetryWait ==> op.Fail?)
  {
  }

  /** At one instant a running lease is either its owner's or recoverable, never both and never neither. */
  lemma OwnerXorRecovery(r: Row, began: Instant, at: Instant)
    requires WellFormedRow(r) && r.status == Running
    ensures LiveLease(r, r.owner.value, r.leaseVersion, at) <==> !Accepts(Recover, r, began, at)
  {
  }

  /** The doubling is capped at four seconds. */
  lemma BackoffIsCappedDoubling(a: nat)
    requires a >= 1
    ensures BackoffMs(a) == Min(500 * Power2(a - 1), 4000)
  {
    if a >= 4 {
      Power2Monotone(3, a - 1);
    }
    assert Power2(0) == 1 && Power2(1) == 2 && Power2(2) == 4 && Power2(3) == 8;
  }

  lemma {:induction false} Power2Monotone(a: nat, b: nat)
    requires a <= b
    ensures 1 <= Power2(a) <= Power2(b)
    decreases b
  {
    if a < b {
      Power2Monotone(a, b - 1);
    } else if a > 0 {
      Power2Monotone(a - 1, a - 1);
    }
  }

  lemma BackoffMonotone(a: int, b: int)
    requires a <= b
    ensures 500 <= BackoffMs(a) <= BackoffMs(b) <= 4000
  {
    Power2Monotone(Min(Max(a - 1, 0), 3), Min(Max(b - 1, 0), 3));
    Power2Monotone(0, Min(Max(a - 1, 0), 3));
    Power2Monotone(Min(Max(b - 1, 0), 3), 3);
    assert Power2(0) == 1 && Power2(1) == 2 && Power2(2) == 4 && Power2(3) == 8;
  }
}
