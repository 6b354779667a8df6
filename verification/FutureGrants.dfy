/**
 * Which refused credentials can ever be accepted: exactly those of a generation that the row has yet to
 * grant and has the budget to grant.
 */
module FutureGrants {
  import opened Base
  import opened Lifecycle
  import opened StepSpec
  import opened RowHistory
  import opened Protocol
  import opened ProtocolInvariant
  import opened RunTheorems
  import opened Sweeps
  import opened Rejection

  // ---------------------------------------------------------------- what a grant takes

  /** A claim spends one attempt and grants one generation, and nothing else does either. */
  lemma {:induction false} GrantsSpendAttempts(row0: Row, tr: seq<Entry>, i: nat, j: nat)
    requires Chain(row0, tr) && i <= j <= |tr|
    ensures var a, b := RowAt(row0, tr, i), RowAt(row0, tr, j);
      b.leaseVersion - a.leaseVersion == b.attemptCount - a.attemptCount
    decreases j - i
  {
    if i < j {
      GrantsSpendAttempts(row0, tr, i, j - 1);
      assert Link(row0, tr, j - 1);
    }
  }

  /** No committed claim names a blank worker. */
  lemma {:induction false} ClaimantsAreNamed(rows: map<StepId, Row>, clock: Instant, actions: seq<Action>, k: nat)
    requires k < |After(rows, clock, actions).history| && After(rows, clock, actions).history[k].op.Claim?
    ensures !IsBlank(After(rows, clock, actions).history[k].op.worker)
  {
    var n := |actions| - 1;
    var s := After(rows, clock, actions[..n]);
    if k < |s.history| {
      StepGrows(s, actions[n]);
      ClaimantsAreNamed(rows, clock, actions[..n], k);
    } else {
      RunKeeps(rows, clock, actions[..n]);
      NewEntriesAreRecorded(s, actions[n], k);
      StagedClaimIsNamed(s, actions[n].tx, k - |s.history|);
    }
  }

  lemma StagedClaimIsNamed(s: Db, tx: TxId, i: nat)
    requires tx in s.txs && TxOk(s, tx) && i < |s.txs[tx].staged| && s.txs[tx].staged[i].op.Claim?
    ensures !IsBlank(s.txs[tx].staged[i].op.worker)
  {
    assert StagedOk(s, tx, s.txs[tx], s.txs[tx].staged[i]);
  }

  ghost predicate LiveIn(s: Db, id: StepId, worker: WorkerId, version: int) {
    id in s.rows && LiveLease(s.rows[id], worker, version, s.clock)
  }

  ghost predicate LiveAfter(s: Db, more: seq<Action>, id: StepId, worker: WorkerId, version: int) {
    LiveIn(Run(s, more), id, worker, version)
  }

  /** The generation lies ahead of the row, within its attempt budget, and somebody named can claim it. */
  predicate Grantable(r: Row, worker: WorkerId, version: int) {
    && r.leaseVersion < version <= r.leaseVersion + (r.maxAttempts - r.attemptCount)
    && r.status in {Ready, RetryWait, Running} && !IsBlank(worker)
  }

  /** Only a grantable generation beyond the row's own can come to be live. */
  lemma LiveLaterWasGrantable(rows: map<StepId, Row>, clock: Instant, actions: seq<Action>, more: seq<Action>,
                              id: StepId, worker: WorkerId, version: int)
    requires CleanRows(rows) && id in rows && id in After(rows, clock, actions).rows
    requires version > After(rows, clock, actions).rows[id].leaseVersion
    requires LiveAfter(After(rows, clock, actions), more, id, worker, version)
    ensures Grantable(After(rows, clock, actions).rows[id], worker, version)
  {
    var s := After(rows, clock, actions);
    var s' := Run(s, more);
    ChainContinues(rows, clock, actions, more, id);
    RunConcat(Start(rows, clock), actions, more);
    var tr0, tr := Trace(s.history, id), Trace(s'.history, id);
    TerminalRowsAreFrozen(rows[id], tr, |tr0|);
    GrantsSpendAttempts(rows[id], tr, |tr0|, |tr|);
    RowsStayWellFormed(rows[id], tr, |tr|);
    ConstantColumns(rows[id], tr, |tr0|);
    ConstantColumns(rows[id], tr, |tr|);
    VersionsNeverDecrease(rows[id], tr, 0, |tr0|);
    var g := GrantOf(rows[id], tr, |tr|);
    TraceMembers(s'.history, id);
    assert tr[g] in tr;
    var k :| 0 <= k < |s'.history| && s'.history[k] == tr[g];
    ClaimantsAreNamed(rows, clock, actions + more, k);
  }

  // ---------------------------------------------------------------- a row that nobody else competes for

  lemma {:induction false} RunKeepsInv(init: map<StepId, Row>, s: Db, more: seq<Action>)
    requires Inv(init, s)
    ensures Inv(init, Run(s, more))
  {
    if more != [] {
      RunKeepsInv(init, s, more[..|more| - 1]);
      StepKeeps(init, Run(s, more[..|more| - 1]), more[|more| - 1]);
    }
  }

  lemma {:induction false} Above(keys: set<nat>) returns (n: nat)
    ensures forall k :: k in keys ==> k < n
  {
    n := 0;
    if keys != {} {
      var k :| k in keys;
      var m := Above(keys - {k});
      n := if m <= k then k + 1 else m;
      assert forall x :: x in keys ==> x == k || x in keys - {k};
    }
  }

  lemma FreshTx(s: Db) returns (tx: TxId)
    ensures tx !in s.txs
  {
    tx := Above(s.txs.Keys);
  }

  /** The row is free, and every other row is locked: a selecting statement has no other choice. */
  ghost predicate Isolated(s: Db, id: StepId) {
    id in s.rows && id !in s.locks && forall other :: other in s.rows && other != id ==> other in s.locks
  }

  lemma LockOne(s: Db, h: TxId, other: StepId) returns (more: seq<Action>)
    requires h !in s.txs && other in s.rows && other !in s.locks
    ensures var s' := Run(s, more); s'.rows == s.rows && s'.clock == s.clock && s'.locks == s.locks[other := h]
  {
    more := [Begin(h, LockOnly(other)), LockRow(h)];
    assert more[..1] == [Begin(h, LockOnly(other))] && more[..1][..0] == [];
    assert Run(s, more[..1]) == Step(s, Begin(h, LockOnly(other)));
  }

  /** Lock-only sessions can hold every other row. */
  lemma {:induction false} Isolate(s: Db, id: StepId, free: set<StepId>) returns (more: seq<Action>)
    requires id in s.rows && id !in s.locks
    requires free == set other | other in s.rows && other != id && other !in s.locks
    ensures var s' := Run(s, more); Isolated(s', id) && s'.rows == s.rows && s'.clock == s.clock
    decreases |free|
  {
    more := [];
    if free == {} {
      assert forall other :: other in s.rows && other != id ==> other !in free;
    } else {
      var other :| other in free;
      var h := FreshTx(s);
      var first := LockOne(s, h, other);
      var rest := Isolate(Run(s, first), id, free - {other});
      RunConcat(s, first, rest);
      more := first + rest;
    }
  }

  /** The state after one uninterrupted statement sequence on the isolated row. */
  ghost predicate MovedAlone(s: Db, s': Db, id: StepId, r: Row) {
    Isolated(s', id) && s'.clock == s.clock && s'.rows == s.rows[id := r]
  }

  lemma SoleBatch(s: Db, s': Db, job: Job, id: StepId)
    requires IsSelecting(job) && Isolated(s, id) && Accepts(JobOp(job), s.rows[id], s.clock, s.clock)
    requires s'.rows == s.rows && s'.locks == s.locks && s'.clock == s.clock
    ensures Batch(s', job, s.clock, s.rows, s.clock) == [id]
  {
    assert Lockable(s', job, s.clock, s.rows, s.clock) == {id};
    BatchIsLockable(s', job, s.clock, s.rows, s.clock);
    var ids := Batch(s', job, s.clock, s.rows, s.clock);
    assert |ids| == 1 && ids[0] in ids;
  }

  /** The statement's transaction once it has scanned. */
  ghost function AfterScan(s: Db, tx: TxId, job: Job): Db {
    WithTx(s, tx, Tx(job, s.clock, Scanned(s.rows, s.clock), None, [], []))
  }

  lemma BeginAndScan(s: Db, tx: TxId, job: Job)
    requires tx !in s.txs && IsSelecting(job) && JobAllowed(job)
    ensures Step(Step(s, Begin(tx, job)), Scan(tx)) == AfterScan(s, tx, job)
  {
  }

  /** One write staged on the isolated row, and only COMMIT left. */
  ghost predicate ReadyToCommit(s: Db, s3: Db, tx: TxId, id: StepId, r: Row) {
    && s3.rows == s.rows && s3.clock == s.clock && s3.locks == s.locks[id := tx]
    && tx in s3.txs && s3.txs[tx].phase.Finished?
    && |s3.txs[tx].staged| == 1 && s3.txs[tx].staged[0].id == id && s3.txs[tx].staged[0].after == r
  }

  lemma CommitAlone(s: Db, s3: Db, tx: TxId, id: StepId, r: Row)
    requires LocksOk(s) && tx !in s.txs && Isolated(s, id) && ReadyToCommit(s, s3, tx, id, r)
    ensures MovedAlone(s, Step(s3, Commit(tx)), id, r)
  {
    var staged := s3.txs[tx].staged;
    assert staged[..0] == [];
    assert Install(s3.rows, staged) == s.rows[id := r];
    assert forall other :: other in s.locks ==> s.locks[other] != tx;
  }

  /** The sweep's statement, its one lock taken. */
  ghost function AfterSweepLock(s: Db, tx: TxId, job: Job, id: StepId): Db {
    Acquire(AfterScan(s, tx, job), tx, AfterScan(s, tx, job).txs[tx], [id], Finished)
  }

  lemma SelectAlone(s: Db, tx: TxId, job: Job, id: StepId)
    requires tx !in s.txs && IsSweep(job) && Isolated(s, id) && Accepts(JobOp(job), s.rows[id], s.clock, s.clock)
    ensures Step(AfterScan(s, tx, job), SelectSkipLocked(tx)) == SweepStep(AfterSweepLock(s, tx, job, id), tx)
  {
    SoleBatch(s, AfterScan(s, tx, job), job, id);
  }

  lemma SweepWritesAlone(s: Db, tx: TxId, job: Job, id: StepId)
    requires tx !in s.txs && IsSweep(job) && Isolated(s, id) && Accepts(JobOp(job), s.rows[id], s.clock, s.clock)
    ensures ReadyToCommit(s, SweepStep(AfterSweepLock(s, tx, job, id), tx), tx, id, Effect(JobOp(job), s.rows[id], s.clock, s.clock))
  {
    var s3 := AfterSweepLock(s, tx, job, id);
    assert s3.locks == s.locks[id := tx];
    SweepStepStages(s3, tx);
    SweepStepFrame(s3, tx);
    assert Resolves(s3, job, id, SweepStep(s3, tx).txs[tx].staged[0]);
  }

  lemma SweepAlone(init: map<StepId, Row>, s: Db, job: Job, id: StepId) returns (more: seq<Action>)
    requires Inv(init, s) && IsSweep(job) && Isolated(s, id) && Accepts(JobOp(job), s.rows[id], s.clock, s.clock)
    ensures MovedAlone(s, Run(s, more), id, Effect(JobOp(job), s.rows[id], s.clock, s.clock))
  {
    var tx := FreshTx(s);
    more := SweepActions(tx, job);
    RunFour(s, Begin(tx, job), Scan(tx), SelectSkipLocked(tx), Commit(tx));
    BeginAndScan(s, tx, job);
    SelectAlone(s, tx, job, id);
    SweepWritesAlone(s, tx, job, id);
    CommitAlone(s, SweepStep(AfterSweepLock(s, tx, job, id), tx), tx, id, Effect(JobOp(job), s.rows[id], s.clock, s.clock));
  }

  ghost function AfterClaimSelect(s: Db, tx: TxId, job: Job, id: StepId): Db {
    Acquire(AfterScan(s, tx, job), tx, AfterScan(s, tx, job).txs[tx], [id], Holding)
  }

  lemma ClaimSelectAlone(s: Db, tx: TxId, job: Job, id: StepId)
    requires tx !in s.txs && job.ClaimNext? && Isolated(s, id) && Accepts(JobOp(job), s.rows[id], s.clock, s.clock)
    ensures Step(AfterScan(s, tx, job), SelectSkipLocked(tx)) == AfterClaimSelect(s, tx, job, id)
  {
    SoleBatch(s, AfterScan(s, tx, job), job, id);
  }

  lemma ClaimWriteAlone(s: Db, tx: TxId, job: Job, id: StepId)
    requires tx !in s.txs && job.ClaimNext? && Isolated(s, id) && Accepts(JobOp(job), s.rows[id], s.clock, s.clock)
    ensures ReadyToCommit(s, Step(Step(AfterClaimSelect(s, tx, job, id), Write(tx)), RecordEvent(tx)), tx, id,
                          Effect(JobOp(job), s.rows[id], s.clock, s.clock))
  {
    assert AfterClaimSelect(s, tx, job, id).locks == s.locks[id := tx];
  }

  lemma ClaimAlone(init: map<StepId, Row>, s: Db, job: Job, id: StepId) returns (more: seq<Action>)
    requires Inv(init, s) && job.ClaimNext? && JobAllowed(job)
    requires Isolated(s, id) && Accepts(JobOp(job), s.rows[id], s.clock, s.clock)
    ensures MovedAlone(s, Run(s, more), id, Effect(JobOp(job), s.rows[id], s.clock, s.clock))
  {
    var tx := FreshTx(s);
    var first, rest := [Begin(tx, job), Scan(tx), SelectSkipLocked(tx), Write(tx)], [RecordEvent(tx), Commit(tx)];
    more := first + rest;
    RunConcat(s, first, rest);
    RunFour(s, Begin(tx, job), Scan(tx), SelectSkipLocked(tx), Write(tx));
    BeginAndScan(s, tx, job);
    ClaimSelectAlone(s, tx, job, id);
    ClaimWriteAlone(s, tx, job, id);
    var s4 := Run(s, first);
    assert rest[..1] == [RecordEvent(tx)] && rest[..1][..0] == [];
    assert Run(s4, rest[..1]) == Step(s4, RecordEvent(tx));
    CommitAlone(s, Step(s4, RecordEvent(tx)), tx, id, Effect(JobOp(job), s.rows[id], s.clock, s.clock));
  }

  // ---------------------------------------------------------------- granting the next generations

  lemma WaitUntil(s: Db, at: Instant) returns (more: seq<Action>)
    ensures var s' := Run(s, more); s' == s.(clock := s'.clock) && s'.clock == Max(s.clock, at)
  {
    var wait := Max(0, at - s.clock);
    more := [Tick(wait)];
    assert more[..0] == [];
  }

  /** The isolated row at the same generation and attempt, claimable now. */
  ghost predicate Claimable(s: Db, s': Db, id: StepId)
    requires id in s.rows
  {
    && Isolated(s', id)
    && var r, r' := s.rows[id], s'.rows[id];
       && r'.status == Ready && r'.availableAt <= s'.clock
       && r'.leaseVersion == r.leaseVersion && r'.attemptCount == r.attemptCount && r'.maxAttempts == r.maxAttempts
  }

  lemma RowIsWellFormed(init: map<StepId, Row>, s: Db, id: StepId)
    requires Inv(init, s) && CleanRows(init) && id in s.rows
    ensures WellFormedRow(s.rows[id])
  {
    var tr := Trace(s.history, id);
    RowsStayWellFormed(init[id], tr, |tr|);
  }

  /** Expire and recover a running row, promote a waiting one: with budget left, both end READY. */
  lemma MakeReady(init: map<StepId, Row>, s: Db, id: StepId) returns (more: seq<Action>)
    requires Inv(init, s) && CleanRows(init) && Isolated(s, id)
    requires s.rows[id].status in {Ready, RetryWait, Running} && s.rows[id].attemptCount < s.rows[id].maxAttempts
    ensures Claimable(s, Run(s, more), id)
  {
    RowIsWellFormed(init, s, id);
    var r := s.rows[id];
    var due := if r.status == Running then r.deadline.value else r.availableAt;
    var wait := WaitUntil(s, due);
    var s1 := Run(s, wait);
    RunKeepsInv(init, s, wait);
    var sweep: seq<Action> := [];
    if r.status != Ready {
      sweep := SweepAlone(init, s1, if r.status == Running then RecoverSweep else PromoteSweep, id);
    }
    var s2 := Run(s1, sweep);
    RunKeepsInv(init, s1, sweep);
    var last := WaitUntil(s2, r.availableAt);
    RunConcat(s, wait, sweep);
    RunConcat(s, wait + sweep, last);
    more := wait + sweep + last;
  }

  /** Any named worker can be granted the next generation of an isolated row with budget left. */
  lemma GrantNext(init: map<StepId, Row>, s: Db, id: StepId, worker: WorkerId) returns (more: seq<Action>)
    requires Inv(init, s) && CleanRows(init) && Isolated(s, id) && !IsBlank(worker)
    requires s.rows[id].status in {Ready, RetryWait, Running} && s.rows[id].attemptCount < s.rows[id].maxAttempts
    ensures var s' := Run(s, more); var r := s.rows[id];
      && Inv(init, s') && Isolated(s', id) && s'.rows[id].maxAttempts == r.maxAttempts
      && s'.rows[id].attemptCount == r.attemptCount + 1 && s'.rows[id].leaseVersion == r.leaseVersion + 1
      && LiveLease(s'.rows[id], worker, r.leaseVersion + 1, s'.clock)
  {
    var ready := MakeReady(init, s, id);
    RunKeepsInv(init, s, ready);
    var claim := ClaimAlone(init, Run(s, ready), ClaimNext(worker, 1), id);
    more := ready + claim;
    RunConcat(s, ready, claim);
    RunKeepsInv(init, s, more);
  }

  lemma {:induction false} GrantUpTo(init: map<StepId, Row>, s: Db, id: StepId, worker: WorkerId, version: int)
    returns (more: seq<Action>)
    requires Inv(init, s) && CleanRows(init) && Isolated(s, id) && Grantable(s.rows[id], worker, version)
    ensures LiveAfter(s, more, id, worker, version)
    decreases version - s.rows[id].leaseVersion
  {
    more := GrantNext(init, s, id, worker);
    if version > s.rows[id].leaseVersion + 1 {
      var rest := GrantUpTo(init, Run(s, more), id, worker, version);
      RunConcat(s, more, rest);
      more := more + rest;
    }
  }

  lemma Unlocked(s: Db, id: StepId) returns (more: seq<Action>)
    requires LocksOk(s)
    ensures var s' := Run(s, more); id !in s'.locks && s'.rows == s.rows && s'.clock == s.clock
  {
    more := [];
    if id in s.locks {
      more := [Rollback(s.locks[id])];
      assert more[..0] == [];
      assert Run(s, more) == Release(s, s.locks[id]);
    }
  }

  /** Whoever holds the row may disappear: a grantable generation can be granted from every reachable state. */
  lemma GrantableCanBeLive(init: map<StepId, Row>, s: Db, id: StepId, worker: WorkerId, version: int) returns (more: seq<Action>)
    requires Inv(init, s) && CleanRows(init) && id in s.rows && Grantable(s.rows[id], worker, version)
    ensures LiveAfter(s, more, id, worker, version)
  {
    var free := Unlocked(s, id);
    var s1 := Run(s, free);
    RunKeepsInv(init, s, free);
    var alone := Isolate(s1, id, set other | other in s1.rows && other != id && other !in s1.locks);
    RunKeepsInv(init, s1, alone);
    var s2 := Run(s1, alone);
    var grants := GrantUpTo(init, s2, id, worker, version);
    RunConcat(s, free, alone);
    RunConcat(s, free + alone, grants);
    more := free + alone + grants;
  }

  /**
   * After a refusal under the row lock, the same credentials are accepted in some continuation exactly
   * when their generation is one the row can still grant. For a generation the row has reached, as a
   * claimed one is, that is never.
   */
  lemma RefusedUntilGrantedIff(rows: map<StepId, Row>, clock: Instant, actions: seq<Action>, id: StepId, op: Op, tx: TxId)
    requires CleanRows(rows) && id in rows && id in After(rows, clock, actions).rows && IsOwnerOp(op)
    requires var s := After(rows, clock, actions);
      && tx in s.txs && s.txs[tx].phase.Holding? && s.txs[tx].job == OwnerWrite(id, op)
      && !Accepts(op, s.rows[id], s.txs[tx].began, s.clock)
    ensures var s := After(rows, clock, actions);
      (exists more :: LiveAfter(s, more, id, op.worker, op.version)) <==> Grantable(s.rows[id], op.worker, op.version)
  {
    var s := After(rows, clock, actions);
    if Grantable(s.rows[id], op.worker, op.version) {
      RunKeeps(rows, clock, actions);
      var more := GrantableCanBeLive(rows, s, id, op.worker, op.version);
    }
    if more :| LiveAfter(s, more, id, op.worker, op.version) {
      if op.version <= s.rows[id].leaseVersion {
        RejectionIsFinal(rows, clock, actions, more, id, op, tx);
      } else {
        LiveLaterWasGrantable(rows, clock, actions, more, id, op.worker, op.version);
      }
    }
  }
}
