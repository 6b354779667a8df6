/** The coordinator: server/src/coordinator/recovery-loop.ts and the two sweeps it calls. */
module RecoveryLoop {
  import opened Base
  import opened Lifecycle
  import opened StepSpec
  import opened RowHistory
  import opened Protocol
  import opened ProtocolInvariant
  import opened RunTheorems
  import opened Sweeps
  import opened Writes
  import opened Calls
  import D = Database

  // ---------------------------------------------------------------- one sweep

  datatype SweptRow = SweptRow(id: StepId, status: Status, leaseVersion: int, attemptCount: int)

  function SweptRowOf(e: Entry): SweptRow {
    SweptRow(e.id, e.after.status, e.after.leaseVersion, e.after.attemptCount)
  }

  /** One execution of a sweep's statement: what others do around it, and whether the database lets it commit. */
  datatype Attempt = Attempt(beforeScan: seq<Action>, beforeLock: seq<Action>, beforeCommit: seq<Action>, fails: bool)

  predicate AttemptSpares(p: Attempt, tx: TxId) {
    Spares(p.beforeScan, tx) && Spares(p.beforeLock, tx) && Spares(p.beforeCommit, tx)
  }

  function SweepScript(tx: TxId, job: Job, p: Attempt): seq<Action> {
    ScriptToScan(tx, job, p) + [SelectSkipLocked(tx)] + p.beforeCommit + [if p.fails then Rollback(tx) else Commit(tx)]
  }

  /** The i-th row returned is a row the sweep resolved, with its event, as its table row now stands. */
  ghost predicate SweptAt(after: Db, tx: TxId, op: Op, resolved: seq<SweptRow>, i: nat)
    requires i < |resolved| <= |after.history|
  {
    var e := after.history[|after.history| - |resolved| + i];
    && e.tx == tx && e.op == op && IsItsWrite(e)
    && e.id in after.rows && after.rows[e.id] == e.after
    && resolved[i].id == e.id && resolved[i].status == after.rows[e.id].status
    && resolved[i].leaseVersion == after.rows[e.id].leaseVersion && resolved[i].attemptCount == after.rows[e.id].attemptCount
  }

  ghost predicate SweptLast(before: Db, after: Db, tx: TxId, op: Op, resolved: seq<SweptRow>) {
    && before.history <= after.history && |resolved| <= |after.history| - |before.history|
    && (forall k {:trigger after.history[k]} :: |before.history| <= k < |after.history| - |resolved| ==> after.history[k].tx != tx)
    && (forall i {:trigger SweptAt(after, tx, op, resolved, i)} :: 0 <= i < |resolved| ==> SweptAt(after, tx, op, resolved, i))
  }

  /** The rows returned are the batch, in its order. */
  ghost predicate Lists(staged: seq<Entry>, ids: seq<StepId>) {
    |staged| == |ids| && forall i :: 0 <= i < |ids| ==> staged[i].id == ids[i]
  }

  lemma SweepSelectOutcome(s: Db, tx: TxId, job: Job)
    requires Selecting(s, tx, job) && IsSweep(job) && s.txs[tx].staged == []
    ensures var s' := Step(s, SelectSkipLocked(tx));
      && tx in s'.txs && s'.txs[tx].phase.Finished? && s'.txs[tx].job == job
      && Lists(s'.txs[tx].staged, BatchAt(s, tx, job))
  {
    var t, ids := s.txs[tx], BatchAt(s, tx, job);
    BatchIsLockable(s, job, t.began, t.phase.snapshot, t.phase.scannedAt);
    if ids != [] {
      SweepWritesBatch(Acquire(s, tx, t, ids, Finished), tx);
    }
  }

  lemma SweepWritesBatch(s: Db, tx: TxId)
    requires tx in s.txs && s.txs[tx].xid.Some? && IsSweep(s.txs[tx].job) && s.txs[tx].phase.Finished?
    requires forall id :: id in s.txs[tx].held ==> id in s.rows && Accepts(JobOp(s.txs[tx].job), s.rows[id], s.txs[tx].began, s.clock)
    ensures var s' := SweepStep(s, tx);
      && tx in s'.txs && s'.txs[tx].phase.Finished? && s'.txs[tx].job == s.txs[tx].job
      && Lists(s'.txs[tx].staged, s.txs[tx].held)
  {
  }

  function SweptRows(staged: seq<Entry>): seq<SweptRow> {
    seq(|staged|, i requires 0 <= i < |staged| => SweptRowOf(staged[i]))
  }

  lemma SweepCommitOutcome(init: map<StepId, Row>, first: Db, s: Db, tx: TxId)
    requires Inv(init, s) && tx in s.txs && s.txs[tx].phase.Finished? && IsSweep(s.txs[tx].job)
    requires NothingCommitted(first, s, tx)
    ensures SweptLast(first, Step(s, Commit(tx)), tx, JobOp(s.txs[tx].job), SweptRows(s.txs[tx].staged))
  {
    var t, s' := s.txs[tx], Step(s, Commit(tx));
    var resolved := SweptRows(t.staged);
    assert TxOk(s, tx);
    assert s'.history == s.history + t.staged && s'.rows == Install(s.rows, t.staged);
    InstallAt(s.rows, t.staged, 0);
    forall i | 0 <= i < |resolved| ensures SweptAt(s', tx, JobOp(t.job), resolved, i) {
      assert StagedOk(s, tx, t, t.staged[i]);
      assert s'.history[|s.history| + i] == t.staged[i];
      EntryIsItsWrite(t.staged[i]);
    }
    forall k | |first.history| <= k < |s'.history| - |resolved| ensures s'.history[k].tx != tx {
      assert s'.history[k] == s.history[k];
    }
  }

  function ScriptToScan(tx: TxId, job: Job, p: Attempt): seq<Action> {
    [Begin(tx, job)] + p.beforeScan + [Scan(tx)] + p.beforeLock
  }

  /** Up to where the sweep takes its locks. */
  method ReachSelection(db: D.Database, tx: TxId, job: Job, p: Attempt, ghost start: Db) returns (ghost upTo: seq<Action>)
    requires db.Valid() && start == db.View() && tx !in db.txs && IsSweep(job) && AttemptSpares(p, tx)
    modifies db
    ensures Ongoing(db, tx, start, upTo) && upTo == ScriptToScan(tx, job, p)
    ensures Selecting(db.View(), tx, job) && db.txs[tx].staged == []
  {
    upTo := Open(db, tx, job);
    upTo := Pause(db, p.beforeScan, tx, start, upTo);
    upTo := SweepScan(db, tx, job, start, upTo);
    upTo := Pause(db, p.beforeLock, tx, start, upTo);
  }

  method SweepScan(db: D.Database, tx: TxId, job: Job, ghost start: Db, ghost script: seq<Action>) returns (ghost longer: seq<Action>)
    requires Ongoing(db, tx, start, script) && IsSweep(job)
    requires tx in db.txs && db.txs[tx].job == job && db.txs[tx].phase.Begun? && db.txs[tx].staged == []
    modifies db
    ensures Ongoing(db, tx, start, longer) && longer == script + [Scan(tx)]
    ensures Selecting(db.View(), tx, job) && db.txs[tx].staged == []
  {
    longer := Do(db, Scan(tx), tx, start, script);
  }

  method SweepSelect(db: D.Database, tx: TxId, job: Job, ghost start: Db, ghost script: seq<Action>) returns (ghost longer: seq<Action>)
    requires Ongoing(db, tx, start, script) && IsSweep(job) && Selecting(db.View(), tx, job) && db.txs[tx].staged == []
    modifies db
    ensures Ongoing(db, tx, start, longer) && longer == script + [SelectSkipLocked(tx)]
    ensures tx in db.txs && db.txs[tx].phase.Finished? && db.txs[tx].job == job
    ensures Lists(db.txs[tx].staged, BatchAt(old(db.View()), tx, job))
  {
    SweepSelectOutcome(db.View(), tx, job);
    longer := Do(db, SelectSkipLocked(tx), tx, start, script);
  }

  /** In state `s` the sweep locked exactly the rows it returns: the first it could take, in its order. */
  ghost predicate ReturnsBatch(s: Db, tx: TxId, job: Job, resolved: seq<SweptRow>) {
    && Selecting(s, tx, job) && IsSweep(job)
    && IsSweepBatch(s, job, s.txs[tx].began, s.txs[tx].phase.snapshot, s.txs[tx].phase.scannedAt, IdsOf(resolved))
  }

  lemma StagedBatch(s: Db, tx: TxId, job: Job, staged: seq<Entry>)
    requires Selecting(s, tx, job) && IsSweep(job) && Lists(staged, BatchAt(s, tx, job))
    ensures ReturnsBatch(s, tx, job, SweptRows(staged))
  {
    SweepTakesTheFirst(s, job, s.txs[tx].began, s.txs[tx].phase.snapshot, s.txs[tx].phase.scannedAt);
    assert IdsOf(SweptRows(staged)) == BatchAt(s, tx, job);
  }

  method CommitSweep(db: D.Database, tx: TxId, ghost start: Db, ghost script: seq<Action>)
    returns (resolved: seq<SweptRow>, ghost longer: seq<Action>)
    requires Ongoing(db, tx, start, script) && tx in db.txs && db.txs[tx].phase.Finished? && IsSweep(db.txs[tx].job)
    modifies db
    ensures db.Valid() && tx !in db.txs && longer == script + [Commit(tx)] && db.View() == Run(start, longer)
    ensures resolved == SweptRows(old(db.txs[tx].staged))
    ensures SweptLast(start, db.View(), tx, JobOp(old(db.txs[tx].job)), resolved)
  {
    resolved := SweptRows(db.txs[tx].staged);
    RunSnoc(start, script, Commit(tx));
    SweepCommitOutcome(db.init, start, db.View(), tx);
    db.Commit(tx);
    longer := script + [Commit(tx)];
  }

  method AbandonSweep(db: D.Database, tx: TxId, ghost start: Db, ghost script: seq<Action>) returns (ghost longer: seq<Action>)
    requires Ongoing(db, tx, start, script)
    modifies db
    ensures Ongoing(db, tx, start, longer) && tx !in db.txs && longer == script + [Rollback(tx)]
  {
    longer := Do(db, Rollback(tx), tx, start, script);
  }

  method ResolveBatch(db: D.Database, tx: TxId, job: Job, p: Attempt, ghost start: Db, ghost upTo: seq<Action>)
    returns (ghost script: seq<Action>)
    requires Ongoing(db, tx, start, upTo) && IsSweep(job) && AttemptSpares(p, tx)
    requires Selecting(db.View(), tx, job) && db.txs[tx].staged == []
    modifies db
    ensures Ongoing(db, tx, start, script) && script == upTo + [SelectSkipLocked(tx)] + p.beforeCommit
    ensures tx in db.txs && db.txs[tx].phase.Finished? && db.txs[tx].job == job
    ensures ReturnsBatch(old(db.View()), tx, job, SweptRows(db.txs[tx].staged))
  {
    ghost var s := db.View();
    script := SweepSelect(db, tx, job, start, upTo);
    script := Pause(db, p.beforeCommit, tx, start, script);
    StagedBatch(s, tx, job, db.txs[tx].staged);
  }

  method EndSweep(db: D.Database, tx: TxId, fails: bool, ghost start: Db, ghost script: seq<Action>)
    returns (resolved: Option<seq<SweptRow>>, ghost longer: seq<Action>)
    requires Ongoing(db, tx, start, script) && tx in db.txs && db.txs[tx].phase.Finished? && IsSweep(db.txs[tx].job)
    modifies db
    ensures db.Valid() && tx !in db.txs && db.View() == Run(start, longer)
    ensures longer == script + [if fails then Rollback(tx) else Commit(tx)]
    ensures resolved == if fails then None else Some(SweptRows(old(db.txs[tx].staged)))
    ensures resolved.Some? ==> SweptLast(start, db.View(), tx, JobOp(old(db.txs[tx].job)), resolved.value)
    ensures resolved.None? ==> NothingCommitted(start, db.View(), tx)
  {
    if fails {
      longer := AbandonSweep(db, tx, start, script);
      resolved := None;
    } else {
      var rows;
      rows, longer := CommitSweep(db, tx, start, script);
      resolved := Some(rows);
    }
  }

  /**
   * One sweep. If it commits, it returns exactly the batch it locked, in order, each row resolved once
   * and with its event; if the database fails it, nothing at all is left of it.
   */
  method Sweep(db: D.Database, tx: TxId, job: Job, p: Attempt)
    returns (resolved: Option<seq<SweptRow>>, ghost script: seq<Action>, ghost upTo: seq<Action>)
    requires db.Valid() && tx !in db.txs && IsSweep(job) && AttemptSpares(p, tx)
    modifies db
    ensures db.Valid() && tx !in db.txs
    ensures script == SweepScript(tx, job, p) && db.View() == Run(old(db.View()), script) && upTo <= script
    ensures resolved.Some? <==> !p.fails
    ensures resolved.Some? ==> SweptLast(old(db.View()), db.View(), tx, JobOp(job), resolved.value)
    ensures resolved.Some? ==> ReturnsBatch(Run(old(db.View()), upTo), tx, job, resolved.value)
    ensures resolved.None? ==> NothingCommitted(old(db.View()), db.View(), tx)
  {
    ghost var start := db.View();
    upTo := ReachSelection(db, tx, job, p, start);
    script := ResolveBatch(db, tx, job, p, start, upTo);
    resolved, script := EndSweep(db, tx, p.fails, start, script);
  }

  function IdsOf(resolved: seq<SweptRow>): seq<StepId> {
    seq(|resolved|, i requires 0 <= i < |resolved| => resolved[i].id)
  }

  // ---------------------------------------------------------------- the loop

  /** One turn of the loop: a recovery, a promotion, what others do while it sleeps, and whether the signal aborts in it. */
  datatype Pass = Pass(recovery: Attempt, promotion: Attempt, asleep: seq<Action>, aborts: bool)

  predicate PassSpares(p: Pass, tx: TxId) {
    AttemptSpares(p.recovery, tx) && AttemptSpares(p.promotion, tx) && Spares(p.asleep, tx)
  }

  function PassScript(tx: TxId, p: Pass): seq<Action> {
    SweepScript(tx, RecoverSweep, p.recovery) + SweepScript(tx, PromoteSweep, p.promotion) + p.asleep
  }

  function LoopScript(tx: TxId, passes: seq<Pass>): seq<Action> {
    if passes == [] then [] else LoopScript(tx, passes[..|passes| - 1]) + PassScript(tx, passes[|passes| - 1])
  }

  method RunPass(db: D.Database, tx: TxId, p: Pass)
    requires db.Valid() && tx !in db.txs && PassSpares(p, tx)
    modifies db
    ensures db.Valid() && tx !in db.txs && db.View() == Run(old(db.View()), PassScript(tx, p))
  {
    ghost var s0 := db.View();
    ghost var a, b, c, upTo;
    var recovered, promoted;
    recovered, a, upTo := Sweep(db, tx, RecoverSweep, p.recovery);   // a failure is logged, and the promotion still runs
    ghost var s1 := db.View();
    promoted, b, upTo := Sweep(db, tx, PromoteSweep, p.promotion);
    ghost var s2 := db.View();
    c := Pause(db, p.asleep, tx, s2, []);
    assert [] + p.asleep == p.asleep;
    RunConcat(s0, a, b);
    RunConcat(s0, a + b, p.asleep);
  }

  lemma OneMorePass(s: Db, tx: TxId, passes: seq<Pass>, n: nat)
    requires n < |passes|
    ensures Run(s, LoopScript(tx, passes[..n + 1])) == Run(Run(s, LoopScript(tx, passes[..n])), PassScript(tx, passes[n]))
  {
    assert passes[..n + 1][..n] == passes[..n];
    RunConcat(s, LoopScript(tx, passes[..n]), PassScript(tx, passes[n]));
  }

  /** The loop has run since `start` and made the first `n` passes. */
  ghost predicate Made(db: D.Database, tx: TxId, start: Db, passes: seq<Pass>, n: nat)
    reads db
  {
    n <= |passes| && db.Valid() && tx !in db.txs && db.View() == Run(start, LoopScript(tx, passes[..n]))
  }

  ghost predicate AllSpare(passes: seq<Pass>, tx: TxId) {
    forall i {:trigger PassSpares(passes[i], tx)} :: 0 <= i < |passes| ==> PassSpares(passes[i], tx)
  }

  method NextPass(db: D.Database, tx: TxId, passes: seq<Pass>, n: nat, ghost start: Db) returns (aborted: bool)
    requires Made(db, tx, start, passes, n) && n < |passes| && AllSpare(passes, tx)
    modifies db
    ensures Made(db, tx, start, passes, n + 1) && aborted == passes[n].aborts
  {
    assert PassSpares(passes[n], tx);
    OneMorePass(start, tx, passes, n);
    RunPass(db, tx, passes[n]);
    aborted := passes[n].aborts;
  }

  /** The signal had not aborted at the head of any of the first `n` passes. */
  predicate NotAbortedBefore(abortedBefore: bool, passes: seq<Pass>, n: nat)
    requires n <= |passes|
  {
    (n > 0 ==> !abortedBefore) && forall i :: 0 <= i < n - 1 ==> !passes[i].aborts
  }

  /** What the signal shows after `n` passes. */
  predicate AbortedAfter(abortedBefore: bool, passes: seq<Pass>, n: nat)
    requires n <= |passes|
  {
    if n == 0 then abortedBefore else passes[n - 1].aborts
  }

  /**
   * The loop makes one pass after another, each trying both sweeps whatever became of the other. It stops
   * after the first pass in which the signal aborted, and starts none if it had aborted before.
   */
  method RunRecoveryLoop(db: D.Database, tx: TxId, abortedBefore: bool, passes: seq<Pass>) returns (made: nat)
    requires db.Valid() && tx !in db.txs && AllSpare(passes, tx)
    modifies db
    ensures Made(db, tx, old(db.View()), passes, made)
    ensures NotAbortedBefore(abortedBefore, passes, made)
    ensures made < |passes| ==> AbortedAfter(abortedBefore, passes, made)
  {
    var aborted := abortedBefore;
    made := 0;
    while !aborted && made < |passes|
      invariant Made(db, tx, old(db.View()), passes, made)
      invariant NotAbortedBefore(abortedBefore, passes, made) && aborted == AbortedAfter(abortedBefore, passes, made)
      decreases |passes| - made
    {
      aborted := NextPass(db, tx, passes, made, old(db.View()));
      made := made + 1;
    }
  }

  // ---------------------------------------------------------------- one sweep's failures do not hold up the other

  function Undisturbed(fails: bool): Attempt {
    Attempt([], [], [], fails)
  }

  function OtherSweep(job: Job): Job {
    if job.RecoverSweep? then PromoteSweep else RecoverSweep
  }

  function FailedSweep(tx: TxId, job: Job): seq<Action> {
    [Begin(tx, job), Scan(tx), SelectSkipLocked(tx), Rollback(tx)]
  }

  lemma UndisturbedScript(tx: TxId, job: Job, fails: bool)
    ensures SweepScript(tx, job, Undisturbed(fails)) == if fails then FailedSweep(tx, job) else SweepActions(tx, job)
  {
  }

  lemma FailedSweepChangesNothing(s: Db, tx: TxId, job: Job)
    requires Idle(s, tx) && IsSweep(job)
    ensures var s' := Run(s, FailedSweep(tx, job));
      Idle(s', tx) && s'.rows == s.rows && s'.clock == s.clock && s'.history == s.history && s'.txs == s.txs
  {
    RunFour(s, Begin(tx, job), Scan(tx), SelectSkipLocked(tx), Rollback(tx));
    assert Step(Step(s, Begin(tx, job)), Scan(tx)) == WithTx(s, tx, ScannedTx(s, job));
    SelectReachesSwept(s, tx, job);
    SweptFrame(s, tx, job);
    SweptHistory(s, tx, job);
    assert Run(s, FailedSweep(tx, job)) == Release(Swept(s, tx, job), tx);
  }

  lemma SweptHistory(s: Db, tx: TxId, job: Job)
    requires IsSweep(job)
    ensures Swept(s, tx, job).history == s.history
  {
  }

  lemma TheOtherSweepLeavesDue(s: Db, tx: TxId, job: Job, fails: bool)
    requires Idle(s, tx) && IsSweep(job)
    ensures var s' := Run(s, SweepScript(tx, OtherSweep(job), Undisturbed(fails)));
      Idle(s', tx) && s'.clock == s.clock && Due(s', job) == Due(s, job)
  {
    var other := OtherSweep(job);
    UndisturbedScript(tx, other, fails);
    if fails {
      FailedSweepChangesNothing(s, tx, other);
    } else {
      OneSweep(s, tx, other);
      var s' := Run(s, SweepActions(tx, other));
      forall id | id in s.rows ensures id in Due(s', job) <==> id in Due(s, job) {
        assert Resolved(s, other, SweepBatch(s, other), s', id);
      }
      assert Due(s', job) == Due(s, job);
    }
  }

  /** A pass in which this job's sweep commits, and the other's may fail or not. */
  predicate Commits(job: Job, p: Pass) {
    && p.recovery == Undisturbed(p.recovery.fails) && p.promotion == Undisturbed(p.promotion.fails)
    && !(if job.RecoverSweep? then p.recovery.fails else p.promotion.fails)
  }

  function SweepsOf(tx: TxId, p: Pass): seq<Action> {
    SweepScript(tx, RecoverSweep, p.recovery) + SweepScript(tx, PromoteSweep, p.promotion)
  }

  lemma OnePass(s: Db, tx: TxId, job: Job, p: Pass)
    requires Idle(s, tx) && IsSweep(job) && Commits(job, p)
    ensures var s' := Run(s, SweepsOf(tx, p));
      Idle(s', tx) && |Due(s', job)| == Max(0, |Due(s, job)| - 100)
  {
    var a, b := SweepScript(tx, RecoverSweep, p.recovery), SweepScript(tx, PromoteSweep, p.promotion);
    RunConcat(s, a, b);
    var s1 := Run(s, a);
    UndisturbedScript(tx, job, false);
    if job.RecoverSweep? {
      SweepShrinksDue(s, tx, job);
      TheOtherSweepLeavesDue(s1, tx, job, p.promotion.fails);
    } else {
      TheOtherSweepLeavesDue(s, tx, job, p.recovery.fails);
      SweepShrinksDue(s1, tx, job);
    }
  }

  /** While the loop sleeps after pass `n`, others leave no lock behind and this job's due rows as they are. */
  ghost predicate SleepsCalmly(s: Db, tx: TxId, job: Job, passes: seq<Pass>, n: nat)
    requires IsSweep(job) && n < |passes|
  {
    Calm(Run(Run(s, LoopScript(tx, passes[..n])), SweepsOf(tx, passes[n])), passes[n].asleep, tx, job)
  }

  ghost predicate AllCalm(s: Db, tx: TxId, job: Job, passes: seq<Pass>)
    requires IsSweep(job)
  {
    forall n {:trigger SleepsCalmly(s, tx, job, passes, n)} :: 0 <= n < |passes| ==> SleepsCalmly(s, tx, job, passes, n)
  }

  lemma AllCalmPrefix(s: Db, tx: TxId, job: Job, passes: seq<Pass>, n: nat)
    requires IsSweep(job) && AllCalm(s, tx, job, passes) && n <= |passes|
    ensures AllCalm(s, tx, job, passes[..n])
  {
    forall m | 0 <= m < n ensures SleepsCalmly(s, tx, job, passes[..n], m) {
      assert passes[..n][..m] == passes[..m];
      assert SleepsCalmly(s, tx, job, passes, m);
    }
  }

  /**
   * However often one of the two sweeps fails, the other works off its backlog at a hundred rows a pass:
   * if while the loop sleeps others leave no lock and the due rows as they are, k passes leave
   * max(0, n - 100 k) of n.
   */
  lemma {:induction false} FailuresAreIndependent(s: Db, tx: TxId, job: Job, passes: seq<Pass>)
    requires Idle(s, tx) && IsSweep(job) && AllCalm(s, tx, job, passes) && forall p :: p in passes ==> Commits(job, p)
    ensures var s' := Run(s, LoopScript(tx, passes));
      Idle(s', tx) && |Due(s', job)| == Max(0, |Due(s, job)| - 100 * |passes|)
  {
    if passes != [] {
      var n := |passes| - 1;
      var script := LoopScript(tx, passes[..n]);
      assert passes[n] in passes;
      AllCalmPrefix(s, tx, job, passes, n);
      FailuresAreIndependent(s, tx, job, passes[..n]);
      OnePass(Run(s, script), tx, job, passes[n]);
      SplitPass(s, tx, passes);
      assert SleepsCalmly(s, tx, job, passes, n);
      OneMoreHundred(|Due(s, job)|, n);
    }
  }

  lemma SplitPass(s: Db, tx: TxId, passes: seq<Pass>)
    requires passes != []
    ensures var n := |passes| - 1; var before := Run(s, LoopScript(tx, passes[..n]));
      Run(s, LoopScript(tx, passes)) == Run(Run(before, SweepsOf(tx, passes[n])), passes[n].asleep)
  {
    var n := |passes| - 1;
    assert passes[..n + 1] == passes;
    OneMorePass(s, tx, passes, n);
    RunConcat(Run(s, LoopScript(tx, passes[..n])), SweepsOf(tx, passes[n]), passes[n].asleep);
  }
}
