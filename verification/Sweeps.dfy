/** What the SKIP LOCKED statements select, and how repeated sweeps work off a backlog. */
module Sweeps {
  import opened Base
  import opened Lifecycle
  import opened StepSpec
  import opened RowHistory
  import opened Ordering
  import opened Protocol
  import opened ProtocolInvariant
  import opened RunTheorems
  import opened Writes

  // ---------------------------------------------------------------- selection

  /** The batch is the beginning of the ORDER BY list of the lockable rows, as long as LIMIT allows. */
  ghost predicate IsFirstOf(ids: seq<StepId>, pool: set<StepId>, key: StepId -> Key, limit: nat) {
    && |ids| == Min(limit, |pool|)
    && Sorted(key, ids)
    && (forall id :: id in ids ==> id in pool)
    && (forall id, other :: id in ids && other in pool && other !in ids ==> Less(key(id), key(other)))
    && (forall other :: other in pool && other !in ids ==> |ids| == limit)
  }

  lemma SelectionIsFirst(s: Db, job: Job, began: Instant, snapshot: map<StepId, Row>, scannedAt: Instant)
    requires IsSelecting(job)
    ensures IsFirstOf(Batch(s, job, began, snapshot, scannedAt), Lockable(s, job, began, snapshot, scannedAt),
                      RankIn(job, snapshot), Limit(job))
  {
    var pool := Lockable(s, job, began, snapshot, scannedAt);
    var key := RankIn(job, snapshot);
    RankDistinguishes(job, snapshot, pool);
    SortSetSorts(key, pool);
    FirstOfListing(key, pool, SortSet(key, pool), Limit(job));
    forall id | id in Batch(s, job, began, snapshot, scannedAt) ensures id in pool {
      assert id in Elements(Batch(s, job, began, snapshot, scannedAt));
    }
  }

  /** `order by priority desc, available_at asc, id asc` */
  predicate ClaimedBefore(snapshot: map<StepId, Row>, id: StepId, other: StepId) {
    && id in snapshot && other in snapshot
    && var a, b := snapshot[id], snapshot[other];
       || a.priority > b.priority
       || (a.priority == b.priority && a.availableAt < b.availableAt)
       || (a.priority == b.priority && a.availableAt == b.availableAt && id < other)
  }

  /** `order by lease_expires_at asc, id asc`, or for retries `order by available_at asc, id asc` */
  predicate SweptBefore(job: Job, snapshot: map<StepId, Row>, id: StepId, other: StepId) {
    && id in snapshot && other in snapshot
    && var a, b := snapshot[id], snapshot[other];
       if job.RecoverSweep? then
         && a.deadline.Some? && b.deadline.Some?
         && (a.deadline.value < b.deadline.value || (a.deadline.value == b.deadline.value && id < other))
       else
         a.availableAt < b.availableAt || (a.availableAt == b.availableAt && id < other)
  }

  /**
   * A claim takes the row of highest priority; among those the one available longest; among those
   * the smallest id. "Nothing to claim" means no row was eligible and unlocked.
   */
  lemma ClaimTakesTheBest(s: Db, job: Job, began: Instant, snapshot: map<StepId, Row>, scannedAt: Instant)
    requires job.ClaimNext?
    ensures var ids := Batch(s, job, began, snapshot, scannedAt);
            var pool := Lockable(s, job, began, snapshot, scannedAt);
      && (ids == [] <==> pool == {})
      && (ids != [] ==> |ids| == 1 && ids[0] in pool && forall other :: other in pool && other != ids[0] ==>
            ClaimedBefore(snapshot, ids[0], other))
  {
    SelectionIsFirst(s, job, began, snapshot, scannedAt);
    var ids := Batch(s, job, began, snapshot, scannedAt);
    var pool := Lockable(s, job, began, snapshot, scannedAt);
    if ids != [] {
      assert ids[0] in ids;
      forall other | other in pool && other != ids[0]
        ensures Less(Rank(job, ids[0], snapshot[ids[0]]), Rank(job, other, snapshot[other]))
      {
        assert other !in ids;
        assert Less(RankIn(job, snapshot)(ids[0]), RankIn(job, snapshot)(other));
      }
    }
  }

  lemma RankedIsSweptBefore(job: Job, snapshot: map<StepId, Row>, id: StepId, other: StepId)
    requires IsSweep(job) && id in snapshot && other in snapshot
    requires job.RecoverSweep? ==> snapshot[id].deadline.Some? && snapshot[other].deadline.Some?
    ensures Less(RankIn(job, snapshot)(id), RankIn(job, snapshot)(other)) <==> SweptBefore(job, snapshot, id, other)
  {
  }

  /** What a batch is, column by column. */
  ghost predicate IsSweepBatch(s: Db, job: Job, began: Instant, snapshot: map<StepId, Row>, scannedAt: Instant, ids: seq<StepId>) {
    && |ids| <= 100
    && (forall id :: id in ids ==> CanTake(s, job, began, snapshot, scannedAt, id))
    && (forall i, j :: 0 <= i < j < |ids| ==> SweptBefore(job, snapshot, ids[i], ids[j]))
    && (forall other :: CanTake(s, job, began, snapshot, scannedAt, other) && other !in ids ==>
          |ids| == 100 && forall id :: id in ids ==> SweptBefore(job, snapshot, id, other))
  }

  /**
   * A sweep takes rows it can lock in the order of their deadlines (or of availability), then ids; it leaves
   * one that it could have taken only when it has a hundred, all of them before it.
   */
  lemma SweepTakesTheFirst(s: Db, job: Job, began: Instant, snapshot: map<StepId, Row>, scannedAt: Instant)
    requires IsSweep(job)
    ensures IsSweepBatch(s, job, began, snapshot, scannedAt, Batch(s, job, began, snapshot, scannedAt))
  {
    SelectionIsFirst(s, job, began, snapshot, scannedAt);
    var ids := Batch(s, job, began, snapshot, scannedAt);
    var pool := Lockable(s, job, began, snapshot, scannedAt);
    forall id ensures id in pool <==> CanTake(s, job, began, snapshot, scannedAt, id) {
      LockableIff(s, job, began, snapshot, scannedAt, id);
    }
    forall i: nat, j: nat | i < j < |ids| ensures SweptBefore(job, snapshot, ids[i], ids[j]) {
      assert InOrder(RankIn(job, snapshot), ids, i, j);
      assert ids[i] in ids && ids[j] in ids;
      RankedIsSweptBefore(job, snapshot, ids[i], ids[j]);
    }
    forall other | other in pool && other !in ids
      ensures |ids| == 100 && forall id :: id in ids ==> SweptBefore(job, snapshot, id, other)
    {
      forall id | id in ids ensures SweptBefore(job, snapshot, id, other) {
        RankedIsSweptBefore(job, snapshot, id, other);
      }
    }
  }

  // ---------------------------------------------------------------- no row is swept twice

  /** Writes waiting for COMMIT in different transactions are on different rows. */
  lemma ConcurrentSweepsAreDisjoint(rows: map<StepId, Row>, clock: Instant, actions: seq<Action>,
                                    t: TxId, u: TxId, i: nat, j: nat)
    requires var s := After(rows, clock, actions);
      t in s.txs && u in s.txs && t != u && i < |s.txs[t].staged| && j < |s.txs[u].staged|
    ensures var s := After(rows, clock, actions); s.txs[t].staged[i].id != s.txs[u].staged[j].id
  {
    RunKeeps(rows, clock, actions);
    var s := After(rows, clock, actions);
    assert TxOk(s, t) && TxOk(s, u);
    StagedRowsAreHeld(s, t, i);
    StagedRowsAreHeld(s, u, j);
  }

  /** A generation is recovered at most once. */
  lemma OneRecoveryPerGeneration(row0: Row, tr: seq<Entry>, i: nat, j: nat)
    requires Chain(row0, tr) && i < j < |tr| && tr[i].op.Recover? && tr[j].op.Recover?
    ensures tr[i].before.leaseVersion < tr[j].before.leaseVersion
  {
    assert Link(row0, tr, i) && Link(row0, tr, j);
    OverStaysOver(row0, tr, i + 1, j, tr[i].before.leaseVersion);
  }

  /** A scheduled retry is promoted at most once: a second promotion is of a later attempt. */
  lemma OnePromotionPerAttempt(row0: Row, tr: seq<Entry>, i: nat, j: nat)
    requires Chain(row0, tr) && i < j < |tr| && tr[i].op.Promote? && tr[j].op.Promote?
    ensures tr[i].before.attemptCount < tr[j].before.attemptCount
  {
    assert Link(row0, tr, i) && Link(row0, tr, j);
    AfterPromotion(row0, tr, i, j);
  }

  lemma {:induction false} AfterPromotion(row0: Row, tr: seq<Entry>, i: nat, k: nat)
    requires Chain(row0, tr) && i < k <= |tr| && tr[i].op.Promote?
    ensures var r := RowAt(row0, tr, k);
      r.attemptCount > tr[i].before.attemptCount || (r.status == Ready && r.attemptCount == tr[i].before.attemptCount)
    decreases k
  {
    assert Link(row0, tr, k - 1);
    if k > i + 1 {
      AfterPromotion(row0, tr, i, k - 1);
    }
  }

  // ---------------------------------------------------------------- working off a backlog

  predicate IsSweep(job: Job) {
    job.RecoverSweep? || job.PromoteSweep?
  }

  function Due(s: Db, job: Job): set<StepId>
    requires IsSweep(job)
  {
    set id | id in s.rows && Accepts(JobOp(job), s.rows[id], s.clock, s.clock)
  }

  lemma DueIff(s: Db, job: Job, id: StepId)
    requires IsSweep(job)
    ensures id in Due(s, job) <==>
            id in s.rows && if job.RecoverSweep? then LapsedBy(s.rows[id], s.clock) else RetryDueBy(s.rows[id], s.clock)
  {
    if id in s.rows { AcceptedIff(JobOp(job), s.rows[id], s.clock, s.clock); }
  }

  /** One sweep that nothing interrupts. */
  function SweepActions(tx: TxId, job: Job): seq<Action> {
    [Begin(tx, job), Scan(tx), SelectSkipLocked(tx), Commit(tx)]
  }

  ghost predicate Idle(s: Db, tx: TxId) {
    s.locks == map[] && tx !in s.txs
  }

  ghost function SweepBatch(s: Db, job: Job): seq<StepId>
    requires IsSweep(job)
  {
    Batch(s, job, s.clock, s.rows, s.clock)
  }

  /** With no locks held, everything due is lockable. */
  lemma AllDueIsLockable(s: Db, job: Job)
    requires IsSweep(job) && s.locks == map[]
    ensures Lockable(s, job, s.clock, s.rows, s.clock) == Due(s, job)
  {
  }

  /** The sweep's transaction once its statement has taken its snapshot. */
  function ScannedTx(s: Db, job: Job): Tx {
    Tx(job, s.clock, Scanned(s.rows, s.clock), None, [], [])
  }

  /** The state in which an uninterrupted sweep has done everything but COMMIT. */
  ghost function Swept(s: Db, tx: TxId, job: Job): Db
    requires IsSweep(job)
  {
    var t := ScannedTx(s, job);
    var s2 := WithTx(s, tx, t);
    var ids := SweepBatch(s, job);
    if ids == [] then WithTx(s2, tx, t.(phase := Finished)) else SweepStep(Acquire(s2, tx, t, ids, Finished), tx)
  }

  lemma SelectReachesSwept(s: Db, tx: TxId, job: Job)
    requires Idle(s, tx) && IsSweep(job)
    ensures Step(WithTx(s, tx, ScannedTx(s, job)), SelectSkipLocked(tx)) == Swept(s, tx, job)
  {
  }

  lemma SweepReachesSwept(s: Db, tx: TxId, job: Job)
    requires Idle(s, tx) && IsSweep(job)
    ensures Run(s, SweepActions(tx, job)) == Step(Swept(s, tx, job), Commit(tx))
  {
    RunFour(s, Begin(tx, job), Scan(tx), SelectSkipLocked(tx), Commit(tx));
    assert Step(Step(s, Begin(tx, job)), Scan(tx)) == WithTx(s, tx, ScannedTx(s, job));
    SelectReachesSwept(s, tx, job);
  }

  /** A staged entry resolves one due row of the state the sweep started from. */
  ghost predicate Resolves(s: Db, job: Job, id: StepId, e: Entry)
    requires IsSweep(job)
  {
    && e.id == id && id in s.rows && Accepts(JobOp(job), s.rows[id], s.clock, s.clock)
    && e.after == Effect(JobOp(job), s.rows[id], s.clock, s.clock)
  }

  lemma SweptFrame(s: Db, tx: TxId, job: Job)
    requires Idle(s, tx) && IsSweep(job)
    ensures var p := Swept(s, tx, job);
      && p.rows == s.rows && p.clock == s.clock
      && tx in p.txs && p.txs[tx].phase.Finished? && p.txs - {tx} == s.txs
      && (forall id :: id in p.locks ==> p.locks[id] == tx)
  {
    var t := ScannedTx(s, job);
    var ids := SweepBatch(s, job);
    if ids != [] {
      SweepStepFrame(Acquire(WithTx(s, tx, t), tx, t, ids, Finished), tx);
    }
  }

  lemma SweepStepFrame(s: Db, tx: TxId)
    requires tx in s.txs
    ensures var p := SweepStep(s, tx);
      && p.rows == s.rows && p.clock == s.clock && p.locks == s.locks
      && tx in p.txs && p.txs[tx].phase == s.txs[tx].phase && p.txs - {tx} == s.txs - {tx}
  {
  }

  lemma SweepStepStages(s: Db, tx: TxId)
    requires tx in s.txs && s.txs[tx].xid.Some? && IsSweep(s.txs[tx].job) && s.txs[tx].began == s.clock
    requires var t := s.txs[tx]; forall id :: id in t.held ==> id in s.rows && Accepts(JobOp(t.job), s.rows[id], s.clock, s.clock)
    ensures var t := s.txs[tx]; var p := SweepStep(s, tx);
      && tx in p.txs && |p.txs[tx].staged| == |t.held|
      && forall i :: 0 <= i < |t.held| ==> Resolves(s, t.job, t.held[i], p.txs[tx].staged[i])
  {
  }

  /** The i-th staged write is of the i-th held row, now, in every column the sweep's own, with the i-th new event id. */
  ghost predicate WroteOne(s: Db, t: Tx, tx: TxId, i: nat) {
    && i < |t.staged| && i < |t.held| && !t.job.LockOnly?
    && var e := t.staged[i];
       && e.id == t.held[i] && e.id in s.rows && e.before == s.rows[e.id] && e.at == s.clock && e.tx == tx
       && e.op == JobOp(t.job) && IsItsWrite(e)
       && e.event.Some? && e.event.value.id == s.nextEventId + i && e.event.value.stepId == e.id && Some(e.event.value.xid) == t.xid
  }

  /** What a sweep's statement writes over the rows it has locked. */
  lemma SweepStepOnColumns(s: Db, tx: TxId)
    requires tx in s.txs && s.txs[tx].xid.Some? && IsSweep(s.txs[tx].job) && s.txs[tx].began <= s.clock
    requires var t := s.txs[tx]; forall id :: id in t.held ==> id in s.rows && Accepts(JobOp(t.job), s.rows[id], t.began, s.clock)
    ensures var s' := SweepStep(s, tx);
      && s'.nextEventId == s.nextEventId + |s.txs[tx].held|
      && tx in s'.txs && |s'.txs[tx].staged| == |s.txs[tx].held|
      && forall i {:trigger WroteOne(s, s'.txs[tx], tx, i)} :: 0 <= i < |s.txs[tx].held| ==> WroteOne(s, s'.txs[tx], tx, i)
  {
    var t := s.txs[tx];
    var t' := SweepStep(s, tx).txs[tx];
    forall i | 0 <= i < |t.held| ensures WroteOne(s, t', tx, i) {
      assert t.held[i] in t.held;
      EntryIsItsWrite(t'.staged[i]);
    }
  }

  lemma SweptStages(s: Db, tx: TxId, job: Job)
    requires Idle(s, tx) && IsSweep(job)
    ensures var p := Swept(s, tx, job); var ids := SweepBatch(s, job);
      && tx in p.txs && |p.txs[tx].staged| == |ids|
      && (forall i :: 0 <= i < |ids| ==> Resolves(s, job, ids[i], p.txs[tx].staged[i]))
  {
    var ids := SweepBatch(s, job);
    BatchIsLockable(s, job, s.clock, s.rows, s.clock);
    if ids != [] {
      var s3 := Acquire(WithTx(s, tx, ScannedTx(s, job)), tx, ScannedTx(s, job), ids, Finished);
      forall id | id in s3.txs[tx].held ensures id in s3.rows && Accepts(JobOp(job), s3.rows[id], s3.clock, s3.clock) {
        assert id in Lockable(s, job, s.clock, s.rows, s.clock);
      }
      SweepStepStages(s3, tx);
      forall i | 0 <= i < |ids| ensures Resolves(s, job, ids[i], SweepStep(s3, tx).txs[tx].staged[i]) {
        assert Resolves(s3, job, ids[i], SweepStep(s3, tx).txs[tx].staged[i]);
      }
    }
  }

  ghost predicate Resolved(s: Db, job: Job, ids: seq<StepId>, s': Db, id: StepId)
    requires IsSweep(job) && id in s.rows
  {
    && id in s'.rows
    && (id !in ids ==> s'.rows[id] == s.rows[id])
    && (id in ids ==> Accepts(JobOp(job), s.rows[id], s.clock, s.clock)
                      && s'.rows[id] == Effect(JobOp(job), s.rows[id], s.clock, s.clock))
  }

  lemma InstallResolves(s: Db, job: Job, ids: seq<StepId>, staged: seq<Entry>, s': Db, id: StepId)
    requires IsSweep(job) && id in s.rows && s'.rows == Install(s.rows, staged) && |staged| == |ids|
    requires forall i, j :: 0 <= i < j < |ids| ==> ids[i] != ids[j]
    requires forall i :: 0 <= i < |ids| ==> Resolves(s, job, ids[i], staged[i])
    ensures Resolved(s, job, ids, s', id)
  {
    forall i, j | 0 <= i < j < |staged| ensures staged[i].id != staged[j].id {
      assert Resolves(s, job, ids[i], staged[i]) && Resolves(s, job, ids[j], staged[j]);
    }
    InstallAt(s.rows, staged, id);
    if id in ids {
      var i :| 0 <= i < |ids| && ids[i] == id;
      assert Resolves(s, job, ids[i], staged[i]);
      assert staged[i].id in s'.rows;
    } else {
      forall i | 0 <= i < |staged| ensures staged[i].id != id {
        assert Resolves(s, job, ids[i], staged[i]);
      }
    }
  }

  /** An uninterrupted sweep resolves its batch and nothing else, and leaves no lock behind. */
  lemma OneSweep(s: Db, tx: TxId, job: Job)
    requires Idle(s, tx) && IsSweep(job)
    ensures var s' := Run(s, SweepActions(tx, job)); var ids := SweepBatch(s, job);
      && Idle(s', tx) && s'.clock == s.clock && s'.txs == s.txs && s'.rows.Keys == s.rows.Keys
      && (forall id :: id in s.rows ==> Resolved(s, job, ids, s', id))
      && (forall id :: id in ids ==> id in s.rows)
  {
    SweepReachesSwept(s, tx, job);
    SweptFrame(s, tx, job);
    SweptStages(s, tx, job);
    BatchIsLockable(s, job, s.clock, s.rows, s.clock);
    var p, s', ids := Swept(s, tx, job), Run(s, SweepActions(tx, job)), SweepBatch(s, job);
    assert s' == CommitStep(p, tx, p.txs[tx]);
    forall id | id in s.rows ensures Resolved(s, job, ids, s', id) {
      InstallResolves(s, job, ids, p.txs[tx].staged, s', id);
    }
    SweepKeys(s, job, ids, p.txs[tx].staged);
    assert s'.locks == map[];
  }

  lemma SweepKeys(s: Db, job: Job, ids: seq<StepId>, staged: seq<Entry>)
    requires IsSweep(job) && |staged| == |ids|
    requires forall i, j :: 0 <= i < j < |ids| ==> ids[i] != ids[j]
    requires forall i :: 0 <= i < |ids| ==> Resolves(s, job, ids[i], staged[i])
    ensures Install(s.rows, staged).Keys == s.rows.Keys
    ensures forall id :: id in ids ==> id in s.rows
  {
    forall i | 0 <= i < |staged| ensures staged[i].id == ids[i] && ids[i] in s.rows {
      assert Resolves(s, job, ids[i], staged[i]);
    }
    InstallAt(s.rows, staged, 0);
  }

  /** A sweep takes exactly its batch out of the due rows. */
  lemma SweepShrinksDue(s: Db, tx: TxId, job: Job)
    requires Idle(s, tx) && IsSweep(job)
    ensures var s' := Run(s, SweepActions(tx, job));
      && Idle(s', tx) && s'.clock == s.clock && s'.txs == s.txs
      && Due(s', job) == Due(s, job) - Elements(SweepBatch(s, job))
      && |Due(s', job)| == Max(0, |Due(s, job)| - 100)
  {
    OneSweep(s, tx, job);
    AllDueIsLockable(s, job);
    BatchIsLockable(s, job, s.clock, s.rows, s.clock);
    var s', ids := Run(s, SweepActions(tx, job)), SweepBatch(s, job);
    assert Elements(ids) <= Due(s, job);
    forall id | id in s.rows ensures id in Due(s', job) <==> id in Due(s, job) && id !in ids {
      assert Resolved(s, job, ids, s', id);
      if id in ids { ResolvedIsNotDue(s, job, id); }
    }
    assert Due(s', job) == Due(s, job) - Elements(ids);
    DistinctCount(ids);
  }

  lemma ResolvedIsNotDue(s: Db, job: Job, id: StepId)
    requires IsSweep(job) && id in s.rows && Accepts(JobOp(job), s.rows[id], s.clock, s.clock)
    ensures !Accepts(JobOp(job), Effect(JobOp(job), s.rows[id], s.clock, s.clock), s.clock, s.clock)
  {
  }

  lemma {:induction false} DistinctCount(ids: seq<StepId>)
    requires forall i, j :: 0 <= i < j < |ids| ==> ids[i] != ids[j]
    ensures |Elements(ids)| == |ids|
  {
    if ids != [] {
      var n := |ids| - 1;
      DistinctCount(ids[..n]);
      assert Elements(ids) == Elements(ids[..n]) + {ids[n]};
    }
  }

  /** What happens between two sweeps, time passing included, leaves no lock behind and nothing newly or no longer due. */
  ghost predicate Calm(s: Db, pause: seq<Action>, tx: TxId, job: Job)
    requires IsSweep(job)
  {
    Idle(Run(s, pause), tx) && Due(Run(s, pause), job) == Due(s, job)
  }

  /** A sweep and then a pause, as often as there are pauses. */
  function SweepsAndPauses(tx: TxId, job: Job, pauses: seq<seq<Action>>): seq<Action> {
    if pauses == [] then []
    else SweepsAndPauses(tx, job, pauses[..|pauses| - 1]) + SweepActions(tx, job) + pauses[|pauses| - 1]
  }

  ghost predicate CalmAt(s: Db, tx: TxId, job: Job, pauses: seq<seq<Action>>, n: nat)
    requires IsSweep(job) && n < |pauses|
  {
    Calm(Run(s, SweepsAndPauses(tx, job, pauses[..n]) + SweepActions(tx, job)), pauses[n], tx, job)
  }

  ghost predicate CalmThroughout(s: Db, tx: TxId, job: Job, pauses: seq<seq<Action>>)
    requires IsSweep(job)
  {
    forall n {:trigger CalmAt(s, tx, job, pauses, n)} :: 0 <= n < |pauses| ==> CalmAt(s, tx, job, pauses, n)
  }

  lemma CalmPrefix(s: Db, tx: TxId, job: Job, pauses: seq<seq<Action>>, n: nat)
    requires IsSweep(job) && CalmThroughout(s, tx, job, pauses) && n <= |pauses|
    ensures CalmThroughout(s, tx, job, pauses[..n])
  {
    forall m | 0 <= m < n ensures CalmAt(s, tx, job, pauses[..n], m) {
      assert pauses[..n][..m] == pauses[..m];
      assert CalmAt(s, tx, job, pauses, m);
    }
  }

  /**
   * Whatever others do and however much time passes between the sweeps, if each pause leaves no lock and
   * the due rows as they are, k sweeps leave exactly max(0, n - 100 k) of n due rows.
   */
  lemma {:induction false} BacklogAfterSweeps(s: Db, tx: TxId, job: Job, pauses: seq<seq<Action>>)
    requires Idle(s, tx) && IsSweep(job) && CalmThroughout(s, tx, job, pauses)
    ensures var s' := Run(s, SweepsAndPauses(tx, job, pauses));
      Idle(s', tx) && |Due(s', job)| == Max(0, |Due(s, job)| - 100 * |pauses|)
  {
    if pauses != [] {
      var n := |pauses| - 1;
      var before := SweepsAndPauses(tx, job, pauses[..n]);
      CalmPrefix(s, tx, job, pauses, n);
      BacklogAfterSweeps(s, tx, job, pauses[..n]);
      RunConcat(s, before, SweepActions(tx, job));
      RunConcat(s, before + SweepActions(tx, job), pauses[n]);
      SweepShrinksDue(Run(s, before), tx, job);
      assert CalmAt(s, tx, job, pauses, n);
      OneMoreHundred(|Due(s, job)|, n);
    }
  }

  lemma OneMoreHundred(due: nat, n: nat)
    ensures Max(0, Max(0, due - 100 * n) - 100) == Max(0, due - 100 * (n + 1))
  {
  }

  /** Time alone is such a pause until the next row falls due. */
  lemma WaitingIsCalm(s: Db, tx: TxId, job: Job, wait: nat)
    requires IsSweep(job) && Idle(s, tx)
    ensures Calm(s, [Tick(wait)], tx, job) <==>
            forall id :: id in s.rows && Accepts(JobOp(job), s.rows[id], s.clock + wait, s.clock + wait) ==> id in Due(s, job)
  {
    var pause := [Tick(wait)];
    assert pause[..|pause| - 1] == [];
    var s' := Run(s, pause);
    assert s' == Step(Run(s, []), Tick(wait));
    assert Due(s, job) <= Due(s', job);
  }
}
