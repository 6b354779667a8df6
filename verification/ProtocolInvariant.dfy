/** The invariant of the protocol, and its preservation by every action. */
module ProtocolInvariant {
  import opened Base
  import opened StepSpec
  import opened RowHistory
  import opened Ordering
  import opened Protocol

  // ---------------------------------------------------------------- the invariant

  /** The lock table and the transactions agree on who holds which row. */
  ghost predicate LocksOk(s: Db) {
    && (forall id :: id in s.locks ==> s.locks[id] in s.txs && id in s.txs[s.locks[id]].held)
    && (forall tx, id :: tx in s.txs && id in s.txs[tx].held ==> id in s.locks && s.locks[id] == tx && id in s.rows)
  }

  /** A write waiting for COMMIT: authorized against the version that is still the committed one. */
  ghost predicate StagedOk(s: Db, tx: TxId, t: Tx, e: Entry) {
    && e.tx == tx && t.xid == Some(e.xid)
    && !t.job.LockOnly? && e.op == JobOp(t.job)
    && e.id in t.held && e.id in s.rows && e.before == s.rows[e.id]
    && EntryOk(e) && e.began == t.began && e.at <= s.clock
    && (e.event.Some? ==> e.event.value.id < s.nextEventId)
    && (if t.phase.Finished? then Recorded(e) else e.event == None && EventOf(e.op, e.before, e.after).Some?)
  }

  ghost predicate PhaseOk(s: Db, t: Tx) {
    match t.phase
    case Begun => t.held == [] && t.staged == [] && t.xid == None
    case Scanned(_, scannedAt) => t.held == [] && t.staged == [] && t.xid == None && scannedAt <= s.clock && IsSelecting(t.job)
    case Holding => |t.held| == 1 && t.staged == [] && (t.job.OwnerWrite? || t.job.ClaimNext?)
    case Written => |t.held| == 1 && |t.staged| == 1
    case Finished => true
  }

  ghost predicate TxOk(s: Db, tx: TxId)
    requires tx in s.txs
  {
    var t := s.txs[tx];
    && t.began <= s.clock && JobAllowed(t.job) && PhaseOk(s, t)
    && (t.held != [] ==> t.xid.Some?)
    && (t.xid.Some? ==> t.xid.value < s.nextXid)
    && (t.job.OwnerWrite? && t.held != [] ==> t.held == [t.job.id])
    && (t.job.ClaimNext? && t.phase.Holding? ==>
          t.held[0] in s.rows && Accepts(JobOp(t.job), s.rows[t.held[0]], t.began, t.began))
    && (forall i, j :: 0 <= i < j < |t.held| ==> t.held[i] != t.held[j])
    && (forall i :: 0 <= i < |t.staged| ==> StagedOk(s, tx, t, t.staged[i]))
    && (forall i, j :: 0 <= i < j < |t.staged| ==> t.staged[i].id != t.staged[j].id)
  }

  ghost predicate TxsOk(s: Db) {
    && (forall tx {:trigger TxOk(s, tx)} :: tx in s.txs ==> TxOk(s, tx))
    && (forall t, u :: t in s.txs && u in s.txs && t != u && s.txs[t].xid.Some? ==> s.txs[t].xid != s.txs[u].xid)
  }

  /** Each committed row is where the chain of its committed writes leads. */
  ghost predicate HistoryOk(init: map<StepId, Row>, s: Db) {
    && s.rows.Keys == init.Keys
    && (forall id {:trigger Trace(s.history, id)} :: id in init ==>
          && Chain(init[id], Trace(s.history, id))
          && s.rows[id] == RowAt(init[id], Trace(s.history, id), |Trace(s.history, id)|))
    && (forall k :: 0 <= k < |s.history| ==> s.history[k].id in init && s.history[k].at <= s.clock)
  }

  /** What was committed on a row before its present holder locked it: earlier clock, xid and event id. */
  ghost predicate Earlier(h: Entry, e: Entry) {
    && h.at <= e.at && h.xid < e.xid
    && (h.event.Some? && e.event.Some? ==> h.event.value.id < e.event.value.id)
  }

  /** A transaction comes after everything committed on the rows it holds. */
  ghost predicate AfterHistory(history: seq<Entry>, t: Tx) {
    && (forall k :: 0 <= k < |history| && history[k].id in t.held ==> t.xid.Some? && history[k].xid < t.xid.value)
    && (forall k, i :: 0 <= k < |history| && 0 <= i < |t.staged| && history[k].id == t.staged[i].id
                       ==> Earlier(history[k], t.staged[i]))
  }

  ghost predicate HistoryOrdered(s: Db) {
    && (forall k :: 0 <= k < |s.history| ==>
          && s.history[k].xid < s.nextXid
          && (s.history[k].event.Some? ==> s.history[k].event.value.id < s.nextEventId))
    && (forall j, k :: 0 <= j < k < |s.history| && s.history[j].id == s.history[k].id
                       ==> Earlier(s.history[j], s.history[k]))
  }

  ghost predicate OrderOk(s: Db) {
    && HistoryOrdered(s)
    && (forall tx {:trigger AfterHistory(s.history, s.txs[tx])} :: tx in s.txs ==> AfterHistory(s.history, s.txs[tx]))
  }

  ghost predicate Inv(init: map<StepId, Row>, s: Db) {
    LocksOk(s) && TxsOk(s) && HistoryOk(init, s) && OrderOk(s)
  }

  // ---------------------------------------------------------------- frames

  /** A transaction is not disturbed by what others do to rows it has not locked. */
  lemma TxFrame(s: Db, s': Db, tx: TxId)
    requires tx in s.txs && TxOk(s, tx) && tx in s'.txs && s'.txs[tx] == s.txs[tx]
    requires s.clock <= s'.clock && s.nextXid <= s'.nextXid && s.nextEventId <= s'.nextEventId
    requires forall id :: id in s.txs[tx].held && id in s.rows ==> id in s'.rows && s'.rows[id] == s.rows[id]
    ensures TxOk(s', tx)
  {
  }

  lemma HistoryFrame(init: map<StepId, Row>, s: Db, s': Db)
    requires HistoryOk(init, s) && s'.rows == s.rows && s'.history == s.history && s.clock <= s'.clock
    ensures HistoryOk(init, s')
  {
  }

  lemma OrderFrame(s: Db, s': Db)
    requires OrderOk(s) && s'.history == s.history
    requires s.nextXid <= s'.nextXid && s.nextEventId <= s'.nextEventId
    requires forall tx :: tx in s'.txs && !(tx in s.txs && s'.txs[tx] == s.txs[tx]) ==> AfterHistory(s.history, s'.txs[tx])
    ensures OrderOk(s')
  {
  }

  /** One transaction's record replaced, the others and the rows left alone. */
  ghost predicate OnlyTxChanged(s: Db, tx: TxId, t: Tx, s': Db) {
    && s'.txs == s.txs[tx := t] && s'.rows == s.rows && s'.history == s.history
    && s'.clock == s.clock && s.nextXid <= s'.nextXid && s.nextEventId <= s'.nextEventId
  }

  lemma LocalTxs(s: Db, tx: TxId, t: Tx, s': Db)
    requires TxsOk(s) && OnlyTxChanged(s, tx, t, s') && TxOk(s', tx)
    requires forall u :: u in s.txs && u != tx && t.xid.Some? ==> s.txs[u].xid != t.xid
    ensures TxsOk(s')
  {
    forall u | u in s'.txs ensures TxOk(s', u) {
      if u != tx { TxFrame(s, s', u); }
    }
  }

  lemma LocalLocks(s: Db, tx: TxId, t: Tx, s': Db)
    requires LocksOk(s) && s'.locks == s.locks && s'.rows == s.rows && s'.txs == s.txs[tx := t]
    requires t.held == if tx in s.txs then s.txs[tx].held else []
    ensures LocksOk(s')
  {
  }

  /** Replacing one transaction's record, without touching locks, rows or history. */
  lemma LocalChange(init: map<StepId, Row>, s: Db, tx: TxId, t: Tx, s': Db)
    requires Inv(init, s)
    requires OnlyTxChanged(s, tx, t, s') && s'.locks == s.locks
    requires t.held == if tx in s.txs then s.txs[tx].held else []
    requires t.xid == if tx in s.txs then s.txs[tx].xid else None
    requires TxOk(s', tx) && AfterHistory(s.history, t)
    ensures Inv(init, s')
  {
    LocalTxs(s, tx, t, s');
    LocalLocks(s, tx, t, s');
    HistoryFrame(init, s, s');
    OrderFrame(s, s');
  }

  /** With the same locks and nothing staged, a transaction still comes after the history of its rows. */
  lemma AfterHistoryKept(s: Db, tx: TxId, t: Tx)
    requires OrderOk(s) && tx in s.txs && t.held == s.txs[tx].held && t.xid == s.txs[tx].xid
    requires t.staged == [] || t.staged == s.txs[tx].staged
    ensures AfterHistory(s.history, t)
  {
    assert AfterHistory(s.history, s.txs[tx]);
  }

  lemma TickKeeps(init: map<StepId, Row>, s: Db, elapsed: nat)
    requires Inv(init, s)
    ensures Inv(init, Step(s, Tick(elapsed)))
  {
    var s' := Step(s, Tick(elapsed));
    TickTxs(s, elapsed);
    HistoryFrame(init, s, s');
    OrderFrame(s, s');
  }

  lemma TickTxs(s: Db, elapsed: nat)
    requires TxsOk(s)
    ensures TxsOk(s.(clock := s.clock + elapsed))
  {
    var s' := s.(clock := s.clock + elapsed);
    forall u | u in s'.txs ensures TxOk(s', u) { TxFrame(s, s', u); }
  }

  lemma BeginKeeps(init: map<StepId, Row>, s: Db, tx: TxId, job: Job)
    requires Inv(init, s)
    ensures Inv(init, Step(s, Begin(tx, job)))
  {
    if tx !in s.txs && JobAllowed(job) {
      LocalChange(init, s, tx, Tx(job, s.clock, Begun, None, [], []), Step(s, Begin(tx, job)));
    }
  }

  lemma ScanKeeps(init: map<StepId, Row>, s: Db, tx: TxId)
    requires Inv(init, s)
    ensures Inv(init, Step(s, Scan(tx)))
  {
    if tx in s.txs && s.txs[tx].phase.Begun? && IsSelecting(s.txs[tx].job) {
      assert TxOk(s, tx);
      AfterHistoryKept(s, tx, s.txs[tx].(phase := Scanned(s.rows, s.clock)));
      LocalChange(init, s, tx, s.txs[tx].(phase := Scanned(s.rows, s.clock)), Step(s, Scan(tx)));
    }
  }

  /** Taking the locks of unlocked rows for a transaction that holds none. */
  lemma AcquireKeeps(init: map<StepId, Row>, s: Db, tx: TxId, ids: seq<StepId>, phase: Phase)
    requires Inv(init, s) && tx in s.txs && s.txs[tx].held == [] && s.txs[tx].staged == []
    requires forall id :: id in ids ==> id !in s.locks && id in s.rows
    requires forall i, j :: 0 <= i < j < |ids| ==> ids[i] != ids[j]
    requires phase.Finished? || (phase.Holding? && |ids| == 1 && (s.txs[tx].job.OwnerWrite? || s.txs[tx].job.ClaimNext?))
    requires s.txs[tx].job.OwnerWrite? ==> ids == [s.txs[tx].job.id]
    requires s.txs[tx].job.ClaimNext? ==>
               |ids| == 1 && ids[0] in s.rows && Accepts(JobOp(s.txs[tx].job), s.rows[ids[0]], s.txs[tx].began, s.txs[tx].began)
    ensures Inv(init, Acquire(s, tx, s.txs[tx], ids, phase))
  {
    var s' := Acquire(s, tx, s.txs[tx], ids, phase);
    var t := s'.txs[tx];
    assert TxOk(s, tx);
    forall u | u in s.txs && u != tx ensures s.txs[u].xid != t.xid {
      assert TxOk(s, u);
    }
    LocalTxs(s, tx, t, s');
    AcquireLocks(s, tx, ids, s');
    HistoryFrame(init, s, s');
    OrderFrame(s, s');
  }

  lemma AcquireLocks(s: Db, tx: TxId, ids: seq<StepId>, s': Db)
    requires LocksOk(s) && tx in s.txs && s.txs[tx].held == [] && s'.rows == s.rows
    requires forall id :: id in ids ==> id !in s.locks && id in s.rows
    requires s'.locks == LockAll(s.locks, ids, tx)
    requires tx in s'.txs && s'.txs == s.txs[tx := s'.txs[tx]] && s'.txs[tx].held == ids
    ensures LocksOk(s')
  {
  }

  lemma LockRowKeeps(init: map<StepId, Row>, s: Db, tx: TxId)
    requires Inv(init, s)
    ensures Inv(init, Step(s, LockRow(tx)))
  {
    if tx in s.txs && s.txs[tx].phase.Begun? && (s.txs[tx].job.OwnerWrite? || s.txs[tx].job.LockOnly?) {
      var t := s.txs[tx];
      assert TxOk(s, tx);
      if t.job.id !in s.rows {
        AfterHistoryKept(s, tx, t.(phase := Finished));
        LocalChange(init, s, tx, t.(phase := Finished), Step(s, LockRow(tx)));
      } else if t.job.id !in s.locks {
        AcquireKeeps(init, s, tx, [t.job.id], if t.job.LockOnly? then Finished else Holding);
      }
    }
  }

  // ---------------------------------------------------------------- selecting statements

  lemma RankDistinguishes(job: Job, snapshot: map<StepId, Row>, ids: set<StepId>)
    requires IsSelecting(job) && ids <= snapshot.Keys
    ensures Distinguishes(RankIn(job, snapshot), ids)
  {
  }

  /** What a selecting statement locks: distinct, unlocked rows whose newest version still qualifies. */
  lemma BatchIsLockable(s: Db, job: Job, began: Instant, snapshot: map<StepId, Row>, scannedAt: Instant)
    requires IsSelecting(job)
    ensures var ids := Batch(s, job, began, snapshot, scannedAt);
      && |ids| == Min(Limit(job), |Lockable(s, job, began, snapshot, scannedAt)|)
      && (forall i, j :: 0 <= i < j < |ids| ==> ids[i] != ids[j])
      && (forall id :: id in ids ==> id in Lockable(s, job, began, snapshot, scannedAt))
  {
    var pool := Lockable(s, job, began, snapshot, scannedAt);
    var key := RankIn(job, snapshot);
    RankDistinguishes(job, snapshot, pool);
    SortSetSorts(key, pool);
    FirstOfListing(key, pool, SortSet(key, pool), Limit(job));
    forall id | id in Batch(s, job, began, snapshot, scannedAt) ensures id in pool {
      assert id in Elements(Batch(s, job, began, snapshot, scannedAt));
    }
  }

  lemma SelectKeeps(init: map<StepId, Row>, s: Db, tx: TxId)
    requires Inv(init, s)
    ensures Inv(init, Step(s, SelectSkipLocked(tx)))
  {
    if tx in s.txs && s.txs[tx].phase.Scanned? && IsSelecting(s.txs[tx].job) {
      var t := s.txs[tx];
      assert TxOk(s, tx);
      var ids := Batch(s, t.job, t.began, t.phase.snapshot, t.phase.scannedAt);
      BatchIsLockable(s, t.job, t.began, t.phase.snapshot, t.phase.scannedAt);
      if ids == [] {
        AfterHistoryKept(s, tx, t.(phase := Finished));
        LocalChange(init, s, tx, t.(phase := Finished), Step(s, SelectSkipLocked(tx)));
      } else if t.job.ClaimNext? {
        assert ids[0] in ids;
        AcquireKeeps(init, s, tx, ids, Holding);
      } else {
        SweepKeeps(init, s, tx, ids);
      }
    }
  }

  lemma SweepEntryOk(s: Db, tx: TxId, t: Tx, op: Op, ids: seq<StepId>, i: nat, s': Db, t': Tx)
    requires t.xid.Some? && t.held == ids && i < |ids| && !t.job.LockOnly? && op == JobOp(t.job)
    requires t.began <= s.clock == s'.clock && s'.rows == s.rows && s'.nextEventId == s.nextEventId + |ids|
    requires forall id :: id in ids ==> id in s.rows && Accepts(op, s.rows[id], t.began, s.clock)
    requires op.Recover? || op.Promote?
    requires t' == t.(staged := SweepEntries(s, tx, t, op, ids)) && t.phase.Finished?
    ensures StagedOk(s', tx, t', t'.staged[i])
  {
  }

  /** A sweep's transaction right after its one statement. */
  lemma SweepTxOk(s: Db, tx: TxId, t: Tx, op: Op, s': Db, t': Tx)
    requires tx in s.txs && s.txs[tx] == t && TxOk(s, tx)
    requires (t.job.RecoverSweep? || t.job.PromoteSweep?) && op == JobOp(t.job) && t.phase.Finished? && t.xid.Some?
    requires forall id :: id in t.held ==> id in s.rows && Accepts(op, s.rows[id], t.began, s.clock)
    requires t' == t.(staged := SweepEntries(s, tx, t, op, t.held))
    requires s' == WithTx(s, tx, t').(nextEventId := s.nextEventId + |t.held|)
    ensures TxOk(s', tx)
  {
    var staged := t'.staged;
    forall i | 0 <= i < |staged| ensures StagedOk(s', tx, t', staged[i]) {
      SweepEntryOk(s, tx, t, op, t.held, i, s', t');
    }
    forall i, j | 0 <= i < j < |staged| ensures staged[i].id != staged[j].id {
      SweepIds(s, tx, t, op, i);
      SweepIds(s, tx, t, op, j);
    }
  }

  lemma SweepIds(s: Db, tx: TxId, t: Tx, op: Op, i: nat)
    requires t.xid.Some? && i < |t.held|
    requires forall id :: id in t.held ==> id in s.rows && Accepts(op, s.rows[id], t.began, s.clock)
    ensures SweepEntries(s, tx, t, op, t.held)[i].id == t.held[i]
  {
  }

  lemma SweepAfterHistory(init: map<StepId, Row>, s: Db, tx: TxId, t: Tx, op: Op, t': Tx)
    requires HistoryOk(init, s) && OrderOk(s) && tx in s.txs && s.txs[tx] == t && t.xid.Some?
    requires forall id :: id in t.held ==> id in s.rows && Accepts(op, s.rows[id], t.began, s.clock)
    requires t' == t.(staged := SweepEntries(s, tx, t, op, t.held))
    ensures AfterHistory(s.history, t')
  {
    forall i | 0 <= i < |t'.staged| ensures t'.staged[i].id in t.held {
      assert t'.staged[i].id == t.held[i];
    }
    StagedNow(init, s, tx, t', s.nextEventId);
  }

  lemma SweepWritesKeep(init: map<StepId, Row>, s: Db, tx: TxId)
    requires Inv(init, s) && tx in s.txs && s.txs[tx].phase.Finished?
    requires s.txs[tx].job.RecoverSweep? || s.txs[tx].job.PromoteSweep?
    ensures Inv(init, SweepStep(s, tx))
  {
    var t := s.txs[tx];
    var op := JobOp(t.job);
    if t.xid.Some? && forall id :: id in t.held ==> id in s.rows && Accepts(op, s.rows[id], t.began, s.clock) {
      var t' := t.(staged := SweepEntries(s, tx, t, op, t.held));
      assert TxOk(s, tx);
      SweepTxOk(s, tx, t, op, SweepStep(s, tx), t');
      SweepAfterHistory(init, s, tx, t, op, t');
      LocalChange(init, s, tx, t', SweepStep(s, tx));
    }
  }

  lemma SweepKeeps(init: map<StepId, Row>, s: Db, tx: TxId, ids: seq<StepId>)
    requires Inv(init, s) && tx in s.txs
    requires var t := s.txs[tx];
      && t.phase.Scanned? && (t.job.RecoverSweep? || t.job.PromoteSweep?)
      && ids == Batch(s, t.job, t.began, t.phase.snapshot, t.phase.scannedAt)
    ensures Inv(init, SweepStep(Acquire(s, tx, s.txs[tx], ids, Finished), tx))
  {
    var t := s.txs[tx];
    assert TxOk(s, tx);
    BatchIsLockable(s, t.job, t.began, t.phase.snapshot, t.phase.scannedAt);
    AcquireKeeps(init, s, tx, ids, Finished);
    SweepWritesKeep(init, Acquire(s, tx, t, ids, Finished), tx);
  }

  // ---------------------------------------------------------------- writes and their events

  lemma ReleaseKeeps(init: map<StepId, Row>, s: Db, tx: TxId)
    requires Inv(init, s) && tx in s.txs
    ensures Inv(init, Release(s, tx))
  {
    var s' := Release(s, tx);
    ReleaseTxs(s, tx);
    ReleaseLocks(s, tx);
    HistoryFrame(init, s, s');
    OrderFrame(s, s');
  }

  lemma ReleaseTxs(s: Db, tx: TxId)
    requires TxsOk(s) && tx in s.txs
    ensures TxsOk(Release(s, tx))
  {
    var s' := Release(s, tx);
    forall u | u in s'.txs ensures TxOk(s', u) { TxFrame(s, s', u); }
  }

  lemma ReleaseLocks(s: Db, tx: TxId)
    requires LocksOk(s) && tx in s.txs
    ensures LocksOk(Release(s, tx))
  {
  }

  /** A write made at this very instant comes after everything committed on its row. */
  lemma StagedNow(init: map<StepId, Row>, s: Db, tx: TxId, t: Tx, fromEventId: nat)
    requires HistoryOk(init, s) && OrderOk(s) && tx in s.txs && t.held == s.txs[tx].held && t.xid == s.txs[tx].xid
    requires s.nextEventId <= fromEventId
    requires forall i :: 0 <= i < |t.staged| ==>
               && t.staged[i].id in t.held && t.staged[i].at == s.clock && t.xid == Some(t.staged[i].xid)
               && (t.staged[i].event.Some? ==> fromEventId <= t.staged[i].event.value.id)
    ensures AfterHistory(s.history, t)
  {
    assert AfterHistory(s.history, s.txs[tx]);
  }

  /** The transaction's record once its write is staged. */
  function WithWrite(s: Db, tx: TxId): Tx
    requires tx in s.txs && |s.txs[tx].held| == 1 && !s.txs[tx].job.LockOnly? && s.txs[tx].xid.Some?
    requires var t := s.txs[tx]; t.held[0] in s.rows && Accepts(JobOp(t.job), s.rows[t.held[0]], t.began, s.clock)
  {
    var t := s.txs[tx];
    t.(staged := [WriteEntry(s, tx, t, t.held[0], JobOp(t.job))], phase := if JobOp(t.job).Renew? then Finished else Written)
  }

  lemma StagedWriteOk(s: Db, tx: TxId)
    requires tx in s.txs && TxOk(s, tx) && s.txs[tx].phase.Holding? && !s.txs[tx].job.LockOnly?
    requires var t := s.txs[tx]; t.held[0] in s.rows && Accepts(JobOp(t.job), s.rows[t.held[0]], t.began, s.clock)
    ensures TxOk(WithTx(s, tx, WithWrite(s, tx)), tx)
  {
    var t' := WithWrite(s, tx);
    assert t'.held[0] in t'.held;
    assert StagedOk(WithTx(s, tx, t'), tx, t', t'.staged[0]);
  }

  lemma AcceptedWriteKeeps(init: map<StepId, Row>, s: Db, tx: TxId)
    requires Inv(init, s) && tx in s.txs && s.txs[tx].phase.Holding? && |s.txs[tx].held| == 1 && !s.txs[tx].job.LockOnly?
    requires var t := s.txs[tx]; t.held[0] in s.rows && Accepts(JobOp(t.job), s.rows[t.held[0]], t.began, s.clock)
    ensures Inv(init, Step(s, Write(tx)))
  {
    assert TxOk(s, tx);
    assert s.txs[tx].held[0] in s.txs[tx].held;
    var t' := WithWrite(s, tx);
    StagedWriteOk(s, tx);
    StagedNow(init, s, tx, t', s.nextEventId);
    LocalChange(init, s, tx, t', WithTx(s, tx, t'));
  }

  lemma WriteKeeps(init: map<StepId, Row>, s: Db, tx: TxId)
    requires Inv(init, s)
    ensures Inv(init, Step(s, Write(tx)))
  {
    if tx in s.txs && s.txs[tx].phase.Holding? {
      var t := s.txs[tx];
      assert TxOk(s, tx);
      var id, op := t.held[0], JobOp(t.job);
      assert id in t.held;
      if Accepts(op, s.rows[id], t.began, s.clock) {
        AcceptedWriteKeeps(init, s, tx);
      } else if op.Claim? {
        ReleaseKeeps(init, s, tx);
      } else {
        AfterHistoryKept(s, tx, t.(phase := Finished));
        LocalChange(init, s, tx, t.(phase := Finished), Step(s, Write(tx)));
      }
    }
  }

  lemma RecordKeeps(init: map<StepId, Row>, s: Db, tx: TxId)
    requires Inv(init, s)
    ensures Inv(init, Step(s, RecordEvent(tx)))
  {
    if tx in s.txs && s.txs[tx].phase.Written? {
      var t := s.txs[tx];
      var s' := Step(s, RecordEvent(tx));
      assert TxOk(s, tx);
      var e := t.staged[0];
      assert StagedOk(s, tx, t, e);
      var e' := WithEvent(e, s.nextEventId);
      var t' := t.(staged := [e'], phase := Finished);
      assert StagedOk(s', tx, t', e');
      forall k | 0 <= k < |s.history| && s.history[k].id == e'.id ensures Earlier(s.history[k], e') {
        assert AfterHistory(s.history, t);
        assert Earlier(s.history[k], t.staged[0]);
      }
      assert AfterHistory(s.history, t') by {
        assert AfterHistory(s.history, t);
      }
      LocalChange(init, s, tx, t', s');
    }
  }

  // ---------------------------------------------------------------- commit

  lemma {:induction false} InstallKeys(rows: map<StepId, Row>, staged: seq<Entry>)
    ensures Install(rows, staged).Keys == rows.Keys + set i | 0 <= i < |staged| :: staged[i].id
  {
    if staged != [] {
      var p := staged[..|staged| - 1];
      InstallKeys(rows, p);
      assert forall i :: 0 <= i < |p| ==> p[i] == staged[i];
      assert (set i | 0 <= i < |staged| :: staged[i].id) == (set i | 0 <= i < |p| :: p[i].id) + {staged[|staged| - 1].id};
    }
  }

  lemma {:induction false} InstallAt(rows: map<StepId, Row>, staged: seq<Entry>, id: StepId)
    requires forall i, j :: 0 <= i < j < |staged| ==> staged[i].id != staged[j].id
    ensures Install(rows, staged).Keys == rows.Keys + set i | 0 <= i < |staged| :: staged[i].id
    ensures (forall i :: 0 <= i < |staged| ==> staged[i].id != id) && id in rows ==>
              id in Install(rows, staged) && Install(rows, staged)[id] == rows[id]
    ensures forall i :: 0 <= i < |staged| ==> staged[i].id in Install(rows, staged) && Install(rows, staged)[staged[i].id] == staged[i].after
  {
    InstallKeys(rows, staged);
    if staged != [] {
      var p := staged[..|staged| - 1];
      InstallAt(rows, p, id);
      assert forall i :: 0 <= i < |p| ==> p[i] == staged[i];
    }
  }

  lemma {:induction false} TraceAppend(history: seq<Entry>, more: seq<Entry>, id: StepId)
    ensures Trace(history + more, id) == Trace(history, id) + Trace(more, id)
  {
    if more == [] {
      assert history + more == history;
    } else {
      var n := |more| - 1;
      TraceAppend(history, more[..n], id);
      assert (history + more)[..|history + more| - 1] == history + more[..n];
    }
  }

  lemma {:induction false} TraceMembers(history: seq<Entry>, id: StepId)
    ensures forall e :: e in Trace(history, id) ==> e in history && e.id == id
  {
    if history != [] {
      TraceMembers(history[..|history| - 1], id);
    }
  }

  lemma {:induction false} TraceNone(staged: seq<Entry>, id: StepId)
    requires forall i :: 0 <= i < |staged| ==> staged[i].id != id
    ensures Trace(staged, id) == []
  {
    if staged != [] { TraceNone(staged[..|staged| - 1], id); }
  }

  lemma {:induction false} TraceOne(staged: seq<Entry>, i: nat)
    requires i < |staged|
    requires forall j, k :: 0 <= j < k < |staged| ==> staged[j].id != staged[k].id
    ensures Trace(staged, staged[i].id) == [staged[i]]
  {
    var n := |staged| - 1;
    if i == n {
      TraceNone(staged[..n], staged[i].id);
    } else {
      TraceOne(staged[..n], i);
    }
  }

  lemma ChainAppend(row0: Row, tr: seq<Entry>, e: Entry)
    requires Chain(row0, tr) && EntryOk(e) && Recorded(e) && e.before == RowAt(row0, tr, |tr|)
    requires forall h :: h in tr ==> h.at <= e.at
    ensures Chain(row0, tr + [e]) && RowAt(row0, tr + [e], |tr| + 1) == e.after
  {
    var all := tr + [e];
    forall i | 0 <= i < |all| ensures Link(row0, all, i) {
      if i < |tr| {
        assert Link(row0, tr, i);
      } else if i > 0 {
        assert tr[i - 1] in tr;
      }
    }
  }

  /** Committing a write extends the chain of its row. */
  lemma WriteExtendsChain(row0: Row, s: Db, tx: TxId, t: Tx, e: Entry, tr: seq<Entry>)
    requires StagedOk(s, tx, t, e) && t.phase.Finished?
    requires tr == Trace(s.history, e.id) && Chain(row0, tr) && s.rows[e.id] == RowAt(row0, tr, |tr|)
    requires forall k :: 0 <= k < |s.history| && s.history[k].id == e.id ==> Earlier(s.history[k], e)
    ensures Chain(row0, tr + [e]) && RowAt(row0, tr + [e], |tr| + 1) == e.after
  {
    TraceMembers(s.history, e.id);
    forall h | h in tr ensures h.at <= e.at {
      var k :| 0 <= k < |s.history| && s.history[k] == h;
      assert Earlier(s.history[k], e);
    }
    ChainAppend(row0, tr, e);
  }

  /** The rows a commit installs extend their chains; every other row keeps its own. */
  lemma CommitExtendsChain(init: map<StepId, Row>, s: Db, tx: TxId, id: StepId)
    requires HistoryOk(init, s) && tx in s.txs && s.txs[tx].phase.Finished? && id in init
    requires TxOk(s, tx) && AfterHistory(s.history, s.txs[tx])
    ensures var rows := Install(s.rows, s.txs[tx].staged); var tr := Trace(s.history + s.txs[tx].staged, id);
      id in rows && Chain(init[id], tr) && rows[id] == RowAt(init[id], tr, |tr|)
  {
    var t := s.txs[tx];
    InstallAt(s.rows, t.staged, id);
    TraceAppend(s.history, t.staged, id);
    var tr := Trace(s.history, id);
    if i :| 0 <= i < |t.staged| && t.staged[i].id == id {
      TraceOne(t.staged, i);
      WriteExtendsChain(init[id], s, tx, t, t.staged[i], tr);
    } else {
      TraceNone(t.staged, id);
      assert tr + [] == tr;
    }
  }

  /** What a transaction stages lies on rows it holds, which no other transaction holds. */
  lemma StagedRowsAreHeld(s: Db, tx: TxId, i: nat)
    requires LocksOk(s) && tx in s.txs && TxOk(s, tx) && i < |s.txs[tx].staged|
    ensures var e := s.txs[tx].staged[i];
      && e.id in s.txs[tx].held && e.id in s.rows && e.at <= s.clock && Some(e.xid) == s.txs[tx].xid
      && (e.event.Some? ==> e.event.value.id < s.nextEventId)
      && (forall u :: u in s.txs && u != tx ==> e.id !in s.txs[u].held)
  {
  }

  lemma CommitKeepsAfterHistory(s: Db, tx: TxId, u: TxId)
    requires LocksOk(s) && TxsOk(s) && OrderOk(s) && tx in s.txs && u in s.txs && u != tx
    ensures AfterHistory(s.history + s.txs[tx].staged, s.txs[u])
  {
    var t := s.txs[tx];
    assert TxOk(s, tx) && TxOk(s, u) && AfterHistory(s.history, s.txs[u]);
    forall i | 0 <= i < |t.staged| ensures t.staged[i].id !in s.txs[u].held {
      StagedRowsAreHeld(s, tx, i);
    }
    forall i | 0 <= i < |s.txs[u].staged| ensures s.txs[u].staged[i].id in s.txs[u].held {
      StagedRowsAreHeld(s, u, i);
    }
  }

  lemma CommitKeepsHistoryOrdered(s: Db, tx: TxId, s': Db)
    requires LocksOk(s) && tx in s.txs && TxOk(s, tx) && HistoryOrdered(s) && AfterHistory(s.history, s.txs[tx])
    requires s'.history == s.history + s.txs[tx].staged
    requires s'.nextXid == s.nextXid && s'.nextEventId == s.nextEventId
    ensures HistoryOrdered(s')
  {
  }

  lemma StagedAreKnown(init: map<StepId, Row>, s: Db, tx: TxId)
    requires LocksOk(s) && HistoryOk(init, s) && tx in s.txs && TxOk(s, tx)
    ensures forall i :: 0 <= i < |s.txs[tx].staged| ==> s.txs[tx].staged[i].id in init && s.txs[tx].staged[i].at <= s.clock
    ensures Install(s.rows, s.txs[tx].staged).Keys == init.Keys
  {
    forall i | 0 <= i < |s.txs[tx].staged| ensures s.txs[tx].staged[i].id in init && s.txs[tx].staged[i].at <= s.clock {
      StagedRowsAreHeld(s, tx, i);
    }
    InstallKeys(s.rows, s.txs[tx].staged);
  }

  lemma CommitKeepsHistory(init: map<StepId, Row>, s: Db, tx: TxId)
    requires LocksOk(s) && HistoryOk(init, s) && tx in s.txs && s.txs[tx].phase.Finished?
    requires TxOk(s, tx) && AfterHistory(s.history, s.txs[tx])
    ensures HistoryOk(init, CommitStep(s, tx, s.txs[tx]))
  {
    var s' := CommitStep(s, tx, s.txs[tx]);
    StagedAreKnown(init, s, tx);
    forall id | id in init ensures id in s'.rows && Chain(init[id], Trace(s'.history, id))
                                   && s'.rows[id] == RowAt(init[id], Trace(s'.history, id), |Trace(s'.history, id)|) {
      CommitExtendsChain(init, s, tx, id);
    }
  }

  /** Rows that others hold are not among those a commit installs. */
  lemma CommitSparesHeldRows(s: Db, tx: TxId, u: TxId, id: StepId)
    requires LocksOk(s) && tx in s.txs && TxOk(s, tx) && u in s.txs && u != tx && id in s.txs[u].held && id in s.rows
    ensures id in Install(s.rows, s.txs[tx].staged) && Install(s.rows, s.txs[tx].staged)[id] == s.rows[id]
  {
    var staged := s.txs[tx].staged;
    forall i | 0 <= i < |staged| ensures staged[i].id != id { StagedRowsAreHeld(s, tx, i); }
    InstallAt(s.rows, staged, id);
  }

  lemma CommitKeepsTxs(s: Db, tx: TxId)
    requires LocksOk(s) && TxsOk(s) && tx in s.txs && s.txs[tx].phase.Finished?
    ensures TxsOk(CommitStep(s, tx, s.txs[tx]))
  {
    var s' := CommitStep(s, tx, s.txs[tx]);
    assert TxOk(s, tx);
    forall u | u in s'.txs ensures TxOk(s', u) {
      forall id | id in s.txs[u].held && id in s.rows ensures id in s'.rows && s'.rows[id] == s.rows[id] {
        CommitSparesHeldRows(s, tx, u, id);
      }
      TxFrame(s, s', u);
    }
  }

  lemma CommitKeepsLocks(s: Db, tx: TxId)
    requires LocksOk(s) && tx in s.txs && s.txs[tx].phase.Finished? && TxOk(s, tx)
    ensures LocksOk(CommitStep(s, tx, s.txs[tx]))
  {
    ReleaseLocks(s, tx);
    InstallAt(s.rows, s.txs[tx].staged, 0);
  }

  lemma CommitKeeps(init: map<StepId, Row>, s: Db, tx: TxId)
    requires Inv(init, s)
    ensures Inv(init, Step(s, Commit(tx)))
  {
    if tx in s.txs && s.txs[tx].phase.Finished? {
      var s' := Step(s, Commit(tx));
      assert TxOk(s, tx) && AfterHistory(s.history, s.txs[tx]);
      CommitKeepsTxs(s, tx);
      CommitKeepsLocks(s, tx);
      CommitKeepsHistory(init, s, tx);
      CommitKeepsHistoryOrdered(s, tx, s');
      forall u | u in s'.txs ensures AfterHistory(s'.history, s'.txs[u]) {
        CommitKeepsAfterHistory(s, tx, u);
      }
    }
  }

  // ---------------------------------------------------------------- every run

  lemma StepKeeps(init: map<StepId, Row>, s: Db, a: Action)
    requires Inv(init, s)
    ensures Inv(init, Step(s, a))
  {
    match a
    case Tick(elapsed) => TickKeeps(init, s, elapsed);
    case Begin(tx, job) => BeginKeeps(init, s, tx, job);
    case LockRow(tx) => LockRowKeeps(init, s, tx);
    case Scan(tx) => ScanKeeps(init, s, tx);
    case SelectSkipLocked(tx) => SelectKeeps(init, s, tx);
    case Write(tx) => WriteKeeps(init, s, tx);
    case RecordEvent(tx) => RecordKeeps(init, s, tx);
    case Commit(tx) => CommitKeeps(init, s, tx);
    case Rollback(tx) => if tx in s.txs { ReleaseKeeps(init, s, tx); }
  }

  /** The invariant holds after any sequence of actions whatever. */
  lemma {:induction false} RunKeeps(rows: map<StepId, Row>, clock: Instant, actions: seq<Action>)
    ensures Inv(rows, Run(Start(rows, clock), actions))
  {
    if actions == [] {
      assert forall id :: Trace([], id) == [];
    } else {
      var n := |actions| - 1;
      RunKeeps(rows, clock, actions[..n]);
      StepKeeps(rows, Run(Start(rows, clock), actions[..n]), actions[n]);
    }
  }
}
