/** The database as the statements change it in place, each proved to perform one action of Protocol.dfy. */
module Database {
  import opened Base
  import opened StepSpec
  import opened RowHistory
  import opened Ordering
  import opened Protocol
  import opened ProtocolInvariant

  class Database {
    ghost const init: map<StepId, Row>
    var clock: Instant
    var rows: map<StepId, Row>
    var locks: map<StepId, TxId>
    var txs: map<TxId, Tx>
    var nextXid: nat
    var nextEventId: nat
    var history: seq<Entry>

    ghost function View(): Db reads this {
      Db(clock, rows, locks, txs, nextXid, nextEventId, history)
    }

    ghost predicate Valid() reads this {
      Inv(init, View())
    }

    constructor (rows: map<StepId, Row>, clock: Instant)
      ensures init == rows && View() == Start(rows, clock) && Valid()
    {
      init, this.rows, this.clock := rows, rows, clock;
      locks, txs, nextXid, nextEventId, history := map[], map[], 1, 1, [];
      new;
      RunKeeps(rows, clock, []);
    }

    method Tick(elapsed: nat)
      requires Valid()
      modifies this`clock
      ensures Valid() && View() == Step(old(View()), Action.Tick(elapsed))
    {
      StepKeeps(init, View(), Action.Tick(elapsed));
      clock := clock + elapsed;
    }

    method Begin(tx: TxId, job: Job)
      requires Valid()
      modifies this`txs
      ensures Valid() && View() == Step(old(View()), Action.Begin(tx, job))
    {
      StepKeeps(init, View(), Action.Begin(tx, job));
      if tx !in txs && JobAllowed(job) {
        txs := txs[tx := Tx(job, clock, Begun, None, [], [])];
      }
    }

    /** Adds the rows to the lock table one by one and gives the transaction its id. */
    method Take(tx: TxId, ids: seq<StepId>, phase: Phase)
      requires tx in txs
      modifies this`locks, this`nextXid, this`txs
      ensures View() == Acquire(old(View()), tx, old(txs)[tx], ids, phase)
    {
      for i := 0 to |ids|
        modifies this`locks
        invariant locks == LockAll(old(locks), ids[..i], tx)
      {
        locks := locks[ids[i] := tx];
        assert ids[..i + 1] == ids[..i] + [ids[i]];
      }
      assert ids[..|ids|] == ids;
      txs := txs[tx := txs[tx].(phase := phase, xid := Some(nextXid), held := ids)];
      nextXid := nextXid + 1;
    }

    method LockRow(tx: TxId)
      requires Valid()
      modifies this`locks, this`nextXid, this`txs
      ensures Valid() && View() == Step(old(View()), Action.LockRow(tx))
    {
      StepKeeps(init, View(), Action.LockRow(tx));
      if tx in txs && txs[tx].phase.Begun? && (txs[tx].job.OwnerWrite? || txs[tx].job.LockOnly?) {
        var id := txs[tx].job.id;
        if id !in rows {
          txs := txs[tx := txs[tx].(phase := Finished)];
        } else if id !in locks {
          Take(tx, [id], if txs[tx].job.LockOnly? then Finished else Holding);
        }
      }
    }

    method Scan(tx: TxId)
      requires Valid()
      modifies this`txs
      ensures Valid() && View() == Step(old(View()), Action.Scan(tx))
    {
      StepKeeps(init, View(), Action.Scan(tx));
      if tx in txs && txs[tx].phase.Begun? && IsSelecting(txs[tx].job) {
        txs := txs[tx := txs[tx].(phase := Scanned(rows, clock))];
      }
    }

    /** `order by ... limit n for update skip locked` */
    method FirstLockable(job: Job, began: Instant, snapshot: map<StepId, Row>, scannedAt: Instant) returns (ids: seq<StepId>)
      requires IsSelecting(job)
      ensures ids == Batch(View(), job, began, snapshot, scannedAt)
    {
      var pool := set id | id in snapshot && Accepts(JobOp(job), snapshot[id], began, scannedAt)
                        && id !in locks && id in rows && Accepts(JobOp(job), rows[id], began, clock);
      RankDistinguishes(job, snapshot, pool);
      ids := SelectFirst(RankIn(job, snapshot), pool, Limit(job));
    }

    /** The writing half of a sweep's statement: row by row, each with its event. */
    method WriteBatch(tx: TxId)
      requires tx in txs && txs[tx].xid.Some? && !txs[tx].job.LockOnly?
      requires forall id :: id in txs[tx].held ==> id in rows && Accepts(JobOp(txs[tx].job), rows[id], txs[tx].began, clock)
      modifies this`txs, this`nextEventId
      ensures View() == SweepStep(old(View()), tx)
    {
      var t := txs[tx];
      var op := JobOp(t.job);
      var staged: seq<Entry> := [];
      ghost var all := SweepEntries(View(), tx, t, op, t.held);
      for i := 0 to |t.held|
        modifies this`nextEventId
        invariant staged == all[..i] && nextEventId == old(nextEventId) + i
      {
        var id := t.held[i];
        assert id in t.held;
        var e := Entry(id, tx, t.xid.value, op, t.began, clock, rows[id], Effect(op, rows[id], t.began, clock), None);
        staged := staged + [WithEvent(e, nextEventId)];
        nextEventId := nextEventId + 1;
      }
      assert all[..|t.held|] == all;
      txs := txs[tx := t.(staged := staged)];
    }

    method SelectSkipLocked(tx: TxId)
      requires Valid()
      modifies this`locks, this`nextXid, this`txs, this`nextEventId
      ensures Valid() && View() == Step(old(View()), Action.SelectSkipLocked(tx))
    {
      StepKeeps(init, View(), Action.SelectSkipLocked(tx));
      if tx in txs && txs[tx].phase.Scanned? && IsSelecting(txs[tx].job) {
        var t := txs[tx];
        var ids := FirstLockable(t.job, t.began, t.phase.snapshot, t.phase.scannedAt);
        BatchIsLockable(View(), t.job, t.began, t.phase.snapshot, t.phase.scannedAt);
        if ids == [] {
          txs := txs[tx := t.(phase := Finished)];
        } else if t.job.ClaimNext? {
          Take(tx, ids, Holding);
        } else {
          Take(tx, ids, Finished);
          WriteBatch(tx);
        }
      }
    }

    /** `update steps ... where` over the row the transaction holds. */
    method Update(tx: TxId)
      requires tx in txs
      modifies this`locks, this`txs
      ensures View() == WriteStep(old(View()), tx, old(txs)[tx])
    {
      var t := txs[tx];
      if t.phase.Holding? && t.xid.Some? && |t.held| == 1 && t.held[0] in rows && !t.job.LockOnly? {
        var id, op := t.held[0], JobOp(t.job);
        if Accepts(op, rows[id], t.began, clock) {
          var e := Entry(id, tx, t.xid.value, op, t.began, clock, rows[id], Effect(op, rows[id], t.began, clock), None);
          txs := txs[tx := t.(staged := [e], phase := if op.Renew? then Finished else Written)];
        } else if op.Claim? {
          Discard(tx);
        } else {
          txs := txs[tx := t.(phase := Finished)];
        }
      }
    }

    method Write(tx: TxId)
      requires Valid()
      modifies this`locks, this`txs
      ensures Valid() && View() == Step(old(View()), Action.Write(tx))
    {
      StepKeeps(init, View(), Action.Write(tx));
      if tx in txs {
        Update(tx);
      }
    }

    method RecordEvent(tx: TxId)
      requires Valid()
      modifies this`txs, this`nextEventId
      ensures Valid() && View() == Step(old(View()), Action.RecordEvent(tx))
    {
      StepKeeps(init, View(), Action.RecordEvent(tx));
      if tx in txs && txs[tx].phase.Written? && |txs[tx].staged| == 1 {
        var t := txs[tx];
        txs := txs[tx := t.(staged := [WithEvent(t.staged[0], nextEventId)], phase := Finished)];
        nextEventId := nextEventId + 1;
      }
    }

    method Discard(tx: TxId)
      modifies this`locks, this`txs
      ensures View() == Release(old(View()), tx)
    {
      locks := map id | id in locks && locks[id] != tx :: locks[id];
      txs := txs - {tx};
    }

    /** Installs the staged versions row by row, then ends the transaction. */
    method Commit(tx: TxId)
      requires Valid()
      modifies this`rows, this`history, this`locks, this`txs
      ensures Valid() && View() == Step(old(View()), Action.Commit(tx))
    {
      StepKeeps(init, View(), Action.Commit(tx));
      if tx in txs && txs[tx].phase.Finished? {
        var staged := txs[tx].staged;
        for i := 0 to |staged|
          modifies this`rows, this`history
          invariant rows == Install(old(rows), staged[..i]) && history == old(history) + staged[..i]
        {
          assert staged[..i + 1][..i] == staged[..i];
          rows := rows[staged[i].id := staged[i].after];
          history := history + [staged[i]];
        }
        assert staged[..|staged|] == staged;
        Discard(tx);
      }
    }

    method Rollback(tx: TxId)
      requires Valid()
      modifies this`locks, this`txs
      ensures Valid() && View() == Step(old(View()), Action.Rollback(tx))
    {
      StepKeeps(init, View(), Action.Rollback(tx));
      if tx in txs {
        Discard(tx);
      }
    }

    method Perform(a: Action)
      requires Valid()
      modifies this
      ensures Valid() && View() == Step(old(View()), a)
    {
      match a
      case Tick(elapsed) => Tick(elapsed);
      case Begin(tx, job) => Begin(tx, job);
      case LockRow(tx) => LockRow(tx);
      case Scan(tx) => Scan(tx);
      case SelectSkipLocked(tx) => SelectSkipLocked(tx);
      case Write(tx) => Write(tx);
      case RecordEvent(tx) => RecordEvent(tx);
      case Commit(tx) => Commit(tx);
      case Rollback(tx) => Rollback(tx);
    }
  }
}
