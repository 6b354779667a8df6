/**
 * The concurrent protocol: transactions over `steps` and `step_events` under READ COMMITTED row
 * locks. A transaction runs statement by statement; anything may happen between two statements,
 * including its process disappearing (Rollback) or never moving again.
 *
 * An action that is not possible in a state leaves the state as it is, so a run is any sequence of
 * actions at all.
 */
module Protocol {
  import opened Base
  import opened StepSpec
  import opened RowHistory
  import opened Ordering

  datatype Job =
    | OwnerWrite(id: StepId, op: Op)                    // renewStepLease, completeStepSuccess, recordStepFailure
    | ClaimNext(worker: WorkerId, leaseMs: int)         // claimNextStep
    | RecoverSweep                                      // recoverExpiredSteps
    | PromoteSweep                                      // promoteDueRetries
    | LockOnly(id: StepId)                              // any session that does SELECT ... FOR UPDATE and no more

  datatype Phase =
    | Begun
    | Scanned(snapshot: map<StepId, Row>, scannedAt: Instant)
    | Holding       // row locked, write not yet attempted
    | Written       // write done, its event not yet inserted
    | Finished      // only COMMIT is left

  datatype Tx = Tx(job: Job, began: Instant, phase: Phase, xid: Option<nat>, held: seq<StepId>, staged: seq<Entry>)

  datatype Db = Db(
    clock: Instant,
    rows: map<StepId, Row>,            // committed versions
    locks: map<StepId, TxId>,
    txs: map<TxId, Tx>,
    nextXid: nat,
    nextEventId: nat,
    history: seq<Entry>)               // committed writes, in commit order

  datatype Action =
    | Tick(elapsed: nat)
    | Begin(tx: TxId, job: Job)
    | LockRow(tx: TxId)                // SELECT id ... WHERE id = $id FOR UPDATE
    | Scan(tx: TxId)                   // the snapshot and scan of a FOR UPDATE SKIP LOCKED query
    | SelectSkipLocked(tx: TxId)       // its locking; for a sweep, its writes too: one statement
    | Write(tx: TxId)                  // UPDATE steps ... of an owner write or a claim
    | RecordEvent(tx: TxId)            // INSERT INTO step_events
    | Commit(tx: TxId)
    | Rollback(tx: TxId)

  const SWEEP_LIMIT: nat := 100

  function Start(rows: map<StepId, Row>, clock: Instant): Db {
    Db(clock, rows, map[], map[], 1, 1, [])
  }

  // ---------------------------------------------------------------- SELECT ... FOR UPDATE SKIP LOCKED

  function JobOp(job: Job): Op
    requires !job.LockOnly?
  {
    match job
    case OwnerWrite(_, op) => op
    case ClaimNext(worker, leaseMs) => Claim(worker, leaseMs)
    case RecoverSweep => Recover
    case PromoteSweep => Promote
  }

  predicate IsSelecting(job: Job) {
    job.ClaimNext? || job.RecoverSweep? || job.PromoteSweep?
  }

  function Limit(job: Job): nat {
    if job.ClaimNext? then 1 else SWEEP_LIMIT
  }

  /** The ORDER BY of the three selecting statements. */
  function Rank(job: Job, id: StepId, r: Row): Key {
    match job
    case ClaimNext(_, _) => Key(-r.priority, r.availableAt, id)
    case RecoverSweep => Key(if r.deadline.Some? then r.deadline.value else 0, id, 0)
    case _ => Key(r.availableAt, id, 0)
  }

  function RankIn(job: Job, snapshot: map<StepId, Row>): StepId -> Key {
    (id: StepId) => if id in snapshot then Rank(job, id, snapshot[id]) else Key(0, 0, id)
  }

  /**
   * Rows the statement can lock: they passed its WHERE clause in its snapshot, nobody holds their
   * lock, and their newest committed version still passes.
   */
  function Lockable(s: Db, job: Job, began: Instant, snapshot: map<StepId, Row>, scannedAt: Instant): set<StepId>
    requires IsSelecting(job)
  {
    set id | id in snapshot && Accepts(JobOp(job), snapshot[id], began, scannedAt)
          && id !in s.locks && id in s.rows && Accepts(JobOp(job), s.rows[id], began, s.clock)
  }

  ghost function Batch(s: Db, job: Job, began: Instant, snapshot: map<StepId, Row>, scannedAt: Instant): seq<StepId>
    requires IsSelecting(job)
  {
    First(Limit(job), SortSet(RankIn(job, snapshot), Lockable(s, job, began, snapshot, scannedAt)))
  }

  // ---------------------------------------------------------------- state changes

  function LockAll(locks: map<StepId, TxId>, ids: seq<StepId>, tx: TxId): map<StepId, TxId> {
    map id | id in locks.Keys + (set i | i in ids) :: if id in ids then tx else locks[id]
  }

  function Unlock(locks: map<StepId, TxId>, tx: TxId): map<StepId, TxId> {
    map id | id in locks && locks[id] != tx :: locks[id]
  }

  function Install(rows: map<StepId, Row>, staged: seq<Entry>): map<StepId, Row> {
    if staged == [] then rows else
      var e := staged[|staged| - 1];
      Install(rows, staged[..|staged| - 1])[e.id := e.after]
  }

  function WithTx(s: Db, tx: TxId, t: Tx): Db {
    s.(txs := s.txs[tx := t])
  }

  /** Takes the locks and, with the first of them, a transaction id. */
  function Acquire(s: Db, tx: TxId, t: Tx, ids: seq<StepId>, phase: Phase): Db {
    s.(locks := LockAll(s.locks, ids, tx), nextXid := s.nextXid + 1,
       txs := s.txs[tx := t.(phase := phase, xid := Some(s.nextXid), held := ids)])
  }

  /** The write of one held row at this instant; its event is still to come. */
  function WriteEntry(s: Db, tx: TxId, t: Tx, id: StepId, op: Op): Entry
    requires id in s.rows && t.xid.Some? && Accepts(op, s.rows[id], t.began, s.clock)
  {
    Entry(id, tx, t.xid.value, op, t.began, s.clock, s.rows[id], Effect(op, s.rows[id], t.began, s.clock), None)
  }

  function WithEvent(e: Entry, eventId: nat): Entry {
    match EventOf(e.op, e.before, e.after)
    case None => e
    case Some(body) => e.(event := Some(Event(eventId, e.xid, e.id, body)))
  }

  /** What a sweep writes for its batch: every row and, in the same statement, every event. */
  function SweepEntries(s: Db, tx: TxId, t: Tx, op: Op, ids: seq<StepId>): seq<Entry>
    requires t.xid.Some?
    requires forall id :: id in ids ==> id in s.rows && Accepts(op, s.rows[id], t.began, s.clock)
  {
    seq(|ids|, i requires 0 <= i < |ids| => WithEvent(WriteEntry(s, tx, t, ids[i], op), s.nextEventId + i))
  }

  predicate JobAllowed(job: Job) {
    && (job.OwnerWrite? ==> IsOwnerOp(job.op))
    && (job.ClaimNext? ==> !IsBlank(job.worker))     // claimNextStep throws before BEGIN
  }

  function LockRowStep(s: Db, tx: TxId, t: Tx): Db {
    if t.phase != Begun || !(t.job.OwnerWrite? || t.job.LockOnly?) then s else
      var id := t.job.id;
      if id !in s.rows then WithTx(s, tx, t.(phase := Finished))
      else if id in s.locks then s                   // waits
      else Acquire(s, tx, t, [id], if t.job.LockOnly? then Finished else Holding)
  }

  ghost function SelectStep(s: Db, tx: TxId, t: Tx): Db {
    if !t.phase.Scanned? || !IsSelecting(t.job) then s else
      var ids := Batch(s, t.job, t.began, t.phase.snapshot, t.phase.scannedAt);
      if ids == [] then WithTx(s, tx, t.(phase := Finished))
      else if t.job.ClaimNext? then Acquire(s, tx, t, ids, Holding)
      else SweepStep(Acquire(s, tx, t, ids, Finished), tx)
  }

  /** The writing half of a sweep's statement, over the rows it has just locked. */
  function SweepStep(s: Db, tx: TxId): Db
    requires tx in s.txs
  {
    var t := s.txs[tx];
    if && t.xid.Some? && !t.job.LockOnly?
       && forall id :: id in t.held ==> id in s.rows && Accepts(JobOp(t.job), s.rows[id], t.began, s.clock)
    then
      WithTx(s, tx, t.(staged := SweepEntries(s, tx, t, JobOp(t.job), t.held)))
        .(nextEventId := s.nextEventId + |t.held|)
    else s
  }

  /** `UPDATE steps ... WHERE` of an owner write: its predicate is evaluated here, under the lock. */
  function WriteStep(s: Db, tx: TxId, t: Tx): Db {
    if !t.phase.Holding? || t.xid.None? || |t.held| != 1 || t.held[0] !in s.rows || t.job.LockOnly? then s else
      var id, op := t.held[0], JobOp(t.job);
      if Accepts(op, s.rows[id], t.began, s.clock) then
        var staged := [WriteEntry(s, tx, t, id, op)];
        WithTx(s, tx, t.(staged := staged, phase := if op.Renew? then Finished else Written))
      else if op.Claim? then Release(s, tx)          // ClaimConsistencyError: thrown, so rolled back
      else WithTx(s, tx, t.(phase := Finished))      // zero rows
  }

  function RecordStep(s: Db, tx: TxId, t: Tx): Db {
    if !t.phase.Written? || |t.staged| != 1 then s else
      WithTx(s, tx, t.(staged := [WithEvent(t.staged[0], s.nextEventId)], phase := Finished))
        .(nextEventId := s.nextEventId + 1)
  }

  /** Ends a transaction without installing anything. */
  function Release(s: Db, tx: TxId): Db {
    s.(locks := Unlock(s.locks, tx), txs := s.txs - {tx})
  }

  function CommitStep(s: Db, tx: TxId, t: Tx): Db {
    if !t.phase.Finished? then s else
      Release(s, tx).(rows := Install(s.rows, t.staged), history := s.history + t.staged)
  }

  ghost function Step(s: Db, a: Action): Db {
    match a
    case Tick(elapsed) => s.(clock := s.clock + elapsed)
    case Begin(tx, job) =>
      if tx in s.txs || !JobAllowed(job) then s
      else WithTx(s, tx, Tx(job, s.clock, Begun, None, [], []))
    case LockRow(tx) => if tx in s.txs then LockRowStep(s, tx, s.txs[tx]) else s
    case Scan(tx) =>
      if tx in s.txs && s.txs[tx].phase.Begun? && IsSelecting(s.txs[tx].job)
      then WithTx(s, tx, s.txs[tx].(phase := Scanned(s.rows, s.clock))) else s
    case SelectSkipLocked(tx) => if tx in s.txs then SelectStep(s, tx, s.txs[tx]) else s
    case Write(tx) => if tx in s.txs then WriteStep(s, tx, s.txs[tx]) else s
    case RecordEvent(tx) => if tx in s.txs then RecordStep(s, tx, s.txs[tx]) else s
    case Commit(tx) => if tx in s.txs then CommitStep(s, tx, s.txs[tx]) else s
    case Rollback(tx) => if tx in s.txs then Release(s, tx) else s
  }

  ghost function Run(s: Db, actions: seq<Action>): Db {
    if actions == [] then s else Step(Run(s, actions[..|actions| - 1]), actions[|actions| - 1])
  }

  /** The committed writes of one row, in commit order. */
  function Trace(history: seq<Entry>, id: StepId): seq<Entry> {
    if history == [] then [] else
      var rest := Trace(history[..|history| - 1], id);
      var e := history[|history| - 1];
      if e.id == id then rest + [e] else rest
  }
}
