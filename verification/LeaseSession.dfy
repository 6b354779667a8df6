/** A worker that renews in time keeps its generation, whatever everybody else does. */
module LeaseSession {
  import opened Base
  import opened Lifecycle
  import opened StepSpec
  import opened Protocol
  import opened ProtocolInvariant

  /** One ownership generation and the lease duration its worker uses throughout. */
  datatype Session = Session(id: StepId, worker: WorkerId, version: int, leaseMs: int)

  predicate Owns(r: Row, se: Session) {
    r.status == Running && r.owner == Some(se.worker) && r.leaseVersion == se.version && r.deadline.Some?
  }

  function RenewOp(se: Session): Op {
    Renew(se.worker, se.version, se.leaseMs)
  }

  /** A job that presents the session's credentials for its step. */
  predicate HasCredentials(job: Job, se: Session) {
    job.OwnerWrite? && job.id == se.id && IsOwnerOp(job.op) && job.op.worker == se.worker && job.op.version == se.version
  }

  /** A write on the session's row is staged and waits for COMMIT. */
  predicate InFlight(s: Db, se: Session) {
    se.id in s.locks && s.locks[se.id] in s.txs && s.txs[s.locks[se.id]].staged != []
  }

  /** A renewal of the session waits for COMMIT, authorized no earlier than `last`. */
  ghost predicate RenewalStaged(s: Db, se: Session, last: Instant)
    requires InFlight(s, se)
  {
    var staged := s.txs[s.locks[se.id]].staged;
    |staged| == 1 && staged[0].id == se.id && staged[0].op == RenewOp(se) && last <= staged[0].at
  }

  /** The generation is intact; `last` is when its latest committed claim or renewal was authorized. */
  ghost predicate Intact(s: Db, se: Session, last: Instant) {
    && se.id in s.rows && Owns(s.rows[se.id], se) && last <= s.clock
    && s.rows[se.id].deadline.value == last + Ms(se.leaseMs)
    && (InFlight(s, se) ==> RenewalStaged(s, se, last))
  }

  /** The authorization the lease rests on: of the renewal in flight if there is one, else the last committed one. */
  function Secured(s: Db, se: Session, last: Instant): Instant {
    if InFlight(s, se) then s.txs[s.locks[se.id]].staged[0].at else last
  }

  /** The clock has not reached the end of the lease so secured. */
  predicate InTime(s: Db, se: Session, last: Instant) {
    s.clock < Secured(s, se, last) + Ms(se.leaseMs)
  }

  /** In time means before the deadline: of the renewal in flight if there is one, else of the committed row. */
  lemma InTimeIff(init: map<StepId, Row>, s: Db, se: Session, last: Instant)
    requires Inv(init, s) && Intact(s, se, last)
    ensures InTime(s, se, last) <==>
            var r := if InFlight(s, se) then s.txs[s.locks[se.id]].staged[0].after else s.rows[se.id];
            r.deadline.Some? && s.clock < r.deadline.value
  {
    if InFlight(s, se) {
      OnlyRenewalsStage(init, s, se, last, s.locks[se.id], 0);
    }
  }

  /** An attempt to write under the session's credentials. */
  predicate IsAttempt(s: Db, a: Action, se: Session) {
    a.Write? && a.tx in s.txs && s.txs[a.tx].phase.Holding? && HasCredentials(s.txs[a.tx].job, se)
  }

  /**
   * What the worker itself must keep to: under its credentials it only renews, always for the same
   * duration. A renewal may fail at any point, its connection lost after the write included.
   */
  predicate OnlyRenews(s: Db, a: Action, se: Session) {
    IsAttempt(s, a, se) ==> s.txs[a.tx].job.op == RenewOp(se)
  }

  /** A COMMIT of the renewal in flight makes its authorization the last committed one; a ROLLBACK forgets it. */
  function LastCommitted(s: Db, a: Action, se: Session, last: Instant): Instant {
    if a.Commit? && InFlight(s, se) && s.locks[se.id] == a.tx then Secured(s, se, last) else last
  }

  /** Nobody but the session can have a write in flight on the row while the lease is unexpired. */
  lemma OnlyRenewalsStage(init: map<StepId, Row>, s: Db, se: Session, last: Instant, tx: TxId, i: nat)
    requires Inv(init, s) && Intact(s, se, last)
    requires tx in s.txs && i < |s.txs[tx].staged| && s.txs[tx].staged[i].id == se.id
    ensures InFlight(s, se) && s.locks[se.id] == tx && i == 0 && |s.txs[tx].staged| == 1
    ensures HasCredentials(s.txs[tx].job, se) && s.txs[tx].phase.Finished?
    ensures var at := Secured(s, se, last);
      && last <= at && Accepts(RenewOp(se), s.rows[se.id], s.txs[tx].began, at)
      && at <= s.clock && s.txs[tx].staged[0].after == Effect(RenewOp(se), s.rows[se.id], s.txs[tx].began, at)
  {
    assert TxOk(s, tx);
    assert StagedOk(s, tx, s.txs[tx], s.txs[tx].staged[i]);
  }

  lemma WriteKeepsIntact(init: map<StepId, Row>, s: Db, se: Session, last: Instant, tx: TxId)
    requires Inv(init, s) && Intact(s, se, last) && InTime(s, se, last)
    requires OnlyRenews(s, Write(tx), se) && tx in s.txs && s.txs[tx].phase.Holding?
    ensures Intact(Step(s, Write(tx)), se, last)
    ensures IsAttempt(s, Write(tx), se) ==> tx in Step(s, Write(tx)).txs && |Step(s, Write(tx)).txs[tx].staged| == 1
  {
    assert TxOk(s, tx);
    var t := s.txs[tx];
    assert t.held[0] in t.held;
    if t.held[0] == se.id {
      assert s.locks[se.id] == tx && !InFlight(s, se);
      if HasCredentials(t.job, se) {
        assert Accepts(RenewOp(se), s.rows[se.id], t.began, s.clock);
      } else {
        assert !Accepts(JobOp(t.job), s.rows[se.id], t.began, s.clock);
      }
    } else {
      assert !HasCredentials(t.job, se);
      OtherRowWrite(init, s, se, tx);
    }
  }

  /** A write on another row leaves the session's row and its lock alone. */
  lemma OtherRowWrite(init: map<StepId, Row>, s: Db, se: Session, tx: TxId)
    requires Inv(init, s) && tx in s.txs && s.txs[tx].phase.Holding?
    requires |s.txs[tx].held| == 1 && s.txs[tx].held[0] != se.id
    ensures var s' := Step(s, Write(tx));
      && s'.rows == s.rows && s'.clock == s.clock
      && (se.id in s.locks <==> se.id in s'.locks)
      && (se.id in s.locks ==> SameHolder(s, s', se.id))
  {
  }

  ghost predicate SameHolder(s: Db, s': Db, id: StepId)
    requires id in s.locks
  {
    && id in s'.locks && s'.locks[id] == s.locks[id]
    && s.locks[id] in s.txs && s.locks[id] in s'.txs && s'.txs[s.locks[id]] == s.txs[s.locks[id]]
  }

  /** While the lease is unexpired, no claim or sweep can select the row, whatever its snapshot showed. */
  lemma LiveLeaseIsNotSelected(init: map<StepId, Row>, s: Db, se: Session, last: Instant, tx: TxId)
    requires Inv(init, s) && Intact(s, se, last) && InTime(s, se, last)
    requires tx in s.txs && s.txs[tx].phase.Scanned? && IsSelecting(s.txs[tx].job)
    ensures var t := s.txs[tx]; se.id !in Batch(s, t.job, t.began, t.phase.snapshot, t.phase.scannedAt)
  {
    var t := s.txs[tx];
    BatchIsLockable(s, t.job, t.began, t.phase.snapshot, t.phase.scannedAt);
    assert se.id !in Lockable(s, t.job, t.began, t.phase.snapshot, t.phase.scannedAt);
  }

  /** A selecting statement leaves rows it does not select as they are. */
  lemma SelectSparesOthers(s: Db, tx: TxId, id: StepId)
    requires LocksOk(s) && tx in s.txs && TxOk(s, tx) && s.txs[tx].phase.Scanned? && IsSelecting(s.txs[tx].job)
    requires var t := s.txs[tx]; id !in Batch(s, t.job, t.began, t.phase.snapshot, t.phase.scannedAt)
    ensures var s' := Step(s, SelectSkipLocked(tx));
      && s'.rows == s.rows && s'.clock == s.clock
      && (id in s.locks <==> id in s'.locks) && (id in s.locks ==> SameHolder(s, s', id))
  {
    var t := s.txs[tx];
    var ids := Batch(s, t.job, t.began, t.phase.snapshot, t.phase.scannedAt);
    assert id in s.locks ==> s.locks[id] != tx;
    if ids != [] {
      var phase := if t.job.ClaimNext? then Holding else Finished;
      AcquireSpares(s, tx, ids, phase, id);
      SweepChangesOnlyItself(Acquire(s, tx, t, ids, phase), tx);
    }
  }

  lemma AcquireSpares(s: Db, tx: TxId, ids: seq<StepId>, phase: Phase, id: StepId)
    requires LocksOk(s) && tx in s.txs && id !in ids && (id in s.locks ==> s.locks[id] != tx)
    ensures var s' := Acquire(s, tx, s.txs[tx], ids, phase);
      && s'.rows == s.rows && s'.clock == s.clock
      && (id in s.locks <==> id in s'.locks) && (id in s.locks ==> SameHolder(s, s', id))
  {
  }

  lemma SweepChangesOnlyItself(s: Db, tx: TxId)
    requires tx in s.txs
    ensures var s' := SweepStep(s, tx);
      && s'.rows == s.rows && s'.clock == s.clock && s'.locks == s.locks
      && s'.txs.Keys == s.txs.Keys && forall u :: u in s.txs && u != tx ==> s'.txs[u] == s.txs[u]
  {
  }

  lemma SelectKeepsIntact(init: map<StepId, Row>, s: Db, se: Session, last: Instant, tx: TxId)
    requires Inv(init, s) && Intact(s, se, last) && InTime(s, se, last)
    requires tx in s.txs && s.txs[tx].phase.Scanned?
    ensures Intact(Step(s, SelectSkipLocked(tx)), se, last)
  {
    assert TxOk(s, tx);
    LiveLeaseIsNotSelected(init, s, se, last, tx);
    SelectSparesOthers(s, tx, se.id);
  }

  /** The session's own renewal is committed. */
  lemma RenewalCommits(init: map<StepId, Row>, s: Db, se: Session, last: Instant, tx: TxId)
    requires Inv(init, s) && Intact(s, se, last) && tx in s.txs
    requires InFlight(s, se) && s.locks[se.id] == tx
    ensures Intact(Step(s, Commit(tx)), se, Secured(s, se, last))
    ensures Step(s, Commit(tx)).rows[se.id].deadline.value >= s.rows[se.id].deadline.value
  {
    assert TxOk(s, tx);
    OnlyRenewalsStage(init, s, se, last, tx, 0);
    InstallAt(s.rows, s.txs[tx].staged, se.id);
    assert se.id !in Step(s, Commit(tx)).locks;
  }

  /** A transaction with nothing staged on the session's row ends, one way or the other. */
  lemma OtherEnds(s: Db, s': Db, se: Session, last: Instant, tx: TxId)
    requires LocksOk(s) && Intact(s, se, last) && tx in s.txs
    requires s'.locks == Unlock(s.locks, tx) && s'.txs == s.txs - {tx} && s'.clock == s.clock
    requires se.id in s'.rows && s'.rows[se.id] == s.rows[se.id]
    ensures Intact(s', se, last)
  {
    LockHoldersExist(s, se);
  }

  lemma OtherCommits(init: map<StepId, Row>, s: Db, se: Session, last: Instant, tx: TxId)
    requires Inv(init, s) && Intact(s, se, last) && tx in s.txs && s.txs[tx].phase.Finished?
    requires !(InFlight(s, se) && s.locks[se.id] == tx)
    ensures var s' := Step(s, Commit(tx)); Intact(s', se, last) && s'.rows[se.id] == s.rows[se.id]
  {
    var staged := s.txs[tx].staged;
    assert TxOk(s, tx);
    forall i | 0 <= i < |staged| ensures staged[i].id != se.id {
      StagedRowsAreHeld(s, tx, i);
    }
    InstallAt(s.rows, staged, se.id);
    OtherEnds(s, Step(s, Commit(tx)), se, last, tx);
  }

  lemma CommitKeepsIntact(init: map<StepId, Row>, s: Db, se: Session, last: Instant, tx: TxId)
    requires Inv(init, s) && Intact(s, se, last) && tx in s.txs
    ensures var s' := Step(s, Commit(tx));
      && Intact(s', se, LastCommitted(s, Commit(tx), se, last))
      && s'.rows[se.id].deadline.value >= s.rows[se.id].deadline.value
  {
    if InFlight(s, se) && s.locks[se.id] == tx {
      RenewalCommits(init, s, se, last, tx);
    } else if s.txs[tx].phase.Finished? {
      OtherCommits(init, s, se, last, tx);
    }
  }

  lemma StepKeepsIntact(init: map<StepId, Row>, s: Db, a: Action, se: Session, last: Instant)
    requires Inv(init, s) && Intact(s, se, last) && OnlyRenews(s, a, se) && InTime(s, se, last)
    ensures var s' := Step(s, a);
      && Intact(s', se, LastCommitted(s, a, se, last))
      && s'.rows[se.id].deadline.value >= s.rows[se.id].deadline.value
      && (IsAttempt(s, a, se) ==> a.tx in s'.txs && |s'.txs[a.tx].staged| == 1)
  {
    assert a.Scan? && a.tx in s.txs ==> TxOk(s, a.tx);
    match a
    case Write(tx) => if tx in s.txs && s.txs[tx].phase.Holding? { WriteKeepsIntact(init, s, se, last, tx); }
    case SelectSkipLocked(tx) => if tx in s.txs && s.txs[tx].phase.Scanned? { SelectKeepsIntact(init, s, se, last, tx); }
    case Commit(tx) => if tx in s.txs { CommitKeepsIntact(init, s, se, last, tx); }
    case Rollback(tx) => if tx in s.txs { OtherEnds(s, Step(s, a), se, last, tx); }
    case LockRow(tx) => if tx in s.txs { LockRowKeepsIntact(init, s, se, last, tx); }
    case RecordEvent(tx) => if tx in s.txs && s.txs[tx].phase.Written? { RecordKeepsIntact(init, s, se, last, tx); }
    case _ => QuietKeepsIntact(s, a, se, last);
  }

  /** The clock, BEGIN and a scan touch neither the row nor whoever holds it. */
  lemma QuietKeepsIntact(s: Db, a: Action, se: Session, last: Instant)
    requires LocksOk(s) && Intact(s, se, last) && (a.Tick? || a.Begin? || a.Scan?)
    requires a.Scan? && a.tx in s.txs ==> TxOk(s, a.tx)
    ensures Intact(Step(s, a), se, last) && Step(s, a).rows == s.rows
  {
    LockHoldersExist(s, se);
  }

  lemma LockHoldersExist(s: Db, se: Session)
    requires LocksOk(s)
    ensures se.id in s.locks ==> s.locks[se.id] in s.txs && se.id in s.txs[s.locks[se.id]].held
  {
  }

  /** Locking another row, waiting, or finding no row. */
  lemma LockElsewhere(s: Db, se: Session, last: Instant, tx: TxId)
    requires LocksOk(s) && Intact(s, se, last) && tx in s.txs && TxOk(s, tx) && s.txs[tx].phase.Begun?
    requires (s.txs[tx].job.OwnerWrite? || s.txs[tx].job.LockOnly?) ==> s.txs[tx].job.id != se.id || se.id in s.locks
    ensures Intact(Step(s, LockRow(tx)), se, last)
  {
    LockHoldersExist(s, se);
  }

  /** Locking the session's row while nobody holds it. */
  lemma LockHere(s: Db, se: Session, last: Instant, tx: TxId)
    requires Intact(s, se, last) && tx in s.txs && TxOk(s, tx) && s.txs[tx].phase.Begun?
    requires (s.txs[tx].job.OwnerWrite? || s.txs[tx].job.LockOnly?) && s.txs[tx].job.id == se.id && se.id !in s.locks
    ensures Intact(Step(s, LockRow(tx)), se, last)
  {
  }

  lemma LockRowKeepsIntact(init: map<StepId, Row>, s: Db, se: Session, last: Instant, tx: TxId)
    requires Inv(init, s) && Intact(s, se, last) && tx in s.txs
    ensures Intact(Step(s, LockRow(tx)), se, last)
  {
    assert TxOk(s, tx);
    var t := s.txs[tx];
    if t.phase.Begun? {
      if (t.job.OwnerWrite? || t.job.LockOnly?) && t.job.id == se.id && se.id !in s.locks {
        LockHere(s, se, last, tx);
      } else {
        LockElsewhere(s, se, last, tx);
      }
    }
  }

  lemma RecordKeepsIntact(init: map<StepId, Row>, s: Db, se: Session, last: Instant, tx: TxId)
    requires Inv(init, s) && Intact(s, se, last) && tx in s.txs && s.txs[tx].phase.Written?
    ensures Intact(Step(s, RecordEvent(tx)), se, last)
  {
  }

  // ---------------------------------------------------------------- the whole session

  ghost function LastOver(s: Db, actions: seq<Action>, se: Session, last: Instant): Instant {
    if actions == [] then last else
      var n := |actions| - 1;
      LastCommitted(Run(s, actions[..n]), actions[n], se, LastOver(s, actions[..n], se, last))
  }

  /** One action of the run meets the session while its lease lasts. */
  ghost predicate MetInTime(s: Db, actions: seq<Action>, se: Session, last: Instant, n: nat)
    requires n < |actions|
  {
    && OnlyRenews(Run(s, actions[..n]), actions[n], se)
    && InTime(Run(s, actions[..n]), se, LastOver(s, actions[..n], se, last))
  }

  /** The worker's side of the bargain over a run: it only renews, and never lets the lease run out. */
  ghost predicate RenewsInTime(s: Db, actions: seq<Action>, se: Session, last: Instant) {
    forall n {:trigger MetInTime(s, actions, se, last, n)} :: 0 <= n < |actions| ==> MetInTime(s, actions, se, last, n)
  }

  lemma RenewsInTimePrefix(s: Db, actions: seq<Action>, se: Session, last: Instant, n: nat)
    requires RenewsInTime(s, actions, se, last) && n <= |actions|
    ensures RenewsInTime(s, actions[..n], se, last)
  {
    forall m | 0 <= m < n ensures MetInTime(s, actions[..n], se, last, m) {
      assert actions[..n][..m] == actions[..m];
      assert MetInTime(s, actions, se, last, m);
    }
  }

  /**
   * Renewal keeps ownership: if the lease never runs out, measured from the renewal in flight or, when
   * that fails or there is none, from the last committed authorization, then whatever sweeps, claimers,
   * holders of other credentials and lost connections do meanwhile, the row stays with the session, its
   * committed deadline never moves back, every renewal is accepted, and so is a completion or failure
   * report attempted in time.
   */
  lemma {:induction false} RenewalKeepsOwnership(init: map<StepId, Row>, s: Db, actions: seq<Action>, se: Session, last: Instant)
    requires Inv(init, s) && Intact(s, se, last) && RenewsInTime(s, actions, se, last)
    ensures var s' := Run(s, actions); var last' := LastOver(s, actions, se, last);
      && Inv(init, s') && Intact(s', se, last')
      && s'.rows[se.id].deadline.value >= s.rows[se.id].deadline.value
      && (forall tx :: tx in s'.txs && s'.txs[tx].phase.Holding? && HasCredentials(s'.txs[tx].job, se) && InTime(s', se, last')
            ==> tx in Step(s', Write(tx)).txs && |Step(s', Write(tx)).txs[tx].staged| == 1)
  {
    var s', last' := Run(s, actions), LastOver(s, actions, se, last);
    if actions != [] {
      var n := |actions| - 1;
      RenewsInTimePrefix(s, actions, se, last, n);
      RenewalKeepsOwnership(init, s, actions[..n], se, last);
      var p := Run(s, actions[..n]);
      assert MetInTime(s, actions, se, last, n);
      StepKeepsIntact(init, p, actions[n], se, LastOver(s, actions[..n], se, last));
      StepKeeps(init, p, actions[n]);
    }
    forall tx | tx in s'.txs && s'.txs[tx].phase.Holding? && HasCredentials(s'.txs[tx].job, se) && InTime(s', se, last')
      ensures tx in Step(s', Write(tx)).txs && |Step(s', Write(tx)).txs[tx].staged| == 1
    {
      TimelyWriteIsAccepted(init, s', se, last', tx);
    }
  }

  lemma TimelyWriteIsAccepted(init: map<StepId, Row>, s: Db, se: Session, last: Instant, tx: TxId)
    requires Inv(init, s) && Intact(s, se, last) && InTime(s, se, last)
    requires tx in s.txs && s.txs[tx].phase.Holding? && HasCredentials(s.txs[tx].job, se)
    ensures tx in Step(s, Write(tx)).txs && |Step(s, Write(tx)).txs[tx].staged| == 1
  {
    assert TxOk(s, tx);
    assert s.txs[tx].held[0] in s.txs[tx].held;
    assert !InFlight(s, se);
    assert Accepts(s.txs[tx].job.op, s.rows[se.id], s.txs[tx].began, s.clock);
  }

  /** A committed claim opens such a session, measured from the instant of its ownership write. */
  lemma ClaimOpensSession(init: map<StepId, Row>, s: Db, tx: TxId)
    requires Inv(init, s) && tx in s.txs && s.txs[tx].phase.Finished? && s.txs[tx].job.ClaimNext? && s.txs[tx].staged != []
    requires |s.txs[tx].staged| == 1
    ensures var e := s.txs[tx].staged[0];
      Intact(Step(s, Commit(tx)), Session(e.id, s.txs[tx].job.worker, e.after.leaseVersion, s.txs[tx].job.leaseMs), e.at)
  {
    assert TxOk(s, tx);
    var e := s.txs[tx].staged[0];
    assert StagedOk(s, tx, s.txs[tx], e);
    InstallAt(s.rows, s.txs[tx].staged, e.id);
  }
}
