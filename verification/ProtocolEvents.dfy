/**
 * The event table of the protocol is one that EventCursor describes: every action of the protocol
 * acts on it as a few of the writers' actions there. So a reader beside the protocol loses nothing,
 * and what it is given of one step replays to that step.
 */
module ProtocolEvents {
  import opened Base
  import opened StepSpec
  import opened RowHistory
  import opened RowEvents
  import opened Ordering
  import opened Protocol
  import opened ProtocolInvariant
  import opened RunTheorems
  import opened EventCursor

  function EventsIn(entries: seq<Entry>): set<Event> {
    set e | e in entries && e.event.Some? :: e.event.value
  }

  function StagedEvents(txs: map<TxId, Tx>): set<Event> {
    set tx, e | tx in txs && e in EventsIn(txs[tx].staged) :: e
  }

  function RunningXids(txs: map<TxId, Tx>): set<nat> {
    set tx | tx in txs && txs[tx].xid.Some? :: txs[tx].xid.value
  }

  /** `step_events` as storage holds it: the rows of finished and of running transactions. */
  function Project(s: Db): EventDb {
    EventDb(s.nextXid, s.nextEventId, RunningXids(s.txs), EventsIn(s.history) + StagedEvents(s.txs))
  }

  lemma EventsInConcat(a: seq<Entry>, b: seq<Entry>)
    ensures EventsIn(a + b) == EventsIn(a) + EventsIn(b)
  {
  }

  lemma EventsInOne(e: Entry)
    ensures EventsIn([e]) == if e.event.Some? then {e.event.value} else {}
  {
  }

  /** What the history has is from transactions that no longer run, and says whose it is. */
  ghost predicate HistorySettled(s: Db) {
    && (forall k, tx :: 0 <= k < |s.history| && tx in s.txs ==> s.txs[tx].xid != Some(s.history[k].xid))
    && (forall k :: 0 <= k < |s.history| ==> Recorded(s.history[k]))
  }

  ghost predicate LogInv(init: map<StepId, Row>, s: Db) {
    Inv(init, s) && HistorySettled(s)
  }

  lemma OtherActionsKeepXids(s: Db, a: Action, tx: TxId)
    requires tx in Step(s, a).txs && tx in s.txs
    ensures Step(s, a).txs[tx].xid == s.txs[tx].xid || Step(s, a).txs[tx].xid == Some(s.nextXid)
  {
  }

  lemma NewTxsHaveNoXid(s: Db, a: Action, tx: TxId)
    requires tx in Step(s, a).txs && tx !in s.txs
    ensures Step(s, a).txs[tx].xid == None
  {
  }

  lemma NewHistory(s: Db, a: Action, k: nat)
    requires TxsOk(s) && |s.history| <= k < |Step(s, a).history|
    ensures Recorded(Step(s, a).history[k]) && a.Commit? && a.tx in s.txs
    ensures s.txs[a.tx].xid == Some(Step(s, a).history[k].xid)
  {
    NewEntriesAreRecorded(s, a, k);
    assert TxOk(s, a.tx);
    assert StagedOk(s, a.tx, s.txs[a.tx], s.txs[a.tx].staged[k - |s.history|]);
  }

  lemma HistorySettledKept(init: map<StepId, Row>, s: Db, a: Action)
    requires LogInv(init, s)
    ensures LogInv(init, Step(s, a))
  {
    var s' := Step(s, a);
    StepKeeps(init, s, a);
    StepGrows(s, a);
    forall k | |s.history| <= k < |s'.history| ensures Recorded(s'.history[k]) {
      NewHistory(s, a, k);
    }
    forall k, tx | 0 <= k < |s'.history| && tx in s'.txs ensures s'.txs[tx].xid != Some(s'.history[k].xid) {
      FinishedXid(init, s, a, k, tx);
    }
  }

  lemma FinishedXid(init: map<StepId, Row>, s: Db, a: Action, k: nat, tx: TxId)
    requires LogInv(init, s) && k < |Step(s, a).history| && tx in Step(s, a).txs
    ensures Step(s, a).txs[tx].xid != Some(Step(s, a).history[k].xid)
  {
    if tx in s.txs {
      OtherActionsKeepXids(s, a, tx);
    } else {
      NewTxsHaveNoXid(s, a, tx);
    }
    if k < |s.history| {
      StepGrows(s, a);
    } else {
      NewHistory(s, a, k);
      assert TxOk(s, a.tx);
      CommitRemoves(s, a.tx, k);
    }
  }

  lemma CommitRemoves(s: Db, tx: TxId, k: nat)
    requires tx in s.txs && |s.history| <= k < |Step(s, Commit(tx)).history|
    ensures Step(s, Commit(tx)).txs == s.txs - {tx}
  {
  }

  // ---------------------------------------------------------------- each action, in the table's terms

  /** A change of one transaction's record that neither gives it an xid nor records an event. */
  lemma SilentChange(s: Db, tx: TxId, t: Tx, s': Db)
    requires s'.txs == s.txs[tx := t] && s'.history == s.history
    requires s'.nextXid == s.nextXid && s'.nextEventId == s.nextEventId
    requires t.xid == if tx in s.txs then s.txs[tx].xid else None
    requires EventsIn(t.staged) == if tx in s.txs then EventsIn(s.txs[tx].staged) else {}
    ensures Project(s') == Project(s)
  {
    RunningAfterUpdate(s.txs, tx, t);
    StagedAfterUpdate(s.txs, tx, t);
    if tx in s.txs {
      StagedAfterUpdate(s.txs, tx, s.txs[tx]);
      RunningAfterUpdate(s.txs, tx, s.txs[tx]);
      assert s.txs[tx := s.txs[tx]] == s.txs;
    } else {
      assert s.txs - {tx} == s.txs;
    }
  }

  lemma RunningAfterUpdate(txs: map<TxId, Tx>, tx: TxId, t: Tx)
    ensures RunningXids(txs[tx := t]) == RunningXids(txs - {tx}) + if t.xid.Some? then {t.xid.value} else {}
  {
    var m := txs[tx := t];
    forall x | x in RunningXids(txs - {tx}) ensures x in RunningXids(m) {
      var u :| u in txs - {tx} && (txs - {tx})[u].xid.Some? && (txs - {tx})[u].xid.value == x;
      assert u in m && m[u].xid.Some? && m[u].xid.value == x;
    }
    if t.xid.Some? {
      assert tx in m && m[tx].xid.Some? && m[tx].xid.value == t.xid.value;
    }
    forall x | x in RunningXids(m) ensures x in RunningXids(txs - {tx}) || (t.xid.Some? && x == t.xid.value) {
      var u :| u in m && m[u].xid.Some? && m[u].xid.value == x;
      assert u != tx ==> u in txs - {tx} && (txs - {tx})[u].xid.value == x;
    }
  }

  lemma StagedAfterUpdate(txs: map<TxId, Tx>, tx: TxId, t: Tx)
    ensures StagedEvents(txs[tx := t]) == StagedEvents(txs - {tx}) + EventsIn(t.staged)
  {
    var m := txs[tx := t];
    forall e | e in StagedEvents(txs - {tx}) ensures e in StagedEvents(m) {
      var u :| u in txs - {tx} && e in EventsIn((txs - {tx})[u].staged);
      assert u in m && e in EventsIn(m[u].staged);
    }
    forall e | e in EventsIn(t.staged) ensures e in StagedEvents(m) {
      assert tx in m && e in EventsIn(m[tx].staged);
    }
    forall e | e in StagedEvents(m) ensures e in StagedEvents(txs - {tx}) + EventsIn(t.staged) {
      var u :| u in m && e in EventsIn(m[u].staged);
      assert u != tx ==> u in txs - {tx} && e in EventsIn((txs - {tx})[u].staged);
    }
  }

  lemma EventsOfTx(txs: map<TxId, Tx>, tx: TxId)
    requires tx in txs
    ensures StagedEvents(txs) == StagedEvents(txs - {tx}) + EventsIn(txs[tx].staged)
    ensures RunningXids(txs) == RunningXids(txs - {tx}) + if txs[tx].xid.Some? then {txs[tx].xid.value} else {}
  {
    StagedAfterUpdate(txs, tx, txs[tx]);
    RunningAfterUpdate(txs, tx, txs[tx]);
    assert txs[tx := txs[tx]] == txs;
  }

  /** Taking the first locks is taking an xid. */
  lemma AcquireAssignsXid(s: Db, tx: TxId, ids: seq<StepId>, phase: Phase)
    requires tx in s.txs && s.txs[tx].xid == None
    ensures Project(Acquire(s, tx, s.txs[tx], ids, phase)) == Write1(Project(s), AssignXid)
  {
    var s' := Acquire(s, tx, s.txs[tx], ids, phase);
    EventsOfTx(s.txs, tx);
    RunningAfterUpdate(s.txs, tx, s'.txs[tx]);
    StagedAfterUpdate(s.txs, tx, s'.txs[tx]);
  }

  function Inserts(staged: seq<Entry>): seq<WriterAction> {
    if staged == [] then [] else
      var e := staged[|staged| - 1];
      Inserts(staged[..|staged| - 1]) + if e.event.Some? then [Insert(e.event.value.xid, e.event.value.stepId, e.event.value.body)] else []
  }

  lemma {:induction false} InsertsRun(db: EventDb, xid: nat, staged: seq<Entry>)
    requires xid in db.running
    requires forall i :: 0 <= i < |staged| ==>
               staged[i].event.Some? && staged[i].event.value.xid == xid && staged[i].event.value.id == db.nextId + i
    ensures WriteAll(db, Inserts(staged)) == db.(heap := db.heap + EventsIn(staged), nextId := db.nextId + |staged|)
    ensures |Inserts(staged)| == |staged|
  {
    if staged == [] {
      assert db.heap + EventsIn(staged) == db.heap;
    } else {
      var n := |staged| - 1;
      InsertsRun(db, xid, staged[..n]);
      var e := staged[n];
      EventsInSnoc(staged);
      assert Inserts(staged)[..n] == Inserts(staged[..n]);
      assert db.heap + EventsIn(staged) == (db.heap + EventsIn(staged[..n])) + {e.event.value};
    }
  }

  lemma EventsInSnoc(staged: seq<Entry>)
    requires staged != [] && staged[|staged| - 1].event.Some?
    ensures EventsIn(staged) == EventsIn(staged[..|staged| - 1]) + {staged[|staged| - 1].event.value}
  {
    var n := |staged| - 1;
    assert staged == staged[..n] + [staged[n]];
    EventsInConcat(staged[..n], [staged[n]]);
    EventsInOne(staged[n]);
  }

  lemma StagingIsInserts(s: Db, tx: TxId, t': Tx, s': Db)
    requires tx in s.txs && s.txs[tx].xid.Some? && EventsIn(s.txs[tx].staged) == {}
    requires s' == s.(txs := s.txs[tx := t'], nextEventId := s.nextEventId + |t'.staged|) && t'.xid == s.txs[tx].xid
    requires forall i :: 0 <= i < |t'.staged| ==>
               && t'.staged[i].event.Some? && Some(t'.staged[i].event.value.xid) == t'.xid
               && t'.staged[i].event.value.id == s.nextEventId + i
    ensures Project(s') == WriteAll(Project(s), Inserts(t'.staged))
  {
    EventsOfTx(s.txs, tx);
    RunningAfterUpdate(s.txs, tx, t');
    StagedAfterUpdate(s.txs, tx, t');
    InsertsRun(Project(s), t'.xid.value, t'.staged);
  }

  lemma RecordIsInsert(init: map<StepId, Row>, s: Db, tx: TxId)
    requires LogInv(init, s) && tx in s.txs && s.txs[tx].phase.Written?
    ensures var s' := Step(s, RecordEvent(tx));
      tx in s'.txs && Project(s') == WriteAll(Project(s), Inserts(s'.txs[tx].staged))
  {
    var s' := Step(s, RecordEvent(tx));
    assert TxOk(s, tx);
    assert StagedOk(s, tx, s.txs[tx], s.txs[tx].staged[0]);
    StagingIsInserts(s, tx, s'.txs[tx], s');
  }

  lemma SweepEventIds(s: Db, tx: TxId, i: nat)
    requires tx in s.txs && s.txs[tx].xid.Some? && (s.txs[tx].job.RecoverSweep? || s.txs[tx].job.PromoteSweep?)
    requires s.txs[tx].staged == [] && i < |SweepStep(s, tx).txs[tx].staged|
    ensures var e := SweepStep(s, tx).txs[tx].staged[i];
      e.event.Some? && Some(e.event.value.xid) == s.txs[tx].xid && e.event.value.id == s.nextEventId + i
  {
  }

  lemma SweepIsInserts(s: Db, tx: TxId)
    requires tx in s.txs && s.txs[tx].xid.Some? && (s.txs[tx].job.RecoverSweep? || s.txs[tx].job.PromoteSweep?)
    requires s.txs[tx].staged == []
    ensures var s' := SweepStep(s, tx);
      tx in s'.txs && Project(s') == WriteAll(Project(s), Inserts(s'.txs[tx].staged))
  {
    var s' := SweepStep(s, tx);
    var t, t' := s.txs[tx], s'.txs[tx];
    if t' != t {
      forall i | 0 <= i < |t'.staged|
        ensures t'.staged[i].event.Some? && t'.staged[i].event.value.xid == t.xid.value
             && t'.staged[i].event.value.id == s.nextEventId + i
      {
        SweepEventIds(s, tx, i);
      }
      StagingIsInserts(s, tx, t', s');
    } else {
      SilentSweep(s, tx);
    }
  }

  lemma SilentSweep(s: Db, tx: TxId)
    requires tx in s.txs && SweepStep(s, tx).txs[tx] == s.txs[tx] && s.txs[tx].staged == []
    ensures Project(SweepStep(s, tx)) == Project(s)
  {
    assert SweepStep(s, tx).txs == s.txs;
  }

  lemma CommitIsCommit(init: map<StepId, Row>, s: Db, tx: TxId)
    requires LogInv(init, s) && tx in s.txs && s.txs[tx].phase.Finished?
    ensures var s' := Step(s, Commit(tx));
      Project(s') == if s.txs[tx].xid.Some? then Write1(Project(s), CommitTx(s.txs[tx].xid.value)) else Project(s)
  {
    var s' := Step(s, Commit(tx));
    assert TxOk(s, tx);
    EventsOfTx(s.txs, tx);
    EventsInConcat(s.history, s.txs[tx].staged);
    OthersHaveOtherXids(s, tx);
  }

  lemma OthersHaveOtherXids(s: Db, tx: TxId)
    requires TxsOk(s) && tx in s.txs
    ensures s.txs[tx].xid.Some? ==> s.txs[tx].xid.value !in RunningXids(s.txs - {tx})
  {
  }

  /** The events of a released transaction vanish with it. */
  lemma ReleaseIsAbort(init: map<StepId, Row>, s: Db, tx: TxId)
    requires LogInv(init, s) && tx in s.txs
    ensures Project(Release(s, tx)) == if s.txs[tx].xid.Some? then Write1(Project(s), AbortTx(s.txs[tx].xid.value)) else Project(s)
  {
    assert TxOk(s, tx);
    EventsOfTx(s.txs, tx);
    OthersHaveOtherXids(s, tx);
    forall e | e in EventsIn(s.history) ensures s.txs[tx].xid != Some(e.xid) {
      var h :| h in s.history && h.event.Some? && h.event.value == e;
      var k :| 0 <= k < |s.history| && s.history[k] == h;
    }
    forall e | e in StagedEvents(s.txs - {tx}) ensures s.txs[tx].xid != Some(e.xid) {
      var u :| u in s.txs - {tx} && e in EventsIn((s.txs - {tx})[u].staged);
      StagedEventsCarryXid(s, u, e);
    }
    forall e | e in EventsIn(s.txs[tx].staged) ensures s.txs[tx].xid == Some(e.xid) {
      StagedEventsCarryXid(s, tx, e);
    }
  }

  lemma StagedEventsCarryXid(s: Db, tx: TxId, ev: Event)
    requires TxsOk(s) && tx in s.txs && ev in EventsIn(s.txs[tx].staged)
    ensures s.txs[tx].xid == Some(ev.xid)
  {
    var e :| e in s.txs[tx].staged && e.event.Some? && e.event.value == ev;
    var i :| 0 <= i < |s.txs[tx].staged| && s.txs[tx].staged[i] == e;
    assert TxOk(s, tx);
    assert StagedOk(s, tx, s.txs[tx], s.txs[tx].staged[i]);
    assert s.txs[tx].phase.Finished?;
  }

  lemma OneWritten(db: EventDb, a: WriterAction)
    ensures WriteAll(db, [a]) == Write1(db, a)
  {
    assert [a][..0] == [];
  }

  lemma {:induction false} WriteAllConcat(db: EventDb, a: seq<WriterAction>, b: seq<WriterAction>)
    ensures WriteAll(db, a + b) == WriteAll(WriteAll(db, a), b)
  {
    if b == [] {
      assert a + b == a;
    } else {
      WriteAllConcat(db, a, b[..|b| - 1]);
      assert (a + b)[..|a + b| - 1] == a + b[..|b| - 1];
    }
  }

  lemma ReleaseWrites(init: map<StepId, Row>, s: Db, tx: TxId) returns (writes: seq<WriterAction>)
    requires LogInv(init, s) && tx in s.txs
    ensures Project(Release(s, tx)) == WriteAll(Project(s), writes)
  {
    ReleaseIsAbort(init, s, tx);
    writes := if s.txs[tx].xid.Some? then [AbortTx(s.txs[tx].xid.value)] else [];
    if s.txs[tx].xid.Some? { OneWritten(Project(s), writes[0]); }
  }

  lemma LockRowWrites(init: map<StepId, Row>, s: Db, tx: TxId) returns (writes: seq<WriterAction>)
    requires LogInv(init, s) && tx in s.txs
    ensures Project(Step(s, LockRow(tx))) == WriteAll(Project(s), writes)
  {
    var t, s' := s.txs[tx], Step(s, LockRow(tx));
    assert TxOk(s, tx);
    writes := [];
    if s'.locks != s.locks {
      AcquireAssignsXid(s, tx, [t.job.id], if t.job.LockOnly? then Finished else Holding);
      writes := [AssignXid];
      OneWritten(Project(s), AssignXid);
    } else if s' != s {
      SilentChange(s, tx, t.(phase := Finished), s');
    }
  }

  lemma WriteWrites(init: map<StepId, Row>, s: Db, tx: TxId) returns (writes: seq<WriterAction>)
    requires LogInv(init, s) && tx in s.txs
    ensures Project(Step(s, Write(tx))) == WriteAll(Project(s), writes)
  {
    var t, s' := s.txs[tx], Step(s, Write(tx));
    assert TxOk(s, tx);
    writes := [];
    if s' == Release(s, tx) {
      writes := ReleaseWrites(init, s, tx);
    } else if s' != s {
      assert EventsIn(s'.txs[tx].staged) == {} == EventsIn(t.staged);
      SilentChange(s, tx, s'.txs[tx], s');
    }
  }

  lemma SelectWrites(init: map<StepId, Row>, s: Db, tx: TxId) returns (writes: seq<WriterAction>)
    requires LogInv(init, s) && tx in s.txs
    ensures Project(Step(s, SelectSkipLocked(tx))) == WriteAll(Project(s), writes)
  {
    var t, s' := s.txs[tx], Step(s, SelectSkipLocked(tx));
    assert TxOk(s, tx);
    writes := [];
    if t.phase.Scanned? && IsSelecting(t.job) {
      var ids := Batch(s, t.job, t.began, t.phase.snapshot, t.phase.scannedAt);
      if ids == [] {
        SilentChange(s, tx, t.(phase := Finished), s');
      } else {
        var phase := if t.job.ClaimNext? then Holding else Finished;
        var s1 := Acquire(s, tx, t, ids, phase);
        AcquireAssignsXid(s, tx, ids, phase);
        OneWritten(Project(s), AssignXid);
        writes := [AssignXid];
        if !t.job.ClaimNext? {
          SweepIsInserts(s1, tx);
          WriteAllConcat(Project(s), [AssignXid], Inserts(s'.txs[tx].staged));
          writes := [AssignXid] + Inserts(s'.txs[tx].staged);
        }
      }
    }
  }

  lemma CommitWrites(init: map<StepId, Row>, s: Db, tx: TxId) returns (writes: seq<WriterAction>)
    requires LogInv(init, s) && tx in s.txs
    ensures Project(Step(s, Commit(tx))) == WriteAll(Project(s), writes)
  {
    writes := [];
    if s.txs[tx].phase.Finished? {
      CommitIsCommit(init, s, tx);
      if s.txs[tx].xid.Some? {
        writes := [CommitTx(s.txs[tx].xid.value)];
        OneWritten(Project(s), writes[0]);
      }
    }
  }

  /** Every action of the protocol is, on the event table, a sequence of the writers' actions. */
  lemma EveryActionWrites(init: map<StepId, Row>, s: Db, a: Action) returns (writes: seq<WriterAction>)
    requires LogInv(init, s)
    ensures Project(Step(s, a)) == WriteAll(Project(s), writes)
  {
    writes := [];
    match a
    case Tick(_) =>
    case Begin(tx, job) =>
      if tx !in s.txs && JobAllowed(job) {
        SilentChange(s, tx, Tx(job, s.clock, Begun, None, [], []), Step(s, a));
      }
    case LockRow(tx) => if tx in s.txs { writes := LockRowWrites(init, s, tx); }
    case Scan(tx) =>
      if tx in s.txs && s.txs[tx].phase.Begun? && IsSelecting(s.txs[tx].job) {
        SilentChange(s, tx, s.txs[tx].(phase := Scanned(s.rows, s.clock)), Step(s, a));
      }
    case SelectSkipLocked(tx) => if tx in s.txs { writes := SelectWrites(init, s, tx); }
    case Write(tx) => if tx in s.txs { writes := WriteWrites(init, s, tx); }
    case RecordEvent(tx) =>
      if tx in s.txs && s.txs[tx].phase.Written? {
        RecordIsInsert(init, s, tx);
        writes := Inserts(Step(s, a).txs[tx].staged);
      } else if tx in s.txs {
        assert Step(s, a) == s;
      }
    case Commit(tx) => if tx in s.txs { writes := CommitWrites(init, s, tx); }
    case Rollback(tx) => if tx in s.txs { writes := ReleaseWrites(init, s, tx); }
  }

  // ---------------------------------------------------------------- a reader beside the protocol

  datatype Watcher = Watcher(s: Db, filter: Option<StepId>, cursor: Key, delivered: seq<Event>)

  datatype WatcherAction = Act(a: Action) | ReadPage(limit: int)

  ghost function WatcherStep(w: Watcher, a: WatcherAction): Watcher {
    match a
    case Act(action) => w.(s := Step(w.s, action))
    case ReadPage(limit) =>
      match ListStepEvents(Project(w.s), w.cursor, w.filter, limit)
      case InvalidLimit => w
      case Page(events, cursor) => w.(cursor := cursor, delivered := w.delivered + events)
  }

  ghost function WatcherRun(w: Watcher, actions: seq<WatcherAction>): Watcher {
    if actions == [] then w else WatcherStep(WatcherRun(w, actions[..|actions| - 1]), actions[|actions| - 1])
  }

  function NewWatcher(rows: map<StepId, Row>, clock: Instant, filter: Option<StepId>): Watcher {
    Watcher(Start(rows, clock), filter, START, [])
  }

  function ReaderOf(w: Watcher): Reader {
    Reader(Project(w.s), w.filter, w.cursor, w.delivered)
  }

  lemma {:induction false} WritesKeepReader(r: Reader, writes: seq<WriterAction>)
    requires ReaderOk(r)
    ensures ReaderOk(r.(db := WriteAll(r.db, writes)))
  {
    if writes != [] {
      var n := |writes| - 1;
      WritesKeepReader(r, writes[..n]);
      ReaderStepKeeps(r.(db := WriteAll(r.db, writes[..n])), Writer(writes[n]));
    }
  }

  lemma StartIsEmpty(rows: map<StepId, Row>, clock: Instant, filter: Option<StepId>)
    ensures LogInv(rows, Start(rows, clock)) && ReaderOk(ReaderOf(NewWatcher(rows, clock, filter)))
  {
    RunKeeps(rows, clock, []);
    assert Project(Start(rows, clock)) == EMPTY;
    ReaderLosesNothing(filter, []);
  }

  /** Cursor completeness over runs of the protocol itself, sweeps, crashes and all. */
  lemma {:induction false} WatcherLosesNothing(rows: map<StepId, Row>, clock: Instant, filter: Option<StepId>, actions: seq<WatcherAction>)
    ensures var w := WatcherRun(NewWatcher(rows, clock, filter), actions);
      && LogInv(rows, w.s) && w.filter == filter && ReaderOk(ReaderOf(w))
      && w.delivered == Listing(Project(w.s), filter, w.cursor)
  {
    if actions == [] {
      StartIsEmpty(rows, clock, filter);
    } else {
      var n := |actions| - 1;
      WatcherLosesNothing(rows, clock, filter, actions[..n]);
      var w := WatcherRun(NewWatcher(rows, clock, filter), actions[..n]);
      match actions[n]
      case Act(a) =>
        HistorySettledKept(rows, w.s, a);
        var writes := EveryActionWrites(rows, w.s, a);
        WritesKeepReader(ReaderOf(w), writes);
      case ReadPage(limit) =>
        ReaderStepKeeps(ReaderOf(w), Read(limit));
    }
  }

  /** What was delivered, column by column: ascending, and every committed event of the filter up to the cursor. */
  lemma WatchedOnColumns(rows: map<StepId, Row>, clock: Instant, filter: Option<StepId>, actions: seq<WatcherAction>, limit: int)
    requires limit >= 1
    ensures var w := WatcherRun(NewWatcher(rows, clock, filter), actions);
      && (forall i, j :: 0 <= i < j < |w.delivered| ==> Precedes(w.delivered[i], w.delivered[j]))
      && (forall e :: e in w.delivered <==> e in EventsIn(w.s.history) && OfStep(filter, e) && !Beyond(w.cursor, e))
      && (exists page :: IsPageOnColumns(Project(w.s), w.cursor, filter, limit, page)
                         && WatcherStep(w, ReadPage(limit)) == w.(cursor := page.cursor, delivered := w.delivered + page.events))
  {
    WatcherLosesNothing(rows, clock, filter, actions);
    var w := WatcherRun(NewWatcher(rows, clock, filter), actions);
    CommittedEvents(rows, w.s);
    ListingOnColumns(Project(w.s), filter, w.cursor);
    PageOnColumns(Project(w.s), w.cursor, filter, limit);
    forall e ensures IsCommitted(Project(w.s), e) <==> e in EventsIn(w.s.history) {
      assert IsCommitted(Project(w.s), e) <==> e in Committed(Project(w.s));
    }
  }

  // ---------------------------------------------------------------- what one step's reader knows

  lemma CommittedEvents(init: map<StepId, Row>, s: Db)
    requires LogInv(init, s)
    ensures Committed(Project(s)) == EventsIn(s.history)
  {
    forall e | e in EventsIn(s.history) ensures e.xid !in RunningXids(s.txs) {
      var h :| h in s.history && h.event.Some? && h.event.value == e;
      var k :| 0 <= k < |s.history| && s.history[k] == h;
      assert Recorded(s.history[k]);
    }
    forall e | e in StagedEvents(s.txs) ensures e.xid in RunningXids(s.txs) {
      var tx :| tx in s.txs && e in EventsIn(s.txs[tx].staged);
      StagedEventsCarryXid(s, tx, e);
    }
  }

  lemma {:induction false} TraceIndex(history: seq<Entry>, id: StepId, i: nat, j: nat) returns (m: nat, n: nat)
    requires i < j < |Trace(history, id)|
    ensures m < n < |history| && history[m] == Trace(history, id)[i] && history[n] == Trace(history, id)[j]
    ensures history[m].id == history[n].id == id
  {
    var l := |history| - 1;
    TraceMembers(history, id);
    if j < |Trace(history[..l], id)| {
      m, n := TraceIndex(history[..l], id, i, j);
    } else {
      n := l;
      var e := Trace(history[..l], id)[i];
      TraceMembers(history[..l], id);
      assert e in Trace(history[..l], id);
      m :| 0 <= m < l && history[..l][m] == e;
    }
  }

  lemma {:induction false} EventIndex(tr: seq<Entry>, i: nat, j: nat) returns (m: nat, n: nat)
    requires i < j < |EventsOf(tr)|
    ensures m < n < |tr| && tr[m].event == Some(EventsOf(tr)[i]) && tr[n].event == Some(EventsOf(tr)[j])
  {
    var l := |tr| - 1;
    if j < |EventsOf(tr[..l])| {
      m, n := EventIndex(tr[..l], i, j);
    } else {
      n := l;
      m := EventIndex1(tr[..l], i);
    }
  }

  lemma {:induction false} EventIndex1(tr: seq<Entry>, i: nat) returns (m: nat)
    requires i < |EventsOf(tr)|
    ensures m < |tr| && tr[m].event == Some(EventsOf(tr)[i])
  {
    var l := |tr| - 1;
    if i < |EventsOf(tr[..l])| {
      m := EventIndex1(tr[..l], i);
    } else {
      m := l;
    }
  }

  /** A step's events, in the order of its transitions, are sorted by (xid, id). */
  lemma StepEventsAreSorted(init: map<StepId, Row>, s: Db, id: StepId)
    requires LogInv(init, s)
    ensures Sorted(EventKey, EventsOf(Trace(s.history, id)))
  {
    var tr := Trace(s.history, id);
    var events := EventsOf(tr);
    forall i: nat, j: nat | i < j < |events| ensures InOrder(EventKey, events, i, j) {
      var m, n := EventIndex(tr, i, j);
      var k, l := TraceIndex(s.history, id, m, n);
      assert Earlier(s.history[k], s.history[l]);
      assert Recorded(s.history[k]) && Recorded(s.history[l]);
    }
  }

  lemma {:induction false} EventsOfMembers(tr: seq<Entry>)
    ensures Elements(EventsOf(tr)) == EventsIn(tr)
  {
    if tr != [] {
      var n := |tr| - 1;
      EventsOfMembers(tr[..n]);
      assert tr == tr[..n] + [tr[n]];
      EventsInConcat(tr[..n], [tr[n]]);
      EventsInOne(tr[n]);
    }
  }

  lemma {:induction false} TraceIsFilter(history: seq<Entry>, id: StepId, e: Entry)
    ensures e in Trace(history, id) <==> e in history && e.id == id
  {
    if history != [] {
      var n := |history| - 1;
      TraceIsFilter(history[..n], id, e);
      assert history == history[..n] + [history[n]];
    }
  }

  lemma StepEventsAre(history: seq<Entry>, id: StepId)
    requires forall k :: 0 <= k < |history| ==> Recorded(history[k])
    ensures Elements(EventsOf(Trace(history, id))) == set e | e in EventsIn(history) && e.stepId == id
  {
    var tr := Trace(history, id);
    EventsOfMembers(tr);
    forall v | v in EventsIn(tr) ensures v in EventsIn(history) && v.stepId == id {
      var e :| e in tr && e.event.Some? && e.event.value == v;
      TraceIsFilter(history, id, e);
      var k :| 0 <= k < |history| && history[k] == e;
      assert Recorded(history[k]);
    }
    forall v | v in EventsIn(history) && v.stepId == id ensures v in EventsIn(tr) {
      var e :| e in history && e.event.Some? && e.event.value == v;
      var k :| 0 <= k < |history| && history[k] == e;
      assert Recorded(history[k]);
      TraceIsFilter(history, id, e);
    }
  }

  /**
   * A reader filtered to one step that has caught up has been given exactly that step's transitions
   * in order, and replaying them from the step's first row gives the step as it is now.
   */
  lemma CaughtUpReaderKnowsTheStep(rows: map<StepId, Row>, clock: Instant, id: StepId, actions: seq<WatcherAction>, limit: int)
    requires id in rows && limit >= 1
    requires var w := WatcherRun(NewWatcher(rows, clock, Some(id)), actions);
      RunningXids(w.s.txs) == {} && ListStepEvents(Project(w.s), w.cursor, Some(id), limit).events == []
    ensures var w := WatcherRun(NewWatcher(rows, clock, Some(id)), actions);
      && id in w.s.rows
      && w.delivered == EventsOf(Trace(w.s.history, id))
      && Replay(SummaryOf(rows[id]), w.delivered) == Some(SummaryOf(w.s.rows[id]))
  {
    WatcherLosesNothing(rows, clock, Some(id), actions);
    var w := WatcherRun(NewWatcher(rows, clock, Some(id)), actions);
    var db := Project(w.s);
    var events := EventsOf(Trace(w.s.history, id));
    NothingVisibleMeansAll(db, Some(id), w.cursor, limit);
    CommittedEvents(rows, w.s);
    StepEventsAre(w.s.history, id);
    StepEventsAreSorted(rows, w.s, id);
    assert Elements(events) == UpTo(db, Some(id), w.cursor);
    KeysDistinguish(db, UpTo(db, Some(id), w.cursor));
    SortSetIs(EventKey, UpTo(db, Some(id), w.cursor), events);
    assert Chain(rows[id], Trace(w.s.history, id));
    ReplayAgreesWithState(rows[id], Trace(w.s.history, id));
  }
}
