/** What holds in every reachable state and over every run of the protocol. */
module RunTheorems {
  import opened Base
  import opened Lifecycle
  import opened StepSpec
  import opened RowHistory
  import opened RowEvents
  import opened RowProgress
  import opened Protocol
  import opened ProtocolInvariant
  import opened Refinement

  ghost predicate CleanRows(rows: map<StepId, Row>) {
    forall id :: id in rows ==> CleanRow(rows[id])
  }

  ghost function After(rows: map<StepId, Row>, clock: Instant, actions: seq<Action>): Db {
    Run(Start(rows, clock), actions)
  }

  /** Every committed row is the end of a legal chain of writes from its initial version. */
  lemma RunsAreChains(rows: map<StepId, Row>, clock: Instant, actions: seq<Action>, id: StepId)
    requires id in rows
    ensures var s := After(rows, clock, actions); var tr := Trace(s.history, id);
      id in s.rows && Chain(rows[id], tr) && s.rows[id] == RowAt(rows[id], tr, |tr|)
  {
    RunKeeps(rows, clock, actions);
    var s := After(rows, clock, actions);
    assert Chain(rows[id], Trace(s.history, id));
  }

  lemma {:induction false} RunConcat(s: Db, a: seq<Action>, b: seq<Action>)
    ensures Run(s, a + b) == Run(Run(s, a), b)
  {
    if b == [] {
      assert a + b == a;
    } else {
      RunConcat(s, a, b[..|b| - 1]);
      assert (a + b)[..|a + b| - 1] == a + b[..|b| - 1];
    }
  }

  lemma RunFour(s: Db, a: Action, b: Action, c: Action, d: Action)
    ensures Run(s, [a, b, c, d]) == Step(Step(Step(Step(s, a), b), c), d)
  {
    var l := [a, b, c, d];
    assert l[..3] == [a, b, c] && l[..3][..2] == [a, b] && l[..3][..2][..1] == [a] && l[..3][..2][..1][..0] == [];
    assert Run(s, [a]) == Step(s, a);
    assert Run(s, [a, b]) == Step(Step(s, a), b);
    assert Run(s, [a, b, c]) == Step(Step(Step(s, a), b), c);
  }

  /** A later state's chain continues an earlier state's. */
  lemma {:induction false} HistoryGrows(s: Db, more: seq<Action>)
    ensures |s.history| <= |Run(s, more).history| && Run(s, more).history[..|s.history|] == s.history
    ensures s.clock <= Run(s, more).clock
  {
    if more != [] {
      HistoryGrows(s, more[..|more| - 1]);
      StepGrows(Run(s, more[..|more| - 1]), more[|more| - 1]);
    }
  }

  lemma StepGrows(s: Db, a: Action)
    ensures s.history <= Step(s, a).history && s.clock <= Step(s, a).clock
  {
  }

  lemma TraceGrows(s: Db, more: seq<Action>, id: StepId)
    ensures Trace(s.history, id) <= Trace(Run(s, more).history, id)
  {
    HistoryGrows(s, more);
    var h := Run(s, more).history;
    TraceAppend(s.history, h[|s.history|..], id);
    assert h == s.history + h[|s.history|..];
  }

  /** Schema checks, budget and result column, in every committed state. */
  lemma CommittedRowsAreWellFormed(rows: map<StepId, Row>, clock: Instant, actions: seq<Action>, id: StepId)
    requires CleanRows(rows) && id in rows
    ensures var s := After(rows, clock, actions);
      && id in s.rows && WellFormedRow(s.rows[id])
      && s.rows[id].maxAttempts == rows[id].maxAttempts && s.rows[id].payload == rows[id].payload
      && s.rows[id].taskType == rows[id].taskType && s.rows[id].priority == rows[id].priority
      && s.rows[id].leaseVersion >= rows[id].leaseVersion
  {
    RunsAreChains(rows, clock, actions, id);
    var tr := Trace(After(rows, clock, actions).history, id);
    RowsStayWellFormed(rows[id], tr, |tr|);
    ConstantColumns(rows[id], tr, |tr|);
    VersionsNeverDecrease(rows[id], tr, 0, |tr|);
  }

  lemma ChainContinues(rows: map<StepId, Row>, clock: Instant, actions: seq<Action>, more: seq<Action>, id: StepId)
    requires id in rows
    ensures var s0 := After(rows, clock, actions); var s := Run(s0, more);
            var tr0 := Trace(s0.history, id); var tr := Trace(s.history, id);
      && id in s0.rows && id in s.rows && |tr0| <= |tr| && Chain(rows[id], tr)
      && s0.rows[id] == RowAt(rows[id], tr, |tr0|) && s.rows[id] == RowAt(rows[id], tr, |tr|)
      && Inv(rows, s)
  {
    var s0 := After(rows, clock, actions);
    RunConcat(Start(rows, clock), actions, more);
    RunsAreChains(rows, clock, actions, id);
    RunsAreChains(rows, clock, actions + more, id);
    RunKeeps(rows, clock, actions + more);
    TraceGrows(s0, more, id);
    var tr0, tr := Trace(s0.history, id), Trace(Run(s0, more).history, id);
    assert RowAt(rows[id], tr, |tr0|) == RowAt(rows[id], tr0, |tr0|);
  }

  /**
   * Fencing over whole runs: once generation v of a step is over, in every later state of every
   * continuation it is still over, and a transaction writing under its credentials stages nothing.
   */
  lemma FencedForever(rows: map<StepId, Row>, clock: Instant, actions: seq<Action>, more: seq<Action>,
                      id: StepId, op: Op, tx: TxId)
    requires id in rows && id in After(rows, clock, actions).rows && IsOwnerOp(op)
    requires GenerationOver(After(rows, clock, actions).rows[id], op.version)
    ensures var s := Run(After(rows, clock, actions), more);
      && id in s.rows && GenerationOver(s.rows[id], op.version)
      && (tx in s.txs && s.txs[tx].phase.Holding? && s.txs[tx].job == OwnerWrite(id, op) ==>
            var s' := Step(s, Write(tx));
            tx in s'.txs && s'.txs[tx].staged == [] && s'.rows == s.rows && s'.history == s.history)
  {
    ChainContinues(rows, clock, actions, more, id);
    var s0 := After(rows, clock, actions);
    var s := Run(s0, more);
    var tr := Trace(s.history, id);
    OverStaysOver(rows[id], tr, |Trace(s0.history, id)|, |tr|, op.version);
    if tx in s.txs && s.txs[tx].phase.Holding? && s.txs[tx].job == OwnerWrite(id, op) {
      assert TxOk(s, tx);
      RefusedWriteStagesNothing(s, tx, id, op);
    }
  }

  lemma RefusedWriteStagesNothing(s: Db, tx: TxId, id: StepId, op: Op)
    requires tx in s.txs && TxOk(s, tx) && s.txs[tx].phase.Holding? && s.txs[tx].job == OwnerWrite(id, op)
    requires id in s.rows && !Accepts(op, s.rows[id], s.txs[tx].began, s.clock)
    ensures var s' := Step(s, Write(tx));
      tx in s'.txs && s'.txs[tx].staged == [] && s'.rows == s.rows && s'.history == s.history
  {
  }

  /** A terminal row is frozen in every continuation. */
  lemma TerminalForever(rows: map<StepId, Row>, clock: Instant, actions: seq<Action>, more: seq<Action>, id: StepId)
    requires id in rows && id in After(rows, clock, actions).rows
    requires IsTerminalStepStatus(After(rows, clock, actions).rows[id].status)
    ensures var s := Run(After(rows, clock, actions), more);
      id in s.rows && s.rows[id] == After(rows, clock, actions).rows[id]
  {
    ChainContinues(rows, clock, actions, more, id);
    var s0 := After(rows, clock, actions);
    TerminalEndsChain(rows[id], Trace(Run(s0, more).history, id), |Trace(s0.history, id)|);
  }

  lemma TerminalEndsChain(row0: Row, tr: seq<Entry>, i: nat)
    requires Chain(row0, tr) && i <= |tr| && IsTerminalStepStatus(RowAt(row0, tr, i).status)
    ensures RowAt(row0, tr, |tr|) == RowAt(row0, tr, i)
  {
    if i < |tr| {
      TerminalRowsAreFrozen(row0, tr, i);
    }
  }

  /** At most 3 * max_attempts - 1 events of a step inserted READY, in any run however long. */
  lemma EventsAreBounded(rows: map<StepId, Row>, clock: Instant, actions: seq<Action>, id: StepId)
    requires CleanRows(rows) && id in rows && rows[id].status == Ready && rows[id].attemptCount == 0
    ensures |EventsOf(Trace(After(rows, clock, actions).history, id))| <= 3 * rows[id].maxAttempts - 1
  {
    RunsAreChains(rows, clock, actions, id);
    LifecycleTerminates(rows[id], Trace(After(rows, clock, actions).history, id));
  }

  /** In every committed state, the step's own event log replays to the step. */
  lemma LogAgreesWithRows(rows: map<StepId, Row>, clock: Instant, actions: seq<Action>, id: StepId)
    requires id in rows
    ensures var s := After(rows, clock, actions);
      id in s.rows && Replay(SummaryOf(rows[id]), EventsOf(Trace(s.history, id))) == Some(SummaryOf(s.rows[id]))
  {
    RunsAreChains(rows, clock, actions, id);
    ReplayAgreesWithState(rows[id], Trace(After(rows, clock, actions).history, id));
  }

  /**
   * Of two committed writes of one step, the later has the larger xid and, when both have events, the
   * larger event id: within a step, id order and (xid, id) order are both the order of transitions.
   */
  lemma PerStepOrder(rows: map<StepId, Row>, clock: Instant, actions: seq<Action>, j: nat, k: nat)
    requires j < k < |After(rows, clock, actions).history|
    requires After(rows, clock, actions).history[j].id == After(rows, clock, actions).history[k].id
    ensures var a, b := After(rows, clock, actions).history[j], After(rows, clock, actions).history[k];
      && a.xid < b.xid && a.at <= b.at
      && (a.event.Some? ==> a.event.value.xid == a.xid)
      && (a.event.Some? && b.event.Some? ==> a.event.value.id < b.event.value.id)
  {
    RunKeeps(rows, clock, actions);
    var s := After(rows, clock, actions);
    assert Earlier(s.history[j], s.history[k]);
    EntriesAreRecorded(rows, clock, actions, j);
  }

  /** What one action adds to the history was staged, complete with its event. */
  lemma NewEntriesAreRecorded(s: Db, a: Action, k: nat)
    requires TxsOk(s) && |s.history| <= k < |Step(s, a).history|
    ensures var e := Step(s, a).history[k];
      && EntryOk(e) && Recorded(e)
      && a.Commit? && a.tx in s.txs && k - |s.history| < |s.txs[a.tx].staged| && e == s.txs[a.tx].staged[k - |s.history|]
  {
    OnlyCommitInstalls(s, a);
    assert TxOk(s, a.tx);
    assert StagedOk(s, a.tx, s.txs[a.tx], s.txs[a.tx].staged[k - |s.history|]);
  }

  lemma {:induction false} EntriesAreRecorded(rows: map<StepId, Row>, clock: Instant, actions: seq<Action>, k: nat)
    requires k < |After(rows, clock, actions).history|
    ensures EntryOk(After(rows, clock, actions).history[k]) && Recorded(After(rows, clock, actions).history[k])
  {
    var n := |actions| - 1;
    var s := After(rows, clock, actions[..n]);
    if k < |s.history| {
      EntriesAreRecorded(rows, clock, actions[..n], k);
      StepGrows(s, actions[n]);
    } else {
      RunKeeps(rows, clock, actions[..n]);
      NewEntriesAreRecorded(s, actions[n], k);
    }
  }

  /** The consistency error of the claim is never thrown: the row it selected is still claimable. */
  lemma ClaimConsistencyErrorIsUnreachable(rows: map<StepId, Row>, clock: Instant, actions: seq<Action>, tx: TxId)
    requires var s := After(rows, clock, actions); tx in s.txs && s.txs[tx].job.ClaimNext? && s.txs[tx].phase.Holding?
    ensures var s' := Step(After(rows, clock, actions), Write(tx));
      tx in s'.txs && |s'.txs[tx].staged| == 1 && s'.txs[tx].phase.Written?
  {
    RunKeeps(rows, clock, actions);
    assert TxOk(After(rows, clock, actions), tx);
  }

  /** A transaction that waits for a row lock holds none, so whoever it waits for is not waiting. */
  lemma NoDeadlock(rows: map<StepId, Row>, clock: Instant, actions: seq<Action>, tx: TxId)
    requires var s := After(rows, clock, actions);
      tx in s.txs && s.txs[tx].phase.Begun? && (s.txs[tx].job.OwnerWrite? || s.txs[tx].job.LockOnly?)
      && s.txs[tx].job.id in s.rows && s.txs[tx].job.id in s.locks
    ensures var s := After(rows, clock, actions); var holder := s.locks[s.txs[tx].job.id];
      && s.txs[tx].held == []
      && holder in s.txs && holder != tx && !s.txs[holder].phase.Begun? && !s.txs[holder].phase.Scanned?
      && (forall id :: id in Step(s, Rollback(holder)).locks ==> s.locks[id] != holder)
  {
    RunKeeps(rows, clock, actions);
    var s := After(rows, clock, actions);
    assert TxOk(s, tx) && TxOk(s, s.locks[s.txs[tx].job.id]);
  }

  // ---------------------------------------------------------------- lock first, authorize second

  /** A predicate evaluation made at this state, by the holder of the row's lock, that allows `e`. */
  ghost predicate AuthorizedUnderLock(s: Db, e: Entry) {
    && e.id in s.locks && s.locks[e.id] == e.tx
    && e.id in s.rows && s.rows[e.id] == e.before
    && s.clock == e.at
    && Accepts(e.op, s.rows[e.id], e.began, s.clock)
  }

  lemma WriteIsAuthorizedUnderLock(s: Db, tx: TxId)
    requires LocksOk(s) && tx in s.txs && TxOk(s, tx) && s.txs[tx].phase.Holding?
    ensures var s' := WriteStep(s, tx, s.txs[tx]);
      tx in s'.txs ==> forall e :: e in s'.txs[tx].staged ==> AuthorizedUnderLock(s, e)
  {
  }

  lemma SweepsStageNoOwnerWrite(s: Db, tx: TxId)
    requires tx in s.txs && TxOk(s, tx) && s.txs[tx].phase.Scanned?
    ensures var s' := SelectStep(s, tx, s.txs[tx]);
      tx in s'.txs ==> forall e :: e in s'.txs[tx].staged ==> !IsOwnerOp(e.op)
  {
  }

  lemma OtherActionsStageNothing(s: Db, a: Action, tx: TxId)
    requires tx in Step(s, a).txs
    requires a != Write(tx) && a != SelectSkipLocked(tx) && a != RecordEvent(tx)
    ensures Step(s, a).txs[tx].staged == if tx in s.txs then s.txs[tx].staged else []
  {
  }

  /** A staged owner write was either staged before this action, or authorized by this very action. */
  lemma StagedStep(s: Db, a: Action, tx: TxId, i: nat)
    requires LocksOk(s) && (tx in s.txs ==> TxOk(s, tx))
    requires var s' := Step(s, a); tx in s'.txs && i < |s'.txs[tx].staged| && IsOwnerOp(s'.txs[tx].staged[i].op)
    ensures var e := Step(s, a).txs[tx].staged[i];
      || AuthorizedUnderLock(s, e)
      || (tx in s.txs && i < |s.txs[tx].staged| && e == s.txs[tx].staged[i].(event := e.event))
  {
    var s' := Step(s, a);
    var e := s'.txs[tx].staged[i];
    assert e in s'.txs[tx].staged;
    if a == Write(tx) {
      if s.txs[tx].phase.Holding? { WriteIsAuthorizedUnderLock(s, tx); }
    } else if a == SelectSkipLocked(tx) {
      if s.txs[tx].phase.Scanned? { SweepsStageNoOwnerWrite(s, tx); }
    } else if a == RecordEvent(tx) {
      assert s' == RecordStep(s, tx, s.txs[tx]);
    } else {
      OtherActionsStageNothing(s, a, tx);
    }
  }

  lemma {:induction false} StagedWasAuthorized(rows: map<StepId, Row>, clock: Instant, actions: seq<Action>, tx: TxId, i: nat)
    returns (n: nat)
    requires var s := After(rows, clock, actions);
      tx in s.txs && i < |s.txs[tx].staged| && IsOwnerOp(s.txs[tx].staged[i].op)
    ensures n < |actions| && AuthorizedUnderLock(After(rows, clock, actions[..n]), After(rows, clock, actions).txs[tx].staged[i])
  {
    var m := |actions| - 1;
    var s0 := After(rows, clock, actions[..m]);
    RunKeeps(rows, clock, actions[..m]);
    assert tx in s0.txs ==> TxOk(s0, tx);
    StagedStep(s0, actions[m], tx, i);
    if AuthorizedUnderLock(s0, After(rows, clock, actions).txs[tx].staged[i]) {
      n := m;
    } else {
      n := StagedWasAuthorized(rows, clock, actions[..m], tx, i);
      assert actions[..m][..n] == actions[..n];
    }
  }

  /**
   * In no interleaving does a renewal, completion or failure report take effect unless its deadline
   * was later than the clock when its predicate was evaluated by the holder of the row lock.
   */
  lemma {:induction false} LockFirstClosesTheDeadline(rows: map<StepId, Row>, clock: Instant, actions: seq<Action>, k: nat)
    returns (n: nat)
    requires k < |After(rows, clock, actions).history| && IsOwnerOp(After(rows, clock, actions).history[k].op)
    ensures n < |actions|
    ensures var s := After(rows, clock, actions[..n]); var e := After(rows, clock, actions).history[k];
      && AuthorizedUnderLock(s, e)
      && s.rows[e.id].deadline.Some? && s.rows[e.id].deadline.value > s.clock
      && s.rows[e.id].owner == Some(e.op.worker) && s.rows[e.id].leaseVersion == e.op.version
  {
    var m := |actions| - 1;
    var s0 := After(rows, clock, actions[..m]);
    if k < |s0.history| {
      StepGrows(s0, actions[m]);
      n := LockFirstClosesTheDeadline(rows, clock, actions[..m], k);
    } else {
      RunKeeps(rows, clock, actions[..m]);
      NewEntriesAreRecorded(s0, actions[m], k);
      n := StagedWasAuthorized(rows, clock, actions[..m], actions[m].tx, k - |s0.history|);
    }
    assert actions[..m][..n] == actions[..n];
  }
}
