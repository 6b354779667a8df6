/** A generation whose write was refused once is refused for good: what lets the renewal task give up. */
module Rejection {
  import opened Base
  import opened Lifecycle
  import opened StepSpec
  import opened RowHistory
  import opened Protocol
  import opened ProtocolInvariant
  import opened Refinement
  import opened RunTheorems

  /** From instant `c` on, these credentials are worth nothing on this row. */
  predicate Dead(r: Row, worker: WorkerId, version: int, c: Instant) {
    || GenerationOver(r, version)
    || (r.leaseVersion == version && r.status == Running
        && (r.owner != Some(worker) || r.deadline.None? || r.deadline.value <= c))
  }

  lemma DeadIsRefused(r: Row, worker: WorkerId, version: int, c: Instant, at: Instant)
    requires Dead(r, worker, version, c) && c <= at
    ensures !LiveLease(r, worker, version, at)
  {
  }

  /** Being refused by a row that has reached the generation is what being dead means. */
  lemma RefusedIsDead(r: Row, worker: WorkerId, version: int, c: Instant)
    requires version <= r.leaseVersion
    ensures Dead(r, worker, version, c) <==> !LiveLease(r, worker, version, c)
  {
  }

  /** No later write of the row brings dead credentials back: not a renewal by somebody else, nor a new claim by the same worker. */
  lemma {:induction false} DeadStaysDead(row0: Row, tr: seq<Entry>, i: nat, j: nat, worker: WorkerId, version: int, c: Instant)
    requires Chain(row0, tr) && i <= j <= |tr| && Dead(RowAt(row0, tr, i), worker, version, c)
    requires forall k :: i <= k < |tr| ==> tr[k].at >= c
    ensures Dead(RowAt(row0, tr, j), worker, version, c)
    decreases j - i
  {
    if i < j {
      DeadStaysDead(row0, tr, i, j - 1, worker, version, c);
      assert Link(row0, tr, j - 1);
    }
  }

  // ---------------------------------------------------------------- writes after an instant

  ghost predicate StagedSince(s: Db, tx: TxId, id: StepId, c: Instant)
    requires tx in s.txs
  {
    forall i :: 0 <= i < |s.txs[tx].staged| && s.txs[tx].staged[i].id == id ==> s.txs[tx].staged[i].at >= c
  }

  /** Every write of the row beyond its first `n`, committed or waiting for COMMIT, was made at `c` or later. */
  ghost predicate WritesSince(s: Db, id: StepId, n: nat, c: Instant) {
    && c <= s.clock
    && (forall tx {:trigger StagedSince(s, tx, id, c)} :: tx in s.txs ==> StagedSince(s, tx, id, c))
    && n <= |Trace(s.history, id)|
    && forall k :: n <= k < |Trace(s.history, id)| ==> Trace(s.history, id)[k].at >= c
  }

  /** A staged write was staged before this action, or is made by it, now. */
  lemma StagedBeforeOrNow(s: Db, a: Action, tx: TxId, i: nat)
    requires tx in Step(s, a).txs && i < |Step(s, a).txs[tx].staged|
    requires tx in s.txs ==> TxOk(s, tx)
    ensures var e := Step(s, a).txs[tx].staged[i];
      || e.at == s.clock
      || (tx in s.txs && i < |s.txs[tx].staged| && s.txs[tx].staged[i].id == e.id && s.txs[tx].staged[i].at == e.at)
  {
    var e := Step(s, a).txs[tx].staged[i];
    if a == Write(tx) {
      WriteIsNow(s, tx, i);
    } else if a == SelectSkipLocked(tx) {
      SelectIsNow(s, tx, i);
    } else if a == RecordEvent(tx) {
      assert Step(s, a) == RecordStep(s, tx, s.txs[tx]);
    } else {
      OtherActionsStageNothing(s, a, tx);
    }
  }

  lemma WriteIsNow(s: Db, tx: TxId, i: nat)
    requires tx in s.txs && tx in Step(s, Write(tx)).txs && i < |Step(s, Write(tx)).txs[tx].staged|
    ensures var e := Step(s, Write(tx)).txs[tx].staged[i];
      e.at == s.clock || (i < |s.txs[tx].staged| && s.txs[tx].staged[i] == e)
  {
  }

  lemma SelectIsNow(s: Db, tx: TxId, i: nat)
    requires tx in s.txs && tx in Step(s, SelectSkipLocked(tx)).txs && i < |Step(s, SelectSkipLocked(tx)).txs[tx].staged|
    ensures var e := Step(s, SelectSkipLocked(tx)).txs[tx].staged[i];
      e.at == s.clock || (i < |s.txs[tx].staged| && s.txs[tx].staged[i] == e)
  {
  }

  lemma StepKeepsSince(init: map<StepId, Row>, s: Db, a: Action, id: StepId, n: nat, c: Instant)
    requires Inv(init, s) && WritesSince(s, id, n, c)
    ensures WritesSince(Step(s, a), id, n, c)
  {
    var s' := Step(s, a);
    StepGrows(s, a);
    forall tx | tx in s'.txs ensures StagedSince(s', tx, id, c) {
      assert tx in s.txs ==> TxOk(s, tx) && StagedSince(s, tx, id, c);
      forall i | 0 <= i < |s'.txs[tx].staged| && s'.txs[tx].staged[i].id == id ensures s'.txs[tx].staged[i].at >= c {
        StagedBeforeOrNow(s, a, tx, i);
      }
    }
    OnlyCommitInstalls(s, a);
    if s'.history != s.history {
      CommitsSince(s, a.tx, id, n, c);
    }
  }

  lemma CommitsSince(s: Db, tx: TxId, id: StepId, n: nat, c: Instant)
    requires WritesSince(s, id, n, c) && tx in s.txs && s.txs[tx].phase.Finished?
    ensures var tr := Trace(s.history + s.txs[tx].staged, id);
      n <= |tr| && forall k :: n <= k < |tr| ==> tr[k].at >= c
  {
    var staged := s.txs[tx].staged;
    assert StagedSince(s, tx, id, c);
    TraceAppend(s.history, staged, id);
    TraceMembers(staged, id);
    forall e | e in Trace(staged, id) ensures e.at >= c {
      var i :| 0 <= i < |staged| && staged[i] == e;
    }
  }

  lemma {:induction false} RunKeepsSince(init: map<StepId, Row>, s: Db, more: seq<Action>, id: StepId, n: nat, c: Instant)
    requires Inv(init, s) && WritesSince(s, id, n, c)
    ensures Inv(init, Run(s, more)) && WritesSince(Run(s, more), id, n, c)
  {
    if more != [] {
      var l := |more| - 1;
      RunKeepsSince(init, s, more[..l], id, n, c);
      StepKeepsSince(init, Run(s, more[..l]), more[l], id, n, c);
      StepKeeps(init, Run(s, more[..l]), more[l]);
    }
  }

  /** While a transaction that has written nothing holds the row, no write of the row is waiting for COMMIT. */
  lemma HolderSeesAll(init: map<StepId, Row>, s: Db, tx: TxId, id: StepId)
    requires Inv(init, s) && tx in s.txs && id in s.txs[tx].held && s.txs[tx].staged == []
    ensures WritesSince(s, id, |Trace(s.history, id)|, s.clock)
  {
    forall u, i | u in s.txs && 0 <= i < |s.txs[u].staged| ensures s.txs[u].staged[i].id != id {
      assert TxOk(s, u);
      StagedRowsAreHeld(s, u, i);
    }
    forall u | u in s.txs ensures StagedSince(s, u, id, s.clock) {
    }
  }

  /**
   * When an owner write has been refused under the row lock, no write under the same credentials is
   * accepted in any later state, whatever anybody does: a rejected generation cannot become renewable again.
   */
  lemma RejectionIsFinal(rows: map<StepId, Row>, clock: Instant, actions: seq<Action>, more: seq<Action>,
                         id: StepId, op: Op, tx: TxId)
    requires id in rows && id in After(rows, clock, actions).rows && IsOwnerOp(op)
    requires var s := After(rows, clock, actions);
      && tx in s.txs && s.txs[tx].phase.Holding? && s.txs[tx].job == OwnerWrite(id, op)
      && op.version <= s.rows[id].leaseVersion
      && !Accepts(op, s.rows[id], s.txs[tx].began, s.clock)
    ensures var s' := Run(After(rows, clock, actions), more);
      id in s'.rows && !LiveLease(s'.rows[id], op.worker, op.version, s'.clock)
  {
    var s := After(rows, clock, actions);
    var s' := Run(s, more);
    RunKeeps(rows, clock, actions);
    assert TxOk(s, tx) && id in s.txs[tx].held;
    HolderSeesAll(rows, s, tx, id);
    RunKeepsSince(rows, s, more, id, |Trace(s.history, id)|, s.clock);
    ChainContinues(rows, clock, actions, more, id);
    RefusedIsDead(s.rows[id], op.worker, op.version, s.clock);
    DeadStaysDead(rows[id], Trace(s'.history, id), |Trace(s.history, id)|, |Trace(s'.history, id)|, op.worker, op.version, s.clock);
    DeadIsRefused(s'.rows[id], op.worker, op.version, s.clock, s'.clock);
  }
}
