/**
 * The exported functions of server/src/db, statement by statement, over the database of Database.dfy.
 * Between two statements anybody else may act: each pause is given as the actions that happen in it.
 */
module Calls {
  import opened Base
  import opened Lifecycle
  import opened StepSpec
  import opened RowHistory
  import opened Protocol
  import opened ProtocolInvariant
  import opened Refinement
  import opened RunTheorems
  import opened Sweeps
  import opened Writes
  import D = Database

  // ---------------------------------------------------------------- pauses

  predicate Touches(a: Action, tx: TxId) {
    !a.Tick? && a.tx == tx
  }

  /** Only others act. */
  predicate Spares(actions: seq<Action>, tx: TxId) {
    forall i :: 0 <= i < |actions| ==> !Touches(actions[i], tx)
  }

  /** What others leave alone: the transaction's own record, and its absence from the committed writes. */
  ghost predicate Quiet(before: Db, after: Db, tx: TxId) {
    && (tx in before.txs <==> tx in after.txs)
    && (tx in before.txs ==> after.txs[tx] == before.txs[tx])
    && NothingCommitted(before, after, tx)
  }

  ghost predicate NothingCommitted(before: Db, after: Db, tx: TxId) {
    && before.clock <= after.clock && before.history <= after.history
    && forall k {:trigger after.history[k]} :: |before.history| <= k < |after.history| ==> after.history[k].tx != tx
  }

  lemma StepIsQuiet(init: map<StepId, Row>, s: Db, a: Action, tx: TxId)
    requires Inv(init, s) && !Touches(a, tx)
    ensures Quiet(s, Step(s, a), tx)
  {
    StepGrows(s, a);
    OthersKeepRecord(s, a, tx);
    forall k | |s.history| <= k < |Step(s, a).history| ensures Step(s, a).history[k].tx != tx {
      NewEntriesAreRecorded(s, a, k);
      assert TxOk(s, a.tx);
      assert StagedOk(s, a.tx, s.txs[a.tx], s.txs[a.tx].staged[k - |s.history|]);
    }
  }

  lemma OthersKeepRecord(s: Db, a: Action, tx: TxId)
    requires !Touches(a, tx)
    ensures tx in s.txs <==> tx in Step(s, a).txs
    ensures tx in s.txs ==> Step(s, a).txs[tx] == s.txs[tx]
  {
  }

  lemma NothingTwice(a: Db, b: Db, c: Db, tx: TxId)
    requires NothingCommitted(a, b, tx) && NothingCommitted(b, c, tx)
    ensures NothingCommitted(a, c, tx)
  {
  }

  /** The transaction's own statements commit nothing before COMMIT. */
  lemma StatementsCommitNothing(s: Db, a: Action, tx: TxId)
    requires !a.Commit?
    ensures NothingCommitted(s, Step(s, a), tx)
  {
  }

  lemma RunSnoc(s: Db, script: seq<Action>, a: Action)
    ensures Run(s, script + [a]) == Step(Run(s, script), a)
  {
  }

  /** The call has been going on since `start`; `script` is everything that has happened, none of it a commit of the call's own. */
  ghost predicate Ongoing(db: D.Database, tx: TxId, start: Db, script: seq<Action>)
    reads db
  {
    db.Valid() && db.View() == Run(start, script) && NothingCommitted(start, db.View(), tx)
  }

  /** One statement of the call before COMMIT. */
  method Do(db: D.Database, a: Action, tx: TxId, ghost start: Db, ghost script: seq<Action>) returns (ghost longer: seq<Action>)
    requires Ongoing(db, tx, start, script) && !a.Commit?
    modifies db
    ensures Ongoing(db, tx, start, longer) && longer == script + [a]
    ensures db.View() == Step(old(db.View()), a)
  {
    StatementsCommitNothing(db.View(), a, tx);
    NothingTwice(start, db.View(), Step(db.View(), a), tx);
    db.Perform(a);
    longer := script + [a];
    RunSnoc(start, script, a);
  }

  method Pause(db: D.Database, actions: seq<Action>, tx: TxId, ghost start: Db, ghost script: seq<Action>)
    returns (ghost longer: seq<Action>)
    requires Ongoing(db, tx, start, script) && Spares(actions, tx)
    modifies db
    ensures Ongoing(db, tx, start, longer) && longer == script + actions
    ensures old(db.clock) <= db.clock && SameTx(old(db.txs), db.txs, tx)
  {
    longer := script;
    NoneAdded(script, actions);
    for i := 0 to |actions|
      invariant Ongoing(db, tx, start, longer) && longer == script + actions[..i]
      invariant old(db.clock) <= db.clock && SameTx(old(db.txs), db.txs, tx)
    {
      longer := Elsewhere(db, actions[i], tx, start, longer);
      OneAdded(script, actions, i);
    }
  }

  lemma NoneAdded(script: seq<Action>, actions: seq<Action>)
    ensures script + actions[..0] == script && actions[..|actions|] == actions
  {
  }

  lemma OneAdded(script: seq<Action>, actions: seq<Action>, i: nat)
    requires i < |actions|
    ensures script + actions[..i] + [actions[i]] == script + actions[..i + 1]
  {
  }

  predicate SameTx(before: map<TxId, Tx>, after: map<TxId, Tx>, tx: TxId) {
    (tx in before <==> tx in after) && (tx in before ==> after[tx] == before[tx])
  }

  /** One action of somebody else. */
  method Elsewhere(db: D.Database, a: Action, tx: TxId, ghost start: Db, ghost script: seq<Action>) returns (ghost longer: seq<Action>)
    requires Ongoing(db, tx, start, script) && !Touches(a, tx)
    modifies db
    ensures Ongoing(db, tx, start, longer) && longer == script + [a]
    ensures old(db.clock) <= db.clock && SameTx(old(db.txs), db.txs, tx)
  {
    StepIsQuiet(db.init, db.View(), a, tx);
    NothingTwice(start, db.View(), Step(db.View(), a), tx);
    db.Perform(a);
    longer := script + [a];
    RunSnoc(start, script, a);
  }

  // ---------------------------------------------------------------- lock first, authorize second

  /** What happens to others between the statements; a lock request is retried after each of `waits`. */
  datatype Pauses = Pauses(waits: seq<seq<Action>>, beforeWrite: seq<Action>, beforeEvent: seq<Action>, beforeCommit: seq<Action>)

  predicate PausesSpare(p: Pauses, tx: TxId) {
    && (forall i :: 0 <= i < |p.waits| ==> Spares(p.waits[i], tx))
    && Spares(p.beforeWrite, tx) && Spares(p.beforeEvent, tx) && Spares(p.beforeCommit, tx)
  }

  datatype OwnerOutcome =
    | Wrote(row: Row)      // one row updated, committed
    | ZeroRows             // committed, nothing written
    | StillWaiting         // the lock was never granted

  function LastOf(s: Db): Entry
    requires s.history != []
  {
    s.history[|s.history| - 1]
  }

  /** The write committed last is this call's, of this row, made within the call, and the row is as it left it. */
  ghost predicate LastWriteIs(before: Db, after: Db, tx: TxId, id: StepId) {
    && before.history <= after.history && |before.history| < |after.history|
    && LastOf(after).tx == tx && LastOf(after).id == id && before.clock <= LastOf(after).at <= after.clock
    && id in after.rows && after.rows[id] == LastOf(after).after
  }

  /** And it is this operation, with its event, and its row is what the call returns. */
  ghost predicate CommittedLast(before: Db, after: Db, tx: TxId, id: StepId, op: Op, row: Row) {
    && LastWriteIs(before, after, tx, id)
    && LastOf(after).op == op && LastOf(after).after == row && EntryOk(LastOf(after)) && Recorded(LastOf(after))
  }

  /** The transaction holds the row's lock in this state. */
  predicate Holds(s: Db, tx: TxId, id: StepId) {
    tx in s.txs && id in s.rows && id in s.locks && s.locks[id] == tx
  }

  /** The predicate was evaluated in this state by the holder of the row lock, and was false; or there is no row. */
  predicate Refused(s: Db, tx: TxId, id: StepId, worker: WorkerId, version: int) {
    id !in s.rows || (Holds(s, tx, id) && !OwnsUntil(s.rows[id], worker, version, s.clock))
  }

  /** The predicate was evaluated in this state by the holder of the row lock, and was true. */
  predicate Authorized(s: Db, tx: TxId, id: StepId, worker: WorkerId, version: int) {
    Holds(s, tx, id) && OwnsUntil(s.rows[id], worker, version, s.clock)
  }

  ghost predicate Judged(s: Db, tx: TxId, job: Job, accepted: bool)
    requires job.OwnerWrite? && IsOwnerOp(job.op)
  {
    if accepted then Authorized(s, tx, job.id, job.op.worker, job.op.version)
    else Refused(s, tx, job.id, job.op.worker, job.op.version)
  }

  /** The row is there and somebody else has it. */
  predicate Busy(s: Db, tx: TxId, id: StepId) {
    id in s.rows && id in s.locks && s.locks[id] != tx
  }

  /** The call asked for the lock after `before`, when somebody else had it. */
  ghost predicate AskedInVain(start: Db, script: seq<Action>, tx: TxId, id: StepId, before: seq<Action>) {
    before + [Action.LockRow(tx)] <= script && Busy(Run(start, before), tx, id)
  }

  ghost predicate AllInVain(start: Db, script: seq<Action>, tx: TxId, id: StepId, tries: seq<seq<Action>>) {
    forall n {:trigger AskedInVain(start, script, tx, id, tries[n])} :: 0 <= n < |tries| ==> AskedInVain(start, script, tx, id, tries[n])
  }

  /** Every request but the last met another holder, and the last did not. */
  ghost predicate LastSucceeds(start: Db, script: seq<Action>, tx: TxId, id: StepId, tries: seq<seq<Action>>) {
    && tries != [] && AllInVain(start, script, tx, id, tries[..|tries| - 1])
    && var last := tries[|tries| - 1];
       last + [Action.LockRow(tx)] <= script && !Busy(Run(start, last), tx, id)
  }

  lemma StillInVain(start: Db, script: seq<Action>, longer: seq<Action>, tx: TxId, id: StepId, tries: seq<seq<Action>>)
    requires script <= longer
    ensures AllInVain(start, script, tx, id, tries) ==> AllInVain(start, longer, tx, id, tries)
    ensures LastSucceeds(start, script, tx, id, tries) ==> LastSucceeds(start, longer, tx, id, tries)
  {
    forall before ensures AskedInVain(start, script, tx, id, before) ==> AskedInVain(start, longer, tx, id, before) {
      if before + [Action.LockRow(tx)] <= script {
        assert before + [Action.LockRow(tx)] <= longer;
      }
    }
    if LastSucceeds(start, script, tx, id, tries) {
      assert tries[|tries| - 1] + [Action.LockRow(tx)] <= longer;
      var most := tries[..|tries| - 1];
      forall n | 0 <= n < |most| ensures AskedInVain(start, longer, tx, id, most[n]) {
        assert AskedInVain(start, script, tx, id, most[n]);
      }
    }
    if AllInVain(start, script, tx, id, tries) {
      forall n | 0 <= n < |tries| ensures AskedInVain(start, longer, tx, id, tries[n]) {
        assert AskedInVain(start, script, tx, id, tries[n]);
      }
    }
  }

  lemma OneMoreInVain(start: Db, script: seq<Action>, tx: TxId, id: StepId, tries: seq<seq<Action>>, before: seq<Action>)
    requires AllInVain(start, script, tx, id, tries) && AskedInVain(start, script, tx, id, before)
    ensures AllInVain(start, script, tx, id, tries + [before])
  {
    forall n | 0 <= n <= |tries| ensures AskedInVain(start, script, tx, id, (tries + [before])[n]) {
      if n < |tries| { assert AskedInVain(start, script, tx, id, tries[n]); }
    }
  }

  method Open(db: D.Database, tx: TxId, job: Job) returns (ghost script: seq<Action>)
    requires db.Valid() && tx !in db.txs && JobAllowed(job)
    modifies db
    ensures Ongoing(db, tx, old(db.View()), script) && script == [Begin(tx, job)]
    ensures tx in db.txs && db.txs[tx] == Tx(job, old(db.clock), Begun, None, [], [])
  {
    script := Do(db, Begin(tx, job), tx, db.View(), []);
  }

  /**
   * `select id ... for update`, asked for again after each of `waits` while somebody else holds the row.
   * The states in which it asks are those that `tries` lead to.
   */
  method LockRow(db: D.Database, tx: TxId, waits: seq<seq<Action>>, ghost start: Db, ghost script: seq<Action>)
    returns (ghost longer: seq<Action>, ghost tries: seq<seq<Action>>)
    requires Ongoing(db, tx, start, script)
    requires forall i :: 0 <= i < |waits| ==> Spares(waits[i], tx)
    requires tx in db.txs && db.txs[tx].phase.Begun? && db.txs[tx].job.OwnerWrite? && db.txs[tx].staged == []
    modifies db
    ensures Ongoing(db, tx, start, longer)
    ensures tx in db.txs && db.txs[tx].job == old(db.txs[tx].job) && db.txs[tx].staged == []
    ensures db.txs[tx].phase.Begun? || db.txs[tx].phase.Holding?
            || (db.txs[tx].phase.Finished? && db.txs[tx].job.id !in db.rows)
    ensures db.txs[tx].phase.Begun? ==> |tries| == |waits| && AllInVain(start, longer, tx, db.txs[tx].job.id, tries)
    ensures !db.txs[tx].phase.Begun? ==> |tries| <= |waits| && LastSucceeds(start, longer, tx, db.txs[tx].job.id, tries)
  {
    longer, tries := script, [];
    for i := 0 to |waits|
      invariant Ongoing(db, tx, start, longer)
      invariant tx in db.txs && db.txs[tx] == old(db.txs[tx])
      invariant |tries| == i && AllInVain(start, longer, tx, db.txs[tx].job.id, tries)
    {
      longer, tries := WaitAndAsk(db, tx, waits[i], start, longer, tries);
      if !db.txs[tx].phase.Begun? {
        return;
      }
    }
  }

  method WaitAndAsk(db: D.Database, tx: TxId, wait: seq<Action>, ghost start: Db, ghost script: seq<Action>, ghost tries: seq<seq<Action>>)
    returns (ghost longer: seq<Action>, ghost tries': seq<seq<Action>>)
    requires Ongoing(db, tx, start, script) && Spares(wait, tx)
    requires tx in db.txs && db.txs[tx].phase.Begun? && db.txs[tx].job.OwnerWrite? && db.txs[tx].staged == []
    requires AllInVain(start, script, tx, db.txs[tx].job.id, tries)
    modifies db
    ensures Ongoing(db, tx, start, longer) && |tries'| == |tries| + 1
    ensures tx in db.txs && db.txs[tx].job == old(db.txs[tx].job) && db.txs[tx].staged == []
    ensures db.txs[tx].phase.Begun? ==> db.txs[tx] == old(db.txs[tx]) && AllInVain(start, longer, tx, db.txs[tx].job.id, tries')
    ensures !db.txs[tx].phase.Begun? ==>
              && LastSucceeds(start, longer, tx, db.txs[tx].job.id, tries')
              && (db.txs[tx].phase.Holding? || (db.txs[tx].phase.Finished? && db.txs[tx].job.id !in db.rows))
  {
    ghost var id := db.txs[tx].job.id;
    ghost var asked := Pause(db, wait, tx, start, script);
    longer := AskForRow(db, tx, start, asked);
    tries' := tries + [asked];
    StillInVain(start, script, longer, tx, id, tries);
    if db.txs[tx].phase.Begun? {
      OneMoreInVain(start, longer, tx, id, tries, asked);
    } else {
      assert tries'[..|tries'| - 1] == tries;
    }
  }

  /** One request for the row lock. */
  method AskForRow(db: D.Database, tx: TxId, ghost start: Db, ghost script: seq<Action>) returns (ghost longer: seq<Action>)
    requires Ongoing(db, tx, start, script)
    requires tx in db.txs && db.txs[tx].phase.Begun? && db.txs[tx].job.OwnerWrite? && db.txs[tx].staged == []
    modifies db
    ensures Ongoing(db, tx, start, longer) && longer == script + [Action.LockRow(tx)]
    ensures tx in db.txs && db.txs[tx].job == old(db.txs[tx].job) && db.txs[tx].staged == []
    ensures db.txs[tx].phase.Begun? ==> db.txs[tx] == old(db.txs[tx])
    ensures db.txs[tx].phase.Begun? <==> Busy(old(db.View()), tx, db.txs[tx].job.id)
    ensures !db.txs[tx].phase.Begun? ==>
              db.txs[tx].phase.Holding? || (db.txs[tx].phase.Finished? && db.txs[tx].job.id !in db.rows)
  {
    LockRowOutcome(db.init, db.View(), tx);
    longer := Do(db, Action.LockRow(tx), tx, start, script);
  }

  lemma LockRowOutcome(init: map<StepId, Row>, s: Db, tx: TxId)
    requires Inv(init, s) && tx in s.txs && s.txs[tx].phase.Begun? && s.txs[tx].job.OwnerWrite?
    ensures var s' := Step(s, Action.LockRow(tx));
      && tx in s'.txs && s'.txs[tx].job == s.txs[tx].job && s'.txs[tx].staged == s.txs[tx].staged
      && (s'.txs[tx].phase.Begun? ==> s'.txs[tx] == s.txs[tx])
      && (s'.txs[tx].phase.Begun? <==> Busy(s, tx, s.txs[tx].job.id))
      && (s'.txs[tx].phase.Begun? || s'.txs[tx].phase.Holding?
          || (s'.txs[tx].phase.Finished? && s'.txs[tx].job.id !in s'.rows))
  {
    assert TxOk(s, tx);
  }

  /** The UPDATE of the row the transaction holds: it matches exactly when its predicate holds now. */
  lemma WriteOutcome(init: map<StepId, Row>, s: Db, tx: TxId)
    requires Inv(init, s) && tx in s.txs && s.txs[tx].phase.Holding? && s.txs[tx].job.OwnerWrite? && IsOwnerOp(s.txs[tx].job.op)
    ensures var s' := Step(s, Action.Write(tx)); var t := s.txs[tx]; var id, op := t.job.id, t.job.op;
      && id in s.rows && id in s.locks && s.locks[id] == tx && s'.clock == s.clock
      && tx in s'.txs && s'.txs[tx].job == t.job && s'.txs[tx].began == t.began
      && (if OwnsUntil(s.rows[id], op.worker, op.version, s.clock)
          then && |s'.txs[tx].staged| == 1 && s'.txs[tx].staged[0].at == s.clock && EntryOk(s'.txs[tx].staged[0])
               && s'.txs[tx].phase == (if op.Renew? then Finished else Written)
          else s'.txs[tx].staged == [] && s'.txs[tx].phase == Finished)
  {
    assert TxOk(s, tx);
    assert s.txs[tx].held[0] in s.txs[tx].held;
    AcceptedIff(s.txs[tx].job.op, s.rows[s.txs[tx].job.id], s.txs[tx].began, s.clock);
  }

  lemma RecordOutcome(s: Db, tx: TxId)
    requires tx in s.txs && s.txs[tx].phase.Written? && |s.txs[tx].staged| == 1
    ensures var s' := Step(s, RecordEvent(tx));
      && tx in s'.txs && s'.txs[tx].phase.Finished? && s'.txs[tx].job == s.txs[tx].job && |s'.txs[tx].staged| == 1
      && s'.txs[tx].staged[0].after == s.txs[tx].staged[0].after && s'.txs[tx].staged[0].at == s.txs[tx].staged[0].at
  {
  }

  lemma CommitOutcome(init: map<StepId, Row>, first: Db, s: Db, tx: TxId)
    requires Inv(init, s) && tx in s.txs && s.txs[tx].phase.Finished? && s.txs[tx].job.OwnerWrite? && |s.txs[tx].staged| <= 1
    requires NothingCommitted(first, s, tx)
    requires s.txs[tx].staged != [] ==> first.clock <= s.txs[tx].staged[0].at
    ensures var s' := Step(s, Commit(tx)); var t := s.txs[tx];
      && (t.staged == [] ==> NothingCommitted(first, s', tx))
      && (t.staged != [] ==> CommittedLast(first, s', tx, t.job.id, t.job.op, t.staged[0].after))
  {
    var t := s.txs[tx];
    assert TxOk(s, tx);
    if t.staged == [] {
      OnlyCommitInstalls(s, Commit(tx));
    } else {
      assert StagedOk(s, tx, t, t.staged[0]);
      assert t.staged[..0] == [];
      assert t.staged == [t.staged[0]];
      assert t.held == [t.job.id];
    }
  }

  /** The UPDATE of an owner write. */
  method Update(db: D.Database, tx: TxId, ghost start: Db, ghost script: seq<Action>) returns (ghost longer: seq<Action>)
    requires Ongoing(db, tx, start, script)
    requires tx in db.txs && db.txs[tx].phase.Holding? && db.txs[tx].job.OwnerWrite? && IsOwnerOp(db.txs[tx].job.op)
    modifies db
    ensures Ongoing(db, tx, start, longer) && script <= longer
    ensures tx in db.txs && db.txs[tx].job == old(db.txs[tx].job) && |db.txs[tx].staged| <= 1
    ensures db.txs[tx].phase.Finished? || (db.txs[tx].phase.Written? && |db.txs[tx].staged| == 1)
    ensures db.txs[tx].staged != [] ==> start.clock <= db.txs[tx].staged[0].at
    ensures Judged(old(db.View()), tx, db.txs[tx].job, db.txs[tx].staged != [])
  {
    WriteOutcome(db.init, db.View(), tx);
    longer := Do(db, Write(tx), tx, start, script);
  }

  method InsertEvent(db: D.Database, tx: TxId, ghost start: Db, ghost script: seq<Action>) returns (ghost longer: seq<Action>)
    requires Ongoing(db, tx, start, script)
    requires tx in db.txs && db.txs[tx].phase.Written? && |db.txs[tx].staged| == 1
    modifies db
    ensures Ongoing(db, tx, start, longer) && script <= longer
    ensures tx in db.txs && db.txs[tx].job == old(db.txs[tx].job) && |db.txs[tx].staged| == 1 && db.txs[tx].phase.Finished?
    ensures db.txs[tx].staged[0].at == old(db.txs[tx].staged[0].at)
    ensures db.txs[tx].staged[0].after == old(db.txs[tx].staged[0].after)
  {
    RecordOutcome(db.View(), tx);
    longer := Do(db, RecordEvent(tx), tx, start, script);
  }

  /** After the lock is granted: authorize, write, record. `upTo` leads to the state `at` in which the predicate is evaluated. */
  method AuthorizeAndWrite(db: D.Database, tx: TxId, pauses: Pauses, ghost start: Db, ghost script: seq<Action>)
    returns (ghost longer: seq<Action>, ghost upTo: seq<Action>, ghost at: Db)
    requires Ongoing(db, tx, start, script) && PausesSpare(pauses, tx)
    requires tx in db.txs && db.txs[tx].phase.Holding? && db.txs[tx].job.OwnerWrite? && IsOwnerOp(db.txs[tx].job.op)
    modifies db
    ensures Ongoing(db, tx, start, longer) && script <= upTo <= longer
    ensures tx in db.txs && db.txs[tx].phase.Finished? && db.txs[tx].job == old(db.txs[tx].job) && |db.txs[tx].staged| <= 1
    ensures db.txs[tx].staged != [] ==> start.clock <= db.txs[tx].staged[0].at
    ensures at == Run(start, upTo) && Judged(at, tx, db.txs[tx].job, db.txs[tx].staged != [])
  {
    upTo := Pause(db, pauses.beforeWrite, tx, start, script);
    at := db.View();
    longer := Update(db, tx, start, upTo);
    longer := RecordIfWritten(db, tx, pauses.beforeEvent, start, longer);
  }

  method RecordIfWritten(db: D.Database, tx: TxId, beforeEvent: seq<Action>, ghost start: Db, ghost script: seq<Action>)
    returns (ghost longer: seq<Action>)
    requires Ongoing(db, tx, start, script) && Spares(beforeEvent, tx)
    requires tx in db.txs && (db.txs[tx].phase.Finished? || (db.txs[tx].phase.Written? && |db.txs[tx].staged| == 1))
    modifies db
    ensures Ongoing(db, tx, start, longer) && script <= longer
    ensures tx in db.txs && db.txs[tx].phase.Finished? && db.txs[tx].job == old(db.txs[tx].job)
    ensures |db.txs[tx].staged| == |old(db.txs[tx].staged)|
    ensures |db.txs[tx].staged| == 1 ==> db.txs[tx].staged[0].at == old(db.txs[tx].staged[0].at)
  {
    longer := script;
    if db.txs[tx].phase.Written? {
      longer := Pause(db, beforeEvent, tx, start, longer);
      longer := InsertEvent(db, tx, start, longer);
    }
  }

  method Finish(db: D.Database, tx: TxId, beforeCommit: seq<Action>, ghost start: Db, ghost script: seq<Action>)
    returns (outcome: OwnerOutcome, ghost longer: seq<Action>)
    requires Ongoing(db, tx, start, script) && Spares(beforeCommit, tx)
    requires tx in db.txs && db.txs[tx].phase.Finished? && db.txs[tx].job.OwnerWrite? && |db.txs[tx].staged| <= 1
    requires db.txs[tx].staged != [] ==> start.clock <= db.txs[tx].staged[0].at
    modifies db
    ensures db.Valid() && db.View() == Run(start, longer) && script <= longer
    ensures outcome == if old(db.txs[tx].staged) == [] then ZeroRows else Wrote(old(db.txs[tx].staged[0].after))
    ensures outcome.Wrote? ==>
              CommittedLast(start, db.View(), tx, old(db.txs[tx].job.id), old(db.txs[tx].job.op), outcome.row)
    ensures !outcome.Wrote? ==> NothingCommitted(start, db.View(), tx)
  {
    longer := Pause(db, beforeCommit, tx, start, script);
    CommitOutcome(db.init, start, db.View(), tx);
    outcome := if db.txs[tx].staged == [] then ZeroRows else Wrote(db.txs[tx].staged[0].after);
    RunSnoc(start, longer, Commit(tx));
    longer := longer + [Commit(tx)];
    db.Commit(tx);
  }

  /** Whether the call got the lock: not while every request met another holder, and at once when one did not. */
  ghost predicate Outwaited(start: Db, script: seq<Action>, tx: TxId, id: StepId, waits: seq<seq<Action>>, tries: seq<seq<Action>>, got: bool) {
    if got then |tries| <= |waits| && LastSucceeds(start, script, tx, id, tries)
    else |tries| == |waits| && AllInVain(start, script, tx, id, tries)
  }

  /**
   * BEGIN, lock, authorize, record, COMMIT, with anything in between. The call is left waiting only if at
   * each of its requests somebody else held the row; as soon as the row is free or absent it goes on, and
   * then it reports a write, which it has committed for this row and these credentials, exactly when the
   * predicate held at its evaluation under the row lock.
   */
  method OwnerTransaction(db: D.Database, tx: TxId, id: StepId, op: Op, pauses: Pauses)
    returns (outcome: OwnerOutcome, ghost script: seq<Action>, ghost tries: seq<seq<Action>>, ghost upTo: seq<Action>)
    requires db.Valid() && tx !in db.txs && IsOwnerOp(op) && PausesSpare(pauses, tx)
    modifies db
    ensures db.Valid() && db.View() == Run(old(db.View()), script) && upTo <= script
    ensures Outwaited(old(db.View()), script, tx, id, pauses.waits, tries, !outcome.StillWaiting?)
    ensures outcome.Wrote? ==> CommittedLast(old(db.View()), db.View(), tx, id, op, outcome.row)
    ensures outcome.Wrote? ==> Authorized(Run(old(db.View()), upTo), tx, id, op.worker, op.version)
    ensures outcome.ZeroRows? ==> Refused(Run(old(db.View()), upTo), tx, id, op.worker, op.version)
    ensures !outcome.Wrote? ==> NothingCommitted(old(db.View()), db.View(), tx)
  {
    ghost var start := db.View();
    script := Open(db, tx, OwnerWrite(id, op));
    script, tries := LockRow(db, tx, pauses.waits, start, script);
    if db.txs[tx].phase.Begun? {
      return StillWaiting, script, tries, script;
    }
    ghost var locked := script;
    outcome, script, upTo := AfterLock(db, tx, pauses, start, script);
    StillInVain(start, locked, script, tx, id, tries);
  }

  /** From the answer to the lock request on: the row held, or found absent. */
  method AfterLock(db: D.Database, tx: TxId, pauses: Pauses, ghost start: Db, ghost script: seq<Action>)
    returns (outcome: OwnerOutcome, ghost longer: seq<Action>, ghost upTo: seq<Action>)
    requires Ongoing(db, tx, start, script) && PausesSpare(pauses, tx)
    requires tx in db.txs && db.txs[tx].job.OwnerWrite? && IsOwnerOp(db.txs[tx].job.op) && db.txs[tx].staged == []
    requires db.txs[tx].phase.Holding? || (db.txs[tx].phase.Finished? && db.txs[tx].job.id !in db.rows)
    modifies db
    ensures db.Valid() && db.View() == Run(start, longer) && script <= longer && upTo <= longer
    ensures !outcome.StillWaiting? && Judged(Run(start, upTo), tx, old(db.txs[tx].job), outcome.Wrote?)
    ensures outcome.Wrote? ==>
              CommittedLast(start, db.View(), tx, old(db.txs[tx].job.id), old(db.txs[tx].job.op), outcome.row)
    ensures !outcome.Wrote? ==> NothingCommitted(start, db.View(), tx)
  {
    longer, upTo := script, script;
    ghost var at := db.View();
    if db.txs[tx].phase.Holding? {
      longer, upTo, at := AuthorizeAndWrite(db, tx, pauses, start, script);
    }
    outcome, longer := Finish(db, tx, pauses.beforeCommit, start, longer);
  }

  datatype RenewResult = Renewed(leaseExpiresAt: Instant) | NotRenewed | RenewalPending

  /** The lease is extended from the instant of a successful evaluation, before the old deadline, and nothing else changes. */
  method RenewStepLease(db: D.Database, tx: TxId, id: StepId, workerId: WorkerId, leaseVersion: int, leaseMs: int, pauses: Pauses)
    returns (result: RenewResult, ghost script: seq<Action>, ghost tries: seq<seq<Action>>, ghost upTo: seq<Action>)
    requires db.Valid() && tx !in db.txs && PausesSpare(pauses, tx)
    modifies db
    ensures db.Valid() && db.View() == Run(old(db.View()), script) && upTo <= script
    ensures Outwaited(old(db.View()), script, tx, id, pauses.waits, tries, !result.RenewalPending?)
    ensures result.Renewed? ==>
              && LastWriteIs(old(db.View()), db.View(), tx, id)
              && IsRenewal(LastOf(db.View()), workerId, leaseVersion, leaseMs)
              && LastOf(db.View()).after.deadline == Some(result.leaseExpiresAt)
    ensures result.Renewed? ==> Authorized(Run(old(db.View()), upTo), tx, id, workerId, leaseVersion)
    ensures result.NotRenewed? ==> Refused(Run(old(db.View()), upTo), tx, id, workerId, leaseVersion)
    ensures !result.Renewed? ==> NothingCommitted(old(db.View()), db.View(), tx)
  {
    var outcome;
    outcome, script, tries, upTo := OwnerTransaction(db, tx, id, Renew(workerId, leaseVersion, leaseMs), pauses);
    match outcome
    case Wrote(row) =>
      EntryIsItsWrite(LastOf(db.View()));
      result := Renewed(row.deadline.value);
    case ZeroRows => result := NotRenewed;
    case StillWaiting => result := RenewalPending;
  }

  datatype CompleteResult = Completed | CompletionConsistencyError | CompletionPending

  method CompleteStepSuccess(db: D.Database, tx: TxId, id: StepId, workerId: WorkerId, leaseVersion: int, output: Json, pauses: Pauses)
    returns (result: CompleteResult, ghost script: seq<Action>, ghost tries: seq<seq<Action>>, ghost upTo: seq<Action>)
    requires db.Valid() && tx !in db.txs && PausesSpare(pauses, tx)
    modifies db
    ensures db.Valid() && db.View() == Run(old(db.View()), script) && upTo <= script
    ensures Outwaited(old(db.View()), script, tx, id, pauses.waits, tries, !result.CompletionPending?)
    ensures result.Completed? ==>
              LastWriteIs(old(db.View()), db.View(), tx, id) && IsCompletion(LastOf(db.View()), workerId, leaseVersion, output)
    ensures result.Completed? ==> Authorized(Run(old(db.View()), upTo), tx, id, workerId, leaseVersion)
    ensures result.CompletionConsistencyError? ==> Refused(Run(old(db.View()), upTo), tx, id, workerId, leaseVersion)
    ensures !result.Completed? ==> NothingCommitted(old(db.View()), db.View(), tx)
  {
    var outcome;
    outcome, script, tries, upTo := OwnerTransaction(db, tx, id, Complete(workerId, leaseVersion, output), pauses);
    match outcome
    case Wrote(_) =>
      EntryIsItsWrite(LastOf(db.View()));
      result := Completed;
    case ZeroRows => result := CompletionConsistencyError;
    case StillWaiting => result := CompletionPending;
  }

  datatype FailureResult =
    | Reported(status: Status, attemptCount: int, leaseVersion: int, availableAt: Instant)
    | NotReported
    | ReportPending

  method RecordStepFailure(db: D.Database, tx: TxId, id: StepId, workerId: WorkerId, leaseVersion: int, error: string, retryable: bool,
                           pauses: Pauses)
    returns (result: FailureResult, ghost script: seq<Action>, ghost tries: seq<seq<Action>>, ghost upTo: seq<Action>)
    requires db.Valid() && tx !in db.txs && PausesSpare(pauses, tx)
    modifies db
    ensures db.Valid() && db.View() == Run(old(db.View()), script) && upTo <= script
    ensures Outwaited(old(db.View()), script, tx, id, pauses.waits, tries, !result.ReportPending?)
    ensures result.Reported? ==>
              && LastWriteIs(old(db.View()), db.View(), tx, id)
              && IsFailure(LastOf(db.View()), workerId, leaseVersion, error, retryable)
              && var r := LastOf(db.View()).after; result == Reported(r.status, r.attemptCount, r.leaseVersion, r.availableAt)
    ensures result.Reported? ==> Authorized(Run(old(db.View()), upTo), tx, id, workerId, leaseVersion)
    ensures result.NotReported? ==> Refused(Run(old(db.View()), upTo), tx, id, workerId, leaseVersion)
    ensures !result.Reported? ==> NothingCommitted(old(db.View()), db.View(), tx)
  {
    var outcome;
    outcome, script, tries, upTo := OwnerTransaction(db, tx, id, Fail(workerId, leaseVersion, error, retryable), pauses);
    match outcome
    case Wrote(row) =>
      EntryIsItsWrite(LastOf(db.View()));
      result := Reported(row.status, row.attemptCount, row.leaseVersion, row.availableAt);
    case ZeroRows => result := NotReported;
    case StillWaiting => result := ReportPending;
  }

  // ---------------------------------------------------------------- claiming

  datatype ClaimPauses = ClaimPauses(
    beforeScan: seq<Action>, beforeLock: seq<Action>, beforeWrite: seq<Action>, beforeEvent: seq<Action>, beforeCommit: seq<Action>)

  predicate ClaimPausesSpare(p: ClaimPauses, tx: TxId) {
    && Spares(p.beforeScan, tx) && Spares(p.beforeLock, tx) && Spares(p.beforeWrite, tx)
    && Spares(p.beforeEvent, tx) && Spares(p.beforeCommit, tx)
  }

  datatype ClaimResult = BlankWorkerId | NotClaimed | Claimed(id: StepId, row: Row)

  /** In this state the claim's query, having scanned, takes its locks; these are the rows it can lock, and those it takes. */
  ghost predicate Selecting(s: Db, tx: TxId, job: Job) {
    tx in s.txs && s.txs[tx].phase.Scanned? && s.txs[tx].job == job && IsSelecting(job)
  }

  ghost function PoolAt(s: Db, tx: TxId, job: Job): set<StepId>
    requires Selecting(s, tx, job)
  {
    Lockable(s, job, s.txs[tx].began, s.txs[tx].phase.snapshot, s.txs[tx].phase.scannedAt)
  }

  ghost function BatchAt(s: Db, tx: TxId, job: Job): seq<StepId>
    requires Selecting(s, tx, job)
  {
    Batch(s, job, s.txs[tx].began, s.txs[tx].phase.snapshot, s.txs[tx].phase.scannedAt)
  }

  lemma ClaimSelectOutcome(s: Db, tx: TxId, job: Job)
    requires Selecting(s, tx, job) && job.ClaimNext? && s.txs[tx].staged == []
    ensures var s' := Step(s, SelectSkipLocked(tx)); var ids := BatchAt(s, tx, job);
      && |ids| <= 1 && (ids == [] <==> PoolAt(s, tx, job) == {})
      && tx in s'.txs && s'.txs[tx].job == job && s'.txs[tx].staged == [] && s'.clock == s.clock
      && (if ids == [] then s'.txs[tx].phase.Finished? else s'.txs[tx].phase.Holding? && s'.txs[tx].held == ids)
  {
    ClaimTakesTheBest(s, job, s.txs[tx].began, s.txs[tx].phase.snapshot, s.txs[tx].phase.scannedAt);
  }

  lemma ClaimWriteOutcome(init: map<StepId, Row>, s: Db, tx: TxId)
    requires Inv(init, s) && tx in s.txs && s.txs[tx].phase.Holding? && s.txs[tx].job.ClaimNext?
    ensures var s' := Step(s, Action.Write(tx)); var t := s.txs[tx];
      && |t.held| == 1 && t.held[0] in s.rows
      && tx in s'.txs && s'.txs[tx].job == t.job && s'.txs[tx].phase == Written && |s'.txs[tx].staged| == 1
      && s'.txs[tx].staged[0].id == t.held[0] && s'.txs[tx].staged[0].at == s.clock
  {
    assert TxOk(s, tx);
  }

  lemma ClaimCommitOutcome(init: map<StepId, Row>, first: Db, s: Db, tx: TxId)
    requires Inv(init, s) && tx in s.txs && s.txs[tx].phase.Finished? && s.txs[tx].job.ClaimNext? && |s.txs[tx].staged| <= 1
    requires NothingCommitted(first, s, tx)
    requires s.txs[tx].staged != [] ==> first.clock <= s.txs[tx].staged[0].at
    ensures var s' := Step(s, Commit(tx)); var t := s.txs[tx];
      && (t.staged == [] ==> NothingCommitted(first, s', tx))
      && (t.staged != [] ==> CommittedLast(first, s', tx, t.staged[0].id, JobOp(t.job), t.staged[0].after))
  {
    var t := s.txs[tx];
    assert TxOk(s, tx);
    if t.staged == [] {
      OnlyCommitInstalls(s, Commit(tx));
    } else {
      assert StagedOk(s, tx, t, t.staged[0]);
      assert t.staged[..0] == [];
      assert t.staged == [t.staged[0]];
    }
  }

  /** Up to the state in which the claim's query takes its lock. */
  method ScanCandidates(db: D.Database, tx: TxId, pauses: ClaimPauses, ghost start: Db, ghost script: seq<Action>)
    returns (ghost longer: seq<Action>)
    requires Ongoing(db, tx, start, script) && ClaimPausesSpare(pauses, tx)
    requires tx in db.txs && db.txs[tx].job.ClaimNext? && db.txs[tx].phase.Begun? && db.txs[tx].staged == []
    modifies db
    ensures Ongoing(db, tx, start, longer)
    ensures Selecting(db.View(), tx, old(db.txs[tx].job)) && db.txs[tx].staged == []
  {
    longer := Pause(db, pauses.beforeScan, tx, start, script);
    ScanOutcome(db.View(), tx);
    longer := Do(db, Scan(tx), tx, start, longer);
    longer := Pause(db, pauses.beforeLock, tx, start, longer);
  }

  lemma ScanOutcome(s: Db, tx: TxId)
    requires tx in s.txs && s.txs[tx].job.ClaimNext? && s.txs[tx].phase.Begun? && s.txs[tx].staged == []
    ensures var s' := Step(s, Scan(tx)); Selecting(s', tx, s.txs[tx].job) && s'.txs[tx].staged == []
  {
  }

  /** The locking half of SELECT ... FOR UPDATE SKIP LOCKED. */
  method LockCandidate(db: D.Database, tx: TxId, job: Job, ghost start: Db, ghost script: seq<Action>)
    returns (candidate: Option<StepId>, ghost longer: seq<Action>)
    requires Ongoing(db, tx, start, script) && job.ClaimNext? && Selecting(db.View(), tx, job) && db.txs[tx].staged == []
    modifies db
    ensures Ongoing(db, tx, start, longer) && script <= longer
    ensures candidate.None? <==> PoolAt(old(db.View()), tx, job) == {}
    ensures candidate.Some? ==> BatchAt(old(db.View()), tx, job) == [candidate.value]
    ensures tx in db.txs && db.txs[tx].job == job && db.txs[tx].staged == []
    ensures if candidate.None? then db.txs[tx].phase.Finished? else db.txs[tx].phase.Holding? && db.txs[tx].held == [candidate.value]
  {
    ClaimSelectOutcome(db.View(), tx, job);
    longer := Do(db, SelectSkipLocked(tx), tx, start, script);
    candidate := if db.txs[tx].phase.Finished? then None else Some(db.txs[tx].held[0]);
  }

  method TakeOwnership(db: D.Database, tx: TxId, pauses: ClaimPauses, ghost start: Db, ghost script: seq<Action>)
    returns (ghost longer: seq<Action>)
    requires Ongoing(db, tx, start, script) && ClaimPausesSpare(pauses, tx)
    requires tx in db.txs && db.txs[tx].phase.Holding? && db.txs[tx].job.ClaimNext? && |db.txs[tx].held| == 1
    modifies db
    ensures Ongoing(db, tx, start, longer) && script <= longer
    ensures tx in db.txs && db.txs[tx].job == old(db.txs[tx].job) && db.txs[tx].phase.Finished? && |db.txs[tx].staged| == 1
    ensures db.txs[tx].staged[0].id == old(db.txs[tx].held[0]) && start.clock <= db.txs[tx].staged[0].at
  {
    longer := Pause(db, pauses.beforeWrite, tx, start, script);
    ClaimWriteOutcome(db.init, db.View(), tx);
    longer := Do(db, Write(tx), tx, start, longer);
    longer := Pause(db, pauses.beforeEvent, tx, start, longer);
    ClaimRecordOutcome(db.View(), tx);
    longer := Do(db, RecordEvent(tx), tx, start, longer);
  }

  lemma ClaimRecordOutcome(s: Db, tx: TxId)
    requires tx in s.txs && s.txs[tx].phase.Written? && |s.txs[tx].staged| == 1
    ensures var s' := Step(s, RecordEvent(tx));
      && tx in s'.txs && s'.txs[tx].phase.Finished? && s'.txs[tx].job == s.txs[tx].job && |s'.txs[tx].staged| == 1
      && s'.txs[tx].staged[0].id == s.txs[tx].staged[0].id && s'.txs[tx].staged[0].at == s.txs[tx].staged[0].at
  {
  }

  /**
   * What the query took in state `s`: nothing exactly when no row both passed its WHERE clause in its
   * snapshot and still passes unlocked, else the first such row in claim order.
   */
  ghost predicate SelectedAt(s: Db, tx: TxId, job: Job, candidate: Option<StepId>) {
    && Selecting(s, tx, job)
    && var began, snapshot, scannedAt := s.txs[tx].began, s.txs[tx].phase.snapshot, s.txs[tx].phase.scannedAt;
       match candidate
       case None => forall id :: !CanTake(s, job, began, snapshot, scannedAt, id)
       case Some(first) =>
         && CanTake(s, job, began, snapshot, scannedAt, first)
         && forall id :: CanTake(s, job, began, snapshot, scannedAt, id) && id != first ==> ClaimedBefore(snapshot, first, id)
  }

  lemma SelectionOnColumns(s: Db, tx: TxId, job: Job, candidate: Option<StepId>)
    requires Selecting(s, tx, job) && job.ClaimNext?
    requires candidate.None? <==> PoolAt(s, tx, job) == {}
    requires candidate.Some? ==> BatchAt(s, tx, job) == [candidate.value]
    ensures SelectedAt(s, tx, job, candidate)
  {
    var began, snapshot, scannedAt := s.txs[tx].began, s.txs[tx].phase.snapshot, s.txs[tx].phase.scannedAt;
    ClaimTakesTheBest(s, job, began, snapshot, scannedAt);
    forall id ensures CanTake(s, job, began, snapshot, scannedAt, id) <==> id in PoolAt(s, tx, job) {
      LockableIff(s, job, began, snapshot, scannedAt, id);
    }
  }

  /** The last committed write is this claim, and its row is in the table. */
  ghost predicate ClaimedLast(before: Db, after: Db, tx: TxId, id: StepId, workerId: WorkerId, leaseMs: int, row: Row) {
    LastWriteIs(before, after, tx, id) && LastOf(after).after == row && IsClaim(LastOf(after), workerId, leaseMs)
  }

  lemma ClaimedLastFrom(before: Db, after: Db, tx: TxId, id: StepId, workerId: WorkerId, leaseMs: int, row: Row)
    requires CommittedLast(before, after, tx, id, Claim(workerId, leaseMs), row)
    ensures ClaimedLast(before, after, tx, id, workerId, leaseMs, row)
  {
    EntryIsItsWrite(LastOf(after));
  }

  method ClaimTransaction(db: D.Database, tx: TxId, workerId: WorkerId, leaseMs: int, pauses: ClaimPauses)
    returns (candidate: Option<StepId>, row: Option<Row>, ghost script: seq<Action>, ghost upTo: seq<Action>)
    requires db.Valid() && tx !in db.txs && ClaimPausesSpare(pauses, tx) && !IsBlank(workerId)
    modifies db
    ensures db.Valid() && db.View() == Run(old(db.View()), script) && upTo <= script
    ensures SelectedAt(Run(old(db.View()), upTo), tx, ClaimNext(workerId, leaseMs), candidate)
    ensures candidate.Some? <==> row.Some?
    ensures candidate.Some? ==>
              ClaimedLast(old(db.View()), db.View(), tx, candidate.value, workerId, leaseMs, row.value)
    ensures candidate.None? ==> NothingCommitted(old(db.View()), db.View(), tx)
  {
    ghost var start := db.View();
    script := Open(db, tx, ClaimNext(workerId, leaseMs));
    upTo := ScanCandidates(db, tx, pauses, start, script);
    ghost var selecting := db.View();
    candidate, script := LockCandidate(db, tx, ClaimNext(workerId, leaseMs), start, upTo);
    SelectionOnColumns(selecting, tx, ClaimNext(workerId, leaseMs), candidate);
    if candidate.Some? {
      script := TakeOwnership(db, tx, pauses, start, script);
    }
    row, script := FinishClaim(db, tx, pauses.beforeCommit, start, script);
    if row.Some? {
      ClaimedLastFrom(start, db.View(), tx, candidate.value, workerId, leaseMs, row.value);
    }
  }

  method FinishClaim(db: D.Database, tx: TxId, beforeCommit: seq<Action>, ghost start: Db, ghost script: seq<Action>)
    returns (row: Option<Row>, ghost longer: seq<Action>)
    requires Ongoing(db, tx, start, script) && Spares(beforeCommit, tx)
    requires tx in db.txs && db.txs[tx].phase.Finished? && db.txs[tx].job.ClaimNext? && |db.txs[tx].staged| <= 1
    requires db.txs[tx].staged != [] ==> start.clock <= db.txs[tx].staged[0].at
    modifies db
    ensures db.Valid() && db.View() == Run(start, longer) && script <= longer
    ensures row.None? <==> old(db.txs[tx].staged) == []
    ensures row.Some? ==>
              CommittedLast(start, db.View(), tx, old(db.txs[tx].staged[0].id), JobOp(old(db.txs[tx].job)), row.value)
    ensures row.None? ==> NothingCommitted(start, db.View(), tx)
  {
    longer := Pause(db, beforeCommit, tx, start, script);
    ClaimCommitOutcome(db.init, start, db.View(), tx);
    row := if db.txs[tx].staged == [] then None else Some(db.txs[tx].staged[0].after);
    RunSnoc(start, longer, Commit(tx));
    longer := longer + [Commit(tx)];
    db.Commit(tx);
  }

  /**
   * Claims the first row, in claim order, of those eligible and unlocked when the query takes its lock;
   * nothing only if there was none. What it returns is the committed row at a generation one above the last.
   */
  method ClaimNextStep(db: D.Database, tx: TxId, workerId: WorkerId, leaseMs: int, pauses: ClaimPauses)
    returns (result: ClaimResult, ghost script: seq<Action>, ghost upTo: seq<Action>)
    requires db.Valid() && tx !in db.txs && ClaimPausesSpare(pauses, tx)
    modifies db
    ensures db.Valid() && db.View() == Run(old(db.View()), script) && upTo <= script
    ensures result.BlankWorkerId? <==> IsBlank(workerId)
    ensures result.BlankWorkerId? ==> script == []
    ensures result.NotClaimed? ==> SelectedAt(Run(old(db.View()), upTo), tx, ClaimNext(workerId, leaseMs), None)
    ensures result.Claimed? ==> SelectedAt(Run(old(db.View()), upTo), tx, ClaimNext(workerId, leaseMs), Some(result.id))
    ensures result.Claimed? ==>
              ClaimedLast(old(db.View()), db.View(), tx, result.id, workerId, leaseMs, result.row)
    ensures !result.Claimed? ==> NothingCommitted(old(db.View()), db.View(), tx)
  {
    script, upTo := [], [];
    if IsBlank(workerId) {
      return BlankWorkerId, script, upTo;
    }
    var candidate, row;
    candidate, row, script, upTo := ClaimTransaction(db, tx, workerId, leaseMs, pauses);
    match candidate
    case None => result := NotClaimed;
    case Some(id) => result := Claimed(id, row.value);
  }
}
