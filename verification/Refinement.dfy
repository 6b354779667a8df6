/** Every interleaving is equivalent to a serial run of atomic operations. */
module Refinement {
  import opened Base
  import opened StepSpec
  import opened RowHistory
  import opened Protocol
  import opened ProtocolInvariant

  /** An atomic operation: what was asked of which row, when its transaction began, when it was judged. */
  datatype Call = Call(id: StepId, op: Op, began: Instant, at: Instant)

  function CallsOf(history: seq<Entry>): seq<Call> {
    if history == [] then [] else
      var e := history[|history| - 1];
      CallsOf(history[..|history| - 1]) + [Call(e.id, e.op, e.began, e.at)]
  }

  /** The specification machine: one operation at a time, no locks, no transactions, no snapshots. */
  function Serial(rows: map<StepId, Row>, calls: seq<Call>): Option<map<StepId, Row>> {
    if calls == [] then Some(rows) else
      var c := calls[|calls| - 1];
      match Serial(rows, calls[..|calls| - 1])
      case None => None
      case Some(m) =>
        if c.id in m && c.began <= c.at && Accepts(c.op, m[c.id], c.began, c.at)
        then Some(m[c.id := Effect(c.op, m[c.id], c.began, c.at)])
        else None
  }

  lemma {:induction false} CallsAppend(a: seq<Entry>, b: seq<Entry>)
    ensures CallsOf(a + b) == CallsOf(a) + CallsOf(b)
  {
    if b == [] {
      assert a + b == a;
    } else {
      CallsAppend(a, b[..|b| - 1]);
      assert (a + b)[..|a + b| - 1] == a + b[..|b| - 1];
    }
  }

  lemma {:induction false} SerialAppend(rows: map<StepId, Row>, a: seq<Call>, b: seq<Call>)
    requires Serial(rows, a).Some?
    ensures Serial(rows, a + b) == Serial(Serial(rows, a).value, b)
  {
    if b == [] {
      assert a + b == a;
    } else {
      SerialAppend(rows, a, b[..|b| - 1]);
      assert (a + b)[..|a + b| - 1] == a + b[..|b| - 1];
    }
  }

  /** Installing what a transaction staged is the same as performing its writes one by one. */
  lemma {:induction false} StagedIsSerial(rows: map<StepId, Row>, staged: seq<Entry>)
    requires forall i, j :: 0 <= i < j < |staged| ==> staged[i].id != staged[j].id
    requires forall i :: 0 <= i < |staged| ==>
               staged[i].id in rows && staged[i].before == rows[staged[i].id] && EntryOk(staged[i])
    ensures Serial(rows, CallsOf(staged)) == Some(Install(rows, staged))
  {
    if staged != [] {
      var n := |staged| - 1;
      var e := staged[n];
      StagedIsSerial(rows, staged[..n]);
      InstallAt(rows, staged[..n], e.id);
      assert EntryOk(e);
      assert CallsOf(staged)[..n] == CallsOf(staged[..n]) by { CallsLength(staged[..n]); }
      CallsLength(staged);
    }
  }

  lemma {:induction false} CallsLength(history: seq<Entry>)
    ensures |CallsOf(history)| == |history|
  {
    if history != [] { CallsLength(history[..|history| - 1]); }
  }

  /** Only COMMIT changes what is committed; rollbacks, waits and zero-row transactions do not. */
  lemma OnlyCommitInstalls(s: Db, a: Action)
    ensures !a.Commit? ==> Step(s, a).rows == s.rows && Step(s, a).history == s.history
    ensures a.Commit? && a.tx in s.txs && s.txs[a.tx].staged == [] ==>
              Step(s, a).rows == s.rows && Step(s, a).history == s.history
  {
  }

  /**
   * After any run, the committed rows are exactly what the specification machine computes when it is
   * given the committed operations alone, in commit order, each at its own authorization instant.
   */
  lemma {:induction false} EveryRunIsSerial(rows: map<StepId, Row>, clock: Instant, actions: seq<Action>)
    ensures var s := Run(Start(rows, clock), actions);
      Serial(rows, CallsOf(s.history)) == Some(s.rows)
  {
    if actions != [] {
      var n := |actions| - 1;
      var s := Run(Start(rows, clock), actions[..n]);
      EveryRunIsSerial(rows, clock, actions[..n]);
      RunKeeps(rows, clock, actions[..n]);
      CommitIsSerial(rows, s, actions[n]);
    }
  }

  lemma CommitIsSerial(rows: map<StepId, Row>, s: Db, a: Action)
    requires Serial(rows, CallsOf(s.history)) == Some(s.rows) && TxsOk(s)
    ensures var s' := Step(s, a); Serial(rows, CallsOf(s'.history)) == Some(s'.rows)
  {
    OnlyCommitInstalls(s, a);
    if a.Commit? && a.tx in s.txs && s.txs[a.tx].phase.Finished? {
      var staged := s.txs[a.tx].staged;
      assert TxOk(s, a.tx);
      forall i | 0 <= i < |staged|
        ensures staged[i].id in s.rows && staged[i].before == s.rows[staged[i].id] && EntryOk(staged[i])
      {
        assert StagedOk(s, a.tx, s.txs[a.tx], staged[i]);
      }
      StagedIsSerial(s.rows, staged);
      CallsAppend(s.history, staged);
      SerialAppend(rows, CallsOf(s.history), CallsOf(staged));
    }
  }
}
