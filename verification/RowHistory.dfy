/**
 * The committed writes of one row, in commit order, and what they can add up to. Protocol.dfy shows
 * that every interleaving produces such a chain; here the chain alone is studied.
 */
module RowHistory {
  import opened Base
  import opened Lifecycle
  import opened StepSpec

  /** A row of `step_events`. */
  datatype Event = Event(id: nat, xid: nat, stepId: StepId, body: EventBody)

  /** One committed write: the operation, its two clock readings, the row before and after, its event. */
  datatype Entry = Entry(
    id: StepId, tx: TxId, xid: nat, op: Op, began: Instant, at: Instant,
    before: Row, after: Row, event: Option<Event>)

  ghost predicate EntryOk(e: Entry) {
    && e.began <= e.at
    && Accepts(e.op, e.before, e.began, e.at)
    && e.after == Effect(e.op, e.before, e.began, e.at)
  }

  /** The entry carries exactly the event its transition calls for, stamped with its own transaction. */
  ghost predicate Recorded(e: Entry) {
    match EventOf(e.op, e.before, e.after)
    case None => e.event == None
    case Some(body) => e.event.Some? && e.event.value == Event(e.event.value.id, e.xid, e.id, body)
  }

  function RowAt(row0: Row, tr: seq<Entry>, i: nat): Row
    requires i <= |tr|
  {
    if i == 0 then row0 else tr[i - 1].after
  }

  /** Entry i continues the row where entry i-1 left it, no earlier than entry i-1. */
  ghost predicate Link(row0: Row, tr: seq<Entry>, i: nat)
    requires i < |tr|
  {
    && EntryOk(tr[i]) && Recorded(tr[i])
    && tr[i].before == RowAt(row0, tr, i)
    && (i > 0 ==> tr[i - 1].at <= tr[i].at)
  }

  ghost predicate Chain(row0: Row, tr: seq<Entry>) {
    forall i {:trigger Link(row0, tr, i)} :: 0 <= i < |tr| ==> Link(row0, tr, i)
  }

  lemma {:induction false} TimesNeverDecrease(row0: Row, tr: seq<Entry>, i: nat, j: nat)
    requires Chain(row0, tr) && i <= j < |tr|
    ensures tr[i].at <= tr[j].at
    decreases j - i
  {
    if i < j {
      TimesNeverDecrease(row0, tr, i, j - 1);
      assert Link(row0, tr, j);
    }
  }

  lemma ChainPrefix(row0: Row, tr: seq<Entry>, n: nat)
    requires Chain(row0, tr) && n <= |tr|
    ensures Chain(row0, tr[..n]) && RowAt(row0, tr[..n], n) == RowAt(row0, tr, n)
  {
    var p := tr[..n];
    forall i | 0 <= i < n ensures Link(row0, p, i) {
      assert Link(row0, tr, i);
    }
  }

  // ---------------------------------------------------------------- budget and shape of the row

  /** From a clean row, no chain of writes breaks the row invariant. */
  lemma {:induction false} RowsStayWellFormed(row0: Row, tr: seq<Entry>, i: nat)
    requires Chain(row0, tr) && CleanRow(row0) && i <= |tr|
    ensures WellFormedRow(RowAt(row0, tr, i))
    decreases i
  {
    if i > 0 {
      RowsStayWellFormed(row0, tr, i - 1);
      assert Link(row0, tr, i - 1);
      var e := tr[i - 1];
      EffectKeepsWellFormed(e.op, e.before, e.began, e.at);
    }
  }

  /** Attempts never exceed the budget, and a row that waits for a worker can still be claimed. */
  lemma BudgetWithoutStranding(row0: Row, tr: seq<Entry>, i: nat)
    requires Chain(row0, tr) && CleanRow(row0) && i <= |tr|
    ensures var r := RowAt(row0, tr, i);
      && 0 <= r.attemptCount <= r.maxAttempts == row0.maxAttempts
      && (r.status == Ready ==> exists began :: Accepts(Claim("w", 0), r, began, began))
      && (r.status == RetryWait ==>
            exists at :: Accepts(Promote, r, at, at) && Effect(Promote, r, at, at).attemptCount < r.maxAttempts)
      && (r.status == Running ==> exists at :: Accepts(Recover, r, at, at))
  {
    RowsStayWellFormed(row0, tr, i);
    ConstantColumns(row0, tr, i);
    var r := RowAt(row0, tr, i);
    if r.status == Ready {
      assert Accepts(Claim("w", 0), r, r.availableAt, r.availableAt);
    } else if r.status == RetryWait {
      assert Accepts(Promote, r, r.availableAt, r.availableAt);
    } else if r.status == Running {
      assert Accepts(Recover, r, r.deadline.value, r.deadline.value);
    }
  }

  lemma {:induction false} ConstantColumns(row0: Row, tr: seq<Entry>, i: nat)
    requires Chain(row0, tr) && i <= |tr|
    ensures var r := RowAt(row0, tr, i);
      && r.maxAttempts == row0.maxAttempts && r.payload == row0.payload
      && r.taskType == row0.taskType && r.priority == row0.priority
    decreases i
  {
    if i > 0 {
      ConstantColumns(row0, tr, i - 1);
      assert Link(row0, tr, i - 1);
      var e := tr[i - 1];
      EffectFrame(e.op, e.before, e.began, e.at);
    }
  }

  // ---------------------------------------------------------------- fencing

  lemma {:induction false} VersionsNeverDecrease(row0: Row, tr: seq<Entry>, i: nat, j: nat)
    requires Chain(row0, tr) && i <= j <= |tr|
    ensures RowAt(row0, tr, i).leaseVersion <= RowAt(row0, tr, j).leaseVersion
    decreases j - i
  {
    if i < j {
      VersionsNeverDecrease(row0, tr, i, j - 1);
      assert Link(row0, tr, j - 1);
    }
  }

  /** Generation `v` is over for this row: superseded, or no longer running. */
  predicate GenerationOver(r: Row, v: int) {
    r.leaseVersion > v || (r.leaseVersion == v && r.status != Running)
  }

  /**
   * Once a generation is over it stays over, and no write under its credentials is ever accepted
   * again, whichever worker id presents them and however live the successor's deadline is.
   */
  lemma {:induction false} OverStaysOver(row0: Row, tr: seq<Entry>, i: nat, j: nat, v: int)
    requires Chain(row0, tr) && i <= j <= |tr|
    requires GenerationOver(RowAt(row0, tr, i), v)
    ensures GenerationOver(RowAt(row0, tr, j), v)
    ensures forall op, began, at :: IsOwnerOp(op) && op.version == v ==> !Accepts(op, RowAt(row0, tr, j), began, at)
    decreases j - i
  {
    if i < j {
      OverStaysOver(row0, tr, i, j - 1, v);
      assert Link(row0, tr, j - 1);
    }
  }

  /** Terminal rows are frozen: no write is ever committed over one. */
  lemma TerminalRowsAreFrozen(row0: Row, tr: seq<Entry>, i: nat)
    requires Chain(row0, tr) && i < |tr|
    ensures RowAt(row0, tr, i).status in {Ready, RetryWait, Running}
    ensures !IsTerminalStepStatus(RowAt(row0, tr, i).status)
  {
    assert Link(row0, tr, i);
  }

  function Claims(tr: seq<Entry>): (cs: seq<Entry>)
  {
    if tr == [] then [] else
      var rest := Claims(tr[..|tr| - 1]);
      if tr[|tr| - 1].op.Claim? then rest + [tr[|tr| - 1]] else rest
  }

  /** The grants are exactly the generations first+1 .. lease_version, each once and in order. */
  lemma {:induction false} GrantsAreConsecutive(row0: Row, tr: seq<Entry>)
    requires Chain(row0, tr)
    ensures var cs := Claims(tr);
      && |cs| == RowAt(row0, tr, |tr|).leaseVersion - row0.leaseVersion
      && forall k :: 0 <= k < |cs| ==>
           cs[k] in tr && cs[k].op.Claim? && cs[k].after.leaseVersion == row0.leaseVersion + 1 + k
  {
    if tr != [] {
      var p := tr[..|tr| - 1];
      ChainPrefix(row0, tr, |tr| - 1);
      GrantsAreConsecutive(row0, p);
      assert Link(row0, tr, |tr| - 1);
      forall k | 0 <= k < |Claims(p)| ensures Claims(p)[k] in tr {
        assert Claims(p)[k] in p;
      }
    }
  }

  /** The position of the claim that granted the generation the row is at, if it was granted in this chain. */
  lemma {:induction false} GrantOf(row0: Row, tr: seq<Entry>, i: nat) returns (g: nat)
    requires Chain(row0, tr) && i <= |tr|
    requires RowAt(row0, tr, i).leaseVersion > row0.leaseVersion
    ensures g < i && tr[g].op.Claim?
    ensures tr[g].after.leaseVersion == RowAt(row0, tr, i).leaseVersion
    ensures forall k :: g < k < i ==> !tr[k].op.Claim?
    ensures RowAt(row0, tr, i).status == Running ==>
              && RowAt(row0, tr, i).owner == Some(tr[g].op.worker)
              && (forall k :: g < k < i ==> tr[k].op.Renew?)
    decreases i
  {
    assert Link(row0, tr, i - 1);
    if tr[i - 1].op.Claim? {
      g := i - 1;
    } else {
      g := GrantOf(row0, tr, i - 1);
    }
  }

  /** Two claims that granted the same generation are the same claim. */
  lemma OneClaimPerGeneration(row0: Row, tr: seq<Entry>, i: nat, j: nat)
    requires Chain(row0, tr) && i <= j < |tr|
    requires tr[i].op.Claim? && tr[j].op.Claim?
    requires tr[i].after.leaseVersion == tr[j].after.leaseVersion
    ensures i == j
  {
    if i < j {
      assert Link(row0, tr, j);
      VersionsNeverDecrease(row0, tr, i + 1, j);
    }
  }

  // ---------------------------------------------------------------- no live lease is stolen

  /**
   * A claim over an earlier grant of this chain: the earlier generation ended before it, either by
   * recovery at or after its last committed deadline or by the failure report of its own owner, and
   * nothing its owner wrote comes after that end.
   */
  lemma NoLiveLeaseIsStolen(row0: Row, tr: seq<Entry>, j: nat) returns (g: nat, end: nat)
    requires Chain(row0, tr) && j < |tr| && tr[j].op.Claim?
    requires tr[j].before.leaseVersion > row0.leaseVersion
    ensures g < end < j && tr[g].op.Claim?
    ensures tr[g].after.leaseVersion == tr[end].before.leaseVersion == tr[j].after.leaseVersion - 1
    ensures tr[end].before.status == Running && tr[end].before.owner == Some(tr[g].op.worker)
    ensures forall k :: g < k < end ==> tr[k].op.Renew? && tr[k].op.version == tr[g].after.leaseVersion
                                        && tr[k].op.worker == tr[g].op.worker
    ensures || (tr[end].op.Recover? && tr[end].before.deadline.Some?
                && tr[end].before.deadline.value <= tr[end].at <= tr[j].at)
            || (tr[end].op.Fail? && tr[end].op.version == tr[g].after.leaseVersion
                && tr[end].op.worker == tr[g].op.worker && tr[end].op.retryable)
    ensures forall k :: end < k < |tr| && IsOwnerOp(tr[k].op) ==> tr[k].op.version != tr[g].after.leaseVersion
  {
    assert Link(row0, tr, j);
    g := GrantOf(row0, tr, j);
    assert Link(row0, tr, g);
    end := EndOfGeneration(row0, tr, g, j);
    var v := tr[g].after.leaseVersion;
    assert Link(row0, tr, end);
    TimesNeverDecrease(row0, tr, end, j);
    forall k | g < k < end ensures tr[k].op.Renew? && tr[k].op.version == v && tr[k].op.worker == tr[g].op.worker {
      assert Link(row0, tr, k);
    }
    forall k | end < k < |tr| && IsOwnerOp(tr[k].op) ensures tr[k].op.version != v {
      OverStaysOver(row0, tr, end + 1, k, v);
      assert Link(row0, tr, k);
    }
  }

  /** What a write over a running row can be. */
  lemma OverRunningRow(e: Entry)
    requires EntryOk(e) && e.before.status == Running
    ensures e.op.Renew? ==> e.after.status == Running && e.after.owner == e.before.owner
                            && e.after.leaseVersion == e.before.leaseVersion
    ensures !e.op.Renew? ==> e.after.status != Running && !e.op.Claim? && !e.op.Promote?
    ensures !e.op.Renew? && !e.op.Recover? && !(e.op.Fail? && e.op.retryable) ==> IsTerminalStepStatus(e.after.status)
  {
  }

  /** After a grant, the first write that stops the row from running. */
  lemma {:induction false} EndOfGeneration(row0: Row, tr: seq<Entry>, g: nat, j: nat) returns (end: nat)
    requires Chain(row0, tr) && g < j < |tr| && tr[g].op.Claim? && tr[j].before.status == Ready
    requires tr[g].after.leaseVersion == tr[j].before.leaseVersion
    requires forall k :: g < k < j ==> !tr[k].op.Claim?
    ensures g < end < j
    ensures forall k :: g < k <= end ==> tr[k].before.status == Running && tr[k].before.owner == Some(tr[g].op.worker)
                                         && tr[k].before.leaseVersion == tr[g].after.leaseVersion
    ensures forall k :: g < k < end ==> tr[k].op.Renew?
    ensures tr[end].op.Recover? || (tr[end].op.Fail? && tr[end].op.retryable)
    ensures tr[end].after.status != Running
  {
    assert Link(row0, tr, g) && Link(row0, tr, g + 1) && Link(row0, tr, j);
    end := g + 1;
    while tr[end].op.Renew?
      invariant g < end < j
      invariant forall k :: g < k <= end ==> tr[k].before.status == Running && tr[k].before.owner == Some(tr[g].op.worker)
                                             && tr[k].before.leaseVersion == tr[g].after.leaseVersion
      invariant forall k :: g < k < end ==> tr[k].op.Renew?
      decreases j - end
    {
      assert Link(row0, tr, end) && Link(row0, tr, end + 1);
      OverRunningRow(tr[end]);
      end := end + 1;
    }
    assert Link(row0, tr, end);
    OverRunningRow(tr[end]);
    assert Link(row0, tr, end + 1);
    TerminalRowsAreFrozen(row0, tr, end + 1);
  }
}
