/** Termination of a step's lifecycle, and the delays its retries impose. */
module RowProgress {
  import opened Base
  import opened Lifecycle
  import opened StepSpec
  import opened RowHistory
  import opened RowEvents

  // ---------------------------------------------------------------- termination

  function StatusRank(s: Status): nat {
    match s case Running => 3 case RetryWait => 2 case Ready => 1 case _ => 0
  }

  /** How many transitions a row can still make. */
  function Potential(r: Row): int {
    match r.status
    case Running => 3 * (r.maxAttempts - r.attemptCount) + 1
    case RetryWait => 3 * (r.maxAttempts - r.attemptCount)
    case Ready => 3 * (r.maxAttempts - r.attemptCount) - 1
    case _ => 0
  }

  /** Every transition but a renewal moves down in (attempts left, status rank); a renewal stays put. */
  lemma TransitionsDescend(op: Op, r: Row, began: Instant, at: Instant)
    requires WellFormedRow(r) && Accepts(op, r, began, at)
    ensures var n := Effect(op, r, began, at);
      var left, left' := r.maxAttempts - r.attemptCount, n.maxAttempts - n.attemptCount;
      && (!op.Renew? ==> left' < left || (left' == left && StatusRank(n.status) < StatusRank(r.status)))
      && (op.Renew? ==> left' == left && n.status == r.status)
      && 0 <= left' && 0 <= Potential(n)
      && (!op.Renew? ==> Potential(n) < Potential(r))
      && (op.Renew? ==> Potential(n) == Potential(r))
  {
  }

  lemma {:induction false} EventsConsumePotential(row0: Row, tr: seq<Entry>)
    requires Chain(row0, tr) && CleanRow(row0)
    ensures |EventsOf(tr)| + Potential(RowAt(row0, tr, |tr|)) <= Potential(row0)
    ensures 0 <= Potential(RowAt(row0, tr, |tr|))
  {
    if tr != [] {
      var n := |tr| - 1;
      ChainPrefix(row0, tr, n);
      EventsConsumePotential(row0, tr[..n]);
      RowsStayWellFormed(row0, tr, n);
      assert Link(row0, tr, n);
      TransitionsDescend(tr[n].op, tr[n].before, tr[n].began, tr[n].at);
    }
  }

  /** A step inserted READY with no attempts used emits at most 3 * max_attempts - 1 events. */
  lemma LifecycleTerminates(row0: Row, tr: seq<Entry>)
    requires Chain(row0, tr) && CleanRow(row0)
    ensures row0.status == Ready ==> |EventsOf(tr)| <= 3 * (row0.maxAttempts - row0.attemptCount) - 1
    ensures row0.status == RetryWait ==> |EventsOf(tr)| <= 3 * (row0.maxAttempts - row0.attemptCount)
    ensures row0.status !in {Ready, RetryWait} ==> tr == []
  {
    EventsConsumePotential(row0, tr);
    if tr != [] {
      TerminalRowsAreFrozen(row0, tr, 0);
    }
  }

  lemma ChainPrepend(row0: Row, e: Entry, tr: seq<Entry>)
    requires EntryOk(e) && Recorded(e) && e.before == row0
    requires Chain(e.after, tr)
    requires tr != [] ==> e.at <= tr[0].at
    ensures Chain(row0, [e] + tr)
    ensures EventsOf([e] + tr) == (if e.event.Some? then [e.event.value] else []) + EventsOf(tr)
  {
    var all := [e] + tr;
    forall i | 0 <= i < |all| ensures Link(row0, all, i) {
      if i > 0 {
        assert Link(e.after, tr, i - 1);
      }
    }
    EventsOfPrepend(e, tr);
  }

  lemma {:induction false} EventsOfPrepend(e: Entry, tr: seq<Entry>)
    ensures EventsOf([e] + tr) == (if e.event.Some? then [e.event.value] else []) + EventsOf(tr)
  {
    var all := [e] + tr;
    if tr == [] {
      assert all[..0] == [];
    } else {
      var n := |tr| - 1;
      EventsOfPrepend(e, tr[..n]);
      assert all[..|all| - 1] == [e] + tr[..n];
    }
  }

  /** The entry a write leaves behind. */
  function MakeEntry(op: Op, r: Row, at: Instant): (e: Entry)
    requires Accepts(op, r, at, at)
    ensures EntryOk(e) && Recorded(e) && e.before == r && e.at == at
    ensures e.event.Some? <==> !op.Renew?
  {
    var after := Effect(op, r, at, at);
    var event := match EventOf(op, r, after) case None => None case Some(body) => Some(Event(0, 0, 0, body));
    Entry(0, 0, 0, op, at, at, r, after, event)
  }

  /** The bound is reached: failing every attempt makes exactly 3 * max_attempts - 1 transitions. */
  lemma {:induction false} TerminationBoundIsTight(row0: Row, from: Instant) returns (tr: seq<Entry>)
    requires CleanRow(row0) && row0.status == Ready
    ensures Chain(row0, tr) && |EventsOf(tr)| == 3 * (row0.maxAttempts - row0.attemptCount) - 1
    ensures tr != [] && from <= tr[0].at
    ensures RowAt(row0, tr, |tr|).status == DeadLettered
    decreases row0.maxAttempts - row0.attemptCount
  {
    var t := Max(from, row0.availableAt);
    var claim := MakeEntry(Claim("w", 1), row0, t);
    var fail := MakeEntry(Fail("w", claim.after.leaseVersion, "", true), claim.after, t);
    var rest: seq<Entry> := [];
    if fail.after.status == RetryWait {
      var u := Max(t, fail.after.availableAt);
      var promote := MakeEntry(Promote, fail.after, u);
      tr := TerminationBoundIsTight(promote.after, u);
      ChainPrepend(fail.after, promote, tr);
      rest := [promote] + tr;
    } else {
      assert Chain(fail.after, rest);
    }
    ChainPrepend(claim.after, fail, rest);
    ChainPrepend(row0, claim, [fail] + rest);
    tr := [claim] + ([fail] + rest);
    assert EventsOf(rest) == (if rest == [] then [] else EventsOf(rest));
  }

  // ---------------------------------------------------------------- backoff

  predicate IsRetrySchedule(e: Entry) {
    e.op.Fail? && e.after.status == RetryWait
  }

  /**
   * After a recorded retryable failure at attempt a, nothing is committed on the row for
   * BackoffMs(a); the next write is the promotion and the one after it the claim, whose transaction
   * began no earlier than that.
   */
  lemma BackoffIsHonoured(row0: Row, tr: seq<Entry>, i: nat, j: nat)
    requires Chain(row0, tr) && i < j < |tr| && IsRetrySchedule(tr[i])
    ensures tr[j].at >= tr[i].at + Ms(BackoffMs(tr[i].before.attemptCount))
    ensures tr[i + 1].op == Promote
    ensures j == i + 2 ==> tr[j].op.Claim? && tr[j].began >= tr[i].at + Ms(BackoffMs(tr[i].before.attemptCount))
  {
    assert Link(row0, tr, i) && Link(row0, tr, i + 1);
    TimesNeverDecrease(row0, tr, i + 1, j);
    if j == i + 2 {
      assert Link(row0, tr, j);
    }
  }

  function Schedules(tr: seq<Entry>): nat {
    if tr == [] then 0 else
      Schedules(tr[..|tr| - 1]) + if IsRetrySchedule(tr[|tr| - 1]) then 1 else 0
  }

  /** The least total delay that k reported failures impose. */
  function TotalBackoffMs(k: nat): int {
    if k == 0 then 0 else TotalBackoffMs(k - 1) + BackoffMs(k)
  }

  lemma {:induction false} TotalBackoffClosedForm(k: nat)
    ensures TotalBackoffMs(k) == if k <= 3 then 500 * (Power2(k) - 1) else 3500 + 4000 * (k - 3)
  {
    if k > 0 {
      TotalBackoffClosedForm(k - 1);
      BackoffIsCappedDoubling(k);
      if k > 3 {
        Power2Monotone(3, k - 1);
      }
      assert Power2(0) == 1 && Power2(1) == 2 && Power2(2) == 4 && Power2(3) == 8;
    }
  }

  /** Every committed claim of a step has waited out the backoff of all the retries scheduled before it. */
  lemma BackoffAccumulates(row0: Row, tr: seq<Entry>, j: nat)
    requires Chain(row0, tr) && CleanRow(row0) && j < |tr| && tr[j].op.Claim?
    ensures tr[j].at >= tr[0].at + Ms(TotalBackoffMs(Schedules(tr[..j])))
  {
    if j > 0 {
      BackoffDebt(row0, tr, j);
      assert Link(row0, tr, j);
    } else {
      assert tr[..0] == [];
    }
  }

  lemma {:induction false} BackoffDebt(row0: Row, tr: seq<Entry>, n: nat)
    requires Chain(row0, tr) && CleanRow(row0) && 0 < n <= |tr|
    ensures var k := Schedules(tr[..n]);
            var due := tr[0].at + Ms(TotalBackoffMs(k));
            var r := RowAt(row0, tr, n);
      && r.attemptCount >= k + (if r.status == Running then 1 else 0)
      && (tr[n - 1].at >= due || (r.status == RetryWait && r.availableAt >= due))
    decreases n
  {
    assert tr[..n][..n - 1] == tr[..n - 1];
    assert Link(row0, tr, n - 1);
    var e := tr[n - 1];
    if n == 1 {
      assert tr[..0] == [];
      assert Schedules(tr[..0]) == 0;
      if IsRetrySchedule(e) {
        assert false;
      }
    } else {
      BackoffDebt(row0, tr, n - 1);
      if IsRetrySchedule(e) {
        BackoffMonotone(Schedules(tr[..n]), e.before.attemptCount);
      }
    }
  }
}
