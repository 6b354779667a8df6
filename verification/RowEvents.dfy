/** The recorded events of a row: replaying them gives the row, and each names the owner it concerns. */
module RowEvents {
  import opened Base
  import opened Lifecycle
  import opened StepSpec
  import opened RowHistory

  /** What the event history alone can tell about a step. */
  datatype Summary = Summary(status: Status, leaseVersion: int, attemptCount: int)

  function SummaryOf(r: Row): Summary {
    Summary(r.status, r.leaseVersion, r.attemptCount)
  }

  function StatusAfter(kind: EventKind): Status {
    match kind
    case StepClaimed => Running
    case StepSucceeded => Succeeded
    case StepRetryScheduled(_) => RetryWait
    case StepDeadLettered(_) => DeadLettered
    case LeaseRecovered => Ready
    case RetryReady => Ready
  }

  /** One event applied to a summary; an event that cannot follow is refused. */
  function ApplyEvent(s: Summary, b: EventBody): Option<Summary> {
    var grants := if b.kind.StepClaimed? then 1 else 0;
    if && IsLegalStepTransition(s.status, StatusAfter(b.kind))
       && b.version == s.leaseVersion + grants
       && b.attempt == s.attemptCount + grants
    then Some(Summary(StatusAfter(b.kind), b.version, b.attempt))
    else None
  }

  /** A reader of the log: it sees events only, never rows or operations. */
  function Replay(start: Summary, events: seq<Event>): Option<Summary> {
    if events == [] then Some(start) else
      match Replay(start, events[..|events| - 1])
      case None => None
      case Some(s) => ApplyEvent(s, events[|events| - 1].body)
  }

  function EventsOf(tr: seq<Entry>): seq<Event> {
    if tr == [] then [] else
      var e := tr[|tr| - 1];
      EventsOf(tr[..|tr| - 1]) + (if e.event.Some? then [e.event.value] else [])
  }

  /** What one committed write's event says is exactly how the row moved. */
  lemma EventTellsTheMove(e: Entry)
    requires EntryOk(e) && Recorded(e)
    ensures e.event.Some? ==> ApplyEvent(SummaryOf(e.before), e.event.value.body) == Some(SummaryOf(e.after))
    ensures e.event.None? ==> SummaryOf(e.before) == SummaryOf(e.after)
  {
  }

  /**
   * In every committed state, folding the step's events from its first row is possible (each event
   * follows the one before along a lifecycle edge, counting grants one by one) and yields the row.
   */
  lemma {:induction false} ReplayAgreesWithState(row0: Row, tr: seq<Entry>)
    requires Chain(row0, tr)
    ensures Replay(SummaryOf(row0), EventsOf(tr)) == Some(SummaryOf(RowAt(row0, tr, |tr|)))
  {
    if tr != [] {
      var n := |tr| - 1;
      ChainPrefix(row0, tr, n);
      ReplayAgreesWithState(row0, tr[..n]);
      assert Link(row0, tr, n);
      EventTellsTheMove(tr[n]);
      if tr[n].event.Some? {
        var events := EventsOf(tr);
        assert events[..|events| - 1] == EventsOf(tr[..n]);
      } else {
        assert EventsOf(tr) == EventsOf(tr[..n]);
      }
    }
  }

  lemma {:induction false} RunningWasGrantedHere(row0: Row, tr: seq<Entry>, i: nat)
    requires Chain(row0, tr) && CleanRow(row0) && i <= |tr|
    ensures RowAt(row0, tr, i).status == Running ==> RowAt(row0, tr, i).leaseVersion > row0.leaseVersion
    decreases i
  {
    if i > 0 {
      RunningWasGrantedHere(row0, tr, i - 1);
      VersionsNeverDecrease(row0, tr, 0, i - 1);
      assert Link(row0, tr, i - 1);
    }
  }

  /**
   * The event that ends or reports on a generation names the worker of that generation's one
   * STEP_CLAIMED event, even when the same statement cleared the owner column (recovery).
   */
  lemma EndingEventNamesTheClaimant(row0: Row, tr: seq<Entry>, i: nat) returns (g: nat)
    requires Chain(row0, tr) && CleanRow(row0) && i < |tr| && tr[i].event.Some?
    requires tr[i].before.status == Running
    ensures g < i && tr[g].event.Some?
    ensures var claimed, ended := tr[g].event.value.body, tr[i].event.value.body;
      && claimed.kind == StepClaimed && claimed.worker.Some?
      && ended.worker == claimed.worker
      && ended.version == claimed.version && ended.attempt == claimed.attempt
    ensures tr[i].after.owner == None
    ensures forall h :: 0 <= h < |tr| && tr[h].op.Claim? && tr[h].after.leaseVersion == tr[i].event.value.body.version
              ==> h == g
  {
    assert Link(row0, tr, i);
    RunningWasGrantedHere(row0, tr, i);
    g := GrantOf(row0, tr, i);
    assert Link(row0, tr, g);
    AttemptsConstantUntilClaim(row0, tr, g, i);
    forall h | 0 <= h < |tr| && tr[h].op.Claim? && tr[h].after.leaseVersion == tr[g].after.leaseVersion
      ensures h == g
    {
      OneClaimPerGeneration(row0, tr, if h < g then h else g, if h < g then g else h);
    }
  }

  lemma {:induction false} AttemptsConstantUntilClaim(row0: Row, tr: seq<Entry>, g: nat, i: nat)
    requires Chain(row0, tr) && g < i <= |tr|
    requires forall k :: g < k < i ==> !tr[k].op.Claim?
    ensures RowAt(row0, tr, i).attemptCount == tr[g].after.attemptCount
    decreases i
  {
    if i > g + 1 {
      AttemptsConstantUntilClaim(row0, tr, g, i - 1);
      assert Link(row0, tr, i - 1);
    }
  }
}
