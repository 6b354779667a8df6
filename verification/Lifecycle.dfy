/** The step lifecycle graph: server/src/domain/step-transitions.ts and step-status.ts. */
module Lifecycle {

  datatype Status = Pending | Ready | Running | RetryWait | Succeeded | DeadLettered | Cancelled

  datatype TransitionResult = Moved(status: Status) | IllegalTransition(from: Status, to: Status)

  function LegalTransitions(from: Status): set<Status> {
    match from
    case Pending => {Ready, Cancelled}
    case Ready => {Running, Cancelled}
    case Running => {Succeeded, RetryWait, DeadLettered, Ready}
    case RetryWait => {Ready, Cancelled}
    case Succeeded => {}
    case DeadLettered => {}
    case Cancelled => {}
  }

  predicate IsLegalStepTransition(from: Status, to: Status) {
    to in LegalTransitions(from)
  }

  function TransitionStepStatus(from: Status, to: Status): TransitionResult {
    if IsLegalStepTransition(from, to) then Moved(to) else IllegalTransition(from, to)
  }

  const TERMINAL_STEP_STATUSES: set<Status> := {Succeeded, DeadLettered, Cancelled}

  predicate IsTerminalStepStatus(status: Status) {
    status in TERMINAL_STEP_STATUSES
  }

  /** The separately maintained terminal set and the transition table agree. */
  lemma TerminalIffNoWayOut(s: Status)
    ensures IsTerminalStepStatus(s) <==> forall to :: TransitionStepStatus(s, to).IllegalTransition?
  {
    if !IsTerminalStepStatus(s) {
      var to := match s case Pending => Ready case Ready => Running case Running => Ready case _ => Ready;
      assert TransitionStepStatus(s, to).Moved?;
    }
  }

  /**
   * The table read the other way: from where each status can be entered. Nothing enters PENDING; only READY
   * is claimed; only RUNNING ends or waits to be retried; a step is cancelled only while no worker owns it.
   */
  lemma WhereEachStatusIsEntered(from: Status)
    ensures TransitionStepStatus(from, Pending) == IllegalTransition(from, Pending)
    ensures TransitionStepStatus(from, Ready) == Moved(Ready) <==> from in {Pending, Running, RetryWait}
    ensures TransitionStepStatus(from, Running) == Moved(Running) <==> from == Ready
    ensures forall to :: to in {Succeeded, RetryWait, DeadLettered} ==> (TransitionStepStatus(from, to) == Moved(to) <==> from == Running)
    ensures TransitionStepStatus(from, Cancelled) == Moved(Cancelled) <==> from in {Pending, Ready, RetryWait}
    ensures forall to :: TransitionStepStatus(from, to) in {Moved(to), IllegalTransition(from, to)}
  {
  }
}
