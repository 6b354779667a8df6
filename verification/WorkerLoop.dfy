/**
 * The worker: server/src/worker/worker-loop.ts. A sequential claim / execute / report loop and,
 * beside it while a step executes, one renewal task. The two interleave at their awaits; what each
 * await is answered with is up to the database, the executor, the timers and the shutdown signal.
 */
module WorkerLoop {
  import opened Base

  datatype Grant = Grant(id: StepId, version: int, attempt: int)

  datatype Execution = Output(output: Json) | Threw(error: string, invalidTask: bool)

  datatype RenewalAnswer = Renewed | Rejected | WriteThrew

  /** What resumes one of the awaits, or the abort of the shutdown signal. */
  datatype Happening =
    | Shutdown
    | ClaimAnswered(grant: Option<Grant>)
    | ClaimThrew
    | PollTimer
    | ExecutionEnded(execution: Execution)
    | RenewalTimer
    | RenewalAnswered(answer: RenewalAnswer)
    | ReportAnswered            // returned or threw: both are logged and the loop goes on

  /** What the loop has done and learned, in order. */
  datatype Note =
    | ClaimSent
    | ClaimGranted(grant: Grant)
    | NothingClaimed
    | RenewSent(id: StepId, version: int)
    | RenewEnded(answer: RenewalAnswer)
    | Executed(execution: Execution)
    | CompleteSent(id: StepId, version: int, output: Json)
    | FailSent(id: StepId, version: int, error: string, retryable: bool)
    | ReportEnded

  /** Where the main loop waits. */
  datatype Main =
    | Claiming
    | Polling
    | Executing(grant: Grant)
    | Draining(grant: Grant, execution: Execution)   // in `await renewal.stop()`
    | Reporting
    | Exited
    | Crashed                                         // claimNextStep threw: the loop's promise rejects

  datatype RenewalTask = NoTask | Waiting | InFlight | Ended

  datatype Worker = Worker(main: Main, renewal: RenewalTask, aborted: bool, trace: seq<Note>)

  /** The head of `while (!signal.aborted)`. */
  function Iterate(w: Worker): Worker {
    if w.aborted then w.(main := Exited) else w.(main := Claiming, trace := w.trace + [ClaimSent])
  }

  function Report(w: Worker, g: Grant, e: Execution): Worker {
    var note := match e
      case Output(output) => CompleteSent(g.id, g.version, output)
      case Threw(error, invalidTask) => FailSent(g.id, g.version, error, !invalidTask);
    w.(main := Reporting, renewal := Ended, trace := w.trace + [note])
  }

  function Next(w: Worker, h: Happening): Worker {
    match h
    case Shutdown =>
      var w' := w.(aborted := true);
      if w.main.Polling? then Iterate(w') else w'
    case ClaimAnswered(grant) =>
      if !w.main.Claiming? then w
      else if grant.None? then                        // the sleep of an aborted loop ends at once
        w.(main := if w.aborted then Exited else Polling, trace := w.trace + [NothingClaimed])
      else w.(main := Executing(grant.value), renewal := Waiting, trace := w.trace + [ClaimGranted(grant.value)])
    case ClaimThrew => if w.main.Claiming? then w.(main := Crashed) else w
    case PollTimer => if w.main.Polling? then Iterate(w) else w
    case ExecutionEnded(execution) =>
      if !w.main.Executing? then w else
        var w' := w.(trace := w.trace + [Executed(execution)]);
        if w.renewal.InFlight? then w'.(main := Draining(w.main.grant, execution))
        else Report(w', w.main.grant, execution)
    case RenewalTimer =>
      if w.main.Executing? && w.renewal.Waiting?
      then w.(renewal := InFlight, trace := w.trace + [RenewSent(w.main.grant.id, w.main.grant.version)])
      else w
    case RenewalAnswered(answer) =>
      if !w.renewal.InFlight? then w else
        var w' := w.(trace := w.trace + [RenewEnded(answer)]);
        if w.main.Draining? then Report(w', w.main.grant, w.main.execution)
        else w'.(renewal := if answer.Rejected? then Ended else Waiting)
    case ReportAnswered =>
      if w.main.Reporting? then Iterate(w.(renewal := NoTask, trace := w.trace + [ReportEnded])) else w
  }

  const START := Iterate(Worker(Claiming, NoTask, false, []))

  function Run(happenings: seq<Happening>): Worker {
    if happenings == [] then START
    else Next(Run(happenings[..|happenings| - 1]), happenings[|happenings| - 1])
  }

  // ---------------------------------------------------------------- reading a trace

  predicate IsReport(n: Note) {
    n.CompleteSent? || n.FailSent?
  }

  /** The notes from the latest grant on. */
  function SinceGrant(trace: seq<Note>): seq<Note> {
    if trace == [] then []
    else if trace[|trace| - 1].ClaimGranted? then [trace[|trace| - 1]]
    else if SinceGrant(trace[..|trace| - 1]) == [] then []
    else SinceGrant(trace[..|trace| - 1]) + [trace[|trace| - 1]]
  }

  function Reports(trace: seq<Note>): nat {
    if trace == [] then 0
    else Reports(trace[..|trace| - 1]) + if IsReport(trace[|trace| - 1]) then 1 else 0
  }

  /** Renewals sent and not yet answered. */
  function InFlightRenewals(trace: seq<Note>): int {
    if trace == [] then 0 else
      var last := trace[|trace| - 1];
      InFlightRenewals(trace[..|trace| - 1]) + if last.RenewSent? then 1 else if last.RenewEnded? then -1 else 0
  }

  predicate Refused(trace: seq<Note>) {
    exists i :: 0 <= i < |trace| && trace[i] == RenewEnded(Rejected)
  }

  predicate HasExecuted(trace: seq<Note>) {
    exists i :: 0 <= i < |trace| && trace[i].Executed?
  }

  /** The grant being worked on after this trace: claimed, and not yet reported. */
  function Active(trace: seq<Note>): Option<Grant> {
    var s := SinceGrant(trace);
    if s != [] && s[0].ClaimGranted? && Reports(s) == 0 then Some(s[0].grant) else None
  }

  /** What a note may follow. */
  predicate Allowed(before: seq<Note>, n: Note) {
    var s := SinceGrant(before);
    match n
    case ClaimSent => Active(before) == None && InFlightRenewals(before) == 0
    case ClaimGranted(_) => Active(before) == None && before != [] && before[|before| - 1].ClaimSent?
    case NothingClaimed => before != [] && before[|before| - 1].ClaimSent?
    case RenewSent(id, version) =>
      && Active(before).Some? && Active(before).value.id == id && Active(before).value.version == version
      && InFlightRenewals(before) == 0 && !Refused(s) && !HasExecuted(s)
    case RenewEnded(_) => InFlightRenewals(before) == 1
    case Executed(_) => Active(before).Some? && !HasExecuted(s)
    case CompleteSent(id, version, output) =>
      && Active(before).Some? && Active(before).value.id == id && Active(before).value.version == version
      && InFlightRenewals(before) == 0 && Executed(Output(output)) in s
    case FailSent(id, version, error, retryable) =>
      && Active(before).Some? && Active(before).value.id == id && Active(before).value.version == version
      && InFlightRenewals(before) == 0 && Executed(Threw(error, !retryable)) in s
    case ReportEnded => before != [] && IsReport(before[|before| - 1])
  }

  predicate AllowedAt(trace: seq<Note>, i: nat)
    requires i < |trace|
  {
    Allowed(trace[..i], trace[i])
  }

  predicate Disciplined(trace: seq<Note>) {
    forall i {:trigger AllowedAt(trace, i)} :: 0 <= i < |trace| ==> AllowedAt(trace, i)
  }

  // ---------------------------------------------------------------- every run is disciplined

  /** How the state of the two tasks reads off the trace. */
  predicate Agrees(w: Worker) {
    var s := SinceGrant(w.trace);
    && InFlightRenewals(w.trace) == (if w.renewal.InFlight? then 1 else 0)
    && (w.renewal.InFlight? ==> w.main.Executing? || w.main.Draining?)
    && match w.main
       case Claiming => Active(w.trace) == None && w.trace != [] && w.trace[|w.trace| - 1] == ClaimSent
       case Polling => Active(w.trace) == None && !w.aborted
       case Executing(g) => Active(w.trace) == Some(g) && !HasExecuted(s) && w.renewal != NoTask && (w.renewal == Ended <==> Refused(s))
       case Draining(g, e) => Active(w.trace) == Some(g) && Executed(e) in s && w.renewal.InFlight?
       case Reporting => Active(w.trace) == None && w.trace != [] && IsReport(w.trace[|w.trace| - 1])
       case Exited => Active(w.trace) == None
       case Crashed => Active(w.trace) == None
  }

  /** What appending one note does to each reading of the trace. */
  lemma Append(t: seq<Note>, n: Note)
    ensures var t' := t + [n];
      && SinceGrant(t') == (if n.ClaimGranted? then [n] else if SinceGrant(t) == [] then [] else SinceGrant(t) + [n])
      && InFlightRenewals(t') == InFlightRenewals(t) + (if n.RenewSent? then 1 else if n.RenewEnded? then -1 else 0)
      && Active(t') == (if n.ClaimGranted? then Some(n.grant) else if IsReport(n) then None else Active(t))
      && (n.ClaimGranted? ==> !Refused(SinceGrant(t')) && !HasExecuted(SinceGrant(t')))
      && (!n.RenewEnded? && !Refused(SinceGrant(t)) ==> !Refused(SinceGrant(t')))
      && (!n.Executed? && !HasExecuted(SinceGrant(t)) ==> !HasExecuted(SinceGrant(t')))
      && (n.RenewEnded? && n.answer != Rejected && !Refused(SinceGrant(t)) ==> !Refused(SinceGrant(t')))
      && (n.Executed? && SinceGrant(t) != [] ==> n in SinceGrant(t'))
      && (!n.ClaimGranted? ==> forall m :: m in SinceGrant(t) ==> m in SinceGrant(t'))
  {
    var t' := t + [n];
    assert t'[..|t'| - 1] == t;
    var s, s' := SinceGrant(t), SinceGrant(t');
    if n.ClaimGranted? {
      assert s' == [n] && [n][..0] == [];
      assert Reports([n]) == Reports([n][..0]) == 0;
    } else if s != [] {
      assert s'[..|s'| - 1] == s && s'[|s'| - 1] == n && s'[0] == s[0];
    }
  }

  lemma AppendDisciplined(t: seq<Note>, n: Note)
    requires Disciplined(t) && Allowed(t, n)
    ensures Disciplined(t + [n])
  {
    var t' := t + [n];
    forall i | 0 <= i < |t'| ensures AllowedAt(t', i) {
      if i < |t| {
        assert AllowedAt(t, i) && t'[..i] == t[..i] && t'[i] == t[i];
      } else {
        assert t'[..i] == t;
      }
    }
  }

  ghost predicate Good(w: Worker) {
    Agrees(w) && Disciplined(w.trace)
  }

  lemma IterateKeeps(w: Worker)
    requires Disciplined(w.trace) && Active(w.trace) == None && InFlightRenewals(w.trace) == 0 && !w.renewal.InFlight?
    ensures Good(Iterate(w))
  {
    Append(w.trace, ClaimSent);
    AppendDisciplined(w.trace, ClaimSent);
  }

  lemma ReportKeeps(w: Worker, g: Grant, e: Execution)
    requires Disciplined(w.trace) && Active(w.trace) == Some(g) && InFlightRenewals(w.trace) == 0
    requires Executed(e) in SinceGrant(w.trace)
    ensures Good(Report(w, g, e))
  {
    var note := match e
      case Output(output) => CompleteSent(g.id, g.version, output)
      case Threw(error, invalidTask) => FailSent(g.id, g.version, error, !invalidTask);
    Append(w.trace, note);
    AppendDisciplined(w.trace, note);
  }

  lemma NoteKeeps(w: Worker, n: Note, w': Worker)
    requires Good(w) && Allowed(w.trace, n) && w'.trace == w.trace + [n]
    requires Agrees(w')
    ensures Good(w')
  {
    AppendDisciplined(w.trace, n);
  }

  lemma ClaimAnsweredKeeps(w: Worker, grant: Option<Grant>)
    requires Good(w) && w.main.Claiming?
    ensures Good(Next(w, ClaimAnswered(grant)))
  {
    var n := if grant.None? then NothingClaimed else ClaimGranted(grant.value);
    Append(w.trace, n);
    NoteKeeps(w, n, Next(w, ClaimAnswered(grant)));
  }

  lemma RenewalTimerKeeps(w: Worker)
    requires Good(w) && w.main.Executing? && w.renewal.Waiting?
    ensures Good(Next(w, RenewalTimer))
  {
    var n := RenewSent(w.main.grant.id, w.main.grant.version);
    Append(w.trace, n);
    NoteKeeps(w, n, Next(w, RenewalTimer));
  }

  lemma ExecutionEndedKeeps(w: Worker, execution: Execution)
    requires Good(w) && w.main.Executing?
    ensures Good(Next(w, ExecutionEnded(execution)))
  {
    var n := Executed(execution);
    Append(w.trace, n);
    AppendDisciplined(w.trace, n);
    if !w.renewal.InFlight? {
      ReportKeeps(w.(trace := w.trace + [n]), w.main.grant, execution);
    }
  }

  lemma RenewalAnsweredKeeps(w: Worker, answer: RenewalAnswer)
    requires Good(w) && w.renewal.InFlight? && w.main.Executing?
    ensures Good(Next(w, RenewalAnswered(answer)))
  {
    var n := RenewEnded(answer);
    Append(w.trace, n);
    NoteKeeps(w, n, Next(w, RenewalAnswered(answer)));
  }

  lemma DrainedReports(w: Worker, answer: RenewalAnswer)
    requires Agrees(w) && w.main.Draining?
    ensures Next(w, RenewalAnswered(answer))
            == Report(w.(trace := w.trace + [RenewEnded(answer)]), w.main.grant, w.main.execution)
  {
  }

  lemma DrainedKeeps(w: Worker, answer: RenewalAnswer)
    requires Good(w) && w.main.Draining?
    ensures Good(Next(w, RenewalAnswered(answer)))
  {
    var n := RenewEnded(answer);
    DrainedReports(w, answer);
    Append(w.trace, n);
    AppendDisciplined(w.trace, n);
    ReportKeeps(w.(trace := w.trace + [n]), w.main.grant, w.main.execution);
  }

  lemma ReportAnsweredKeeps(w: Worker)
    requires Good(w) && w.main.Reporting?
    ensures Good(Next(w, ReportAnswered))
  {
    Append(w.trace, ReportEnded);
    AppendDisciplined(w.trace, ReportEnded);
    IterateKeeps(w.(renewal := NoTask, trace := w.trace + [ReportEnded]));
  }

  lemma SignalKeeps(w: Worker, h: Happening)
    requires Good(w) && (h.Shutdown? || h.PollTimer? || h.ClaimThrew?)
    ensures Good(Next(w, h))
  {
    if w.main.Polling? && !h.ClaimThrew? {
      IterateKeeps(w.(aborted := w.aborted || h.Shutdown?));
    }
  }

  /** The happening resumes something. */
  predicate Awaited(w: Worker, h: Happening) {
    match h
    case Shutdown => true
    case ClaimAnswered(_) => w.main.Claiming?
    case ClaimThrew => w.main.Claiming?
    case PollTimer => w.main.Polling?
    case ExecutionEnded(_) => w.main.Executing?
    case RenewalTimer => w.main.Executing? && w.renewal.Waiting?
    case RenewalAnswered(_) => w.renewal.InFlight?
    case ReportAnswered => w.main.Reporting?
  }

  lemma UnawaitedIsIgnored(w: Worker, h: Happening)
    requires !Awaited(w, h)
    ensures Next(w, h) == w
  {
  }

  lemma InFlightWhere(w: Worker)
    requires Agrees(w) && w.renewal.InFlight?
    ensures w.main.Executing? || w.main.Draining?
  {
  }

  lemma NextKeeps(w: Worker, h: Happening)
    requires Good(w)
    ensures Good(Next(w, h))
  {
    if !Awaited(w, h) {
      UnawaitedIsIgnored(w, h);
    } else {
      match h
      case ClaimAnswered(grant) => ClaimAnsweredKeeps(w, grant);
      case RenewalTimer => RenewalTimerKeeps(w);
      case ExecutionEnded(execution) => ExecutionEndedKeeps(w, execution);
      case RenewalAnswered(answer) =>
        InFlightWhere(w);
        if w.main.Executing? { RenewalAnsweredKeeps(w, answer); } else { DrainedKeeps(w, answer); }
      case ReportAnswered => ReportAnsweredKeeps(w);
      case _ => SignalKeeps(w, h);
    }
  }

  /** No renewal write is in flight at a report, none follows a rejection, one claim is active at a time. */
  lemma {:induction false} EveryRunIsDisciplined(happenings: seq<Happening>)
    ensures Good(Run(happenings))
  {
    if happenings == [] {
      IterateKeeps(Worker(Claiming, NoTask, false, []));
    } else {
      EveryRunIsDisciplined(happenings[..|happenings| - 1]);
      NextKeeps(Run(happenings[..|happenings| - 1]), happenings[|happenings| - 1]);
    }
  }

  // ---------------------------------------------------------------- one report per claim

  /** Reports among trace[i..j]. */
  function ReportsBetween(trace: seq<Note>, i: nat, j: nat): nat
    requires i <= j <= |trace|
  {
    if i == j then 0 else ReportsBetween(trace, i, j - 1) + if IsReport(trace[j - 1]) then 1 else 0
  }

  /** Between grants, the notes since the grant at `i` are those from `i` on. */
  lemma {:induction false} SinceGrantIs(trace: seq<Note>, i: nat, j: nat)
    requires i < j <= |trace| && trace[i].ClaimGranted?
    requires forall k :: i < k < j ==> !trace[k].ClaimGranted?
    ensures SinceGrant(trace[..j]) == trace[i..j]
    ensures Reports(trace[i..j]) == ReportsBetween(trace, i, j)
    decreases j
  {
    ReportsOfSlice(trace, i, j);
    assert trace[..j][..j - 1] == trace[..j - 1];
    if j - 1 > i {
      SinceGrantIs(trace, i, j - 1);
      assert trace[i..j] == trace[i..j - 1] + [trace[j - 1]];
    }
  }

  lemma {:induction false} ReportsOfSlice(trace: seq<Note>, i: nat, j: nat)
    requires i <= j <= |trace|
    ensures Reports(trace[i..j]) == ReportsBetween(trace, i, j)
    decreases j
  {
    if i < j {
      ReportsOfSlice(trace, i, j - 1);
      assert trace[i..j][..j - 1 - i] == trace[i..j - 1];
    }
  }

  /** A disciplined worker never reports a grant twice. */
  lemma {:induction false} AtMostOneReport(trace: seq<Note>, i: nat, j: nat)
    requires Disciplined(trace) && i < j <= |trace| && trace[i].ClaimGranted?
    requires forall k :: i < k < j ==> !trace[k].ClaimGranted?
    ensures ReportsBetween(trace, i, j) <= 1
    decreases j
  {
    SinceGrantIs(trace, i, j);
    if j - 1 > i {
      AtMostOneReport(trace, i, j - 1);
      SinceGrantIs(trace, i, j - 1);
      assert AllowedAt(trace, j - 1);
    }
  }

  lemma {:induction false} FindReport(trace: seq<Note>, i: nat, j: nat) returns (r: nat)
    requires i <= j <= |trace| && ReportsBetween(trace, i, j) > 0
    ensures i <= r < j && IsReport(trace[r])
    decreases j
  {
    if IsReport(trace[j - 1]) { r := j - 1; } else { r := FindReport(trace, i, j - 1); }
  }

  /**
   * Between one grant and the next claim the worker reports exactly once: complete if the execution
   * returned, fail if it threw, for that grant and no other, with no renewal of it unanswered.
   */
  lemma OneReportPerClaim(happenings: seq<Happening>, i: nat, j: nat) returns (r: nat)
    requires var t := Run(happenings).trace;
      && i < j < |t| && t[i].ClaimGranted? && t[j].ClaimSent?
      && forall k :: i < k < j ==> !t[k].ClaimGranted?
    ensures var t := Run(happenings).trace;
      && i < r < j && ReportsBetween(t, i, j) == 1
      && (match t[r]
          case CompleteSent(id, version, output) =>
            id == t[i].grant.id && version == t[i].grant.version && Executed(Output(output)) in t[i..r]
          case FailSent(id, version, error, retryable) =>
            id == t[i].grant.id && version == t[i].grant.version && Executed(Threw(error, !retryable)) in t[i..r]
          case _ => false)
      && InFlightRenewals(t[..r]) == 0
  {
    EveryRunIsDisciplined(happenings);
    var t := Run(happenings).trace;
    SinceGrantIs(t, i, j);
    AtMostOneReport(t, i, j);
    assert AllowedAt(t, j);
    r := FindReport(t, i, j);
    SinceGrantIs(t, i, r);
    assert AllowedAt(t, r);
  }

  /** After a rejected renewal nothing is renewed until a later claim is granted. */
  lemma NoRenewalAfterRejection(happenings: seq<Happening>, i: nat, j: nat)
    requires var t := Run(happenings).trace;
      i < j < |t| && t[i] == RenewEnded(Rejected) && t[j].RenewSent?
    ensures exists k :: i < k < j && Run(happenings).trace[k].ClaimGranted?
  {
    EveryRunIsDisciplined(happenings);
    var t := Run(happenings).trace;
    assert AllowedAt(t, j);
    if forall k :: i < k < j ==> !t[k].ClaimGranted? {
      SinceGrantKeeps(t, i, j);
      assert false;
    }
  }

  lemma {:induction false} SinceGrantKeeps(trace: seq<Note>, i: nat, j: nat)
    requires i < j <= |trace| && !trace[i].ClaimGranted? && (forall k :: i < k < j ==> !trace[k].ClaimGranted?)
    requires SinceGrant(trace[..j]) != []
    ensures trace[i] in SinceGrant(trace[..j])
    decreases j
  {
    var t := trace[..j];
    assert t[..|t| - 1] == trace[..j - 1];
    if j - 1 > i {
      SinceGrantKeeps(trace, i, j - 1);
    }
  }

  // ---------------------------------------------------------------- shutdown

  /** The signal stops new claims only. */
  lemma {:induction false} NoClaimAfterShutdown(happenings: seq<Happening>, more: seq<Happening>)
    requires Run(happenings).aborted
    ensures var t0, t := Run(happenings).trace, Run(happenings + more).trace;
      t0 <= t && forall k :: |t0| <= k < |t| ==> t[k] != ClaimSent
  {
    if more == [] {
      assert happenings + more == happenings;
    } else {
      var n := |more| - 1;
      var all := happenings + more;
      assert all[..|all| - 1] == happenings + more[..n];
      NoClaimAfterShutdown(happenings, more[..n]);
      ShutdownLasts(happenings, more[..n]);
    }
  }

  lemma {:induction false} ShutdownLasts(happenings: seq<Happening>, more: seq<Happening>)
    requires Run(happenings).aborted
    ensures Run(happenings + more).aborted
  {
    var all := happenings + more;
    if more != [] {
      assert all[..|all| - 1] == happenings + more[..|more| - 1];
      ShutdownLasts(happenings, more[..|more| - 1]);
    } else {
      assert all == happenings;
    }
  }

  /**
   * A claimed step is always reported: when its execution ends, and the renewal in flight if any is
   * answered, the report is sent, whether or not shutdown was signalled; and the loop is not left before.
   */
  lemma ShutdownDoesNotAbandon(happenings: seq<Happening>, execution: Execution, answer: RenewalAnswer)
    requires Run(happenings).main.Executing?
    ensures var w := Next(Next(Run(happenings), ExecutionEnded(execution)), RenewalAnswered(answer));
      w.main == Reporting && w.trace != [] && IsReport(w.trace[|w.trace| - 1])
    ensures forall more :: Run(more).main.Exited? ==> Active(Run(more).trace) == None
  {
    EveryRunIsDisciplined(happenings);
    forall more | Run(more).main.Exited? ensures Active(Run(more).trace) == None {
      EveryRunIsDisciplined(more);
    }
  }

  // ---------------------------------------------------------------- nothing is given up without cause

  /**
   * While a step executes, every renewal timer sends a renewal of it, unless one is unanswered or one of
   * this grant was rejected; a renewal that succeeded or whose write threw does not end the renewing.
   */
  lemma EveryTimerRenewsIff(happenings: seq<Happening>)
    requires Run(happenings).main.Executing?
    ensures var w := Run(happenings); var g := w.main.grant;
      Next(w, RenewalTimer).trace
        == w.trace + (if InFlightRenewals(w.trace) == 0 && !Refused(SinceGrant(w.trace)) then [RenewSent(g.id, g.version)] else [])
    ensures Next(Run(happenings), RenewalTimer).main == Run(happenings).main
  {
    EveryRunIsDisciplined(happenings);
    TimerRenewsIff(Run(happenings));
  }

  lemma TimerRenewsIff(w: Worker)
    requires Agrees(w) && w.main.Executing?
    ensures Next(w, RenewalTimer).main == w.main
    ensures Next(w, RenewalTimer).trace
            == w.trace + (if InFlightRenewals(w.trace) == 0 && !Refused(SinceGrant(w.trace))
                          then [RenewSent(w.main.grant.id, w.main.grant.version)] else [])
  {
    assert w.trace + [] == w.trace;
  }

  /** A renewal in flight during execution is answered once, and execution goes on whatever the answer. */
  lemma AnswersAreNoted(happenings: seq<Happening>, answer: RenewalAnswer)
    requires Run(happenings).main.Executing?
    ensures var w := Run(happenings); var w' := Next(w, RenewalAnswered(answer));
      && w'.main == w.main
      && w'.trace == w.trace + (if InFlightRenewals(w.trace) == 1 then [RenewEnded(answer)] else [])
  {
    EveryRunIsDisciplined(happenings);
    assert Run(happenings).trace + [] == Run(happenings).trace;
  }

  function ReportOf(g: Grant, e: Execution): Note {
    match e
    case Output(output) => CompleteSent(g.id, g.version, output)
    case Threw(error, invalidTask) => FailSent(g.id, g.version, error, !invalidTask)
  }

  /** The end of the execution is reported at once, or as soon as the renewal in flight is answered. */
  lemma ExecutionIsReported(happenings: seq<Happening>, e: Execution, answer: RenewalAnswer)
    requires Run(happenings).main.Executing?
    ensures var w := Run(happenings); var g := w.main.grant; var ended := Next(w, ExecutionEnded(e));
      if InFlightRenewals(w.trace) == 0 then
        ended.trace == w.trace + [Executed(e), ReportOf(g, e)] && ended.main == Reporting
      else
        && ended.trace == w.trace + [Executed(e)] && !ended.main.Exited?
        && Next(ended, RenewalAnswered(answer)).trace == w.trace + [Executed(e), RenewEnded(answer), ReportOf(g, e)]
        && Next(ended, RenewalAnswered(answer)).main == Reporting
  {
    EveryRunIsDisciplined(happenings);
  }

  /** The shutdown signal has aborted exactly if it was given. */
  lemma {:induction false} AbortedIff(happenings: seq<Happening>)
    ensures Run(happenings).aborted <==> Shutdown in happenings
  {
    if happenings != [] {
      var n := |happenings| - 1;
      AbortedIff(happenings[..n]);
      assert happenings == happenings[..n] + [happenings[n]];
    }
  }

  /**
   * The loop claims again after every report and every idle wait, and takes up what it is granted, until
   * shutdown; it is left only by shutdown, or by a claim that threw.
   */
  lemma LoopGoesOn(happenings: seq<Happening>, grant: Option<Grant>)
    ensures var w := Run(happenings); var again := if Shutdown in happenings then [] else [ClaimSent];
      && (w.main.Reporting? ==> Next(w, ReportAnswered).trace == w.trace + [ReportEnded] + again)
      && (w.main.Polling? ==> Next(w, PollTimer).trace == w.trace + again)
      && (w.main.Polling? ==> Shutdown !in happenings && Next(w, Shutdown) == w.(main := Exited, aborted := true))
      && (w.main.Claiming? ==>
            if grant.Some? then
              Next(w, ClaimAnswered(grant)).trace == w.trace + [ClaimGranted(grant.value)]
              && Next(w, ClaimAnswered(grant)).main == Executing(grant.value)
            else Next(w, ClaimAnswered(grant)).trace == w.trace + [NothingClaimed]
                 && Next(w, ClaimAnswered(grant)).main == (if Shutdown in happenings then Exited else Polling))
  {
    AbortedIff(happenings);
  }

  lemma {:induction false} LeftOnlyBy(happenings: seq<Happening>)
    ensures Run(happenings).main.Exited? ==> Shutdown in happenings
    ensures Run(happenings).main.Crashed? ==> ClaimThrew in happenings
  {
    if happenings != [] {
      var n := |happenings| - 1;
      LeftOnlyBy(happenings[..n]);
      AbortedIff(happenings[..n]);
      assert happenings == happenings[..n] + [happenings[n]];
    }
  }
}
