/** The loop as the worker runs it: one thread of awaits, proved to perform what WorkerLoop.dfy says. */
module WorkerProcess {
  import opened Base
  import opened WorkerLoop

  /** The happening resumes the main loop, rather than the renewal task or nobody. */
  predicate WakesMain(main: Main, h: Happening) {
    match main
    case Claiming => h.ClaimAnswered? || h.ClaimThrew?
    case Polling => h.PollTimer? || h.Shutdown?
    case Executing(_) => h.ExecutionEnded?
    case Draining(_, _) => h.RenewalAnswered?
    case Reporting => h.ReportAnswered?
    case Exited => false
    case Crashed => false
  }

  class Process {
    /** Everything the awaits will be answered with; after the last of it the process is never resumed. */
    const happenings: seq<Happening>
    var next: nat
    var aborted: bool
    var renewal: RenewalTask
    var trace: seq<Note>

    /** The state that the specification reaches after each prefix of the happenings. */
    ghost const states: seq<Worker>

    constructor (happenings: seq<Happening>)
      ensures this.happenings == happenings && next == 0 && !aborted && renewal == NoTask && trace == []
      ensures Specified()
    {
      this.happenings := happenings;
      next, aborted, renewal, trace := 0, false, NoTask, [];
      states := seq(|happenings| + 1, i requires 0 <= i <= |happenings| => Run(happenings[..i]));
      new;
      forall i | 0 <= i < |happenings| ensures Follows(i) {
        assert happenings[..i + 1][..i] == happenings[..i];
      }
    }

    ghost predicate Follows(i: nat)
      requires i < |happenings| && |states| == |happenings| + 1
    {
      states[i + 1] == Next(states[i], happenings[i])
    }

    ghost predicate Specified() {
      && |states| == |happenings| + 1 && states[0] == START
      && forall i {:trigger Follows(i)} :: 0 <= i < |happenings| ==> Follows(i)
    }

    lemma {:induction false} StatesAreRuns(i: nat)
      requires Specified() && i <= |happenings|
      ensures states[i] == Run(happenings[..i])
    {
      if i > 0 {
        StatesAreRuns(i - 1);
        assert Follows(i - 1) && happenings[..i][..i - 1] == happenings[..i - 1];
      }
    }

    ghost function At(main: Main): Worker reads this {
      Worker(main, renewal, aborted, trace)
    }

    /** The renewal task is inside a write only while a step is being executed or drained. */
    predicate RenewalPlaced(main: Main) reads this {
      renewal.InFlight? ==> main.Executing? || main.Draining?
    }

    ghost predicate InStep(main: Main) reads this {
      Specified() && next <= |happenings| && At(main) == states[next] && RenewalPlaced(main)
    }

    /** The renewal task, and the shutdown signal, while the main loop waits. */
    method Background(main: Main, h: Happening)
      requires !WakesMain(main, h)
      requires RenewalPlaced(main)
      modifies this`aborted, this`renewal, this`trace
      ensures At(main) == Next(old(At(main)), h) && RenewalPlaced(main)
    {
      match h
      case Shutdown => aborted := true;
      case RenewalTimer =>
        if main.Executing? && renewal.Waiting? {
          trace := trace + [RenewSent(main.grant.id, main.grant.version)];
          renewal := InFlight;
        }
      case RenewalAnswered(answer) =>
        if renewal.InFlight? {
          trace := trace + [RenewEnded(answer)];
          renewal := if answer.Rejected? then Ended else Waiting;
        }
      case _ =>
    }

    /** Waits at `main` until something resumes it. */
    method Await(main: Main) returns (h: Option<Happening>)
      requires InStep(main)
      modifies this`next, this`aborted, this`renewal, this`trace
      ensures old(next) <= next <= |happenings| && RenewalPlaced(main)
      ensures h.None? ==> next == |happenings| && At(main) == states[next]
      ensures h.Some? ==> old(next) < next && WakesMain(main, h.value) && states[next] == Next(At(main), h.value)
      ensures main.Draining? && old(renewal).InFlight? ==> renewal.InFlight?
    {
      while next < |happenings|
        invariant old(next) <= next <= |happenings|
        invariant main.Draining? && old(renewal).InFlight? ==> renewal.InFlight?
        invariant InStep(main)
      {
        var arrived := happenings[next];
        assert Follows(next);
        next := next + 1;
        if WakesMain(main, arrived) {
          return Some(arrived);
        }
        Background(main, arrived);
      }
      h := None;
    }

    /** Returns where the loop stands: left, or waiting for something that never came. */
    method RunWorkerLoop() returns (main: Main)
      requires Specified() && next == 0 && !aborted && renewal == NoTask && trace == []
      modifies this`next, this`aborted, this`renewal, this`trace
      ensures next <= |happenings| && At(main) == Run(happenings[..next])
      ensures next == |happenings| || main.Exited? || main.Crashed?
      ensures Disciplined(trace)
    {
      main := Loop();
      StatesAreRuns(next);
      EveryRunIsDisciplined(happenings[..next]);
    }

    method Loop() returns (main: Main)
      requires Specified() && next == 0 && !aborted && renewal == NoTask && trace == []
      modifies this`next, this`aborted, this`renewal, this`trace
      ensures next <= |happenings| && At(main) == states[next]
      ensures next == |happenings| || main.Exited? || main.Crashed?
    {
      while !aborted
        invariant next <= |happenings| && !renewal.InFlight?
        invariant Iterate(At(Claiming)) == states[next]
        decreases |happenings| - next
      {
        trace := trace + [ClaimSent];
        var h := Await(Claiming);
        if h.None? { return Claiming; }
        if h.value.ClaimThrew? { return Crashed; }

        if h.value.grant.None? {
          trace := trace + [NothingClaimed];
          if aborted { return Exited; }
          h := Await(Polling);
          if h.None? { return Polling; }
          aborted := aborted || h.value.Shutdown?;
          continue;
        }

        var grant := h.value.grant.value;
        trace := trace + [ClaimGranted(grant)];
        renewal := Waiting;
        var stopped := ExecuteAndReport(grant);
        if stopped.Some? { return stopped.value; }
      }
      main := Exited;
    }

    /** One claimed step, from the start of its renewal to the answer to its report. */
    method ExecuteAndReport(grant: Grant) returns (stopped: Option<Main>)
      requires InStep(Executing(grant))
      modifies this`next, this`aborted, this`renewal, this`trace
      ensures old(next) <= next <= |happenings|
      ensures stopped.Some? ==> next == |happenings| && At(stopped.value) == states[next]
      ensures stopped.None? ==>
                old(next) < next && renewal == NoTask && Iterate(At(Claiming)) == states[next]
    {
      var h := Await(Executing(grant));
      if h.None? { return Some(Executing(grant)); }
      var execution := h.value.execution;
      trace := trace + [Executed(execution)];

      if renewal.InFlight? {
        h := Await(Draining(grant, execution));
        if h.None? { return Some(Draining(grant, execution)); }
        trace := trace + [RenewEnded(h.value.answer)];
      }
      renewal := Ended;
      match execution {
        case Threw(error, invalidTask) =>
          trace := trace + [FailSent(grant.id, grant.version, error, !invalidTask)];
        case Output(output) =>
          trace := trace + [CompleteSent(grant.id, grant.version, output)];
      }

      h := Await(Reporting);
      if h.None? { return Some(Reporting); }
      trace := trace + [ReportEnded];
      renewal := NoTask;
      stopped := None;
    }
  }
}
