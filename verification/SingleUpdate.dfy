/**
 * The designs that were rejected. An owner write as one UPDATE judges its WHERE clause before it finds
 * the row locked and, after waiting, judges again only if the row was modified meanwhile. An owner write
 * that locks first but asks now() judges by the instant of its BEGIN, before the wait.
 */
module SingleUpdate {
  import opened Base
  import opened Lifecycle
  import opened StepSpec
  import opened Protocol
  import opened RunTheorems

  /** Which clock the WHERE clause consults. */
  datatype PredicateClock = ClockTimestamp | Now

  predicate Judge(op: Op, r: Row, clock: PredicateClock, began: Instant, at: Instant) {
    Accepts(op, r, began, if clock == Now then began else at)
  }

  /** The chosen order: lock, then judge in the state `s` in which the lock is held. */
  predicate LockFirstTakesEffect(s: Db, id: StepId, op: Op, clock: PredicateClock, began: Instant)
    requires id in s.rows
  {
    Judge(op, s.rows[id], clock, began, s.clock)
  }

  predicate Expired(s: Db, id: StepId)
    requires id in s.rows
  {
    s.rows[id].deadline.Some? && s.rows[id].deadline.value <= s.clock
  }

  /**
   * When locking first acts on an expired lease: with now() for the clock, exactly when the credentials
   * are the row's and the deadline fell between BEGIN and the evaluation; with clock_timestamp(), never.
   */
  lemma LockFirstCrossesDeadlineIff(s: Db, id: StepId, op: Op, clock: PredicateClock, began: Instant)
    requires id in s.rows && IsOwnerOp(op)
    ensures LockFirstTakesEffect(s, id, op, clock, began) && Expired(s, id) <==>
            var r := s.rows[id];
            && clock == Now
            && r.status == Running && r.owner == Some(op.worker) && r.leaseVersion == op.version
            && r.deadline.Some? && began < r.deadline.value <= s.clock
  {
  }

  // ---------------------------------------------------------------- the lone UPDATE as a machine

  /** The one-statement write: its row, what it asks for and the BEGIN of its transaction. */
  datatype Lone = Lone(id: StepId, op: Op, began: Instant)

  /** A judgement made before the row was found locked comes with the new version it computed. */
  datatype Progress =
    | Idle
    | Waiting(written: Row, seen: nat)   // judged true, when the row had `seen` committed writes
    | Wrote
    | ZeroRows

  datatype World = World(db: Db, lone: Progress)

  datatype Move = Others(a: Action) | Evaluate | Resume

  ghost function Step(l: Lone, w: World, m: Move): World {
    match m
    case Others(a) => w.(db := Protocol.Step(w.db, a))
    case Evaluate =>
      if !w.lone.Idle? || l.id !in w.db.rows then w
      else if Accepts(l.op, w.db.rows[l.id], l.began, w.db.clock)
      then w.(lone := Waiting(Effect(l.op, w.db.rows[l.id], l.began, w.db.clock), |Trace(w.db.history, l.id)|))
      else w.(lone := ZeroRows)
    case Resume =>
      if !w.lone.Waiting? || l.id !in w.db.rows || l.id in w.db.locks then w   // still waits for the row
      else if |Trace(w.db.history, l.id)| == w.lone.seen then Put(w, l.id, w.lone.written)
      else if Accepts(l.op, w.db.rows[l.id], l.began, w.db.clock)
      then Put(w, l.id, Effect(l.op, w.db.rows[l.id], l.began, w.db.clock))
      else w.(lone := ZeroRows)
  }

  function Put(w: World, id: StepId, r: Row): World {
    World(w.db.(rows := w.db.rows[id := r]), Wrote)
  }

  ghost function Moves(l: Lone, w: World, moves: seq<Move>): World {
    if moves == [] then w else Step(l, Moves(l, w, moves[..|moves| - 1]), moves[|moves| - 1])
  }

  function AsOthers(actions: seq<Action>): seq<Move> {
    seq(|actions|, i requires 0 <= i < |actions| => Others(actions[i]))
  }

  lemma {:induction false} MovesConcat(l: Lone, w: World, a: seq<Move>, b: seq<Move>)
    ensures Moves(l, w, a + b) == Moves(l, Moves(l, w, a), b)
  {
    if b == [] {
      assert a + b == a;
    } else {
      MovesConcat(l, w, a, b[..|b| - 1]);
      assert (a + b)[..|a + b| - 1] == a + b[..|b| - 1];
    }
  }

  lemma OneMove(l: Lone, w: World, m: Move)
    ensures Moves(l, w, [m]) == Step(l, w, m)
  {
    assert [m][..0] == [];
  }

  /** While only others move, the protocol runs as it does without the lone UPDATE. */
  lemma {:induction false} OthersRun(l: Lone, w: World, actions: seq<Action>)
    ensures Moves(l, w, AsOthers(actions)) == World(Run(w.db, actions), w.lone)
  {
    if actions != [] {
      var n := |actions| - 1;
      OthersRun(l, w, actions[..n]);
      assert AsOthers(actions)[..n] == AsOthers(actions[..n]);
    }
  }

  lemma UnmodifiedMeansSameRow(rows: map<StepId, Row>, clock: Instant, actions: seq<Action>, more: seq<Action>, id: StepId)
    requires id in rows
    ensures var s := After(rows, clock, actions); var s' := Run(s, more);
      && id in s.rows && id in s'.rows
      && (|Trace(s.history, id)| == |Trace(s'.history, id)| ==> s'.rows[id] == s.rows[id])
  {
    ChainContinues(rows, clock, actions, more, id);
  }

  /**
   * Evaluated in any reachable state and resumed after anything others did, the lone UPDATE writes over
   * an expired lease exactly when it was judged live before the wait, nobody modified the row during it,
   * the row is free again, and the deadline has passed.
   */
  lemma SingleUpdateCrossesDeadlineIff(rows: map<StepId, Row>, clock: Instant, actions: seq<Action>, more: seq<Action>, l: Lone)
    requires l.id in rows && IsOwnerOp(l.op)
    ensures var s := After(rows, clock, actions); var s' := Run(s, more);
      && l.id in s.rows && l.id in s'.rows
      && (Moves(l, World(s, Idle), [Evaluate] + AsOthers(more) + [Resume]).lone.Wrote? && Expired(s', l.id) <==>
            && LiveLease(s.rows[l.id], l.op.worker, l.op.version, s.clock)
            && |Trace(s.history, l.id)| == |Trace(s'.history, l.id)|
            && l.id !in s'.locks
            && s.rows[l.id].deadline.value <= s'.clock)
  {
    UnmodifiedMeansSameRow(rows, clock, actions, more, l.id);
    EvaluateThenResume(l, World(After(rows, clock, actions), Idle), more);
  }

  lemma EvaluateThenResume(l: Lone, w: World, more: seq<Action>)
    ensures Moves(l, w, [Evaluate] + AsOthers(more) + [Resume])
            == Step(l, World(Run(Step(l, w, Evaluate).db, more), Step(l, w, Evaluate).lone), Resume)
  {
    var judged := Step(l, w, Evaluate);
    MovesConcat(l, w, [Evaluate] + AsOthers(more), [Resume]);
    MovesConcat(l, w, [Evaluate], AsOthers(more));
    OneMove(l, w, Evaluate);
    OthersRun(l, judged, more);
    OneMove(l, World(Run(judged.db, more), judged.lone), Resume);
  }

  // ---------------------------------------------------------------- one lock-only holder is enough

  /** A session locks the row. */
  function Locks(h: TxId, id: StepId): seq<Action> {
    [Begin(h, LockOnly(id)), LockRow(h)]
  }

  /** It sits on it and lets go without writing. */
  function LetsGo(h: TxId, wait: nat): seq<Action> {
    [Tick(wait), Rollback(h)]
  }

  lemma RunTwo(s: Db, a: Action, b: Action)
    ensures Run(s, [a, b]) == Protocol.Step(Protocol.Step(s, a), b)
  {
    assert [a, b][..1] == [a] && [a, b][..1][..0] == [];
    assert Run(s, [a]) == Protocol.Step(s, a);
  }

  lemma HolderLocks(s: Db, h: TxId, id: StepId)
    requires h !in s.txs && id in s.rows && id !in s.locks
    ensures var s1 := Run(s, Locks(h, id));
      && s1.rows == s.rows && s1.clock == s.clock && s1.history == s.history
      && h in s1.txs && id in s1.locks && s1.locks[id] == h
  {
    RunTwo(s, Begin(h, LockOnly(id)), LockRow(h));
  }

  lemma HolderLetsGo(s1: Db, h: TxId, id: StepId, wait: nat)
    requires h in s1.txs && id in s1.locks && s1.locks[id] == h
    ensures var s2 := Run(s1, LetsGo(h, wait));
      s2.rows == s1.rows && s2.clock == s1.clock + wait && s2.history == s1.history && id !in s2.locks
  {
    RunTwo(s1, Tick(wait), Rollback(h));
  }

  /**
   * Every live, unlocked lease of every reachable state is exposed: a session locks the row, the lone
   * UPDATE judges it live and waits, the session lets go after the deadline without writing, and the
   * UPDATE writes. In the very state in which it does, the chosen design refuses.
   */
  lemma EveryLiveLeaseIsExposed(rows: map<StepId, Row>, clock: Instant, actions: seq<Action>, l: Lone, h: TxId)
    returns (moves: seq<Move>)
    requires l.id in rows && l.id in After(rows, clock, actions).rows && IsOwnerOp(l.op)
    requires var s := After(rows, clock, actions);
      l.id !in s.locks && h !in s.txs && LiveLease(s.rows[l.id], l.op.worker, l.op.version, s.clock)
    ensures var s := After(rows, clock, actions);
            var before, after := Moves(l, World(s, Idle), moves), Moves(l, World(s, Idle), moves + [Resume]);
      && before.db.rows == s.rows && before.lone.Waiting? && l.id !in before.db.locks
      && Expired(before.db, l.id) && !LockFirstTakesEffect(before.db, l.id, l.op, ClockTimestamp, l.began)
      && after.lone.Wrote? && after.db.clock == before.db.clock
      && after.db.rows == s.rows[l.id := Effect(l.op, s.rows[l.id], l.began, s.clock)]
  {
    var s := After(rows, clock, actions);
    var wait := s.rows[l.id].deadline.value - s.clock;
    var s1 := Run(s, Locks(h, l.id));
    var s2 := Run(s1, LetsGo(h, wait));
    HolderLocks(s, h, l.id);
    HolderLetsGo(s1, h, l.id, wait);
    var first, last := AsOthers(Locks(h, l.id)), AsOthers(LetsGo(h, wait));
    moves := first + [Evaluate] + last;
    OthersRun(l, World(s, Idle), Locks(h, l.id));
    MovesConcat(l, World(s, Idle), first, [Evaluate]);
    OneMove(l, World(s1, Idle), Evaluate);
    var judged := Step(l, World(s1, Idle), Evaluate);
    MovesConcat(l, World(s, Idle), first + [Evaluate], last);
    OthersRun(l, judged, LetsGo(h, wait));
    MovesConcat(l, World(s, Idle), moves, [Resume]);
    OneMove(l, World(s2, judged.lone), Resume);
    LockFirstCrossesDeadlineIff(s2, l.id, l.op, ClockTimestamp, l.began);
  }

  /**
   * Locking first is not enough with now(): from every reachable state in which the lease was live at the
   * owner's BEGIN, the same session makes the owner's evaluation, under the lock, accept an expired lease.
   */
  lemma NowCrossesDeadlineBehindAHolder(rows: map<StepId, Row>, clock: Instant, actions: seq<Action>, l: Lone, h: TxId)
    returns (more: seq<Action>)
    requires l.id in rows && l.id in After(rows, clock, actions).rows && IsOwnerOp(l.op)
    requires var s := After(rows, clock, actions);
      l.id !in s.locks && h !in s.txs && LiveLease(s.rows[l.id], l.op.worker, l.op.version, l.began)
    ensures var s' := Run(After(rows, clock, actions), more);
      && l.id in s'.rows && l.id !in s'.locks && Expired(s', l.id)
      && LockFirstTakesEffect(s', l.id, l.op, Now, l.began)
      && !LockFirstTakesEffect(s', l.id, l.op, ClockTimestamp, l.began)
  {
    var s := After(rows, clock, actions);
    var wait := Max(0, s.rows[l.id].deadline.value - s.clock);
    more := Locks(h, l.id) + LetsGo(h, wait);
    RunConcat(s, Locks(h, l.id), LetsGo(h, wait));
    HolderLocks(s, h, l.id);
    HolderLetsGo(Run(s, Locks(h, l.id)), h, l.id, wait);
    var s' := Run(s, more);
    LockFirstCrossesDeadlineIff(s', l.id, l.op, Now, l.began);
    LockFirstCrossesDeadlineIff(s', l.id, l.op, ClockTimestamp, l.began);
  }
}
