/**
 * The idempotent effect store: server/src/db/idempotent-effect.ts. Each call is two autocommit
 * statements; a statement meeting an uncommitted insert of its key waits for that transaction.
 */
module EffectStore {
  import opened Base

  datatype EffectRequest = EffectRequest(idempotencyKey: string, effectType: string, request: Json)

  /** A row of `idempotent_effects`. */
  datatype Effect = Effect(effectType: string, request: Json, result: Json, createdAt: Instant)

  datatype Outcome =
    | Success(applied: bool, result: Json, createdAt: Instant)
    | IdempotencyConflict
    | EffectState       // "neither inserted nor found"
    | Invalid           // thrown before any statement

  type CallId = nat

  datatype Phase =
    | Called
    | Inserting(snapshot: map<string, Effect>)   // statement 1 has taken its snapshot and may be waiting
    | Inserted(row: Effect)                      // its row is in the index, not yet committed
    | Durable(row: Effect)                       // committed; the caller has not heard yet
    | Reading                                    // statement 1 returned no row
    | Returned(outcome: Outcome)
    | Gone                                       // the caller's process or connection died

  datatype Call = Call(request: EffectRequest, effectId: string, phase: Phase)

  /** One call as an indivisible step of the specification, in the order the calls take effect. */
  datatype Point = Point(call: CallId, request: EffectRequest, effectId: string, at: Instant, outcome: Outcome)

  datatype Store = Store(
    table: map<string, Effect>,
    pending: map<string, CallId>,      // uncommitted inserts, by key
    calls: map<CallId, Call>,
    applier: map<string, CallId>,      // whose insert committed, by key
    points: seq<Point>)

  datatype Action =
    | Invoke(call: CallId, request: EffectRequest, effectId: string)
    | Snapshot(call: CallId)                       // INSERT ... ON CONFLICT DO NOTHING starts
    | Resolve(call: CallId, at: Instant)           // and meets, or does not meet, its key
    | CommitInsert(call: CallId)
    | Return(call: CallId)
    | Read(call: CallId)                           // the second statement, on a fresh snapshot
    | Die(call: CallId)

  const MAX_IDEMPOTENCY_KEY_LENGTH := 200
  const EMPTY := Store(map[], map[], map[], map[], [])

  predicate ValidRequest(r: EffectRequest) {
    !IsBlank(r.idempotencyKey) && |r.idempotencyKey| <= MAX_IDEMPOTENCY_KEY_LENGTH && !IsBlank(r.effectType)
  }

  /** `{ effectId, value: request.value }`; an undefined value is not stored. */
  function Candidate(effectId: string, request: Json): Json {
    JObject(map["effectId" := JText(effectId)] +
            if request.JObject? && "value" in request.fields then map["value" := request.fields["value"]] else map[])
  }

  function NewRow(c: Call, at: Instant): Effect {
    Effect(c.request.effectType, c.request.request, Candidate(c.effectId, c.request.request), at)
  }

  predicate SameRequest(row: Effect, r: EffectRequest) {
    row.effectType == r.effectType && row.request == r.request
  }

  /** What the second statement reports about an existing row. */
  function Existing(row: Effect, r: EffectRequest): Outcome {
    if SameRequest(row, r) then Success(false, row.result, row.createdAt) else IdempotencyConflict
  }

  function SetPhase(s: Store, call: CallId, phase: Phase): Store
    requires call in s.calls
  {
    s.(calls := s.calls[call := s.calls[call].(phase := phase)])
  }

  function PointOf(s: Store, call: CallId, at: Instant, outcome: Outcome): Point
    requires call in s.calls
  {
    Point(call, s.calls[call].request, s.calls[call].effectId, at, outcome)
  }

  function Step(s: Store, a: Action): Store {
    match a
    case Invoke(call, request, effectId) =>
      if call in s.calls then s
      else s.(calls := s.calls[call := Call(request, effectId, if ValidRequest(request) then Called else Returned(Invalid))])
    case Snapshot(call) =>
      if call in s.calls && s.calls[call].phase.Called? then SetPhase(s, call, Inserting(s.table)) else s
    case Resolve(call, at) =>
      if call !in s.calls || !s.calls[call].phase.Inserting? then s else
        var key := s.calls[call].request.idempotencyKey;
        if key in s.table then SetPhase(s, call, Reading)
        else if key in s.pending then s                                     // waits
        else SetPhase(s, call, Inserted(NewRow(s.calls[call], at))).(pending := s.pending[key := call])
    case CommitInsert(call) =>
      if call !in s.calls || !s.calls[call].phase.Inserted? then s else
        var key, row := s.calls[call].request.idempotencyKey, s.calls[call].phase.row;
        SetPhase(s, call, Durable(row))
          .(table := s.table[key := row], pending := s.pending - {key}, applier := s.applier[key := call],
            points := s.points + [PointOf(s, call, row.createdAt, Success(true, row.result, row.createdAt))])
    case Return(call) =>
      if call in s.calls && s.calls[call].phase.Durable? then
        var row := s.calls[call].phase.row;
        SetPhase(s, call, Returned(Success(true, row.result, row.createdAt)))
      else s
    case Read(call) =>
      if call !in s.calls || !s.calls[call].phase.Reading? then s else
        var r := s.calls[call].request;
        if r.idempotencyKey !in s.table then SetPhase(s, call, Returned(EffectState)) else
          var outcome := Existing(s.table[r.idempotencyKey], r);
          SetPhase(s, call, Returned(outcome)).(points := s.points + [PointOf(s, call, 0, outcome)])
    case Die(call) =>
      if call !in s.calls || s.calls[call].phase.Returned? then s else
        var s' := SetPhase(s, call, Gone);
        if s.calls[call].phase.Inserted? then s'.(pending := s.pending - {s.calls[call].request.idempotencyKey}) else s'
  }

  function Run(s: Store, actions: seq<Action>): Store {
    if actions == [] then s else Step(Run(s, actions[..|actions| - 1]), actions[|actions| - 1])
  }

  // ---------------------------------------------------------------- the specification

  /** A keyed effect as one atomic operation. */
  function Atomic(table: map<string, Effect>, p: Point): (map<string, Effect>, Outcome) {
    var key := p.request.idempotencyKey;
    if key in table then (table, Existing(table[key], p.request))
    else
      var row := Effect(p.request.effectType, p.request.request, Candidate(p.effectId, p.request.request), p.at);
      (table[key := row], Success(true, row.result, row.createdAt))
  }

  /** The table after performing the calls one after the other, if every recorded outcome is what each would give. */
  function Serial(points: seq<Point>): Option<map<string, Effect>> {
    if points == [] then Some(map[]) else
      var p := points[|points| - 1];
      match Serial(points[..|points| - 1])
      case None => None
      case Some(table) => if Atomic(table, p).1 == p.outcome then Some(Atomic(table, p).0) else None
  }

  // ---------------------------------------------------------------- the invariant

  ghost predicate OutcomeOk(s: Store, call: CallId, request: EffectRequest, outcome: Outcome) {
    var key := request.idempotencyKey;
    (outcome != Invalid ==> ValidRequest(request)) &&
    match outcome
    case Success(applied, result, createdAt) =>
      && key in s.table && s.table[key].result == result && s.table[key].createdAt == createdAt
      && SameRequest(s.table[key], request)
      && (applied <==> key in s.applier && s.applier[key] == call)
    case IdempotencyConflict => key in s.table && !SameRequest(s.table[key], request)
    case EffectState => false
    case Invalid => !ValidRequest(request)
  }

  ghost predicate CallOk(s: Store, call: CallId)
    requires call in s.calls
  {
    var c := s.calls[call];
    var key := c.request.idempotencyKey;
    && (!c.phase.Returned? ==> ValidRequest(c.request))
    && match c.phase
       case Called => true
       case Inserting(_) => true
       case Gone => true
       case Inserted(row) => key in s.pending && s.pending[key] == call && row == NewRow(c, row.createdAt)
       case Durable(row) => key in s.table && s.table[key] == row && key in s.applier && s.applier[key] == call
                            && row == NewRow(c, row.createdAt)
       case Reading => key in s.table
       case Returned(outcome) => OutcomeOk(s, call, c.request, outcome)
  }

  predicate PastItsPoint(phase: Phase) {
    phase.Durable? || phase.Returned? || phase.Gone?
  }

  /** A key being inserted is not in the table yet, and names the call that is inserting it. */
  ghost predicate PendingOk(s: Store) {
    forall key :: key in s.pending ==>
      && key !in s.table && s.pending[key] in s.calls
      && s.calls[s.pending[key]].phase.Inserted? && s.calls[s.pending[key]].request.idempotencyKey == key
  }

  ghost predicate ApplierOk(s: Store) {
    && s.applier.Keys == s.table.Keys
    && forall key :: key in s.applier ==>
         s.applier[key] in s.calls && PastItsPoint(s.calls[s.applier[key]].phase)
  }

  ghost predicate CallsOk(s: Store) {
    forall call {:trigger CallOk(s, call)} :: call in s.calls ==> CallOk(s, call)
  }

  ghost predicate Inv(s: Store) {
    CallsOk(s) && PendingOk(s) && ApplierOk(s)
  }

  /** Rows, and who inserted them, are only ever added. */
  ghost predicate Grows(s: Store, s': Store) {
    && (forall key :: key in s.table ==> key in s'.table && s'.table[key] == s.table[key])
    && (forall key :: key in s.applier ==> key in s'.applier && s'.applier[key] == s.applier[key])
  }

  lemma OthersUndisturbed(s: Store, s': Store, call: CallId)
    requires call in s.calls && CallOk(s, call) && call in s'.calls && s'.calls[call] == s.calls[call]
    requires Grows(s, s') && s.applier.Keys == s.table.Keys
    requires forall key :: key in s.pending && s.pending[key] == call ==> key in s'.pending && s'.pending[key] == call
    ensures CallOk(s', call)
  {
  }

  /** A step touches its own call and, in the index, its own key. */
  lemma StepFrame(s: Store, a: Action)
    ensures var s' := Step(s, a);
      && (forall call :: call in s.calls ==> call in s'.calls && (call != a.call ==> s'.calls[call] == s.calls[call]))
      && (forall call :: call in s'.calls && call != a.call ==> call in s.calls)
      && s.points <= s'.points
  {
  }

  lemma StepGrows(s: Store, a: Action)
    requires a.call in s.calls ==> CallOk(s, a.call)
    requires PendingOk(s) && s.applier.Keys == s.table.Keys
    ensures Grows(s, Step(s, a)) && Step(s, a).applier.Keys == Step(s, a).table.Keys
  {
  }

  lemma OtherInsertsStay(s: Store, a: Action)
    requires a.call in s.calls ==> CallOk(s, a.call)
    ensures forall key :: key in s.pending && s.pending[key] != a.call ==>
              key in Step(s, a).pending && Step(s, a).pending[key] == s.pending[key]
  {
  }

  lemma StepKeepsPending(s: Store, a: Action)
    requires a.call in s.calls ==> CallOk(s, a.call)
    requires PendingOk(s)
    ensures PendingOk(Step(s, a))
  {
  }

  lemma StepKeepsAppliers(s: Store, a: Action)
    requires a.call in s.calls ==> CallOk(s, a.call)
    requires PendingOk(s) && ApplierOk(s)
    ensures ApplierOk(Step(s, a))
  {
  }

  lemma StepKeepsOwn(s: Store, a: Action)
    requires a.call in s.calls ==> CallOk(s, a.call)
    requires PendingOk(s) && s.applier.Keys == s.table.Keys && a.call in Step(s, a).calls
    requires forall key :: key in s.applier && s.applier[key] == a.call && a.call in s.calls ==> PastItsPoint(s.calls[a.call].phase)
    requires forall key :: key in s.applier ==> s.applier[key] in s.calls
    ensures CallOk(Step(s, a), a.call)
  {
  }

  lemma StepKeeps(s: Store, a: Action)
    requires Inv(s)
    ensures Inv(Step(s, a)) && Grows(s, Step(s, a))
  {
    var s' := Step(s, a);
    assert a.call in s.calls ==> CallOk(s, a.call);
    StepGrows(s, a);
    StepKeepsPending(s, a);
    OtherInsertsStay(s, a);
    StepKeepsAppliers(s, a);
    StepFrame(s, a);
    forall call {:trigger CallOk(s', call)} | call in s'.calls ensures CallOk(s', call) {
      if call == a.call {
        StepKeepsOwn(s, a);
      } else {
        OneOtherCall(s, s', a, call);
      }
    }
  }

  lemma OneOtherCall(s: Store, s': Store, a: Action, call: CallId)
    requires CallsOk(s) && call in s.calls && call in s'.calls && s'.calls[call] == s.calls[call] && call != a.call
    requires Grows(s, s') && s.applier.Keys == s.table.Keys
    requires forall key :: key in s.pending && s.pending[key] != a.call ==>
               key in s'.pending && s'.pending[key] == s.pending[key]
    ensures CallOk(s', call)
  {
    assert CallOk(s, call);
    OthersUndisturbed(s, s', call);
  }

  lemma {:induction false} RunKeeps(actions: seq<Action>)
    ensures Inv(Run(EMPTY, actions))
  {
    if actions != [] {
      RunKeeps(actions[..|actions| - 1]);
      StepKeeps(Run(EMPTY, actions[..|actions| - 1]), actions[|actions| - 1]);
    }
  }

  // ---------------------------------------------------------------- what a row holds

  /** The request has a `value`, and this is it. */
  predicate HasField(json: Json, name: string, value: Json) {
    json.JObject? && name in json.fields && json.fields[name] == value
  }

  /** `{ effectId, value }`: the caller's identifier, and the request's value if it has one; nothing else. */
  ghost predicate IsResultOf(result: Json, effectId: string, request: Json) {
    && HasField(result, "effectId", JText(effectId))
    && (forall value :: HasField(result, "value", value) <==> HasField(request, "value", value))
    && result.fields.Keys <= {"effectId", "value"}
  }

  lemma CandidateIsResult(effectId: string, request: Json)
    ensures IsResultOf(Candidate(effectId, request), effectId, request)
  {
  }

  /** The row is what this call asked to store: its type, its request, and the result made of them. */
  ghost predicate IsRowOf(row: Effect, c: Call) {
    row.effectType == c.request.effectType && row.request == c.request.request && IsResultOf(row.result, c.effectId, c.request.request)
  }

  /** Every row is what the one call that inserted it asked for, under its own key. */
  ghost predicate RowTells(s: Store, key: string)
    requires key in s.table
  {
    && key in s.applier && s.applier[key] in s.calls
    && s.calls[s.applier[key]].request.idempotencyKey == key && IsRowOf(s.table[key], s.calls[s.applier[key]])
  }

  ghost predicate RowsTell(s: Store) {
    forall key {:trigger RowTells(s, key)} :: key in s.table ==> RowTells(s, key)
  }

  /** What a call asked for never changes. */
  lemma RequestsStay(s: Store, a: Action, call: CallId)
    requires call in s.calls
    ensures call in Step(s, a).calls
    ensures Step(s, a).calls[call].request == s.calls[call].request && Step(s, a).calls[call].effectId == s.calls[call].effectId
  {
  }

  lemma NewRowTells(s: Store, a: Action, key: string)
    requires Inv(s) && key !in s.table && key in Step(s, a).table
    ensures RowTells(Step(s, a), key)
  {
    assert a.CommitInsert? && CallOk(s, a.call);
    CandidateIsResult(s.calls[a.call].effectId, s.calls[a.call].request.request);
  }

  lemma StepKeepsRows(s: Store, a: Action)
    requires Inv(s) && RowsTell(s)
    ensures RowsTell(Step(s, a))
  {
    var s' := Step(s, a);
    StepKeeps(s, a);
    forall key | key in s'.table ensures RowTells(s', key) {
      if key in s.table {
        assert RowTells(s, key);
        RequestsStay(s, a, s.applier[key]);
      } else {
        NewRowTells(s, a, key);
      }
    }
  }

  lemma StepKeepsAll(s: Store, a: Action)
    requires Inv(s) && RowsTell(s)
    ensures Inv(Step(s, a)) && RowsTell(Step(s, a))
  {
    StepKeeps(s, a);
    StepKeepsRows(s, a);
  }

  lemma {:induction false} RowsAlwaysTell(actions: seq<Action>)
    ensures RowsTell(Run(EMPTY, actions))
  {
    if actions != [] {
      var n := |actions| - 1;
      RowsAlwaysTell(actions[..n]);
      RunKeeps(actions[..n]);
      StepKeepsRows(Run(EMPTY, actions[..n]), actions[n]);
    }
  }

  // ---------------------------------------------------------------- what callers can rely on

  /** The checks made before any statement: a key that is not blank and at most 200 long, and a type that is not blank. */
  predicate WellFormed(r: EffectRequest) {
    !IsBlank(r.idempotencyKey) && |r.idempotencyKey| <= 200 && !IsBlank(r.effectType)
  }

  /**
   * What an outcome says of the table: the key holds a row; a conflict exactly when its type or its request
   * is another; else the stored result, made of this very request, and `applied` exactly for the call that
   * inserted it, whose own identifier the result then carries.
   */
  ghost predicate Tells(s: Store, call: CallId, request: EffectRequest, effectId: string, outcome: Outcome) {
    var key := request.idempotencyKey;
    && outcome != EffectState
    && (outcome == Invalid <==> !WellFormed(request))
    && (WellFormed(request) ==>
          && key in s.table && key in s.applier
          && (outcome == IdempotencyConflict <==>
                s.table[key].effectType != request.effectType || s.table[key].request != request.request)
          && (outcome.Success? ==>
                && outcome.result == s.table[key].result && outcome.createdAt == s.table[key].createdAt
                && (outcome.applied <==> s.applier[key] == call)
                && (exists id :: IsResultOf(outcome.result, id, request.request))
                && (outcome.applied ==> IsResultOf(outcome.result, effectId, request.request))))
  }

  lemma ReturnedTells(s: Store, call: CallId)
    requires Inv(s) && RowsTell(s) && call in s.calls && s.calls[call].phase.Returned?
    ensures Tells(s, call, s.calls[call].request, s.calls[call].effectId, s.calls[call].phase.outcome)
  {
    assert CallOk(s, call);
    var key := s.calls[call].request.idempotencyKey;
    assert key in s.table ==> RowTells(s, key);
  }

  /** Every outcome a caller can see, for every interleaving of callers on every key. */
  lemma CallersAgree(actions: seq<Action>, call: CallId)
    requires call in Run(EMPTY, actions).calls && Run(EMPTY, actions).calls[call].phase.Returned?
    ensures var s := Run(EMPTY, actions); var c := s.calls[call]; Tells(s, call, c.request, c.effectId, c.phase.outcome)
  {
    RunKeeps(actions);
    RowsAlwaysTell(actions);
    ReturnedTells(Run(EMPTY, actions), call);
  }

  lemma {:induction false} RowsNeverChange(s: Store, more: seq<Action>, key: string)
    requires Inv(s) && key in s.table
    ensures var s' := Run(s, more);
      && Inv(s') && key in s'.table && s'.table[key] == s.table[key]
      && key in s'.applier && key in s.applier && s'.applier[key] == s.applier[key]
  {
    if more != [] {
      var n := |more| - 1;
      RowsNeverChange(s, more[..n], key);
      var p := Run(s, more[..n]);
      StepKeeps(p, more[n]);
    }
  }

  /** One effect per key: every later success under the key returns the first result, and is not a second application. */
  lemma AtMostOneApplication(s: Store, more: seq<Action>, key: string, call: CallId)
    requires Inv(s) && key in s.table
    requires var s' := Run(s, more);
      call in s'.calls && s'.calls[call].request.idempotencyKey == key
      && s'.calls[call].phase.Returned? && s'.calls[call].phase.outcome.Success?
    ensures var outcome := Run(s, more).calls[call].phase.outcome;
      && outcome.result == s.table[key].result
      && key in s.applier && (outcome.applied <==> s.applier[key] == call)
  {
    RowsNeverChange(s, more, key);
    assert CallOk(Run(s, more), call);
  }

  /** A caller waiting for an uncommitted insert is let through by its end, whichever way it ends. */
  lemma WaitersAreReleased(s: Store, waiter: CallId, at: Instant, a: Action)
    requires Inv(s) && waiter in s.calls && s.calls[waiter].phase.Inserting?
    requires var key := s.calls[waiter].request.idempotencyKey; key in s.pending && s.pending[key] == a.call
    requires a.CommitInsert? || a.Die?
    ensures var s' := Step(Step(s, a), Resolve(waiter, at));
      && waiter in s'.calls
      && (if a.CommitInsert? then s'.calls[waiter].phase == Reading else s'.calls[waiter].phase.Inserted?)
  {
  }

  // ---------------------------------------------------------------- linearization

  lemma StepIsSerial(s: Store, a: Action)
    requires Inv(s) && Serial(s.points) == Some(s.table)
    ensures Serial(Step(s, a).points) == Some(Step(s, a).table)
  {
    var s' := Step(s, a);
    assert a.call in s.calls ==> CallOk(s, a.call);
    if s'.points != s.points {
      var p := s'.points[|s.points|];
      assert s'.points[..|s'.points| - 1] == s.points;
      assert s'.points[|s'.points| - 1] == p;
    }
  }

  /**
   * The calls take effect as if performed one at a time: there is one order of them, each at its
   * commit or its read, in which the atomic specification gives every recorded outcome and the table.
   */
  lemma {:induction false} EffectsLinearize(actions: seq<Action>)
    ensures var s := Run(EMPTY, actions); Serial(s.points) == Some(s.table)
  {
    if actions != [] {
      var n := |actions| - 1;
      EffectsLinearize(actions[..n]);
      RunKeeps(actions[..n]);
      StepIsSerial(Run(EMPTY, actions[..n]), actions[n]);
    }
  }

  /** Every point belongs to a call that is past it, and no call has two. */
  ghost predicate OnePointEach(s: Store) {
    && (forall i :: 0 <= i < |s.points| ==>
          s.points[i].call in s.calls && PastItsPoint(s.calls[s.points[i].call].phase))
    && (forall i, j :: 0 <= i < j < |s.points| ==> s.points[i].call != s.points[j].call)
  }

  lemma {:induction false} EffectsHappenOnce(actions: seq<Action>)
    ensures OnePointEach(Run(EMPTY, actions))
  {
    if actions != [] {
      var n := |actions| - 1;
      EffectsHappenOnce(actions[..n]);
      StepKeepsOnePoint(Run(EMPTY, actions[..n]), actions[n]);
    }
  }

  lemma StepKeepsOnePoint(s: Store, a: Action)
    requires OnePointEach(s)
    ensures OnePointEach(Step(s, a))
  {
  }

  lemma PastPhaseStays(s: Store, a: Action, call: CallId)
    requires call in s.calls && PastItsPoint(s.calls[call].phase)
    ensures call in Step(s, a).calls && PastItsPoint(Step(s, a).calls[call].phase)
  {
  }

  lemma NewPointIsOwn(s: Store, a: Action)
    ensures var s' := Step(s, a);
      && s.points <= s'.points && |s'.points| <= |s.points| + 1
      && (|s'.points| > |s.points| ==>
            s'.points[|s.points|].call == a.call && a.call in s.calls && !PastItsPoint(s.calls[a.call].phase))
  {
  }

  lemma {:induction false} PastForever(s: Store, more: seq<Action>, call: CallId)
    requires call in s.calls && PastItsPoint(s.calls[call].phase)
    ensures var s' := Run(s, more);
      && call in s'.calls && PastItsPoint(s'.calls[call].phase) && s.points <= s'.points
      && forall i :: |s.points| <= i < |s'.points| ==> s'.points[i].call != call
  {
    if more != [] {
      var n := |more| - 1;
      var p := Run(s, more[..n]);
      PastForever(s, more[..n], call);
      PastPhaseStays(p, more[n], call);
      NewPointIsOwn(p, more[n]);
      forall i | |s.points| <= i < |Step(p, more[n]).points| ensures Step(p, more[n]).points[i].call != call {
        if i < |p.points| { assert Step(p, more[n]).points[i] == p.points[i]; }
      }
    }
  }

  lemma {:induction false} RunConcat(s: Store, a: seq<Action>, b: seq<Action>)
    ensures Run(s, a + b) == Run(Run(s, a), b)
  {
    if b == [] {
      assert a + b == a;
    } else {
      RunConcat(s, a, b[..|b| - 1]);
      assert (a + b)[..|a + b| - 1] == a + b[..|b| - 1];
    }
  }

  /** The order respects real time: a call that returned before another was made comes before it. */
  lemma OrderRespectsRealTime(actions: seq<Action>, more: seq<Action>, first: CallId, second: CallId, i: nat, j: nat)
    requires var s := Run(EMPTY, actions);
      first in s.calls && s.calls[first].phase.Returned? && second !in s.calls
    requires var points := Run(EMPTY, actions + more).points;
      i < |points| && j < |points| && points[i].call == first && points[j].call == second
    ensures i < j
  {
    var s := Run(EMPTY, actions);
    RunConcat(EMPTY, actions, more);
    EffectsHappenOnce(actions);
    PastForever(s, more, first);
    assert forall k :: 0 <= k < |s.points| ==> Run(EMPTY, actions + more).points[k] == s.points[k];
  }

  ghost predicate HasPoint(s: Store, call: CallId, outcome: Outcome) {
    exists i :: 0 <= i < |s.points| && s.points[i].call == call && s.points[i].outcome == outcome
  }

  /** What a call has been told, or is about to be told, is what it was recorded as at its point. */
  ghost predicate OutcomeRecorded(s: Store, call: CallId)
    requires call in s.calls
  {
    var c := s.calls[call];
    && (c.phase.Returned? && ValidRequest(c.request) ==> HasPoint(s, call, c.phase.outcome))
    && (c.phase.Durable? ==> HasPoint(s, call, Success(true, c.phase.row.result, c.phase.row.createdAt)))
  }

  lemma OwnOutcomeRecorded(s: Store, a: Action)
    requires Inv(s) && a.call in Step(s, a).calls && (a.call in s.calls ==> OutcomeRecorded(s, a.call))
    ensures OutcomeRecorded(Step(s, a), a.call)
  {
    var s' := Step(s, a);
    assert a.call in s.calls ==> CallOk(s, a.call);
    PointsKept(s, s', a.call);
    if |s'.points| > |s.points| {
      assert s'.points[|s.points|].call == a.call;
    }
  }

  lemma {:induction false} OutcomesAreRecorded(actions: seq<Action>, call: CallId)
    requires call in Run(EMPTY, actions).calls
    ensures OutcomeRecorded(Run(EMPTY, actions), call)
  {
    var n := |actions| - 1;
    var s0 := Run(EMPTY, actions[..n]);
    RunKeeps(actions[..n]);
    StepFrame(s0, actions[n]);
    if call in s0.calls {
      OutcomesAreRecorded(actions[..n], call);
    }
    if call == actions[n].call {
      OwnOutcomeRecorded(s0, actions[n]);
    } else {
      OtherOutcomeKept(s0, Step(s0, actions[n]), call);
    }
  }

  lemma OtherOutcomeKept(s: Store, s': Store, call: CallId)
    requires call in s.calls && call in s'.calls && s'.calls[call] == s.calls[call] && s.points <= s'.points
    requires OutcomeRecorded(s, call)
    ensures OutcomeRecorded(s', call)
  {
  }

  lemma PointsKept(s: Store, s': Store, call: CallId)
    requires s.points <= s'.points
    ensures forall outcome :: HasPoint(s, call, outcome) ==> HasPoint(s', call, outcome)
  {
  }

  // ---------------------------------------------------------------- why two statements

  /** The one-statement design: when the insert does nothing, its fallback SELECT uses the same snapshot. */
  function OneStatementResult(s: Store, call: CallId): Option<Outcome>
    requires call in s.calls && s.calls[call].phase.Inserting? && s.calls[call].request.idempotencyKey in s.table
  {
    var c := s.calls[call];
    var key := c.request.idempotencyKey;
    if key in c.phase.snapshot then Some(Existing(c.phase.snapshot[key], c.request)) else None
  }

  /** The call at this point inserted the key. */
  predicate InsertedAt(points: seq<Point>, i: nat, key: string) {
    i < |points| && points[i].request.idempotencyKey == key && points[i].outcome.Success? && points[i].outcome.applied
  }

  ghost predicate HasInsertion(points: seq<Point>, key: string) {
    exists i: nat :: InsertedAt(points, i, key)
  }

  /** The table holds exactly the keys inserted at some point, by the call of that point. */
  ghost predicate PointsTellTable(s: Store) {
    && s.applier.Keys == s.table.Keys
    && (forall key :: key in s.table ==> HasInsertion(s.points, key))
    && (forall i: nat, key :: InsertedAt(s.points, i, key) ==> key in s.table && s.applier[key] == s.points[i].call)
  }

  /** The store as it was, or one key inserted at a new point; any other new point inserts nothing. */
  ghost predicate InsertsAtMostOne(s: Store, s': Store) {
    var n := |s.points|;
    && s.points <= s'.points && |s'.points| <= n + 1
    && (forall key :: InsertedAt(s'.points, n, key) ==>
          s'.table.Keys == s.table.Keys + {key} && s'.applier == s.applier[key := s'.points[n].call])
    && ((forall key :: !InsertedAt(s'.points, n, key)) ==> s'.table == s.table && s'.applier == s.applier)
  }

  lemma StepInserts(s: Store, a: Action)
    ensures InsertsAtMostOne(s, Step(s, a))
  {
    if a.CommitInsert? && a.call in s.calls && s.calls[a.call].phase.Inserted? {
      assert InsertedAt(Step(s, a).points, |s.points|, s.calls[a.call].request.idempotencyKey);
    }
  }

  lemma InsertKeepsTelling(s: Store, s': Store)
    requires PointsTellTable(s) && InsertsAtMostOne(s, s')
    requires forall key :: InsertedAt(s'.points, |s.points|, key) ==> key !in s.table
    ensures PointsTellTable(s')
  {
    forall i: nat | i < |s.points| ensures s'.points[i] == s.points[i] {}
    forall key | key in s'.table ensures HasInsertion(s'.points, key) {
      if key in s.table {
        var i: nat :| InsertedAt(s.points, i, key);
        assert InsertedAt(s'.points, i, key);
      } else {
        assert InsertedAt(s'.points, |s.points|, key);
      }
    }
    forall i: nat, key | InsertedAt(s'.points, i, key) ensures key in s'.table && s'.applier[key] == s'.points[i].call {
      if i < |s.points| {
        assert InsertedAt(s.points, i, key);
      }
    }
  }

  lemma InsertionsAreNew(s: Store, a: Action)
    requires PendingOk(s) && (a.call in s.calls ==> CallOk(s, a.call))
    ensures forall key :: InsertedAt(Step(s, a).points, |s.points|, key) ==> key !in s.table
  {
  }

  lemma {:induction false} PointsAlwaysTell(actions: seq<Action>)
    ensures PointsTellTable(Run(EMPTY, actions))
  {
    if actions != [] {
      var n := |actions| - 1;
      PointsAlwaysTell(actions[..n]);
      RunKeeps(actions[..n]);
      var p := Run(EMPTY, actions[..n]);
      assert actions[n].call in p.calls ==> CallOk(p, actions[n].call);
      InsertionsAreNew(p, actions[n]);
      StepInserts(p, actions[n]);
      InsertKeepsTelling(p, Step(p, actions[n]));
    }
  }

  lemma SnapshotStep(s: Store, a: Action, call: CallId)
    requires call in Step(s, a).calls && Step(s, a).calls[call].phase.Inserting?
    ensures s.points <= Step(s, a).points
    ensures if call in s.calls && s.calls[call].phase.Inserting? then Step(s, a).calls[call] == s.calls[call]
            else a == Snapshot(call) && Step(s, a).calls[call].phase.snapshot == s.table
  {
  }

  /** When a waiting call took its snapshot, and that the store has only grown since. */
  lemma {:induction false} SnapshotTaken(actions: seq<Action>, call: CallId) returns (n: nat)
    requires call in Run(EMPTY, actions).calls && Run(EMPTY, actions).calls[call].phase.Inserting?
    ensures n < |actions| && actions[n] == Snapshot(call)
    ensures Run(EMPTY, actions).calls[call].phase.snapshot == Run(EMPTY, actions[..n]).table
    ensures Run(EMPTY, actions[..n]).points <= Run(EMPTY, actions).points
  {
    var m := |actions| - 1;
    var p := Run(EMPTY, actions[..m]);
    SnapshotStep(p, actions[m], call);
    if call in p.calls && p.calls[call].phase.Inserting? {
      n := SnapshotTaken(actions[..m], call);
      assert actions[..m][..n] == actions[..n];
    } else {
      n := m;
    }
  }

  /**
   * It returns no row at all exactly when the key was committed after its snapshot: the call that inserted
   * the key took its point after this call's snapshot action.
   */
  lemma OneStatementReturnsNothingIff(actions: seq<Action>, call: CallId) returns (n: nat, i: nat)
    requires var s := Run(EMPTY, actions);
      call in s.calls && s.calls[call].phase.Inserting? && s.calls[call].request.idempotencyKey in s.table
    ensures var s := Run(EMPTY, actions); var key := s.calls[call].request.idempotencyKey;
      && n < |actions| && actions[n] == Snapshot(call)
      && InsertedAt(s.points, i, key) && key in s.applier && s.points[i].call == s.applier[key]
      && (OneStatementResult(s, call) == None <==> |Run(EMPTY, actions[..n]).points| <= i)
  {
    var s := Run(EMPTY, actions);
    var key := s.calls[call].request.idempotencyKey;
    n := SnapshotTaken(actions, call);
    var early := Run(EMPTY, actions[..n]);
    PointsAlwaysTell(actions);
    PointsAlwaysTell(actions[..n]);
    EffectsHappenOnce(actions);
    i :| InsertedAt(s.points, i, key);
    InsertedBeforeIff(early, s, key, i);
  }

  /** Of two stages of the store, a key is missing at the first exactly when its point comes after it. */
  lemma InsertedBeforeIff(early: Store, late: Store, key: string, i: nat)
    requires PointsTellTable(early) && PointsTellTable(late) && OnePointEach(late) && early.points <= late.points
    requires InsertedAt(late.points, i, key)
    ensures key !in early.table <==> |early.points| <= i
  {
    if key in early.table {
      var k: nat :| InsertedAt(early.points, k, key);
      assert late.points[k] == early.points[k] && InsertedAt(late.points, k, key);
      assert k == i;
    } else if i < |early.points| {
      assert late.points[i] == early.points[i];
      assert InsertedAt(early.points, i, key);
    }
  }

  /** The second statement always finds it. */
  lemma SecondStatementFinds(s: Store, call: CallId, at: Instant)
    requires Inv(s) && call in s.calls && s.calls[call].phase.Inserting? && s.calls[call].request.idempotencyKey in s.table
    ensures var s' := Step(Step(s, Resolve(call, at)), Read(call));
      call in s'.calls && s'.calls[call].phase == Returned(Existing(s.table[s.calls[call].request.idempotencyKey], s.calls[call].request))
  {
  }

  /** Two callers of one new key: the second takes its snapshot, waits out the first's commit, and sees nothing. */
  lemma OneStatementLosesRow(r: EffectRequest, a: string, b: string, at: Instant) returns (actions: seq<Action>)
    requires ValidRequest(r)
    ensures var s := Run(EMPTY, actions);
      && 1 in s.calls && s.calls[1].phase.Inserting? && s.calls[1].request == r && r.idempotencyKey in s.table
      && OneStatementResult(s, 1) == None
      && 1 in Step(Step(s, Resolve(1, at)), Read(1)).calls
      && Step(Step(s, Resolve(1, at)), Read(1)).calls[1].phase == Returned(Success(false, Candidate(a, r.request), at))
  {
    var first := [Invoke(0, r, a), Snapshot(0), Resolve(0, at)];
    var s3 := FirstInsertPending(r, a, at);
    var i1, i2 := first + [Invoke(1, r, b)], first + [Invoke(1, r, b)] + [Snapshot(1)];
    actions := i2 + [CommitInsert(0)];
    RunSnoc(EMPTY, first, Invoke(1, r, b));
    RunSnoc(EMPTY, i1, Snapshot(1));
    RunSnoc(EMPTY, i2, CommitInsert(0));
    SecondCallerMisses(s3, r, a, b, at);
  }

  lemma SecondCallerMisses(s3: Store, r: EffectRequest, a: string, b: string, at: Instant)
    requires ValidRequest(r)
    requires s3 == Store(map[], map[r.idempotencyKey := 0],
                         map[0 := Call(r, a, Inserted(NewRow(Call(r, a, Called), at)))], map[], [])
    ensures var s := Step(Step(Step(s3, Invoke(1, r, b)), Snapshot(1)), CommitInsert(0));
      && 1 in s.calls && s.calls[1].phase.Inserting? && s.calls[1].request == r && r.idempotencyKey in s.table
      && OneStatementResult(s, 1) == None
      && 1 in Step(Step(s, Resolve(1, at)), Read(1)).calls
      && Step(Step(s, Resolve(1, at)), Read(1)).calls[1].phase == Returned(Success(false, Candidate(a, r.request), at))
  {
  }

  lemma FirstInsertPending(r: EffectRequest, a: string, at: Instant) returns (s: Store)
    requires ValidRequest(r)
    ensures s == Run(EMPTY, [Invoke(0, r, a), Snapshot(0), Resolve(0, at)])
    ensures s == Store(map[], map[r.idempotencyKey := 0],
                       map[0 := Call(r, a, Inserted(NewRow(Call(r, a, Called), at)))], map[], [])
  {
    var actions := [Invoke(0, r, a), Snapshot(0), Resolve(0, at)];
    s := Run(EMPTY, actions);
    RunSnoc(EMPTY, [], Invoke(0, r, a));
    RunSnoc(EMPTY, [Invoke(0, r, a)], Snapshot(0));
    RunSnoc(EMPTY, [Invoke(0, r, a), Snapshot(0)], Resolve(0, at));
    assert [] + [Invoke(0, r, a)] == [Invoke(0, r, a)];
    assert [Invoke(0, r, a)] + [Snapshot(0)] == [Invoke(0, r, a), Snapshot(0)];
    assert [Invoke(0, r, a), Snapshot(0)] + [Resolve(0, at)] == actions;
  }

  lemma RunSnoc(s: Store, actions: seq<Action>, a: Action)
    ensures Run(s, actions + [a]) == Step(Run(s, actions), a)
  {
  }
}
