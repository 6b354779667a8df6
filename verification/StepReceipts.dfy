/**
 * The step protocol composed with the effect store: server/src/worker/execute-step.ts. Any process,
 * whatever generation it believes in and however often, may execute any idempotent_effect step.
 */
module StepReceipts {
  import opened Base
  import opened Lifecycle
  import opened StepSpec
  import opened RowHistory
  import opened EffectStore
  import P = Protocol
  import PI = ProtocolInvariant
  import RT = RunTheorems

  // ---------------------------------------------------------------- the key of a step

  const HYPHENS := {8, 13, 18, 23}

  predicate IsHex(c: char) {
    '0' <= c <= '9' || 'a' <= c <= 'f' || 'A' <= c <= 'F'
  }

  /** Eight, four, four, four and twelve hexadecimal digits of either case, joined by hyphens. */
  predicate IsUuid(s: string) {
    |s| == 36 && forall i :: 0 <= i < 36 ==> if i in HYPHENS then s[i] == '-' else IsHex(s[i])
  }

  function LowerChar(c: char): char {
    if 'A' <= c <= 'Z' then c + 32 as char else c
  }

  function Lower(s: string): string {
    seq(|s|, i requires 0 <= i < |s| => LowerChar(s[i]))
  }

  const PREFIX := "step:"
  const SUFFIX := ":demo_receipt"
  const DEMO_EFFECT_TYPE := "demo_receipt"
  const IDEMPOTENT_EFFECT := "idempotent_effect"
  const MAX_TASK_DELAY_MS := 60_000

  /** None stands for the InvalidTaskError. */
  function StepEffectKey(stepId: string): Option<string> {
    if IsUuid(stepId) then Some(PREFIX + Lower(stepId) + SUFFIX) else None
  }

  /** The same character, or the two cases of one letter. */
  predicate SameLetter(a: char, b: char) {
    || a == b
    || ('a' <= a <= 'z' && 'A' <= b <= 'Z' && a as int - 'a' as int == b as int - 'A' as int)
    || ('A' <= a <= 'Z' && 'a' <= b <= 'z' && a as int - 'A' as int == b as int - 'a' as int)
  }

  predicate EqualIgnoringCase(a: string, b: string) {
    |a| == |b| && forall i :: 0 <= i < |a| ==> SameLetter(a[i], b[i])
  }

  lemma LowerIgnoresCase(a: string, b: string)
    ensures Lower(a) == Lower(b) <==> EqualIgnoringCase(a, b)
  {
    if Lower(a) == Lower(b) {
      assert |Lower(a)| == |Lower(b)|;
      forall i | 0 <= i < |a| ensures SameLetter(a[i], b[i]) {
        assert Lower(a)[i] == Lower(b)[i];
      }
    }
  }

  /** Two step ids share a receipt exactly when they are the same UUID. */
  lemma KeysIdentifySteps(a: string, b: string)
    requires IsUuid(a) && IsUuid(b)
    ensures StepEffectKey(a) == StepEffectKey(b) <==> EqualIgnoringCase(a, b)
  {
    var ka, kb := StepEffectKey(a).value, StepEffectKey(b).value;
    if ka == kb {
      assert Lower(a) == ka[5..41] && Lower(b) == kb[5..41];
    }
    LowerIgnoresCase(a, b);
  }

  predicate HexDigits(s: string, n: nat) {
    |s| == n && forall i :: 0 <= i < n ==> IsHex(s[i])
  }

  /** The pattern read as five groups. */
  lemma UuidIsFiveGroups(s: string)
    ensures IsUuid(s) <==>
            exists a, b, c, d, e :: HexDigits(a, 8) && HexDigits(b, 4) && HexDigits(c, 4) && HexDigits(d, 4) && HexDigits(e, 12)
                                    && s == a + "-" + b + "-" + c + "-" + d + "-" + e
  {
    if IsUuid(s) {
      var a, b, c, d, e := s[..8], s[9..13], s[14..18], s[19..23], s[24..];
      assert HexDigits(a, 8) && HexDigits(b, 4) && HexDigits(c, 4) && HexDigits(d, 4) && HexDigits(e, 12);
      assert s == a + "-" + b + "-" + c + "-" + d + "-" + e;
    }
  }

  /** The key: fixed ends, and between them the id with no capital in it. Anything else has none. */
  lemma KeyText(stepId: string)
    ensures StepEffectKey(stepId).Some? <==> IsUuid(stepId)
    ensures StepEffectKey(stepId).Some? ==>
              var key := StepEffectKey(stepId).value;
              && |key| == 54 && key[..5] == "step:" && key[41..] == ":demo_receipt"
              && EqualIgnoringCase(key[5..41], stepId) && forall i :: 5 <= i < 41 ==> !('A' <= key[i] <= 'Z')
  {
    if IsUuid(stepId) {
      var key := StepEffectKey(stepId).value;
      assert key[5..41] == Lower(stepId);
      forall i | 5 <= i < 41 ensures !('A' <= key[i] <= 'Z') {
        assert key[i] == Lower(stepId)[i - 5];
      }
    }
  }

  // ---------------------------------------------------------------- what one execution asks for

  datatype EffectPayload = EffectPayload(value: string, delayAfterEffectMs: int)

  function ParseIdempotentEffectPayload(payload: Json): Option<EffectPayload> {
    if && payload.JObject? && "idempotencyKey" !in payload.fields
       && "value" in payload.fields && payload.fields["value"].JText? && payload.fields["value"].text != ""
       && "delayAfterEffectMs" in payload.fields && payload.fields["delayAfterEffectMs"].JNumber?
       && 0 <= payload.fields["delayAfterEffectMs"].number <= MAX_TASK_DELAY_MS
    then Some(EffectPayload(payload.fields["value"].text, payload.fields["delayAfterEffectMs"].number))
    else None
  }

  /** The request of one execution, or None when its input is invalid. */
  function RequestOf(stepId: string, payload: Json): Option<EffectRequest> {
    match (ParseIdempotentEffectPayload(payload), StepEffectKey(stepId))
    case (Some(p), Some(key)) =>
      Some(EffectRequest(key, DEMO_EFFECT_TYPE, JObject(map["stepId" := JText(Lower(stepId)), "value" := JText(p.value)])))
    case _ => None
  }

  /** A text value that is not empty, a delay from 0 to 60 000 ms, and no key of the payload's own. */
  ghost predicate AcceptedPayload(payload: Json) {
    && payload.JObject?
    && (exists text :: HasField(payload, "value", JText(text)) && text != "")
    && (exists delay :: HasField(payload, "delayAfterEffectMs", JNumber(delay)) && 0 <= delay <= 60000)
    && "idempotencyKey" !in payload.fields
  }

  /** The payloads that are executed, and what is taken from them. */
  lemma PayloadIsAcceptedIff(payload: Json)
    ensures ParseIdempotentEffectPayload(payload).Some? <==> AcceptedPayload(payload)
    ensures ParseIdempotentEffectPayload(payload).Some? ==>
              var p := ParseIdempotentEffectPayload(payload).value;
              && HasField(payload, "value", JText(p.value)) && HasField(payload, "delayAfterEffectMs", JNumber(p.delayAfterEffectMs))
  {
    if ParseIdempotentEffectPayload(payload).Some? {
      var p := ParseIdempotentEffectPayload(payload).value;
      assert HasField(payload, "value", JText(p.value)) && HasField(payload, "delayAfterEffectMs", JNumber(p.delayAfterEffectMs));
    }
  }

  /** The request: only for an accepted payload and a UUID; of the one effect type; the step's id in lower case and the payload's value, no more. */
  lemma RequestCarries(stepId: string, payload: Json)
    ensures RequestOf(stepId, payload).Some? <==> AcceptedPayload(payload) && IsUuid(stepId)
    ensures RequestOf(stepId, payload).Some? ==>
              var r := RequestOf(stepId, payload).value;
              && StepEffectKey(stepId) == Some(r.idempotencyKey) && r.effectType == "demo_receipt"
              && r.request.JObject? && r.request.fields.Keys == {"stepId", "value"}
              && HasField(r.request, "stepId", JText(r.idempotencyKey[5..41]))
              && (forall value :: HasField(r.request, "value", value) <==> HasField(payload, "value", value))
  {
    PayloadIsAcceptedIff(payload);
    if RequestOf(stepId, payload).Some? {
      assert RequestOf(stepId, payload).value.idempotencyKey[5..41] == Lower(stepId);
    }
  }

  /** However the id is spelled, the request is the same, and the store does not refuse its key. */
  lemma RequestIgnoresSpelling(a: string, b: string, payload: Json)
    requires EqualIgnoringCase(a, b) && IsUuid(a) && IsUuid(b)
    ensures RequestOf(a, payload) == RequestOf(b, payload)
    ensures RequestOf(a, payload).Some? ==> ValidRequest(RequestOf(a, payload).value)
  {
    LowerIgnoresCase(a, b);
    if RequestOf(a, payload).Some? {
      var r := RequestOf(a, payload).value;
      assert r.idempotencyKey[0] == 's' && !IsSpace(r.idempotencyKey[0]);
      assert r.effectType[0] == 'd' && !IsSpace(r.effectType[0]);
    }
  }

  // ---------------------------------------------------------------- the composed machine

  datatype World = World(db: P.Db, store: Store, executions: map<CallId, StepId>)

  datatype Action =
    | Steps(action: P.Action)
    | Execute(call: CallId, id: StepId, spelling: string, effectId: string)
    | Effects(effect: EffectStore.Action)
    | Report(tx: TxId, worker: WorkerId, version: int, call: CallId)    // complete with what the call returned

  predicate IsEffectStep(rows: map<StepId, Row>, id: StepId) {
    id in rows && rows[id].taskType == IDEMPOTENT_EFFECT
  }

  /** Completing an idempotent_effect step with a result that no execution of it returned. */
  predicate Invents(w: World, a: P.Action) {
    a.Begin? && a.job.OwnerWrite? && a.job.op.Complete? && (a.job.id !in w.db.rows || IsEffectStep(w.db.rows, a.job.id))
  }

  function ReportJob(w: World, worker: WorkerId, version: int, call: CallId): Option<P.Job> {
    if && call in w.executions && call in w.store.calls && w.store.calls[call].phase.Returned?
       && w.store.calls[call].phase.outcome.Success?
    then Some(P.OwnerWrite(w.executions[call], Complete(worker, version, w.store.calls[call].phase.outcome.result)))
    else None
  }

  /** `names` gives each step its UUID; a worker may hold any spelling of it. */
  ghost function WorldStep(names: map<StepId, string>, w: World, a: Action): World {
    match a
    case Steps(action) => if Invents(w, action) then w else w.(db := P.Step(w.db, action))
    case Execute(call, id, spelling, effectId) =>
      if && IsEffectStep(w.db.rows, id) && id in names && EqualIgnoringCase(spelling, names[id]) && IsUuid(spelling)
         && call !in w.store.calls && RequestOf(spelling, w.db.rows[id].payload).Some?
      then w.(store := EffectStore.Step(w.store, Invoke(call, RequestOf(spelling, w.db.rows[id].payload).value, effectId)),
              executions := w.executions[call := id])
      else w
    case Effects(effect) => if effect.Invoke? then w else w.(store := EffectStore.Step(w.store, effect))
    case Report(tx, worker, version, call) =>
      match ReportJob(w, worker, version, call)
      case None => w
      case Some(job) => w.(db := P.Step(w.db, P.Begin(tx, job)))
  }

  ghost function WorldRun(names: map<StepId, string>, w: World, actions: seq<Action>): World {
    if actions == [] then w
    else WorldStep(names, WorldRun(names, w, actions[..|actions| - 1]), actions[|actions| - 1])
  }

  function StartWorld(rows: map<StepId, Row>, clock: Instant): World {
    World(P.Start(rows, clock), EMPTY, map[])
  }

  /** UUIDs, no two of which are the same one. */
  ghost predicate GoodNames(names: map<StepId, string>) {
    && (forall id :: id in names ==> IsUuid(names[id]))
    && (forall i, j :: i in names && j in names && EqualIgnoringCase(names[i], names[j]) ==> i == j)
  }

  // ---------------------------------------------------------------- the invariant

  /** The receipt of the step exists and this is its result. */
  ghost predicate HasReceipt(names: map<StepId, string>, store: Store, id: StepId, result: Json) {
    && id in names && StepEffectKey(names[id]).Some?
    && StepEffectKey(names[id]).value in store.table
    && store.table[StepEffectKey(names[id]).value].result == result
  }

  /** The call asks what its step's row asked for when it was inserted. */
  ghost predicate AsksForStep(names: map<StepId, string>, rows: map<StepId, Row>, w: World, call: CallId)
    requires call in w.store.calls
  {
    && call in w.executions
    && var id := w.executions[call];
       && id in names && IsEffectStep(rows, id)
       && RequestOf(names[id], rows[id].payload) == Some(w.store.calls[call].request)
  }

  ghost predicate CallsAsk(names: map<StepId, string>, rows: map<StepId, Row>, w: World) {
    forall call {:trigger AsksForStep(names, rows, w, call)} :: call in w.store.calls ==> AsksForStep(names, rows, w, call)
  }

  predicate CompletesEffect(rows: map<StepId, Row>, job: P.Job) {
    job.OwnerWrite? && job.op.Complete? && IsEffectStep(rows, job.id)
  }

  ghost predicate TxHonest(names: map<StepId, string>, rows: map<StepId, Row>, w: World, tx: TxId)
    requires tx in w.db.txs
  {
    CompletesEffect(rows, w.db.txs[tx].job) ==>
      HasReceipt(names, w.store, w.db.txs[tx].job.id, w.db.txs[tx].job.op.result)
  }

  ghost predicate TxsHonest(names: map<StepId, string>, rows: map<StepId, Row>, w: World) {
    forall tx {:trigger TxHonest(names, rows, w, tx)} :: tx in w.db.txs ==> TxHonest(names, rows, w, tx)
  }

  ghost predicate EntryHonest(names: map<StepId, string>, rows: map<StepId, Row>, w: World, e: Entry) {
    e.op.Complete? && IsEffectStep(rows, e.id) ==> HasReceipt(names, w.store, e.id, e.op.result)
  }

  ghost predicate HistoryHonest(names: map<StepId, string>, rows: map<StepId, Row>, w: World) {
    forall k {:trigger w.db.history[k]} :: 0 <= k < |w.db.history| ==> EntryHonest(names, rows, w, w.db.history[k])
  }

  /** Committed rows keep the columns an execution reads. */
  ghost predicate ColumnsKept(rows: map<StepId, Row>, db: P.Db) {
    && db.rows.Keys == rows.Keys
    && forall id :: id in rows ==> db.rows[id].taskType == rows[id].taskType && db.rows[id].payload == rows[id].payload
  }

  ghost predicate WorldInv(names: map<StepId, string>, rows: map<StepId, Row>, w: World) {
    && PI.Inv(rows, w.db) && EffectStore.Inv(w.store) && ColumnsKept(rows, w.db)
    && CallsAsk(names, rows, w) && RowsTell(w.store) && TxsHonest(names, rows, w) && HistoryHonest(names, rows, w)
  }

  // ---------------------------------------------------------------- its preservation

  lemma HonestyStays(names: map<StepId, string>, rows: map<StepId, Row>, w: World, w': World)
    requires Grows(w.store, w'.store) && w'.db == w.db
    requires TxsHonest(names, rows, w) && HistoryHonest(names, rows, w)
    ensures TxsHonest(names, rows, w') && HistoryHonest(names, rows, w')
  {
    forall tx | tx in w'.db.txs ensures TxHonest(names, rows, w', tx) {
      assert TxHonest(names, rows, w, tx);
    }
    forall k | 0 <= k < |w'.db.history| ensures EntryHonest(names, rows, w', w'.db.history[k]) {
      assert EntryHonest(names, rows, w, w.db.history[k]);
    }
  }

  /** An effect action other than a new call asks nothing new. */
  lemma CallsStayAsked(names: map<StepId, string>, rows: map<StepId, Row>, w: World, a: EffectStore.Action, call: CallId)
    requires CallsAsk(names, rows, w) && !a.Invoke? && call in EffectStore.Step(w.store, a).calls
    ensures AsksForStep(names, rows, w.(store := EffectStore.Step(w.store, a)), call)
  {
    assert call in w.store.calls;
    EffectStore.RequestsStay(w.store, a, call);
    assert AsksForStep(names, rows, w, call);
  }

  lemma EffectsKeep(names: map<StepId, string>, rows: map<StepId, Row>, w: World, a: EffectStore.Action)
    requires WorldInv(names, rows, w) && !a.Invoke?
    ensures WorldInv(names, rows, w.(store := EffectStore.Step(w.store, a)))
  {
    var w' := w.(store := EffectStore.Step(w.store, a));
    EffectStore.StepKeeps(w.store, a);
    StepKeepsRows(w.store, a);
    HonestyStays(names, rows, w, w');
    forall call | call in w'.store.calls ensures AsksForStep(names, rows, w', call) {
      CallsStayAsked(names, rows, w, a, call);
    }
  }

  lemma ExecuteKeeps(names: map<StepId, string>, rows: map<StepId, Row>, w: World, a: Action)
    requires WorldInv(names, rows, w) && a.Execute? && GoodNames(names)
    ensures WorldInv(names, rows, WorldStep(names, w, a))
  {
    var w' := WorldStep(names, w, a);
    if w' != w {
      var r := RequestOf(a.spelling, w.db.rows[a.id].payload).value;
      var invoke := Invoke(a.call, r, a.effectId);
      EffectStore.StepKeeps(w.store, invoke);
      StepKeepsRows(w.store, invoke);
      HonestyStays(names, rows, w, w');
      RequestIgnoresSpelling(a.spelling, names[a.id], rows[a.id].payload);
      forall call | call in w'.store.calls ensures AsksForStep(names, rows, w', call) {
        if call != a.call { assert AsksForStep(names, rows, w, call); }
      }
    }
  }

  /** A protocol action that keeps every transaction's job truthful keeps the world truthful. */
  lemma StepsKeep(names: map<StepId, string>, rows: map<StepId, Row>, w: World, a: P.Action)
    requires WorldInv(names, rows, w)
    requires a.Begin? && CompletesEffect(rows, a.job) ==> HasReceipt(names, w.store, a.job.id, a.job.op.result)
    ensures WorldInv(names, rows, w.(db := P.Step(w.db, a)))
  {
    var w' := w.(db := P.Step(w.db, a));
    PI.StepKeeps(rows, w.db, a);
    InvKeepsColumns(rows, w'.db);
    forall call | call in w'.store.calls ensures AsksForStep(names, rows, w', call) {
      assert AsksForStep(names, rows, w, call);
    }
    forall tx | tx in w'.db.txs ensures TxHonest(names, rows, w', tx) {
      JobsStay(w.db, a, tx);
      if tx in w.db.txs { assert TxHonest(names, rows, w, tx); }
    }
    StepsKeepHistory(names, rows, w, a);
  }

  lemma StepsKeepHistory(names: map<StepId, string>, rows: map<StepId, Row>, w: World, a: P.Action)
    requires PI.TxsOk(w.db) && TxsHonest(names, rows, w) && HistoryHonest(names, rows, w)
    ensures HistoryHonest(names, rows, w.(db := P.Step(w.db, a)))
  {
    var w' := w.(db := P.Step(w.db, a));
    RT.StepGrows(w.db, a);
    forall k | 0 <= k < |w'.db.history| ensures EntryHonest(names, rows, w', w'.db.history[k]) {
      var e := w'.db.history[k];
      if k < |w.db.history| {
        assert e == w.db.history[k];
        assert EntryHonest(names, rows, w, w.db.history[k]);
      } else {
        RT.NewEntriesAreRecorded(w.db, a, k);
        StagedIsTheJob(w.db, a.tx, k - |w.db.history|);
        assert TxHonest(names, rows, w, a.tx);
      }
    }
  }

  lemma StagedIsTheJob(s: P.Db, tx: TxId, i: nat)
    requires tx in s.txs && PI.TxOk(s, tx) && i < |s.txs[tx].staged|
    ensures var e, job := s.txs[tx].staged[i], s.txs[tx].job;
      e.op.Complete? ==> job == P.OwnerWrite(e.id, e.op)
  {
  }

  lemma JobsStay(s: P.Db, a: P.Action, tx: TxId)
    requires tx in P.Step(s, a).txs
    ensures tx in s.txs ==> P.Step(s, a).txs[tx].job == s.txs[tx].job
    ensures tx !in s.txs ==> a.Begin? && P.Step(s, a).txs[tx].job == a.job
  {
  }

  lemma InvKeepsColumns(rows: map<StepId, Row>, s: P.Db)
    requires PI.Inv(rows, s)
    ensures ColumnsKept(rows, s)
  {
    forall id | id in rows ensures s.rows[id].taskType == rows[id].taskType && s.rows[id].payload == rows[id].payload {
      var tr := P.Trace(s.history, id);
      ConstantColumns(rows[id], tr, |tr|);
    }
  }

  lemma ReportIsTruthful(names: map<StepId, string>, rows: map<StepId, Row>, w: World, worker: WorkerId, version: int, call: CallId)
    requires WorldInv(names, rows, w) && ReportJob(w, worker, version, call).Some?
    ensures var job := ReportJob(w, worker, version, call).value; HasReceipt(names, w.store, job.id, job.op.result)
  {
    assert AsksForStep(names, rows, w, call) && CallOk(w.store, call);
  }

  lemma WorldKeeps(names: map<StepId, string>, rows: map<StepId, Row>, w: World, a: Action)
    requires WorldInv(names, rows, w) && GoodNames(names)
    ensures WorldInv(names, rows, WorldStep(names, w, a))
  {
    match a
    case Steps(action) => if !Invents(w, action) { StepsKeep(names, rows, w, action); }
    case Execute(_, _, _, _) => ExecuteKeeps(names, rows, w, a);
    case Effects(effect) => if !effect.Invoke? { EffectsKeep(names, rows, w, effect); }
    case Report(tx, worker, version, call) =>
      if ReportJob(w, worker, version, call).Some? {
        ReportIsTruthful(names, rows, w, worker, version, call);
        StepsKeep(names, rows, w, P.Begin(tx, ReportJob(w, worker, version, call).value));
      }
  }

  lemma {:induction false} WorldRunKeeps(names: map<StepId, string>, rows: map<StepId, Row>, clock: Instant, actions: seq<Action>)
    requires GoodNames(names)
    ensures WorldInv(names, rows, WorldRun(names, StartWorld(rows, clock), actions))
  {
    if actions == [] {
      PI.RunKeeps(rows, clock, []);
    } else {
      var n := |actions| - 1;
      WorldRunKeeps(names, rows, clock, actions[..n]);
      WorldKeeps(names, rows, WorldRun(names, StartWorld(rows, clock), actions[..n]), actions[n]);
    }
  }

  // ---------------------------------------------------------------- one receipt across generations

  /** Two requests made for one key were made for one step, and are the same request. */
  lemma SameKeySameRequest(names: map<StepId, string>, rows: map<StepId, Row>, w: World, a: CallId, b: CallId)
    requires WorldInv(names, rows, w) && GoodNames(names) && a in w.store.calls && b in w.store.calls
    requires w.store.calls[a].request.idempotencyKey == w.store.calls[b].request.idempotencyKey
    ensures a in w.executions && b in w.executions && w.executions[a] == w.executions[b]
    ensures w.store.calls[a].request == w.store.calls[b].request
  {
    assert AsksForStep(names, rows, w, a) && AsksForStep(names, rows, w, b);
    KeysIdentifySteps(names[w.executions[a]], names[w.executions[b]]);
  }

  /** What a receipt holds: an identifier, and the value of the step's own payload. */
  lemma ReceiptTellsPayload(names: map<StepId, string>, rows: map<StepId, Row>, w: World, id: StepId, result: Json)
    requires GoodNames(names) && WorldInv(names, rows, w) && HasReceipt(names, w.store, id, result)
    ensures IsEffectStep(rows, id)
    ensures exists effectId :: HasField(result, "effectId", JText(effectId))
    ensures forall value :: HasField(result, "value", value) <==> HasField(rows[id].payload, "value", value)
  {
    var key := StepEffectKey(names[id]).value;
    assert RowTells(w.store, key);
    var call := w.store.applier[key];
    assert AsksForStep(names, rows, w, call);
    var asker := w.executions[call];
    KeysIdentifySteps(names[id], names[asker]);
    RequestCarries(names[id], rows[id].payload);
  }

  lemma ReturnsTheReceipt(names: map<StepId, string>, rows: map<StepId, Row>, w: World, call: CallId)
    requires GoodNames(names) && WorldInv(names, rows, w) && call in w.store.calls && w.store.calls[call].phase.Returned?
    ensures w.store.calls[call].phase.outcome.Success?
    ensures call in w.executions && HasReceipt(names, w.store, w.executions[call], w.store.calls[call].phase.outcome.result)
  {
    var c := w.store.calls[call];
    assert AsksForStep(names, rows, w, call) && CallOk(w.store, call);
    var id := w.executions[call];
    RequestIgnoresSpelling(names[id], names[id], rows[id].payload);
    assert ValidRequest(c.request);
    var key := c.request.idempotencyKey;
    assert key in w.store.table && RowTells(w.store, key);
    SameKeySameRequest(names, rows, w, call, w.store.applier[key]);
  }

  /**
   * Over any number of crashes, recoveries, retries and stale executions: a call of a step that
   * returns never reports a conflict or any other error, and what it returns is the step's one receipt.
   */
  lemma NoExecutionConflicts(names: map<StepId, string>, rows: map<StepId, Row>, clock: Instant, actions: seq<Action>, call: CallId)
    requires GoodNames(names)
    requires var w := WorldRun(names, StartWorld(rows, clock), actions);
      call in w.store.calls && w.store.calls[call].phase.Returned?
    ensures var w := WorldRun(names, StartWorld(rows, clock), actions); var outcome := w.store.calls[call].phase.outcome;
      && outcome.Success?
      && call in w.executions && HasReceipt(names, w.store, w.executions[call], outcome.result)
      && w.executions[call] in rows
      && forall value :: HasField(outcome.result, "value", value) <==> HasField(rows[w.executions[call]].payload, "value", value)
  {
    WorldRunKeeps(names, rows, clock, actions);
    var w := WorldRun(names, StartWorld(rows, clock), actions);
    ReturnsTheReceipt(names, rows, w, call);
    ReceiptTellsPayload(names, rows, w, w.executions[call], w.store.calls[call].phase.outcome.result);
  }

  /** Of all executions of a step, across all its generations, at most one is told that it applied the effect. */
  lemma OneApplicationPerStep(names: map<StepId, string>, rows: map<StepId, Row>, clock: Instant, actions: seq<Action>, a: CallId, b: CallId)
    requires GoodNames(names)
    requires var w := WorldRun(names, StartWorld(rows, clock), actions);
      && a in w.store.calls && b in w.store.calls && a in w.executions && b in w.executions
      && w.executions[a] == w.executions[b]
      && w.store.calls[a].phase.Returned? && w.store.calls[b].phase.Returned?
      && w.store.calls[a].phase.outcome.Success? && w.store.calls[b].phase.outcome.Success?
      && w.store.calls[a].phase.outcome.applied && w.store.calls[b].phase.outcome.applied
    ensures a == b
  {
    WorldRunKeeps(names, rows, clock, actions);
    var w := WorldRun(names, StartWorld(rows, clock), actions);
    assert AsksForStep(names, rows, w, a) && AsksForStep(names, rows, w, b);
    assert CallOk(w.store, a) && CallOk(w.store, b);
  }

  /** Executions of two steps never share a receipt; executions of one step always do. */
  lemma ReceiptsAreSeparate(names: map<StepId, string>, i: StepId, j: StepId)
    requires GoodNames(names) && i in names && j in names
    ensures StepEffectKey(names[i]).Some?
    ensures StepEffectKey(names[i]) == StepEffectKey(names[j]) <==> i == j
  {
    KeysIdentifySteps(names[i], names[j]);
  }

  lemma {:induction false} WorldReceiptsStay(names: map<StepId, string>, rows: map<StepId, Row>, w: World, more: seq<Action>,
                                             id: StepId, result: Json)
    requires GoodNames(names) && WorldInv(names, rows, w) && HasReceipt(names, w.store, id, result)
    ensures WorldInv(names, rows, WorldRun(names, w, more)) && HasReceipt(names, WorldRun(names, w, more).store, id, result)
  {
    if more != [] {
      var n := |more| - 1;
      WorldReceiptsStay(names, rows, w, more[..n], id, result);
      var v := WorldRun(names, w, more[..n]);
      WorldKeeps(names, rows, v, more[n]);
      StoreGrows(names, v, more[n]);
    }
  }

  lemma StoreGrows(names: map<StepId, string>, w: World, a: Action)
    requires EffectStore.Inv(w.store)
    ensures Grows(w.store, WorldStep(names, w, a).store)
  {
    if a.Effects? {
      EffectStore.StepKeeps(w.store, a.effect);
    } else if a.Execute? && WorldStep(names, w, a).store != w.store {
      EffectStore.StepKeeps(w.store, Invoke(a.call, RequestOf(a.spelling, w.db.rows[a.id].payload).value, a.effectId));
    }
  }

  /** A receipt once returned is what every later execution of the step returns. */
  lemma ReceiptNeverChanges(names: map<StepId, string>, rows: map<StepId, Row>, w: World, more: seq<Action>, a: CallId, b: CallId)
    requires GoodNames(names) && WorldInv(names, rows, w)
    requires a in w.store.calls && w.store.calls[a].phase.Returned? && w.store.calls[a].phase.outcome.Success?
    requires var w' := WorldRun(names, w, more);
      b in w'.store.calls && w'.store.calls[b].phase.Returned? && w'.store.calls[b].phase.outcome.Success?
      && a in w.executions && b in w'.executions && w'.executions[b] == w.executions[a]
    ensures WorldRun(names, w, more).store.calls[b].phase.outcome.result == w.store.calls[a].phase.outcome.result
  {
    ReturnsTheReceipt(names, rows, w, a);
    WorldReceiptsStay(names, rows, w, more, w.executions[a], w.store.calls[a].phase.outcome.result);
    ReturnsTheReceipt(names, rows, WorldRun(names, w, more), b);
  }

  // ---------------------------------------------------------------- nothing keeps an execution from going through

  /** Whoever executes a step with an accepted payload makes the call for it; a new call is valid and yet to be made. */
  lemma ExecutionMakesItsCall(names: map<StepId, string>, rows: map<StepId, Row>, w: World, call: CallId, id: StepId,
                              spelling: string, effectId: string)
    requires GoodNames(names) && WorldInv(names, rows, w) && IsEffectStep(rows, id) && AcceptedPayload(rows[id].payload)
    requires id in names && EqualIgnoringCase(spelling, names[id]) && IsUuid(spelling) && call !in w.store.calls
    ensures var w' := WorldStep(names, w, Execute(call, id, spelling, effectId));
      && call in w'.store.calls && call in w'.executions && w'.executions[call] == id && w'.db == w.db
      && w'.store.calls[call] == Call(RequestOf(names[id], rows[id].payload).value, effectId, Called)
  {
    RequestCarries(spelling, rows[id].payload);
    RequestIgnoresSpelling(spelling, names[id], rows[id].payload);
  }

  /** An execution that has returned can report the step complete with exactly what it returned. */
  lemma ReturnedCallReports(names: map<StepId, string>, rows: map<StepId, Row>, w: World, tx: TxId, worker: WorkerId, version: int, call: CallId)
    requires GoodNames(names) && WorldInv(names, rows, w) && tx !in w.db.txs
    requires call in w.store.calls && w.store.calls[call].phase.Returned?
    ensures var w' := WorldStep(names, w, Report(tx, worker, version, call));
      && w.store.calls[call].phase.outcome.Success? && call in w.executions && tx in w'.db.txs
      && w'.db.txs[tx].job == P.OwnerWrite(w.executions[call], Complete(worker, version, w.store.calls[call].phase.outcome.result))
  {
    ReturnsTheReceipt(names, rows, w, call);
  }

  /** Every other action of either half is free to happen, but for completing an effect step with an invented result. */
  lemma TheRestIsFree(names: map<StepId, string>, w: World, step: P.Action, effect: EffectStore.Action)
    ensures !Invents(w, step) ==> WorldStep(names, w, Steps(step)).db == P.Step(w.db, step)
    ensures !effect.Invoke? ==> WorldStep(names, w, Effects(effect)).store == EffectStore.Step(w.store, effect)
    ensures Invents(w, step) ==> step.Begin? && step.job.OwnerWrite? && step.job.op.Complete?
                                 && (step.job.id !in w.db.rows || w.db.rows[step.job.id].taskType == "idempotent_effect")
  {
  }

  // ---------------------------------------------------------------- the step's result is its receipt's

  /** A row that has become SUCCEEDED was completed, with the result it now shows. */
  lemma SucceededWasCompleted(row0: Row, tr: seq<Entry>)
    requires Chain(row0, tr) && row0.status != Succeeded && RowAt(row0, tr, |tr|).status == Succeeded
    ensures tr != [] && tr[|tr| - 1].op.Complete?
    ensures RowAt(row0, tr, |tr|).result == Some(tr[|tr| - 1].op.result)
  {
    assert Link(row0, tr, |tr| - 1);
  }

  lemma SucceededShowsItsReceipt(names: map<StepId, string>, rows: map<StepId, Row>, clock: Instant, actions: seq<Action>, id: StepId)
    requires GoodNames(names) && IsEffectStep(rows, id) && rows[id].status != Succeeded
    requires var w := WorldRun(names, StartWorld(rows, clock), actions); id in w.db.rows && w.db.rows[id].status == Succeeded
    ensures var w := WorldRun(names, StartWorld(rows, clock), actions);
      && w.db.rows[id].result.Some? && HasReceipt(names, w.store, id, w.db.rows[id].result.value)
      && (exists effectId :: HasField(w.db.rows[id].result.value, "effectId", JText(effectId)))
      && forall value :: HasField(w.db.rows[id].result.value, "value", value) <==> HasField(rows[id].payload, "value", value)
  {
    WorldRunKeeps(names, rows, clock, actions);
    var w := WorldRun(names, StartWorld(rows, clock), actions);
    var tr := P.Trace(w.db.history, id);
    SucceededWasCompleted(rows[id], tr);
    PI.TraceMembers(w.db.history, id);
    var k :| 0 <= k < |w.db.history| && w.db.history[k] == tr[|tr| - 1];
    assert EntryHonest(names, rows, w, w.db.history[k]);
    ReceiptTellsPayload(names, rows, w, id, w.db.rows[id].result.value);
  }

  // ---------------------------------------------------------------- nothing new in either half

  /** Seen from either side, a run of the composition is a run of that side alone. */
  lemma {:induction false} WorldProjects(names: map<StepId, string>, rows: map<StepId, Row>, clock: Instant, actions: seq<Action>)
    returns (steps: seq<P.Action>, effects: seq<EffectStore.Action>)
    ensures var w := WorldRun(names, StartWorld(rows, clock), actions);
      w.db == P.Run(P.Start(rows, clock), steps) && w.store == EffectStore.Run(EMPTY, effects)
  {
    steps, effects := [], [];
    if actions != [] {
      var n := |actions| - 1;
      var w := WorldRun(names, StartWorld(rows, clock), actions[..n]);
      steps, effects := WorldProjects(names, rows, clock, actions[..n]);
      var w' := WorldStep(names, w, actions[n]);
      if w'.db != w.db {
        steps := DbMove(names, w, actions[n], rows, clock, steps);
      }
      if w'.store != w.store {
        effects := StoreMove(names, w, actions[n], effects);
      }
    }
  }

  lemma DbMove(names: map<StepId, string>, w: World, a: Action, rows: map<StepId, Row>, clock: Instant, steps: seq<P.Action>)
    returns (more: seq<P.Action>)
    requires w.db == P.Run(P.Start(rows, clock), steps) && WorldStep(names, w, a).db != w.db
    ensures WorldStep(names, w, a).db == P.Run(P.Start(rows, clock), more)
  {
    var move := if a.Steps? then a.action else P.Begin(a.tx, ReportJob(w, a.worker, a.version, a.call).value);
    more := steps + [move];
    assert more[..|more| - 1] == steps;
  }

  lemma StoreMove(names: map<StepId, string>, w: World, a: Action, effects: seq<EffectStore.Action>)
    returns (more: seq<EffectStore.Action>)
    requires w.store == EffectStore.Run(EMPTY, effects) && WorldStep(names, w, a).store != w.store
    ensures WorldStep(names, w, a).store == EffectStore.Run(EMPTY, more)
  {
    var move := if a.Effects? then a.effect
                else Invoke(a.call, RequestOf(a.spelling, w.db.rows[a.id].payload).value, a.effectId);
    EffectStore.RunSnoc(EMPTY, effects, move);
    more := effects + [move];
  }
}
