/** The effect table changed in place, and applyIdempotentEffect over it, statement by statement. */
module EffectCalls {
  import opened Base
  import opened EffectStore

  class EffectTable {
    var table: map<string, Effect>
    var pending: map<string, CallId>
    var calls: map<CallId, Call>
    var applier: map<string, CallId>
    var points: seq<Point>

    ghost function View(): Store reads this {
      Store(table, pending, calls, applier, points)
    }

    ghost predicate Valid() reads this {
      EffectStore.Inv(View()) && RowsTell(View())
    }

    constructor ()
      ensures View() == EMPTY && Valid()
    {
      table, pending, calls, applier, points := map[], map[], map[], map[], [];
    }

    method SetPhase(call: CallId, phase: Phase)
      requires call in calls
      modifies this`calls
      ensures View() == EffectStore.SetPhase(old(View()), call, phase)
    {
      calls := calls[call := calls[call].(phase := phase)];
    }

    method Invoke(call: CallId, request: EffectRequest, effectId: string)
      requires Valid()
      modifies this
      ensures Valid() && View() == Step(old(View()), Action.Invoke(call, request, effectId))
    {
      StepKeepsAll(View(), Action.Invoke(call, request, effectId));
      if call !in calls {
        calls := calls[call := Call(request, effectId, if ValidRequest(request) then Called else Returned(Invalid))];
      }
    }

    /** The insert's key meets the primary key index: occupied, taken by a running insert, or free. */
    method Resolve(call: CallId, at: Instant)
      requires Valid()
      modifies this
      ensures Valid() && View() == Step(old(View()), Action.Resolve(call, at))
    {
      StepKeepsAll(View(), Action.Resolve(call, at));
      if call in calls && calls[call].phase.Inserting? {
        var key := calls[call].request.idempotencyKey;
        if key in table {
          SetPhase(call, Reading);
        } else if key !in pending {
          SetPhase(call, Inserted(NewRow(calls[call], at)));
          pending := pending[key := call];
        }
      }
    }

    method CommitInsert(call: CallId)
      requires Valid()
      modifies this
      ensures Valid() && View() == Step(old(View()), Action.CommitInsert(call))
    {
      StepKeepsAll(View(), Action.CommitInsert(call));
      if call in calls && calls[call].phase.Inserted? {
        var key, row := calls[call].request.idempotencyKey, calls[call].phase.row;
        points := points + [Point(call, calls[call].request, calls[call].effectId, row.createdAt,
                                  Success(true, row.result, row.createdAt))];
        SetPhase(call, Durable(row));
        table, pending, applier := table[key := row], pending - {key}, applier[key := call];
      }
    }

    /** The second statement: whatever its fresh snapshot shows under the key, compared with this request. */
    method Read(call: CallId)
      requires Valid()
      modifies this
      ensures Valid() && View() == Step(old(View()), Action.Read(call))
    {
      StepKeepsAll(View(), Action.Read(call));
      if call in calls && calls[call].phase.Reading? {
        var r := calls[call].request;
        if r.idempotencyKey !in table {
          SetPhase(call, Returned(EffectState));
        } else {
          var outcome := Existing(table[r.idempotencyKey], r);
          points := points + [Point(call, r, calls[call].effectId, 0, outcome)];
          SetPhase(call, Returned(outcome));
        }
      }
    }

    method Die(call: CallId)
      requires Valid()
      modifies this
      ensures Valid() && View() == Step(old(View()), Action.Die(call))
    {
      StepKeepsAll(View(), Action.Die(call));
      if call in calls && !calls[call].phase.Returned? {
        if calls[call].phase.Inserted? {
          pending := pending - {calls[call].request.idempotencyKey};
        }
        SetPhase(call, Gone);
      }
    }

    method Perform(a: Action)
      requires Valid()
      modifies this
      ensures Valid() && View() == Step(old(View()), a)
    {
      match a {
        case Invoke(call, request, effectId) => Invoke(call, request, effectId);
        case Resolve(call, at) => Resolve(call, at);
        case CommitInsert(call) => CommitInsert(call);
        case Read(call) => Read(call);
        case Die(call) => Die(call);
        case Snapshot(call) =>
          StepKeepsAll(View(), a);
          if call in calls && calls[call].phase.Called? {
            SetPhase(call, Inserting(table));
          }
        case Return(call) =>
          StepKeepsAll(View(), a);
          if call in calls && calls[call].phase.Durable? {
            var row := calls[call].phase.row;
            SetPhase(call, Returned(Success(true, row.result, row.createdAt)));
          }
      }
    }
  }

  // ---------------------------------------------------------------- one call among others

  predicate Spares(actions: seq<Action>, call: CallId) {
    forall i :: 0 <= i < |actions| ==> actions[i].call != call
  }

  method Do(db: EffectTable, a: Action, ghost start: Store, ghost script: seq<Action>) returns (ghost longer: seq<Action>)
    requires db.Valid() && db.View() == Run(start, script)
    modifies db
    ensures db.Valid() && db.View() == Step(old(db.View()), a)
    ensures longer == script + [a] && db.View() == Run(start, longer)
  {
    db.Perform(a);
    longer := script + [a];
    RunSnoc(start, script, a);
  }

  method Pause(db: EffectTable, actions: seq<Action>, call: CallId, ghost start: Store, ghost script: seq<Action>)
    returns (ghost longer: seq<Action>)
    requires db.Valid() && db.View() == Run(start, script) && Spares(actions, call) && call in db.calls
    modifies db
    ensures db.Valid() && db.View() == Run(start, longer) && script <= longer
    ensures call in db.calls && db.calls[call] == old(db.calls[call])
  {
    longer := script;
    for i := 0 to |actions|
      invariant db.Valid() && db.View() == Run(start, longer) && script <= longer
      invariant call in db.calls && db.calls[call] == old(db.calls[call])
    {
      StepFrame(db.View(), actions[i]);
      longer := Do(db, actions[i], start, longer);
    }
  }

  /** What others do around the statements; the insert looks again at its key after each of `waits`. */
  datatype Pauses = Pauses(beforeInsert: seq<Action>, waits: seq<seq<Action>>, beforeCommit: seq<Action>, beforeRead: seq<Action>)

  predicate PausesSpare(p: Pauses, call: CallId) {
    && Spares(p.beforeInsert, call) && Spares(p.beforeCommit, call) && Spares(p.beforeRead, call)
    && forall i :: 0 <= i < |p.waits| ==> Spares(p.waits[i], call)
  }

  /** Somebody else is inserting the key, and nobody has yet. */
  predicate Contended(s: Store, call: CallId, key: string) {
    key !in s.table && key in s.pending && s.pending[key] != call
  }

  /** The insert looked at its key after `before`, when somebody else was inserting it. */
  ghost predicate LookedInVain(start: Store, script: seq<Action>, call: CallId, key: string, at: Instant, before: seq<Action>) {
    before + [Resolve(call, at)] <= script && Contended(Run(start, before), call, key)
  }

  ghost predicate AllInVain(start: Store, script: seq<Action>, call: CallId, key: string, at: Instant, looks: seq<seq<Action>>) {
    forall n {:trigger LookedInVain(start, script, call, key, at, looks[n])} :: 0 <= n < |looks| ==>
      LookedInVain(start, script, call, key, at, looks[n])
  }

  /** Every look but the last met another insert, and the last did not. */
  ghost predicate LastSucceeds(start: Store, script: seq<Action>, call: CallId, key: string, at: Instant, looks: seq<seq<Action>>) {
    && looks != [] && AllInVain(start, script, call, key, at, looks[..|looks| - 1])
    && var last := looks[|looks| - 1];
       last + [Resolve(call, at)] <= script && !Contended(Run(start, last), call, key)
  }

  /** Whether the insert was let through: not while every look met another insert, and at once when one did not. */
  ghost predicate Outwaited(start: Store, script: seq<Action>, call: CallId, key: string, at: Instant,
                            waits: seq<seq<Action>>, looks: seq<seq<Action>>, through: bool) {
    if through then |looks| <= |waits| && LastSucceeds(start, script, call, key, at, looks)
    else |looks| == |waits| && AllInVain(start, script, call, key, at, looks)
  }

  lemma StillInVain(start: Store, script: seq<Action>, longer: seq<Action>, call: CallId, key: string, at: Instant, looks: seq<seq<Action>>)
    requires script <= longer && AllInVain(start, script, call, key, at, looks)
    ensures AllInVain(start, longer, call, key, at, looks)
  {
    forall n | 0 <= n < |looks| ensures LookedInVain(start, longer, call, key, at, looks[n]) {
      assert LookedInVain(start, script, call, key, at, looks[n]);
    }
  }

  lemma StillOutwaited(start: Store, script: seq<Action>, longer: seq<Action>, call: CallId, key: string, at: Instant,
                       waits: seq<seq<Action>>, looks: seq<seq<Action>>, through: bool)
    requires script <= longer && Outwaited(start, script, call, key, at, waits, looks, through)
    ensures Outwaited(start, longer, call, key, at, waits, looks, through)
  {
    StillInVain(start, script, longer, call, key, at, if through then looks[..|looks| - 1] else looks);
  }

  lemma OneMoreInVain(start: Store, script: seq<Action>, call: CallId, key: string, at: Instant, looks: seq<seq<Action>>, before: seq<Action>)
    requires AllInVain(start, script, call, key, at, looks) && LookedInVain(start, script, call, key, at, before)
    ensures AllInVain(start, script, call, key, at, looks + [before])
  {
    forall n | 0 <= n <= |looks| ensures LookedInVain(start, script, call, key, at, (looks + [before])[n]) {
      if n < |looks| { assert LookedInVain(start, script, call, key, at, looks[n]); }
    }
  }

  /** One look of the waiting insert at its key. */
  method Look(db: EffectTable, call: CallId, at: Instant, ghost start: Store, ghost script: seq<Action>) returns (ghost longer: seq<Action>)
    requires db.Valid() && db.View() == Run(start, script) && call in db.calls && db.calls[call].phase.Inserting?
    modifies db
    ensures db.Valid() && db.View() == Run(start, longer) && longer == script + [Resolve(call, at)]
    ensures call in db.calls && db.calls[call] == old(db.calls[call]).(phase := db.calls[call].phase)
    ensures var key := db.calls[call].request.idempotencyKey;
      && (db.calls[call].phase.Inserting? <==> Contended(old(db.View()), call, key))
      && (db.calls[call].phase.Reading? <==> key in old(db.table))
      && (db.calls[call].phase.Inserted? <==> key !in old(db.table) && !Contended(old(db.View()), call, key))
      && (db.calls[call].phase.Inserted? ==> db.calls[call].phase.row.createdAt == at)
  {
    OwnInsertIsElsewhere(db.View(), call);
    longer := Do(db, Resolve(call, at), start, script);
  }

  lemma OwnInsertIsElsewhere(s: Store, call: CallId)
    requires EffectStore.Inv(s) && call in s.calls && s.calls[call].phase.Inserting?
    ensures forall key :: key in s.pending ==> s.pending[key] != call && key !in s.table
  {
  }

  method WaitAndLook(db: EffectTable, call: CallId, at: Instant, wait: seq<Action>, ghost start: Store, ghost script: seq<Action>,
                     ghost looks: seq<seq<Action>>)
    returns (ghost longer: seq<Action>, ghost looks': seq<seq<Action>>)
    requires db.Valid() && db.View() == Run(start, script) && Spares(wait, call)
    requires call in db.calls && db.calls[call].phase.Inserting?
    requires AllInVain(start, script, call, db.calls[call].request.idempotencyKey, at, looks)
    modifies db
    ensures db.Valid() && db.View() == Run(start, longer) && |looks'| == |looks| + 1
    ensures call in db.calls && db.calls[call] == old(db.calls[call]).(phase := db.calls[call].phase)
    ensures var key := db.calls[call].request.idempotencyKey;
      if db.calls[call].phase.Inserting? then AllInVain(start, longer, call, key, at, looks')
      else LastSucceeds(start, longer, call, key, at, looks')
    ensures db.calls[call].phase.Inserting? || db.calls[call].phase.Reading?
            || (db.calls[call].phase.Inserted? && db.calls[call].phase.row.createdAt == at)
  {
    ghost var key := db.calls[call].request.idempotencyKey;
    ghost var before := Pause(db, wait, call, start, script);
    longer := Look(db, call, at, start, before);
    looks' := looks + [before];
    StillInVain(start, script, longer, call, key, at, looks);
    if db.calls[call].phase.Inserting? {
      OneMoreInVain(start, longer, call, key, at, looks, before);
    } else {
      assert looks'[..|looks'| - 1] == looks;
    }
  }

  /** `insert ... on conflict do nothing`, waiting out whoever is inserting the key. */
  method InsertStatement(db: EffectTable, call: CallId, at: Instant, waits: seq<seq<Action>>, ghost start: Store, ghost script: seq<Action>)
    returns (ghost longer: seq<Action>, ghost looks: seq<seq<Action>>)
    requires db.Valid() && db.View() == Run(start, script) && call in db.calls && db.calls[call].phase.Called?
    requires forall i :: 0 <= i < |waits| ==> Spares(waits[i], call)
    modifies db
    ensures db.Valid() && db.View() == Run(start, longer)
    ensures call in db.calls && db.calls[call] == old(db.calls[call]).(phase := db.calls[call].phase)
    ensures db.calls[call].phase.Inserting? || db.calls[call].phase.Reading?
            || (db.calls[call].phase.Inserted? && db.calls[call].phase.row.createdAt == at)
    ensures Outwaited(start, longer, call, db.calls[call].request.idempotencyKey, at, waits, looks, !db.calls[call].phase.Inserting?)
  {
    longer := Do(db, Snapshot(call), start, script);
    looks := [];
    for i := 0 to |waits|
      invariant db.Valid() && db.View() == Run(start, longer)
      invariant call in db.calls && db.calls[call] == old(db.calls[call]).(phase := db.calls[call].phase)
      invariant db.calls[call].phase.Inserting?
      invariant |looks| == i && AllInVain(start, longer, call, db.calls[call].request.idempotencyKey, at, looks)
    {
      longer, looks := WaitAndLook(db, call, at, waits[i], start, longer, looks);
      if !db.calls[call].phase.Inserting? {
        return;
      }
    }
  }

  /**
   * An invalid request touches nothing. Otherwise the call is left waiting only if at each look somebody
   * else was inserting the key; let through, it returns the one stored result of its key, made of this
   * request, says truthfully whether it stored it (with its own identifier, at this instant), and refuses
   * exactly a different type or request under the key.
   */
  method ApplyIdempotentEffect(db: EffectTable, call: CallId, request: EffectRequest, effectId: string, at: Instant, pauses: Pauses)
    returns (outcome: Option<Outcome>, ghost script: seq<Action>, ghost looks: seq<seq<Action>>)
    requires db.Valid() && call !in db.calls && PausesSpare(pauses, call)
    modifies db
    ensures db.Valid() && db.View() == Run(old(db.View()), script) && Grows(old(db.View()), db.View())
    ensures outcome.Some? ==> Tells(db.View(), call, request, effectId, outcome.value)
    ensures outcome == Some(Invalid) <==> !WellFormed(request)
    ensures outcome == Some(Invalid) ==> db.table == old(db.table) && db.pending == old(db.pending)
    ensures outcome.Some? && outcome.value.Success? && outcome.value.applied ==> outcome.value.createdAt == at
    ensures WellFormed(request) ==>
              Outwaited(old(db.View()), script, call, request.idempotencyKey, at, pauses.waits, looks, outcome.Some?)
  {
    ghost var start := db.View();
    script := Do(db, Action.Invoke(call, request, effectId), start, []);
    looks := [];
    if !ValidRequest(request) {
      ReturnedTells(db.View(), call);
      RunGrows(start, script);
      return Some(Invalid), script, looks;
    }
    script := Pause(db, pauses.beforeInsert, call, start, script);
    script, looks := InsertStatement(db, call, at, pauses.waits, start, script);
    ghost var answered := script;
    outcome, script := Conclude(db, call, at, pauses, start, script);
    StillOutwaited(start, answered, script, call, request.idempotencyKey, at, pauses.waits, looks, outcome.Some?);
    RunGrows(start, script);
  }

  /** From the answer of the insert on. */
  method Conclude(db: EffectTable, call: CallId, at: Instant, pauses: Pauses, ghost start: Store, ghost script: seq<Action>)
    returns (outcome: Option<Outcome>, ghost longer: seq<Action>)
    requires db.Valid() && db.View() == Run(start, script) && call in db.calls && PausesSpare(pauses, call)
    requires db.calls[call].phase.Inserting? || db.calls[call].phase.Reading?
             || (db.calls[call].phase.Inserted? && db.calls[call].phase.row.createdAt == at)
    requires ValidRequest(db.calls[call].request)
    modifies db
    ensures db.Valid() && db.View() == Run(start, longer) && script <= longer
    ensures outcome.None? <==> old(db.calls[call].phase).Inserting?
    ensures outcome.Some? ==>
              Tells(db.View(), call, old(db.calls[call].request), old(db.calls[call].effectId), outcome.value) && outcome.value != Invalid
    ensures outcome.Some? && outcome.value.Success? && outcome.value.applied ==> outcome.value.createdAt == at
  {
    longer := script;
    if db.calls[call].phase.Inserting? {
      return None, longer;
    }
    if db.calls[call].phase.Inserted? {
      longer := CommitAndReturn(db, call, pauses.beforeCommit, start, longer);
    } else {
      longer := ReadBack(db, call, pauses.beforeRead, start, longer);
    }
    ReturnedTells(db.View(), call);
    outcome := Some(db.calls[call].phase.outcome);
  }

  method CommitAndReturn(db: EffectTable, call: CallId, beforeCommit: seq<Action>, ghost start: Store, ghost script: seq<Action>)
    returns (ghost longer: seq<Action>)
    requires db.Valid() && db.View() == Run(start, script) && Spares(beforeCommit, call)
    requires call in db.calls && db.calls[call].phase.Inserted?
    modifies db
    ensures db.Valid() && db.View() == Run(start, longer) && script <= longer && call in db.calls
    ensures var row := old(db.calls[call].phase.row);
      db.calls[call] == old(db.calls[call]).(phase := Returned(Success(true, row.result, row.createdAt)))
  {
    longer := Pause(db, beforeCommit, call, start, script);
    longer := Do(db, CommitInsert(call), start, longer);
    longer := Do(db, Return(call), start, longer);
  }

  method ReadBack(db: EffectTable, call: CallId, beforeRead: seq<Action>, ghost start: Store, ghost script: seq<Action>)
    returns (ghost longer: seq<Action>)
    requires db.Valid() && db.View() == Run(start, script) && Spares(beforeRead, call)
    requires call in db.calls && db.calls[call].phase.Reading?
    modifies db
    ensures db.Valid() && db.View() == Run(start, longer) && script <= longer && call in db.calls
    ensures db.calls[call] == old(db.calls[call]).(phase := db.calls[call].phase) && db.calls[call].phase.Returned?
    ensures db.calls[call].phase.outcome.Success? ==> !db.calls[call].phase.outcome.applied
  {
    longer := Pause(db, beforeRead, call, start, script);
    longer := Do(db, Read(call), start, longer);
  }

  lemma {:induction false} RunGrows(s: Store, script: seq<Action>)
    requires EffectStore.Inv(s)
    ensures EffectStore.Inv(Run(s, script)) && Grows(s, Run(s, script))
  {
    if script != [] {
      var n := |script| - 1;
      RunGrows(s, script[..n]);
      StepKeeps(Run(s, script[..n]), script[n]);
    }
  }
}
