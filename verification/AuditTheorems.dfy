/** When the auditor is satisfied, and that a run of the protocol in which no claimer's record is lost satisfies it. */
module AuditTheorems {
  import opened Base
  import opened Lifecycle
  import opened StepSpec
  import opened RowHistory
  import opened Audit
  import P = Protocol
  import PI = ProtocolInvariant
  import RT = RunTheorems

  ghost predicate Satisfied(told: seq<Grant>, events: seq<Grant>, rows: seq<StepRow>) {
    && |Duplicated(told)| == 0 && |Duplicated(events)| == 0
    && |Unmatched(told, events)| == 0 && |Keys(events) - Keys(told)| == 0
    && |MismatchedRows(told, rows)| == 0 && |WronglyOwnedRows(told, rows)| == 0
  }

  // ---------------------------------------------------------------- what the counts count

  /** A version appears among a step's versions as often as that generation was granted. */
  lemma {:induction false} VersionsCountGrants(gs: seq<Grant>, step: StepId, v: int)
    ensures multiset(Versions(gs, step))[v] == |Owners(gs, Key(step, v))|
  {
    if gs != [] {
      VersionsCountGrants(gs[..|gs| - 1], step, v);
    }
  }

  /** An owner appears for a generation as often as it was granted exactly that. */
  lemma {:induction false} OwnersCountGrants(gs: seq<Grant>, k: Key, w: WorkerId)
    ensures multiset(Owners(gs, k))[w] == multiset(gs)[Grant(k.step, k.version, w)]
  {
    if gs != [] {
      OwnersCountGrants(gs[..|gs| - 1], k, w);
      assert gs == gs[..|gs| - 1] + [gs[|gs| - 1]];
    }
  }

  lemma {:induction false} UpToCounts(n: nat, v: int)
    ensures multiset(UpTo(n))[v] == if 1 <= v <= n then 1 else 0
  {
    if n > 0 {
      UpToCounts(n - 1, v);
      assert UpTo(n) == UpTo(n - 1) + [n];
    }
  }

  /** Every generation from 1 to the row's own was granted to exactly one claimer, and no other was granted. */
  ghost predicate GrantedOnceEach(gs: seq<Grant>, row: StepRow) {
    row.leaseVersion >= 0
    && forall v :: |Owners(gs, Key(row.id, v))| == if 1 <= v <= row.leaseVersion then 1 else 0
  }

  lemma GenerationsOkIff(gs: seq<Grant>, row: StepRow)
    ensures GenerationsOk(gs, row) <==> GrantedOnceEach(gs, row)
  {
    if row.leaseVersion >= 0 {
      var versions, all := multiset(Versions(gs, row.id)), multiset(UpTo(row.leaseVersion));
      forall v ensures versions[v] == |Owners(gs, Key(row.id, v))| && all[v] == if 1 <= v <= row.leaseVersion then 1 else 0 {
        VersionsCountGrants(gs, row.id, v);
        UpToCounts(row.leaseVersion, v);
      }
      if GrantedOnceEach(gs, row) {
        assert forall v :: versions[v] == all[v];
        assert versions == all;
      }
    }
  }

  /** This grant is of the generation, and none told before it is. */
  predicate FirstTold(gs: seq<Grant>, step: StepId, version: int, i: nat) {
    && i < |gs| && gs[i].step == step && gs[i].version == version
    && forall j :: 0 <= j < i ==> !(gs[j].step == step && gs[j].version == version)
  }

  lemma {:induction false} FirstOwnerIsFirstTold(gs: seq<Grant>, step: StepId, version: int, i: nat)
    requires FirstTold(gs, step, version, i)
    ensures Owners(gs, Key(step, version)) != [] && Owners(gs, Key(step, version))[0] == gs[i].owner
    decreases |gs|
  {
    var n := |gs| - 1;
    if i < n {
      FirstOwnerIsFirstTold(gs[..n], step, version, i);
    } else {
      NoOwners(gs[..n], Key(step, version));
    }
  }

  lemma {:induction false} FindFirstTold(gs: seq<Grant>, step: StepId, version: int) returns (i: nat)
    requires Owners(gs, Key(step, version)) != []
    ensures FirstTold(gs, step, version, i)
    decreases |gs|
  {
    var n := |gs| - 1;
    if Owners(gs[..n], Key(step, version)) != [] {
      i := FindFirstTold(gs[..n], step, version);
    } else {
      i := n;
      NoOwners(gs[..n], Key(step, version));
      forall j | 0 <= j < n ensures !(gs[j].step == step && gs[j].version == version) {
        assert gs[..n][j] in gs[..n];
      }
    }
  }

  /** A running row names the first claimer that was told of its generation. */
  ghost predicate NamesFirstTold(gs: seq<Grant>, row: StepRow) {
    row.status == Running ==>
      exists i: nat :: FirstTold(gs, row.id, row.leaseVersion, i) && row.currentWorkerId == Some(gs[i].owner)
  }

  lemma OwnerOkIff(gs: seq<Grant>, row: StepRow)
    ensures OwnerOk(gs, row) <==> NamesFirstTold(gs, row)
  {
    if row.status == Running {
      if Owners(gs, Key(row.id, row.leaseVersion)) != [] {
        var i := FindFirstTold(gs, row.id, row.leaseVersion);
        FirstOwnerIsFirstTold(gs, row.id, row.leaseVersion, i);
      }
      if NamesFirstTold(gs, row) {
        var i: nat :| FirstTold(gs, row.id, row.leaseVersion, i) && row.currentWorkerId == Some(gs[i].owner);
        FirstOwnerIsFirstTold(gs, row.id, row.leaseVersion, i);
      }
    }
  }

  /** What the claimers were told: the grants in their records, under their ids. */
  lemma {:induction false} ToldIff(records: seq<ClaimerRecord>, g: Grant)
    ensures g in Told(records) <==> exists r, i :: r in records && 0 <= i < |r.grants| && g == Grant(r.grants[i].0, r.grants[i].1, r.id)
  {
    if records != [] {
      var n := |records| - 1;
      ToldIff(records[..n], g);
      assert records == records[..n] + [records[n]];
      assert forall i :: 0 <= i < |GrantsIn(records[n])| ==>
               GrantsIn(records[n])[i] == Grant(records[n].grants[i].0, records[n].grants[i].1, records[n].id);
    }
  }

  /**
   * The auditor reports no mismatch exactly when, for every row, the generations 1 .. lease_version were
   * granted once each and no others; the grants and the claim events are the same, once each; and each
   * running row names the claimer first told of its generation.
   */
  lemma NoMismatchIff(told: seq<Grant>, events: seq<Grant>, rows: seq<StepRow>)
    ensures Satisfied(told, events, rows) <==>
            && (forall i :: 0 <= i < |rows| ==> GrantedOnceEach(told, rows[i]) && NamesFirstTold(told, rows[i]))
            && (forall k :: KeyOk(told, events, k))
  {
    forall i | 0 <= i < |rows| ensures GenerationsOk(told, rows[i]) <==> GrantedOnceEach(told, rows[i]) {
      GenerationsOkIff(told, rows[i]);
    }
    forall i | 0 <= i < |rows| ensures OwnerOk(told, rows[i]) <==> NamesFirstTold(told, rows[i]) {
      OwnerOkIff(told, rows[i]);
    }
    RowsIff(told, rows);
    KeysIff(told, events);
  }

  lemma RowsIff(told: seq<Grant>, rows: seq<StepRow>)
    ensures |MismatchedRows(told, rows)| == 0 <==> forall i :: 0 <= i < |rows| ==> GenerationsOk(told, rows[i])
    ensures |WronglyOwnedRows(told, rows)| == 0 <==> forall i :: 0 <= i < |rows| ==> OwnerOk(told, rows[i])
  {
    if |MismatchedRows(told, rows)| == 0 {
      forall i | 0 <= i < |rows| ensures GenerationsOk(told, rows[i]) { assert i !in MismatchedRows(told, rows); }
    }
    if |WronglyOwnedRows(told, rows)| == 0 {
      forall i | 0 <= i < |rows| ensures OwnerOk(told, rows[i]) { assert i !in WronglyOwnedRows(told, rows); }
    }
  }

  /** The generation has one client grant and one event, to the same claimer, or neither. */
  predicate KeyOk(told: seq<Grant>, events: seq<Grant>, k: Key) {
    |Owners(told, k)| <= 1 && Owners(events, k) == Owners(told, k)
  }

  lemma KeyOkIff(told: seq<Grant>, events: seq<Grant>, k: Key)
    ensures KeyOk(told, events, k) <==>
            k !in Duplicated(told) && k !in Duplicated(events) && k !in Unmatched(told, events) && k !in Keys(events) - Keys(told)
  {
    NoOwners(told, k);
    NoOwners(events, k);
  }

  lemma KeysIff(told: seq<Grant>, events: seq<Grant>)
    ensures (&& |Duplicated(told)| == 0 && |Duplicated(events)| == 0
             && |Unmatched(told, events)| == 0 && |Keys(events) - Keys(told)| == 0)
            <==> forall k :: KeyOk(told, events, k)
  {
    forall k ensures
      KeyOk(told, events, k) <==>
      k !in Duplicated(told) && k !in Duplicated(events) && k !in Unmatched(told, events) && k !in Keys(events) - Keys(told)
    {
      KeyOkIff(told, events, k);
    }
    if forall k :: KeyOk(told, events, k) {
      assert Duplicated(told) == {} && Duplicated(events) == {};
      assert Unmatched(told, events) == {} && Keys(events) - Keys(told) == {};
    }
  }

  // ---------------------------------------------------------------- what a run grants

  /** The claims a run committed, as grants. */
  function GrantsOf(history: seq<Entry>): seq<Grant> {
    if history == [] then [] else
      var e := history[|history| - 1];
      var rest := GrantsOf(history[..|history| - 1]);
      if e.op.Claim? then rest + [Grant(e.id, e.after.leaseVersion, e.op.worker)] else rest
  }

  /** The rows of `step_events` with type STEP_CLAIMED. */
  function ClaimEventsOf(history: seq<Entry>): seq<Grant> {
    if history == [] then [] else
      var e := history[|history| - 1];
      var rest := ClaimEventsOf(history[..|history| - 1]);
      if e.event.Some? && e.event.value.body.kind.StepClaimed? && e.event.value.body.worker.Some?
      then rest + [Grant(e.event.value.stepId, e.event.value.body.version, e.event.value.body.worker.value)] else rest
  }

  lemma {:induction false} EventsAreGrants(history: seq<Entry>)
    requires forall k {:trigger Recorded(history[k])} :: 0 <= k < |history| ==> EntryOk(history[k]) && Recorded(history[k])
    ensures ClaimEventsOf(history) == GrantsOf(history)
  {
    if history != [] {
      var n := |history| - 1;
      forall k | 0 <= k < n ensures EntryOk(history[..n][k]) && Recorded(history[..n][k]) {
        assert Recorded(history[k]);
      }
      EventsAreGrants(history[..n]);
      assert Recorded(history[n]);
    }
  }

  lemma {:induction false} ClaimedVersions(history: seq<Entry>, id: StepId)
    ensures |Versions(GrantsOf(history), id)| == |Claims(P.Trace(history, id))|
    ensures forall i :: 0 <= i < |Claims(P.Trace(history, id))| ==>
              Versions(GrantsOf(history), id)[i] == Claims(P.Trace(history, id))[i].after.leaseVersion
  {
    if history != [] {
      var n := |history| - 1;
      var e := history[n];
      ClaimedVersions(history[..n], id);
      if e.id == id {
        var tr := P.Trace(history[..n], id) + [e];
        assert tr[..|tr| - 1] == P.Trace(history[..n], id);
      }
      if e.op.Claim? {
        var gs := GrantsOf(history);
        assert gs[..|gs| - 1] == GrantsOf(history[..n]);
      }
    }
  }

  lemma {:induction false} GrantsHaveEntries(history: seq<Entry>, g: Grant)
    ensures g in GrantsOf(history) <==>
              exists e :: e in history && e.op.Claim? && g == Grant(e.id, e.after.leaseVersion, e.op.worker)
  {
    if history != [] {
      var n := |history| - 1;
      GrantsHaveEntries(history[..n], g);
      assert history == history[..n] + [history[n]];
    }
  }

  /** What a run granted of one step: its generations from 1 to the row's own, once each. */
  lemma RunGrantsEachOnce(rows: map<StepId, Row>, clock: Instant, actions: seq<P.Action>, id: StepId)
    requires id in rows && rows[id].leaseVersion == 0
    ensures var s := RT.After(rows, clock, actions);
      && id in s.rows && s.rows[id].leaseVersion >= 0
      && Versions(GrantsOf(s.history), id) == UpTo(s.rows[id].leaseVersion)
  {
    RT.RunsAreChains(rows, clock, actions, id);
    var s := RT.After(rows, clock, actions);
    GrantsAreConsecutive(rows[id], P.Trace(s.history, id));
    ClaimedVersions(s.history, id);
  }

  // ---------------------------------------------------------------- reordering the records

  lemma SameGrantsSameOwners(a: seq<Grant>, b: seq<Grant>, k: Key)
    requires multiset(a) == multiset(b)
    ensures multiset(Owners(a, k)) == multiset(Owners(b, k)) && |Owners(a, k)| == |Owners(b, k)|
  {
    forall w ensures multiset(Owners(a, k))[w] == multiset(Owners(b, k))[w] {
      OwnersCountGrants(a, k, w);
      OwnersCountGrants(b, k, w);
    }
    assert multiset(Owners(a, k)) == multiset(Owners(b, k));
    assert |multiset(Owners(a, k))| == |Owners(a, k)|;
    assert |multiset(Owners(b, k))| == |Owners(b, k)|;
  }

  lemma SameSingleton(a: seq<WorkerId>, b: seq<WorkerId>)
    requires multiset(a) == multiset(b) && |a| <= 1 && |a| == |b|
    ensures a == b
  {
    if |a| == 1 {
      assert a[0] in multiset(b);
    }
  }

  // ---------------------------------------------------------------- the theorem

  /** `listing` shows rows of the database as the auditor's query reads them. */
  ghost predicate Shows(listing: seq<StepRow>, rows: map<StepId, Row>) {
    forall i :: 0 <= i < |listing| ==>
      listing[i].id in rows
      && var r := rows[listing[i].id];
         listing[i] == StepRow(listing[i].id, r.status, r.leaseVersion, r.owner)
  }

  ghost predicate Fresh(rows: map<StepId, Row>) {
    RT.CleanRows(rows) && forall id :: id in rows ==> rows[id].leaseVersion == 0
  }

  lemma GrantsAreOfKnownSteps(rows: map<StepId, Row>, clock: Instant, actions: seq<P.Action>, g: Grant)
    requires g in GrantsOf(RT.After(rows, clock, actions).history)
    ensures g.step in rows
  {
    PI.RunKeeps(rows, clock, actions);
    var s := RT.After(rows, clock, actions);
    GrantsHaveEntries(s.history, g);
    var e :| e in s.history && e.op.Claim? && g == Grant(e.id, e.after.leaseVersion, e.op.worker);
    var k :| 0 <= k < |s.history| && s.history[k] == e;
  }

  /** No generation of any step is granted twice in a run. */
  lemma AtMostOneOwner(rows: map<StepId, Row>, clock: Instant, actions: seq<P.Action>, k: Key)
    requires Fresh(rows)
    ensures |Owners(GrantsOf(RT.After(rows, clock, actions).history), k)| <= 1
  {
    var gs := GrantsOf(RT.After(rows, clock, actions).history);
    NoOwners(gs, k);
    if k in Keys(gs) {
      var g :| g in gs && KeyOf(g) == k;
      GrantsAreOfKnownSteps(rows, clock, actions, g);
      RunGrantsEachOnce(rows, clock, actions, k.step);
      VersionsCountGrants(gs, k.step, k.version);
      UpToCounts(RT.After(rows, clock, actions).rows[k.step].leaseVersion, k.version);
    }
  }

  lemma RunningRowWasGranted(rows: map<StepId, Row>, clock: Instant, actions: seq<P.Action>, id: StepId)
    requires Fresh(rows) && id in rows
    requires var s := RT.After(rows, clock, actions); id in s.rows && s.rows[id].status == Running
    ensures var s := RT.After(rows, clock, actions);
      s.rows[id].owner.Some? && Grant(id, s.rows[id].leaseVersion, s.rows[id].owner.value) in GrantsOf(s.history)
  {
    RT.RunsAreChains(rows, clock, actions, id);
    RT.CommittedRowsAreWellFormed(rows, clock, actions, id);
    var s := RT.After(rows, clock, actions);
    var tr := P.Trace(s.history, id);
    var g := GrantOf(rows[id], tr, |tr|);
    PI.TraceMembers(s.history, id);
    assert tr[g] in tr;
    GrantsHaveEntries(s.history, Grant(id, s.rows[id].leaseVersion, s.rows[id].owner.value));
  }

  lemma RecordsAgree(rows: map<StepId, Row>, clock: Instant, actions: seq<P.Action>, told: seq<Grant>, events: seq<Grant>, k: Key)
    requires Fresh(rows)
    requires var history := RT.After(rows, clock, actions).history;
      multiset(told) == multiset(GrantsOf(history)) && multiset(events) == multiset(ClaimEventsOf(history))
    ensures KeyOk(told, events, k)
    ensures Owners(told, k) == Owners(GrantsOf(RT.After(rows, clock, actions).history), k)
  {
    var history := RT.After(rows, clock, actions).history;
    forall i | 0 <= i < |history| ensures EntryOk(history[i]) && Recorded(history[i]) {
      RT.EntriesAreRecorded(rows, clock, actions, i);
    }
    EventsAreGrants(history);
    var gs := GrantsOf(history);
    AtMostOneOwner(rows, clock, actions, k);
    SameGrantsSameOwners(told, gs, k);
    SameGrantsSameOwners(events, gs, k);
    SameSingleton(Owners(told, k), Owners(gs, k));
    SameSingleton(Owners(events, k), Owners(gs, k));
  }

  lemma RowPasses(rows: map<StepId, Row>, clock: Instant, actions: seq<P.Action>, told: seq<Grant>, row: StepRow)
    requires Fresh(rows) && row.id in rows
    requires var s := RT.After(rows, clock, actions);
      && multiset(told) == multiset(GrantsOf(s.history))
      && row.id in s.rows && row == StepRow(row.id, s.rows[row.id].status, s.rows[row.id].leaseVersion, s.rows[row.id].owner)
    requires forall k :: |Owners(told, k)| <= 1 && Owners(told, k) == Owners(GrantsOf(RT.After(rows, clock, actions).history), k)
    ensures GrantedOnceEach(told, row) && OwnerOk(told, row)
  {
    var s := RT.After(rows, clock, actions);
    var gs := GrantsOf(s.history);
    RunGrantsEachOnce(rows, clock, actions, row.id);
    GenerationsOkIff(gs, row);
    if row.status == Running {
      RunningRowWasGranted(rows, clock, actions, row.id);
      var g := Grant(row.id, row.leaseVersion, row.currentWorkerId.value);
      var k := KeyOf(g);
      OwnersCountGrants(gs, k, g.owner);
      assert multiset(gs)[g] > 0;
      assert g.owner in multiset(Owners(gs, k));
    }
  }

  /**
   * Any run, however contended, from rows at generation 0: if every committed claim was told to its claimer
   * (nobody crashed before recording it), the auditor finds nothing, in whatever order the records and events come.
   */
  lemma CrashFreeRunPasses(rows: map<StepId, Row>, clock: Instant, actions: seq<P.Action>,
                           records: seq<ClaimerRecord>, events: seq<Grant>, listing: seq<StepRow>)
    requires Fresh(rows)
    requires var s := RT.After(rows, clock, actions);
      && multiset(Told(records)) == multiset(GrantsOf(s.history))
      && multiset(events) == multiset(ClaimEventsOf(s.history))
      && Shows(listing, s.rows)
    ensures Satisfied(Told(records), events, listing)
  {
    var s := RT.After(rows, clock, actions);
    var told := Told(records);
    forall k ensures KeyOk(told, events, k) && Owners(told, k) == Owners(GrantsOf(s.history), k)
    {
      RecordsAgree(rows, clock, actions, told, events, k);
    }
    PI.RunKeeps(rows, clock, actions);
    forall i | 0 <= i < |listing| ensures GrantedOnceEach(told, listing[i]) && NamesFirstTold(told, listing[i]) {
      RowPasses(rows, clock, actions, told, listing[i]);
      OwnerOkIff(told, listing[i]);
    }
    NoMismatchIff(told, events, listing);
  }

  lemma SatisfiedCountsMatch(told: seq<Grant>, events: seq<Grant>, g: Grant)
    requires KeyOk(told, events, KeyOf(g))
    ensures multiset(told)[g] == multiset(events)[g]
  {
    OwnersCountGrants(told, KeyOf(g), g.owner);
    OwnersCountGrants(events, KeyOf(g), g.owner);
  }

  /**
   * The auditor is exact: over any run from rows at generation 0, reading its claim events and rows, it is
   * satisfied if and only if what the claimers were told is what the run granted, each grant once. A grant
   * lost, repeated, invented or told to another claimer is always found.
   */
  lemma AuditorIsExact(rows: map<StepId, Row>, clock: Instant, actions: seq<P.Action>,
                       records: seq<ClaimerRecord>, events: seq<Grant>, listing: seq<StepRow>)
    requires Fresh(rows)
    requires var s := RT.After(rows, clock, actions);
      multiset(events) == multiset(ClaimEventsOf(s.history)) && Shows(listing, s.rows)
    ensures Satisfied(Told(records), events, listing) <==>
            multiset(Told(records)) == multiset(GrantsOf(RT.After(rows, clock, actions).history))
  {
    var history := RT.After(rows, clock, actions).history;
    var told := Told(records);
    forall i | 0 <= i < |history| ensures EntryOk(history[i]) && Recorded(history[i]) {
      RT.EntriesAreRecorded(rows, clock, actions, i);
    }
    EventsAreGrants(history);
    if multiset(told) == multiset(GrantsOf(history)) {
      CrashFreeRunPasses(rows, clock, actions, records, events, listing);
    }
    if Satisfied(told, events, listing) {
      NoMismatchIff(told, events, listing);
      forall g ensures multiset(told)[g] == multiset(events)[g] {
        SatisfiedCountsMatch(told, events, g);
      }
      assert multiset(told) == multiset(events);
    }
  }
}
