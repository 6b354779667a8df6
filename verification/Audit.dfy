/**
 * The ownership auditor: verifyOwnership in benchmarks/contention.ts. It compares what claimers were
 * told, the durable claim events and the final rows.
 */
module Audit {
  import opened Base
  import opened Lifecycle

  /** One grant of a generation, as a claimer recorded it or as a STEP_CLAIMED event tells it. */
  datatype Grant = Grant(step: StepId, version: int, owner: WorkerId)

  datatype ClaimerRecord = ClaimerRecord(id: WorkerId, grants: seq<(StepId, int)>)

  datatype StepRow = StepRow(id: StepId, status: Status, leaseVersion: int, currentWorkerId: Option<WorkerId>)

  /** The `stepId:version` text under which the auditor files a grant. */
  datatype Key = Key(step: StepId, version: int)

  /** The least and the greatest lease_version, and their sum (the report's mean, before division and rounding). */
  datatype Generations = Generations(min: int, max: int, total: int)

  datatype Report = Report(
    clientObservedGrants: nat,
    distinctGenerationsGranted: nat,
    duplicateOwnershipGrants: nat,
    durableClaimEvents: nat,
    duplicateClaimEvents: nat,
    clientGrantsWithoutMatchingEvent: nat,
    eventsWithoutClientGrant: nat,
    stepRows: nat,
    rowsWithGenerationMismatch: nat,
    runningRowsWithWrongOwner: nat,
    generationsPerStep: Option<Generations>)   // None for no rows

  // ---------------------------------------------------------------- what it is meant to find

  function GrantsIn(r: ClaimerRecord): seq<Grant> {
    seq(|r.grants|, i requires 0 <= i < |r.grants| => Grant(r.grants[i].0, r.grants[i].1, r.id))
  }

  /** Everything the claimers were told, record by record. */
  function Told(records: seq<ClaimerRecord>): seq<Grant> {
    if records == [] then [] else Told(records[..|records| - 1]) + GrantsIn(records[|records| - 1])
  }

  function KeyOf(g: Grant): Key {
    Key(g.step, g.version)
  }

  function Keys(gs: seq<Grant>): set<Key> {
    set g | g in gs :: KeyOf(g)
  }

  function Owners(gs: seq<Grant>, k: Key): seq<WorkerId> {
    if gs == [] then [] else
      var rest := Owners(gs[..|gs| - 1], k);
      if KeyOf(gs[|gs| - 1]) == k then rest + [gs[|gs| - 1].owner] else rest
  }

  function Versions(gs: seq<Grant>, step: StepId): seq<int> {
    if gs == [] then [] else
      var rest := Versions(gs[..|gs| - 1], step);
      if gs[|gs| - 1].step == step then rest + [gs[|gs| - 1].version] else rest
  }

  function UpTo(n: nat): seq<int> {
    seq(n, i => i + 1)
  }

  /** The generations 1 .. lease_version were each granted once, and no others. */
  predicate GenerationsOk(gs: seq<Grant>, row: StepRow) {
    row.leaseVersion >= 0 && multiset(Versions(gs, row.id)) == multiset(UpTo(row.leaseVersion))
  }

  predicate OwnerOk(gs: seq<Grant>, row: StepRow) {
    row.status == Running ==>
      var owners := Owners(gs, Key(row.id, row.leaseVersion));
      owners != [] && row.currentWorkerId == Some(owners[0])
  }

  predicate Matched(gs: seq<Grant>, events: seq<Grant>, k: Key) {
    |Owners(gs, k)| == 1 && Owners(events, k) == Owners(gs, k)
  }

  function Duplicated(gs: seq<Grant>): set<Key> {
    set k | k in Keys(gs) && |Owners(gs, k)| > 1
  }

  function Unmatched(gs: seq<Grant>, events: seq<Grant>): set<Key> {
    set k | k in Keys(gs) && !Matched(gs, events, k)
  }

  function MismatchedRows(gs: seq<Grant>, rows: seq<StepRow>): set<nat> {
    set i: nat | i < |rows| && !GenerationsOk(gs, rows[i])
  }

  function WronglyOwnedRows(gs: seq<Grant>, rows: seq<StepRow>): set<nat> {
    set i: nat | i < |rows| && !OwnerOk(gs, rows[i])
  }

  // ---------------------------------------------------------------- sorting

  predicate Ascending(s: seq<int>) {
    forall i, j :: 0 <= i < j < |s| ==> s[i] <= s[j]
  }

  function Insert(s: seq<int>, x: int): seq<int> {
    if s == [] || s[|s| - 1] <= x then s + [x] else Insert(s[..|s| - 1], x) + [s[|s| - 1]]
  }

  /** `versions.sort((a, b) => a - b)` */
  function Sort(s: seq<int>): seq<int> {
    if s == [] then [] else Insert(Sort(s[..|s| - 1]), s[|s| - 1])
  }

  lemma SplitLast(s: seq<int>)
    requires s != []
    ensures multiset(s) == multiset(s[..|s| - 1]) + multiset{s[|s| - 1]}
  {
    assert s == s[..|s| - 1] + [s[|s| - 1]];
  }

  lemma LastIsGreatest(s: seq<int>, x: int)
    requires Ascending(s) && x in multiset(s)
    ensures s != [] && x <= s[|s| - 1]
  {
  }

  lemma AscendingSnoc(s: seq<int>, x: int)
    requires Ascending(s) && (forall y :: y in multiset(s) ==> y <= x)
    ensures Ascending(s + [x])
  {
    forall i | 0 <= i < |s| ensures s[i] <= x {
      assert s[i] in multiset(s);
    }
  }

  lemma {:induction false} InsertSorts(s: seq<int>, x: int)
    requires Ascending(s)
    ensures Ascending(Insert(s, x)) && multiset(Insert(s, x)) == multiset(s) + multiset{x}
  {
    if s != [] && s[|s| - 1] > x {
      var last := s[|s| - 1];
      var rest := Insert(s[..|s| - 1], x);
      InsertSorts(s[..|s| - 1], x);
      SplitLast(s);
      forall y | y in multiset(rest) ensures y <= last {
        if y != x {
          assert y in multiset(s);
          LastIsGreatest(s, y);
        }
      }
      AscendingSnoc(rest, last);
    }
  }

  lemma {:induction false} SortSorts(s: seq<int>)
    ensures Ascending(Sort(s)) && multiset(Sort(s)) == multiset(s) && |Sort(s)| == |s|
  {
    if s != [] {
      SortSorts(s[..|s| - 1]);
      InsertSorts(Sort(s[..|s| - 1]), s[|s| - 1]);
      SplitLast(s);
    }
    SameLength(Sort(s), s);
  }

  lemma SameLength(a: seq<int>, b: seq<int>)
    requires multiset(a) == multiset(b)
    ensures |a| == |b|
  {
    assert |a| == |multiset(a)| && |b| == |multiset(b)|;
  }

  lemma {:induction false} AscendingIsUnique(a: seq<int>, b: seq<int>)
    requires Ascending(a) && Ascending(b) && multiset(a) == multiset(b)
    ensures a == b
  {
    SameLength(a, b);
    if a != [] {
      SplitLast(a);
      SplitLast(b);
      LastIsGreatest(a, b[|b| - 1]);
      LastIsGreatest(b, a[|a| - 1]);
      AscendingPrefix(a);
      AscendingPrefix(b);
      Cancel(multiset(a[..|a| - 1]), multiset(b[..|b| - 1]), a[|a| - 1]);
      AscendingIsUnique(a[..|a| - 1], b[..|b| - 1]);
    }
  }

  lemma Cancel(a: multiset<int>, b: multiset<int>, x: int)
    requires a + multiset{x} == b + multiset{x}
    ensures a == b
  {
    assert a == (a + multiset{x}) - multiset{x};
    assert b == (b + multiset{x}) - multiset{x};
  }

  lemma AscendingPrefix(s: seq<int>)
    requires Ascending(s) && s != []
    ensures Ascending(s[..|s| - 1])
  {
  }

  /** The sort-and-compare test of one row finds exactly the rows whose generations are not 1 .. n, once each. */
  lemma SortAndCompare(versions: seq<int>, n: nat)
    ensures Sort(versions) == UpTo(n) <==> multiset(versions) == multiset(UpTo(n))
  {
    SortSorts(versions);
    if multiset(versions) == multiset(UpTo(n)) {
      AscendingIsUnique(Sort(versions), UpTo(n));
    }
  }

  // ---------------------------------------------------------------- the auditor

  ghost predicate OwnersIndexed(m: map<Key, seq<WorkerId>>, gs: seq<Grant>) {
    m.Keys == Keys(gs) && forall k :: k in m ==> m[k] == Owners(gs, k)
  }

  ghost predicate VersionsIndexed(m: map<StepId, seq<int>>, gs: seq<Grant>) {
    forall step :: (if step in m then m[step] else []) == Versions(gs, step)
  }

  lemma {:induction false} NoOwners(gs: seq<Grant>, k: Key)
    ensures Owners(gs, k) == [] <==> k !in Keys(gs)
  {
    if gs != [] {
      NoOwners(gs[..|gs| - 1], k);
      assert gs == gs[..|gs| - 1] + [gs[|gs| - 1]];
    }
  }

  /** `owners = m.get(key) ?? []; owners.push(owner); m.set(key, owners)` */
  method FileOwner(m: map<Key, seq<WorkerId>>, ghost gs: seq<Grant>, g: Grant) returns (m': map<Key, seq<WorkerId>>)
    requires OwnersIndexed(m, gs)
    ensures OwnersIndexed(m', gs + [g])
  {
    var owners := if KeyOf(g) in m then m[KeyOf(g)] else [];
    m' := m[KeyOf(g) := owners + [g.owner]];
    NoOwners(gs, KeyOf(g));
    assert (gs + [g])[..|gs + [g]| - 1] == gs;
    assert forall x :: x in gs + [g] <==> x in gs || x == g;
    assert Keys(gs + [g]) == Keys(gs) + {KeyOf(g)};
  }

  method FileVersion(m: map<StepId, seq<int>>, ghost gs: seq<Grant>, g: Grant) returns (m': map<StepId, seq<int>>)
    requires VersionsIndexed(m, gs)
    ensures VersionsIndexed(m', gs + [g])
  {
    var versions := if g.step in m then m[g.step] else [];
    m' := m[g.step := versions + [g.version]];
    assert (gs + [g])[..|gs + [g]| - 1] == gs;
  }

  method IndexClientGrants(records: seq<ClaimerRecord>)
    returns (clientGrants: map<Key, seq<WorkerId>>, versionsByStep: map<StepId, seq<int>>)
    ensures OwnersIndexed(clientGrants, Told(records)) && VersionsIndexed(versionsByStep, Told(records))
  {
    clientGrants, versionsByStep := map[], map[];
    for i := 0 to |records|
      invariant OwnersIndexed(clientGrants, Told(records[..i])) && VersionsIndexed(versionsByStep, Told(records[..i]))
    {
      var record := records[i];
      ghost var before, mine := Told(records[..i]), GrantsIn(record);
      assert before + mine[..0] == before;
      for j := 0 to |record.grants|
        invariant OwnersIndexed(clientGrants, before + mine[..j]) && VersionsIndexed(versionsByStep, before + mine[..j])
      {
        var g := Grant(record.grants[j].0, record.grants[j].1, record.id);
        clientGrants := FileOwner(clientGrants, before + mine[..j], g);
        versionsByStep := FileVersion(versionsByStep, before + mine[..j], g);
        assert before + mine[..j + 1] == before + mine[..j] + [g];
      }
      assert mine[..|record.grants|] == mine;
      assert records[..i + 1][..i] == records[..i];
    }
    assert records[..|records|] == records;
  }

  method IndexEvents(events: seq<Grant>) returns (eventOwners: map<Key, seq<WorkerId>>)
    ensures OwnersIndexed(eventOwners, events)
  {
    eventOwners := map[];
    for i := 0 to |events|
      invariant OwnersIndexed(eventOwners, events[..i])
    {
      eventOwners := FileOwner(eventOwners, events[..i], events[i]);
      assert events[..i + 1] == events[..i] + [events[i]];
    }
    assert events[..|events|] == events;
  }

  method CountUnmatchedGrants(clientGrants: map<Key, seq<WorkerId>>, eventOwners: map<Key, seq<WorkerId>>,
                              ghost gs: seq<Grant>, ghost events: seq<Grant>)
    returns (grantsWithoutMatchingEvent: nat)
    requires OwnersIndexed(clientGrants, gs) && OwnersIndexed(eventOwners, events)
    ensures grantsWithoutMatchingEvent == |Unmatched(gs, events)|
  {
    grantsWithoutMatchingEvent := 0;
    var keys := clientGrants.Keys;
    ghost var found: set<Key> := {};
    while keys != {}
      invariant keys <= Keys(gs)
      invariant forall k :: k in found <==> k in Keys(gs) - keys && !Matched(gs, events, k)
      invariant grantsWithoutMatchingEvent == |found|
      decreases |keys|
    {
      var key :| key in keys;
      var owners := clientGrants[key];
      NoOwners(events, key);
      if key !in eventOwners || |eventOwners[key]| != 1 || |owners| != 1 || eventOwners[key][0] != owners[0] {
        assert !Matched(gs, events, key);
        grantsWithoutMatchingEvent := grantsWithoutMatchingEvent + 1;
        found := found + {key};
      } else {
        assert eventOwners[key] == [owners[0]] == owners;
      }
      keys := keys - {key};
    }
    assert found == Unmatched(gs, events);
  }

  method CountUnclaimedEvents(clientGrants: map<Key, seq<WorkerId>>, eventOwners: map<Key, seq<WorkerId>>,
                              ghost gs: seq<Grant>, ghost events: seq<Grant>)
    returns (eventsWithoutClientGrant: nat)
    requires OwnersIndexed(clientGrants, gs) && OwnersIndexed(eventOwners, events)
    ensures eventsWithoutClientGrant == |Keys(events) - Keys(gs)|
  {
    eventsWithoutClientGrant := 0;
    var keys := eventOwners.Keys;
    ghost var found: set<Key> := {};
    while keys != {}
      invariant keys <= Keys(events)
      invariant forall k :: k in found <==> k in Keys(events) && k !in keys && k !in Keys(gs)
      invariant eventsWithoutClientGrant == |found|
      decreases |keys|
    {
      var key :| key in keys;
      if key !in clientGrants {
        eventsWithoutClientGrant := eventsWithoutClientGrant + 1;
        found := found + {key};
      }
      keys := keys - {key};
    }
    assert found == Keys(events) - Keys(gs);
  }

  /** `versions.some((version, index) => version !== index + 1)` over the sorted versions, and the length. */
  method HasGenerationMismatch(versions: seq<int>, leaseVersion: int) returns (mismatch: bool)
    ensures mismatch <==> !(leaseVersion >= 0 && multiset(versions) == multiset(UpTo(leaseVersion)))
  {
    if leaseVersion >= 0 { SortAndCompare(versions, leaseVersion); }
    SortSorts(versions);
    if |versions| != leaseVersion {
      return true;
    }
    var sorted := Sort(versions);
    for index := 0 to |sorted|
      invariant forall i :: 0 <= i < index ==> sorted[i] == i + 1
    {
      if sorted[index] != index + 1 {
        return true;
      }
    }
    return false;
  }

  method CheckRows(rows: seq<StepRow>, clientGrants: map<Key, seq<WorkerId>>, versionsByStep: map<StepId, seq<int>>,
                   ghost gs: seq<Grant>)
    returns (rowsWithGenerationMismatch: nat, runningRowsWithWrongOwner: nat)
    requires OwnersIndexed(clientGrants, gs) && VersionsIndexed(versionsByStep, gs)
    ensures rowsWithGenerationMismatch == |MismatchedRows(gs, rows)|
    ensures runningRowsWithWrongOwner == |WronglyOwnedRows(gs, rows)|
  {
    rowsWithGenerationMismatch, runningRowsWithWrongOwner := 0, 0;
    for i := 0 to |rows|
      invariant rowsWithGenerationMismatch == |MismatchedRows(gs, rows[..i])|
      invariant runningRowsWithWrongOwner == |WronglyOwnedRows(gs, rows[..i])|
    {
      var row := rows[i];
      OneMoreMismatch(gs, rows[..i], row);
      OneMoreWrongOwner(gs, rows[..i], row);
      assert rows[..i + 1] == rows[..i] + [row];
      var versions := if row.id in versionsByStep then versionsByStep[row.id] else [];
      var mismatch := HasGenerationMismatch(versions, row.leaseVersion);
      if mismatch {
        rowsWithGenerationMismatch := rowsWithGenerationMismatch + 1;
      }
      if row.status == Running {
        var key := Key(row.id, row.leaseVersion);
        NoOwners(gs, key);
        if key !in clientGrants || Some(clientGrants[key][0]) != row.currentWorkerId {
          runningRowsWithWrongOwner := runningRowsWithWrongOwner + 1;
        }
      }
    }
    assert rows[..|rows|] == rows;
  }

  lemma OneMoreMismatch(gs: seq<Grant>, rows: seq<StepRow>, row: StepRow)
    ensures |MismatchedRows(gs, rows + [row])| == |MismatchedRows(gs, rows)| + if GenerationsOk(gs, row) then 0 else 1
  {
    var more, n := rows + [row], |rows|;
    assert more[n] == row && forall i :: 0 <= i < n ==> more[i] == rows[i];
    if GenerationsOk(gs, row) {
      assert MismatchedRows(gs, more) == MismatchedRows(gs, rows);
    } else {
      assert MismatchedRows(gs, more) == MismatchedRows(gs, rows) + {n};
    }
  }

  lemma OneMoreWrongOwner(gs: seq<Grant>, rows: seq<StepRow>, row: StepRow)
    ensures |WronglyOwnedRows(gs, rows + [row])| == |WronglyOwnedRows(gs, rows)| + if OwnerOk(gs, row) then 0 else 1
  {
    var more, n := rows + [row], |rows|;
    assert more[n] == row && forall i :: 0 <= i < n ==> more[i] == rows[i];
    if OwnerOk(gs, row) {
      assert WronglyOwnedRows(gs, more) == WronglyOwnedRows(gs, rows);
    } else {
      assert WronglyOwnedRows(gs, more) == WronglyOwnedRows(gs, rows) + {n};
    }
  }

  // ---------------------------------------------------------------- totals

  /** How many of the grants are filed under one of the keys. */
  function FiledUnder(gs: seq<Grant>, keys: set<Key>): nat {
    if gs == [] then 0
    else FiledUnder(gs[..|gs| - 1], keys) + if KeyOf(gs[|gs| - 1]) in keys then 1 else 0
  }

  lemma {:induction false} FiledUnderOneMore(gs: seq<Grant>, keys: set<Key>, k: Key)
    requires k !in keys
    ensures FiledUnder(gs, keys + {k}) == FiledUnder(gs, keys) + |Owners(gs, k)|
  {
    if gs != [] {
      FiledUnderOneMore(gs[..|gs| - 1], keys, k);
    }
  }

  lemma {:induction false} FiledUnderNone(gs: seq<Grant>)
    ensures FiledUnder(gs, {}) == 0
  {
    if gs != [] {
      FiledUnderNone(gs[..|gs| - 1]);
    }
  }

  lemma {:induction false} FiledUnderAll(gs: seq<Grant>, keys: set<Key>)
    requires Keys(gs) <= keys
    ensures FiledUnder(gs, keys) == |gs|
  {
    if gs != [] {
      assert KeyOf(gs[|gs| - 1]) in Keys(gs);
      FiledUnderAll(gs[..|gs| - 1], keys);
    }
  }

  /** Adding up the lengths of the owner lists loses no grant and counts none twice. */
  method CountGrants(clientGrants: map<Key, seq<WorkerId>>, ghost gs: seq<Grant>) returns (sum: nat)
    requires OwnersIndexed(clientGrants, gs)
    ensures sum == |gs|
  {
    sum := 0;
    ghost var done: set<Key> := {};
    var keys := clientGrants.Keys;
    FiledUnderNone(gs);
    while keys != {}
      invariant keys <= clientGrants.Keys && done == clientGrants.Keys - keys
      invariant sum == FiledUnder(gs, done)
      decreases |keys|
    {
      var key :| key in keys;
      FiledUnderOneMore(gs, done, key);
      sum := sum + |clientGrants[key]|;
      done := done + {key};
      keys := keys - {key};
    }
    FiledUnderAll(gs, done);
  }

  function TotalGenerations(rows: seq<StepRow>): int {
    if rows == [] then 0 else TotalGenerations(rows[..|rows| - 1]) + rows[|rows| - 1].leaseVersion
  }

  /** The generations the rows span. */
  ghost predicate Spans(g: Generations, rows: seq<StepRow>) {
    && (forall i :: 0 <= i < |rows| ==> g.min <= rows[i].leaseVersion <= g.max)
    && (exists i :: 0 <= i < |rows| && rows[i].leaseVersion == g.min)
    && (exists i :: 0 <= i < |rows| && rows[i].leaseVersion == g.max)
    && g.total == TotalGenerations(rows)
  }

  method SpanGenerations(rows: seq<StepRow>) returns (span: Option<Generations>)
    ensures span.None? <==> rows == []
    ensures span.Some? ==> Spans(span.value, rows)
  {
    if rows == [] {
      return None;
    }
    var min, max, total := rows[0].leaseVersion, rows[0].leaseVersion, rows[0].leaseVersion;
    assert rows[..1][..0] == [] && rows[..1] == [rows[0]];
    for i := 1 to |rows|
      invariant forall j :: 0 <= j < i ==> min <= rows[j].leaseVersion <= max
      invariant exists j :: 0 <= j < i && rows[j].leaseVersion == min
      invariant exists j :: 0 <= j < i && rows[j].leaseVersion == max
      invariant total == TotalGenerations(rows[..i])
    {
      min := Min(min, rows[i].leaseVersion);
      max := Max(max, rows[i].leaseVersion);
      total := total + rows[i].leaseVersion;
      assert rows[..i + 1][..i] == rows[..i];
    }
    assert rows[..|rows|] == rows;
    span := Some(Generations(min, max, total));
  }

  method VerifyOwnership(records: seq<ClaimerRecord>, events: seq<Grant>, rows: seq<StepRow>) returns (report: Report)
    ensures var told := Told(records);
      report == Report(|told|, |Keys(told)|, |Duplicated(told)|, |events|, |Duplicated(events)|, |Unmatched(told, events)|,
                       |Keys(events) - Keys(told)|, |rows|, |MismatchedRows(told, rows)|, |WronglyOwnedRows(told, rows)|,
                       report.generationsPerStep)
    ensures report.generationsPerStep.None? <==> rows == []
    ensures report.generationsPerStep.Some? ==> Spans(report.generationsPerStep.value, rows)
  {
    var clientGrants, versionsByStep := IndexClientGrants(records);
    ghost var told := Told(records);
    var duplicateGrants := set k | k in clientGrants && |clientGrants[k]| > 1;
    assert duplicateGrants == Duplicated(told);

    var eventOwners := IndexEvents(events);
    var duplicateEvents := set k | k in eventOwners && |eventOwners[k]| > 1;
    assert duplicateEvents == Duplicated(events);

    var unmatched := CountUnmatchedGrants(clientGrants, eventOwners, told, events);
    var unclaimed := CountUnclaimedEvents(clientGrants, eventOwners, told, events);
    var mismatched, wrong := CheckRows(rows, clientGrants, versionsByStep, told);
    var observed := CountGrants(clientGrants, told);
    var span := SpanGenerations(rows);
    report := Report(observed, |clientGrants.Keys|, |duplicateGrants|, |events|, |duplicateEvents|, unmatched, unclaimed,
                     |rows|, mismatched, wrong, span);
  }
}
