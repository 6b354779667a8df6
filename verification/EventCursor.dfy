/**
 * Reading `step_events` while it is written: ids are allocated at INSERT, rows appear at COMMIT, and
 * a reader pages in (xid, id) order below the oldest running transaction id.
 */
module EventCursor {
  import opened Base
  import opened StepSpec
  import opened RowHistory
  import opened Ordering

  // ---------------------------------------------------------------- the table and its writers

  /** The heap holds the rows of running transactions too; a row is committed once its xid no longer runs. */
  datatype EventDb = EventDb(nextXid: nat, nextId: nat, running: set<nat>, heap: set<Event>)

  datatype WriterAction =
    | AssignXid                                            // a transaction gets its xid
    | Insert(xid: nat, stepId: StepId, body: EventBody)    // an event row, with the next id of the sequence
    | CommitTx(xid: nat)
    | AbortTx(xid: nat)

  const EMPTY: EventDb := EventDb(1, 1, {}, {})

  function Committed(db: EventDb): set<Event> {
    set e | e in db.heap && e.xid !in db.running
  }

  function Write1(db: EventDb, a: WriterAction): EventDb {
    match a
    case AssignXid => db.(running := db.running + {db.nextXid}, nextXid := db.nextXid + 1)
    case Insert(xid, stepId, body) =>
      if xid !in db.running then db
      else db.(heap := db.heap + {Event(db.nextId, xid, stepId, body)}, nextId := db.nextId + 1)
    case CommitTx(xid) => db.(running := db.running - {xid})
    case AbortTx(xid) =>
      if xid !in db.running then db
      else db.(running := db.running - {xid}, heap := set e | e in db.heap && e.xid != xid)
  }

  function WriteAll(db: EventDb, actions: seq<WriterAction>): EventDb {
    if actions == [] then db else Write1(WriteAll(db, actions[..|actions| - 1]), actions[|actions| - 1])
  }

  ghost predicate EventDbOk(db: EventDb) {
    && 1 <= db.nextXid && 1 <= db.nextId
    && (forall x :: x in db.running ==> 1 <= x < db.nextXid)
    && (forall e :: e in db.heap ==> 1 <= e.xid < db.nextXid && 1 <= e.id < db.nextId)
    && (forall e, f :: e in db.heap && f in db.heap && e.id == f.id ==> e == f)
  }

  lemma WriteKeepsOk(db: EventDb, a: WriterAction)
    requires EventDbOk(db)
    ensures EventDbOk(Write1(db, a))
  {
  }

  // ---------------------------------------------------------------- the watermark

  function Unfinished(db: EventDb): set<nat> {
    db.running + {db.nextXid}
  }

  /** `pg_snapshot_xmin(pg_current_snapshot())`: the oldest transaction id still running. */
  ghost function Xmin(db: EventDb): (m: nat)
    ensures m in Unfinished(db) && forall x :: x in Unfinished(db) ==> m <= x
  {
    LeastExists(Unfinished(db));
    var m :| m in Unfinished(db) && forall x :: x in Unfinished(db) ==> m <= x;
    m
  }

  lemma LeastExists(s: set<nat>)
    requires s != {}
    ensures exists m :: m in s && forall x :: x in s ==> m <= x
  {
    var m := Least(s);
  }

  lemma {:induction false} Least(s: set<nat>) returns (m: nat)
    requires s != {}
    ensures m in s && forall x :: x in s ==> m <= x
  {
    var y :| y in s;
    m := y;
    var rest := s - {y};
    if rest != {} {
      var k := Least(rest);
      m := if k < y then k else y;
    }
    assert forall x :: x in s ==> x == y || x in rest;
  }

  /** Transactions only finish: the watermark never moves back. */
  lemma XminNeverDecreases(db: EventDb, a: WriterAction)
    requires EventDbOk(db)
    ensures Xmin(db) <= Xmin(Write1(db, a))
  {
  }

  // ---------------------------------------------------------------- listStepEvents

  const MAX_EVENT_PAGE_SIZE := 500
  const START := Key(0, 0, 0)

  function EventKey(e: Event): Key {
    Key(e.xid, e.id, 0)
  }

  predicate Matches(filter: Option<StepId>, e: Event) {
    filter.Some? ==> e.stepId == filter.value
  }

  datatype PageResult = Page(events: seq<Event>, cursor: Key) | InvalidLimit

  ghost function Visible(db: EventDb, after: Key, filter: Option<StepId>): set<Event> {
    set e | e in Committed(db) && e.xid < Xmin(db) && Less(after, EventKey(e)) && Matches(filter, e)
  }

  ghost function ListStepEvents(db: EventDb, after: Key, filter: Option<StepId>, limit: int): PageResult {
    if limit < 1 then InvalidLimit else
      var events := First(Min(limit, MAX_EVENT_PAGE_SIZE), SortSet(EventKey, Visible(db, after, filter)));
      Page(events, if events == [] then after else EventKey(events[|events| - 1]))
  }

  /** The committed events that match, up to a position, in (xid, id) order: what a reader there should have. */
  ghost function Listing(db: EventDb, filter: Option<StepId>, upTo: Key): seq<Event> {
    SortSet(EventKey, UpTo(db, filter, upTo))
  }

  ghost function UpTo(db: EventDb, filter: Option<StepId>, upTo: Key): set<Event> {
    set e | e in Committed(db) && Matches(filter, e) && LessOrEqual(EventKey(e), upTo)
  }

  lemma KeysDistinguish(db: EventDb, events: set<Event>)
    requires EventDbOk(db) && events <= Committed(db)
    ensures Distinguishes(EventKey, events)
  {
  }

  /** A position behind which nothing can appear any more. */
  ghost predicate Settled(db: EventDb, at: Key) {
    at.major < Xmin(db)
  }

  lemma SettledStaysSettled(db: EventDb, a: WriterAction, at: Key)
    requires EventDbOk(db) && Settled(db, at)
    ensures Settled(Write1(db, a), at)
  {
  }

  /** No writer can put an event at or behind a settled position. */
  lemma NothingAppearsBehind(db: EventDb, a: WriterAction, filter: Option<StepId>, at: Key)
    requires EventDbOk(db) && Settled(db, at)
    ensures UpTo(Write1(db, a), filter, at) == UpTo(db, filter, at)
  {
  }

  /** The listing up to a position is what SortSet promises it to be. */
  lemma ListingIsSorted(db: EventDb, filter: Option<StepId>, upTo: Key)
    requires EventDbOk(db)
    ensures IsListing(EventKey, UpTo(db, filter, upTo), Listing(db, filter, upTo))
  {
    KeysDistinguish(db, UpTo(db, filter, upTo));
    SortSetSorts(EventKey, UpTo(db, filter, upTo));
  }

  lemma SortedConcat(done: seq<Event>, page: seq<Event>, at: Key)
    requires Sorted(EventKey, done) && Sorted(EventKey, page)
    requires forall e :: e in Elements(done) ==> LessOrEqual(EventKey(e), at)
    requires forall e :: e in Elements(page) ==> Less(at, EventKey(e))
    ensures Sorted(EventKey, done + page) && Elements(done + page) == Elements(done) + Elements(page)
  {
    var s := done + page;
    forall i: nat, j: nat | i < j < |s| ensures InOrder(EventKey, s, i, j) {
      if j < |done| {
        assert InOrder(EventKey, done, i, j);
      } else if i >= |done| {
        assert InOrder(EventKey, page, i - |done|, j - |done|);
      } else {
        assert s[i] in Elements(done) && s[j] in Elements(page);
      }
    }
    assert forall e :: e in s <==> e in done || e in page;
  }

  /** The first rows of what is visible are all there is between the cursor and the last of them. */
  lemma PageIsComplete(db: EventDb, filter: Option<StepId>, after: Key, page: seq<Event>)
    requires EventDbOk(db) && Settled(db, after) && page != [] && Sorted(EventKey, page)
    requires Elements(page) <= Visible(db, after, filter)
    requires forall x, y :: x in page && y in Visible(db, after, filter) && y !in page ==> Less(EventKey(x), EventKey(y))
    ensures var last := page[|page| - 1];
      && Less(after, EventKey(last)) && Settled(db, EventKey(last))
      && (forall e :: e in Elements(page) ==> Less(after, EventKey(e)))
      && UpTo(db, filter, EventKey(last)) == UpTo(db, filter, after) + Elements(page)
  {
    var last := page[|page| - 1];
    assert last in page && last in Elements(page);
    forall e | e in Elements(page) ensures LessOrEqual(EventKey(e), EventKey(last)) {
      var i :| 0 <= i < |page| && page[i] == e;
      assert i < |page| - 1 ==> InOrder(EventKey, page, i, |page| - 1);
    }
    forall e | e in UpTo(db, filter, EventKey(last)) && e !in UpTo(db, filter, after) ensures e in Elements(page) {
      assert e in Visible(db, after, filter);
      assert e !in page ==> Less(EventKey(last), EventKey(e));
    }
  }

  /** A page: the first rows of what is visible, in order. */
  ghost predicate IsPage(db: EventDb, filter: Option<StepId>, after: Key, page: seq<Event>) {
    && Sorted(EventKey, page) && Elements(page) <= Visible(db, after, filter)
    && (forall x, y :: x in page && y in Visible(db, after, filter) && y !in page ==> Less(EventKey(x), EventKey(y)))
  }

  lemma ListedIsPage(db: EventDb, filter: Option<StepId>, after: Key, limit: int)
    requires EventDbOk(db) && limit >= 1
    ensures var p := ListStepEvents(db, after, filter, limit);
      IsPage(db, filter, after, p.events) && |p.events| == Min(Min(limit, MAX_EVENT_PAGE_SIZE), |Visible(db, after, filter)|)
  {
    var pool := Visible(db, after, filter);
    KeysDistinguish(db, pool);
    SortSetSorts(EventKey, pool);
    FirstOfListing(EventKey, pool, SortSet(EventKey, pool), Min(limit, MAX_EVENT_PAGE_SIZE));
  }

  lemma ListingPlusPage(db: EventDb, filter: Option<StepId>, after: Key, page: seq<Event>)
    requires EventDbOk(db) && Settled(db, after) && page != [] && IsPage(db, filter, after, page)
    ensures Listing(db, filter, after) + page == Listing(db, filter, EventKey(page[|page| - 1]))
  {
    var done, upTo := Listing(db, filter, after), EventKey(page[|page| - 1]);
    PageIsComplete(db, filter, after, page);
    ListingIsSorted(db, filter, after);
    SortedConcat(done, page, after);
    KeysDistinguish(db, UpTo(db, filter, upTo));
    SortSetIs(EventKey, UpTo(db, filter, upTo), done + page);
  }

  /** A page starts exactly after its cursor and leaves no gap: it extends one listing to the next. */
  lemma PageExtendsListing(db: EventDb, filter: Option<StepId>, after: Key, limit: int)
    requires EventDbOk(db) && limit >= 1 && Settled(db, after)
    ensures var p := ListStepEvents(db, after, filter, limit);
      && Listing(db, filter, after) + p.events == Listing(db, filter, p.cursor)
      && LessOrEqual(after, p.cursor) && Settled(db, p.cursor)
      && |p.events| <= limit
  {
    var page := ListStepEvents(db, after, filter, limit).events;
    ListedIsPage(db, filter, after, limit);
    if page != [] {
      PageIsComplete(db, filter, after, page);
      ListingPlusPage(db, filter, after, page);
    } else {
      EmptyPageAddsNothing(db, filter, after);
    }
  }

  lemma EmptyPageAddsNothing(db: EventDb, filter: Option<StepId>, after: Key)
    ensures Listing(db, filter, after) + [] == Listing(db, filter, after)
  {
  }

  // ---------------------------------------------------------------- pages and listings, column by column

  /** `order by xid asc, id asc` */
  predicate Precedes(a: Event, b: Event) {
    a.xid < b.xid || (a.xid == b.xid && a.id < b.id)
  }

  lemma KeyOrder(a: Event, b: Event)
    ensures Less(EventKey(a), EventKey(b)) <==> Precedes(a, b)
  {
  }

  /** `(xid, id) > (cursor.xid, cursor.id)` */
  predicate Beyond(cursor: Key, e: Event) {
    cursor.major < e.xid || (cursor.major == e.xid && cursor.middle < e.id)
  }

  /** A position as a cursor holds it: an xid and an id. */
  predicate IsCursor(k: Key) {
    k.minor == 0
  }

  /** The cursor stands at this event. */
  predicate StandsAt(cursor: Key, e: Event) {
    cursor.major == e.xid && cursor.middle == e.id && cursor.minor == 0
  }

  predicate IsCommitted(db: EventDb, e: Event) {
    e in db.heap && e.xid !in db.running
  }

  predicate OfStep(filter: Option<StepId>, e: Event) {
    filter == None || filter == Some(e.stepId)
  }

  /** A committed event of the step asked for, beyond the cursor, older than every transaction still running. */
  ghost predicate DueToReader(db: EventDb, after: Key, filter: Option<StepId>, e: Event) {
    && IsCommitted(db, e) && OfStep(filter, e) && Beyond(after, e)
    && e.xid < db.nextXid && forall x :: x in db.running ==> e.xid < x
  }

  /**
   * The events are due, in strictly ascending (xid, id) order, at most as many as asked for and never more
   * than 500; one that is due is left out only when the page is full of earlier ones. The cursor then
   * stands at the last, or where it was.
   */
  ghost predicate IsPageOnColumns(db: EventDb, after: Key, filter: Option<StepId>, limit: int, page: PageResult) {
    && page.Page? && |page.events| <= Min(limit, 500)
    && (forall i, j :: 0 <= i < j < |page.events| ==> Precedes(page.events[i], page.events[j]))
    && (forall e :: e in page.events ==> DueToReader(db, after, filter, e))
    && (forall e :: DueToReader(db, after, filter, e) && e !in page.events ==>
          |page.events| == Min(limit, 500) && forall x :: x in page.events ==> Precedes(x, e))
    && if page.events == [] then page.cursor == after else StandsAt(page.cursor, page.events[|page.events| - 1])
  }

  lemma VisibleIff(db: EventDb, after: Key, filter: Option<StepId>, e: Event)
    requires IsCursor(after)
    ensures e in Visible(db, after, filter) <==> DueToReader(db, after, filter, e)
  {
    var m := Xmin(db);
    assert forall x :: x in Unfinished(db) <==> x in db.running || x == db.nextXid;
    if forall x :: x in Unfinished(db) ==> e.xid < x {
      assert e.xid < m;
    }
  }

  /** What listStepEvents returns. */
  lemma PageOnColumns(db: EventDb, after: Key, filter: Option<StepId>, limit: int)
    requires EventDbOk(db) && IsCursor(after)
    ensures limit < 1 ==> ListStepEvents(db, after, filter, limit) == InvalidLimit
    ensures limit >= 1 ==> IsPageOnColumns(db, after, filter, limit, ListStepEvents(db, after, filter, limit))
  {
    if limit >= 1 {
      var pool := Visible(db, after, filter);
      var page := ListStepEvents(db, after, filter, limit).events;
      KeysDistinguish(db, pool);
      SortSetSorts(EventKey, pool);
      FirstOfListing(EventKey, pool, SortSet(EventKey, pool), Min(limit, MAX_EVENT_PAGE_SIZE));
      forall e ensures e in pool <==> DueToReader(db, after, filter, e) {
        VisibleIff(db, after, filter, e);
      }
      forall e | e in page ensures e in pool {
        assert e in Elements(page);
      }
      forall i: nat, j: nat | i < j < |page| ensures Precedes(page[i], page[j]) {
        assert InOrder(EventKey, page, i, j);
      }
    }
  }

  /** A listing is in strictly ascending (xid, id) order and holds the committed events up to its position, no others. */
  lemma ListingOnColumns(db: EventDb, filter: Option<StepId>, upTo: Key)
    requires EventDbOk(db) && IsCursor(upTo)
    ensures var all := Listing(db, filter, upTo);
      && (forall i, j :: 0 <= i < j < |all| ==> Precedes(all[i], all[j]))
      && (forall e :: e in all <==> IsCommitted(db, e) && OfStep(filter, e) && !Beyond(upTo, e))
  {
    var all := Listing(db, filter, upTo);
    ListingIsSorted(db, filter, upTo);
    forall i: nat, j: nat | i < j < |all| ensures Precedes(all[i], all[j]) {
      assert InOrder(EventKey, all, i, j);
    }
    forall e ensures e in all <==> IsCommitted(db, e) && OfStep(filter, e) && !Beyond(upTo, e) {
      assert e in all <==> e in Elements(all);
    }
  }

  // ---------------------------------------------------------------- a reader beside any writers

  datatype Reader = Reader(db: EventDb, filter: Option<StepId>, cursor: Key, delivered: seq<Event>)

  datatype ReaderAction = Writer(w: WriterAction) | Read(limit: int)

  ghost function ReaderStep(r: Reader, a: ReaderAction): Reader {
    match a
    case Writer(w) => r.(db := Write1(r.db, w))
    case Read(limit) =>
      match ListStepEvents(r.db, r.cursor, r.filter, limit)
      case InvalidLimit => r
      case Page(events, cursor) => r.(cursor := cursor, delivered := r.delivered + events)
  }

  ghost function ReaderRun(r: Reader, actions: seq<ReaderAction>): Reader {
    if actions == [] then r else ReaderStep(ReaderRun(r, actions[..|actions| - 1]), actions[|actions| - 1])
  }

  ghost predicate ReaderOk(r: Reader) {
    && EventDbOk(r.db) && IsCursor(r.cursor) && Settled(r.db, r.cursor)
    && r.delivered == Listing(r.db, r.filter, r.cursor)
  }

  lemma ReaderStepKeeps(r: Reader, a: ReaderAction)
    requires ReaderOk(r)
    ensures ReaderOk(ReaderStep(r, a))
  {
    match a
    case Writer(w) =>
      WriteKeepsOk(r.db, w);
      SettledStaysSettled(r.db, w, r.cursor);
      NothingAppearsBehind(r.db, w, r.filter, r.cursor);
    case Read(limit) =>
      if limit >= 1 { PageExtendsListing(r.db, r.filter, r.cursor, limit); }
  }

  function NewReader(filter: Option<StepId>): Reader {
    Reader(EMPTY, filter, START, [])
  }

  /**
   * Whatever the writers do and whatever the page sizes, what one reader has been given is exactly
   * the (xid, id)-sorted list of the committed matching events up to its cursor: none skipped, none
   * repeated, and none that appeared behind it.
   */
  lemma {:induction false} ReaderLosesNothing(filter: Option<StepId>, actions: seq<ReaderAction>)
    ensures ReaderOk(ReaderRun(NewReader(filter), actions))
    ensures ReaderRun(NewReader(filter), actions).filter == filter
  {
    if actions == [] {
      assert UpTo(EMPTY, filter, START) == {};
      assert START.major < Xmin(EMPTY);
    } else {
      var n := |actions| - 1;
      ReaderLosesNothing(filter, actions[..n]);
      ReaderStepKeeps(ReaderRun(NewReader(filter), actions[..n]), actions[n]);
    }
  }

  /** Every read gives the reader the page due at its cursor and moves the cursor to the end of it. */
  lemma EveryReadDelivers(filter: Option<StepId>, actions: seq<ReaderAction>, limit: int)
    requires limit >= 1
    ensures var r := ReaderRun(NewReader(filter), actions);
      exists page :: IsPageOnColumns(r.db, r.cursor, filter, limit, page)
                     && ReaderStep(r, Read(limit)) == r.(cursor := page.cursor, delivered := r.delivered + page.events)
  {
    ReaderLosesNothing(filter, actions);
    var r := ReaderRun(NewReader(filter), actions);
    PageOnColumns(r.db, r.cursor, filter, limit);
  }

  /** The same, column by column. */
  lemma DeliveredOnColumns(filter: Option<StepId>, actions: seq<ReaderAction>)
    ensures var r := ReaderRun(NewReader(filter), actions);
      && (forall i, j :: 0 <= i < j < |r.delivered| ==> Precedes(r.delivered[i], r.delivered[j]))
      && (forall e :: e in r.delivered <==> IsCommitted(r.db, e) && OfStep(filter, e) && !Beyond(r.cursor, e))
  {
    ReaderLosesNothing(filter, actions);
    var r := ReaderRun(NewReader(filter), actions);
    ListingOnColumns(r.db, filter, r.cursor);
  }

  /** An empty page while no transaction is running: the cursor is at the end of the table. */
  lemma NothingVisibleMeansAll(db: EventDb, filter: Option<StepId>, cursor: Key, limit: int)
    requires EventDbOk(db) && db.running == {} && limit >= 1 && ListStepEvents(db, cursor, filter, limit).events == []
    ensures UpTo(db, filter, cursor) == set e | e in Committed(db) && Matches(filter, e)
  {
    ListedIsPage(db, filter, cursor, limit);
    assert Visible(db, cursor, filter) == {} && Unfinished(db) == {db.nextXid};
    forall e | e in Committed(db) && Matches(filter, e) ensures LessOrEqual(EventKey(e), cursor) {
      assert e !in Visible(db, cursor, filter);
    }
  }

  /** A reader that finds nothing more while no transaction is open has everything. */
  lemma EmptyPageMeansComplete(filter: Option<StepId>, actions: seq<ReaderAction>, limit: int)
    requires var r := ReaderRun(NewReader(filter), actions);
      r.db.running == {} && limit >= 1 && ListStepEvents(r.db, r.cursor, filter, limit).events == []
    ensures var r := ReaderRun(NewReader(filter), actions);
      Elements(r.delivered) == set e | e in Committed(r.db) && Matches(filter, e)
  {
    ReaderLosesNothing(filter, actions);
    var r := ReaderRun(NewReader(filter), actions);
    NothingVisibleMeansAll(r.db, filter, r.cursor, limit);
    ListingIsSorted(r.db, filter, r.cursor);
  }

  // ---------------------------------------------------------------- paging on id alone

  /** An event committed at or before the id a reader has passed, that it was not given. */
  ghost predicate Lost(db: EventDb, given: set<Event>, passed: nat) {
    exists e :: e in Committed(db) && e.id <= passed && e !in given
  }

  ghost predicate LostAfter(db: EventDb, given: set<Event>, passed: nat, more: seq<WriterAction>) {
    Lost(WriteAll(db, more), given, passed)
  }

  /** A running transaction already holds an id the reader is about to pass. */
  ghost predicate InFlightBehind(db: EventDb, passed: nat) {
    exists e :: e in db.heap && e.xid in db.running && e.id <= passed
  }

  /**
   * A reader that orders on id alone and has everything committed up to the id it has reached:
   * some continuation of the writers loses it an event if and only if a transaction is in flight
   * behind that id. The watermark is what rules the condition out.
   */
  lemma IdCursorLosesIff(db: EventDb, given: set<Event>, passed: nat)
    requires EventDbOk(db) && given <= Committed(db) && passed < db.nextId && !Lost(db, given, passed)
    ensures (exists more :: LostAfter(db, given, passed, more)) <==> InFlightBehind(db, passed)
  {
    if InFlightBehind(db, passed) {
      var e :| e in db.heap && e.xid in db.running && e.id <= passed;
      CommittingLoses(db, given, passed, e);
      assert LostAfter(db, given, passed, [CommitTx(e.xid)]);
    } else {
      forall more ensures !LostAfter(db, given, passed, more) {
        NothingInFlightNothingLost(db, given, passed, more);
      }
    }
  }

  lemma CommittingLoses(db: EventDb, given: set<Event>, passed: nat, e: Event)
    requires e in db.heap && e.xid in db.running && e.id <= passed && given <= Committed(db)
    ensures Lost(WriteAll(db, [CommitTx(e.xid)]), given, passed)
  {
    var more := [CommitTx(e.xid)];
    assert more[..0] == [];
    assert WriteAll(db, more) == Write1(db, CommitTx(e.xid));
    assert e in Committed(WriteAll(db, more));
  }

  lemma {:induction false} NothingInFlightNothingLost(db: EventDb, given: set<Event>, passed: nat, more: seq<WriterAction>)
    requires EventDbOk(db) && passed < db.nextId && !Lost(db, given, passed) && !InFlightBehind(db, passed)
    ensures var db' := WriteAll(db, more);
      EventDbOk(db') && passed < db'.nextId && !Lost(db', given, passed) && !InFlightBehind(db', passed)
  {
    if more != [] {
      var n := |more| - 1;
      NothingInFlightNothingLost(db, given, passed, more[..n]);
      var p := WriteAll(db, more[..n]);
      var q := Write1(p, more[n]);
      WriteKeepsOk(p, more[n]);
      forall e | e in q.heap && e.id <= passed ensures e.xid !in q.running && e in given {
        assert e in p.heap && e.xid !in p.running;
        assert e in Committed(p);
      }
    }
  }

  /**
   * The hazard itself: B allocates the higher id and commits first. A reader on id alone passes 2,
   * and event 1 is behind it for good; the watermark reader is given nothing until A is finished,
   * then both events, in order.
   */
  lemma OutOfOrderCommit(stepId: StepId, body: EventBody)
    ensures var open := WriteAll(EMPTY, [AssignXid, AssignXid, Insert(1, stepId, body), Insert(2, stepId, body)]);
            var before, after := Write1(open, CommitTx(2)), Write1(Write1(open, CommitTx(2)), CommitTx(1));
            var first, second := Event(1, 1, stepId, body), Event(2, 2, stepId, body);
      && Committed(before) == {second} && Committed(after) == {first, second}
      && !Lost(before, {second}, 2) && Lost(after, {second}, 2)
      && ListStepEvents(before, START, None, 100).events == []
      && ListStepEvents(after, START, None, 100).events == [first, second]
  {
    var l := [AssignXid, AssignXid, Insert(1, stepId, body), Insert(2, stepId, body)];
    var first, second := Event(1, 1, stepId, body), Event(2, 2, stepId, body);
    assert l[..3] == [AssignXid, AssignXid, Insert(1, stepId, body)] && l[..3][..2] == [AssignXid, AssignXid];
    assert l[..3][..2][..1] == [AssignXid] && l[..3][..2][..1][..0] == [];
    var s2 := Write1(Write1(EMPTY, AssignXid), AssignXid);
    assert WriteAll(EMPTY, l[..3][..2][..1]) == Write1(EMPTY, AssignXid);
    assert WriteAll(EMPTY, l[..3][..2]) == s2;
    var open := Write1(Write1(s2, Insert(1, stepId, body)), Insert(2, stepId, body));
    assert WriteAll(EMPTY, l) == open;
    assert open == EventDb(3, 3, {1, 2}, {first, second});
    OutOfOrderReads(Write1(open, CommitTx(2)), Write1(Write1(open, CommitTx(2)), CommitTx(1)), first, second);
  }

  lemma OutOfOrderReads(before: EventDb, after: EventDb, first: Event, second: Event)
    requires first.xid == 1 && first.id == 1 && second.xid == 2 && second.id == 2
    requires before == EventDb(3, 3, {1}, {first, second}) && after == EventDb(3, 3, {}, {first, second})
    ensures Committed(before) == {second} && Committed(after) == {first, second}
    ensures !Lost(before, {second}, 2) && Lost(after, {second}, 2)
    ensures ListStepEvents(before, START, None, 100).events == []
    ensures ListStepEvents(after, START, None, 100).events == [first, second]
  {
    assert first in Committed(after) && first !in {second};
    assert 1 in Unfinished(before);
    assert Visible(before, START, None) == {};
    assert Unfinished(after) == {3};
    assert Visible(after, START, None) == {first, second};
    assert Elements([first, second]) == {first, second};
    SortSetIs(EventKey, {first, second}, [first, second]);
  }
}
