/** `step_events` changed in place, the page query over it, and the polling loop of one stream. */
module EventServer {
  import opened Base
  import opened RowHistory
  import opened Ordering
  import opened EventCursor
  import opened EventStream

  class EventTable {
    var nextXid: nat
    var nextId: nat
    var running: set<nat>
    var heap: set<Event>

    ghost function View(): EventDb reads this {
      EventDb(nextXid, nextId, running, heap)
    }

    ghost predicate Valid() reads this {
      EventDbOk(View())
    }

    constructor ()
      ensures View() == EMPTY && Valid()
    {
      nextXid, nextId, running, heap := 1, 1, {}, {};
    }

    method Write(a: WriterAction)
      requires Valid()
      modifies this
      ensures Valid() && View() == Write1(old(View()), a)
    {
      WriteKeepsOk(View(), a);
      match a {
        case AssignXid =>
          running := running + {nextXid};
          nextXid := nextXid + 1;
        case Insert(xid, stepId, body) =>
          if xid in running {
            heap := heap + {Event(nextId, xid, stepId, body)};
            nextId := nextId + 1;
          }
        case CommitTx(xid) =>
          running := running - {xid};
        case AbortTx(xid) =>
          if xid in running {
            running := running - {xid};
            heap := set e | e in heap && e.xid != xid;
          }
      }
    }

    /** `pg_snapshot_xmin(pg_current_snapshot())` */
    method SnapshotXmin() returns (xmin: nat)
      ensures xmin == Xmin(View())
    {
      xmin := nextXid;
      var rest := running;
      while rest != {}
        invariant rest <= running && xmin in Unfinished(View())
        invariant forall x :: x in Unfinished(View()) && x !in rest ==> xmin <= x
        decreases |rest|
      {
        var x :| x in rest;
        xmin := if x < xmin then x else xmin;
        rest := rest - {x};
      }
      assert xmin <= Xmin(View()) <= xmin;
    }

    method ListStepEvents(after: Key, filter: Option<StepId>, limit: int) returns (page: PageResult)
      requires Valid()
      ensures page == EventCursor.ListStepEvents(View(), after, filter, limit)
      ensures limit < 1 ==> page == InvalidLimit
      ensures limit >= 1 && IsCursor(after) ==> IsPageOnColumns(View(), after, filter, limit, page)
    {
      if limit < 1 {
        return InvalidLimit;
      }
      var xmin := SnapshotXmin();
      var visible := set e | e in heap && e.xid !in running && e.xid < xmin && Less(after, EventKey(e)) && Matches(filter, e);
      assert visible == Visible(View(), after, filter);
      KeysDistinguish(View(), visible);
      if IsCursor(after) { PageOnColumns(View(), after, filter, limit); }
      var events := SelectFirst(EventKey, visible, Min(limit, MAX_EVENT_PAGE_SIZE));
      page := Page(events, if events == [] then after else EventKey(events[|events| - 1]));
    }

    method ResolveEventCursor(eventId: int) returns (cursor: Option<Key>)
      requires Valid()
      ensures cursor == EventStream.ResolveEventCursor(View(), eventId) && IsResolution(View(), eventId, cursor)
    {
      ResolutionOnColumns(View(), eventId);
      if eventId <= 0 {
        return Some(START);
      }
      var found := set e | e in heap && e.xid !in running && e.id == eventId;
      if found == {} {
        assert forall e :: e in Committed(View()) && e.id == eventId ==> e in found;
        return None;
      }
      var e :| e in found;
      ResolveReturnsPosition(View(), e);
      cursor := Some(EventKey(e));
    }
  }

  // ---------------------------------------------------------------- GET /api/events/stream

  method Others(table: EventTable, writers: seq<WriterAction>)
    requires table.Valid()
    modifies table
    ensures table.Valid() && table.View() == WriteAll(old(table.View()), writers)
  {
    for i := 0 to |writers|
      invariant table.Valid() && table.View() == WriteAll(old(table.View()), writers[..i])
    {
      table.Write(writers[i]);
      assert writers[..i + 1][..i] == writers[..i];
    }
    assert writers[..|writers|] == writers;
  }

  lemma WritersKeepListing(db: EventDb, writers: seq<WriterAction>, filter: Option<StepId>, at: Key)
    requires EventDbOk(db) && Settled(db, at)
    ensures EventDbOk(WriteAll(db, writers)) && Settled(WriteAll(db, writers), at)
    ensures Listing(WriteAll(db, writers), filter, at) == Listing(db, filter, at)
  {
    SettledHoldsNothingNew(db, writers, filter, at);
  }

  /** A stream refuses an unknown id before it sends anything. */
  datatype StreamEnd = UnknownId | Closed(cursor: Key)

  /** One turn of a connection: whether the client goes away during the read or the read fails, then the sleep. */
  datatype Turn = Turn(closedInRead: bool, readFails: bool, asleep: seq<WriterAction>, closedAsleep: bool)

  /** A connection as it goes: the table, the server's cursor, what was sent so far, and whether it is still open. */
  datatype Stream = Stream(db: EventDb, cursor: Key, sent: seq<Event>, open: bool)

  /**
   * What one turn does: nothing on a connection that has ended; the end, with nothing sent, if the read
   * fails or the client goes away during it; else a page of 200, all of it, then the sleep.
   */
  ghost predicate IsTurn(filter: Option<StepId>, st: Stream, t: Turn, st': Stream) {
    if !st.open then st' == st
    else if t.readFails || t.closedInRead then st' == st.(open := false)
    else exists page ::
      && IsPageOnColumns(st.db, st.cursor, filter, 200, page)
      && st' == Stream(WriteAll(st.db, t.asleep), page.cursor, st.sent + page.events, !t.closedAsleep)
  }

  ghost function AfterTurn(filter: Option<StepId>, st: Stream, t: Turn): Stream {
    if !st.open then st
    else if t.readFails || t.closedInRead then st.(open := false)
    else match EventCursor.ListStepEvents(st.db, st.cursor, filter, STREAM_PAGE_SIZE)
      case InvalidLimit => st
      case Page(events, cursor) => Stream(WriteAll(st.db, t.asleep), cursor, st.sent + events, !t.closedAsleep)
  }

  lemma TurnOnColumns(filter: Option<StepId>, st: Stream, t: Turn)
    requires EventDbOk(st.db) && IsCursor(st.cursor)
    ensures IsTurn(filter, st, t, AfterTurn(filter, st, t)) && IsCursor(AfterTurn(filter, st, t).cursor)
  {
    PageOnColumns(st.db, st.cursor, filter, 200);
  }

  ghost function AfterTurns(filter: Option<StepId>, st: Stream, turns: seq<Turn>): Stream {
    if turns == [] then st else AfterTurn(filter, AfterTurns(filter, st, turns[..|turns| - 1]), turns[|turns| - 1])
  }

  lemma {:induction false} TurnsKeep(filter: Option<StepId>, st: Stream, turns: seq<Turn>)
    requires EventDbOk(st.db) && IsCursor(st.cursor)
    ensures EventDbOk(AfterTurns(filter, st, turns).db) && IsCursor(AfterTurns(filter, st, turns).cursor)
  {
    if turns != [] {
      var n := |turns| - 1;
      var mid := AfterTurns(filter, st, turns[..n]);
      TurnsKeep(filter, st, turns[..n]);
      TurnOnColumns(filter, mid, turns[n]);
      WritersKeepOk(mid.db, turns[n].asleep);
    }
  }

  lemma {:induction false} WritersKeepOk(db: EventDb, writers: seq<WriterAction>)
    requires EventDbOk(db)
    ensures EventDbOk(WriteAll(db, writers))
  {
    if writers != [] {
      WritersKeepOk(db, writers[..|writers| - 1]);
      WriteKeepsOk(WriteAll(db, writers[..|writers| - 1]), writers[|writers| - 1]);
    }
  }

  lemma {:induction false} EndedStays(filter: Option<StepId>, st: Stream, turns: seq<Turn>, n: nat)
    requires n <= |turns| && !AfterTurns(filter, st, turns[..n]).open
    ensures AfterTurns(filter, st, turns) == AfterTurns(filter, st, turns[..n])
    decreases |turns|
  {
    if n < |turns| {
      var m := |turns| - 1;
      assert turns[..m][..n] == turns[..n];
      EndedStays(filter, st, turns[..m], n);
    } else {
      assert turns[..n] == turns;
    }
  }

  /** However it ends, what a connection sent continues the listing from where it opened to where it ends. */
  lemma {:induction false} TurnsExtendListing(filter: Option<StepId>, st: Stream, turns: seq<Turn>, had: seq<Event>)
    requires EventDbOk(st.db) && Settled(st.db, st.cursor) && had + st.sent == Listing(st.db, filter, st.cursor)
    ensures var st' := AfterTurns(filter, st, turns);
      EventDbOk(st'.db) && Settled(st'.db, st'.cursor) && had + st'.sent == Listing(st'.db, filter, st'.cursor)
  {
    if turns != [] {
      var n := |turns| - 1;
      TurnsExtendListing(filter, st, turns[..n], had);
      TurnExtendsListing(filter, AfterTurns(filter, st, turns[..n]), turns[n], had);
    }
  }

  lemma TurnExtendsListing(filter: Option<StepId>, st: Stream, t: Turn, had: seq<Event>)
    requires EventDbOk(st.db) && Settled(st.db, st.cursor) && had + st.sent == Listing(st.db, filter, st.cursor)
    ensures var st' := AfterTurn(filter, st, t);
      EventDbOk(st'.db) && Settled(st'.db, st'.cursor) && had + st'.sent == Listing(st'.db, filter, st'.cursor)
  {
    PageExtendsListing(st.db, filter, st.cursor, STREAM_PAGE_SIZE);
    var page := EventCursor.ListStepEvents(st.db, st.cursor, filter, STREAM_PAGE_SIZE);
    assert (had + st.sent) + page.events == had + (st.sent + page.events);
    WritersKeepListing(st.db, t.asleep, filter, page.cursor);
  }

  /**
   * One connection: it refuses an unknown id before it sends anything, and otherwise goes through its turns,
   * polling again after every sleep, until the client has gone, a read fails or `turns` is used up.
   */
  method ServeStream(table: EventTable, afterId: int, filter: Option<StepId>, turns: seq<Turn>)
    returns (sent: seq<Event>, end: StreamEnd)
    requires table.Valid()
    modifies table
    ensures table.Valid()
    ensures var db := old(table.View()); var opening := EventStream.ResolveEventCursor(db, afterId);
      && IsResolution(db, afterId, opening)
      && (opening.None? ==> end == UnknownId && sent == [] && table.View() == db)
      && (opening.Some? ==>
            var last := AfterTurns(filter, Stream(db, opening.value, [], true), turns);
            end == Closed(last.cursor) && sent == last.sent && table.View() == last.db)
  {
    sent := [];
    var opening := table.ResolveEventCursor(afterId);
    if opening.None? {
      return [], UnknownId;
    }
    var cursor := opening.value;
    ghost var first := Stream(table.View(), cursor, [], true);
    var aborted, i := false, 0;
    while !aborted && i < |turns|
      invariant table.Valid() && i <= |turns|
      invariant AfterTurns(filter, first, turns[..i]) == Stream(table.View(), cursor, sent, !aborted)
      decreases |turns| - i
    {
      assert turns[..i + 1][..i] == turns[..i];
      if turns[i].readFails || turns[i].closedInRead {
        aborted := true;
      } else {
        sent, cursor := PollOnce(table, filter, cursor, sent);
        Others(table, turns[i].asleep);
        aborted := turns[i].closedAsleep;
      }
      i := i + 1;
    }
    if aborted {
      EndedStays(filter, first, turns, i);
    } else {
      assert turns[..i] == turns;
    }
    end := Closed(cursor);
  }

  /** One turn's read: a page, its events sent one by one, and only then the cursor moved. */
  method PollOnce(table: EventTable, filter: Option<StepId>, cursor: Key, sent: seq<Event>)
    returns (sent': seq<Event>, cursor': Key)
    requires table.Valid()
    ensures var page := EventCursor.ListStepEvents(table.View(), cursor, filter, STREAM_PAGE_SIZE);
      page.Page? && sent' == sent + page.events && cursor' == page.cursor
    ensures IsCursor(cursor) ==>
              IsCursor(cursor') && |sent| <= |sent'| && sent' == sent + sent'[|sent|..]
              && IsPageOnColumns(table.View(), cursor, filter, 200, Page(sent'[|sent|..], cursor'))
  {
    var page := table.ListStepEvents(cursor, filter, STREAM_PAGE_SIZE);
    sent' := sent;
    for j := 0 to |page.events|
      invariant sent' == sent + page.events[..j]
    {
      sent' := sent' + [page.events[j]];
    }
    assert page.events[..|page.events|] == page.events;
    assert sent'[|sent|..] == page.events;
    cursor' := page.cursor;
  }

  /**
   * The id of a delivered event is safe to resume from: the next connection continues the listing exactly
   * where it stopped, whatever the writers did in between.
   */
  lemma ReconnectContinues(db: EventDb, writers: seq<WriterAction>, filter: Option<StepId>, at: Key, n: nat)
    requires EventDbOk(db) && Settled(db, at) && 0 < n <= |Listing(db, filter, at)|
    ensures var received := Listing(db, filter, at)[..n]; var later := WriteAll(db, writers);
      && EventStream.ResolveEventCursor(later, received[n - 1].id) == Some(EventKey(received[n - 1]))
      && Settled(later, EventKey(received[n - 1]))
      && received == Listing(later, filter, EventKey(received[n - 1]))
  {
    var received := Listing(db, filter, at)[..n];
    PrefixOfListing(db, filter, at, n);
    ListingIsSorted(db, filter, at);
    assert received[n - 1] in Elements(Listing(db, filter, at));
    CommittedStays(db, writers, received[n - 1]);
    WritersKeepListing(db, writers, filter, EventKey(received[n - 1]));
  }

  /**
   * An id that was not delivered is not safe: resuming at a committed event, whichever step the stream is
   * filtered to, loses another one in some continuation, exactly when a transaction with an xid below its
   * own is still running.
   */
  lemma ResumingAheadLosesIff(db: EventDb, filter: Option<StepId>, e: Event)
    requires EventDbOk(db) && e in Committed(db)
    ensures (exists writers :: AppearsBehind(db, writers, filter, EventKey(e))) <==> exists x :: x in db.running && x < e.xid
  {
    assert db.nextXid in Unfinished(db);
    if Settled(db, EventKey(e)) {
      forall x | x in db.running ensures x >= e.xid {
        assert x in Unfinished(db);
      }
      forall writers ensures !AppearsBehind(db, writers, filter, EventKey(e)) {
        SettledHoldsNothingNew(db, writers, filter, EventKey(e));
      }
    } else {
      LateEvent(db, filter, e);
    }
  }

  /** Some matching event at or before the position is committed later. */
  ghost predicate AppearsBehind(db: EventDb, writers: seq<WriterAction>, filter: Option<StepId>, at: Key) {
    exists e :: e in UpTo(WriteAll(db, writers), filter, at) && e !in UpTo(db, filter, at)
  }

  lemma {:induction false} SettledHoldsNothingNew(db: EventDb, writers: seq<WriterAction>, filter: Option<StepId>, at: Key)
    requires EventDbOk(db) && Settled(db, at)
    ensures EventDbOk(WriteAll(db, writers)) && Settled(WriteAll(db, writers), at)
    ensures UpTo(WriteAll(db, writers), filter, at) == UpTo(db, filter, at)
  {
    if writers != [] {
      var n := |writers| - 1;
      SettledHoldsNothingNew(db, writers[..n], filter, at);
      var p := WriteAll(db, writers[..n]);
      WriteKeepsOk(p, writers[n]);
      SettledStaysSettled(p, writers[n], at);
      NothingAppearsBehind(p, writers[n], filter, at);
    }
  }

  lemma LateEvent(db: EventDb, filter: Option<StepId>, e: Event)
    requires EventDbOk(db) && e in Committed(db) && !Settled(db, EventKey(e))
    ensures exists writers :: AppearsBehind(db, writers, filter, EventKey(e))
    ensures exists x :: x in db.running && x < e.xid
  {
    var x := Xmin(db);
    assert x != e.xid && x < db.nextXid && x in db.running;
    var stepId := if filter.Some? then filter.value else e.stepId;
    var late := Event(db.nextId, x, stepId, e.body);
    var writers := [Insert(x, stepId, e.body), CommitTx(x)];
    assert writers[..1] == [Insert(x, stepId, e.body)] && writers[..1][..0] == [];
    assert WriteAll(db, writers[..1]) == Write1(db, Insert(x, stepId, e.body));
    assert late in UpTo(WriteAll(db, writers), filter, EventKey(e));
    assert late !in UpTo(db, filter, EventKey(e));
    assert AppearsBehind(db, writers, filter, EventKey(e));
  }
}
