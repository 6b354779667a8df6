/**
 * Clients of the event stream: server/src/api/events.ts. The server keeps nothing between
 * connections; the client keeps the id of the last event it received and hands it back.
 */
module EventStream {
  import opened Base
  import opened RowHistory
  import opened Ordering
  import opened EventCursor

  /** `resolveEventCursor`: None is the unknown id that the API answers with 400. */
  ghost function ResolveEventCursor(db: EventDb, eventId: int): Option<Key> {
    if eventId <= 0 then Some(START)
    else if e :| e in Committed(db) && e.id == eventId then Some(EventKey(e))
    else None
  }

  /** The answer for an id: the start for 0 or less, the event's own position if one is committed under it, else a refusal. */
  ghost predicate IsResolution(db: EventDb, eventId: int, cursor: Option<Key>) {
    match cursor
    case None => eventId > 0 && forall e :: IsCommitted(db, e) ==> e.id != eventId
    case Some(k) =>
      if eventId <= 0 then k == Key(0, 0, 0)
      else exists e :: IsCommitted(db, e) && e.id == eventId && StandsAt(k, e)
  }

  lemma ResolutionOnColumns(db: EventDb, eventId: int)
    ensures IsResolution(db, eventId, ResolveEventCursor(db, eventId))
    ensures ResolveEventCursor(db, eventId).Some? ==> IsCursor(ResolveEventCursor(db, eventId).value)
  {
    if eventId > 0 && ResolveEventCursor(db, eventId).None? {
      forall e | IsCommitted(db, e) ensures e.id != eventId {
        assert e in Committed(db);
      }
    } else if eventId > 0 {
      var e :| e in Committed(db) && e.id == eventId && ResolveEventCursor(db, eventId) == Some(EventKey(e));
      assert IsCommitted(db, e) && StandsAt(EventKey(e), e);
    }
  }

  /** A delivered id resolves, for ever after, to exactly the position it was delivered at. */
  lemma ResolveReturnsPosition(db: EventDb, e: Event)
    requires EventDbOk(db) && e in Committed(db)
    ensures ResolveEventCursor(db, e.id) == Some(EventKey(e))
  {
  }

  lemma {:induction false} CommittedStays(db: EventDb, more: seq<WriterAction>, e: Event)
    requires EventDbOk(db) && e in Committed(db)
    ensures EventDbOk(WriteAll(db, more)) && e in Committed(WriteAll(db, more))
    ensures ResolveEventCursor(WriteAll(db, more), e.id) == Some(EventKey(e))
  {
    if more != [] {
      CommittedStays(db, more[..|more| - 1], e);
      WriteKeepsOk(WriteAll(db, more[..|more| - 1]), more[|more| - 1]);
    }
    ResolveReturnsPosition(WriteAll(db, more), e);
  }

  /** One open connection: the server's cursor and what it has written that the client has not read. */
  datatype Connection = Connection(cursor: Key, wire: seq<Event>)

  datatype Client = Client(db: EventDb, filter: Option<StepId>, received: seq<Event>, connection: Option<Connection>)

  datatype ClientAction =
    | Writers(w: WriterAction)
    | Connect            // sends the last received id, or none
    | Poll(limit: int)   // the server reads one page and writes it out
    | Receive            // the client reads one event
    | Disconnect         // at any point: whatever was still on the wire is gone

  const STREAM_PAGE_SIZE := 200

  function LastId(received: seq<Event>): int {
    if received == [] then 0 else received[|received| - 1].id
  }

  ghost function ClientStep(c: Client, a: ClientAction): Client {
    match a
    case Writers(w) => c.(db := Write1(c.db, w))
    case Connect =>
      if c.connection.Some? then c else
      (match ResolveEventCursor(c.db, LastId(c.received))
       case None => c
       case Some(cursor) => c.(connection := Some(Connection(cursor, []))))
    case Poll(limit) =>
      if c.connection.None? then c else
      (match ListStepEvents(c.db, c.connection.value.cursor, c.filter, limit)
       case InvalidLimit => c
       case Page(events, cursor) => c.(connection := Some(Connection(cursor, c.connection.value.wire + events))))
    case Receive =>
      if c.connection.None? || c.connection.value.wire == [] then c else
        var wire := c.connection.value.wire;
        c.(received := c.received + [wire[0]], connection := Some(c.connection.value.(wire := wire[1..])))
    case Disconnect => c.(connection := None)
  }

  ghost function ClientRun(c: Client, actions: seq<ClientAction>): Client {
    if actions == [] then c else ClientStep(ClientRun(c, actions[..|actions| - 1]), actions[|actions| - 1])
  }

  function LastKey(received: seq<Event>): Key {
    if received == [] then START else EventKey(received[|received| - 1])
  }

  /** The client has everything up to the last event it received; with the wire, up to the server's cursor. */
  ghost predicate ClientOk(c: Client) {
    && EventDbOk(c.db) && Settled(c.db, LastKey(c.received))
    && c.received == Listing(c.db, c.filter, LastKey(c.received))
    && (c.connection.Some? ==>
          && Settled(c.db, c.connection.value.cursor)
          && c.received + c.connection.value.wire == Listing(c.db, c.filter, c.connection.value.cursor))
  }

  /** In a sorted list, the first n items are those up to the n-th. */
  lemma SortedPrefix(all: seq<Event>, n: nat)
    requires Sorted(EventKey, all) && 0 < n <= |all|
    ensures Sorted(EventKey, all[..n])
    ensures forall e :: e in Elements(all[..n]) <==> e in Elements(all) && LessOrEqual(EventKey(e), EventKey(all[n - 1]))
  {
    var p := all[..n];
    forall i: nat, j: nat | i < j < n ensures InOrder(EventKey, p, i, j) {
      assert InOrder(EventKey, all, i, j);
    }
    forall e | e in Elements(all) && LessOrEqual(EventKey(e), EventKey(all[n - 1])) ensures e in Elements(p) {
      var i :| 0 <= i < |all| && all[i] == e;
      assert i > n - 1 ==> InOrder(EventKey, all, n - 1, i);
      assert i < n && p[i] == e;
    }
    forall e | e in Elements(p) ensures e in Elements(all) && LessOrEqual(EventKey(e), EventKey(all[n - 1])) {
      var i :| 0 <= i < n && p[i] == e;
      assert all[i] == e;
      assert i < n - 1 ==> InOrder(EventKey, all, i, n - 1);
    }
  }

  /** The beginning of a listing is the listing up to its own last event. */
  lemma PrefixOfListing(db: EventDb, filter: Option<StepId>, at: Key, n: nat)
    requires EventDbOk(db) && n <= |Listing(db, filter, at)| && Settled(db, at)
    ensures var p := Listing(db, filter, at)[..n];
      p == Listing(db, filter, LastKey(p)) && Settled(db, LastKey(p))
  {
    var all := Listing(db, filter, at);
    var p := all[..n];
    ListingIsSorted(db, filter, at);
    if n == 0 {
      NothingUpToStart(db, filter);
    } else {
      assert all[n - 1] in Elements(all);
      SortedPrefix(all, n);
      KeysDistinguish(db, UpTo(db, filter, LastKey(p)));
      assert Elements(p) == UpTo(db, filter, LastKey(p));
      SortSetIs(EventKey, UpTo(db, filter, LastKey(p)), p);
    }
  }

  lemma NothingUpToStart(db: EventDb, filter: Option<StepId>)
    requires EventDbOk(db)
    ensures Listing(db, filter, START) == [] && Settled(db, START)
  {
  }

  lemma {:induction false} LastIsDelivered(db: EventDb, filter: Option<StepId>, received: seq<Event>)
    requires EventDbOk(db) && received == Listing(db, filter, LastKey(received))
    ensures ResolveEventCursor(db, LastId(received)) == Some(LastKey(received))
  {
    if received != [] {
      ListingIsSorted(db, filter, LastKey(received));
      var last := received[|received| - 1];
      assert last in Elements(received);
      ResolveReturnsPosition(db, last);
    }
  }

  lemma WritersKeepClient(c: Client, w: WriterAction)
    requires ClientOk(c)
    ensures ClientOk(ClientStep(c, Writers(w)))
  {
    WriteKeepsOk(c.db, w);
    SettledStaysSettled(c.db, w, LastKey(c.received));
    NothingAppearsBehind(c.db, w, c.filter, LastKey(c.received));
    if c.connection.Some? {
      SettledStaysSettled(c.db, w, c.connection.value.cursor);
      NothingAppearsBehind(c.db, w, c.filter, c.connection.value.cursor);
    }
  }

  lemma PollKeepsClient(c: Client, limit: int)
    requires ClientOk(c)
    ensures ClientOk(ClientStep(c, Poll(limit)))
  {
    if c.connection.Some? && limit >= 1 {
      var k := c.connection.value;
      PageExtendsListing(c.db, c.filter, k.cursor, limit);
      var events := ListStepEvents(c.db, k.cursor, c.filter, limit).events;
      assert (c.received + k.wire) + events == c.received + (k.wire + events);
    }
  }

  lemma ReceiveKeepsClient(c: Client)
    requires ClientOk(c)
    ensures ClientOk(ClientStep(c, Receive))
  {
    if c.connection.Some? && c.connection.value.wire != [] {
      var k := c.connection.value;
      var all := Listing(c.db, c.filter, k.cursor);
      var received := c.received + [k.wire[0]];
      assert all == c.received + k.wire;
      assert all[..|received|] == received;
      assert received + k.wire[1..] == all;
      PrefixOfListing(c.db, c.filter, k.cursor, |received|);
    }
  }

  lemma ClientStepKeeps(c: Client, a: ClientAction)
    requires ClientOk(c)
    ensures ClientOk(ClientStep(c, a))
  {
    match a
    case Writers(w) => WritersKeepClient(c, w);
    case Connect =>
      LastIsDelivered(c.db, c.filter, c.received);
      assert c.received + [] == c.received;
    case Poll(limit) => PollKeepsClient(c, limit);
    case Receive => ReceiveKeepsClient(c);
    case Disconnect =>
  }

  function NewClient(filter: Option<StepId>): Client {
    Client(EMPTY, filter, [], None)
  }

  lemma NewClientOk(filter: Option<StepId>)
    ensures ClientOk(NewClient(filter))
  {
  }

  lemma {:induction false} ClientsStayOk(filter: Option<StepId>, actions: seq<ClientAction>)
    ensures ClientOk(ClientRun(NewClient(filter), actions))
    ensures ClientRun(NewClient(filter), actions).filter == filter
  {
    if actions == [] {
      NewClientOk(filter);
    } else {
      ClientsStayOk(filter, actions[..|actions| - 1]);
      ClientStepKeeps(ClientRun(NewClient(filter), actions[..|actions| - 1]), actions[|actions| - 1]);
    }
  }

  /**
   * Over all its connections, however they were cut, a client has received one gap-free and
   * duplicate-free beginning of the (xid, id) order, and it can always reconnect where it stopped.
   */
  lemma ResumeLosesNothing(filter: Option<StepId>, actions: seq<ClientAction>)
    ensures var c := ClientRun(NewClient(filter), actions);
      && c.received == Listing(c.db, filter, LastKey(c.received))
      && ResolveEventCursor(c.db, LastId(c.received)) == Some(LastKey(c.received))
  {
    ClientsStayOk(filter, actions);
    var c := ClientRun(NewClient(filter), actions);
    LastIsDelivered(c.db, filter, c.received);
  }

  /** What a client received is in strictly ascending (xid, id) order and complete up to its last event. */
  lemma ReceivedOnColumns(filter: Option<StepId>, actions: seq<ClientAction>)
    ensures var c := ClientRun(NewClient(filter), actions);
      && (forall i, j :: 0 <= i < j < |c.received| ==> Precedes(c.received[i], c.received[j]))
      && (forall e :: e in c.received ==> IsCommitted(c.db, e) && OfStep(filter, e))
      && (forall e :: IsCommitted(c.db, e) && OfStep(filter, e) && e !in c.received ==>
            c.received == [] || Precedes(c.received[|c.received| - 1], e))
  {
    ClientsStayOk(filter, actions);
    var c := ClientRun(NewClient(filter), actions);
    ListingOnColumns(c.db, filter, LastKey(c.received));
    forall e | IsCommitted(c.db, e) && OfStep(filter, e) && e !in c.received
      ensures c.received == [] || Precedes(c.received[|c.received| - 1], e)
    {
      assert Beyond(LastKey(c.received), e);
    }
  }

  /** While connected, every poll writes out the page that is due at the connection's cursor, and moves it there. */
  lemma PollWritesThePage(c: Client, limit: int)
    requires EventDbOk(c.db) && c.connection.Some? && IsCursor(c.connection.value.cursor) && limit >= 1
    ensures var k := c.connection.value; var c' := ClientStep(c, Poll(limit));
      exists page :: IsPageOnColumns(c.db, k.cursor, c.filter, limit, page)
                     && c' == c.(connection := Some(Connection(page.cursor, k.wire + page.events)))
  {
    PageOnColumns(c.db, c.connection.value.cursor, c.filter, limit);
  }

  /** A client that is not connected can always connect, and is served from where it stopped. */
  lemma AlwaysReconnects(filter: Option<StepId>, actions: seq<ClientAction>)
    requires ClientRun(NewClient(filter), actions).connection.None?
    ensures var c := ClientRun(NewClient(filter), actions); var c' := ClientStep(c, Connect);
      && c'.received == c.received && c'.db == c.db && c'.connection.Some? && c'.connection.value.wire == []
      && var k := c'.connection.value.cursor;
         if c.received == [] then k == Key(0, 0, 0) else StandsAt(k, c.received[|c.received| - 1])
  {
    ResumeLosesNothing(filter, actions);
  }

  /** What was written out arrives, event by event in order, unless the connection is cut first. */
  lemma ReceivesInOrder(c: Client)
    requires c.connection.Some? && c.connection.value.wire != []
    ensures var wire := c.connection.value.wire; var c' := ClientStep(c, Receive);
      && c'.received == c.received + [wire[0]]
      && c'.connection == Some(Connection(c.connection.value.cursor, wire[1..]))
  {
  }

  /** A client that has read all its connection wrote, when a poll finds nothing and nothing is running, has everything. */
  lemma CaughtUpClientHasEverything(filter: Option<StepId>, actions: seq<ClientAction>, limit: int)
    requires var c := ClientRun(NewClient(filter), actions);
      && c.connection.Some? && c.connection.value.wire == [] && c.db.running == {} && limit >= 1
      && ClientStep(c, Poll(limit)) == c
    ensures var c := ClientRun(NewClient(filter), actions);
      forall e :: e in c.received <==> IsCommitted(c.db, e) && OfStep(filter, e)
  {
    ClientsStayOk(filter, actions);
    var c := ClientRun(NewClient(filter), actions);
    var k := c.connection.value;
    var page := ListStepEvents(c.db, k.cursor, filter, limit);
    assert k.wire + page.events == page.events;
    NothingVisibleMeansAll(c.db, filter, k.cursor, limit);
    assert c.received + [] == c.received;
    ListingIsSorted(c.db, filter, k.cursor);
    forall e ensures e in c.received <==> IsCommitted(c.db, e) && OfStep(filter, e) {
      assert e in c.received <==> e in Elements(c.received);
    }
  }

  // ---------------------------------------------------------------- GET /api/events

  const DEFAULT_EVENT_PAGE_SIZE := 100

  datatype RestReply = RestPage(events: seq<Event>, nextAfterId: Option<int>) | BadRequest

  ghost function RestEvents(db: EventDb, afterId: Option<int>, filter: Option<StepId>, limit: Option<int>): RestReply {
    match ResolveEventCursor(db, if afterId.Some? then afterId.value else 0)
    case None => BadRequest
    case Some(cursor) =>
      match ListStepEvents(db, cursor, filter, if limit.Some? then limit.value else DEFAULT_EVENT_PAGE_SIZE)
      case InvalidLimit => BadRequest
      case Page(events, _) =>
        RestPage(events, if events != [] then Some(events[|events| - 1].id) else afterId)
  }

  /** The reply: a refusal exactly for an unknown id or a limit below 1; else the page at the resolved position, of 100 unless asked otherwise. */
  lemma RestOnColumns(db: EventDb, afterId: Option<int>, filter: Option<StepId>, limit: Option<int>)
    requires EventDbOk(db)
    ensures var reply := RestEvents(db, afterId, filter, limit);
            var id, size := if afterId.Some? then afterId.value else 0, if limit.Some? then limit.value else 100;
      && (reply.BadRequest? <==> size < 1 || IsResolution(db, id, None))
      && (reply.RestPage? ==>
            exists after, page :: IsResolution(db, id, Some(after)) && IsPageOnColumns(db, after, filter, size, page)
                                  && reply.events == page.events)
  {
    var id, size := if afterId.Some? then afterId.value else 0, if limit.Some? then limit.value else 100;
    var cursor := ResolveEventCursor(db, id);
    ResolutionOnColumns(db, id);
    if cursor.Some? {
      PageOnColumns(db, cursor.value, filter, size);
      var page := ListStepEvents(db, cursor.value, filter, size);
      assert size >= 1 ==> IsPageOnColumns(db, cursor.value, filter, size, page);
      assert !IsResolution(db, id, None) by {
        if id > 0 {
          var e :| IsCommitted(db, e) && e.id == id && StandsAt(cursor.value, e);
        }
      }
    }
  }

  lemma PageEndsCommitted(db: EventDb, after: Key, filter: Option<StepId>, limit: int)
    requires EventDbOk(db) && limit >= 1
    ensures var events := ListStepEvents(db, after, filter, limit).events;
      events != [] ==> events[|events| - 1] in Committed(db)
  {
    var events := ListStepEvents(db, after, filter, limit).events;
    if events != [] {
      var pool := Visible(db, after, filter);
      KeysDistinguish(db, pool);
      SortSetSorts(EventKey, pool);
      var all := SortSet(EventKey, pool);
      assert events[|events| - 1] == all[|events| - 1] && all[|events| - 1] in Elements(all);
    }
  }

  /** `nextAfterId`, handed back at any later time, resolves to exactly where this page stopped. */
  lemma RestPagesMeet(db: EventDb, more: seq<WriterAction>, afterId: Option<int>, filter: Option<StepId>, limit: Option<int>)
    requires EventDbOk(db) && RestEvents(db, afterId, filter, limit).RestPage?
    ensures var reply := RestEvents(db, afterId, filter, limit);
      if reply.events == [] then reply.nextAfterId == afterId
      else reply.nextAfterId.Some?
           && ResolveEventCursor(WriteAll(db, more), reply.nextAfterId.value) == Some(EventKey(reply.events[|reply.events| - 1]))
  {
    var reply := RestEvents(db, afterId, filter, limit);
    if reply.events != [] {
      var cursor := ResolveEventCursor(db, if afterId.Some? then afterId.value else 0).value;
      PageEndsCommitted(db, cursor, filter, if limit.Some? then limit.value else DEFAULT_EVENT_PAGE_SIZE);
      CommittedStays(db, more, reply.events[|reply.events| - 1]);
    }
  }

  /** Handing a settled position to the endpoint extends its listing without a gap. */
  lemma RestPageExtends(db: EventDb, afterId: Option<int>, filter: Option<StepId>, limit: Option<int>, cursor: Key)
    requires EventDbOk(db) && RestEvents(db, afterId, filter, limit).RestPage? && Settled(db, cursor)
    requires ResolveEventCursor(db, if afterId.Some? then afterId.value else 0) == Some(cursor)
    ensures var events := RestEvents(db, afterId, filter, limit).events;
      Listing(db, filter, cursor) + events
        == Listing(db, filter, if events == [] then cursor else EventKey(events[|events| - 1]))
  {
    PageExtendsListing(db, filter, cursor, if limit.Some? then limit.value else DEFAULT_EVENT_PAGE_SIZE);
  }
}
