/**
  * The checks `buildRoteadorDashboard` makes of the rows it reads. One row that fails them makes the
  * whole dashboard unavailable.
  */
module DashboardChecks {
  import opened JsValues
  import opened Records
  import opened ProjectionStore
  import opened SupplementRecords
  import opened SupplementStore
  import opened SupplementLinks
  import opened Interleaving
  import History = ProjectionHistory
  import Linked = SupplementHistory

  /** A head joined with the event it refers to. */
  datatype StoredHead = StoredHead(entityId: Text, revision: int, eventId: Text, event: EventRow)

  /** What the builder works on. */
  datatype Sources = Sources(history: seq<Event>, heads: seq<Event>, supplements: seq<(Text, Supplement)>)

  function ParseProjection(row: EventRow): Option<Event> {
    if row.envelope.projectId != ROTEADOR || Records.ContentHash(row.envelope) != row.contentHash then None
    else Some(row.envelope)
  }

  function ParseHead(row: StoredHead): Option<Event> {
    var event := ParseProjection(row.event);
    if event.Some? && (event.value.eventId != row.eventId || event.value.entityId != row.entityId ||
                       event.value.revision != row.revision)
    then None else event
  }

  function ParseSupplement(row: SupplementRow): Option<(Text, Supplement)> {
    if row.envelope.idempotencyKey != SupplementRecords.BodyHash(row.envelope) ||
       SupplementRecords.ContentHash(row.envelope) != row.contentHash
    then None else Some((row.eventId, row.envelope))
  }

  /** `map` with a callback that may throw. */
  function ParseAll<R, T>(parse: R -> Option<T>, rows: seq<R>): Option<seq<T>> {
    if rows == [] then Some([])
    else
      var before, last := ParseAll(parse, rows[..|rows| - 1]), parse(rows[|rows| - 1]);
      if before.Some? && last.Some? then Some(before.value + [last.value]) else None
  }

  function Parse(history: seq<EventRow>, heads: seq<StoredHead>, supplements: seq<SupplementRow>): Option<Sources> {
    var events, current := ParseAll(ParseProjection, history), ParseAll(ParseHead, heads);
    var linked := ParseAll(ParseSupplement, supplements);
    if events.Some? && current.Some? && linked.Some?
    then Some(Sources(events.value, current.value, linked.value)) else None
  }

  // ---------- what the queries return ----------

  ghost function JoinedHeads(t: Tables): set<StoredHead> {
    set key, event | key in t.heads && key.0 == ROTEADOR && event in t.events &&
                     event.eventId == t.heads[key].eventId ::
      StoredHead(key.1, t.heads[key].revision, t.heads[key].eventId, event)
  }

  /** Rows of one snapshot: any selection, in any order. */
  ghost predicate ReadFrom(t: Tables, linked: SupplementTables, history: seq<EventRow>, heads: seq<StoredHead>,
                           supplements: seq<SupplementRow>) {
    && (forall row | row in history :: row in t.events && row.projectId == ROTEADOR)
    && (forall row | row in heads :: row in JoinedHeads(t))
    && (forall row | row in supplements :: row in linked.supplements && row.projectId == ROTEADOR)
  }

  lemma {:induction false} ParsesTo<R, T>(parse: R -> Option<T>, rows: seq<R>, values: seq<T>)
    requires |values| == |rows| && forall i | 0 <= i < |rows| :: parse(rows[i]) == Some(values[i])
    ensures ParseAll(parse, rows) == Some(values)
  {
    if rows != [] {
      var n := |rows| - 1;
      ParsesTo(parse, rows[..n], values[..n]);
      assert values == values[..n] + [values[n]];
    }
  }

  lemma {:induction false} RefusesAll<R, T>(parse: R -> Option<T>, rows: seq<R>, row: R)
    requires row in rows && parse(row) == None
    ensures ParseAll(parse, rows) == None
  {
    var n := |rows| - 1;
    assert rows == rows[..n] + [rows[n]];
    if row != rows[n] {
      RefusesAll(parse, rows[..n], row);
    }
  }

  ghost function EventsIn(rows: seq<EventRow>): seq<Event> {
    seq(|rows|, i requires 0 <= i < |rows| => rows[i].envelope)
  }

  ghost function HeadEventsIn(rows: seq<StoredHead>): seq<Event> {
    seq(|rows|, i requires 0 <= i < |rows| => rows[i].event.envelope)
  }

  ghost function SupplementsIn(rows: seq<SupplementRow>): seq<(Text, Supplement)> {
    seq(|rows|, i requires 0 <= i < |rows| => (rows[i].eventId, rows[i].envelope))
  }

  // ---------- rows of reachable tables ----------

  /** Event tables as deliveries leave them. */
  ghost predicate EventTables(t: Tables, batches: set<Batch>) {
    History.Consistent(batches) && History.Describes(t, batches)
  }

  lemma {:induction false} EventRowParses(t: Tables, batches: set<Batch>, row: EventRow)
    requires EventTables(t, batches) && row in t.events && row.projectId == ROTEADOR
    ensures ParseProjection(row) == Some(row.envelope)
    ensures row == RowOf(row.envelope) && row.envelope in History.EventsOf(batches)
  {
    hide Records.ContentHash, History.HeadsAgree, History.EventsOf;
  }

  /** The event a head is joined with is the one the head was made from. */
  lemma {:induction false} JoinedHead(t: Tables, batches: set<Batch>, key: (Text, Text), row: EventRow)
    requires EventTables(t, batches) && key in t.heads && row in t.events && row.eventId == t.heads[key].eventId
    ensures row.projectId == key.0 && row.entityId == key.1 && row.revision == t.heads[key].revision
    ensures History.Highest(row.envelope, History.EventsOf(batches)) && row == RowOf(row.envelope)
  {
    hide Records.ContentHash, History.EventsOf;
    var events := History.EventsOf(batches);
    assert History.HeadFits(key, t.heads[key], events);
    var e :| History.Highest(e, events) && key == (e.projectId, e.entityId)
             && t.heads[key] == HeadRow(e.revision, e.eventId);
    var f :| f in events && row == RowOf(f);
    assert !History.Clashing(e, f);
  }

  lemma {:induction false} HeadParses(t: Tables, batches: set<Batch>, row: StoredHead)
    requires EventTables(t, batches) && row in JoinedHeads(t)
    ensures ParseHead(row) == Some(row.event.envelope)
  {
    hide Records.ContentHash, EventTables, History.Highest;
    var key, event :| key in t.heads && key.0 == ROTEADOR && event in t.events && event.eventId == t.heads[key].eventId
                      && row == StoredHead(key.1, t.heads[key].revision, t.heads[key].eventId, event);
    JoinedHead(t, batches, key, event);
    EventRowParses(t, batches, event);
  }

  lemma {:induction false} SupplementParses(events: set<EventRow>, linked: SupplementTables,
                                            batches: set<SupplementBatch>, row: SupplementRow)
    requires Linked.Consistent(events, batches) && Linked.Describes(events, linked, batches)
    requires row in linked.supplements
    ensures ParseSupplement(row) == Some((row.eventId, row.envelope))
  {
    hide SupplementRecords.ContentHash, SupplementRecords.BodyHash, Linked.RowFor, Linked.NoClash, Linked.AllLinked;
    var s :| s in Linked.SupplementsOf(batches) && row == Linked.RowFor(events, s);
    Linked.RowForFields(events, s);
    var b :| b in batches && s in b.supplements;
    assert ParsedSupplements(b);
  }

  // ---------- the dashboard never refuses what the endpoints stored ----------

  lemma {:induction false} ReachableTables(s: State, moves: seq<Move>)
    requires Initial(s)
    ensures var end := After(s, moves);
            EventTables(end.tables, History.AcceptedIn(EventBatches(end.log)))
  {
    hide After, Serial, Faithful, History.Run, History.AcceptedIn, History.Consistent, History.Describes;
    InterleavingIsSerial(s, moves);
    SerialEvents(After(s, moves).log);
    History.Reachable(EventBatches(After(s, moves).log));
  }

  /**
    * In every state the two endpoints can reach, under any interleaving, all rows read in one
    * snapshot pass the builder's checks, and it works on the very records that were delivered.
    */
  lemma {:induction false} EveryStoreIsAccepted(s: State, moves: seq<Move>, history: seq<EventRow>,
                                                heads: seq<StoredHead>, supplements: seq<SupplementRow>)
    requires Initial(s)
    requires ReadFrom(After(s, moves).tables, After(s, moves).linked, history, heads, supplements)
    ensures Parse(history, heads, supplements) ==
            Some(Sources(EventsIn(history), HeadEventsIn(heads), SupplementsIn(supplements)))
  {
    hide After, EventTables, ParseProjection, ParseHead, ParseSupplement, JoinedHeads, Linked.Consistent;
    hide History.AcceptedIn, Linked.AcceptedIn, Linked.Describes, ParseAll, Initial;
    var end := After(s, moves);
    var batches := History.AcceptedIn(EventBatches(end.log));
    ReachableTables(s, moves);
    Linked.SupplementsInEveryInterleaving(s, moves);
    forall i | 0 <= i < |history|
      ensures ParseProjection(history[i]) == Some(EventsIn(history)[i])
    {
      assert history[i] in history;
      EventRowParses(end.tables, batches, history[i]);
    }
    forall i | 0 <= i < |heads|
      ensures ParseHead(heads[i]) == Some(HeadEventsIn(heads)[i])
    {
      assert heads[i] in heads;
      HeadParses(end.tables, batches, heads[i]);
    }
    forall i | 0 <= i < |supplements|
      ensures ParseSupplement(supplements[i]) == Some(SupplementsIn(supplements)[i])
    {
      assert supplements[i] in supplements;
      SupplementParses(end.tables.events, end.linked, Linked.AcceptedIn(end.log), supplements[i]);
    }
    ParsesTo(ParseProjection, history, EventsIn(history));
    ParsesTo(ParseHead, heads, HeadEventsIn(heads));
    ParsesTo(ParseSupplement, supplements, SupplementsIn(supplements));
  }

  lemma {:induction false} SameEventId(t: Tables, batches: set<Batch>, row: EventRow, other: EventRow)
    requires EventTables(t, batches) && row in t.events && other in t.events && row.eventId == other.eventId
    ensures row == other
  {
    hide Records.ContentHash, History.HeadsAgree, History.EventsOf;
    var e :| e in History.EventsOf(batches) && row == RowOf(e);
    var f :| f in History.EventsOf(batches) && other == RowOf(f);
    assert !History.Clashing(e, f);
  }

  lemma {:induction false} HeadHasEvent(t: Tables, batches: set<Batch>, key: (Text, Text))
    requires EventTables(t, batches) && key in t.heads
    ensures exists row | row in t.events :: row.eventId == t.heads[key].eventId
  {
    hide Records.ContentHash, History.EventsOf;
    var events := History.EventsOf(batches);
    assert History.HeadFits(key, t.heads[key], events);
    var e :| History.Highest(e, events) && key == (e.projectId, e.entityId)
             && t.heads[key] == HeadRow(e.revision, e.eventId);
    assert RowOf(e) in t.events;
  }

  /** Every head is joined with exactly one event, and no two heads refer to the same event. */
  lemma {:induction false} HeadsJoinOnce(s: State, moves: seq<Move>, key: (Text, Text))
    requires Initial(s) && key in After(s, moves).tables.heads
    ensures var t := After(s, moves).tables;
            && (exists row | row in t.events :: row.eventId == t.heads[key].eventId)
            && (forall row, other | row in t.events && other in t.events &&
                                    row.eventId == t.heads[key].eventId == other.eventId :: row == other)
            && (forall other | other in t.heads && t.heads[other].eventId == t.heads[key].eventId :: other == key)
  {
    hide After, Initial, EventTables, History.AcceptedIn, EventBatches, RowOf, History.Highest;
    var t := After(s, moves).tables;
    var batches := History.AcceptedIn(EventBatches(After(s, moves).log));
    ReachableTables(s, moves);
    HeadHasEvent(t, batches, key);
    forall row, other | row in t.events && other in t.events && row.eventId == t.heads[key].eventId == other.eventId
      ensures row == other
    {
      SameEventId(t, batches, row, other);
    }
    var row :| row in t.events && row.eventId == t.heads[key].eventId;
    JoinedHead(t, batches, key, row);
    forall other | other in t.heads && t.heads[other].eventId == t.heads[key].eventId
      ensures other == key
    {
      JoinedHead(t, batches, other, row);
    }
  }

  lemma {:induction false} RowOfSupplement(s: State, moves: seq<Move>, row: SupplementRow) returns (event: EventRow)
    requires Initial(s) && row in After(s, moves).linked.supplements
    ensures event in After(s, moves).tables.events && PointsTo(row, event)
  {
    hide After, Initial, DistinctRows, PointsTo;
    LinksStayValid(s, moves);
    assert HasEvent(row, After(s, moves).tables.events);
    event :| event in After(s, moves).tables.events && PointsTo(row, event);
  }

  lemma {:induction false} DistinctSupplements(s: State, moves: seq<Move>)
    requires Initial(s)
    ensures DistinctRows(After(s, moves).linked.supplements)
  {
    hide After, Initial, DistinctRows, HasEvent;
    LinksStayValid(s, moves);
  }

  /** No two supplements explain the same event, so the map by event loses none. */
  lemma {:induction false} OneSupplementPerEvent(s: State, moves: seq<Move>, row: SupplementRow, other: SupplementRow)
    requires Initial(s) && row in After(s, moves).linked.supplements && other in After(s, moves).linked.supplements
    requires row.eventId == other.eventId
    ensures row == other
  {
    hide After, Initial, EventTables, History.AcceptedIn, EventBatches;
    ReachableTables(s, moves);
    DistinctSupplements(s, moves);
    var event := RowOfSupplement(s, moves, row);
    var second := RowOfSupplement(s, moves, other);
    SameEventId(After(s, moves).tables, History.AcceptedIn(EventBatches(After(s, moves).log)), event, second);
  }

  /** A joined head is its entity's stored event of highest revision. */
  lemma {:induction false} JoinedIsLatest(t: Tables, batches: set<Batch>, head: StoredHead)
    requires EventTables(t, batches) && head in JoinedHeads(t)
    ensures head.event in t.events && head.event.eventId == head.eventId && head.event.projectId == ROTEADOR
    ensures head.event.entityId == head.entityId && head.event.revision == head.revision
    ensures forall event | event in t.events && event.projectId == ROTEADOR && event.entityId == head.entityId ::
              event.revision <= head.revision
  {
    hide Records.ContentHash, History.EventsOf, History.HeadsAgree, History.NoClash, History.Deliverable;
    var key, joined :| key in t.heads && key.0 == ROTEADOR && joined in t.events
                       && joined.eventId == t.heads[key].eventId
                       && head == StoredHead(key.1, t.heads[key].revision, t.heads[key].eventId, joined);
    JoinedHead(t, batches, key, joined);
  }

  /** A supplement of a head explains its entity's latest revision and carries that decision's hash. */
  lemma {:induction false} HeadSupplementIsCurrent(s: State, moves: seq<Move>, row: SupplementRow, head: StoredHead)
    requires Initial(s) && row in After(s, moves).linked.supplements && head in JoinedHeads(After(s, moves).tables)
    requires row.eventId == head.eventId
    ensures row.entityId == head.entityId && row.revision == head.revision
    ensures row.decisionHash == head.event.envelope.policy.decisionHash
    ensures forall event | event in After(s, moves).tables.events &&
                           event.projectId == ROTEADOR && event.entityId == row.entityId ::
              event.revision <= row.revision
  {
    hide After, Initial, EventTables, History.AcceptedIn, EventBatches, JoinedHeads;
    var t, batches := After(s, moves).tables, History.AcceptedIn(EventBatches(After(s, moves).log));
    ReachableTables(s, moves);
    JoinedIsLatest(t, batches, head);
    var event := RowOfSupplement(s, moves, row);
    SameEventId(t, batches, event, head.event);
  }

  // ---------- the dashboard notices what nobody delivered ----------

  /** A stored event passes exactly when its text is the one its hash was taken of. */
  lemma {:induction false} AlteredEventIff(e: Event, stored: Event)
    requires e.projectId == ROTEADOR
    ensures ParseProjection(RowOf(e).(envelope := stored)).Some? <==> stored == e
  {
    hide Records.ContentHash;
    if Records.ContentHash(stored) == Records.ContentHash(e) {
      Records.ContentHashInjective(stored, e);
    }
  }

  lemma {:induction false} AlteredSupplementIff(s: Supplement, eventId: Text, stored: Supplement)
    requires s.idempotencyKey == SupplementRecords.BodyHash(s)
    ensures ParseSupplement(SupplementRowOf(s, eventId).(envelope := stored)).Some? <==> stored == s
  {
    hide SupplementRecords.ContentHash, SupplementRecords.BodyHash;
    if SupplementRecords.ContentHash(stored) == SupplementRecords.ContentHash(s) {
      SupplementRecords.ContentHashInjective(stored, s);
    }
  }

  /** One altered event among the rows is enough to refuse the dashboard. */
  lemma {:induction false} AlteredStoreIsRefused(history: seq<EventRow>, heads: seq<StoredHead>,
                                                 supplements: seq<SupplementRow>, e: Event, stored: Event)
    requires RowOf(e).(envelope := stored) in history && stored != e && e.projectId == ROTEADOR
    ensures Parse(history, heads, supplements) == None
  {
    hide ParseProjection, ParseHead, ParseSupplement, RowOf, ParseAll;
    AlteredEventIff(e, stored);
    RefusesAll(ParseProjection, history, RowOf(e).(envelope := stored));
  }
}
