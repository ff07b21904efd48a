/** The event tables and `SincService.ingest`. Receive times are not part of the rows. */
module ProjectionStore {
  import opened JsValues
  import opened Records

  const MAX_BATCH_EVENTS := 100
  const ROTEADOR := Ascii("roteador")

  datatype EventRow = EventRow(eventId: Text, idempotencyKey: Text, projectId: Text, entityId: Text, revision: int,
                               contentHash: Text, occurredAt: int, envelope: Event)

  datatype HeadRow = HeadRow(revision: int, eventId: Text)

  datatype BatchRow = BatchRow(batchId: Text, idempotencyKey: Text, projectId: Text, contentHash: Text,
                               generatedAt: int, eventCount: nat)

  type Heads = map<(Text, Text), HeadRow>

  datatype Tables = Tables(events: set<EventRow>, heads: Heads, batches: set<BatchRow>)

  const EMPTY := Tables({}, map[], {})

  datatype Reply =
    | Accepted(inserted: nat, replayed: nat, batchReplayed: bool, batchHash: Text)
    | Conflict
    | BadRequest

  function RowOf(e: Event): EventRow {
    EventRow(e.eventId, e.idempotencyKey, e.projectId, e.entityId, e.revision, ContentHash(e), Epoch(e.occurredAt), e)
  }

  function BatchRowOf(b: Batch): BatchRow {
    BatchRow(b.batchId, b.idempotencyKey, b.projectId, b.batchHash, Epoch(b.generatedAt), |b.events|)
  }

  /** The cross-field checks of `parseSincBatch`. */
  predicate Parsed(b: Batch) {
    && 1 <= |b.events| <= MAX_BATCH_EVENTS
    && (forall i | 0 <= i < |b.events| :: b.events[i].projectId == b.projectId)
    && (forall i, j | 0 <= i < j < |b.events| ::
          b.events[i].eventId != b.events[j].eventId && b.events[i].idempotencyKey != b.events[j].idempotencyKey)
    && b.batchHash == BodyHash(b)
  }

  // ---------- one event ----------

  /** The three unique keys of the event table. */
  predicate SharesKey(r: EventRow, e: Event) {
    || r.eventId == e.eventId
    || r.idempotencyKey == e.idempotencyKey
    || (r.projectId == e.projectId && r.entityId == e.entityId && r.revision == e.revision)
  }

  function Matches(rows: set<EventRow>, e: Event): set<EventRow> {
    set r | r in rows && SharesKey(r, e)
  }

  /** The only match is this very event. */
  predicate IsReplay(matches: set<EventRow>, e: Event) {
    |matches| == 1 &&
    forall r | r in matches ::
      r.eventId == e.eventId && r.idempotencyKey == e.idempotencyKey && r.contentHash == ContentHash(e)
  }

  /** INSERT ... ON CONFLICT DO UPDATE ... WHERE the stored revision is lower. */
  function UpsertHead(heads: Heads, e: Event): Heads {
    var key := (e.projectId, e.entityId);
    if key in heads && heads[key].revision >= e.revision then heads
    else heads[key := HeadRow(e.revision, e.eventId)]
  }

  datatype Progress =
    | Going(events: set<EventRow>, heads: Heads, inserted: nat, replayed: nat)
    | Clash

  function Step(p: Progress, e: Event): Progress {
    match p
    case Clash => Clash
    case Going(events, heads, inserted, replayed) =>
      var matches := Matches(events, e);
      if matches == {} then Going(events + {RowOf(e)}, UpsertHead(heads, e), inserted + 1, replayed)
      else if IsReplay(matches, e) then Going(events, heads, inserted, replayed + 1)
      else Clash
  }

  function Process(start: Progress, events: seq<Event>): Progress {
    if events == [] then start
    else Step(Process(start, events[..|events| - 1]), events[|events| - 1])
  }

  // ---------- one batch ----------

  function PriorBatches(rows: set<BatchRow>, b: Batch): set<BatchRow> {
    set r | r in rows && (r.batchId == b.batchId || r.idempotencyKey == b.idempotencyKey)
  }

  predicate IsBatchReplay(prior: set<BatchRow>, b: Batch) {
    |prior| == 1 &&
    forall r | r in prior ::
      r.batchId == b.batchId && r.idempotencyKey == b.idempotencyKey && r.contentHash == b.batchHash
  }

  /** `ingest` as a function of the tables it starts from. */
  ghost function Ingested(t: Tables, b: Batch): (Tables, Reply) {
    if !Parsed(b) || b.projectId != ROTEADOR then (t, BadRequest)
    else
      var prior := PriorBatches(t.batches, b);
      if prior != {} then
        if IsBatchReplay(prior, b) then
          var row :| row in prior;
          (t, Accepted(0, row.eventCount, true, b.batchHash))
        else (t, Conflict)
      else
        match Process(Going(t.events, t.heads, 0, 0), b.events)
        case Clash => (t, Conflict)
        case Going(events, heads, inserted, replayed) =>
          (Tables(events, heads, t.batches + {BatchRowOf(b)}), Accepted(inserted, replayed, false, b.batchHash))
  }

  class SincService {
    var tables: Tables

    constructor ()
      ensures tables == EMPTY
    {
      tables := EMPTY;
    }

    /** The transaction works on its own view of the tables; only its end assigns them. */
    method Ingest(batch: Batch) returns (reply: Reply)
      modifies this
      ensures (tables, reply) == Ingested(old(tables), batch)
    {
      if !Parsed(batch) || batch.projectId != ROTEADOR {
        return BadRequest;
      }
      var prior := PriorBatches(tables.batches, batch);
      if prior != {} {
        if !IsBatchReplay(prior, batch) {
          return Conflict;
        }
        var row :| row in prior;
        OnlyMember(prior, row);
        return Accepted(0, row.eventCount, true, batch.batchHash);
      }
      var progress := InsertEvents(tables.events, tables.heads, batch.events);
      if progress.Clash? {
        return Conflict;
      }
      tables := Tables(progress.events, progress.heads, tables.batches + {BatchRowOf(batch)});
      return Accepted(progress.inserted, progress.replayed, false, batch.batchHash);
    }
  }

  /** The loop over a batch's events, on the transaction's view of the event and head tables. */
  method InsertEvents(rows: set<EventRow>, headRows: Heads, batch: seq<Event>) returns (progress: Progress)
    ensures progress == Process(Going(rows, headRows, 0, 0), batch)
  {
    hide RowOf, Matches, IsReplay, UpsertHead;
    var events, heads := rows, headRows;
    var inserted: nat, replayed: nat := 0, 0;
    ghost var start := Going(rows, headRows, 0, 0);
    var i := 0;
    while i < |batch|
      invariant 0 <= i <= |batch|
      invariant Process(start, batch[..i]) == Going(events, heads, inserted, replayed)
    {
      ProcessNext(start, batch, i);
      var matches := Matches(events, batch[i]);
      if matches == {} {
        events, heads, inserted := events + {RowOf(batch[i])}, UpsertHead(heads, batch[i]), inserted + 1;
      } else if IsReplay(matches, batch[i]) {
        replayed := replayed + 1;
      } else {
        ClashStays(start, batch, i + 1);
        return Clash;
      }
      i := i + 1;
    }
    ProcessWhole(start, batch);
    return Going(events, heads, inserted, replayed);
  }

  lemma {:induction false} ProcessWhole(start: Progress, events: seq<Event>)
    ensures Process(start, events[..|events|]) == Process(start, events)
  {
    assert events[..|events|] == events;
  }

  lemma {:induction false} ProcessNext(start: Progress, events: seq<Event>, i: nat)
    requires i < |events|
    ensures Process(start, events[..i + 1]) == Step(Process(start, events[..i]), events[i])
  {
    assert events[..i + 1][..i] == events[..i];
  }

  lemma {:induction false} OnlyMember<T>(s: set<T>, x: T)
    requires |s| == 1 && x in s
    ensures s == {x}
  {
    assert |s - {x}| == 0;
  }

  lemma {:induction false} ClashStays(start: Progress, events: seq<Event>, n: nat)
    requires n <= |events|
    requires Process(start, events[..n]) == Clash
    ensures Process(start, events) == Clash
    decreases |events| - n
  {
    if n == |events| {
      assert events[..n] == events;
    } else {
      ProcessNext(start, events, n);
      ClashStays(start, events, n + 1);
    }
  }
}
