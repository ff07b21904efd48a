/** The supplement tables and `ingestSupplements`, which links each supplement to a stored event. */
module SupplementStore {
  import opened JsValues
  import opened Records
  import opened ProjectionStore
  import opened SupplementRecords

  datatype SupplementRow = SupplementRow(supplementId: Text, idempotencyKey: Text, projectId: Text, entityId: Text,
                                         revision: int, decisionHash: Text, eventId: Text, contentHash: Text,
                                         occurredAt: int, envelope: Supplement)

  datatype SupplementTables = SupplementTables(supplements: set<SupplementRow>, batches: set<BatchRow>)

  const NO_SUPPLEMENTS := SupplementTables({}, {})

  function SupplementRowOf(s: Supplement, eventId: Text): SupplementRow {
    SupplementRow(s.supplementId, s.idempotencyKey, s.projectId, s.entityId, s.revision, s.decisionHash, eventId,
                  SupplementRecords.ContentHash(s), Epoch(s.occurredAt), s)
  }

  function SupplementBatchRowOf(b: SupplementBatch): BatchRow {
    BatchRow(b.batchId, b.idempotencyKey, b.projectId, b.batchHash, Epoch(b.generatedAt), |b.supplements|)
  }

  /** The checks of `parseRouteDashboardSupplementBatch` across fields and records. */
  predicate ParsedSupplements(b: SupplementBatch) {
    && 1 <= |b.supplements| <= MAX_BATCH_EVENTS
    && b.projectId == ROTEADOR
    && (forall i | 0 <= i < |b.supplements| ::
          b.supplements[i].projectId == ROTEADOR
            && b.supplements[i].idempotencyKey == SupplementRecords.BodyHash(b.supplements[i]))
    && (forall i, j | 0 <= i < j < |b.supplements| :: DifferentKeys(b.supplements[i], b.supplements[j]))
    && b.idempotencyKey == CoreHash(b)
    && b.batchHash == KeyedHash(b)
  }

  predicate DifferentKeys(s: Supplement, t: Supplement) {
    && s.supplementId != t.supplementId
    && s.idempotencyKey != t.idempotencyKey
    && !(s.projectId == t.projectId && s.entityId == t.entityId && s.revision == t.revision
         && s.decisionHash == t.decisionHash)
  }

  // ---------- one supplement ----------

  predicate SameLink(projectId: Text, entityId: Text, revision: int, s: Supplement) {
    projectId == s.projectId && entityId == s.entityId && revision == s.revision
  }

  /** The event with the supplement's project, entity and revision; the table's unique key allows one. */
  function Linked(events: set<EventRow>, s: Supplement): set<EventRow> {
    set r | r in events && SameLink(r.projectId, r.entityId, r.revision, s)
  }

  predicate LinkAgrees(r: EventRow, s: Supplement) {
    r.envelope.policy.decisionHash == s.decisionHash && Epoch(r.envelope.occurredAt) == Epoch(s.occurredAt)
  }

  function SupplementMatches(rows: set<SupplementRow>, s: Supplement): set<SupplementRow> {
    set r | r in rows &&
            (r.supplementId == s.supplementId || r.idempotencyKey == s.idempotencyKey ||
             SameLink(r.projectId, r.entityId, r.revision, s))
  }

  predicate IsSupplementReplay(matches: set<SupplementRow>, s: Supplement, eventId: Text) {
    |matches| == 1 &&
    forall r | r in matches ::
      r.supplementId == s.supplementId && r.idempotencyKey == s.idempotencyKey &&
      r.contentHash == SupplementRecords.ContentHash(s) && r.eventId == eventId
  }

  datatype LinkProgress =
    | Linking(supplements: set<SupplementRow>, inserted: nat, replayed: nat)
    | MissingEvent
    | Divergent

  /** Match, replay or insert, once the linked event has been found and agrees. */
  function StoreSupplement(p: LinkProgress, s: Supplement, eventId: Text): LinkProgress
    requires p.Linking?
  {
    var matches := SupplementMatches(p.supplements, s);
    if matches == {} then Linking(p.supplements + {SupplementRowOf(s, eventId)}, p.inserted + 1, p.replayed)
    else if IsSupplementReplay(matches, s, eventId) then Linking(p.supplements, p.inserted, p.replayed + 1)
    else Divergent
  }

  ghost function LinkStep(events: set<EventRow>, p: LinkProgress, s: Supplement): LinkProgress {
    match p
    case MissingEvent => p
    case Divergent => p
    case Linking(_, _, _) =>
      if Linked(events, s) == {} then MissingEvent
      else
        var event :| event in Linked(events, s);
        if !LinkAgrees(event, s) then Divergent else StoreSupplement(p, s, event.eventId)
  }

  ghost function LinkAll(events: set<EventRow>, start: LinkProgress, supplements: seq<Supplement>): LinkProgress {
    if supplements == [] then start
    else LinkStep(events, LinkAll(events, start, supplements[..|supplements| - 1]), supplements[|supplements| - 1])
  }

  // ---------- one batch ----------

  function PriorSupplementBatches(rows: set<BatchRow>, b: SupplementBatch): set<BatchRow> {
    set r | r in rows && (r.batchId == b.batchId || r.idempotencyKey == b.idempotencyKey)
  }

  predicate IsSupplementBatchReplay(prior: set<BatchRow>, b: SupplementBatch) {
    |prior| == 1 &&
    forall r | r in prior ::
      r.batchId == b.batchId && r.idempotencyKey == b.idempotencyKey && r.contentHash == b.batchHash
  }

  /** `ingestSupplements` as a function of the event table it reads and the tables it starts from. */
  ghost function Linkage(events: set<EventRow>, t: SupplementTables, b: SupplementBatch): (SupplementTables, Reply) {
    if !ParsedSupplements(b) then (t, BadRequest)
    else
      var prior := PriorSupplementBatches(t.batches, b);
      if prior != {} then
        if IsSupplementBatchReplay(prior, b) then
          var row :| row in prior;
          (t, Accepted(0, row.eventCount, true, b.batchHash))
        else (t, Conflict)
      else
        match LinkAll(events, Linking(t.supplements, 0, 0), b.supplements)
        case MissingEvent => (t, BadRequest)
        case Divergent => (t, Conflict)
        case Linking(supplements, inserted, replayed) =>
          (SupplementTables(supplements, t.batches + {SupplementBatchRowOf(b)}),
           Accepted(inserted, replayed, false, b.batchHash))
  }

  /** The unique key on project, entity and revision of the event table. */
  ghost predicate UniqueLinks(events: set<EventRow>) {
    forall r, q | r in events && q in events &&
                  r.projectId == q.projectId && r.entityId == q.entityId && r.revision == q.revision :: r == q
  }

  lemma {:induction false} LinkedIsUnique(events: set<EventRow>, s: Supplement, r: EventRow)
    requires UniqueLinks(events) && r in Linked(events, s)
    ensures Linked(events, s) == {r}
  {
  }

  class RoteadorDashboardService {
    const sinc: SincService
    var tables: SupplementTables

    constructor (sinc: SincService)
      ensures this.sinc == sinc && tables == NO_SUPPLEMENTS
    {
      this.sinc, tables := sinc, NO_SUPPLEMENTS;
    }

    method IngestSupplements(batch: SupplementBatch) returns (reply: Reply)
      requires UniqueLinks(sinc.tables.events)
      modifies this
      ensures (tables, reply) == Linkage(sinc.tables.events, old(tables), batch)
    {
      hide LinkAll, ParsedSupplements;
      if !ParsedSupplements(batch) {
        return BadRequest;
      }
      var prior := PriorSupplementBatches(tables.batches, batch);
      if prior != {} {
        if !IsSupplementBatchReplay(prior, batch) {
          return Conflict;
        }
        var row :| row in prior;
        OnlyMember(prior, row);
        return Accepted(0, row.eventCount, true, batch.batchHash);
      }
      var progress := LinkSupplements(sinc.tables.events, tables.supplements, batch.supplements);
      if progress.MissingEvent? {
        return BadRequest;
      }
      if progress.Divergent? {
        return Conflict;
      }
      tables := SupplementTables(progress.supplements, tables.batches + {SupplementBatchRowOf(batch)});
      return Accepted(progress.inserted, progress.replayed, false, batch.batchHash);
    }
  }

  /** The loop over a batch's supplements, on the transaction's view of the supplement table. */
  method LinkSupplements(events: set<EventRow>, rows: set<SupplementRow>, batch: seq<Supplement>)
    returns (progress: LinkProgress)
    requires UniqueLinks(events)
    ensures progress == LinkAll(events, Linking(rows, 0, 0), batch)
  {
    hide Linked, LinkAgrees, SupplementMatches, IsSupplementReplay, SupplementRowOf, UniqueLinks;
    var supplements := rows;
    var inserted: nat, replayed: nat := 0, 0;
    ghost var start := Linking(rows, 0, 0);
    var i := 0;
    while i < |batch|
      invariant 0 <= i <= |batch|
      invariant LinkAll(events, start, batch[..i]) == Linking(supplements, inserted, replayed)
    {
      LinkNext(events, start, batch, i);
      var found := Linked(events, batch[i]);
      if found == {} {
        RefusalStays(events, start, batch, i + 1);
        return MissingEvent;
      }
      var event :| event in found;
      LinkedIsUnique(events, batch[i], event);
      if !LinkAgrees(event, batch[i]) {
        RefusalStays(events, start, batch, i + 1);
        return Divergent;
      }
      var matches := SupplementMatches(supplements, batch[i]);
      if matches == {} {
        supplements, inserted := supplements + {SupplementRowOf(batch[i], event.eventId)}, inserted + 1;
      } else if IsSupplementReplay(matches, batch[i], event.eventId) {
        replayed := replayed + 1;
      } else {
        RefusalStays(events, start, batch, i + 1);
        return Divergent;
      }
      i := i + 1;
    }
    assert batch[..i] == batch;
    return Linking(supplements, inserted, replayed);
  }

  lemma {:induction false} LinkNext(events: set<EventRow>, start: LinkProgress, batch: seq<Supplement>, i: nat)
    requires i < |batch|
    ensures LinkAll(events, start, batch[..i + 1]) == LinkStep(events, LinkAll(events, start, batch[..i]), batch[i])
  {
    hide LinkStep;
    assert batch[..i + 1][..i] == batch[..i];
  }

  lemma {:induction false} RefusalStays(events: set<EventRow>, start: LinkProgress, batch: seq<Supplement>, n: nat)
    requires n <= |batch|
    requires !LinkAll(events, start, batch[..n]).Linking?
    ensures LinkAll(events, start, batch) == LinkAll(events, start, batch[..n])
    decreases |batch| - n
  {
    hide StoreSupplement, Linked, LinkAgrees;
    if n == |batch| {
      assert batch[..n] == batch;
    } else {
      LinkNext(events, start, batch, n);
      RefusalStays(events, start, batch, n + 1);
    }
  }
}
