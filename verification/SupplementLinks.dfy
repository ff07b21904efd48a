/** What the supplement tables keep while the event table grows under them. */
module SupplementLinks {
  import opened JsValues
  import opened Records
  import opened ProjectionStore
  import opened SupplementRecords
  import opened SupplementStore

  /** The stored event this supplement row points to, with every shared field equal. */
  ghost predicate PointsTo(row: SupplementRow, event: EventRow) {
    && row.eventId == event.eventId
    && row.projectId == event.projectId
    && row.entityId == event.entityId
    && row.revision == event.revision
    && row.decisionHash == event.envelope.policy.decisionHash
    && row.occurredAt == Epoch(event.envelope.occurredAt)
  }

  ghost predicate HasEvent(row: SupplementRow, events: set<EventRow>) {
    exists event | event in events :: PointsTo(row, event)
  }

  ghost predicate DistinctRows(rows: set<SupplementRow>) {
    forall r, q | r in rows && q in rows && r != q ::
      && r.supplementId != q.supplementId
      && r.idempotencyKey != q.idempotencyKey
      && !(r.projectId == q.projectId && r.entityId == q.entityId && r.revision == q.revision)
  }

  /** Every supplement points to a stored event, and no two share an identifier, a key or a link. */
  ghost predicate LinksValid(events: set<EventRow>, rows: set<SupplementRow>) {
    (forall row | row in rows :: HasEvent(row, events)) && DistinctRows(rows)
  }

  lemma {:induction false} EventsGrow(events: set<EventRow>, more: set<EventRow>, rows: set<SupplementRow>)
    requires events <= more && LinksValid(events, rows)
    ensures LinksValid(more, rows)
  {
    hide DistinctRows;
    forall row | row in rows
      ensures HasEvent(row, more)
    {
      assert HasEvent(row, events);
      var event :| event in events && PointsTo(row, event);
      assert event in more;
    }
  }

  lemma {:induction false} StoreKeepsLinks(events: set<EventRow>, p: LinkProgress, s: Supplement, event: EventRow)
    requires p.Linking? && LinksValid(events, p.supplements)
    requires event in Linked(events, s) && LinkAgrees(event, s)
    ensures var next := StoreSupplement(p, s, event.eventId);
            next.Linking? ==> LinksValid(events, next.supplements)
  {
    hide SupplementRecords.ContentHash;
    var row := SupplementRowOf(s, event.eventId);
    assert PointsTo(row, event);
    if SupplementMatches(p.supplements, s) == {} {
      forall r | r in p.supplements
        ensures r.supplementId != s.supplementId && r.idempotencyKey != s.idempotencyKey &&
                !SameLink(r.projectId, r.entityId, r.revision, s)
      {
        assert r !in SupplementMatches(p.supplements, s);
      }
    }
  }

  lemma {:induction false} LinkAllKeepsLinks(events: set<EventRow>, start: LinkProgress, batch: seq<Supplement>)
    requires start.Linking? && LinksValid(events, start.supplements)
    ensures var p := LinkAll(events, start, batch);
            p.Linking? ==> LinksValid(events, p.supplements) &&
                           p.inserted + p.replayed == start.inserted + start.replayed + |batch|
  {
    hide LinksValid, StoreSupplement, Linked, LinkAgrees;
    if batch != [] {
      var n := |batch| - 1;
      LinkAllKeepsLinks(events, start, batch[..n]);
      var p := LinkAll(events, start, batch[..n]);
      if p.Linking? {
        forall event | event in Linked(events, batch[n]) && LinkAgrees(event, batch[n])
          ensures var next := StoreSupplement(p, batch[n], event.eventId);
                  next.Linking? ==> LinksValid(events, next.supplements) &&
                                    next.inserted + next.replayed == p.inserted + p.replayed + 1
        {
          StoreKeepsLinks(events, p, batch[n], event);
          StoreCounts(p, batch[n], event.eventId);
        }
      }
    }
  }

  lemma {:induction false} StoreCounts(p: LinkProgress, s: Supplement, eventId: Text)
    requires p.Linking?
    ensures var next := StoreSupplement(p, s, eventId);
            next.Linking? ==> next.inserted + next.replayed == p.inserted + p.replayed + 1
  {
  }

  /** `ingestSupplements` keeps the links valid, counts every supplement, and changes nothing when it refuses. */
  lemma {:induction false} LinkageMeaning(events: set<EventRow>, t: SupplementTables, b: SupplementBatch)
    requires LinksValid(events, t.supplements)
    ensures var (t', reply) := Linkage(events, t, b);
            && LinksValid(events, t'.supplements)
            && (!reply.Accepted? ==> t' == t)
            && (reply.Accepted? && reply.batchReplayed ==> t' == t)
            && (reply.Accepted? && !reply.batchReplayed ==> reply.inserted + reply.replayed == |b.supplements|)
            && t.supplements <= t'.supplements && t.batches <= t'.batches
  {
    hide LinksValid, ParsedSupplements, LinkAll;
    LinkAllKeepsLinks(events, Linking(t.supplements, 0, 0), b.supplements);
    LinkAllGrows(events, Linking(t.supplements, 0, 0), b.supplements);
  }

  lemma {:induction false} LinkAllGrows(events: set<EventRow>, start: LinkProgress, batch: seq<Supplement>)
    requires start.Linking?
    ensures var p := LinkAll(events, start, batch); p.Linking? ==> start.supplements <= p.supplements
  {
    hide Linked, LinkAgrees, SupplementRowOf, SupplementMatches, IsSupplementReplay;
    if batch != [] {
      LinkAllGrows(events, start, batch[..|batch| - 1]);
    }
  }

  /** An accepted supplement would have been accepted just the same with more events stored. */
  lemma {:induction false} LinkAllStable(events: set<EventRow>, more: set<EventRow>, start: LinkProgress,
                                         batch: seq<Supplement>)
    requires events <= more && UniqueLinks(more)
    requires LinkAll(events, start, batch).Linking?
    ensures LinkAll(more, start, batch) == LinkAll(events, start, batch)
  {
    hide UniqueLinks, LinkAgrees, StoreSupplement;
    if batch != [] {
      var n := |batch| - 1;
      LinkAllStable(events, more, start, batch[..n]);
      var r :| r in Linked(events, batch[n]);
      SameLinked(events, more, batch[n], r);
    }
  }

  lemma {:induction false} SameLinked(events: set<EventRow>, more: set<EventRow>, s: Supplement, r: EventRow)
    requires events <= more && UniqueLinks(more) && r in Linked(events, s)
    ensures Linked(events, s) == {r} && Linked(more, s) == {r}
  {
    LinkedIsUnique(more, s, r);
  }

  lemma {:induction false} LinkageStable(events: set<EventRow>, more: set<EventRow>, t: SupplementTables,
                                         b: SupplementBatch)
    requires events <= more && UniqueLinks(more)
    requires Linkage(events, t, b).1.Accepted?
    ensures Linkage(more, t, b) == Linkage(events, t, b)
  {
    hide LinkAll, ParsedSupplements, UniqueLinks;
    var start := Linking(t.supplements, 0, 0);
    if LinkAll(events, start, b.supplements).Linking? {
      LinkAllStable(events, more, start, b.supplements);
    }
  }

  /** The supplement is stored under its own content hash, linked to the event it names. */
  ghost predicate IsStored(events: set<EventRow>, rows: set<SupplementRow>, s: Supplement) {
    exists r, event | r in rows && event in Linked(events, s) ::
      && r.supplementId == s.supplementId && r.idempotencyKey == s.idempotencyKey
      && r.contentHash == SupplementRecords.ContentHash(s) && r.eventId == event.eventId && LinkAgrees(event, s)
  }

  lemma {:induction false} StepStores(events: set<EventRow>, p: LinkProgress, s: Supplement)
    requires p.Linking? && LinkStep(events, p, s).Linking?
    ensures IsStored(events, LinkStep(events, p, s).supplements, s)
    ensures p.supplements <= LinkStep(events, p, s).supplements
  {
    hide SupplementRecords.ContentHash, Linked, LinkAgrees, Epoch;
    var next := LinkStep(events, p, s);
    var event :| event in Linked(events, s) && LinkAgrees(event, s) && next == StoreSupplement(p, s, event.eventId);
    var matches := SupplementMatches(p.supplements, s);
    if matches == {} {
      var row := SupplementRowOf(s, event.eventId);
      assert StoreSupplement(p, s, event.eventId) == Linking(p.supplements + {row}, p.inserted + 1, p.replayed);
      assert row in next.supplements;
    } else {
      var r :| r in matches;
      assert r in p.supplements;
    }
  }

  lemma {:induction false} StillStored(events: set<EventRow>, rows: set<SupplementRow>,
                                       more: set<SupplementRow>, s: Supplement)
    requires IsStored(events, rows, s) && rows <= more
    ensures IsStored(events, more, s)
  {
    hide SupplementRecords.ContentHash, Linked, LinkAgrees;
  }

  lemma {:induction false} LinkAllStores(events: set<EventRow>, start: LinkProgress, batch: seq<Supplement>, i: nat)
    requires start.Linking? && LinkAll(events, start, batch).Linking? && i < |batch|
    ensures IsStored(events, LinkAll(events, start, batch).supplements, batch[i])
  {
    hide IsStored, LinkStep;
    var n := |batch| - 1;
    var before := LinkAll(events, start, batch[..n]);
    StoppedStays(events, before, batch[n]);
    StepStores(events, before, batch[n]);
    if i < n {
      LinkAllStores(events, start, batch[..n], i);
      StillStored(events, before.supplements, LinkAll(events, start, batch).supplements, batch[i]);
    }
  }

  lemma {:induction false} StoppedStays(events: set<EventRow>, p: LinkProgress, s: Supplement)
    requires LinkStep(events, p, s).Linking?
    ensures p.Linking?
  {
  }

  /** When a batch is accepted, each of its supplements is stored as it was sent: replayed means identical. */
  lemma {:induction false} AcceptedAreStored(events: set<EventRow>, t: SupplementTables, b: SupplementBatch, i: nat)
    requires Linkage(events, t, b).1.Accepted? && !Linkage(events, t, b).1.batchReplayed && i < |b.supplements|
    ensures IsStored(events, Linkage(events, t, b).0.supplements, b.supplements[i])
  {
    hide ParsedSupplements, LinkAll, IsStored;
    LinkAllStores(events, Linking(t.supplements, 0, 0), b.supplements, i);
  }

  // ---------- delivering a supplement batch again ----------

  /** The batch was accepted at some time: its row, and no other, has its identifiers. */
  ghost predicate Known(t: SupplementTables, b: SupplementBatch) {
    ParsedSupplements(b) && PriorSupplementBatches(t.batches, b) == {SupplementBatchRowOf(b)}
  }

  lemma {:induction false} AcceptedIsKnown(events: set<EventRow>, t: SupplementTables, b: SupplementBatch)
    requires Linkage(events, t, b).1.Accepted? && !Linkage(events, t, b).1.batchReplayed
    ensures Known(Linkage(events, t, b).0, b)
  {
    hide ParsedSupplements, LinkAll;
    assert PriorSupplementBatches(t.batches, b) == {};
  }

  /** Whatever is delivered later, and whatever becomes of it, the batch stays known. */
  lemma {:induction false} KnownStaysKnown(events: set<EventRow>, t: SupplementTables, b: SupplementBatch,
                                           other: SupplementBatch)
    requires Known(t, b)
    ensures Known(Linkage(events, t, other).0, b)
  {
    hide ParsedSupplements, LinkAll, IsSupplementBatchReplay;
    var row := SupplementBatchRowOf(b);
    assert row in PriorSupplementBatches(t.batches, b);
    if other.batchId == b.batchId || other.idempotencyKey == b.idempotencyKey {
      assert row in PriorSupplementBatches(t.batches, other);
    } else {
      assert SupplementBatchRowOf(other) !in PriorSupplementBatches(t.batches + {SupplementBatchRowOf(other)}, b);
      assert PriorSupplementBatches(t.batches + {SupplementBatchRowOf(other)}, b) ==
        PriorSupplementBatches(t.batches, b);
    }
  }

  /** A known batch delivered again changes nothing and is reported as a replay of its length. */
  lemma {:induction false} KnownIsReplayed(events: set<EventRow>, t: SupplementTables, b: SupplementBatch)
    requires Known(t, b)
    ensures Linkage(events, t, b) == (t, Accepted(0, |b.supplements|, true, b.batchHash))
  {
    hide ParsedSupplements, LinkAll;
  }
}
