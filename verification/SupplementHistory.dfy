/** What the supplement tables mean: which batches are accepted, over any sequence of both kinds of ingest. */
module SupplementHistory {
  import opened JsValues
  import Records
  import opened ProjectionStore
  import opened SupplementRecords
  import opened SupplementStore
  import opened SupplementLinks
  import opened Interleaving
  import History = ProjectionHistory

  // ---------- identity ----------

  predicate SharesKeys(s: Supplement, t: Supplement) {
    || s.supplementId == t.supplementId
    || s.idempotencyKey == t.idempotencyKey
    || SameLink(s.projectId, s.entityId, s.revision, t)
  }

  /** Two different supplements compete for one of the unique keys. */
  predicate Clashing(s: Supplement, t: Supplement) { s != t && SharesKeys(s, t) }

  ghost predicate NoClash(supplements: set<Supplement>) {
    forall s, t | s in supplements && t in supplements :: !Clashing(s, t)
  }

  predicate ClashingBatches(b: SupplementBatch, c: SupplementBatch) {
    b != c && (b.batchId == c.batchId || b.idempotencyKey == c.idempotencyKey)
  }

  /** The event a supplement names is stored, and agrees with it. */
  ghost predicate LinkedTo(events: set<EventRow>, s: Supplement) {
    exists event | event in Linked(events, s) :: LinkAgrees(event, s)
  }

  ghost predicate AllLinked(events: set<EventRow>, supplements: set<Supplement>) {
    forall s | s in supplements :: LinkedTo(events, s)
  }

  ghost function Members(supplements: seq<Supplement>): set<Supplement> { set s | s in supplements }

  ghost function SupplementsOf(batches: set<SupplementBatch>): set<Supplement> {
    set b, s | b in batches && s in b.supplements :: s
  }

  /** Every supplement is linked, and every two records are identical or share no identity key. */
  ghost predicate Consistent(events: set<EventRow>, batches: set<SupplementBatch>) {
    && (forall b | b in batches :: ParsedSupplements(b))
    && (forall b, c | b in batches && c in batches :: !ClashingBatches(b, c))
    && AllLinked(events, SupplementsOf(batches)) && NoClash(SupplementsOf(batches))
  }

  // ---------- the rows ----------

  ghost function RowFor(events: set<EventRow>, s: Supplement): SupplementRow {
    if Linked(events, s) == {} then SupplementRowOf(s, [])
    else
      var event :| event in Linked(events, s);
      SupplementRowOf(s, event.eventId)
  }

  ghost function Rows(events: set<EventRow>, supplements: set<Supplement>): set<SupplementRow> {
    set s | s in supplements :: RowFor(events, s)
  }

  /** The tables are those of exactly these batches. */
  ghost predicate Describes(events: set<EventRow>, t: SupplementTables, batches: set<SupplementBatch>) {
    && t.supplements == Rows(events, SupplementsOf(batches))
    && t.batches == (set b | b in batches :: SupplementBatchRowOf(b))
  }

  lemma {:induction false} RowForLinked(events: set<EventRow>, s: Supplement, event: EventRow)
    requires UniqueLinks(events) && event in Linked(events, s)
    ensures RowFor(events, s) == SupplementRowOf(s, event.eventId)
  {
    hide SupplementRowOf;
    LinkedIsUnique(events, s, event);
  }

  lemma {:induction false} RowForFields(events: set<EventRow>, s: Supplement)
    ensures var r := RowFor(events, s);
            && r.envelope == s && r.supplementId == s.supplementId && r.idempotencyKey == s.idempotencyKey
            && r.projectId == s.projectId && r.entityId == s.entityId && r.revision == s.revision
            && r.contentHash == ContentHash(s)
  {
    hide ContentHash, Linked;
  }

  // ---------- one supplement ----------

  lemma {:induction false} MatchRows(events: set<EventRow>, known: set<Supplement>, s: Supplement)
    ensures forall t | t in known :: RowFor(events, t) in SupplementMatches(Rows(events, known), s) <==>
            SharesKeys(t, s)
    ensures forall r | r in SupplementMatches(Rows(events, known), s) ::
              r.envelope in known && r == RowFor(events, r.envelope)
  {
    hide RowFor;
    forall t | t in known
      ensures RowFor(events, t) in SupplementMatches(Rows(events, known), s) <==> SharesKeys(t, s)
    {
      RowForFields(events, t);
    }
    forall r | r in SupplementMatches(Rows(events, known), s)
      ensures r.envelope in known && r == RowFor(events, r.envelope)
    {
      var t :| t in known && r == RowFor(events, t);
      RowForFields(events, t);
    }
  }

  lemma {:induction false} ReplayedStored(events: set<EventRow>, known: set<Supplement>, s: Supplement, event: EventRow)
    requires UniqueLinks(events) && event in Linked(events, s) && NoClash(known) && s in known
    ensures var matches := SupplementMatches(Rows(events, known), s);
            matches != {} && IsSupplementReplay(matches, s, event.eventId)
  {
    hide RowFor, ContentHash, Linked, SupplementMatches, Rows;
    var matches := SupplementMatches(Rows(events, known), s);
    MatchRows(events, known, s);
    forall r | r in matches
      ensures r == RowFor(events, s)
    {
      assert !Clashing(r.envelope, s);
    }
    assert matches == {RowFor(events, s)};
    RowForLinked(events, s, event);
  }

  lemma {:induction false} ClashRefused(events: set<EventRow>, known: set<Supplement>, s: Supplement,
                                        t: Supplement, eventId: Text)
    requires t in known && Clashing(t, s)
    ensures var matches := SupplementMatches(Rows(events, known), s);
            matches != {} && !IsSupplementReplay(matches, s, eventId)
  {
    hide RowFor, ContentHash, SupplementMatches, Rows;
    MatchRows(events, known, s);
    RowForFields(events, t);
    if ContentHash(t) == ContentHash(s) {
      ContentHashInjective(t, s);
      assert false;
    }
  }

  lemma {:induction false} FreshUnmatched(events: set<EventRow>, known: set<Supplement>, s: Supplement)
    requires s !in known && forall t | t in known :: !Clashing(t, s)
    ensures SupplementMatches(Rows(events, known), s) == {}
  {
    hide RowFor, SupplementMatches, Rows;
    MatchRows(events, known, s);
    assert forall t | t in known :: !SharesKeys(t, s);
    assert forall t | t in known :: RowFor(events, t) !in SupplementMatches(Rows(events, known), s);
  }

  lemma {:induction false} RowsAdd(events: set<EventRow>, known: set<Supplement>, s: Supplement)
    ensures Rows(events, known + {s}) == Rows(events, known) + {RowFor(events, s)}
  {
    hide RowFor;
  }

  lemma {:induction false} NoClashAdd(known: set<Supplement>, s: Supplement)
    requires NoClash(known) && forall t | t in known :: !Clashing(t, s)
    ensures NoClash(known + {s})
  {
    forall a, b | a in known + {s} && b in known + {s}
      ensures !Clashing(a, b)
    {
      if a == s && b in known {
        assert !Clashing(b, s);
      }
    }
  }

  /** Progress that has taken in exactly these supplements. */
  ghost predicate Holds(events: set<EventRow>, p: LinkProgress, known: set<Supplement>) {
    p.Linking? && p.supplements == Rows(events, known)
  }

  /**
    * Once its event has been found to agree, a supplement goes through exactly when it clashes with
    * none that is stored.
    */
  lemma {:induction false} StoreMeaning(events: set<EventRow>, p: LinkProgress, known: set<Supplement>, s: Supplement,
                                        event: EventRow)
    requires UniqueLinks(events) && event in Linked(events, s) && Holds(events, p, known) && NoClash(known)
    ensures var next := StoreSupplement(p, s, event.eventId);
            && (next.Linking? <==> NoClash(known + {s}))
            && (next.Linking? ==> Holds(events, next, known + {s}))
            && (next.Linking? ==> next.inserted == p.inserted + (if s in known then 0 else 1))
            && (next.Linking? ==> next.replayed == p.replayed + (if s in known then 1 else 0))
  {
    hide RowFor, SupplementRowOf, Linked, SupplementMatches, IsSupplementReplay, Rows;
    if s in known {
      ReplayedStored(events, known, s, event);
      assert known + {s} == known;
    } else if t :| t in known && Clashing(t, s) {
      ClashRefused(events, known, s, t, event.eventId);
      assert t in known + {s} && s in known + {s};
    } else {
      FreshUnmatched(events, known, s);
      NoClashAdd(known, s);
      RowsAdd(events, known, s);
      RowForLinked(events, s, event);
    }
  }

  lemma {:induction false} StepMeaning(events: set<EventRow>, p: LinkProgress, known: set<Supplement>, s: Supplement)
    requires UniqueLinks(events) && Holds(events, p, known) && NoClash(known)
    ensures var next := LinkStep(events, p, s);
            && (next.Linking? <==> LinkedTo(events, s) && NoClash(known + {s}))
            && (next.Linking? ==> Holds(events, next, known + {s}))
            && (next.Linking? ==> next.inserted == p.inserted + (if s in known then 0 else 1))
            && (next.Linking? ==> next.replayed == p.replayed + (if s in known then 1 else 0))
  {
    hide Linked, LinkAgrees, StoreSupplement, NoClash, UniqueLinks, Rows;
    if Linked(events, s) != {} {
      var event :| event in Linked(events, s);
      LinkedIsUnique(events, s, event);
      StoreMeaning(events, p, known, s, event);
    }
  }

  // ---------- one batch of supplements ----------

  lemma {:induction false} SubsetConsistent(events: set<EventRow>, small: set<Supplement>, large: set<Supplement>)
    requires small <= large
    ensures NoClash(large) ==> NoClash(small)
    ensures AllLinked(events, large) ==> AllLinked(events, small)
  {
    hide LinkedTo, Clashing;
  }

  /** The loop goes through exactly when all supplements are linked and nothing clashes; it inserts the new ones. */
  lemma {:induction false} LinkAllMeaning(events: set<EventRow>, start: LinkProgress, known: set<Supplement>,
                                          batch: seq<Supplement>)
    requires UniqueLinks(events) && start.Linking? && Holds(events, start, known) && NoClash(known)
    ensures var p, all := LinkAll(events, start, batch), known + Members(batch);
            && (p.Linking? <==> AllLinked(events, Members(batch)) && NoClash(all))
            && (p.Linking? ==> Holds(events, p, all))
            && (p.Linking? ==> p.inserted == start.inserted + |all| - |known|)
            && (p.Linking? ==> p.inserted + p.replayed == start.inserted + start.replayed + |batch|)
  {
    hide LinkStep, NoClash, UniqueLinks, AllLinked, Holds, Members;
    if batch == [] {
      NoMembers(events, batch);
      assert known + Members(batch) == known;
    } else {
      var n := |batch| - 1;
      var shorter, s := batch[..n], batch[n];
      LinkAllMeaning(events, start, known, shorter);
      MembersNext(events, batch);
      var before := known + Members(shorter);
      assert known + Members(batch) == before + {s};
      SubsetConsistent(events, before, before + {s});
      var p := LinkAll(events, start, shorter);
      if p.Linking? {
        StepMeaning(events, p, before, s);
        assert s in before ==> before + {s} == before;
      } else {
        RefusedStays(events, p, s);
      }
    }
  }

  lemma {:induction false} NoMembers(events: set<EventRow>, batch: seq<Supplement>)
    requires batch == []
    ensures Members(batch) == {} && AllLinked(events, Members(batch))
  {
  }

  lemma {:induction false} MembersNext(events: set<EventRow>, batch: seq<Supplement>)
    requires batch != []
    ensures var n := |batch| - 1;
            && Members(batch) == Members(batch[..n]) + {batch[n]}
            && (AllLinked(events, Members(batch)) <==>
                  AllLinked(events, Members(batch[..n])) && LinkedTo(events, batch[n]))
  {
    hide LinkedTo;
    assert batch == batch[..|batch| - 1] + [batch[|batch| - 1]];
  }

  lemma {:induction false} RefusedStays(events: set<EventRow>, p: LinkProgress, s: Supplement)
    requires !p.Linking?
    ensures LinkStep(events, p, s) == p
  {
  }

  // ---------- one delivery ----------

  lemma {:induction false} PriorRows(batches: set<SupplementBatch>, b: SupplementBatch)
    requires forall c | c in batches :: ParsedSupplements(c)
    requires forall c, d | c in batches && d in batches :: !ClashingBatches(c, d)
    requires ParsedSupplements(b)
    ensures var prior := PriorSupplementBatches((set c | c in batches :: SupplementBatchRowOf(c)), b);
            && (b in batches ==> prior == {SupplementBatchRowOf(b)})
            && ((exists c | c in batches :: ClashingBatches(c, b)) ==>
                  prior != {} && (b !in batches ==> !IsSupplementBatchReplay(prior, b)))
            && (b !in batches && !(exists c | c in batches :: ClashingBatches(c, b)) ==> prior == {})
  {
    hide KeyedHash, CoreHash, SupplementRecords.BodyHash;
    var rows := set c | c in batches :: SupplementBatchRowOf(c);
    var prior := PriorSupplementBatches(rows, b);
    if b in batches {
      assert SupplementBatchRowOf(b) in rows;
      forall r | r in prior
        ensures r == SupplementBatchRowOf(b)
      {
        var c :| c in batches && r == SupplementBatchRowOf(c);
        assert !ClashingBatches(c, b);
      }
      assert prior == {SupplementBatchRowOf(b)};
    }
    if c :| c in batches && ClashingBatches(c, b) {
      assert SupplementBatchRowOf(c) in prior;
      if c.batchHash == b.batchHash {
        KeyedHashInjective(c, b);
        assert false;
      }
    }
  }

  lemma {:induction false} SupplementsOfAdd(batches: set<SupplementBatch>, b: SupplementBatch)
    ensures SupplementsOf(batches + {b}) == SupplementsOf(batches) + Members(b.supplements)
  {
    assert b in batches + {b};
  }

  lemma {:induction false} ConsistentAdd(events: set<EventRow>, batches: set<SupplementBatch>, b: SupplementBatch)
    requires Consistent(events, batches)
    ensures Consistent(events, batches + {b}) <==>
              && ParsedSupplements(b) && (forall c | c in batches :: !ClashingBatches(c, b))
              && AllLinked(events, Members(b.supplements)) && NoClash(SupplementsOf(batches) + Members(b.supplements))
  {
    hide ParsedSupplements, NoClash, LinkedTo;
    SupplementsOfAdd(batches, b);
    var all := SupplementsOf(batches) + Members(b.supplements);
    assert AllLinked(events, all) <==> AllLinked(events, Members(b.supplements));
    assert b in batches + {b};
    forall c | c in batches
      ensures ClashingBatches(c, b) <==> ClashingBatches(b, c)
    {
    }
  }

  lemma {:induction false} RowsSize(events: set<EventRow>, supplements: set<Supplement>)
    ensures |Rows(events, supplements)| == |supplements|
  {
    hide RowFor;
    if supplements != {} {
      var s :| s in supplements;
      var rest := supplements - {s};
      RowsSize(events, rest);
      assert supplements == rest + {s};
      RowsAdd(events, rest, s);
      forall t | t in rest
        ensures RowFor(events, t) != RowFor(events, s)
      {
        RowForFields(events, t);
        RowForFields(events, s);
      }
    }
  }

  /**
    * A supplement batch is accepted exactly when its supplements are linked to stored events that
    * agree, and stored and new records pairwise are identical or share no identity key. Accepted, its
    * supplements are counted one by one, the new ones as inserted; it is reported as a replay
    * exactly when it was accepted before. Refused, nothing changes.
    */
  lemma {:induction false} DeliveryMeaning(events: set<EventRow>, t: SupplementTables, batches: set<SupplementBatch>,
                                           b: SupplementBatch)
    requires UniqueLinks(events) && Consistent(events, batches) && Describes(events, t, batches)
    ensures var (t', reply) := Linkage(events, t, b);
            && (reply.Accepted? <==> Consistent(events, batches + {b}))
            && (reply.Accepted? ==> Describes(events, t', batches + {b}))
            && (reply.Accepted? ==> reply.inserted + reply.replayed == |b.supplements|)
            && (reply.Accepted? ==> |t'.supplements| == |t.supplements| + reply.inserted)
            && (reply.Accepted? ==> (reply.batchReplayed <==> b in batches))
            && (!reply.Accepted? || reply.batchReplayed ==> t' == t)
  {
    hide ParsedSupplements, PriorSupplementBatches, IsSupplementBatchReplay, LinkAll, NoClash, AllLinked,
      ClashingBatches;
    hide SupplementBatchRowOf, UniqueLinks, Rows, SupplementsOf;
    ConsistentAdd(events, batches, b);
    if ParsedSupplements(b) {
      PriorRows(batches, b);
      if b in batches {
        assert batches + {b} == batches;
        ReplayOfItself(b);
      } else if !(exists c | c in batches :: ClashingBatches(c, b)) {
        var known := SupplementsOf(batches);
        LinkAllMeaning(events, Linking(t.supplements, 0, 0), known, b.supplements);
        SupplementsOfAdd(batches, b);
        RowsSize(events, known);
        RowsSize(events, known + Members(b.supplements));
      }
    }
  }

  lemma {:induction false} ReplayOfItself(b: SupplementBatch)
    ensures IsSupplementBatchReplay({SupplementBatchRowOf(b)}, b)
    ensures SupplementBatchRowOf(b).eventCount == |b.supplements|
  {
  }

  // ---------- any sequence of deliveries of both kinds ----------

  /** The supplement batches that were answered with acceptance. */
  ghost function AcceptedIn(log: seq<Outcome>): set<SupplementBatch> {
    if log == [] then {}
    else
      var before := Serial(log[..|log| - 1]);
      var last := log[|log| - 1];
      AcceptedIn(log[..|log| - 1]) +
      (if last.SupplementOutcome? && Linkage(before.0.events, before.1, last.supplements).1.Accepted?
       then {last.supplements} else {})
  }

  lemma {:induction false} RowForStable(events: set<EventRow>, more: set<EventRow>, s: Supplement)
    requires events <= more && UniqueLinks(more) && LinkedTo(events, s)
    ensures RowFor(more, s) == RowFor(events, s) && LinkedTo(more, s)
  {
    hide LinkAgrees, SupplementRowOf;
    var event :| event in Linked(events, s) && LinkAgrees(event, s);
    assert event in Linked(more, s);
    RowForLinked(more, s, event);
    assert UniqueLinks(events);
    RowForLinked(events, s, event);
  }

  /** More events change no supplement row. */
  lemma {:induction false} DescribesMore(events: set<EventRow>, more: set<EventRow>, t: SupplementTables,
                                         batches: set<SupplementBatch>)
    requires events <= more && UniqueLinks(more) && Consistent(events, batches) && Describes(events, t, batches)
    ensures Consistent(more, batches) && Describes(more, t, batches)
  {
    hide RowFor, LinkedTo, UniqueLinks, NoClash, ParsedSupplements, SupplementsOf;
    forall s | s in SupplementsOf(batches)
      ensures RowFor(more, s) == RowFor(events, s) && LinkedTo(more, s)
    {
      RowForStable(events, more, s);
    }
  }

  lemma {:induction false} EventsGrowInSerial(log: seq<Outcome>)
    requires log != []
    ensures Serial(log[..|log| - 1]).0.events <= Serial(log).0.events
    ensures UniqueLinks(Serial(log).0.events)
  {
    hide Ingested, Linkage, History.Run, UniqueLinks;
    SerialEvents(log);
    LinksAreUnique(EventBatches(log));
    SerialEvents(log[..|log| - 1]);
    if log[|log| - 1].EventOutcome? {
      History.IngestConserves(EventBatches(log[..|log| - 1]), log[|log| - 1].events);
    }
  }

  /** At any point of any sequence of deliveries, the supplement tables are those of the batches accepted so far. */
  lemma {:induction false} SerialSupplements(log: seq<Outcome>)
    ensures var (tables, linked) := Serial(log);
            && UniqueLinks(tables.events)
            && Consistent(tables.events, AcceptedIn(log)) && Describes(tables.events, linked, AcceptedIn(log))
  {
    hide Ingested, Linkage, Consistent, Describes, UniqueLinks;
    if log == [] {
      NothingAccepted();
    } else {
      var n := |log| - 1;
      SerialSupplements(log[..n]);
      EventsGrowInSerial(log);
      var (tables, linked) := Serial(log[..n]);
      match log[n]
      case EventOutcome(b, _) =>
        DescribesMore(tables.events, Serial(log).0.events, linked, AcceptedIn(log[..n]));
        assert AcceptedIn(log) == AcceptedIn(log[..n]);
      case SupplementOutcome(b, _) =>
        DeliveryMeaning(tables.events, linked, AcceptedIn(log[..n]), b);
        assert AcceptedIn(log[..n]) + {} == AcceptedIn(log[..n]);
    }
  }

  lemma {:induction false} NothingAccepted()
    ensures UniqueLinks({}) && Consistent({}, {}) && Describes({}, NO_SUPPLEMENTS, {})
  {
    assert SupplementsOf({}) == {};
  }

  /**
    * After any sequence of deliveries: the next supplement batch is accepted exactly when the set of
    * accepted batches with it stays consistent; inserted plus replayed is then its length, the table
    * grows by inserted, and it is reported as a replay, changing nothing, exactly when it was
    * accepted before.
    */
  lemma {:induction false} SupplementsConserve(log: seq<Outcome>, b: SupplementBatch)
    ensures var (tables, linked) := Serial(log);
            var (linked', reply) := Linkage(tables.events, linked, b);
            && (reply.Accepted? <==> Consistent(tables.events, AcceptedIn(log) + {b}))
            && (reply.Accepted? ==> reply.inserted + reply.replayed == |b.supplements|)
            && (reply.Accepted? ==> |linked'.supplements| == |linked.supplements| + reply.inserted)
            && (reply.Accepted? ==> (reply.batchReplayed <==> b in AcceptedIn(log)))
            && (!reply.Accepted? || reply.batchReplayed ==> linked' == linked)
  {
    hide Ingested, Linkage, Consistent, Describes, UniqueLinks, Serial, AcceptedIn;
    SerialSupplements(log);
    DeliveryMeaning(Serial(log).0.events, Serial(log).1, AcceptedIn(log), b);
  }

  /** An accepted batch keeps its one row for ever, whatever else is delivered. */
  lemma {:induction false} AcceptedStaysKnown(log: seq<Outcome>, b: SupplementBatch)
    requires b in AcceptedIn(log)
    ensures Known(Serial(log).1, b)
  {
    hide Ingested, Linkage, Known;
    var n := |log| - 1;
    var (tables, linked) := Serial(log[..n]);
    if b in AcceptedIn(log[..n]) {
      AcceptedStaysKnown(log[..n], b);
      if log[n].SupplementOutcome? {
        KnownStaysKnown(tables.events, linked, b, log[n].supplements);
      }
    } else {
      SupplementsConserve(log[..n], b);
      AcceptedIsKnown(tables.events, linked, b);
    }
  }

  /** Delivered again at any later time, it changes no table and is reported as a replay of its length. */
  lemma {:induction false} SupplementRedelivery(log: seq<Outcome>, b: SupplementBatch)
    requires b in AcceptedIn(log)
    ensures var (tables, linked) := Serial(log);
            Linkage(tables.events, linked, b) == (linked, Accepted(0, |b.supplements|, true, b.batchHash))
  {
    hide Ingested, Linkage, Known, Serial, AcceptedIn;
    AcceptedStaysKnown(log, b);
    KnownIsReplayed(Serial(log).0.events, Serial(log).1, b);
  }

  /** Hence in every state either endpoint can reach, under any interleaving of their statements. */
  lemma {:induction false} SupplementsInEveryInterleaving(s: State, moves: seq<Move>)
    requires Initial(s)
    ensures var end := After(s, moves);
            && Consistent(end.tables.events, AcceptedIn(end.log))
            && Describes(end.tables.events, end.linked, AcceptedIn(end.log))
            && |end.linked.supplements| == |SupplementsOf(AcceptedIn(end.log))|
  {
    hide After, Serial, Faithful, Consistent, AcceptedIn, SupplementsOf, Rows;
    InterleavingIsSerial(s, moves);
    SerialSupplements(After(s, moves).log);
    RowsSize(After(s, moves).tables.events, SupplementsOf(AcceptedIn(After(s, moves).log)));
  }

  /** The tables depend only on which batches of either kind were accepted, not on any order or repetition. */
  lemma {:induction false} SameAcceptedSameTables(log: seq<Outcome>, other: seq<Outcome>)
    requires History.AcceptedIn(EventBatches(log)) == History.AcceptedIn(EventBatches(other))
    requires AcceptedIn(log) == AcceptedIn(other)
    ensures Serial(log) == Serial(other)
  {
    hide History.Run, History.AcceptedIn, History.Consistent, History.Describes, Serial, AcceptedIn, Consistent;
    SerialEvents(log);
    SerialEvents(other);
    History.Reachable(EventBatches(log));
    History.Reachable(EventBatches(other));
    History.DescribesUnique(Serial(log).0, Serial(other).0, History.AcceptedIn(EventBatches(log)));
    SerialSupplements(log);
    SerialSupplements(other);
  }

  // ---------- supplements delivered in any order ----------

  /** The supplement tables after a sequence of deliveries against a stored set of events. */
  ghost function LinkRun(events: set<EventRow>, deliveries: seq<SupplementBatch>): SupplementTables {
    if deliveries == [] then NO_SUPPLEMENTS
    else Linkage(events, LinkRun(events, deliveries[..|deliveries| - 1]), deliveries[|deliveries| - 1]).0
  }

  ghost predicate AcceptedAt(events: set<EventRow>, deliveries: seq<SupplementBatch>, i: nat)
    requires i < |deliveries|
  {
    Linkage(events, LinkRun(events, deliveries[..i]), deliveries[i]).1.Accepted?
  }

  ghost predicate AllAccepted(events: set<EventRow>, deliveries: seq<SupplementBatch>) {
    forall i | 0 <= i < |deliveries| :: AcceptedAt(events, deliveries, i)
  }

  ghost function Delivered(deliveries: seq<SupplementBatch>): set<SupplementBatch> { set b | b in deliveries }

  lemma {:induction false} ConsistentSubset(events: set<EventRow>, small: set<SupplementBatch>,
                                            large: set<SupplementBatch>)
    requires small <= large && Consistent(events, large)
    ensures Consistent(events, small)
  {
    hide ParsedSupplements, ClashingBatches, NoClash, LinkedTo;
    assert SupplementsOf(small) <= SupplementsOf(large);
    SubsetConsistent(events, SupplementsOf(small), SupplementsOf(large));
  }

  lemma {:induction false} AllAcceptedSnoc(events: set<EventRow>, deliveries: seq<SupplementBatch>)
    requires deliveries != []
    ensures var n := |deliveries| - 1;
            AllAccepted(events, deliveries) <==>
            AllAccepted(events, deliveries[..n]) && AcceptedAt(events, deliveries, n)
    ensures Delivered(deliveries) == Delivered(deliveries[..|deliveries| - 1]) + {deliveries[|deliveries| - 1]}
  {
    hide Linkage, LinkRun;
    var n := |deliveries| - 1;
    forall i | 0 <= i < n
      ensures AcceptedAt(events, deliveries[..n], i) == AcceptedAt(events, deliveries, i)
    {
      assert deliveries[..n][..i] == deliveries[..i];
    }
    assert deliveries == deliveries[..n] + [deliveries[n]];
  }

  /** A list of deliveries is accepted throughout exactly when its batches are consistent; it leaves their tables. */
  lemma {:induction false} AllAcceptedMeaning(events: set<EventRow>, deliveries: seq<SupplementBatch>)
    requires UniqueLinks(events)
    ensures AllAccepted(events, deliveries) <==> Consistent(events, Delivered(deliveries))
    ensures AllAccepted(events, deliveries) ==> Describes(events, LinkRun(events, deliveries), Delivered(deliveries))
  {
    hide Linkage, UniqueLinks, Consistent, Describes, AllAccepted, Delivered;
    if deliveries == [] {
      NoDeliveries(events);
    } else {
      var n := |deliveries| - 1;
      var before, b := deliveries[..n], deliveries[n];
      AllAcceptedMeaning(events, before);
      AllAcceptedSnoc(events, deliveries);
      if Consistent(events, Delivered(deliveries)) {
        ConsistentSubset(events, Delivered(before), Delivered(deliveries));
      }
      if AllAccepted(events, before) {
        DeliveryMeaning(events, LinkRun(events, before), Delivered(before), b);
      }
    }
  }

  lemma {:induction false} NoDeliveries(events: set<EventRow>)
    ensures Delivered([]) == {} && AllAccepted(events, [])
    ensures Consistent(events, {}) && Describes(events, LinkRun(events, []), {})
  {
    assert SupplementsOf({}) == {};
  }

  /**
    * Over the same stored events, delivery order and duplication do not matter: any rearrangement of
    * an accepted list, with any repetitions, is accepted and leaves the same tables.
    */
  lemma {:induction false} SupplementConfluence(events: set<EventRow>, deliveries: seq<SupplementBatch>,
                                                rearranged: seq<SupplementBatch>)
    requires UniqueLinks(events) && Delivered(deliveries) == Delivered(rearranged)
    requires AllAccepted(events, deliveries)
    ensures AllAccepted(events, rearranged)
    ensures LinkRun(events, rearranged) == LinkRun(events, deliveries)
  {
    hide LinkRun, UniqueLinks, Consistent, AllAccepted, Delivered, Rows, SupplementsOf, SupplementBatchRowOf;
    AllAcceptedMeaning(events, deliveries);
    AllAcceptedMeaning(events, rearranged);
  }

  // ---------- the first delivery ----------

  /** What a batch of supplements has to be when none is stored yet, spelled out. */
  ghost predicate FitToBeFirst(events: set<EventRow>, b: SupplementBatch) {
    && 1 <= |b.supplements| <= 100 && b.projectId == Ascii("roteador")
    && b.idempotencyKey == CoreHash(b) && b.batchHash == KeyedHash(b)
    && (forall s | s in b.supplements :: s.projectId == Ascii("roteador") && s.idempotencyKey == BodyHash(s))
    && (forall i, j | 0 <= i < j < |b.supplements| ::
          && b.supplements[i].supplementId != b.supplements[j].supplementId
          && b.supplements[i].idempotencyKey != b.supplements[j].idempotencyKey
          && (b.supplements[i].entityId, b.supplements[i].revision) !=
             (b.supplements[j].entityId, b.supplements[j].revision))
    && (forall s | s in b.supplements :: exists event :: event in events && ExplainedBy(s, event))
  }

  /** The event with this project, entity and revision, with the same decision and instant. */
  ghost predicate ExplainedBy(s: Supplement, event: EventRow) {
    && event.projectId == s.projectId && event.entityId == s.entityId && event.revision == s.revision
    && event.envelope.policy.decisionHash == s.decisionHash
    && Records.Epoch(event.envelope.occurredAt) == Records.Epoch(s.occurredAt)
  }

  lemma {:induction false} ExplainedIsLinked(events: set<EventRow>, s: Supplement)
    ensures LinkedTo(events, s) <==> exists event :: event in events && ExplainedBy(s, event)
  {
    hide Records.Epoch;
    if event :| event in events && ExplainedBy(s, event) {
      assert event in Linked(events, s) && LinkAgrees(event, s);
    }
    if LinkedTo(events, s) {
      var event :| event in Linked(events, s) && LinkAgrees(event, s);
      assert ExplainedBy(s, event);
    }
  }

  lemma {:induction false} FitIsConsistent(events: set<EventRow>, b: SupplementBatch)
    ensures FitToBeFirst(events, b) <==> Consistent(events, {b})
  {
    hide ParsedSupplements, NoClash, LinkedTo, FitToBeFirst;
    assert SupplementsOf({b}) == Members(b.supplements);
    assert b in {b};
    if Consistent(events, {b}) {
      ConsistentIsFit(events, b);
    }
    if FitToBeFirst(events, b) {
      FitIsParsed(events, b);
      FitIsClear(events, b);
      FitIsLinked(events, b);
    }
  }

  lemma {:induction false} ConsistentIsFit(events: set<EventRow>, b: SupplementBatch)
    requires ParsedSupplements(b) && NoClash(Members(b.supplements)) && AllLinked(events, Members(b.supplements))
    ensures FitToBeFirst(events, b)
  {
    hide CoreHash, KeyedHash, BodyHash, ExplainedBy, LinkedTo;
    DistinctInBatch(b);
    forall s | s in b.supplements
      ensures s.projectId == Ascii("roteador") && s.idempotencyKey == BodyHash(s)
      ensures exists event :: event in events && ExplainedBy(s, event)
    {
      var i :| 0 <= i < |b.supplements| && b.supplements[i] == s;
      assert s in Members(b.supplements);
      ExplainedIsLinked(events, s);
    }
    forall i, j | 0 <= i < j < |b.supplements|
      ensures b.supplements[i].supplementId != b.supplements[j].supplementId
      ensures b.supplements[i].idempotencyKey != b.supplements[j].idempotencyKey
    {
      assert DifferentKeys(b.supplements[i], b.supplements[j]);
    }
  }

  lemma {:induction false} FitIsLinked(events: set<EventRow>, b: SupplementBatch)
    requires FitToBeFirst(events, b)
    ensures AllLinked(events, Members(b.supplements))
  {
    hide CoreHash, KeyedHash, BodyHash, ExplainedBy, LinkedTo;
    forall s | s in Members(b.supplements)
      ensures LinkedTo(events, s)
    {
      ExplainedIsLinked(events, s);
    }
  }

  lemma {:induction false} FitIsParsed(events: set<EventRow>, b: SupplementBatch)
    requires FitToBeFirst(events, b)
    ensures ParsedSupplements(b)
  {
    hide CoreHash, KeyedHash, BodyHash, ExplainedBy;
    forall i | 0 <= i < |b.supplements|
      ensures b.supplements[i].projectId == ROTEADOR && b.supplements[i].idempotencyKey == BodyHash(b.supplements[i])
    {
      assert b.supplements[i] in b.supplements;
    }
  }

  lemma {:induction false} FitIsClear(events: set<EventRow>, b: SupplementBatch)
    requires FitToBeFirst(events, b)
    ensures NoClash(Members(b.supplements))
  {
    hide CoreHash, KeyedHash, BodyHash, ExplainedBy;
    forall s, t | s in Members(b.supplements) && t in Members(b.supplements)
      ensures !Clashing(s, t)
    {
      var i :| 0 <= i < |b.supplements| && b.supplements[i] == s;
      var j :| 0 <= j < |b.supplements| && b.supplements[j] == t;
    }
  }

  lemma {:induction false} DistinctInBatch(b: SupplementBatch)
    requires ParsedSupplements(b) && NoClash(Members(b.supplements))
    ensures forall i, j | 0 <= i < j < |b.supplements| ::
              (b.supplements[i].entityId, b.supplements[i].revision) !=
              (b.supplements[j].entityId, b.supplements[j].revision)
  {
    hide CoreHash, KeyedHash, BodyHash;
    forall i, j | 0 <= i < j < |b.supplements|
      ensures (b.supplements[i].entityId, b.supplements[i].revision) !=
              (b.supplements[j].entityId, b.supplements[j].revision)
    {
      assert !Clashing(b.supplements[i], b.supplements[j]);
    }
  }

  /** It is then inserted whole, and any other batch is refused. */
  lemma {:induction false} FirstDelivery(events: set<EventRow>, b: SupplementBatch)
    requires UniqueLinks(events)
    ensures var reply := Linkage(events, NO_SUPPLEMENTS, b).1;
            && (reply.Accepted? <==> FitToBeFirst(events, b))
            && (reply.Accepted? ==> reply == Accepted(|b.supplements|, 0, false, b.batchHash))
  {
    hide Linkage, Consistent, FitToBeFirst, Describes, UniqueLinks, LinkAll;
    NoDeliveries(events);
    FitIsConsistent(events, b);
    DeliveryMeaning(events, NO_SUPPLEMENTS, {}, b);
    assert {} + {b} == {b};
    if Consistent(events, {b}) {
      FirstIsNew(events, b);
    }
  }

  lemma {:induction false} FirstIsNew(events: set<EventRow>, b: SupplementBatch)
    requires UniqueLinks(events) && Consistent(events, {b}) && Linkage(events, NO_SUPPLEMENTS, b).1.Accepted?
    ensures Linkage(events, NO_SUPPLEMENTS, b).1 == Accepted(|b.supplements|, 0, false, b.batchHash)
  {
    hide LinkAll, UniqueLinks, ParsedSupplements, NoClash, AllLinked;
    assert PriorSupplementBatches({}, b) == {};
    assert b in {b} && ParsedSupplements(b);
    NoDeliveries(events);
    var start := Linking({}, 0, 0);
    assert Rows(events, {}) == {} && {} + Members(b.supplements) == Members(b.supplements);
    NoClashOfNone();
    LinkAllMeaning(events, start, {}, b.supplements);
    MembersSize(b);
  }

  lemma {:induction false} NoClashOfNone()
    ensures NoClash({})
  {
  }

  lemma {:induction false} MembersSize(b: SupplementBatch)
    requires ParsedSupplements(b)
    ensures |Members(b.supplements)| == |b.supplements|
  {
    hide CoreHash, KeyedHash, BodyHash;
    forall i, j | 0 <= i < j < |b.supplements|
      ensures b.supplements[i] != b.supplements[j]
    {
      assert DifferentKeys(b.supplements[i], b.supplements[j]);
    }
    DistinctSize(b.supplements);
  }

  lemma {:induction false} DistinctSize(supplements: seq<Supplement>)
    requires forall i, j | 0 <= i < j < |supplements| :: supplements[i] != supplements[j]
    ensures |Members(supplements)| == |supplements|
  {
    if supplements == [] {
      assert Members(supplements) == {};
    } else {
      var n := |supplements| - 1;
      DistinctSize(supplements[..n]);
      assert supplements == supplements[..n] + [supplements[n]];
      assert Members(supplements) == Members(supplements[..n]) + {supplements[n]};
    }
  }

  /** The columns of an accepted batch's row. */
  lemma {:induction false} BatchRowsMirrorBatches(log: seq<Outcome>, r: BatchRow)
    requires r in Serial(log).1.batches
    ensures exists b | b in AcceptedIn(log) ::
              && r.batchId == b.batchId && r.idempotencyKey == b.idempotencyKey && r.projectId == b.projectId
              && r.contentHash == b.batchHash && r.generatedAt == Records.Epoch(b.generatedAt)
              && r.eventCount == |b.supplements|
  {
    hide Serial, Records.Epoch, Consistent, AcceptedIn, Rows;
    SerialSupplements(log);
    var b :| b in AcceptedIn(log) && r == SupplementBatchRowOf(b);
  }

  // ---------- malformed batches ----------

  /** What is demanded of a batch before any table is read, spelled out. */
  ghost predicate IsSound(b: SupplementBatch) {
    && 1 <= |b.supplements| <= 100 && b.projectId == Ascii("roteador")
    && b.idempotencyKey == CoreHash(b) && b.batchHash == KeyedHash(b)
    && (forall s | s in b.supplements :: s.projectId == Ascii("roteador") && s.idempotencyKey == BodyHash(s))
    && (forall i, j | 0 <= i < j < |b.supplements| ::
          && b.supplements[i].supplementId != b.supplements[j].supplementId
          && b.supplements[i].idempotencyKey != b.supplements[j].idempotencyKey
          && (b.supplements[i].entityId, b.supplements[i].revision, b.supplements[i].decisionHash) !=
             (b.supplements[j].entityId, b.supplements[j].revision, b.supplements[j].decisionHash))
  }

  lemma {:induction false} SoundIsParsed(b: SupplementBatch)
    ensures IsSound(b) <==> ParsedSupplements(b)
  {
    hide CoreHash, KeyedHash, BodyHash;
    if ParsedSupplements(b) {
      forall i, j | 0 <= i < j < |b.supplements|
        ensures DifferentKeys(b.supplements[i], b.supplements[j])
        ensures b.supplements[i].projectId == b.supplements[j].projectId
      {
      }
    }
    if IsSound(b) {
      forall i | 0 <= i < |b.supplements|
        ensures b.supplements[i] in b.supplements
      {
      }
    }
  }

  ghost predicate NamesAnEvent(events: set<EventRow>, s: Supplement) {
    exists event :: event in events && event.projectId == s.projectId && event.entityId == s.entityId &&
                    event.revision == s.revision
  }

  lemma {:induction false} NoneMissing(events: set<EventRow>, start: LinkProgress, batch: seq<Supplement>)
    requires !start.MissingEvent? && forall s | s in batch :: NamesAnEvent(events, s)
    ensures !LinkAll(events, start, batch).MissingEvent?
  {
    hide StoreSupplement, LinkAgrees;
    if batch != [] {
      var n := |batch| - 1;
      assert batch[n] in batch;
      NoneMissing(events, start, batch[..n]);
      var event :| event in events && event.projectId == batch[n].projectId
                   && event.entityId == batch[n].entityId && event.revision == batch[n].revision;
      assert event in Linked(events, batch[n]);
      StoreIsNotMissing(batch[n]);
    }
  }

  lemma {:induction false} StoreIsNotMissing(s: Supplement)
    ensures forall p: LinkProgress, eventId | p.Linking? :: !StoreSupplement(p, s, eventId).MissingEvent?
  {
  }

  /**
    * A malformed batch is a bad request and changes nothing; a sound one whose events are all stored
    * never is: it is accepted or in conflict.
    */
  lemma {:induction false} MalformedIsBadRequest(events: set<EventRow>, t: SupplementTables, b: SupplementBatch)
    ensures !IsSound(b) ==> Linkage(events, t, b) == (t, BadRequest)
    ensures IsSound(b) && (forall s | s in b.supplements :: NamesAnEvent(events, s)) ==>
              Linkage(events, t, b).1 != BadRequest
  {
    hide IsSound, ParsedSupplements, LinkAll, NamesAnEvent;
    SoundIsParsed(b);
    if forall s | s in b.supplements :: NamesAnEvent(events, s) {
      NoneMissing(events, Linking(t.supplements, 0, 0), b.supplements);
    }
  }
}
