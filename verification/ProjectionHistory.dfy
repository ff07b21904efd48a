/**
  * What the event tables hold after any sequence of ingests: a description that does not mention
  * the order of delivery, from which acceptance, heads, replay and confluence follow.
  */
module ProjectionHistory {
  import opened JsValues
  import opened Records
  import opened ProjectionStore

  /** The two events compete for one of the unique keys. */
  predicate Clashing(e: Event, f: Event) {
    e != f &&
    (e.eventId == f.eventId || e.idempotencyKey == f.idempotencyKey ||
     (e.projectId == f.projectId && e.entityId == f.entityId && e.revision == f.revision))
  }

  predicate ClashingBatches(b: Batch, c: Batch) {
    b != c && (b.batchId == c.batchId || b.idempotencyKey == c.idempotencyKey)
  }

  ghost predicate NoClash(events: set<Event>) {
    forall e, f | e in events && f in events :: !Clashing(e, f)
  }

  ghost predicate Deliverable(b: Batch) { Parsed(b) && b.projectId == ROTEADOR }

  ghost function EventsOf(batches: set<Batch>): set<Event> {
    set b, e | b in batches && e in b.events :: e
  }

  /** Every two records are identical or share no identity key. */
  ghost predicate Consistent(batches: set<Batch>) {
    && (forall b | b in batches :: Deliverable(b))
    && (forall b, c | b in batches && c in batches :: !ClashingBatches(b, c))
    && NoClash(EventsOf(batches))
  }

  ghost function Rows(events: set<Event>): set<EventRow> { set e | e in events :: RowOf(e) }

  ghost predicate Highest(e: Event, events: set<Event>) {
    e in events &&
    forall f | f in events && f.projectId == e.projectId && f.entityId == e.entityId :: f.revision <= e.revision
  }

  ghost predicate HeadFits(key: (Text, Text), head: HeadRow, events: set<Event>) {
    exists e | Highest(e, events) :: key == (e.projectId, e.entityId) && head == HeadRow(e.revision, e.eventId)
  }

  /** One head for each entity that has events, its event of highest revision; none for other entities. */
  ghost predicate HeadsAgree(heads: Heads, events: set<Event>) {
    && (forall key | key in heads :: HeadFits(key, heads[key], events))
    && (forall e | e in events :: (e.projectId, e.entityId) in heads)
  }

  /** The tables are those of exactly these batches. */
  ghost predicate Describes(t: Tables, batches: set<Batch>) {
    && t.events == Rows(EventsOf(batches))
    && t.batches == (set b | b in batches :: BatchRowOf(b))
    && HeadsAgree(t.heads, EventsOf(batches))
  }

  // ---------- one event ----------

  lemma {:induction false} MatchRows(events: set<Event>, e: Event)
    ensures forall f | f in events :: RowOf(f) in Matches(Rows(events), e) <==> f == e || Clashing(f, e)
    ensures forall r | r in Matches(Rows(events), e) :: r.envelope in events && r == RowOf(r.envelope)
  {
    hide ContentHash;
    forall f | f in events
      ensures RowOf(f) in Matches(Rows(events), e) <==> f == e || Clashing(f, e)
    {
      assert RowOf(f) in Rows(events);
    }
  }

  lemma {:induction false} ReplayStep(events: set<Event>, e: Event)
    requires NoClash(events) && e in events
    ensures Matches(Rows(events), e) != {} && IsReplay(Matches(Rows(events), e), e)
  {
    hide ContentHash;
    MatchRows(events, e);
    var matches := Matches(Rows(events), e);
    forall r | r in matches
      ensures r == RowOf(e)
    {
      assert RowOf(r.envelope) in matches;
      assert !Clashing(r.envelope, e);
    }
    assert matches == {RowOf(e)};
  }

  lemma {:induction false} ClashStep(events: set<Event>, e: Event, f: Event)
    requires f in events && Clashing(f, e)
    ensures Matches(Rows(events), e) != {} && !IsReplay(Matches(Rows(events), e), e)
  {
    hide ContentHash;
    MatchRows(events, e);
    assert RowOf(f) in Matches(Rows(events), e);
    if ContentHash(f) == ContentHash(e) {
      ContentHashInjective(f, e);
      assert false;
    }
  }

  lemma {:induction false} FreshStep(events: set<Event>, e: Event)
    requires e !in events && forall f | f in events :: !Clashing(f, e)
    ensures Matches(Rows(events), e) == {}
  {
    hide ContentHash;
    MatchRows(events, e);
  }

  lemma {:induction false} UpsertAgrees(heads: Heads, events: set<Event>, e: Event)
    requires HeadsAgree(heads, events) && NoClash(events + {e})
    ensures HeadsAgree(UpsertHead(heads, e), events + {e})
  {
    var after, all := UpsertHead(heads, e), events + {e};
    var own := (e.projectId, e.entityId);
    if own in heads {
      assert HeadFits(own, heads[own], events);
      var top :| Highest(top, events) && own == (top.projectId, top.entityId)
        && heads[own] == HeadRow(top.revision, top.eventId);
      assert !Clashing(top, e);
      if heads[own].revision >= e.revision {
        assert Highest(top, all);
      } else {
        assert Highest(e, all);
      }
    } else {
      assert Highest(e, all);
    }
    forall key | key in after
      ensures HeadFits(key, after[key], all)
    {
      if key != own {
        assert HeadFits(key, heads[key], events);
        var top :| Highest(top, events) && key == (top.projectId, top.entityId)
          && heads[key] == HeadRow(top.revision, top.eventId);
        assert Highest(top, all);
      }
    }
  }

  // ---------- one batch ----------

  ghost function Members(events: seq<Event>): set<Event> { set e | e in events }

  /** Progress that has taken in exactly these events, `handled` of them from the batch. */
  ghost predicate Holds(p: Progress, events: set<Event>, handled: nat) {
    p.Going? && p.events == Rows(events) && HeadsAgree(p.heads, events) && p.inserted + p.replayed == handled
  }

  lemma {:induction false} StepMeaning(p: Progress, known: set<Event>, handled: nat, e: Event)
    requires Holds(p, known, handled) && NoClash(known)
    ensures Step(p, e).Going? <==> NoClash(known + {e})
    ensures Step(p, e).Going? ==> Holds(Step(p, e), known + {e}, handled + 1)
  {
    hide RowOf, Matches, IsReplay, UpsertHead, HeadsAgree;
    if e in known {
      ReplayStep(known, e);
      assert known + {e} == known;
    } else if f :| f in known && Clashing(f, e) {
      ClashStep(known, e, f);
      assert f in known + {e} && e in known + {e};
    } else {
      FreshStep(known, e);
      NoClashAdd(known, e);
      assert Rows(known + {e}) == Rows(known) + {RowOf(e)};
      UpsertAgrees(p.heads, known, e);
    }
  }

  /** A sequence of events goes through exactly when stored and new events do not clash. */
  lemma {:induction false} ProcessMeaning(start: Progress, before: set<Event>, events: seq<Event>)
    requires start.Going? && Holds(start, before, 0) && NoClash(before)
    ensures Process(start, events).Going? <==> NoClash(before + Members(events))
    ensures Process(start, events).Going? ==> Holds(Process(start, events), before + Members(events), |events|)
  {
    hide Step, Holds, NoClash;
    if events == [] {
      assert before + Members(events) == before;
    } else {
      var n := |events| - 1;
      var shorter, e := events[..n], events[n];
      ProcessMeaning(start, before, shorter);
      assert events == shorter + [e];
      var known := before + Members(shorter);
      assert before + Members(events) == known + {e};
      if NoClash(known) {
        StepMeaning(Process(start, shorter), known, n, e);
      } else {
        ClashPersists(e);
        NoClashSubset(known, known + {e});
      }
    }
  }

  lemma {:induction false} ClashPersists(e: Event)
    ensures Step(Clash, e) == Clash
  {
  }

  lemma {:induction false} NoClashAdd(events: set<Event>, e: Event)
    requires NoClash(events) && forall f | f in events :: !Clashing(f, e)
    ensures NoClash(events + {e})
  {
    forall f, g | f in events + {e} && g in events + {e}
      ensures !Clashing(f, g)
    {
      if f == e && g in events {
        assert !Clashing(g, e);
      }
    }
  }

  lemma {:induction false} NoClashSubset(small: set<Event>, large: set<Event>)
    requires small <= large
    ensures NoClash(large) ==> NoClash(small)
  {
  }

  lemma {:induction false} PriorRows(batches: set<Batch>, b: Batch)
    requires Consistent(batches) && Deliverable(b)
    ensures var prior := PriorBatches((set c | c in batches :: BatchRowOf(c)), b);
            && (b in batches ==> prior == {BatchRowOf(b)})
            && ((exists c | c in batches :: ClashingBatches(c, b)) ==> prior != {} && !IsBatchReplay(prior, b))
            && (b !in batches && !(exists c | c in batches :: ClashingBatches(c, b)) ==> prior == {})
  {
    hide BodyHash;
    var rows := set c | c in batches :: BatchRowOf(c);
    var prior := PriorBatches(rows, b);
    if b in batches {
      assert BatchRowOf(b) in rows;
      forall r | r in prior
        ensures r == BatchRowOf(b)
      {
        var c :| c in batches && r == BatchRowOf(c);
        assert !ClashingBatches(c, b);
      }
      assert prior == {BatchRowOf(b)};
    }
    if c :| c in batches && ClashingBatches(c, b) {
      assert BatchRowOf(c) in prior;
      if c.batchHash == b.batchHash {
        BodyHashInjective(c, b);
        assert false;
      }
    }
  }

  lemma {:induction false} EventsOfAdd(batches: set<Batch>, b: Batch)
    ensures EventsOf(batches + {b}) == EventsOf(batches) + Members(b.events)
  {
    assert b in batches + {b};
  }

  lemma {:induction false} ConsistentAdd(batches: set<Batch>, b: Batch)
    requires Consistent(batches) && Deliverable(b)
    ensures Consistent(batches + {b}) <==>
            (forall c | c in batches :: !ClashingBatches(c, b)) && NoClash(EventsOf(batches) + Members(b.events))
  {
    hide Deliverable, NoClash;
    EventsOfAdd(batches, b);
    var all := batches + {b};
    if Consistent(all) {
      forall c | c in batches
        ensures !ClashingBatches(c, b)
      {
        assert c in all && b in all;
      }
    }
    if forall c | c in batches :: !ClashingBatches(c, b) {
      forall c, d | c in all && d in all
        ensures !ClashingBatches(c, d)
      {
        if c == b && d in batches {
          assert !ClashingBatches(d, b);
        }
      }
    }
  }

  /**
    * One ingest, whatever was accepted before: it succeeds exactly when every two records, stored
    * or new, are identical or share no identity key; it then adds exactly its own records, and
    * otherwise nothing. The counters account for every event of the batch.
    */
  lemma {:induction false} IngestMeaning(t: Tables, batches: set<Batch>, b: Batch)
    requires Consistent(batches) && Describes(t, batches)
    ensures var (t', reply) := Ingested(t, b);
            && (reply.Accepted? <==> Consistent(batches + {b}))
            && (reply.Accepted? ==> Describes(t', batches + {b}))
            && (reply.Accepted? ==> reply.inserted + reply.replayed == |b.events|)
            && (reply.Accepted? ==> (reply.batchReplayed <==> b in batches))
            && (!reply.Accepted? ==> t' == t)
  {
    hide Parsed, PriorBatches, IsBatchReplay, Process, NoClash, HeadsAgree, ClashingBatches, BatchRowOf;
    if Deliverable(b) {
      PriorRows(batches, b);
      ConsistentAdd(batches, b);
      EventsOfAdd(batches, b);
      if b in batches {
        ReplayedBatch(t, batches, b);
        assert batches + {b} == batches;
      } else if c :| c in batches && ClashingBatches(c, b) {
      } else {
        var start := Going(t.events, t.heads, 0, 0);
        assert Holds(start, EventsOf(batches), 0);
        ProcessMeaning(start, EventsOf(batches), b.events);
        assert t.batches + {BatchRowOf(b)} == (set c | c in batches + {b} :: BatchRowOf(c));
      }
    } else {
      assert b in batches + {b};
    }
  }

  /** A batch that was accepted before changes nothing and reports all its events as replayed. */
  lemma {:induction false} ReplayedBatch(t: Tables, batches: set<Batch>, b: Batch)
    requires Consistent(batches) && Describes(t, batches) && b in batches
    ensures Ingested(t, b) == (t, Accepted(0, |b.events|, true, b.batchHash))
  {
    hide Parsed, PriorBatches, IsBatchReplay, Process, NoClash, HeadsAgree, ClashingBatches;
    assert Deliverable(b);
    PriorRows(batches, b);
    BatchReplayOfItself(b);
  }

  lemma {:induction false} BatchReplayOfItself(b: Batch)
    ensures IsBatchReplay({BatchRowOf(b)}, b) && BatchRowOf(b).eventCount == |b.events|
  {
  }

  // ---------- whole runs ----------

  /** The tables after a sequence of deliveries, from empty tables. */
  ghost function Run(deliveries: seq<Batch>): Tables {
    if deliveries == [] then EMPTY
    else Ingested(Run(deliveries[..|deliveries| - 1]), deliveries[|deliveries| - 1]).0
  }

  ghost function ReplyTo(deliveries: seq<Batch>, i: nat): Reply
    requires i < |deliveries|
  {
    Ingested(Run(deliveries[..i]), deliveries[i]).1
  }

  /** The batches of a run that were answered with acceptance. */
  ghost function AcceptedIn(deliveries: seq<Batch>): set<Batch> {
    set i | 0 <= i < |deliveries| && ReplyTo(deliveries, i).Accepted? :: deliveries[i]
  }

  ghost predicate AllAccepted(deliveries: seq<Batch>) {
    forall i | 0 <= i < |deliveries| :: ReplyTo(deliveries, i).Accepted?
  }

  ghost function Delivered(deliveries: seq<Batch>): set<Batch> { set b | b in deliveries }

  lemma {:induction false} AcceptedInSnoc(deliveries: seq<Batch>)
    requires deliveries != []
    ensures var n := |deliveries| - 1;
            AcceptedIn(deliveries) ==
            AcceptedIn(deliveries[..n]) + (if ReplyTo(deliveries, n).Accepted? then {deliveries[n]} else {})
  {
    hide Ingested, ReplyTo;
    var n := |deliveries| - 1;
    var shorter := deliveries[..n];
    var last := if ReplyTo(deliveries, n).Accepted? then {deliveries[n]} else {};
    forall i | 0 <= i < n
      ensures ReplyTo(shorter, i) == ReplyTo(deliveries, i) && shorter[i] == deliveries[i]
    {
      SameReply(deliveries, n, i);
    }
    forall b | b in AcceptedIn(deliveries)
      ensures b in AcceptedIn(shorter) + last
    {
      var i :| 0 <= i < |deliveries| && ReplyTo(deliveries, i).Accepted? && b == deliveries[i];
      if i < n {
        assert ReplyTo(shorter, i).Accepted? && shorter[i] == b;
      }
    }
    forall b | b in AcceptedIn(shorter)
      ensures b in AcceptedIn(deliveries)
    {
      var i :| 0 <= i < n && ReplyTo(shorter, i).Accepted? && b == shorter[i];
      assert ReplyTo(deliveries, i).Accepted? && deliveries[i] == b;
    }
  }

  lemma {:induction false} SameReply(deliveries: seq<Batch>, n: nat, i: nat)
    requires i < n <= |deliveries|
    ensures ReplyTo(deliveries[..n], i) == ReplyTo(deliveries, i)
  {
    hide Ingested;
    assert deliveries[..n][..i] == deliveries[..i];
  }

  /** Every reachable state is described by the batches accepted on the way to it. */
  lemma {:induction false} Reachable(deliveries: seq<Batch>)
    ensures Consistent(AcceptedIn(deliveries))
    ensures Describes(Run(deliveries), AcceptedIn(deliveries))
  {
    hide Ingested, Deliverable, ClashingBatches, NoClash, AcceptedIn;
    if deliveries == [] {
      EmptyRun();
    } else {
      var n := |deliveries| - 1;
      var shorter := deliveries[..n];
      Reachable(shorter);
      AcceptedInSnoc(deliveries);
      IngestMeaning(Run(shorter), AcceptedIn(shorter), deliveries[n]);
      assert AcceptedIn(shorter) + {} == AcceptedIn(shorter);
    }
  }

  lemma {:induction false} EmptyRun()
    ensures AcceptedIn([]) == {} && Consistent({}) && Describes(Run([]), {})
  {
    assert EventsOf({}) == {};
  }

  /** Acceptance of a whole run does not depend on the order or number of deliveries. */
  lemma {:induction false} AllAcceptedMeaning(deliveries: seq<Batch>)
    ensures AllAccepted(deliveries) <==> Consistent(Delivered(deliveries))
    ensures AllAccepted(deliveries) ==> AcceptedIn(deliveries) == Delivered(deliveries)
  {
    hide Ingested, Deliverable, ClashingBatches, NoClash, EventsOf, ReplyTo;
    if AllAccepted(deliveries) {
      forall b | b in deliveries
        ensures b in AcceptedIn(deliveries)
      {
        var i :| 0 <= i < |deliveries| && deliveries[i] == b;
        assert ReplyTo(deliveries, i).Accepted?;
      }
      assert AcceptedIn(deliveries) == Delivered(deliveries);
      Reachable(deliveries);
    }
    if Consistent(Delivered(deliveries)) {
      forall i | 0 <= i < |deliveries|
        ensures ReplyTo(deliveries, i).Accepted?
      {
        ConsistentIsAccepted(deliveries, i);
      }
    }
  }

  lemma {:induction false} ConsistentIsAccepted(deliveries: seq<Batch>, i: nat)
    requires i < |deliveries| && Consistent(Delivered(deliveries))
    ensures ReplyTo(deliveries, i).Accepted?
  {
    hide Ingested, Deliverable, ClashingBatches, NoClash, EventsOf;
    var before := deliveries[..i];
    Reachable(before);
    IngestMeaning(Run(before), AcceptedIn(before), deliveries[i]);
    assert AcceptedIn(before) + {deliveries[i]} <= Delivered(deliveries);
    ConsistentSubset(AcceptedIn(before) + {deliveries[i]}, Delivered(deliveries));
  }

  lemma {:induction false} ConsistentSubset(small: set<Batch>, large: set<Batch>)
    requires small <= large && Consistent(large)
    ensures Consistent(small)
  {
    hide Deliverable, Clashing, ClashingBatches;
    assert EventsOf(small) <= EventsOf(large);
  }

  /** Two descriptions of the same batches are the same tables. */
  lemma {:induction false} DescribesUnique(t: Tables, u: Tables, batches: set<Batch>)
    requires Consistent(batches) && Describes(t, batches) && Describes(u, batches)
    ensures t == u
  {
    hide Deliverable, ClashingBatches, RowOf, BatchRowOf, EventsOf;
    var events := EventsOf(batches);
    SameHeadKeys(t.heads, u.heads, events);
    SameHeadKeys(u.heads, t.heads, events);
    forall key | key in t.heads
      ensures t.heads[key] == u.heads[key]
    {
      SameHead(key, t.heads[key], u.heads[key], events);
    }
    assert t.heads == u.heads;
  }

  lemma {:induction false} SameHeadKeys(heads: Heads, others: Heads, events: set<Event>)
    requires HeadsAgree(heads, events) && HeadsAgree(others, events)
    ensures heads.Keys <= others.Keys
  {
    forall key | key in heads
      ensures key in others
    {
      assert HeadFits(key, heads[key], events);
      var e :| Highest(e, events) && key == (e.projectId, e.entityId);
      assert e in events;
    }
  }

  lemma {:induction false} SameHead(key: (Text, Text), head: HeadRow, other: HeadRow, events: set<Event>)
    requires NoClash(events) && HeadFits(key, head, events) && HeadFits(key, other, events)
    ensures head == other
  {
    var e :| Highest(e, events) && key == (e.projectId, e.entityId) && head == HeadRow(e.revision, e.eventId);
    var f :| Highest(f, events) && key == (f.projectId, f.entityId) && other == HeadRow(f.revision, f.eventId);
    assert e.revision <= f.revision && f.revision <= e.revision;
    assert !Clashing(e, f);
  }

  /**
    * Delivery order and duplication do not matter: if one order of delivery is accepted throughout,
    * so is every rearrangement with any repetitions, and it leaves the same tables.
    */
  lemma {:induction false} Confluence(deliveries: seq<Batch>, rearranged: seq<Batch>)
    requires Delivered(deliveries) == Delivered(rearranged)
    requires AllAccepted(deliveries)
    ensures AllAccepted(rearranged)
    ensures Run(rearranged) == Run(deliveries)
  {
    hide Ingested, Consistent, Describes, AcceptedIn, AllAccepted;
    AllAcceptedMeaning(deliveries);
    AllAcceptedMeaning(rearranged);
    Reachable(deliveries);
    Reachable(rearranged);
    DescribesUnique(Run(deliveries), Run(rearranged), Delivered(deliveries));
  }

  /** In every reachable state the heads are those of the stored events. */
  lemma {:induction false} HeadsInEveryRun(deliveries: seq<Batch>, key: (Text, Text))
    ensures var t := Run(deliveries);
            && (key in t.heads <==> exists r | r in t.events :: (r.projectId, r.entityId) == key)
            && (key in t.heads ==>
                  exists r | r in t.events ::
                    (r.projectId, r.entityId) == key && t.heads[key] == HeadRow(r.revision, r.eventId))
            && (key in t.heads ==>
                  forall r | r in t.events && (r.projectId, r.entityId) == key :: r.revision <= t.heads[key].revision)
  {
    hide Consistent, EventsOf, Run, ContentHash;
    Reachable(deliveries);
    var t, events := Run(deliveries), EventsOf(AcceptedIn(deliveries));
    if key in t.heads {
      assert HeadFits(key, t.heads[key], events);
      var e :| Highest(e, events) && key == (e.projectId, e.entityId) && t.heads[key] == HeadRow(e.revision, e.eventId);
      assert RowOf(e) in t.events;
    }
  }

  /** A head's revision never decreases, and heads do not disappear. */
  lemma {:induction false} HeadsOnlyRise(deliveries: seq<Batch>, next: Batch, key: (Text, Text))
    requires key in Run(deliveries).heads
    ensures key in Run(deliveries + [next]).heads
    ensures Run(deliveries + [next]).heads[key].revision >= Run(deliveries).heads[key].revision
  {
    hide Ingested, ContentHash;
    var after := deliveries + [next];
    assert after[..|after| - 1] == deliveries;
    Reachable(deliveries);
    Reachable(after);
    AcceptedInSnoc(after);
    HeadsInEveryRun(deliveries, key);
    HeadsInEveryRun(after, key);
    var r :| r in Run(deliveries).events && (r.projectId, r.entityId) == key &&
             Run(deliveries).heads[key] == HeadRow(r.revision, r.eventId);
    assert EventsOf(AcceptedIn(deliveries)) <= EventsOf(AcceptedIn(after));
    assert r in Run(after).events;
  }

  /** Delivering an accepted batch again, at any later time, changes no table and is reported as a replay. */
  lemma {:induction false} Redelivery(deliveries: seq<Batch>, i: nat)
    requires i < |deliveries| && ReplyTo(deliveries, i).Accepted?
    ensures Ingested(Run(deliveries), deliveries[i])
            == (Run(deliveries), Accepted(0, |deliveries[i].events|, true, deliveries[i].batchHash))
  {
    hide Ingested, Consistent, Describes;
    Reachable(deliveries);
    assert deliveries[i] in AcceptedIn(deliveries);
    ReplayedBatch(Run(deliveries), AcceptedIn(deliveries), deliveries[i]);
  }

  /** `inserted` counts exactly the rows that are new. */
  lemma {:induction false} InsertedCountsRows(start: Progress, events: seq<Event>)
    requires start.Going? && Process(start, events).Going?
    ensures |Process(start, events).events| - Process(start, events).inserted == |start.events| - start.inserted
  {
    hide ContentHash, IsReplay, UpsertHead;
    if events != [] {
      var n := |events| - 1;
      var p := Process(start, events[..n]);
      if p.Clash? {
        ClashPersists(events[n]);
        assert false;
      }
      InsertedCountsRows(start, events[..n]);
      if Matches(p.events, events[n]) == {} {
        assert RowOf(events[n]) !in p.events by {
          assert SharesKey(RowOf(events[n]), events[n]);
        }
      }
    }
  }

  /**
    * Ingest is atomic and its counters add up: acceptance adds `inserted` rows and nothing else
    * replayed or inserted goes uncounted; rejection, at whatever event, leaves every table alone.
    */
  lemma {:induction false} IngestConserves(deliveries: seq<Batch>, next: Batch)
    ensures var t := Run(deliveries);
            var (t', reply) := Ingested(t, next);
            && (!reply.Accepted? ==> t' == t)
            && (reply.Accepted? ==> reply.inserted + reply.replayed == |next.events|)
            && (reply.Accepted? ==> |t'.events| == |t.events| + reply.inserted)
            && (reply.Accepted? ==> t.events <= t'.events && t.batches <= t'.batches)
  {
    hide Run, Process, Consistent, Describes, HeadsAgree, Parsed, PriorBatches, IsBatchReplay, BatchRowOf;
    Reachable(deliveries);
    var t := Run(deliveries);
    IngestMeaning(t, AcceptedIn(deliveries), next);
    var (t', reply) := Ingested(t, next);
    if reply.Accepted? && !reply.batchReplayed {
      InsertedCountsRows(Going(t.events, t.heads, 0, 0), next.events);
      RowsGrow(Going(t.events, t.heads, 0, 0), next.events);
    }
  }

  lemma {:induction false} RowsGrow(start: Progress, events: seq<Event>)
    requires start.Going? && Process(start, events).Going?
    ensures start.events <= Process(start, events).events
  {
    hide RowOf, Matches, IsReplay, UpsertHead;
    if events != [] {
      var n := |events| - 1;
      var p := Process(start, events[..n]);
      if p.Clash? {
        ClashPersists(events[n]);
        assert false;
      }
      RowsGrow(start, events[..n]);
    }
  }

  // ---------- what the counters count ----------

  lemma {:induction false} RowsSize(events: set<Event>)
    ensures |Rows(events)| == |events|
  {
    hide ContentHash;
    if events != {} {
      var e :| e in events;
      RowsSize(events - {e});
      assert Rows(events) == Rows(events - {e}) + {RowOf(e)};
      assert RowOf(e) !in Rows(events - {e});
    }
  }

  lemma {:induction false} MembersSize(events: seq<Event>)
    requires forall i, j | 0 <= i < j < |events| :: events[i] != events[j]
    ensures |Members(events)| == |events|
  {
    if events != [] {
      var n := |events| - 1;
      MembersSize(events[..n]);
      assert events == events[..n] + [events[n]];
      assert Members(events) == Members(events[..n]) + {events[n]};
      assert events[n] !in Members(events[..n]);
    }
  }

  lemma {:induction false} Partition(all: set<Event>, part: set<Event>)
    ensures |all + part| == |all| + |part - all|
    ensures |part| == |part - all| + |part * all|
  {
    assert all + part == all + (part - all);
    assert part == (part - all) + (part * all);
  }

  /** For a batch not seen before, `inserted` counts its events that are new and `replayed` those already stored. */
  lemma {:induction false} InsertedAreTheNew(deliveries: seq<Batch>, next: Batch)
    requires Ingested(Run(deliveries), next).1.Accepted? && !Ingested(Run(deliveries), next).1.batchReplayed
    ensures var stored, reply := EventsOf(AcceptedIn(deliveries)), Ingested(Run(deliveries), next).1;
            && reply.inserted == |Members(next.events) - stored|
            && reply.replayed == |Members(next.events) * stored|
  {
    hide Run, Ingested, Consistent, HeadsAgree, EventsOf, Rows, BatchRowOf;
    var batches, t := AcceptedIn(deliveries), Run(deliveries);
    Reachable(deliveries);
    IngestMeaning(t, batches, next);
    IngestConserves(deliveries, next);
    RowsSize(EventsOf(batches));
    RowsSize(EventsOf(batches + {next}));
    EventsOfAdd(batches, next);
    Partition(EventsOf(batches), Members(next.events));
    AcceptedIsDistinct(batches, next);
  }

  lemma {:induction false} AcceptedIsDistinct(batches: set<Batch>, b: Batch)
    requires Consistent(batches + {b})
    ensures |Members(b.events)| == |b.events|
  {
    assert Deliverable(b);
    MembersSize(b.events);
  }

  /** In every reachable state a row's columns are those of the event it stores. */
  lemma {:induction false} RowsMirrorEvents(deliveries: seq<Batch>, r: EventRow)
    requires r in Run(deliveries).events
    ensures var e := r.envelope;
            && r.eventId == e.eventId && r.idempotencyKey == e.idempotencyKey && r.projectId == e.projectId
            && r.entityId == e.entityId && r.revision == e.revision
            && r.contentHash == ContentHash(e) && r.occurredAt == Epoch(e.occurredAt)
            && exists b | b in AcceptedIn(deliveries) :: e in b.events
  {
    hide Run, ContentHash, Epoch, Consistent, HeadsAgree;
    Reachable(deliveries);
    var e :| e in EventsOf(AcceptedIn(deliveries)) && r == RowOf(e);
    var b :| b in AcceptedIn(deliveries) && e in b.events;
  }

  // ---------- the first delivery ----------

  /** What a batch has to be when nothing is stored yet, spelled out. */
  ghost predicate FitToBeFirst(b: Batch) {
    && 1 <= |b.events| <= 100 && b.projectId == Ascii("roteador") && b.batchHash == BodyHash(b)
    && (forall e | e in b.events :: e.projectId == b.projectId)
    && (forall i, j | 0 <= i < j < |b.events| ::
          && b.events[i].eventId != b.events[j].eventId
          && b.events[i].idempotencyKey != b.events[j].idempotencyKey
          && (b.events[i].entityId, b.events[i].revision) != (b.events[j].entityId, b.events[j].revision))
  }

  lemma {:induction false} FitIsConsistent(b: Batch)
    ensures FitToBeFirst(b) <==> Consistent({b})
  {
    hide Deliverable, NoClash, FitToBeFirst;
    assert EventsOf({b}) == Members(b.events);
    assert b in {b};
    if Consistent({b}) {
      ConsistentIsFit(b);
    }
    if FitToBeFirst(b) {
      FitIsClear(b);
    }
  }

  lemma {:induction false} ConsistentIsFit(b: Batch)
    requires Deliverable(b) && NoClash(Members(b.events))
    ensures FitToBeFirst(b)
  {
    hide BodyHash, Ascii;
    forall i, j | 0 <= i < j < |b.events|
      ensures (b.events[i].entityId, b.events[i].revision) != (b.events[j].entityId, b.events[j].revision)
    {
      assert !Clashing(b.events[i], b.events[j]);
    }
  }

  lemma {:induction false} FitIsClear(b: Batch)
    requires FitToBeFirst(b)
    ensures Deliverable(b) && NoClash(Members(b.events))
  {
    hide FitToBeFirst, Deliverable, Clashing;
    FitIsDeliverable(b);
    forall e, f | e in Members(b.events) && f in Members(b.events)
      ensures !Clashing(e, f)
    {
      var i :| 0 <= i < |b.events| && b.events[i] == e;
      var j :| 0 <= j < |b.events| && b.events[j] == f;
      if i < j {
        FitPair(b, i, j);
      } else if j < i {
        FitPair(b, j, i);
      } else {
        ClashesNotWithItself(e);
      }
    }
  }

  lemma {:induction false} ClashesNotWithItself(e: Event)
    ensures !Clashing(e, e)
  {
  }

  lemma {:induction false} FitIsDeliverable(b: Batch)
    requires FitToBeFirst(b)
    ensures Deliverable(b)
  {
    hide BodyHash, Ascii;
  }

  lemma {:induction false} FitPair(b: Batch, i: nat, j: nat)
    requires FitToBeFirst(b) && i < j < |b.events|
    ensures !Clashing(b.events[i], b.events[j]) && !Clashing(b.events[j], b.events[i])
  {
    hide BodyHash, Ascii;
  }

  /** It is then inserted whole, and any other batch is refused. */
  lemma {:induction false} FirstDelivery(b: Batch)
    ensures Ingested(EMPTY, b).1.Accepted? <==> FitToBeFirst(b)
    ensures FitToBeFirst(b) ==> Ingested(EMPTY, b).1 == Accepted(|b.events|, 0, false, b.batchHash)
  {
    hide Ingested, Consistent, FitToBeFirst, Describes;
    EmptyRun();
    FitIsConsistent(b);
    IngestMeaning(EMPTY, {}, b);
    assert {} + {b} == {b};
    if FitToBeFirst(b) {
      FirstIsNew(b);
    }
  }

  lemma {:induction false} FirstIsNew(b: Batch)
    requires FitToBeFirst(b) && Ingested(EMPTY, b).1.Accepted?
    ensures Ingested(EMPTY, b).1 == Accepted(|b.events|, 0, false, b.batchHash)
  {
    hide Consistent, Describes, FitToBeFirst, Parsed, Process;
    EmptyRun();
    assert PriorBatches({}, b) == {};
    FitIsConsistent(b);
    ProcessOfFirst(b);
  }

  lemma {:induction false} ProcessOfFirst(b: Batch)
    requires Consistent({b})
    ensures var p := Process(Going({}, map[], 0, 0), b.events);
            p.Going? && p.inserted == |b.events| && p.replayed == 0
  {
    hide Process, RowOf, BodyHash, Ascii, Clashing, Consistent;
    EmptyRun();
    DeliverableAlone(b);
    assert EventsOf({}) == {} && {} + {b} == {b};
    assert {} + Members(b.events) == Members(b.events);
    ProcessMeaning(Going({}, map[], 0, 0), {}, b.events);
    InsertedCountsRows(Going({}, map[], 0, 0), b.events);
    AcceptedIsDistinct({}, b);
    RowsSize(Members(b.events));
  }

  lemma {:induction false} DeliverableAlone(b: Batch)
    requires Consistent({b})
    ensures EventsOf({b}) == Members(b.events) && NoClash(Members(b.events))
  {
    hide BodyHash, Ascii, Clashing;
    assert EventsOf({b}) == Members(b.events);
  }

  /** The columns of an accepted batch's row. */
  lemma {:induction false} BatchRowsMirrorBatches(deliveries: seq<Batch>, r: BatchRow)
    requires r in Run(deliveries).batches
    ensures exists b | b in AcceptedIn(deliveries) ::
              && r.batchId == b.batchId && r.idempotencyKey == b.idempotencyKey && r.projectId == b.projectId
              && r.contentHash == b.batchHash && r.generatedAt == Epoch(b.generatedAt) && r.eventCount == |b.events|
  {
    hide Run, Epoch, Consistent, HeadsAgree, EventsOf;
    Reachable(deliveries);
    var b :| b in AcceptedIn(deliveries) && r == BatchRowOf(b);
  }

  /** What is demanded of a batch before any table is read, spelled out. */
  ghost predicate IsSound(b: Batch) {
    && 1 <= |b.events| <= 100 && b.projectId == Ascii("roteador") && b.batchHash == BodyHash(b)
    && (forall e | e in b.events :: e.projectId == b.projectId)
    && (forall i, j | 0 <= i < j < |b.events| ::
          b.events[i].eventId != b.events[j].eventId && b.events[i].idempotencyKey != b.events[j].idempotencyKey)
  }

  lemma {:induction false} SoundIsDeliverable(b: Batch)
    ensures IsSound(b) <==> Deliverable(b)
  {
    hide BodyHash, Ascii;
  }

  /** Exactly a malformed batch is a bad request; a sound one is accepted or in conflict. */
  lemma {:induction false} MalformedIsBadRequest(t: Tables, b: Batch)
    ensures Ingested(t, b).1 == BadRequest <==> !IsSound(b)
    ensures !IsSound(b) ==> Ingested(t, b).0 == t
  {
    hide IsSound, Parsed, Process;
    SoundIsDeliverable(b);
  }
}
