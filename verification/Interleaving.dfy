/**
  * Both ingest endpoints as transactions of one statement per step, from any number of replicas,
  * at READ COMMITTED: a statement sees what is committed when it runs, plus the transaction's own
  * writes. The endpoints hold different advisory locks.
  */
module Interleaving {
  import opened JsValues
  import opened Records
  import opened ProjectionStore
  import opened SupplementRecords
  import opened SupplementStore
  import opened SupplementLinks
  import History = ProjectionHistory

  type Id = nat

  // ---------- transactions ----------

  datatype EventWrites = EventWrites(events: set<EventRow>, heads: Heads, batches: set<BatchRow>)

  datatype EventPhase =
    | Waiting
    | Locked
    | AtEvent(i: nat, own: EventWrites, inserted: nat, replayed: nat)
    | Matched(i: nat, own: EventWrites, inserted: nat, replayed: nat, matches: set<EventRow>)
    | HeadPending(i: nat, own: EventWrites, inserted: nat, replayed: nat)
    | Ready(own: EventWrites, reply: Reply)
    | Answered(reply: Reply)
    | RolledBack

  /** `seen` records the committed tables at the moment the lock was taken. */
  datatype EventTx = EventTx(batch: Batch, phase: EventPhase, seen: Tables)

  datatype SupplementWrites = SupplementWrites(supplements: set<SupplementRow>, batches: set<BatchRow>)

  datatype SupplementPhase =
    | SWaiting
    | SLocked
    | AtSupplement(i: nat, own: SupplementWrites, inserted: nat, replayed: nat)
    | EventFound(i: nat, own: SupplementWrites, inserted: nat, replayed: nat, event: EventRow)
    | SMatched(i: nat, own: SupplementWrites, inserted: nat, replayed: nat, event: EventRow,
               matches: set<SupplementRow>)
    | SReady(own: SupplementWrites, reply: Reply)
    | SAnswered(reply: Reply)
    | SRolledBack

  datatype SupplementTx = SupplementTx(batch: SupplementBatch, phase: SupplementPhase)

  datatype Outcome =
    | EventOutcome(events: Batch, reply: Reply)
    | SupplementOutcome(supplements: SupplementBatch, reply: Reply)

  /** Committed tables, the two locks, the transactions, and the decided outcomes in order of decision. */
  datatype State = State(tables: Tables, linked: SupplementTables, eventLock: Option<Id>, supplementLock: Option<Id>,
                         eventTxs: map<Id, EventTx>, supplementTxs: map<Id, SupplementTx>, log: seq<Outcome>)

  const NOTHING := EventWrites({}, map[], {})
  const NO_LINKS := SupplementWrites({}, {})

  function Overlay(t: Tables, own: EventWrites): Tables {
    Tables(t.events + own.events, t.heads + own.heads, t.batches + own.batches)
  }

  function LinkOverlay(t: SupplementTables, own: SupplementWrites): SupplementTables {
    SupplementTables(t.supplements + own.supplements, t.batches + own.batches)
  }

  ghost predicate Initial(s: State) {
    && s.tables == EMPTY && s.linked == NO_SUPPLEMENTS && s.eventLock == None && s.supplementLock == None && s.log == []
    && (forall id | id in s.eventTxs :: s.eventTxs[id].phase == Waiting)
    && (forall id | id in s.supplementTxs :: s.supplementTxs[id].phase == SWaiting)
  }

  // ---------- steps of an event transaction ----------

  function Enter(s: State, id: Id, phase: EventPhase): State
    requires id in s.eventTxs
  {
    s.(eventTxs := s.eventTxs[id := s.eventTxs[id].(phase := phase)])
  }

  /** Roll back and answer: the lock is released, the writes are dropped. */
  function Refuse(s: State, id: Id, reply: Reply): State
    requires id in s.eventTxs
  {
    Enter(s, id, Answered(reply)).(eventLock := None, log := s.log + [EventOutcome(s.eventTxs[id].batch, reply)])
  }

  predicate Holding(phase: EventPhase) { !phase.Waiting? && !phase.Answered? && !phase.RolledBack? }

  ghost function EventStep(s: State, id: Id, fails: bool): State
    requires id in s.eventTxs
  {
    var tx := s.eventTxs[id];
    if fails && Holding(tx.phase) then Enter(s, id, RolledBack).(eventLock := None)
    else
      match tx.phase
      case Waiting =>
        if !History.Deliverable(tx.batch) then Enter(s, id, Answered(BadRequest))
        else if s.eventLock.Some? then s
        else s.(eventLock := Some(id), eventTxs := s.eventTxs[id := EventTx(tx.batch, Locked, s.tables)])
      case Locked => ReadPrior(s, id)
      case AtEvent(i, own, inserted, replayed) =>
        if i < |tx.batch.events| then
          Enter(s, id, Matched(i, own, inserted, replayed, Matches(Overlay(s.tables, own).events, tx.batch.events[i])))
        else
          Enter(s, id, Ready(own.(batches := own.batches + {BatchRowOf(tx.batch)}),
                             Accepted(inserted, replayed, false, tx.batch.batchHash)))
      case Matched(i, own, inserted, replayed, matches) =>
        if i >= |tx.batch.events| then s
        else if matches == {} then
          Enter(s, id, HeadPending(i, own.(events := own.events + {RowOf(tx.batch.events[i])}), inserted, replayed))
        else if IsReplay(matches, tx.batch.events[i]) then Enter(s, id, AtEvent(i + 1, own, inserted, replayed + 1))
        else Refuse(s, id, Conflict)
      case HeadPending(i, own, inserted, replayed) =>
        if i >= |tx.batch.events| then s
        else Enter(s, id, AtEvent(i + 1, WriteHead(s.tables, own, tx.batch.events[i]), inserted + 1, replayed))
      case Ready(own, reply) =>
        Enter(s, id, Answered(reply)).(tables := Overlay(s.tables, own), eventLock := None,
                                       log := s.log + [EventOutcome(tx.batch, reply)])
      case Answered(_) => s
      case RolledBack => s
  }

  ghost function ReadPrior(s: State, id: Id): State
    requires id in s.eventTxs
  {
    var b := s.eventTxs[id].batch;
    var prior := PriorBatches(s.tables.batches, b);
    if prior == {} then Enter(s, id, AtEvent(0, NOTHING, 0, 0))
    else if IsBatchReplay(prior, b) then
      var row :| row in prior;
      Enter(s, id, Ready(NOTHING, Accepted(0, row.eventCount, true, b.batchHash)))
    else Refuse(s, id, Conflict)
  }

  /** The upsert writes at most the head of the event's own entity. */
  function WriteHead(t: Tables, own: EventWrites, e: Event): EventWrites {
    var key := (e.projectId, e.entityId);
    var after := UpsertHead(Overlay(t, own).heads, e);
    own.(heads := own.heads[key := after[key]])
  }

  // ---------- steps of a supplement transaction ----------

  function SEnter(s: State, id: Id, phase: SupplementPhase): State
    requires id in s.supplementTxs
  {
    s.(supplementTxs := s.supplementTxs[id := s.supplementTxs[id].(phase := phase)])
  }

  function SRefuse(s: State, id: Id, reply: Reply): State
    requires id in s.supplementTxs
  {
    SEnter(s, id, SAnswered(reply)).(supplementLock := None,
                                     log := s.log + [SupplementOutcome(s.supplementTxs[id].batch, reply)])
  }

  predicate SHolding(phase: SupplementPhase) { !phase.SWaiting? && !phase.SAnswered? && !phase.SRolledBack? }

  ghost function SupplementStep(s: State, id: Id, fails: bool): State
    requires id in s.supplementTxs
  {
    var tx := s.supplementTxs[id];
    if fails && SHolding(tx.phase) then SEnter(s, id, SRolledBack).(supplementLock := None)
    else
      match tx.phase
      case SWaiting =>
        if !ParsedSupplements(tx.batch) then SEnter(s, id, SAnswered(BadRequest))
        else if s.supplementLock.Some? then s
        else SEnter(s, id, SLocked).(supplementLock := Some(id))
      case SLocked => SReadPrior(s, id)
      case AtSupplement(i, own, inserted, replayed) =>
        if i < |tx.batch.supplements| then FindEvent(s, id, i, own, inserted, replayed)
        else
          SEnter(s, id, SReady(own.(batches := own.batches + {SupplementBatchRowOf(tx.batch)}),
                               Accepted(inserted, replayed, false, tx.batch.batchHash)))
      case EventFound(i, own, inserted, replayed, event) =>
        if i >= |tx.batch.supplements| then s
        else
          SEnter(s, id, SMatched(i, own, inserted, replayed, event,
                                 SupplementMatches(LinkOverlay(s.linked, own).supplements, tx.batch.supplements[i])))
      case SMatched(i, own, inserted, replayed, event, matches) =>
        if i >= |tx.batch.supplements| then s
        else if matches == {} then
          var row := SupplementRowOf(tx.batch.supplements[i], event.eventId);
          SEnter(s, id, AtSupplement(i + 1, own.(supplements := own.supplements + {row}), inserted + 1, replayed))
        else if IsSupplementReplay(matches, tx.batch.supplements[i], event.eventId) then
          SEnter(s, id, AtSupplement(i + 1, own, inserted, replayed + 1))
        else SRefuse(s, id, Conflict)
      case SReady(own, reply) =>
        SEnter(s, id, SAnswered(reply)).(linked := LinkOverlay(s.linked, own), supplementLock := None,
                                         log := s.log + [SupplementOutcome(tx.batch, reply)])
      case SAnswered(_) => s
      case SRolledBack => s
  }

  ghost function SReadPrior(s: State, id: Id): State
    requires id in s.supplementTxs
  {
    var b := s.supplementTxs[id].batch;
    var prior := PriorSupplementBatches(s.linked.batches, b);
    if prior == {} then SEnter(s, id, AtSupplement(0, NO_LINKS, 0, 0))
    else if IsSupplementBatchReplay(prior, b) then
      var row :| row in prior;
      SEnter(s, id, SReady(NO_LINKS, Accepted(0, row.eventCount, true, b.batchHash)))
    else SRefuse(s, id, Conflict)
  }

  /** Reads the event table, which other transactions may have changed since the previous statement. */
  ghost function FindEvent(s: State, id: Id, i: nat, own: SupplementWrites, inserted: nat, replayed: nat): State
    requires id in s.supplementTxs && i < |s.supplementTxs[id].batch.supplements|
  {
    var supplement := s.supplementTxs[id].batch.supplements[i];
    var found := Linked(s.tables.events, supplement);
    if found == {} then SRefuse(s, id, BadRequest)
    else
      var event :| event in found;
      if !LinkAgrees(event, supplement) then SRefuse(s, id, Conflict)
      else SEnter(s, id, EventFound(i, own, inserted, replayed, event))
  }

  // ---------- the serial reference ----------

  /** One outcome after the other, each as one indivisible ingest. */
  ghost function Serial(log: seq<Outcome>): (Tables, SupplementTables) {
    if log == [] then (EMPTY, NO_SUPPLEMENTS)
    else
      var (tables, linked) := Serial(log[..|log| - 1]);
      match log[|log| - 1]
      case EventOutcome(b, _) => (Ingested(tables, b).0, linked)
      case SupplementOutcome(b, _) => (tables, Linkage(tables.events, linked, b).0)
  }

  ghost function SerialReply(before: (Tables, SupplementTables), outcome: Outcome): Reply {
    match outcome
    case EventOutcome(b, _) => Ingested(before.0, b).1
    case SupplementOutcome(b, _) => Linkage(before.0.events, before.1, b).1
  }

  /** Every answer is the one the serial execution gives at that point. */
  ghost predicate Faithful(log: seq<Outcome>) {
    forall i | 0 <= i < |log| :: log[i].reply == SerialReply(Serial(log[..i]), log[i])
  }

  // ---------- invariant ----------

  ghost predicate EventProgress(t: Tables, b: Batch, i: nat, view: Tables, inserted: nat, replayed: nat) {
    i <= |b.events| &&
    Process(Going(t.events, t.heads, 0, 0), b.events[..i]) == Going(view.events, view.heads, inserted, replayed)
  }

  ghost predicate EventInvariant(t: Tables, b: Batch, phase: EventPhase) {
    History.Deliverable(b) &&
    match phase
    case Waiting => true
    case Locked => true
    case AtEvent(i, own, inserted, replayed) =>
      && PriorBatches(t.batches, b) == {} && own.batches == {}
      && EventProgress(t, b, i, Overlay(t, own), inserted, replayed)
    case Matched(i, own, inserted, replayed, matches) =>
      && PriorBatches(t.batches, b) == {} && own.batches == {} && i < |b.events|
      && EventProgress(t, b, i, Overlay(t, own), inserted, replayed)
      && matches == Matches(Overlay(t, own).events, b.events[i])
    case HeadPending(i, own, inserted, replayed) =>
      && PriorBatches(t.batches, b) == {} && own.batches == {} && i < |b.events|
      && var view := Overlay(t, own);
         EventProgress(t, b, i + 1, view.(heads := UpsertHead(view.heads, b.events[i])), inserted + 1, replayed)
    case Ready(own, reply) => Ingested(t, b) == (Overlay(t, own), reply)
    case Answered(_) => true
    case RolledBack => true
  }

  ghost predicate LinkingProgress(events: set<EventRow>, t: SupplementTables, b: SupplementBatch, i: nat,
                                  view: SupplementTables, inserted: nat, replayed: nat) {
    i <= |b.supplements| &&
    LinkAll(events, SupplementStore.Linking(t.supplements, 0, 0), b.supplements[..i])
    == SupplementStore.Linking(view.supplements, inserted, replayed)
  }

  ghost predicate SupplementInvariant(events: set<EventRow>, t: SupplementTables, b: SupplementBatch,
                                      phase: SupplementPhase) {
    ParsedSupplements(b) &&
    match phase
    case SWaiting => true
    case SLocked => true
    case AtSupplement(i, own, inserted, replayed) =>
      && PriorSupplementBatches(t.batches, b) == {} && own.batches == {}
      && LinkingProgress(events, t, b, i, LinkOverlay(t, own), inserted, replayed)
    case EventFound(i, own, inserted, replayed, event) =>
      && PriorSupplementBatches(t.batches, b) == {} && own.batches == {} && i < |b.supplements|
      && LinkingProgress(events, t, b, i, LinkOverlay(t, own), inserted, replayed)
      && event in Linked(events, b.supplements[i]) && LinkAgrees(event, b.supplements[i])
    case SMatched(i, own, inserted, replayed, event, matches) =>
      && PriorSupplementBatches(t.batches, b) == {} && own.batches == {} && i < |b.supplements|
      && LinkingProgress(events, t, b, i, LinkOverlay(t, own), inserted, replayed)
      && event in Linked(events, b.supplements[i]) && LinkAgrees(event, b.supplements[i])
      && matches == SupplementMatches(LinkOverlay(t, own).supplements, b.supplements[i])
    case SReady(own, reply) => Linkage(events, t, b) == (LinkOverlay(t, own), reply) && reply.Accepted?
    case SAnswered(_) => true
    case SRolledBack => true
  }

  ghost predicate EventSide(s: State) {
    forall id | id in s.eventTxs && Holding(s.eventTxs[id].phase) ::
      && s.eventLock == Some(id)
      && s.eventTxs[id].seen == s.tables
      && EventInvariant(s.tables, s.eventTxs[id].batch, s.eventTxs[id].phase)
  }

  ghost predicate SupplementSide(s: State) {
    forall id | id in s.supplementTxs && SHolding(s.supplementTxs[id].phase) ::
      && s.supplementLock == Some(id)
      && SupplementInvariant(s.tables.events, s.linked, s.supplementTxs[id].batch, s.supplementTxs[id].phase)
  }

  ghost predicate Serializable(s: State) {
    (s.tables, s.linked) == Serial(s.log) && Faithful(s.log)
  }

  ghost predicate Invariant(s: State) { Serializable(s) && EventSide(s) && SupplementSide(s) }

  // ---------- the log ----------

  lemma {:induction false} SerialSnoc(log: seq<Outcome>, outcome: Outcome)
    ensures var (tables, linked) := Serial(log);
            Serial(log + [outcome]) ==
            (match outcome
             case EventOutcome(b, _) => (Ingested(tables, b).0, linked)
             case SupplementOutcome(b, _) => (tables, Linkage(tables.events, linked, b).0))
    ensures Faithful(log) && outcome.reply == SerialReply(Serial(log), outcome) ==> Faithful(log + [outcome])
  {
    hide Ingested, Linkage;
    var longer := log + [outcome];
    assert longer[..|longer| - 1] == log;
    if Faithful(log) && outcome.reply == SerialReply(Serial(log), outcome) {
      forall i | 0 <= i < |longer|
        ensures longer[i].reply == SerialReply(Serial(longer[..i]), longer[i])
      {
        assert longer[..i] == log[..i];
        if i < |log| {
          assert longer[i] == log[i];
        } else {
          assert log[..i] == log;
        }
      }
    }
  }

  ghost function EventBatches(log: seq<Outcome>): seq<Batch> {
    if log == [] then []
    else
      var before := EventBatches(log[..|log| - 1]);
      match log[|log| - 1]
      case EventOutcome(b, _) => before + [b]
      case SupplementOutcome(_, _) => before
  }

  /** The event tables of the serial execution are those of the event batches alone. */
  lemma {:induction false} SerialEvents(log: seq<Outcome>)
    ensures Serial(log).0 == History.Run(EventBatches(log))
  {
    hide Ingested, Linkage;
    if log != [] {
      var before := EventBatches(log[..|log| - 1]);
      SerialEvents(log[..|log| - 1]);
      if log[|log| - 1].EventOutcome? {
        var b := log[|log| - 1].events;
        assert (before + [b])[..|before + [b]| - 1] == before;
      }
    }
  }

  lemma {:induction false} LinksAreUnique(deliveries: seq<Batch>)
    ensures UniqueLinks(History.Run(deliveries).events)
  {
    hide Ingested, Records.ContentHash, History.Run, History.NoClash, History.HeadsAgree, History.EventsOf, UniqueLinks;
    History.Reachable(deliveries);
    RowsAreLinkedOnce(History.EventsOf(History.AcceptedIn(deliveries)));
  }

  lemma {:induction false} RowsAreLinkedOnce(events: set<Event>)
    requires History.NoClash(events)
    ensures UniqueLinks(History.Rows(events))
  {
    hide Records.ContentHash;
    var rows := History.Rows(events);
    forall r, q | r in rows && q in rows && r.projectId == q.projectId && r.entityId == q.entityId
      && r.revision == q.revision
      ensures r == q
    {
      var e :| e in events && r == RowOf(e);
      var f :| f in events && q == RowOf(f);
      assert !History.Clashing(e, f);
    }
  }

  // ---------- steps of one event transaction, on its own view ----------

  lemma {:induction false} EventsRead(t: Tables, b: Batch)
    requires History.Deliverable(b) && PriorBatches(t.batches, b) == {}
    ensures EventInvariant(t, b, AtEvent(0, NOTHING, 0, 0))
  {
    hide Ingested, Parsed, PriorBatches;
    assert b.events[..0] == [];
    assert Overlay(t, NOTHING) == t;
  }

  lemma {:induction false} EventReplayed(t: Tables, b: Batch, i: nat, own: EventWrites, inserted: nat, replayed: nat,
                                         matches: set<EventRow>)
    requires EventInvariant(t, b, Matched(i, own, inserted, replayed, matches))
    requires matches != {} && IsReplay(matches, b.events[i])
    ensures EventInvariant(t, b, AtEvent(i + 1, own, inserted, replayed + 1))
  {
    hide Ingested, Matches, IsReplay, Parsed, PriorBatches;
    ProcessNext(Going(t.events, t.heads, 0, 0), b.events, i);
  }

  lemma {:induction false} EventInserted(t: Tables, b: Batch, i: nat, own: EventWrites, inserted: nat, replayed: nat)
    requires EventInvariant(t, b, Matched(i, own, inserted, replayed, {}))
    ensures EventInvariant(t, b, HeadPending(i, own.(events := own.events + {RowOf(b.events[i])}), inserted, replayed))
  {
    hide Ingested, Matches, IsReplay, RowOf, UpsertHead, Parsed, PriorBatches;
    ProcessNext(Going(t.events, t.heads, 0, 0), b.events, i);
    var written := own.(events := own.events + {RowOf(b.events[i])});
    assert Overlay(t, written).events == Overlay(t, own).events + {RowOf(b.events[i])};
  }

  lemma {:induction false} HeadWritten(t: Tables, b: Batch, i: nat, own: EventWrites, inserted: nat, replayed: nat)
    requires EventInvariant(t, b, HeadPending(i, own, inserted, replayed))
    ensures EventInvariant(t, b, AtEvent(i + 1, WriteHead(t, own, b.events[i]), inserted + 1, replayed))
  {
    hide Ingested, Process, Parsed, PriorBatches;
    var e := b.events[i];
    assert Overlay(t, WriteHead(t, own, e)).heads == UpsertHead(Overlay(t, own).heads, e);
  }

  lemma {:induction false} EventRefused(t: Tables, b: Batch, i: nat, own: EventWrites, inserted: nat,
                                        replayed: nat, matches: set<EventRow>)
    requires EventInvariant(t, b, Matched(i, own, inserted, replayed, matches))
    requires matches != {} && !IsReplay(matches, b.events[i])
    ensures Ingested(t, b) == (t, Conflict)
  {
    hide Matches, IsReplay, Parsed, PriorBatches;
    var start := Going(t.events, t.heads, 0, 0);
    ProcessNext(start, b.events, i);
    ClashStays(start, b.events, i + 1);
  }

  lemma {:induction false} EventsFinished(t: Tables, b: Batch, own: EventWrites, inserted: nat, replayed: nat)
    requires EventInvariant(t, b, AtEvent(|b.events|, own, inserted, replayed))
    ensures EventInvariant(t, b, Ready(own.(batches := own.batches + {BatchRowOf(b)}),
                                       Accepted(inserted, replayed, false, b.batchHash)))
  {
    hide Process, Parsed, PriorBatches, BatchRowOf;
    assert b.events[..|b.events|] == b.events;
    var written := own.(batches := own.batches + {BatchRowOf(b)});
    assert Overlay(t, written) == Overlay(t, own).(batches := t.batches + {BatchRowOf(b)});
  }

  lemma {:induction false} PriorRead(t: Tables, b: Batch)
    requires History.Deliverable(b) && PriorBatches(t.batches, b) != {}
    ensures !IsBatchReplay(PriorBatches(t.batches, b), b) ==> Ingested(t, b) == (t, Conflict)
    ensures IsBatchReplay(PriorBatches(t.batches, b), b) ==>
              forall row | row in PriorBatches(t.batches, b) ::
                EventInvariant(t, b, Ready(NOTHING, Accepted(0, row.eventCount, true, b.batchHash)))
  {
    hide Process, Parsed, PriorBatches;
    assert Overlay(t, NOTHING) == t;
    forall row | row in PriorBatches(t.batches, b) && IsBatchReplay(PriorBatches(t.batches, b), b)
      ensures Ingested(t, b) == (t, Accepted(0, row.eventCount, true, b.batchHash))
    {
      OnlyMember(PriorBatches(t.batches, b), row);
    }
  }

  // ---------- event steps keep the invariant ----------

  lemma {:induction false} EnterKeeps(s: State, id: Id, phase: EventPhase)
    requires Invariant(s) && id in s.eventTxs && Holding(s.eventTxs[id].phase)
    requires EventInvariant(s.tables, s.eventTxs[id].batch, phase)
    ensures Invariant(Enter(s, id, phase))
  {
    hide Serial, Faithful, EventInvariant, SupplementInvariant;
  }

  lemma {:induction false} LeaveKeeps(s: State, id: Id, phase: EventPhase)
    requires Invariant(s) && id in s.eventTxs && !Holding(phase)
    ensures Holding(s.eventTxs[id].phase) ==> Invariant(Enter(s, id, phase).(eventLock := None))
    ensures !Holding(s.eventTxs[id].phase) ==> Invariant(Enter(s, id, phase))
  {
    hide Serial, Faithful, EventInvariant, SupplementInvariant;
  }

  lemma {:induction false} LockKeeps(s: State, id: Id)
    requires Invariant(s) && id in s.eventTxs && s.eventLock.None? && History.Deliverable(s.eventTxs[id].batch)
    ensures Invariant(s.(eventLock := Some(id),
                         eventTxs := s.eventTxs[id := EventTx(s.eventTxs[id].batch, Locked, s.tables)]))
  {
    hide Serial, Faithful, SupplementInvariant, Ingested, Process, Parsed;
  }

  lemma {:induction false} LogKeeps(s: State, outcome: Outcome)
    requires Invariant(s)
    requires outcome.EventOutcome? ==> Ingested(s.tables, outcome.events) == (s.tables, outcome.reply)
    requires outcome.SupplementOutcome? ==>
             Linkage(s.tables.events, s.linked, outcome.supplements) == (s.linked, outcome.reply)
    ensures Invariant(s.(log := s.log + [outcome]))
  {
    hide Ingested, Linkage, Faithful, Serial, EventInvariant, SupplementInvariant;
    SerialSnoc(s.log, outcome);
  }

  lemma {:induction false} RefuseKeeps(s: State, id: Id, reply: Reply)
    requires Invariant(s) && id in s.eventTxs && Holding(s.eventTxs[id].phase)
    requires Ingested(s.tables, s.eventTxs[id].batch) == (s.tables, reply)
    ensures Invariant(Refuse(s, id, reply))
  {
    hide Ingested, Invariant;
    LeaveKeeps(s, id, Answered(reply));
    LogKeeps(Enter(s, id, Answered(reply)).(eventLock := None), EventOutcome(s.eventTxs[id].batch, reply));
  }

  lemma {:induction false} SupplementStable(events: set<EventRow>, more: set<EventRow>, t: SupplementTables,
                                            b: SupplementBatch, phase: SupplementPhase)
    requires events <= more && UniqueLinks(more)
    requires SHolding(phase) && SupplementInvariant(events, t, b, phase)
    ensures SupplementInvariant(more, t, b, phase)
  {
    hide LinkAll, Linkage, UniqueLinks, ParsedSupplements;
    match phase
    case SLocked =>
    case AtSupplement(i, _, _, _) =>
      LinkAllStable(events, more, SupplementStore.Linking(t.supplements, 0, 0), b.supplements[..i]);
    case EventFound(i, _, _, _, _) =>
      LinkAllStable(events, more, SupplementStore.Linking(t.supplements, 0, 0), b.supplements[..i]);
    case SMatched(i, _, _, _, _, _) =>
      LinkAllStable(events, more, SupplementStore.Linking(t.supplements, 0, 0), b.supplements[..i]);
    case SReady(_, _) =>
      LinkageStable(events, more, t, b);
  }

  lemma {:induction false} CommitKeeps(s: State, id: Id, own: EventWrites, reply: Reply)
    requires Invariant(s) && id in s.eventTxs && s.eventTxs[id].phase == Ready(own, reply)
    ensures Invariant(EventStep(s, id, false))
  {
    hide Ingested, Linkage, Serial, Faithful, EventInvariant, SupplementInvariant, ReadPrior, WriteHead, RowOf, Matches;
    var b := s.eventTxs[id].batch;
    var next := EventStep(s, id, false);
    var outcome := EventOutcome(b, reply);
    assert Ingested(s.tables, b) == (Overlay(s.tables, own), reply) by { ReadyMeans(s.tables, b, own, reply); }
    SerialSnoc(s.log, outcome);
    SerialEvents(next.log);
    LinksAreUnique(EventBatches(next.log));
    forall k | k in next.supplementTxs && SHolding(next.supplementTxs[k].phase)
      ensures SupplementInvariant(next.tables.events, next.linked, next.supplementTxs[k].batch,
                                  next.supplementTxs[k].phase)
    {
      SupplementStable(s.tables.events, next.tables.events, s.linked, s.supplementTxs[k].batch,
                       s.supplementTxs[k].phase);
    }
  }

  lemma {:induction false} ReadyMeans(t: Tables, b: Batch, own: EventWrites, reply: Reply)
    requires EventInvariant(t, b, Ready(own, reply))
    ensures Ingested(t, b) == (Overlay(t, own), reply)
  {
    hide Ingested;
  }

  lemma {:induction false} ReadPriorKeeps(s: State, id: Id)
    requires Invariant(s) && id in s.eventTxs && s.eventTxs[id].phase == Locked
    requires EventInvariant(s.tables, s.eventTxs[id].batch, Locked)
    ensures Invariant(ReadPrior(s, id))
  {
    hide Invariant, Ingested, IsBatchReplay, PriorBatches, Parsed, Process;
    var b := s.eventTxs[id].batch;
    var prior := PriorBatches(s.tables.batches, b);
    if prior == {} {
      EventsRead(s.tables, b);
      EnterKeeps(s, id, AtEvent(0, NOTHING, 0, 0));
    } else {
      PriorRead(s.tables, b);
      if IsBatchReplay(prior, b) {
        forall row | row in prior
          ensures Invariant(Enter(s, id, Ready(NOTHING, Accepted(0, row.eventCount, true, b.batchHash))))
        {
          EnterKeeps(s, id, Ready(NOTHING, Accepted(0, row.eventCount, true, b.batchHash)));
        }
      } else {
        RefuseKeeps(s, id, Conflict);
      }
    }
  }

  lemma {:induction false} AtEventKeeps(s: State, id: Id, i: nat, own: EventWrites, inserted: nat, replayed: nat)
    requires Invariant(s) && id in s.eventTxs && s.eventTxs[id].phase == AtEvent(i, own, inserted, replayed)
    requires EventInvariant(s.tables, s.eventTxs[id].batch, AtEvent(i, own, inserted, replayed))
    ensures Invariant(EventStep(s, id, false))
  {
    hide Invariant, Ingested, PriorBatches, Parsed, Process, Matches, BatchRowOf;
    var b := s.eventTxs[id].batch;
    if i < |b.events| {
      EnterKeeps(s, id, Matched(i, own, inserted, replayed, Matches(Overlay(s.tables, own).events, b.events[i])));
    } else {
      EventsFinished(s.tables, b, own, inserted, replayed);
      EnterKeeps(s, id, Ready(own.(batches := own.batches + {BatchRowOf(b)}),
                              Accepted(inserted, replayed, false, b.batchHash)));
    }
  }

  lemma {:induction false} MatchedKeeps(s: State, id: Id, i: nat, own: EventWrites, inserted: nat,
                                        replayed: nat, matches: set<EventRow>)
    requires Invariant(s) && id in s.eventTxs && s.eventTxs[id].phase == Matched(i, own, inserted, replayed, matches)
    requires EventInvariant(s.tables, s.eventTxs[id].batch, Matched(i, own, inserted, replayed, matches))
    ensures Invariant(EventStep(s, id, false))
  {
    hide Invariant, Ingested, PriorBatches, Parsed, Process, Matches, IsReplay, RowOf;
    var b := s.eventTxs[id].batch;
    if matches == {} {
      EventInserted(s.tables, b, i, own, inserted, replayed);
      EnterKeeps(s, id, HeadPending(i, own.(events := own.events + {RowOf(b.events[i])}), inserted, replayed));
    } else if IsReplay(matches, b.events[i]) {
      EventReplayed(s.tables, b, i, own, inserted, replayed, matches);
      EnterKeeps(s, id, AtEvent(i + 1, own, inserted, replayed + 1));
    } else {
      EventRefused(s.tables, b, i, own, inserted, replayed, matches);
      RefuseKeeps(s, id, Conflict);
    }
  }

  lemma {:induction false} EventStepKeeps(s: State, id: Id, fails: bool)
    requires Invariant(s) && id in s.eventTxs
    ensures Invariant(EventStep(s, id, fails))
  {
    hide Invariant, EventInvariant, Ingested, WriteHead, RowOf, BatchRowOf, Matches, IsReplay, IsBatchReplay;
    hide PriorBatches, Overlay, History.Deliverable;
    var tx := s.eventTxs[id];
    if Holding(tx.phase) {
      HolderInvariant(s, id);
    }
    if fails && Holding(tx.phase) {
      LeaveKeeps(s, id, RolledBack);
    } else {
      match tx.phase
      case Waiting =>
        if !History.Deliverable(tx.batch) {
          LeaveKeeps(s, id, Answered(BadRequest));
        } else if s.eventLock.None? {
          LockKeeps(s, id);
        }
      case Locked => ReadPriorKeeps(s, id);
      case AtEvent(i, own, inserted, replayed) => AtEventKeeps(s, id, i, own, inserted, replayed);
      case Matched(i, own, inserted, replayed, matches) => MatchedKeeps(s, id, i, own, inserted, replayed, matches);
      case HeadPending(i, own, inserted, replayed) =>
        if i < |tx.batch.events| {
          HeadWritten(s.tables, tx.batch, i, own, inserted, replayed);
          EnterKeeps(s, id, AtEvent(i + 1, WriteHead(s.tables, own, tx.batch.events[i]), inserted + 1, replayed));
        }
      case Ready(own, reply) => CommitKeeps(s, id, own, reply);
      case Answered(_) =>
      case RolledBack =>
    }
  }

  lemma {:induction false} HolderInvariant(s: State, id: Id)
    requires Invariant(s) && id in s.eventTxs && Holding(s.eventTxs[id].phase)
    ensures EventInvariant(s.tables, s.eventTxs[id].batch, s.eventTxs[id].phase)
  {
    hide EventInvariant, Serial, Faithful, SupplementInvariant;
  }

  // ---------- steps of one supplement transaction, on its own view ----------

  lemma {:induction false} SupplementsRead(events: set<EventRow>, t: SupplementTables, b: SupplementBatch)
    requires ParsedSupplements(b) && PriorSupplementBatches(t.batches, b) == {}
    ensures SupplementInvariant(events, t, b, AtSupplement(0, NO_LINKS, 0, 0))
  {
    hide Linkage, ParsedSupplements, PriorSupplementBatches;
    assert b.supplements[..0] == [];
    assert LinkOverlay(t, NO_LINKS) == t;
  }

  lemma {:induction false} SPriorRead(events: set<EventRow>, t: SupplementTables, b: SupplementBatch)
    requires ParsedSupplements(b) && PriorSupplementBatches(t.batches, b) != {}
    ensures !IsSupplementBatchReplay(PriorSupplementBatches(t.batches, b), b) ==> Linkage(events, t, b) == (t, Conflict)
    ensures IsSupplementBatchReplay(PriorSupplementBatches(t.batches, b), b) ==>
              forall row | row in PriorSupplementBatches(t.batches, b) ::
                SupplementInvariant(events, t, b, SReady(NO_LINKS, Accepted(0, row.eventCount, true, b.batchHash)))
  {
    hide LinkAll, ParsedSupplements, PriorSupplementBatches;
    assert LinkOverlay(t, NO_LINKS) == t;
    forall row | row in PriorSupplementBatches(t.batches, b)
      && IsSupplementBatchReplay(PriorSupplementBatches(t.batches, b), b)
      ensures Linkage(events, t, b) == (t, Accepted(0, row.eventCount, true, b.batchHash))
    {
      OnlyMember(PriorSupplementBatches(t.batches, b), row);
    }
  }

  /** What the serial execution does with supplement `i`, given what it did with those before. */
  lemma {:induction false} SupplementNext(events: set<EventRow>, t: SupplementTables, b: SupplementBatch,
                                          i: nat, p: LinkProgress)
    requires i < |b.supplements|
    requires LinkAll(events, SupplementStore.Linking(t.supplements, 0, 0), b.supplements[..i]) == p
    ensures LinkAll(events, SupplementStore.Linking(t.supplements, 0, 0), b.supplements[..i + 1]) ==
            LinkStep(events, p, b.supplements[i])
    ensures !LinkStep(events, p, b.supplements[i]).Linking? ==>
              LinkAll(events, SupplementStore.Linking(t.supplements, 0, 0), b.supplements) ==
                LinkStep(events, p, b.supplements[i])
  {
    hide LinkStep, LinkAll;
    var start := SupplementStore.Linking(t.supplements, 0, 0);
    LinkNext(events, start, b.supplements, i);
    if !LinkStep(events, p, b.supplements[i]).Linking? {
      RefusalStays(events, start, b.supplements, i + 1);
    }
  }

  lemma {:induction false} SupplementStopped(events: set<EventRow>, t: SupplementTables, b: SupplementBatch,
                                             p: LinkProgress)
    requires ParsedSupplements(b) && PriorSupplementBatches(t.batches, b) == {}
    requires LinkAll(events, SupplementStore.Linking(t.supplements, 0, 0), b.supplements) == p && !p.Linking?
    ensures Linkage(events, t, b) == (t, if p.MissingEvent? then BadRequest else Conflict)
  {
    hide LinkAll, ParsedSupplements;
  }

  lemma {:induction false} EventLookedUp(events: set<EventRow>, t: SupplementTables, b: SupplementBatch, i: nat,
                                         own: SupplementWrites, inserted: nat, replayed: nat)
    requires SupplementInvariant(events, t, b, AtSupplement(i, own, inserted, replayed)) && i < |b.supplements|
    requires UniqueLinks(events)
    ensures Linked(events, b.supplements[i]) == {} ==> Linkage(events, t, b) == (t, BadRequest)
    ensures forall event | event in Linked(events, b.supplements[i]) ::
              if LinkAgrees(event, b.supplements[i])
              then SupplementInvariant(events, t, b, EventFound(i, own, inserted, replayed, event))
              else Linkage(events, t, b) == (t, Conflict)
  {
    hide LinkAll, Linkage, ParsedSupplements, PriorSupplementBatches, Linked, LinkAgrees, StoreSupplement, UniqueLinks;
    var p := SupplementStore.Linking(LinkOverlay(t, own).supplements, inserted, replayed);
    var s := b.supplements[i];
    SupplementNext(events, t, b, i, p);
    if Linked(events, s) == {} {
      SupplementStopped(events, t, b, MissingEvent);
    }
    forall event | event in Linked(events, s) && !LinkAgrees(event, s)
      ensures Linkage(events, t, b) == (t, Conflict)
    {
      LinkedIsUnique(events, s, event);
      SupplementStopped(events, t, b, Divergent);
    }
  }

  lemma {:induction false} SupplementDecided(events: set<EventRow>, t: SupplementTables, b: SupplementBatch,
                                             i: nat, own: SupplementWrites, inserted: nat, replayed: nat,
                                             event: EventRow, matches: set<SupplementRow>)
    requires SupplementInvariant(events, t, b, SMatched(i, own, inserted, replayed, event, matches))
    requires UniqueLinks(events)
    ensures var s := b.supplements[i];
            if matches == {} then
              SupplementInvariant(events, t, b,
                AtSupplement(i + 1, own.(supplements := own.supplements + {SupplementRowOf(s, event.eventId)}),
                             inserted + 1, replayed))
            else if IsSupplementReplay(matches, s, event.eventId) then
              SupplementInvariant(events, t, b, AtSupplement(i + 1, own, inserted, replayed + 1))
            else Linkage(events, t, b) == (t, Conflict)
  {
    hide LinkAll, Linkage, ParsedSupplements, PriorSupplementBatches, Linked, LinkAgrees, UniqueLinks;
    hide SupplementRowOf, SupplementMatches, IsSupplementReplay;
    var s := b.supplements[i];
    var p := SupplementStore.Linking(LinkOverlay(t, own).supplements, inserted, replayed);
    SupplementNext(events, t, b, i, p);
    LinkedIsUnique(events, s, event);
    assert LinkStep(events, p, s) == StoreSupplement(p, s, event.eventId);
    if matches == {} {
      var written := own.(supplements := own.supplements + {SupplementRowOf(s, event.eventId)});
      assert LinkOverlay(t, written).supplements ==
        LinkOverlay(t, own).supplements + {SupplementRowOf(s, event.eventId)};
    } else if !IsSupplementReplay(matches, s, event.eventId) {
      SupplementStopped(events, t, b, Divergent);
    }
  }

  lemma {:induction false} SupplementsFinished(events: set<EventRow>, t: SupplementTables, b: SupplementBatch,
                                               own: SupplementWrites, inserted: nat, replayed: nat)
    requires SupplementInvariant(events, t, b, AtSupplement(|b.supplements|, own, inserted, replayed))
    ensures SupplementInvariant(events, t, b, SReady(own.(batches := own.batches + {SupplementBatchRowOf(b)}),
                                                     Accepted(inserted, replayed, false, b.batchHash)))
  {
    hide LinkAll, ParsedSupplements, PriorSupplementBatches, SupplementBatchRowOf;
    assert b.supplements[..|b.supplements|] == b.supplements;
    var written := own.(batches := own.batches + {SupplementBatchRowOf(b)});
    assert LinkOverlay(t, written) == LinkOverlay(t, own).(batches := t.batches + {SupplementBatchRowOf(b)});
  }

  // ---------- supplement steps keep the invariant ----------

  lemma {:induction false} SEnterKeeps(s: State, id: Id, phase: SupplementPhase)
    requires Invariant(s) && id in s.supplementTxs && SHolding(s.supplementTxs[id].phase)
    requires SupplementInvariant(s.tables.events, s.linked, s.supplementTxs[id].batch, phase)
    ensures Invariant(SEnter(s, id, phase))
  {
    hide Serial, Faithful, EventInvariant, SupplementInvariant;
  }

  lemma {:induction false} SLeaveKeeps(s: State, id: Id, phase: SupplementPhase)
    requires Invariant(s) && id in s.supplementTxs && !SHolding(phase)
    ensures SHolding(s.supplementTxs[id].phase) ==> Invariant(SEnter(s, id, phase).(supplementLock := None))
    ensures !SHolding(s.supplementTxs[id].phase) ==> Invariant(SEnter(s, id, phase))
  {
    hide Serial, Faithful, EventInvariant, SupplementInvariant;
  }

  lemma {:induction false} SLockKeeps(s: State, id: Id)
    requires Invariant(s) && id in s.supplementTxs && s.supplementLock.None?
             && ParsedSupplements(s.supplementTxs[id].batch)
    ensures Invariant(SEnter(s, id, SLocked).(supplementLock := Some(id)))
  {
    hide Serial, Faithful, EventInvariant, Linkage, LinkAll, ParsedSupplements;
  }

  lemma {:induction false} SRefuseKeeps(s: State, id: Id, reply: Reply)
    requires Invariant(s) && id in s.supplementTxs && SHolding(s.supplementTxs[id].phase)
    requires Linkage(s.tables.events, s.linked, s.supplementTxs[id].batch) == (s.linked, reply)
    ensures Invariant(SRefuse(s, id, reply))
  {
    hide Linkage, Invariant;
    SLeaveKeeps(s, id, SAnswered(reply));
    LogKeeps(SEnter(s, id, SAnswered(reply)).(supplementLock := None),
             SupplementOutcome(s.supplementTxs[id].batch, reply));
  }

  lemma {:induction false} SCommitKeeps(s: State, id: Id, own: SupplementWrites, reply: Reply)
    requires Invariant(s) && id in s.supplementTxs && s.supplementTxs[id].phase == SReady(own, reply)
    ensures Invariant(SupplementStep(s, id, false))
  {
    hide Ingested, Linkage, Serial, Faithful, EventInvariant, SupplementInvariant, SReadPrior, FindEvent,
      SupplementRowOf;
    var b := s.supplementTxs[id].batch;
    assert Linkage(s.tables.events, s.linked, b) == (LinkOverlay(s.linked, own), reply) by {
      SReadyMeans(s.tables.events, s.linked, b, own, reply);
    }
    SerialSnoc(s.log, SupplementOutcome(b, reply));
  }

  lemma {:induction false} SReadyMeans(events: set<EventRow>, t: SupplementTables, b: SupplementBatch,
                                       own: SupplementWrites, reply: Reply)
    requires SupplementInvariant(events, t, b, SReady(own, reply))
    ensures Linkage(events, t, b) == (LinkOverlay(t, own), reply)
  {
    hide Linkage;
  }

  lemma {:induction false} SReadPriorKeeps(s: State, id: Id)
    requires Invariant(s) && id in s.supplementTxs && s.supplementTxs[id].phase == SLocked
    requires SupplementInvariant(s.tables.events, s.linked, s.supplementTxs[id].batch, SLocked)
    ensures Invariant(SReadPrior(s, id))
  {
    hide Invariant, Linkage, LinkAll, IsSupplementBatchReplay, PriorSupplementBatches, ParsedSupplements;
    var b := s.supplementTxs[id].batch;
    var prior := PriorSupplementBatches(s.linked.batches, b);
    if prior == {} {
      SupplementsRead(s.tables.events, s.linked, b);
      SEnterKeeps(s, id, AtSupplement(0, NO_LINKS, 0, 0));
    } else {
      SPriorRead(s.tables.events, s.linked, b);
      if IsSupplementBatchReplay(prior, b) {
        forall row | row in prior
          ensures Invariant(SEnter(s, id, SReady(NO_LINKS, Accepted(0, row.eventCount, true, b.batchHash))))
        {
          SEnterKeeps(s, id, SReady(NO_LINKS, Accepted(0, row.eventCount, true, b.batchHash)));
        }
      } else {
        SRefuseKeeps(s, id, Conflict);
      }
    }
  }

  lemma {:induction false} CommittedLinksUnique(s: State)
    requires Invariant(s)
    ensures UniqueLinks(s.tables.events)
  {
    hide Serial, UniqueLinks, EventSide, SupplementSide, Faithful;
    SerialEvents(s.log);
    LinksAreUnique(EventBatches(s.log));
  }

  lemma {:induction false} FindEventKeeps(s: State, id: Id, i: nat, own: SupplementWrites, inserted: nat, replayed: nat)
    requires Invariant(s) && id in s.supplementTxs
             && s.supplementTxs[id].phase == AtSupplement(i, own, inserted, replayed)
    requires i < |s.supplementTxs[id].batch.supplements|
    requires SupplementInvariant(s.tables.events, s.linked, s.supplementTxs[id].batch,
                                 AtSupplement(i, own, inserted, replayed))
    ensures Invariant(FindEvent(s, id, i, own, inserted, replayed))
  {
    hide Invariant, SupplementInvariant, Linked, LinkAgrees, Linkage, UniqueLinks;
    var b := s.supplementTxs[id].batch;
    CommittedLinksUnique(s);
    EventLookedUp(s.tables.events, s.linked, b, i, own, inserted, replayed);
    if Linked(s.tables.events, b.supplements[i]) == {} {
      SRefuseKeeps(s, id, BadRequest);
    } else {
      forall event | event in Linked(s.tables.events, b.supplements[i])
        ensures if LinkAgrees(event, b.supplements[i])
                then Invariant(SEnter(s, id, EventFound(i, own, inserted, replayed, event)))
                else Invariant(SRefuse(s, id, Conflict))
      {
        if LinkAgrees(event, b.supplements[i]) {
          SEnterKeeps(s, id, EventFound(i, own, inserted, replayed, event));
        } else {
          SRefuseKeeps(s, id, Conflict);
        }
      }
    }
  }

  lemma {:induction false} AtSupplementKeeps(s: State, id: Id, i: nat, own: SupplementWrites, inserted: nat,
                                             replayed: nat)
    requires Invariant(s) && id in s.supplementTxs
             && s.supplementTxs[id].phase == AtSupplement(i, own, inserted, replayed)
    requires SupplementInvariant(s.tables.events, s.linked, s.supplementTxs[id].batch,
                                 AtSupplement(i, own, inserted, replayed))
    ensures Invariant(SupplementStep(s, id, false))
  {
    hide Invariant, Linkage, LinkAll, PriorSupplementBatches, ParsedSupplements, SupplementBatchRowOf, FindEvent;
    var b := s.supplementTxs[id].batch;
    if i < |b.supplements| {
      FindEventKeeps(s, id, i, own, inserted, replayed);
    } else {
      SupplementsFinished(s.tables.events, s.linked, b, own, inserted, replayed);
      SEnterKeeps(s, id, SReady(own.(batches := own.batches + {SupplementBatchRowOf(b)}),
                                Accepted(inserted, replayed, false, b.batchHash)));
    }
  }

  lemma {:induction false} EventFoundKeeps(s: State, id: Id, i: nat, own: SupplementWrites, inserted: nat,
                                           replayed: nat, event: EventRow)
    requires Invariant(s) && id in s.supplementTxs
    requires s.supplementTxs[id].phase == EventFound(i, own, inserted, replayed, event)
    requires SupplementInvariant(s.tables.events, s.linked, s.supplementTxs[id].batch,
                                 EventFound(i, own, inserted, replayed, event))
    ensures Invariant(SupplementStep(s, id, false))
  {
    hide Invariant, Linkage, LinkAll, PriorSupplementBatches, ParsedSupplements, SupplementMatches, Linked, LinkAgrees;
    var b := s.supplementTxs[id].batch;
    SEnterKeeps(s, id, SMatched(i, own, inserted, replayed, event,
                                SupplementMatches(LinkOverlay(s.linked, own).supplements, b.supplements[i])));
  }

  lemma {:induction false} SMatchedKeeps(s: State, id: Id, i: nat, own: SupplementWrites, inserted: nat,
                                         replayed: nat, event: EventRow, matches: set<SupplementRow>)
    requires Invariant(s) && id in s.supplementTxs
    requires s.supplementTxs[id].phase == SMatched(i, own, inserted, replayed, event, matches)
    requires SupplementInvariant(s.tables.events, s.linked, s.supplementTxs[id].batch,
                                 SMatched(i, own, inserted, replayed, event, matches))
    ensures Invariant(SupplementStep(s, id, false))
  {
    hide Invariant, Linkage, LinkAll, PriorSupplementBatches, ParsedSupplements, SupplementMatches, Linked, LinkAgrees;
    hide IsSupplementReplay, SupplementRowOf, UniqueLinks;
    var sup := s.supplementTxs[id].batch.supplements[i];
    CommittedLinksUnique(s);
    SupplementDecided(s.tables.events, s.linked, s.supplementTxs[id].batch, i, own, inserted, replayed, event, matches);
    if matches == {} {
      var row := SupplementRowOf(sup, event.eventId);
      SEnterKeeps(s, id, AtSupplement(i + 1, own.(supplements := own.supplements + {row}), inserted + 1, replayed));
    } else if IsSupplementReplay(matches, sup, event.eventId) {
      SEnterKeeps(s, id, AtSupplement(i + 1, own, inserted, replayed + 1));
    } else {
      SRefuseKeeps(s, id, Conflict);
    }
  }

  lemma {:induction false} SHolderInvariant(s: State, id: Id)
    requires Invariant(s) && id in s.supplementTxs && SHolding(s.supplementTxs[id].phase)
    ensures SupplementInvariant(s.tables.events, s.linked, s.supplementTxs[id].batch, s.supplementTxs[id].phase)
  {
    hide EventInvariant, Serial, Faithful, SupplementInvariant;
  }

  lemma {:induction false} SupplementStepKeeps(s: State, id: Id, fails: bool)
    requires Invariant(s) && id in s.supplementTxs
    ensures Invariant(SupplementStep(s, id, fails))
  {
    hide Invariant, SupplementInvariant, ParsedSupplements, SReadPrior, FindEvent, SupplementRowOf,
      SupplementBatchRowOf;
    hide SupplementMatches, IsSupplementReplay, LinkOverlay;
    var tx := s.supplementTxs[id];
    if SHolding(tx.phase) {
      SHolderInvariant(s, id);
    }
    if fails && SHolding(tx.phase) {
      SLeaveKeeps(s, id, SRolledBack);
    } else {
      match tx.phase
      case SWaiting =>
        if !ParsedSupplements(tx.batch) {
          SLeaveKeeps(s, id, SAnswered(BadRequest));
        } else if s.supplementLock.None? {
          SLockKeeps(s, id);
        }
      case SLocked => SReadPriorKeeps(s, id);
      case AtSupplement(i, own, inserted, replayed) => AtSupplementKeeps(s, id, i, own, inserted, replayed);
      case EventFound(i, own, inserted, replayed, event) => EventFoundKeeps(s, id, i, own, inserted, replayed, event);
      case SMatched(i, own, inserted, replayed, event, matches) =>
        SMatchedKeeps(s, id, i, own, inserted, replayed, event, matches);
      case SReady(own, reply) => SCommitKeeps(s, id, own, reply);
      case SAnswered(_) =>
      case SRolledBack =>
    }
  }

  // ---------- every interleaving ----------

  /** The scheduler lets one transaction run one statement; `fails` lets the database roll it back instead. */
  datatype Move = EventMove(id: Id, fails: bool) | SupplementMove(id: Id, fails: bool)

  ghost function After(s: State, moves: seq<Move>): State {
    if moves == [] then s
    else
      var before := After(s, moves[..|moves| - 1]);
      match moves[|moves| - 1]
      case EventMove(id, fails) => if id in before.eventTxs then EventStep(before, id, fails) else before
      case SupplementMove(id, fails) => if id in before.supplementTxs then SupplementStep(before, id, fails) else before
  }

  lemma {:induction false} InvariantHolds(s: State, moves: seq<Move>)
    requires Initial(s)
    ensures Invariant(After(s, moves))
  {
    hide EventStep, SupplementStep, EventInvariant, SupplementInvariant, Faithful;
    if moves == [] {
      assert Faithful([]) by { EmptyLog(); }
    } else {
      var n := |moves| - 1;
      InvariantHolds(s, moves[..n]);
      var before := After(s, moves[..n]);
      match moves[n]
      case EventMove(id, fails) => if id in before.eventTxs { EventStepKeeps(before, id, fails); }
      case SupplementMove(id, fails) => if id in before.supplementTxs { SupplementStepKeeps(before, id, fails); }
    }
  }

  lemma {:induction false} EmptyLog()
    ensures Faithful([])
  {
  }

  /**
    * Interleaved ingests refine serial ingest: the committed tables are those of running the
    * decided transactions one by one in the order of their decisions, and every transaction was
    * answered what it is answered there.
    */
  lemma {:induction false} InterleavingIsSerial(s: State, moves: seq<Move>)
    requires Initial(s)
    ensures var end := After(s, moves); (end.tables, end.linked) == Serial(end.log) && Faithful(end.log)
  {
    hide After, Serial, Faithful, EventSide, SupplementSide;
    InvariantHolds(s, moves);
  }

  /** While an event transaction runs, the committed event tables stay as it found them when it got the lock. */
  lemma {:induction false} NoInterference(s: State, moves: seq<Move>, id: Id)
    requires Initial(s)
    requires id in After(s, moves).eventTxs && Holding(After(s, moves).eventTxs[id].phase)
    ensures After(s, moves).eventTxs[id].seen == After(s, moves).tables
    ensures forall other | other in After(s, moves).eventTxs && Holding(After(s, moves).eventTxs[other].phase) ::
            other == id
  {
    hide After, Serial, Faithful, EventInvariant, SupplementSide;
    InvariantHolds(s, moves);
    var end := After(s, moves);
    assert end.eventLock == Some(id);
  }

  lemma {:induction false} SerialLinks(log: seq<Outcome>)
    ensures LinksValid(Serial(log).0.events, Serial(log).1.supplements)
  {
    hide Ingested, Linkage, LinksValid;
    if log == [] {
      NoSupplementsValid();
    } else {
      var n := |log| - 1;
      var (tables, linked) := Serial(log[..n]);
      SerialLinks(log[..n]);
      match log[n]
      case EventOutcome(b, _) =>
        SerialEvents(log[..n]);
        History.IngestConserves(EventBatches(log[..n]), b);
        EventsGrow(tables.events, Ingested(tables, b).0.events, linked.supplements);
      case SupplementOutcome(b, _) => LinkageMeaning(tables.events, linked, b);
    }
  }

  lemma {:induction false} NoSupplementsValid()
    ensures LinksValid({}, {})
  {
  }

  /**
    * Although the endpoints hold different locks, in every reachable state each stored supplement
    * points to a stored event with the same project, entity, revision, decision hash and instant,
    * and no two supplements share a link.
    */
  lemma {:induction false} LinksStayValid(s: State, moves: seq<Move>)
    requires Initial(s)
    ensures LinksValid(After(s, moves).tables.events, After(s, moves).linked.supplements)
  {
    hide After, Serial, Faithful, EventSide, SupplementSide, LinksValid;
    InvariantHolds(s, moves);
    SerialLinks(After(s, moves).log);
  }
}
