/** What the scheduler observed against what the availability rollup stores. */
module ObservedAvailability {
  import opened AbortedDowntime
  import opened AbortedTicks
  import opened Availability
  import opened ContainerTrack
  import opened MetricsScheduler
  import Rollup = AvailabilityRollup

  /** The registry gives every container of the table one identifier of its own. */
  ghost predicate Registered(events: seq<EventRecord>, ids: map<string, nat>) {
    && (forall i | 0 <= i < |events| :: events[i].name in ids)
    && (forall a, b | a in ids && b in ids && ids[a] == ids[b] :: a == b)
  }

  /** The scheduler's rows as the rollup reads them. */
  ghost function Stored(events: seq<EventRecord>, ids: map<string, nat>): seq<Rollup.EventRow>
    requires Registered(events, ids)
  {
    seq(|events|, i requires 0 <= i < |events| => Rollup.EventRow(ids[events[i].name], events[i].ts, events[i].toState))
  }

  lemma {:induction false} AsStatesSnoc(log: seq<EventRecord>, e: EventRecord)
    ensures AsStates(log + [e]) == AsStates(log) + [StateEvent(e.ts, e.toState)]
  {
  }

  /** Selecting a container's rows by identifier gives the rows written under its name. */
  lemma {:induction false} StoredLog(events: seq<EventRecord>, ids: map<string, nat>, name: string)
    requires Registered(events, ids) && name in ids
    ensures Rollup.LogOf(Stored(events, ids), ids[name]) == AsStates(EventsOf(name, events))
  {
    if events != [] {
      var n := |events| - 1;
      StoredLog(events[..n], ids, name);
      assert Stored(events, ids)[..n] == Stored(events[..n], ids);
      var before := EventsOf(name, events[..n]);
      AsStatesSnoc(before, events[n]);
      assert before + [] == before && AsStates(before) + [] == AsStates(before);
    }
  }

  /** The states of the rows older than the presence, whose own rows are the newest ones. */
  ghost function Older(events: seq<EventRecord>, run: Run, name: string): seq<StateEvent> {
    var rows := EventsOf(name, events);
    if |RunLog(run)| <= |rows| then AsStates(OlderThan(rows, run)) else []
  }

  /** A container's table is its older rows followed by those of its presence, in the order of the clock. */
  lemma {:induction false} TableOfRun(m: Memory, events: seq<EventRecord>, runs: map<string, Run>, clock: int,
                                      name: string)
    requires Tells(m, events, runs) && Dated(events, runs, clock)
    ensures var rows, run := EventsOf(name, events), Presence(runs, name);
            && |RunLog(run)| <= |rows| && RunInOrder(run, clock) && RowsBefore(rows, run)
            && AsStates(rows) == Older(events, run, name) + AsStates(RunLog(run))
            && Sorted(AsStates(rows))
  {
    hide TrackIn, RunTrack, RunLog, Legal, EventsOf, RunInOrder;
    var rows, run := EventsOf(name, events), Presence(runs, name);
    assert TellsOne(m, events, runs, name);
    assert DatedOne(rows, run, clock);
    EventsOfInOrder(name, events, clock);
    assert rows == OlderThan(rows, run) + RunLog(run);
  }

  /** For a presence without aborts, that is the table whose sweep is compared with the observations. */
  lemma {:induction false} TableOfPresence(m: Memory, events: seq<EventRecord>, runs: map<string, Run>, clock: int,
                                           name: string, h: History)
    requires Tells(m, events, runs) && Dated(events, runs, clock) && Presence(runs, name) == AllThrough(h) && h != []
    ensures var older := Older(events, AllThrough(h), name);
            && AsStates(EventsOf(name, events)) == Table(older, h)
            && ClockRuns(h) && OlderRows(older, h)
  {
    hide TrackIn, RunLog, LogAfter, EventsOf, Tells, Dated, ClockRuns, RunInOrder, OlderRows, AllThrough, RowsBefore;
    var rows, run := EventsOf(name, events), AllThrough(h);
    TableOfRun(m, events, runs, clock, name);
    CompletedRun(h);
    ObservationsInOrder(h, clock);
    RowsBeforeAreOlder(rows, h);
  }

  lemma {:induction false} ObservationsInOrder(h: History, clock: int)
    requires RunInOrder(AllThrough(h), clock)
    ensures ClockRuns(h)
  {
    assert forall i | 0 <= i < |h| :: AllThrough(h)[i].c == h[i];
  }

  lemma {:induction false} RowsBeforeAreOlder(rows: seq<EventRecord>, h: History)
    requires h != [] && RowsBefore(rows, AllThrough(h)) && Sorted(AsStates(rows))
    ensures OlderRows(AsStates(OlderThan(rows, AllThrough(h))), h)
  {
    hide RunLog;
    var older := OlderThan(rows, AllThrough(h));
    assert AllThrough(h)[0].c == h[0];
    forall i, j | 0 <= i < j < |older|
      ensures older[i].ts <= older[j].ts
    {
      assert AsStates(rows)[i].ts <= AsStates(rows)[j].ts;
    }
  }

  /**
    * A stored row reports the observed downtime and incidents of a container whose presence saw no
    * abort, in every bucket after its older rows, when the last of these and the first observation
    * agree on running or not.
    */
  lemma {:induction false} StoredRowReportsObservations(m: Memory, events: seq<EventRecord>,
                                                        runs: map<string, Run>, clock: int,
                                                        ids: map<string, nat>, points: seq<Rollup.PointRow>,
                                                        name: string, h: History, row: Rollup.Row, from: int,
                                                        seconds: nat)
    requires Tells(m, events, runs) && Dated(events, runs, clock) && Presence(runs, name) == AllThrough(h) && h != []
    requires Registered(events, ids) && name in ids && seconds > 0
    requires StatesAgree(Older(events, AllThrough(h), name), h) && StartsAfter(Older(events, AllThrough(h), name), from)
    requires Rollup.Describes(row, Stored(events, ids), points, ids[name], from, seconds)
    ensures var known, until := FinalState(RUNNING, Older(events, AllThrough(h), name)), from + 1000 * seconds;
            && row.downtimeSec == RoundSeconds(Downtime(known, ObservedStates(h), from, until))
            && row.incidents == IncidentsIn(known, ObservedStates(h), from, until)
  {
    hide Tells, Dated, Registered, Stored, EventsOf, AsStates, Table, RunLog, ClockRuns, ObservedStates, StatesAgree;
    hide OlderRows, StartsAfter, BucketDown, BucketIncidents, Downtime, IncidentsIn, RoundSeconds, Older;
    var older, until := Older(events, AllThrough(h), name), from + 1000 * seconds;
    TableOfPresence(m, events, runs, clock, name, h);
    StoredLog(events, ids, name);
    TableIsSorted(older, h);
    BucketMeasures(Table(older, h), from, until);
    BucketCountsIncidents(RUNNING, Table(older, h), from, until);
    BucketIncidentsIs(Table(older, h), from, until);
    SweepOfLogIsObserved(older, h, from, until);
    IncidentsOfLogAreObserved(older, h, from, until);
  }

  lemma {:induction false} BucketIncidentsIs(log: seq<StateEvent>, from: int, until: int)
    ensures BucketIncidents(log, from, until) ==
            SweptIncidents(InitialState(RUNNING, log, from), During(log, from, until))
  {
  }

  /**
    * The same with aborts anywhere in the presence: a stored row reports what the attempts that got
    * through observed, as long as no failed one wrote a row that disagrees with what stayed remembered.
    */
  lemma {:induction false} StoredRowReportsRun(m: Memory, events: seq<EventRecord>, runs: map<string, Run>, clock: int,
                                               ids: map<string, nat>, points: seq<Rollup.PointRow>, name: string,
                                               row: Rollup.Row, from: int, seconds: nat)
    requires Tells(m, events, runs) && Dated(events, runs, clock)
    requires Registered(events, ids) && name in ids && seconds > 0
    requires var run := Presence(runs, name);
             var older := Older(events, run, name);
             StartsAlike(FinalState(RUNNING, older), run) && Harmless(run) && StartsAfter(older, from)
    requires Rollup.Describes(row, Stored(events, ids), points, ids[name], from, seconds)
    ensures var run, until := Presence(runs, name), from + 1000 * seconds;
            var known := FinalState(RUNNING, Older(events, run, name));
            && row.downtimeSec == RoundSeconds(Downtime(known, ObservedStates(GotThrough(run)), from, until))
            && row.incidents == IncidentsIn(known, ObservedStates(GotThrough(run)), from, until)
  {
    hide Tells, Dated, Registered, Stored, EventsOf, RunLog, ObservedStates, StartsAlike, Harmless, RoundSeconds;
    hide BucketDown, BucketIncidents, Downtime, IncidentsIn, Older, RunTrack, GotThrough;
    var run, until := Presence(runs, name), from + 1000 * seconds;
    var older := Older(events, run, name);
    TableOfRun(m, events, runs, clock, name);
    StoredLog(events, ids, name);
    OlderOfRun(events, run, name);
    var table := RunTable(older, run);
    RunTableInOrder(older, run);
    BucketMeasures(table, from, until);
    BucketCountsIncidents(RUNNING, table, from, until);
    BucketIncidentsIs(table, from, until);
    HarmlessRunIsRecovered(older, run, from, until);
    HarmlessIncidentsRecovered(older, run, from, until);
  }

  lemma {:induction false} OlderOfRun(events: seq<EventRecord>, run: Run, name: string)
    requires RowsBefore(EventsOf(name, events), run) && StampsInOrder(run)
    requires Sorted(AsStates(EventsOf(name, events)))
    ensures OlderThanRun(Older(events, run, name), run)
  {
    hide RunLog, EventsOf;
    var rows := EventsOf(name, events);
    var older := OlderThan(rows, run);
    forall i, j | 0 <= i < j < |older|
      ensures older[i].ts <= older[j].ts
    {
      assert AsStates(rows)[i].ts <= AsStates(rows)[j].ts;
    }
  }

  /** After a lost recovery, rows say the container was down for the whole bucket, while every tick sees it running. */
  lemma {:induction false} StoredRowReportsLostRecovery(m: Memory, events: seq<EventRecord>,
                                                        runs: map<string, Run>, clock: int,
                                                        ids: map<string, nat>, points: seq<Rollup.PointRow>,
                                                        name: string, run: Run, more: Run, row: Rollup.Row,
                                                        from: int, seconds: nat)
    requires Tells(m, events, runs) && Dated(events, runs, clock) && Presence(runs, name) == run + more
    requires Remembers(run) && Lost(run) && Quiet(run, more) && RememberedState(run) == RUNNING
    requires Registered(events, ids) && name in ids && seconds > 0
    requires forall e | e in EventsOf(name, events) :: e.ts <= from
    requires Rollup.Describes(row, Stored(events, ids), points, ids[name], from, seconds)
    ensures row.downtimeSec == seconds && row.uptimePct == 0.0
    ensures forall j | 0 <= j < |more| :: more[j].c.state == RUNNING
  {
    hide Tells, Dated, Registered, Stored, EventsOf, RunLog, RunTrack, Lost, Quiet, BucketDown, Downtime, IncidentsIn;
    TableOfRun(m, events, runs, clock, name);
    StoredLog(events, ids, name);
    LostUntilNextChange(run, more);
    var rows := EventsOf(name, events);
    var older := Older(events, run + more, name);
    forall e | e in older + AsStates(RunLog(run))
      ensures e.ts <= from
    {
      var i :| 0 <= i < |rows| && AsStates(rows)[i] == e;
      assert rows[i] in rows;
    }
    LostRecoveryCountsAsDown(older, run, more, from, from + 1000 * seconds);
    BucketMeasures(AsStates(rows), from, from + 1000 * seconds);
  }
}
