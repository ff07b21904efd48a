/**
  * `containerMetricsTick` over its in-memory maps. A tick is skipped, runs to the end, or aborts at
  * an `await` that throws, keeping whatever it had assigned until then.
  */
module MetricsScheduler {
  import opened AbortedTicks
  import opened Buckets
  import opened ContainerTrack
  import opened JsValues

  datatype Outcome = Skipped | Completed | Aborted

  /** The maps of the scheduler that are keyed by container name. */
  datatype Memory = Memory(prevContainer: map<string, Previous>, counterState: map<string, int>,
                           restartWindow: map<string, seq<int>>, transitionWindow: map<string, seq<int>>,
                           unhealthyStreak: map<string, nat>)

  const EMPTY := Memory(map[], map[], map[], map[], map[])

  function TrackIn(m: Memory, name: string): Track {
    Track(if name in m.prevContainer then Some(m.prevContainer[name]) else None,
          if name in m.restartWindow then m.restartWindow[name] else [],
          if name in m.transitionWindow then m.transitionWindow[name] else [],
          if name in m.unhealthyStreak then m.unhealthyStreak[name] else 0)
  }

  /** Hygiene only visits the names of the counter map, so no other map may know more names. */
  ghost predicate Clean(m: Memory) {
    && m.prevContainer.Keys <= m.counterState.Keys
    && m.restartWindow.Keys <= m.counterState.Keys
    && m.transitionWindow.Keys <= m.counterState.Keys
    && m.unhealthyStreak.Keys <= m.counterState.Keys
  }

  function Without(m: Memory, name: string): Memory {
    Memory(m.prevContainer - {name}, m.counterState - {name}, m.restartWindow - {name}, m.transitionWindow - {name},
           m.unhealthyStreak - {name})
  }

  ghost function Names(attempts: seq<Attempt>): set<string> { set a | a in attempts :: a.c.name }

  // ---------- what the attempts of a tick do to one container ----------

  ghost function Seen(name: string, attempts: seq<Attempt>): Run {
    if attempts == [] then []
    else
      Seen(name, attempts[..|attempts| - 1]) +
      (if attempts[|attempts| - 1].c.name == name then [attempts[|attempts| - 1]] else [])
  }

  /** The track of the container tried last, before that attempt. */
  ghost function TrackBefore(m: Memory, attempts: seq<Attempt>): Track
    requires attempts != []
  {
    var n := |attempts| - 1;
    Advance(TrackIn(m, attempts[n].c.name), Seen(attempts[n].c.name, attempts[..n]))
  }

  ghost function EmittedIn(m: Memory, attempts: seq<Attempt>): seq<EventRecord> {
    if attempts == [] then []
    else
      EmittedIn(m, attempts[..|attempts| - 1]) + RowsOf(TrackBefore(m, attempts), attempts[|attempts| - 1])
  }

  ghost function AlertsIn(m: Memory, attempts: seq<Attempt>): seq<Alert> {
    if attempts == [] then []
    else
      AlertsIn(m, attempts[..|attempts| - 1]) + AlertsOf(TrackBefore(m, attempts), attempts[|attempts| - 1])
  }

  /** The calls awaited for one container: its registration, a row if it changed, and the alerts that are due. */
  ghost function CallsFor(t: Track, c: Observed): nat { 1 + CallsToCompare(t, c) + |UnhealthyAlerts(t, c)| }

  ghost function CallsToCompare(t: Track, c: Observed): nat {
    |Emitted(t, c)| + |FlappingAlerts(t, c)| + |OomAlerts(t, c)| + |CrashAlerts(t, c)|
  }

  ghost function CallsIn(m: Memory, attempts: seq<Attempt>): nat {
    if attempts == [] then 0
    else
      CallsIn(m, attempts[..|attempts| - 1]) + CallsFor(TrackBefore(m, attempts), attempts[|attempts| - 1].c)
  }

  /** All calls of a tick: the list, and if it is not empty the snapshot before and the samples after the loop. */
  ghost function CallsOfTick(m: Memory, containers: seq<Observed>): nat {
    if containers == [] then 1 else 2 + CallsIn(m, AllThrough(containers)) + 1
  }

  ghost predicate PossibleIn(m: Memory, attempts: seq<Attempt>) {
    attempts == [] ||
    (PossibleIn(m, attempts[..|attempts| - 1]) && Possible(TrackBefore(m, attempts), attempts[|attempts| - 1]))
  }

  /** A tick tries the listed containers in order; only the last attempt can have failed. */
  ghost predicate Tries(containers: seq<Observed>, attempts: seq<Attempt>) {
    && |attempts| <= |containers|
    && forall i | 0 <= i < |attempts| :: attempts[i].c == containers[i] && (i < |attempts| - 1 ==> attempts[i].Through?)
  }

  function EventsOf(name: string, events: seq<EventRecord>): seq<EventRecord> {
    if events == [] then []
    else
      EventsOf(name, events[..|events| - 1]) +
      (if events[|events| - 1].name == name then [events[|events| - 1]] else [])
  }

  lemma {:induction false} EventsOfConcat(name: string, a: seq<EventRecord>, b: seq<EventRecord>)
    ensures EventsOf(name, a + b) == EventsOf(name, a) + EventsOf(name, b)
  {
    if b == [] {
      assert a + b == a;
    } else {
      var n := |b| - 1;
      EventsOfConcat(name, a, b[..n]);
      assert (a + b)[..|a + b| - 1] == a + b[..n];
    }
  }

  lemma {:induction false} RowsName(name: string, t: Track, a: Attempt)
    ensures EventsOf(name, RowsOf(t, a)) == if a.c.name == name then RowsOf(t, a) else []
  {
    if RowsOf(t, a) != [] {
      assert RowsOf(t, a)[..0] == [];
    }
  }

  lemma {:induction false} SeenSnoc(name: string, attempts: seq<Attempt>, k: nat)
    requires k < |attempts|
    ensures Seen(name, attempts[..k + 1]) ==
            Seen(name, attempts[..k]) + (if attempts[k].c.name == name then [attempts[k]] else [])
  {
    assert attempts[..k + 1][..k] == attempts[..k];
  }

  /** Of a whole tick's rows, one container's are those its own attempts call for. */
  lemma {:induction false} EmittedForOne(name: string, m: Memory, attempts: seq<Attempt>)
    ensures EventsOf(name, EmittedIn(m, attempts)) == RowsFrom(TrackIn(m, name), Seen(name, attempts))
    ensures PossibleIn(m, attempts) ==> LegalFrom(TrackIn(m, name), Seen(name, attempts))
  {
    hide RowsOf, Take, TrackIn, Possible, LegalFrom;
    if attempts == [] {
      NothingTried(TrackIn(m, name));
    } else {
      var n := |attempts| - 1;
      var a := attempts[n];
      EmittedForOne(name, m, attempts[..n]);
      EventsOfConcat(name, EmittedIn(m, attempts[..n]), RowsOf(TrackBefore(m, attempts), a));
      RowsName(name, TrackBefore(m, attempts), a);
      var seen := Seen(name, attempts[..n]);
      if a.c.name == name {
        AdvanceSnoc(TrackIn(m, name), seen, a);
        if PossibleIn(m, attempts) {
          LegalFromSnoc(TrackIn(m, name), seen, a);
        }
      } else {
        assert seen + [] == seen;
      }
    }
  }

  lemma {:induction false} NothingTried(t: Track)
    ensures LegalFrom(t, []) && RowsFrom(t, []) == [] && Advance(t, []) == t
  {
  }

  lemma {:induction false} NotSeen(name: string, attempts: seq<Attempt>)
    ensures Seen(name, attempts) == [] <==> name !in Names(attempts)
  {
    if attempts != [] {
      var n := |attempts| - 1;
      assert attempts == attempts[..n] + [attempts[n]];
      assert attempts[n] in attempts && attempts[n].c.name in Names(attempts);
      assert forall a | a in attempts[..n] :: a in attempts;
      NotSeen(name, attempts[..n]);
    }
  }

  lemma {:induction false} UnknownName(m: Memory, name: string)
    requires Clean(m) && name !in m.counterState
    ensures TrackIn(m, name) == UNKNOWN
  {
  }

  // ---------- a whole presence ----------

  ghost function Presence(runs: map<string, Run>, name: string): Run {
    if name in runs then runs[name] else []
  }

  ghost predicate EndsWith(rows: seq<EventRecord>, log: seq<EventRecord>) {
    |log| <= |rows| && rows[|rows| - |log|..] == log
  }

  /** The attempts are possible ones, the memory is theirs, and the newest rows are theirs. */
  ghost predicate TellsRun(t: Track, rows: seq<EventRecord>, run: Run) {
    Legal(run) && t == RunTrack(run) && EndsWith(rows, RunLog(run))
  }

  ghost predicate TellsOne(m: Memory, events: seq<EventRecord>, runs: map<string, Run>, name: string) {
    TellsRun(TrackIn(m, name), EventsOf(name, events), Presence(runs, name))
  }

  /** Every container's memory and newest rows are those of the attempts of its presence so far. */
  ghost predicate Tells(m: Memory, events: seq<EventRecord>, runs: map<string, Run>) {
    forall name :: TellsOne(m, events, runs, name)
  }

  /** The presences after a completed tick: those seen continue or begin, all others end. */
  ghost function Continued(runs: map<string, Run>, attempts: seq<Attempt>): map<string, Run> {
    map name | name in Names(attempts) :: Presence(runs, name) + Seen(name, attempts)
  }

  /** The presences after an aborted tick: those tried continue or begin, and none ends. */
  ghost function Extended(runs: map<string, Run>, attempts: seq<Attempt>): map<string, Run> {
    map name | name in runs.Keys + Names(attempts) :: Presence(runs, name) + Seen(name, attempts)
  }

  /** What trying a list does: whoever got through is counted, and each track advances by its own attempts. */
  ghost predicate Observes(start: Memory, m: Memory, attempts: seq<Attempt>) {
    && start.counterState.Keys <= m.counterState.Keys <= start.counterState.Keys + Names(attempts)
    && (forall i | 0 <= i < |attempts| && attempts[i].Through? :: attempts[i].c.name in m.counterState)
    && forall name :: TrackIn(m, name) == Advance(TrackIn(start, name), Seen(name, attempts))
  }

  /** What a completed tick leaves for each name. */
  ghost predicate Ticked(before: Memory, after: Memory, attempts: seq<Attempt>) {
    && after.counterState.Keys == Names(attempts)
    && Clean(after)
    && forall name | name in Names(attempts) ::
         TrackIn(after, name) == Advance(TrackIn(before, name), Seen(name, attempts))
  }

  lemma {:induction false} TellsMore(before: Memory, events: seq<EventRecord>, run: Run, name: string,
                                     attempts: seq<Attempt>)
    requires TellsRun(TrackIn(before, name), EventsOf(name, events), run) && PossibleIn(before, attempts)
    ensures TellsRun(Advance(TrackIn(before, name), Seen(name, attempts)),
                     EventsOf(name, events + EmittedIn(before, attempts)),
                     run + Seen(name, attempts))
  {
    hide TrackIn, Legal, LegalFrom, EmittedIn, EventsOf, Advance, Seen, RowsFrom, PossibleIn, Names;
    var more := Seen(name, attempts);
    EmittedForOne(name, before, attempts);
    EventsOfConcat(name, events, EmittedIn(before, attempts));
    AdvanceConcat(UNKNOWN, run, more);
    LegalConcat(run, more);
    EndsWithConcat(EventsOf(name, events), RunLog(run), RowsFrom(RunTrack(run), more));
  }

  lemma {:induction false} CompletedTells(before: Memory, events: seq<EventRecord>, runs: map<string, Run>,
                                          after: Memory, attempts: seq<Attempt>)
    requires Tells(before, events, runs) && PossibleIn(before, attempts) && Ticked(before, after, attempts)
    ensures Tells(after, events + EmittedIn(before, attempts), Continued(runs, attempts))
  {
    hide TrackIn, Names, RunLog, RunTrack, Legal, EmittedIn, EventsOf, Advance, Seen, PossibleIn, EndsWith;
    forall name
      ensures TellsOne(after, events + EmittedIn(before, attempts), Continued(runs, attempts), name)
    {
      assert TellsOne(before, events, runs, name);
      if name in Names(attempts) {
        TellsMore(before, events, Presence(runs, name), name, attempts);
      } else {
        UnknownName(after, name);
        NothingYet(EventsOf(name, events + EmittedIn(before, attempts)));
      }
    }
  }

  /** An abort loses no presence, not even that of the container at which it happens. */
  lemma {:induction false} AbortedTells(before: Memory, events: seq<EventRecord>, runs: map<string, Run>, after: Memory,
                                        attempts: seq<Attempt>)
    requires Tells(before, events, runs) && PossibleIn(before, attempts) && Observes(before, after, attempts)
    ensures Tells(after, events + EmittedIn(before, attempts), Extended(runs, attempts))
  {
    hide TrackIn, Names, RunLog, RunTrack, Legal, EmittedIn, EventsOf, Advance, Seen, PossibleIn, EndsWith;
    forall name
      ensures TellsOne(after, events + EmittedIn(before, attempts), Extended(runs, attempts), name)
    {
      assert TellsOne(before, events, runs, name);
      TellsMore(before, events, Presence(runs, name), name, attempts);
      ExtendedPresence(runs, attempts, name);
    }
  }

  lemma {:induction false} ExtendedPresence(runs: map<string, Run>, attempts: seq<Attempt>, name: string)
    ensures Presence(Extended(runs, attempts), name) == Presence(runs, name) + Seen(name, attempts)
  {
    NotSeen(name, attempts);
  }

  lemma {:induction false} EndsWithConcat(rows: seq<EventRecord>, log: seq<EventRecord>, more: seq<EventRecord>)
    requires EndsWith(rows, log)
    ensures EndsWith(rows + more, log + more)
  {
    var longer := rows + more;
    assert longer[|longer| - |log + more|..] == rows[|rows| - |log|..] + more;
  }

  lemma {:induction false} NothingYet(rows: seq<EventRecord>)
    ensures TellsRun(UNKNOWN, rows, [])
  {
  }

  /** The observations of a container in a tick. */
  ghost function Observations(name: string, attempts: seq<Attempt>): History {
    if attempts == [] then []
    else
      Observations(name, attempts[..|attempts| - 1]) +
      (if attempts[|attempts| - 1].c.name == name then [attempts[|attempts| - 1].c] else [])
  }

  lemma {:induction false} SeenThrough(name: string, attempts: seq<Attempt>)
    requires forall a | a in attempts && a.c.name == name :: a.Through?
    ensures Seen(name, attempts) == AllThrough(Observations(name, attempts))
  {
    if attempts != [] {
      var n := |attempts| - 1;
      assert attempts[n] in attempts && forall a | a in attempts[..n] :: a in attempts;
      SeenThrough(name, attempts[..n]);
    }
  }

  /**
    * A container at which no tick aborted so far, and this one does not either, has a presence of
    * observations only, to which all results on completed runs apply: an abort elsewhere changes nothing.
    */
  lemma {:induction false} AbortElsewhere(runs: map<string, Run>, attempts: seq<Attempt>, name: string, h: History)
    requires Presence(runs, name) == AllThrough(h)
    requires forall a | a in attempts && a.c.name == name :: a.Through?
    ensures Presence(Extended(runs, attempts), name) == AllThrough(h + Observations(name, attempts))
    ensures name in Names(attempts) ==>
            Presence(Continued(runs, attempts), name) == AllThrough(h + Observations(name, attempts))
  {
    hide Seen, Names;
    ExtendedPresence(runs, attempts, name);
    SeenThrough(name, attempts);
    var more := Observations(name, attempts);
    assert AllThrough(h + more) == AllThrough(h) + AllThrough(more);
  }

  /** Such a container's memory and newest rows are those of its observations. */
  lemma {:induction false} TellsObservations(m: Memory, events: seq<EventRecord>, runs: map<string, Run>,
                                             name: string, h: History)
    requires Tells(m, events, runs) && Presence(runs, name) == AllThrough(h)
    ensures TrackIn(m, name) == TrackAfter(h) && EndsWith(EventsOf(name, events), LogAfter(h))
  {
    hide TrackIn, EventsOf, RunTrack, RunLog, Legal, TrackAfter, LogAfter;
    assert TellsOne(m, events, runs, name);
    CompletedRun(h);
  }

  /** The alerts a tick sends for an attempt are those its container's whole presence calls for. */
  lemma {:induction false} AlertsTell(m: Memory, events: seq<EventRecord>, runs: map<string, Run>,
                                      attempts: seq<Attempt>)
    requires Tells(m, events, runs) && attempts != []
    ensures var n := |attempts| - 1;
            var name := attempts[n].c.name;
            AlertsIn(m, attempts) ==
            AlertsIn(m, attempts[..n]) + AlertsOf(RunTrack(Presence(runs, name) + Seen(name, attempts[..n])),
                                                  attempts[n])
  {
    hide Take, AlertsOf, TrackIn, RunLog, EventsOf, EndsWith, Presence, Legal;
    var n := |attempts| - 1;
    var name := attempts[n].c.name;
    assert TellsOne(m, events, runs, name);
    AdvanceConcat(UNKNOWN, Presence(runs, name), Seen(name, attempts[..n]));
  }

  // ---------- dates ----------

  /** The clock advances between ticks, and does not run backwards within one. */
  ghost predicate Stamped(containers: seq<Observed>, clock: int) {
    && (forall i | 0 <= i < |containers| :: clock < containers[i].now <= containers[i].stamp)
    && (forall i, j | 0 <= i < j < |containers| ::
          containers[i].now <= containers[j].now && containers[i].stamp <= containers[j].stamp)
  }

  ghost function ClockAfter(clock: int, attempts: seq<Attempt>): int {
    if attempts == [] then clock else attempts[|attempts| - 1].c.stamp
  }

  ghost predicate RowsInOrder(rows: seq<EventRecord>, clock: int) {
    && (forall i, j | 0 <= i < j < |rows| :: rows[i].ts <= rows[j].ts)
    && (forall i | 0 <= i < |rows| :: rows[i].ts <= clock)
  }

  ghost predicate RunInOrder(run: Run, clock: int) {
    && (forall i, j | 0 <= i < j < |run| :: run[i].c.now <= run[j].c.now && run[i].c.stamp <= run[j].c.stamp)
    && (forall i | 0 <= i < |run| :: run[i].c.now <= clock && run[i].c.stamp <= clock)
  }

  /** The rows that precede those of the presence. */
  ghost function OlderThan(rows: seq<EventRecord>, run: Run): seq<EventRecord>
    requires |RunLog(run)| <= |rows|
  {
    rows[..|rows| - |RunLog(run)|]
  }

  ghost predicate RowsBefore(rows: seq<EventRecord>, run: Run) {
    |RunLog(run)| <= |rows| &&
    (run != [] ==> forall i | 0 <= i < |rows| - |RunLog(run)| :: OlderThan(rows, run)[i].ts < run[0].c.stamp)
  }

  ghost predicate DatedOne(rows: seq<EventRecord>, run: Run, clock: int) {
    RunInOrder(run, clock) && RowsBefore(rows, run)
  }

  /** Rows and presences are in the order of the clock, and rows older than a presence are dated before it. */
  ghost predicate Dated(events: seq<EventRecord>, runs: map<string, Run>, clock: int) {
    RowsInOrder(events, clock) && forall name :: DatedOne(EventsOf(name, events), Presence(runs, name), clock)
  }

  ghost predicate AttemptsInOrder(attempts: seq<Attempt>, clock: int) {
    && (forall i | 0 <= i < |attempts| :: clock < attempts[i].c.now <= attempts[i].c.stamp)
    && (forall i, j | 0 <= i < j < |attempts| ::
          attempts[i].c.now <= attempts[j].c.now && attempts[i].c.stamp <= attempts[j].c.stamp)
  }

  lemma {:induction false} TriedInOrder(containers: seq<Observed>, attempts: seq<Attempt>, clock: int)
    requires Tries(containers, attempts) && Stamped(containers, clock)
    ensures AttemptsInOrder(attempts, clock)
  {
  }

  lemma {:induction false} EmittedInOrder(m: Memory, attempts: seq<Attempt>, clock: int)
    requires AttemptsInOrder(attempts, clock)
    ensures RowsInOrder(EmittedIn(m, attempts), ClockAfter(clock, attempts))
    ensures forall e | e in EmittedIn(m, attempts) :: e.ts > clock
  {
    hide RowsOf, TrackBefore;
    if attempts != [] {
      var n := |attempts| - 1;
      EmittedInOrder(m, attempts[..n], clock);
      RowDate(TrackBefore(m, attempts), attempts[n]);
      var before, rows := EmittedIn(m, attempts[..n]), EmittedIn(m, attempts);
      forall i | 0 <= i < |before|
        ensures before[i].ts <= attempts[n].c.stamp
      {
        if n > 0 {
          assert before[i].ts <= ClockAfter(clock, attempts[..n]) == attempts[n - 1].c.stamp;
        }
      }
    }
  }

  lemma {:induction false} AppendInOrder(rows: seq<EventRecord>, more: seq<EventRecord>, clock: int, later: int)
    requires RowsInOrder(rows, clock) && RowsInOrder(more, later) && clock <= later
    requires forall e | e in more :: e.ts > clock
    ensures RowsInOrder(rows + more, later)
  {
    forall i | 0 <= i < |more|
      ensures more[i].ts > clock
    {
      assert more[i] in more;
    }
  }

  lemma {:induction false} SeenInOrder(name: string, attempts: seq<Attempt>, clock: int)
    requires AttemptsInOrder(attempts, clock)
    ensures AttemptsInOrder(Seen(name, attempts), clock)
            && RunInOrder(Seen(name, attempts), ClockAfter(clock, attempts))
  {
    if attempts != [] {
      var n := |attempts| - 1;
      SeenInOrder(name, attempts[..n], clock);
      var before := Seen(name, attempts[..n]);
      forall i | 0 <= i < |before|
        ensures before[i].c.now <= attempts[n].c.now && before[i].c.stamp <= attempts[n].c.stamp
      {
        SeenIsTried(name, attempts[..n], i);
      }
      AttemptAppended(before, attempts[n], clock);
    }
    var seen := Seen(name, attempts);
    forall i | 0 <= i < |seen|
      ensures seen[i].c.stamp <= ClockAfter(clock, attempts)
    {
      SeenIsTried(name, attempts, i);
      TriedBefore(attempts, seen[i], clock);
    }
  }

  lemma {:induction false} TriedBefore(attempts: seq<Attempt>, a: Attempt, clock: int)
    requires AttemptsInOrder(attempts, clock) && a in attempts
    ensures a.c.stamp <= ClockAfter(clock, attempts)
  {
    var k :| 0 <= k < |attempts| && attempts[k] == a;
    assert attempts[k].c.stamp <= attempts[|attempts| - 1].c.stamp;
  }

  lemma {:induction false} AttemptAppended(attempts: seq<Attempt>, a: Attempt, clock: int)
    requires AttemptsInOrder(attempts, clock) && clock < a.c.now <= a.c.stamp
    requires forall i | 0 <= i < |attempts| :: attempts[i].c.now <= a.c.now && attempts[i].c.stamp <= a.c.stamp
    ensures AttemptsInOrder(attempts + [a], clock)
  {
  }

  lemma {:induction false} SeenIsTried(name: string, attempts: seq<Attempt>, i: nat)
    requires i < |Seen(name, attempts)|
    ensures Seen(name, attempts)[i] in attempts && Seen(name, attempts)[i].c.name == name
  {
    var n := |attempts| - 1;
    if i < |Seen(name, attempts[..n])| {
      SeenIsTried(name, attempts[..n], i);
    }
  }

  lemma {:induction false} RunAppend(run: Run, more: Run, clock: int, later: int)
    requires RunInOrder(run, clock) && AttemptsInOrder(more, clock) && RunInOrder(more, later) && clock <= later
    ensures RunInOrder(run + more, later)
  {
  }

  lemma {:induction false} DatedMore(m: Memory, events: seq<EventRecord>, run: Run, name: string,
                                     attempts: seq<Attempt>, clock: int)
    requires TellsRun(TrackIn(m, name), EventsOf(name, events), run) && AttemptsInOrder(attempts, clock)
    requires DatedOne(EventsOf(name, events), run, clock) && RowsInOrder(EventsOf(name, events), clock)
    ensures DatedOne(EventsOf(name, events + EmittedIn(m, attempts)), run + Seen(name, attempts),
                     ClockAfter(clock, attempts))
  {
    hide TrackIn, Legal, EmittedIn, EventsOf, Advance, Seen, RowsFrom, RunInOrder, RowsInOrder, AttemptsInOrder;
    var more := Seen(name, attempts);
    EmittedForOne(name, m, attempts);
    EventsOfConcat(name, events, EmittedIn(m, attempts));
    AdvanceConcat(UNKNOWN, run, more);
    SeenInOrder(name, attempts, clock);
    ClockAdvances(attempts, clock);
    RunAppend(run, more, clock, ClockAfter(clock, attempts));
    RowsBeforeMore(EventsOf(name, events), run, RowsFrom(RunTrack(run), more), more, clock);
  }

  lemma {:induction false} ClockAdvances(attempts: seq<Attempt>, clock: int)
    requires AttemptsInOrder(attempts, clock)
    ensures clock <= ClockAfter(clock, attempts)
  {
  }

  lemma {:induction false} RowsBeforeMore(rows: seq<EventRecord>, run: Run, added: seq<EventRecord>, more: Run,
                                          clock: int)
    requires RowsBefore(rows, run) && RunLog(run + more) == RunLog(run) + added
    requires RowsInOrder(rows, clock) && AttemptsInOrder(more, clock)
    ensures RowsBefore(rows + added, run + more)
  {
    hide RunLog;
    NothingLogged();
    var n := |rows| - |RunLog(run)|;
    if run + more != [] {
      forall i | 0 <= i < n
        ensures OlderThan(rows + added, run + more)[i].ts < (run + more)[0].c.stamp
      {
        assert OlderThan(rows + added, run + more)[i] == rows[i];
        if run != [] {
          assert OlderThan(rows, run)[i] == rows[i];
        }
      }
    }
  }

  lemma {:induction false} NothingLogged()
    ensures RunLog([]) == []
  {
  }

  lemma {:induction false} EventsOfInOrder(name: string, events: seq<EventRecord>, clock: int)
    requires RowsInOrder(events, clock)
    ensures RowsInOrder(EventsOf(name, events), clock)
    ensures forall e | e in EventsOf(name, events) :: e in events
  {
    if events != [] {
      var n := |events| - 1;
      EventsOfInOrder(name, events[..n], clock);
      var before := EventsOf(name, events[..n]);
      forall i | 0 <= i < |before|
        ensures before[i].ts <= events[n].ts
      {
        assert before[i] in events[..n];
      }
      RowAppended(before, events[n], clock);
    }
  }

  lemma {:induction false} RowAppended(rows: seq<EventRecord>, e: EventRecord, clock: int)
    requires RowsInOrder(rows, clock) && e.ts <= clock && forall i | 0 <= i < |rows| :: rows[i].ts <= e.ts
    ensures RowsInOrder(rows + [e], clock)
  {
  }

  /** A tick keeps the dates, whatever becomes of it. */
  lemma {:induction false} TickKeepsDates(m: Memory, events: seq<EventRecord>, runs: map<string, Run>,
                                          attempts: seq<Attempt>, clock: int)
    requires Tells(m, events, runs) && Dated(events, runs, clock) && AttemptsInOrder(attempts, clock)
    ensures var after := events + EmittedIn(m, attempts);
            && Dated(after, Extended(runs, attempts), ClockAfter(clock, attempts))
            && Dated(after, Continued(runs, attempts), ClockAfter(clock, attempts))
  {
    hide TrackIn, Names, EmittedIn, EventsOf, Seen, RowsInOrder, DatedOne, TellsRun, AttemptsInOrder, ClockAfter,
      Extended;
    var after, later := events + EmittedIn(m, attempts), ClockAfter(clock, attempts);
    EmittedInOrder(m, attempts, clock);
    ClockAdvances(attempts, clock);
    AppendInOrder(events, EmittedIn(m, attempts), clock, later);
    forall name
      ensures DatedOne(EventsOf(name, after), Presence(Extended(runs, attempts), name), later)
      ensures DatedOne(EventsOf(name, after), Presence(Continued(runs, attempts), name), later)
    {
      assert TellsOne(m, events, runs, name);
      EventsOfInOrder(name, events, clock);
      DatedMore(m, events, Presence(runs, name), name, attempts, clock);
      ExtendedPresence(runs, attempts, name);
      NothingDated(EventsOf(name, after), later);
    }
  }

  lemma {:induction false} NothingDated(rows: seq<EventRecord>, clock: int)
    ensures DatedOne(rows, [], clock)
  {
    NothingLogged();
  }

  lemma {:induction false} EmptyTells()
    ensures Clean(EMPTY) && Tells(EMPTY, [], map[]) && Dated([], map[], 0)
  {
    hide TellsRun, DatedOne;
    NothingYet([]);
    NothingDated([], 0);
    assert forall name :: EventsOf(name, []) == [] && Presence(map[], name) == [];
  }

  class MetricsScheduler {
    var prevContainer: map<string, Previous>
    var counterState: map<string, int>
    var restartWindow: map<string, seq<int>>
    var transitionWindow: map<string, seq<int>>
    var unhealthyStreak: map<string, nat>
    var running: bool
    /** The rows of the event table and the alerts handed out, oldest first. */
    var events: seq<EventRecord>
    var alerts: seq<Alert>
    /** The attempts of every container's current presence, and the latest date so far. */
    ghost var runs: map<string, Run>
    ghost var clock: int

    ghost function Mem(): Memory
      reads this
    {
      Memory(prevContainer, counterState, restartWindow, transitionWindow, unhealthyStreak)
    }

    constructor ()
      ensures Mem() == EMPTY && !running && events == [] && alerts == []
      ensures Clean(Mem()) && Tells(Mem(), events, runs) && Dated(events, runs, clock)
    {
      prevContainer, counterState, restartWindow, transitionWindow, unhealthyStreak := map[], map[], map[], map[],
        map[];
      running, events, alerts, runs, clock := false, [], [], map[], 0;
      new;
      hide Tells, Dated, Clean;
      EmptyTells();
    }

    /** An alert goes out if its `await` is among the `awaits` that still succeed. */
    method Dispatch(alert: seq<Alert>, awaits: nat) returns (left: nat, ok: bool)
      requires |alert| <= 1
      modifies this`alerts
      ensures alerts == if ok then old(alerts) + alert else old(alerts)
      ensures ok || alert != []
      ensures ok <==> awaits >= |alert|
      ensures ok ==> left == awaits - |alert|
    {
      left, ok := awaits, true;
      if alert != [] {
        if awaits == 0 {
          return 0, false;
        }
        left := awaits - 1;
      }
      alerts := alerts + alert;
    }

    /** What an abort at `c` leaves, given what was there before it was tried. */
    ghost predicate LeftAt(before: Track, c: Observed, stop: Stop, events: seq<EventRecord>, alerts: seq<Alert>)
      reads this
    {
      && CanFail(before, c, stop)
      && TrackIn(Mem(), c.name) == Partly(before, c, stop)
      && this.events == events + PartRows(before, c, stop)
      && this.alerts == alerts + PartAlerts(before, c, stop)
    }

    /** Row and window of a transition. */
    method NoteTransition(c: Observed, awaits: nat) returns (left: nat, ok: bool, ghost stop: Stop)
      requires Clean(Mem()) && c.name in counterState && c.name in prevContainer
      modifies this`transitionWindow, this`events, this`alerts
      ensures Clean(Mem())
      ensures forall name | name != c.name :: TrackIn(Mem(), name) == old(TrackIn(Mem(), name))
      ensures var before := old(TrackIn(Mem(), c.name));
              if ok then
                && TrackIn(Mem(), c.name) == before.(transitions := NextTransitions(before, c))
                && events == old(events) + Emitted(before, c)
                && alerts == old(alerts) + FlappingAlerts(before, c)
              else if stop == BeforeRow then
                TrackIn(Mem(), c.name) == before && events == old(events) && alerts == old(alerts)
              else
                && stop == AtFlapping && FlappingAlerts(before, c) != []
                && TrackIn(Mem(), c.name) == before.(transitions := NextTransitions(before, c))
                && events == old(events) + Emitted(before, c) && alerts == old(alerts)
      ensures var before := old(TrackIn(Mem(), c.name));
              && (ok <==> awaits >= |Emitted(before, c)| + |FlappingAlerts(before, c)|)
              && (ok ==> left == awaits - |Emitted(before, c)| - |FlappingAlerts(before, c)|)
    {
      hide Clean, Changed, Recent, Record;
      left, ok, stop := awaits, true, BeforeRow;
      var prev := prevContainer[c.name];
      if !Changed(prev, c) {
        return;
      }
      if left == 0 {
        return 0, false, BeforeRow;
      }
      left := left - 1;
      events := events + [Record(prev, c)];
      var times := if c.name in transitionWindow then transitionWindow[c.name] else [];
      times := Recent(times, c.now, HOUR) + [c.now];
      transitionWindow := transitionWindow[c.name := times];
      KeepsClean(old(Mem()), Mem(), c.name);
      left, ok := Dispatch(if |times| >= 3 then [Flapping(c.name, |times|)] else [], left);
      stop := AtFlapping;
    }

    /** Window of restarts. */
    method NoteRestarts(c: Observed, awaits: nat) returns (left: nat, ok: bool)
      requires Clean(Mem()) && c.name in counterState && c.name in prevContainer
      modifies this`restartWindow, this`alerts
      ensures Clean(Mem())
      ensures forall name | name != c.name :: TrackIn(Mem(), name) == old(TrackIn(Mem(), name))
      ensures var before := old(TrackIn(Mem(), c.name));
              && TrackIn(Mem(), c.name) == before.(restarts := NextRestarts(before, c))
              && (if ok then alerts == old(alerts) + CrashAlerts(before, c)
                  else CrashAlerts(before, c) != [] && alerts == old(alerts))
              && (ok <==> awaits >= |CrashAlerts(before, c)|)
              && (ok ==> left == awaits - |CrashAlerts(before, c)|)
    {
      hide Clean, Recent;
      left, ok := awaits, true;
      var restarted := NewRestarts(prevContainer[c.name], c);
      if restarted == 0 {
        return;
      }
      var times := if c.name in restartWindow then restartWindow[c.name] else [];
      times := Recent(times, c.now, DAY) + Repeat(c.now, restarted);
      restartWindow := restartWindow[c.name := times];
      KeepsClean(old(Mem()), Mem(), c.name);
      left, ok := Dispatch(if |times| > 3 then [CrashLoop(c.name, |times|)] else [], left);
    }

    /** The part of the tick that needs a previous observation. */
    method Compare(c: Observed, awaits: nat) returns (left: nat, ok: bool, ghost stop: Stop)
      requires Clean(Mem()) && c.name in counterState && c.name in prevContainer
      modifies this`restartWindow, this`transitionWindow, this`events, this`alerts
      ensures Clean(Mem())
      ensures forall name | name != c.name :: TrackIn(Mem(), name) == old(TrackIn(Mem(), name))
      ensures var before := old(TrackIn(Mem(), c.name));
              if ok then
                && TrackIn(Mem(), c.name) ==
                   before.(restarts := NextRestarts(before, c), transitions := NextTransitions(before, c))
                && events == old(events) + Emitted(before, c)
                && alerts == old(alerts) + FlappingAlerts(before, c) + OomAlerts(before, c) + CrashAlerts(before, c)
              else LeftAt(before, c, stop, old(events), old(alerts))
      ensures var calls := CallsToCompare(old(TrackIn(Mem(), c.name)), c);
              (ok <==> awaits >= calls) && (ok ==> left == awaits - calls)
    {
      hide Clean, Emitted, NextTransitions, FlappingAlerts;
      var prev := prevContainer[c.name];
      left, ok, stop := NoteTransition(c, awaits);
      if !ok {
        return;
      }
      left, ok := Dispatch(if c.oomKilled && !prev.oomKilled then [OomKilled(c.name)] else [], left);
      if !ok {
        stop := AtOom;
        return;
      }
      left, ok := NoteRestarts(c, left);
      stop := AtCrashLoop;
      Associate(old(alerts), FlappingAlerts(old(TrackIn(Mem(), c.name)), c), OomAlerts(old(TrackIn(Mem(), c.name)), c));
    }

    /** Streak of unhealthy ticks. */
    method NoteHealth(c: Observed, awaits: nat) returns (left: nat, ok: bool)
      requires Clean(Mem()) && c.name in counterState
      modifies this`unhealthyStreak, this`alerts
      ensures Clean(Mem())
      ensures forall name | name != c.name :: TrackIn(Mem(), name) == old(TrackIn(Mem(), name))
      ensures var before := old(TrackIn(Mem(), c.name));
              && TrackIn(Mem(), c.name) == before.(unhealthy := NextUnhealthy(before, c))
              && (if ok then alerts == old(alerts) + UnhealthyAlerts(before, c)
                  else UnhealthyAlerts(before, c) != [] && alerts == old(alerts))
              && (ok <==> awaits >= |UnhealthyAlerts(before, c)|)
              && (ok ==> left == awaits - |UnhealthyAlerts(before, c)|)
    {
      hide Clean;
      var known := if c.name in unhealthyStreak then unhealthyStreak[c.name] else 0;
      var streak := if c.health == UNHEALTHY then known + 1 else 0;
      unhealthyStreak := unhealthyStreak[c.name := streak];
      KeepsClean(old(Mem()), Mem(), c.name);
      left, ok := Dispatch(if streak == 2 then [UnhealthySustained(c.name)] else [], awaits);
    }

    /** One container of the tick, got through or failed at one of its awaits. */
    method Observe(c: Observed, awaits: nat) returns (left: nat, ok: bool, ghost a: Attempt)
      requires Clean(Mem())
      modifies this`prevContainer, this`counterState, this`restartWindow, this`transitionWindow, this`unhealthyStreak,
               this`events, this`alerts
      ensures Clean(Mem())
      ensures forall name | name != c.name :: TrackIn(Mem(), name) == old(TrackIn(Mem(), name))
      ensures old(counterState.Keys) <= counterState.Keys <= old(counterState.Keys) + {c.name}
      ensures ok ==> c.name in counterState
      ensures a.c == c && (a.Through? <==> ok)
      ensures var before := old(TrackIn(Mem(), c.name));
              && Possible(before, a)
              && TrackIn(Mem(), c.name) == Take(before, a)
              && events == old(events) + RowsOf(before, a)
              && alerts == old(alerts) + AlertsOf(before, a)
              && (ok <==> awaits >= CallsFor(before, c))
              && (ok ==> left == awaits - CallsFor(before, c))
    {
      hide Clean, TrackIn, NextRestarts, NextTransitions, NextUnhealthy, Emitted, CallsToCompare;
      hide FlappingAlerts, OomAlerts, CrashAlerts, UnhealthyAlerts;
      left, ok, a := awaits, true, Through(c);
      if left == 0 {
        return 0, false, Failed(c, BeforeRow);
      }
      left := left - 1;
      ghost var before := TrackIn(Mem(), c.name);
      counterState := counterState[c.name := c.now];
      KnowsMore(old(Mem()), Mem());
      PrevOf(Mem(), c.name);
      ghost var stop: Stop;
      if c.name in prevContainer {
        left, ok, stop := Compare(c, left);
        if !ok {
          a := Failed(c, stop);
          return;
        }
      } else {
        NothingToCompare(before, c);
        NoCalls(before, c);
      }
      HealthAlone(before, TrackIn(Mem(), c.name), c);
      AlertsInOrder(old(alerts), before, c);
      left, ok := NoteHealth(c, left);
      if !ok {
        a := Failed(c, AtUnhealthy);
        return;
      }
      ghost var noted := Mem();
      prevContainer := prevContainer[c.name := Remember(c)];
      KeepsClean(noted, Mem(), c.name);
      Remembered(noted, Mem(), c.name);
    }

    method Forget(name: string)
      modifies this`prevContainer, this`counterState, this`restartWindow, this`transitionWindow, this`unhealthyStreak
      ensures Mem() == Without(old(Mem()), name)
    {
      counterState := counterState - {name};
      prevContainer := prevContainer - {name};
      unhealthyStreak := unhealthyStreak - {name};
      restartWindow := restartWindow - {name};
      transitionWindow := transitionWindow - {name};
    }

    /** Forget every container that was not seen. */
    method Hygiene(seen: set<string>)
      requires Clean(Mem())
      modifies this`prevContainer, this`counterState, this`restartWindow, this`transitionWindow, this`unhealthyStreak
      ensures Kept(old(Mem()), Mem(), seen, {})
    {
      hide Clean, Kept, Without;
      var stale := counterState.Keys - seen;
      KeptAtFirst(Mem(), seen);
      while stale != {}
        invariant stale !! seen && Kept(old(Mem()), Mem(), seen, stale)
        decreases |stale|
      {
        var name :| name in stale;
        KeptNext(old(Mem()), Mem(), seen, stale, name);
        Forget(name);
        stale := stale - {name};
      }
    }

    /** The loop over the listed containers. */
    method ObserveAll(containers: seq<Observed>, awaits: nat)
      returns (left: nat, ok: bool, ghost attempts: seq<Attempt>)
      requires Clean(Mem())
      modifies this`prevContainer, this`counterState, this`restartWindow, this`transitionWindow, this`unhealthyStreak,
               this`events, this`alerts
      ensures Clean(Mem())
      ensures Tries(containers, attempts) && PossibleIn(old(Mem()), attempts) && Observes(old(Mem()), Mem(), attempts)
      ensures events == old(events) + EmittedIn(old(Mem()), attempts)
      ensures alerts == old(alerts) + AlertsIn(old(Mem()), attempts)
      ensures ok ==> attempts == AllThrough(containers)
      ensures ok <==> awaits >= CallsIn(old(Mem()), AllThrough(containers))
      ensures ok ==> left == awaits - CallsIn(old(Mem()), AllThrough(containers))
    {
      hide Clean, TrackIn, Take, RowsOf, AlertsOf, Observes, TrackBefore, EmittedIn, AlertsIn, PossibleIn, Possible,
        Tries, CallsIn, CallsFor;
      left, ok, attempts := awaits, true, [];
      NothingObserved(Mem(), containers);
      NothingCalled(Mem(), containers);
      for i := 0 to |containers|
        invariant ok && Clean(Mem()) && attempts == AllThrough(containers[..i])
        invariant left + CallsIn(old(Mem()), attempts) == awaits
        invariant Tries(containers, attempts) && PossibleIn(old(Mem()), attempts)
                  && Observes(old(Mem()), Mem(), attempts)
        invariant events == old(events) + EmittedIn(old(Mem()), attempts)
        invariant alerts == old(alerts) + AlertsIn(old(Mem()), attempts)
      {
        ghost var before, tried := Mem(), attempts;
        ghost var a: Attempt;
        left, ok, a := Observe(containers[i], left);
        attempts := tried + [a];
        TriesNext(containers, i, a);
        CallsNext(old(Mem()), before, containers, i);
        ObservesNext(old(Mem()), before, Mem(), tried, a);
        if !ok {
          CallsGrow(old(Mem()), containers, i + 1);
          return;
        }
      }
      assert containers[..|containers|] == containers;
    }

    /**
      * `awaits` is the number of awaited calls that succeed before one throws. `attempts` is what
      * the tick tried before it ended; an abort in the last `await` leaves all of them through.
      */
    method ContainerMetricsTick(containers: seq<Observed>, load1m: real, loadCircuitBreak: real, awaits: nat)
      returns (outcome: Outcome, ghost attempts: seq<Attempt>)
      requires Clean(Mem())
      modifies this
      ensures Clean(Mem()) && running == old(running)
      ensures outcome == Skipped <==> old(running) || load1m > loadCircuitBreak
      ensures outcome == Skipped ==> unchanged(this)
      ensures outcome == Completed <==> outcome != Skipped && awaits >= CallsOfTick(old(Mem()), containers)
      ensures outcome != Skipped ==>
                && Tries(containers, attempts) && PossibleIn(old(Mem()), attempts)
                && events == old(events) + EmittedIn(old(Mem()), attempts)
                && alerts == old(alerts) + AlertsIn(old(Mem()), attempts)
      ensures outcome == Completed ==>
                attempts == AllThrough(containers) && Ticked(old(Mem()), Mem(), attempts)
                  && runs == Continued(old(runs), attempts)
      ensures outcome == Aborted ==> Observes(old(Mem()), Mem(), attempts) && runs == Extended(old(runs), attempts)
      ensures old(Tells(Mem(), events, runs)) ==> Tells(Mem(), events, runs)
      ensures old(Tells(Mem(), events, runs) && Dated(events, runs, clock)) && Stamped(containers, old(clock)) ==>
                Dated(events, runs, clock)
    {
      hide Clean, TrackIn, Tells, Dated, Observes, Kept, Ticked, EmittedIn, AlertsIn, PossibleIn, Tries, Continued,
        Extended;
      hide Stamped, AttemptsInOrder, ClockAfter, CallsIn;
      attempts := [];
      if running || load1m > loadCircuitBreak {
        return Skipped, [];
      }
      NothingObserved(Mem(), containers);
      NothingCalled(Mem(), containers);
      assert containers[..|containers|] == containers;
      if awaits == 0 || (awaits == 1 && containers != []) {
        Recorded(old(Mem()), Mem(), events, runs, clock, containers, attempts);
        runs, clock := Extended(runs, attempts), ClockAfter(clock, attempts);
        return Aborted, attempts;
      }
      running := true;
      var left, ok;
      left, ok, attempts := ObserveAll(containers, if containers == [] then awaits - 1 else awaits - 2);
      running := false;
      Recorded(old(Mem()), Mem(), old(events), runs, clock, containers, attempts);
      if !ok || (left == 0 && containers != []) {
        runs, clock := Extended(runs, attempts), ClockAfter(clock, attempts);
        return Aborted, attempts;
      }
      ghost var observed := Mem();
      NamesOfThrough(containers);
      Hygiene(set c | c in containers :: c.name);
      TickCompletes(old(Mem()), observed, Mem(), attempts);
      TickedIsClean(old(Mem()), Mem(), attempts);
      if old(Tells(Mem(), events, runs)) {
        CompletedTells(old(Mem()), old(events), old(runs), Mem(), attempts);
      }
      runs, clock := Continued(runs, attempts), ClockAfter(clock, attempts);
      return Completed, attempts;
    }
  }

  /** What a tick's attempts do to the record of presences, if the tick does not complete, and to the dates. */
  lemma {:induction false} Recorded(before: Memory, after: Memory, events: seq<EventRecord>,
                                    runs: map<string, Run>, clock: int, containers: seq<Observed>,
                                    attempts: seq<Attempt>)
    requires Tries(containers, attempts) && PossibleIn(before, attempts) && Observes(before, after, attempts)
    ensures var rows := events + EmittedIn(before, attempts);
            && (Tells(before, events, runs) ==> Tells(after, rows, Extended(runs, attempts)))
            && (Tells(before, events, runs) && Dated(events, runs, clock) && Stamped(containers, clock) ==>
                  && Dated(rows, Extended(runs, attempts), ClockAfter(clock, attempts))
                  && Dated(rows, Continued(runs, attempts), ClockAfter(clock, attempts)))
  {
    hide Tells, Dated, Observes, EmittedIn, PossibleIn, Tries, Continued, Extended, Stamped, AttemptsInOrder,
      ClockAfter;
    if Tells(before, events, runs) {
      AbortedTells(before, events, runs, after, attempts);
      if Dated(events, runs, clock) && Stamped(containers, clock) {
        TriedInOrder(containers, attempts, clock);
        TickKeepsDates(before, events, runs, attempts, clock);
      }
    }
  }

  lemma {:induction false} NothingObserved(m: Memory, containers: seq<Observed>)
    ensures Observes(m, m, []) && EmittedIn(m, []) == [] && AlertsIn(m, []) == [] && PossibleIn(m, [])
    ensures Tries(containers, []) && AllThrough(containers[..0]) == []
  {
  }

  lemma {:induction false} TriesNext(containers: seq<Observed>, i: nat, a: Attempt)
    requires i < |containers| && a.c == containers[i]
    ensures Tries(containers, AllThrough(containers[..i]) + [a])
    ensures a.Through? ==> AllThrough(containers[..i]) + [a] == AllThrough(containers[..i + 1])
  {
  }

  lemma {:induction false} ObservesNext(start: Memory, before: Memory, after: Memory, tried: seq<Attempt>, a: Attempt)
    requires Observes(start, before, tried) && PossibleIn(start, tried) && Possible(TrackIn(before, a.c.name), a)
    requires TrackIn(after, a.c.name) == Take(TrackIn(before, a.c.name), a)
    requires forall name | name != a.c.name :: TrackIn(after, name) == TrackIn(before, name)
    requires before.counterState.Keys <= after.counterState.Keys <= before.counterState.Keys + {a.c.name}
    requires a.Through? ==> a.c.name in after.counterState
    ensures Observes(start, after, tried + [a]) && PossibleIn(start, tried + [a])
    ensures EmittedIn(start, tried + [a]) == EmittedIn(start, tried) + RowsOf(TrackIn(before, a.c.name), a)
    ensures AlertsIn(start, tried + [a]) == AlertsIn(start, tried) + AlertsOf(TrackIn(before, a.c.name), a)
  {
    hide TrackIn, Take, Seen, Advance, Names, RowsOf, AlertsOf, Possible;
    var all := tried + [a];
    assert all[..|tried|] == tried && all[..|all|] == all;
    NamesSnoc(tried, a);
    forall name
      ensures TrackIn(after, name) == Advance(TrackIn(start, name), Seen(name, all))
    {
      SeenSnoc(name, all, |tried|);
      AdvanceSnoc(TrackIn(start, name), Seen(name, tried), a);
      assert Seen(name, tried) + [] == Seen(name, tried);
    }
  }

  lemma {:induction false} NothingCalled(m: Memory, containers: seq<Observed>)
    ensures CallsIn(m, AllThrough(containers[..0])) == 0
  {
  }

  lemma {:induction false} CallsNext(start: Memory, before: Memory, containers: seq<Observed>, i: nat)
    requires i < |containers| && Observes(start, before, AllThrough(containers[..i]))
    ensures var c := containers[i];
            CallsIn(start, AllThrough(containers[..i + 1])) ==
            CallsIn(start, AllThrough(containers[..i])) + CallsFor(TrackIn(before, c.name), c)
  {
    hide TrackIn, Seen, Advance, CallsFor;
    var tried, all := AllThrough(containers[..i]), AllThrough(containers[..i + 1]);
    assert all == tried + [Through(containers[i])];
    assert all[..|tried|] == tried;
  }

  /** The calls of a longer list are no fewer. */
  lemma {:induction false} CallsGrow(m: Memory, containers: seq<Observed>, n: nat)
    requires n <= |containers|
    ensures CallsIn(m, AllThrough(containers[..n])) <= CallsIn(m, AllThrough(containers))
    decreases |containers| - n
  {
    hide CallsFor, TrackBefore;
    if n == |containers| {
      assert containers[..n] == containers;
    } else {
      CallsGrow(m, containers, n + 1);
      var longer := AllThrough(containers[..n + 1]);
      assert longer[..n] == AllThrough(containers[..n]);
    }
  }

  lemma {:induction false} NamesSnoc(tried: seq<Attempt>, a: Attempt)
    ensures Names(tried + [a]) == Names(tried) + {a.c.name}
  {
    forall name
      ensures name in Names(tried + [a]) <==> name in Names(tried) + {a.c.name}
    {
      assert a in tried + [a];
      assert forall d | d in tried :: d in tried + [a];
    }
  }

  lemma {:induction false} NamesOfThrough(containers: seq<Observed>)
    ensures Names(AllThrough(containers)) == set c | c in containers :: c.name
  {
    forall name
      ensures name in Names(AllThrough(containers)) <==> name in (set c | c in containers :: c.name)
    {
      if name in Names(AllThrough(containers)) {
        var a :| a in AllThrough(containers) && a.c.name == name;
        assert a.c in containers;
      }
      if name in (set c | c in containers :: c.name) {
        var c :| c in containers && c.name == name;
        var i :| 0 <= i < |containers| && containers[i] == c;
        assert AllThrough(containers)[i].c.name == name;
      }
    }
  }

  /** After hygiene has yet to forget `stale`. */
  ghost predicate Kept(start: Memory, m: Memory, seen: set<string>, stale: set<string>) {
    && Clean(m)
    && m.counterState.Keys == start.counterState.Keys * seen + stale
    && forall name | name in seen :: TrackIn(m, name) == TrackIn(start, name)
  }

  lemma {:induction false} KeptAtFirst(m: Memory, seen: set<string>)
    requires Clean(m)
    ensures Kept(m, m, seen, m.counterState.Keys - seen)
  {
    hide Clean, TrackIn;
  }

  lemma {:induction false} KeptNext(start: Memory, m: Memory, seen: set<string>, stale: set<string>, name: string)
    requires Kept(start, m, seen, stale) && name in stale && name !in seen
    ensures Kept(start, Without(m, name), seen, stale - {name})
  {
    hide Clean, TrackIn;
    Forgotten(m, name);
  }

  lemma {:induction false} TickCompletes(start: Memory, observed: Memory, after: Memory, attempts: seq<Attempt>)
    requires Observes(start, observed, attempts) && Kept(observed, after, Names(attempts), {})
    requires forall i | 0 <= i < |attempts| :: attempts[i].Through?
    ensures Ticked(start, after, attempts)
  {
    hide TrackIn, Clean;
    assert Names(attempts) <= observed.counterState.Keys;
  }

  lemma {:induction false} TickedIsClean(before: Memory, after: Memory, attempts: seq<Attempt>)
    requires Ticked(before, after, attempts)
    ensures Clean(after)
  {
  }

  lemma {:induction false} Forgotten(m: Memory, name: string)
    ensures Clean(m) ==> Clean(Without(m, name))
    ensures forall other | other != name :: TrackIn(Without(m, name), other) == TrackIn(m, other)
  {
  }

  lemma {:induction false} HealthAlone(t: Track, u: Track, c: Observed)
    requires t.unhealthy == u.unhealthy
    ensures NextUnhealthy(t, c) == NextUnhealthy(u, c) && UnhealthyAlerts(t, c) == UnhealthyAlerts(u, c)
  {
  }

  lemma {:induction false} AlertsInOrder(sent: seq<Alert>, t: Track, c: Observed)
    ensures sent + FlappingAlerts(t, c) + OomAlerts(t, c) + CrashAlerts(t, c) + UnhealthyAlerts(t, c) ==
            sent + Alerts(t, c)
  {
    hide FlappingAlerts, OomAlerts, CrashAlerts, UnhealthyAlerts;
  }

  lemma {:induction false} PrevOf(m: Memory, name: string)
    ensures TrackIn(m, name).prev.Some? <==> name in m.prevContainer
  {
  }

  lemma {:induction false} Remembered(before: Memory, after: Memory, name: string)
    requires name in after.prevContainer
    requires after == before.(prevContainer := before.prevContainer[name := after.prevContainer[name]])
    ensures TrackIn(after, name) == TrackIn(before, name).(prev := Some(after.prevContainer[name]))
    ensures forall other | other != name :: TrackIn(after, other) == TrackIn(before, other)
  {
  }

  lemma {:induction false} NoCalls(t: Track, c: Observed)
    requires t.prev.None?
    ensures CallsToCompare(t, c) == 0
  {
  }

  lemma {:induction false} NothingToCompare(t: Track, c: Observed)
    requires t.prev.None?
    ensures NextRestarts(t, c) == t.restarts && NextTransitions(t, c) == t.transitions && Emitted(t, c) == []
    ensures FlappingAlerts(t, c) == [] && OomAlerts(t, c) == [] && CrashAlerts(t, c) == []
  {
  }

  lemma {:induction false} KnowsMore(before: Memory, after: Memory)
    requires Clean(before) && before.counterState.Keys <= after.counterState.Keys
    requires after.(counterState := before.counterState) == before
    ensures Clean(after)
    ensures forall name :: TrackIn(after, name) == TrackIn(before, name)
  {
  }

  lemma {:induction false} KeepsClean(before: Memory, after: Memory, name: string)
    requires Clean(before) && name in before.counterState
    requires after.counterState.Keys == before.counterState.Keys
    requires after.prevContainer.Keys <= before.prevContainer.Keys + {name}
    requires after.restartWindow.Keys <= before.restartWindow.Keys + {name}
    requires after.transitionWindow.Keys <= before.transitionWindow.Keys + {name}
    requires after.unhealthyStreak.Keys <= before.unhealthyStreak.Keys + {name}
    ensures Clean(after)
  {
  }
}
