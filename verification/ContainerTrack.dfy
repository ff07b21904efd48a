/**
  * What `containerMetricsTick` remembers and emits for one container: the event log, the restart
  * and transition windows, the unhealthy streak. Whole runs of completed ticks are folds of `Next`.
  */
module ContainerTrack {
  import opened Availability
  import opened Buckets
  import opened JsValues

  const UNHEALTHY := "unhealthy"

  /**
    * One container as one tick sees it. `now` is the tick's clock, `stamp` the database's clock
    * when a row for this container would be written during the tick.
    */
  datatype Observed = Observed(name: string, state: string, health: string, restartCount: nat, oomKilled: bool,
                               exitCode: Option<int>, now: int, stamp: int)

  datatype Previous = Previous(state: string, health: string, restartCount: nat, oomKilled: bool)

  /** A row of the event table; `reason` is kept as its two parts. */
  datatype EventRecord = EventRecord(name: string, ts: int, fromState: string, toState: string, exitCode: Option<int>,
                                     oomKilled: bool, healthChange: Option<(string, string)>, newRestarts: nat)

  datatype Alert =
    | Flapping(name: string, transitions: nat)
    | OomKilled(name: string)
    | CrashLoop(name: string, restarts: nat)
    | UnhealthySustained(name: string)

  /** In-memory state of one container; an absent map entry is None, [] or 0. */
  datatype Track = Track(prev: Option<Previous>, restarts: seq<int>, transitions: seq<int>, unhealthy: nat)

  const UNKNOWN := Track(None, [], [], 0)

  function Remember(c: Observed): Previous { Previous(c.state, c.health, c.restartCount, c.oomKilled) }

  function NewRestarts(prev: Previous, c: Observed): nat {
    if c.restartCount > prev.restartCount then c.restartCount - prev.restartCount else 0
  }

  predicate Changed(prev: Previous, c: Observed) {
    prev.state != c.state || prev.health != c.health || NewRestarts(prev, c) > 0
  }

  function Recent(times: seq<int>, now: int, window: nat): seq<int> {
    if times == [] then []
    else
      Recent(times[..|times| - 1], now, window) +
      (if now - times[|times| - 1] < window then [times[|times| - 1]] else [])
  }

  function Repeat(t: int, n: nat): seq<int> { seq(n, i => t) }

  function Record(prev: Previous, c: Observed): EventRecord {
    EventRecord(c.name, c.stamp, prev.state, c.state, c.exitCode, c.oomKilled,
                if prev.health != c.health then Some((prev.health, c.health)) else None, NewRestarts(prev, c))
  }

  function NextTransitions(t: Track, c: Observed): seq<int> {
    if t.prev.Some? && Changed(t.prev.value, c) then Recent(t.transitions, c.now, HOUR) + [c.now] else t.transitions
  }

  function NextRestarts(t: Track, c: Observed): seq<int> {
    if t.prev.Some? && NewRestarts(t.prev.value, c) > 0
    then Recent(t.restarts, c.now, DAY) + Repeat(c.now, NewRestarts(t.prev.value, c))
    else t.restarts
  }

  function NextUnhealthy(t: Track, c: Observed): nat { if c.health == UNHEALTHY then t.unhealthy + 1 else 0 }

  function Next(t: Track, c: Observed): Track {
    Track(Some(Remember(c)), NextRestarts(t, c), NextTransitions(t, c), NextUnhealthy(t, c))
  }

  function Emitted(t: Track, c: Observed): seq<EventRecord> {
    if t.prev.Some? && Changed(t.prev.value, c) then [Record(t.prev.value, c)] else []
  }

  function FlappingAlerts(t: Track, c: Observed): seq<Alert> {
    if t.prev.Some? && Changed(t.prev.value, c) && |NextTransitions(t, c)| >= 3
    then [Flapping(c.name, |NextTransitions(t, c)|)] else []
  }

  function OomAlerts(t: Track, c: Observed): seq<Alert> {
    if t.prev.Some? && c.oomKilled && !t.prev.value.oomKilled then [OomKilled(c.name)] else []
  }

  function CrashAlerts(t: Track, c: Observed): seq<Alert> {
    if t.prev.Some? && NewRestarts(t.prev.value, c) > 0 && |NextRestarts(t, c)| > 3
    then [CrashLoop(c.name, |NextRestarts(t, c)|)] else []
  }

  function UnhealthyAlerts(t: Track, c: Observed): seq<Alert> {
    if NextUnhealthy(t, c) == 2 then [UnhealthySustained(c.name)] else []
  }

  function Alerts(t: Track, c: Observed): seq<Alert> {
    FlappingAlerts(t, c) + OomAlerts(t, c) + CrashAlerts(t, c) + UnhealthyAlerts(t, c)
  }

  // ---------- one attempt at an observation ----------

  /** Where an awaited call can throw: up to the row, or at one of the alerts due after it. */
  datatype Stop = BeforeRow | AtFlapping | AtOom | AtCrashLoop | AtUnhealthy

  /** The tick gets through with the observation, or aborts at it. */
  datatype Attempt = Through(c: Observed) | Failed(c: Observed, stop: Stop)

  /** Only an alert that is due is awaited. */
  predicate CanFail(t: Track, c: Observed, stop: Stop) {
    match stop
    case BeforeRow => true
    case AtFlapping => FlappingAlerts(t, c) != []
    case AtOom => OomAlerts(t, c) != []
    case AtCrashLoop => CrashAlerts(t, c) != []
    case AtUnhealthy => UnhealthyAlerts(t, c) != []
  }

  /** The memory an abort leaves: windows and streak as far as they were updated, the old previous observation. */
  function Partly(t: Track, c: Observed, stop: Stop): Track {
    match stop
    case BeforeRow => t
    case AtFlapping => t.(transitions := NextTransitions(t, c))
    case AtOom => t.(transitions := NextTransitions(t, c))
    case AtCrashLoop => t.(transitions := NextTransitions(t, c), restarts := NextRestarts(t, c))
    case AtUnhealthy =>
      t.(transitions := NextTransitions(t, c), restarts := NextRestarts(t, c), unhealthy := NextUnhealthy(t, c))
  }

  function PartRows(t: Track, c: Observed, stop: Stop): seq<EventRecord> {
    if stop == BeforeRow then [] else Emitted(t, c)
  }

  /** The alerts whose dispatch returned. */
  function PartAlerts(t: Track, c: Observed, stop: Stop): seq<Alert> {
    match stop
    case BeforeRow => []
    case AtFlapping => []
    case AtOom => FlappingAlerts(t, c)
    case AtCrashLoop => FlappingAlerts(t, c) + OomAlerts(t, c)
    case AtUnhealthy => FlappingAlerts(t, c) + OomAlerts(t, c) + CrashAlerts(t, c)
  }

  predicate Possible(t: Track, a: Attempt) { a.Failed? ==> CanFail(t, a.c, a.stop) }

  function Take(t: Track, a: Attempt): Track { if a.Through? then Next(t, a.c) else Partly(t, a.c, a.stop) }

  function RowsOf(t: Track, a: Attempt): seq<EventRecord> {
    if a.Through? then Emitted(t, a.c) else PartRows(t, a.c, a.stop)
  }

  function AlertsOf(t: Track, a: Attempt): seq<Alert> {
    if a.Through? then Alerts(t, a.c) else PartAlerts(t, a.c, a.stop)
  }

  // ---------- runs of completed ticks in which the container is present ----------

  type History = seq<Observed>

  ghost function TrackAfter(h: History): Track {
    if h == [] then UNKNOWN else Next(TrackAfter(h[..|h| - 1]), h[|h| - 1])
  }

  ghost function LogAfter(h: History): seq<EventRecord> {
    if h == [] then [] else LogAfter(h[..|h| - 1]) + Emitted(TrackAfter(h[..|h| - 1]), h[|h| - 1])
  }

  /** The alerts of tick `i`. */
  ghost function AlertsAt(h: History, i: nat): seq<Alert>
    requires i < |h|
  {
    Alerts(TrackAfter(h[..i]), h[i])
  }

  ghost predicate ClockRuns(h: History) {
    forall i, j | 0 <= i < j < |h| :: h[i].now <= h[j].now && h[i].stamp <= h[j].stamp
  }

  lemma {:induction false} PrefixClockRuns(h: History, n: nat)
    requires ClockRuns(h) && n <= |h|
    ensures ClockRuns(h[..n])
  {
  }

  // ---------- the log is lossless ----------

  ghost function AsStates(log: seq<EventRecord>): seq<StateEvent> {
    seq(|log|, i requires 0 <= i < |log| => StateEvent(log[i].ts, log[i].toState))
  }

  /** The observations themselves, each as the state that holds from its stamp on. */
  ghost function ObservedStates(h: History): seq<StateEvent> {
    seq(|h|, i requires 0 <= i < |h| => StateEvent(h[i].stamp, h[i].state))
  }

  /** Each event starts where the previous one ended, the first one in state `first`. */
  ghost predicate Chained(first: string, log: seq<EventRecord>) {
    forall k | 0 <= k < |log| :: log[k].fromState == LastState(first, log[..k])
  }

  ghost function FinalState(initial: string, log: seq<StateEvent>): string {
    if log == [] then initial else log[|log| - 1].toState
  }

  ghost function LastState(initial: string, log: seq<EventRecord>): string {
    if log == [] then initial else log[|log| - 1].toState
  }

  lemma {:induction false} TrackRemembers(h: History)
    requires h != []
    ensures TrackAfter(h).prev == Some(Remember(h[|h| - 1]))
  {
  }

  lemma {:induction false} ChainedSnoc(first: string, log: seq<EventRecord>, e: EventRecord)
    requires Chained(first, log) && e.fromState == LastState(first, log)
    ensures Chained(first, log + [e])
  {
    forall k | 0 <= k < |log + [e]|
      ensures (log + [e])[k].fromState == LastState(first, (log + [e])[..k])
    {
      assert (log + [e])[..k] == log[..k];
      assert log[..|log|] == log;
    }
  }

  lemma {:induction false} NothingChained(first: string)
    ensures Chained(first, [])
  {
  }

  /** The log starts in the first observed state, has no breaks, and ends in the last observed state. */
  lemma {:induction false} LogIsChained(h: History)
    requires h != []
    ensures Chained(h[0].state, LogAfter(h))
    ensures LastState(h[0].state, LogAfter(h)) == h[|h| - 1].state
  {
    hide Changed, Next, Chained;
    var n := |h| - 1;
    if n == 0 {
      FirstLog(h);
      NothingChained(h[0].state);
    } else {
      LogIsChained(h[..n]);
      TrackRemembers(h[..n]);
      UnchangedState(Remember(h[n - 1]), h[n]);
      ChainedSnoc(h[0].state, LogAfter(h[..n]), Record(Remember(h[n - 1]), h[n]));
      assert LogAfter(h[..n]) + [] == LogAfter(h[..n]);
    }
  }

  lemma {:induction false} UnchangedState(prev: Previous, c: Observed)
    ensures !Changed(prev, c) ==> prev.state == c.state
  {
  }

  lemma {:induction false} StateAtSnoc(initial: string, log: seq<StateEvent>, e: StateEvent, t: int)
    requires Sorted(log + [e])
    ensures StateAt(initial, log + [e], t) == if e.ts <= t then e.toState else StateAt(initial, log, t)
    decreases |log|
  {
    var longer := log + [e];
    if log == [] {
      assert longer[1..] == [];
    } else {
      assert longer[1..] == log[1..] + [e];
      assert longer[0] == log[0] && longer[|log|] == e;
      StateAtSnoc(log[0].toState, log[1..], e, t);
    }
  }

  lemma {:induction false} StateAtEnd(initial: string, log: seq<StateEvent>, t: int)
    requires forall i | 0 <= i < |log| :: log[i].ts <= t
    ensures StateAt(initial, log, t) == FinalState(initial, log)
    decreases |log|
  {
    if log != [] {
      StateAtEnd(log[0].toState, log[1..], t);
    }
  }

  lemma {:induction false} LogIsOrdered(h: History)
    requires ClockRuns(h)
    ensures Sorted(AsStates(LogAfter(h))) && Sorted(ObservedStates(h))
    ensures forall e | e in LogAfter(h) :: h != [] && e.ts <= h[|h| - 1].stamp
  {
    hide Changed, Next;
    if h != [] {
      var n := |h| - 1;
      PrefixClockRuns(h, n);
      LogIsOrdered(h[..n]);
      var before, log := LogAfter(h[..n]), LogAfter(h);
      forall i | 0 <= i < |before|
        ensures before[i].ts <= h[n].stamp
      {
        assert before[i] in before;
      }
      if n == 0 {
        FirstLog(h);
      } else {
        TrackRemembers(h[..n]);
      }
      EmittedNow(h);
      assert log == before + Emitted(TrackAfter(h[..n]), h[n]);
      forall i, j | 0 <= i < j < |log|
        ensures log[i].ts <= log[j].ts
      {
        assert log[i] == before[i];
        if j < |before| {
          assert AsStates(before)[i].ts <= AsStates(before)[j].ts;
        }
      }
    }
  }

  lemma {:induction false} EmittedNow(h: History)
    requires h != []
    ensures var n := |h| - 1;
            var emitted := Emitted(TrackAfter(h[..n]), h[n]);
            |emitted| <= 1 && forall e | e in emitted :: e.ts == h[n].stamp && e.toState == h[n].state
  {
    hide TrackAfter, Changed;
  }

  /**
    * The written events, although only changes are written, give the observed state at every
    * instant, provided the log is read from the first observed state on.
    */
  lemma {:induction false} LogIsLossless(h: History, t: int)
    requires ClockRuns(h) && h != []
    ensures StateAt(h[0].state, AsStates(LogAfter(h)), t) == StateAt(h[0].state, ObservedStates(h), t)
  {
    hide Next, LogAfter, Changed;
    var n := |h| - 1;
    LogIsOrdered(h);
    assert ObservedStates(h) == ObservedStates(h[..n]) + [StateEvent(h[n].stamp, h[n].state)];
    StateAtSnoc(h[0].state, ObservedStates(h[..n]), StateEvent(h[n].stamp, h[n].state), t);
    if n == 0 {
      FirstLog(h);
      assert ObservedStates(h[..n]) == [];
    } else {
      PrefixClockRuns(h, n);
      LogIsLossless(h[..n], t);
      LastStep(h, t);
    }
  }

  lemma {:induction false} FirstLog(h: History)
    requires |h| == 1
    ensures LogAfter(h) == []
  {
    assert LogAfter(h[..0]) == [];
  }

  /** One more observation adds its state to the log, or finds the log already ending in that state. */
  lemma {:induction false} LogGrows(h: History)
    requires |h| > 1
    ensures var c, before := h[|h| - 1], AsStates(LogAfter(h[..|h| - 1]));
            || AsStates(LogAfter(h)) == before + [StateEvent(c.stamp, c.state)]
            || (AsStates(LogAfter(h)) == before && FinalState(h[0].state, before) == c.state)
  {
    hide Next, Changed, TrackAfter, Chained;
    var n := |h| - 1;
    var log := LogAfter(h[..n]);
    TrackRemembers(h[..n]);
    LogIsChained(h[..n]);
    UnchangedState(Remember(h[n - 1]), h[n]);
    if Changed(Remember(h[n - 1]), h[n]) {
      assert AsStates(log + [Record(Remember(h[n - 1]), h[n])]) == AsStates(log) + [StateEvent(h[n].stamp, h[n].state)];
    } else {
      assert log + [] == log;
    }
  }

  lemma {:induction false} LastStep(h: History, t: int)
    requires ClockRuns(h) && |h| > 1
    requires Sorted(AsStates(LogAfter(h)))
    ensures var before := h[..|h| - 1];
            StateAt(h[0].state, AsStates(LogAfter(h)), t) ==
            if h[|h| - 1].stamp <= t then h[|h| - 1].state else StateAt(h[0].state, AsStates(LogAfter(before)), t)
  {
    hide LogAfter, StateAt;
    var n := |h| - 1;
    var log, c := LogAfter(h[..n]), h[n];
    LogGrows(h);
    LogIsOrdered(h[..n]);
    if AsStates(LogAfter(h)) != AsStates(log) {
      StateAtSnoc(h[0].state, AsStates(log), StateEvent(c.stamp, c.state), t);
    } else if c.stamp <= t {
      forall i | 0 <= i < |log|
        ensures log[i].ts <= t
      {
        assert log[i] in log;
      }
      StateAtEnd(h[0].state, AsStates(log), t);
    }
  }

  // ---------- the whole table of the container ----------

  /** Rows of earlier presences under the same name: in order, and before the first observation. */
  ghost predicate OlderRows(older: seq<StateEvent>, h: History)
    requires h != []
  {
    Sorted(older) && forall i | 0 <= i < |older| :: older[i].ts < h[0].stamp
  }

  /** The bucket starts after those rows. */
  ghost predicate StartsAfter(older: seq<StateEvent>, from: int) { forall i | 0 <= i < |older| :: older[i].ts < from }

  /** What the table said of the container before, and what its first observation says, is running or not alike. */
  ghost predicate StatesAgree(older: seq<StateEvent>, h: History)
    requires h != []
  {
    FinalState(RUNNING, older) == RUNNING <==> h[0].state == RUNNING
  }

  ghost function Table(older: seq<StateEvent>, h: History): seq<StateEvent> { older + AsStates(LogAfter(h)) }

  lemma {:induction false} StateAtConcat(initial: string, older: seq<StateEvent>, log: seq<StateEvent>, t: int)
    requires forall i | 0 <= i < |older| :: older[i].ts <= t
    ensures StateAt(initial, older + log, t) == StateAt(FinalState(initial, older), log, t)
    decreases |older|
  {
    if older == [] {
      assert older + log == log;
    } else {
      assert (older + log)[1..] == older[1..] + log;
      StateAtConcat(older[0].toState, older[1..], log, t);
    }
  }

  lemma {:induction false} SameRunning(a: string, b: string, log: seq<StateEvent>, t: int)
    requires a == RUNNING <==> b == RUNNING
    ensures StateAt(a, log, t) == RUNNING <==> StateAt(b, log, t) == RUNNING
  {
  }

  lemma {:induction false} LogNotBeforeFirst(h: History)
    requires ClockRuns(h) && h != []
    ensures forall i | 0 <= i < |LogAfter(h)| :: LogAfter(h)[i].ts >= h[0].stamp
  {
    hide Next, Changed, TrackAfter;
    if |h| == 1 {
      FirstLog(h);
    } else {
      PrefixClockRuns(h, |h| - 1);
      LogNotBeforeFirst(h[..|h| - 1]);
      EmittedNow(h);
    }
  }

  lemma {:induction false} TableIsSorted(older: seq<StateEvent>, h: History)
    requires ClockRuns(h) && h != [] && OlderRows(older, h)
    ensures Sorted(Table(older, h))
  {
    hide LogAfter;
    LogIsOrdered(h);
    LogNotBeforeFirst(h);
  }

  /** At any instant after the older rows, the table and the observations agree on running or not. */
  lemma {:induction false} TableTellsObserved(older: seq<StateEvent>, h: History, t: int)
    requires ClockRuns(h) && h != [] && StatesAgree(older, h)
    requires forall i | 0 <= i < |older| :: older[i].ts <= t
    ensures StateAt(RUNNING, Table(older, h), t) == RUNNING <==>
            StateAt(FinalState(RUNNING, older), ObservedStates(h), t) == RUNNING
  {
    hide LogAfter, ClockRuns, StateAt;
    var known := FinalState(RUNNING, older);
    StateAtConcat(RUNNING, older, AsStates(LogAfter(h)), t);
    SameRunning(known, h[0].state, AsStates(LogAfter(h)), t);
    LogIsLossless(h, t);
    SameRunning(known, h[0].state, ObservedStates(h), t);
  }

  /**
    * When older rows and first observation agree, what the rollup sweeps out of the container's
    * whole table is the time it was observed not running, in every bucket after the older rows.
    */
  lemma {:induction false} SweepOfLogIsObserved(older: seq<StateEvent>, h: History, from: int, until: int)
    requires ClockRuns(h) && h != [] && OlderRows(older, h) && StatesAgree(older, h)
    requires from <= until && StartsAfter(older, from)
    ensures BucketDown(Table(older, h), from, until) ==
            Downtime(FinalState(RUNNING, older), ObservedStates(h), from, until)
  {
    hide Table, ObservedStates, BucketDown, StateAt, ClockRuns, StatesAgree;
    var known := FinalState(RUNNING, older);
    TableIsSorted(older, h);
    BucketMeasures(Table(older, h), from, until);
    forall t | from <= t < until
      ensures (StateAt(RUNNING, Table(older, h), t) == RUNNING) == (StateAt(known, ObservedStates(h), t) == RUNNING)
    {
      TableTellsObserved(older, h, t);
    }
    SameStatesSameDowntime(RUNNING, Table(older, h), known, ObservedStates(h), from, until);
  }

  lemma {:induction false} IncidentsSnoc(initial: string, log: seq<StateEvent>, e: StateEvent, from: int, until: int)
    ensures IncidentsIn(initial, log + [e], from, until) ==
            IncidentsIn(initial, log, from, until) +
            (if from <= e.ts < until && e.toState != RUNNING && FinalState(initial, log) == RUNNING then 1 else 0)
  {
    var before, after := IncidentIndices(initial, log, from, until), IncidentIndices(initial, log + [e], from, until);
    forall k: nat | k < |log|
      ensures k in before <==> k in after
    {
      SameIncident(initial, log, e, from, until, k);
    }
    assert (log + [e])[|log|] == e;
    assert log != [] ==> (log + [e])[|log| - 1] == log[|log| - 1];
    var last: set<nat> := if |log| in after then {|log|} else {};
    assert after == before + last;
  }

  lemma {:induction false} SameIncident(initial: string, log: seq<StateEvent>, e: StateEvent, from: int,
                                        until: int, k: nat)
    requires k < |log|
    ensures k in IncidentIndices(initial, log, from, until) <==> k in IncidentIndices(initial, log + [e], from, until)
  {
    assert (log + [e])[k] == log[k];
    assert k > 0 ==> (log + [e])[k - 1] == log[k - 1];
  }

  /** Within a presence the log has the observed departures from running, whatever the first state. */
  lemma {:induction false} DeparturesOfLog(h: History, from: int, until: int)
    requires h != []
    ensures IncidentsIn(h[0].state, AsStates(LogAfter(h)), from, until) ==
            IncidentsIn(h[0].state, ObservedStates(h), from, until)
  {
    hide LogAfter, IncidentsIn;
    var n := |h| - 1;
    var last := StateEvent(h[n].stamp, h[n].state);
    assert ObservedStates(h) == ObservedStates(h[..n]) + [last];
    IncidentsSnoc(h[0].state, ObservedStates(h[..n]), last, from, until);
    if n == 0 {
      FirstLog(h);
      assert ObservedStates(h[..n]) == [] && AsStates(LogAfter(h)) == [];
    } else {
      DeparturesOfLog(h[..n], from, until);
      LogGrows(h);
      LogEndsObserved(h[..n]);
      IncidentsSnoc(h[0].state, AsStates(LogAfter(h[..n])), last, from, until);
    }
  }

  lemma {:induction false} LogEndsObserved(h: History)
    requires h != []
    ensures FinalState(h[0].state, AsStates(LogAfter(h))) == FinalState(h[0].state, ObservedStates(h))
  {
    hide LogAfter, Chained;
    LogIsChained(h);
  }

  lemma {:induction false} IncidentsConcat(initial: string, older: seq<StateEvent>, log: seq<StateEvent>,
                                           from: int, until: int)
    requires StartsAfter(older, from)
    ensures IncidentsIn(initial, older + log, from, until) == IncidentsIn(FinalState(initial, older), log, from, until)
    decreases |older|
  {
    hide IncidentsIn;
    if older == [] {
      assert older + log == log;
    } else {
      assert (older + log)[1..] == older[1..] + log;
      IncidentsCons(initial, older + log, from, until);
      IncidentsConcat(older[0].toState, older[1..], log, from, until);
    }
  }

  /** The first event that counts as leaving running from one initial state, but not from the other. */
  ghost predicate FirstLeaves(log: seq<StateEvent>, from: int, until: int) {
    log != [] && from <= log[0].ts < until && log[0].toState != RUNNING
  }

  lemma {:induction false} IncidentsFrom(a: string, b: string, log: seq<StateEvent>, from: int, until: int)
    ensures IncidentsIn(a, log, from, until) + (if FirstLeaves(log, from, until) && b == RUNNING then 1 else 0) ==
            IncidentsIn(b, log, from, until) + (if FirstLeaves(log, from, until) && a == RUNNING then 1 else 0)
  {
    hide IncidentsIn;
    if log == [] {
      NoIncidents(a, from, until);
      NoIncidents(b, from, until);
    } else {
      IncidentsCons(a, log, from, until);
      IncidentsCons(b, log, from, until);
    }
  }

  lemma {:induction false} NoIncidents(initial: string, from: int, until: int)
    ensures IncidentsIn(initial, [], from, until) == 0
  {
    assert IncidentIndices(initial, [], from, until) == {};
  }

  /** The incidents of a bucket, as swept from the whole table and as observed. */
  lemma {:induction false} SweptAndObserved(older: seq<StateEvent>, h: History, from: int, until: int)
    requires ClockRuns(h) && h != [] && OlderRows(older, h) && from <= until && StartsAfter(older, from)
    ensures var known, first := FinalState(RUNNING, older), h[0].state;
            var log, observed := AsStates(LogAfter(h)), ObservedStates(h);
            BucketIncidents(Table(older, h), from, until)
              + (if FirstLeaves(log, from, until) && first == RUNNING then 1 else 0)
              + (if FirstLeaves(observed, from, until) && known == RUNNING then 1 else 0) ==
            IncidentsIn(known, observed, from, until)
              + (if FirstLeaves(log, from, until) && known == RUNNING then 1 else 0)
              + (if FirstLeaves(observed, from, until) && first == RUNNING then 1 else 0)
  {
    hide LogAfter, IncidentsIn, ClockRuns, FirstLeaves;
    var known := FinalState(RUNNING, older);
    TableIsSorted(older, h);
    BucketCountsIncidents(RUNNING, Table(older, h), from, until);
    IncidentsConcat(RUNNING, older, AsStates(LogAfter(h)), from, until);
    IncidentsFrom(known, h[0].state, AsStates(LogAfter(h)), from, until);
    DeparturesOfLog(h, from, until);
    IncidentsFrom(known, h[0].state, ObservedStates(h), from, until);
  }

  /** The incidents agree as well. */
  lemma {:induction false} IncidentsOfLogAreObserved(older: seq<StateEvent>, h: History, from: int, until: int)
    requires ClockRuns(h) && h != [] && OlderRows(older, h) && StatesAgree(older, h)
    requires from <= until && StartsAfter(older, from)
    ensures BucketIncidents(Table(older, h), from, until) ==
            IncidentsIn(FinalState(RUNNING, older), ObservedStates(h), from, until)
  {
    hide Table, ObservedStates, BucketIncidents, IncidentsIn, FirstLeaves, ClockRuns, LogAfter;
    SweptAndObserved(older, h, from, until);
  }

  // ---------- exactly when ----------

  ghost predicate DowntimeRecovered(older: seq<StateEvent>, h: History, from: int, until: int) {
    BucketDown(Table(older, h), from, until) == Downtime(FinalState(RUNNING, older), ObservedStates(h), from, until)
  }

  ghost predicate IncidentsRecovered(older: seq<StateEvent>, h: History, from: int, until: int) {
    BucketIncidents(Table(older, h), from, until) ==
    IncidentsIn(FinalState(RUNNING, older), ObservedStates(h), from, until)
  }

  /** One observation per tick: all later ones are stamped after the first. */
  ghost predicate FirstAlone(h: History) { forall i | 0 < i < |h| :: h[i].stamp > h[0].stamp }

  /**
    * The rollup recovers the observed downtime in all buckets after the older rows exactly when the
    * last older row (running if there is none) and the first observation agree on running or not.
    */
  lemma {:induction false} LosslessExactlyWhenStatesAgree(older: seq<StateEvent>, h: History)
    requires ClockRuns(h) && h != [] && OlderRows(older, h) && FirstAlone(h)
    ensures StatesAgree(older, h) <==>
            forall from, until | from <= until && StartsAfter(older, from) :: DowntimeRecovered(older, h, from, until)
  {
    hide Table, ObservedStates, BucketDown, Downtime, ClockRuns, FirstAlone, StatesAgree;
    if StatesAgree(older, h) {
      forall from, until | from <= until && StartsAfter(older, from)
        ensures DowntimeRecovered(older, h, from, until)
      {
        SweepOfLogIsObserved(older, h, from, until);
      }
    } else {
      FirstInstant(older, h);
      assert StartsAfter(older, h[0].stamp);
      DisagreeAtFirst(older, h);
    }
  }

  lemma {:induction false} DisagreeAtFirst(older: seq<StateEvent>, h: History)
    requires ClockRuns(h) && h != [] && OlderRows(older, h) && FirstAlone(h) && !StatesAgree(older, h)
    ensures !DowntimeRecovered(older, h, h[0].stamp, h[0].stamp + 1)
  {
    hide Table, ObservedStates, BucketDown, Downtime, ClockRuns, FirstAlone;
    FirstInstant(older, h);
  }

  lemma {:induction false} OneInstant(initial: string, log: seq<StateEvent>, t: int)
    ensures Downtime(initial, log, t, t + 1) == if StateAt(initial, log, t) != RUNNING then 1 else 0
  {
    assert Downtime(initial, log, t + 1, t + 1) == 0;
  }

  /** In the millisecond of the first observation the table still says what it said before. */
  lemma {:induction false} FirstInstant(older: seq<StateEvent>, h: History)
    requires ClockRuns(h) && h != [] && OlderRows(older, h) && FirstAlone(h)
    ensures var from, known := h[0].stamp, FinalState(RUNNING, older);
            && BucketDown(Table(older, h), from, from + 1) == (if known != RUNNING then 1 else 0)
            && Downtime(known, ObservedStates(h), from, from + 1) == (if h[0].state != RUNNING then 1 else 0)
  {
    hide LogAfter, BucketDown, Downtime;
    var from, known := h[0].stamp, FinalState(RUNNING, older);
    TableIsSorted(older, h);
    BucketMeasures(Table(older, h), from, from + 1);
    OneInstant(RUNNING, Table(older, h), from);
    OneInstant(known, ObservedStates(h), from);
    StateAtConcat(RUNNING, older, AsStates(LogAfter(h)), from);
    LogAfterFirst(h);
    ConstantAfterFirst(known, AsStates(LogAfter(h)), from);
    var observed := ObservedStates(h);
    assert observed[0].ts == from && observed[0].toState == h[0].state;
    ConstantAfterFirst(h[0].state, observed[1..], from);
  }

  /**
    * The incidents are recovered in all those buckets exactly when the states agree, or the
    * container was first observed running and its first row, if any, says running.
    */
  lemma {:induction false} IncidentsExactlyWhen(older: seq<StateEvent>, h: History)
    requires ClockRuns(h) && h != [] && OlderRows(older, h) && FirstAlone(h)
    ensures StatesAgree(older, h) || (h[0].state == RUNNING && (LogAfter(h) == [] || LogAfter(h)[0].toState == RUNNING))
            <==>
            forall from, until | from <= until && StartsAfter(older, from) :: IncidentsRecovered(older, h, from, until)
  {
    hide LogAfter, ClockRuns, BucketIncidents, IncidentsIn, Table;
    var log, observed := AsStates(LogAfter(h)), ObservedStates(h);
    assert observed[0].ts == h[0].stamp && observed[0].toState == h[0].state;
    forall from, until | from <= until && StartsAfter(older, from)
      ensures (StatesAgree(older, h) || (h[0].state == RUNNING && (log == [] || log[0].toState == RUNNING))) ==>
                IncidentsRecovered(older, h, from, until)
    {
      SweptAndObserved(older, h, from, until);
    }
    if !StatesAgree(older, h) {
      LogAfterFirst(h);
      if h[0].state != RUNNING {
        SweptAndObserved(older, h, h[0].stamp, h[0].stamp + 1);
        assert !IncidentsRecovered(older, h, h[0].stamp, h[0].stamp + 1);
      } else if log != [] && log[0].toState != RUNNING {
        assert StartsAfter(older, log[0].ts);
        SweptAndObserved(older, h, log[0].ts, log[0].ts + 1);
        assert !IncidentsRecovered(older, h, log[0].ts, log[0].ts + 1);
      }
    }
  }

  /**
    * A container that was stopped, absent for one completed tick and created again is reported down
    * from then on although it runs.
    */
  lemma {:induction false} StaleRowCountsAsDown()
    ensures exists older: seq<StateEvent>, h: History ::
              && ClockRuns(h) && h != [] && OlderRows(older, h) && (forall c | c in h :: c.state == RUNNING)
              && BucketDown(Table(older, h), HOUR, 2 * HOUR) == HOUR
  {
    var older := [StateEvent(0, "exited")];
    var first := Observed("web", RUNNING, "healthy", 0, false, None, 60_000, 60_000);
    var h := [first, first.(now := 120_000, stamp := 120_000)];
    assert h[..1] == [first] && [first][..0] == [];
    FirstLog([first]);
    TrackRemembers([first]);
    assert LogAfter(h) == [];
    assert Table(older, h) == older;
    assert older[1..] == [];
    assert Earlier(older, HOUR) == older && During(older, HOUR, 2 * HOUR) == [];
  }

  lemma {:induction false} ConstantAfterFirst(initial: string, log: seq<StateEvent>, t: int)
    requires log == [] || log[0].ts > t
    ensures StateAt(initial, log, t) == initial
  {
  }

  lemma {:induction false} LogAfterFirst(h: History)
    requires h != [] && forall i | 0 < i < |h| :: h[i].stamp > h[0].stamp
    ensures forall i | 0 <= i < |LogAfter(h)| :: LogAfter(h)[i].ts > h[0].stamp
  {
    hide Next, Changed;
    if |h| == 1 {
      FirstLog(h);
    } else {
      LogAfterFirst(h[..|h| - 1]);
    }
  }

  // ---------- what the log records ----------

  /** The row tells what changed between observation `i` and the one before it. */
  ghost predicate RecordsChange(h: History, e: EventRecord, i: nat) {
    && 0 < i < |h| && Changed(Remember(h[i - 1]), h[i])
    && e.name == h[i].name && e.ts == h[i].stamp && e.exitCode == h[i].exitCode && e.oomKilled == h[i].oomKilled
    && e.fromState == h[i - 1].state && e.toState == h[i].state
    && (if h[i - 1].health == h[i].health then e.healthChange == None
        else e.healthChange == Some((h[i - 1].health, h[i].health)))
    && (e.newRestarts > 0 ==> e.newRestarts == h[i].restartCount - h[i - 1].restartCount)
  }

  lemma {:induction false} PrefixChange(h: History, n: nat, e: EventRecord, i: nat)
    requires n <= |h| && RecordsChange(h[..n], e, i)
    ensures RecordsChange(h, e, i)
  {
  }

  /** Every row records one change between neighbouring observations, and there are as many rows as changes. */
  lemma {:induction false} RowsAreTheChanges(h: History)
    ensures |LogAfter(h)| == |AllTransitions(h)|
    ensures forall e | e in LogAfter(h) :: exists i :: RecordsChange(h, e, i)
  {
    hide Next, Changed, Record, RecordsChange;
    if h != [] {
      var n := |h| - 1;
      RowsAreTheChanges(h[..n]);
      LastRow(h);
      forall e | e in LogAfter(h)
        ensures exists i :: RecordsChange(h, e, i)
      {
        if e in LogAfter(h[..n]) {
          var i :| RecordsChange(h[..n], e, i);
          PrefixChange(h, n, e, i);
        } else {
          assert RecordsChange(h, e, n);
        }
      }
    }
  }

  lemma {:induction false} LastRow(h: History)
    requires h != []
    ensures var n := |h| - 1;
            var emitted := Emitted(TrackAfter(h[..n]), h[n]);
            |emitted| == TransitionsOf(h, n) && forall e | e in emitted :: RecordsChange(h, e, n)
  {
    hide Changed, Next, TrackAfter;
    NextAfter(h);
  }

  /** A row is written exactly when state or health differ from the observation before, or the counter rose. */
  lemma {:induction false} RowWrittenIff(h: History)
    requires h != []
    ensures var n := |h| - 1;
            |LogAfter(h)| == |LogAfter(h[..n])| +
              (if n > 0 && (h[n].state != h[n - 1].state || h[n].health != h[n - 1].health ||
                            h[n].restartCount > h[n - 1].restartCount)
               then 1 else 0)
  {
    hide TrackAfter, Record;
    NextAfter(h);
  }

  /** The health a reader of the log ends up with. */
  ghost function LoggedHealth(initial: string, log: seq<EventRecord>): string {
    if log == [] then initial
    else
      var last := log[|log| - 1];
      if last.healthChange.Some? then last.healthChange.value.1 else LoggedHealth(initial, log[..|log| - 1])
  }

  ghost function LoggedRestarts(log: seq<EventRecord>): nat {
    if log == [] then 0 else LoggedRestarts(log[..|log| - 1]) + log[|log| - 1].newRestarts
  }

  /** How often the counter rose, by how much, between neighbouring observations. */
  ghost function SeenRestarts(h: History): nat {
    if |h| < 2 then 0
    else
      var rise := h[|h| - 1].restartCount - h[|h| - 2].restartCount;
      SeenRestarts(h[..|h| - 1]) + (if rise > 0 then rise else 0)
  }

  lemma {:induction false} LoggedSnoc(initial: string, log: seq<EventRecord>, e: EventRecord)
    ensures LoggedHealth(initial, log + [e]) ==
            if e.healthChange.Some? then e.healthChange.value.1 else LoggedHealth(initial, log)
    ensures LoggedRestarts(log + [e]) == LoggedRestarts(log) + e.newRestarts
  {
    assert (log + [e])[..|log|] == log;
  }

  /** The log also tells the health observed last, and accounts for every restart seen. */
  lemma {:induction false} HealthAndRestartsAreLogged(h: History)
    requires h != []
    ensures LoggedHealth(h[0].health, LogAfter(h)) == h[|h| - 1].health
    ensures LoggedRestarts(LogAfter(h)) == SeenRestarts(h)
  {
    hide Next, TrackAfter, LoggedHealth, LoggedRestarts;
    var n := |h| - 1;
    if n == 0 {
      FirstLog(h);
      NothingLogged(h[0].health);
    } else {
      HealthAndRestartsAreLogged(h[..n]);
      TrackRemembers(h[..n]);
      LoggedSnoc(h[0].health, LogAfter(h[..n]), Record(Remember(h[n - 1]), h[n]));
      assert LogAfter(h[..n]) + [] == LogAfter(h[..n]);
    }
  }

  lemma {:induction false} NothingLogged(initial: string)
    ensures LoggedHealth(initial, []) == initial && LoggedRestarts([]) == 0
  {
  }

  // ---------- pruned windows are recounts ----------

  lemma {:induction false} RecentConcat(a: seq<int>, b: seq<int>, now: int, window: nat)
    ensures Recent(a + b, now, window) == Recent(a, now, window) + Recent(b, now, window)
  {
    if b == [] {
      assert a + b == a;
    } else {
      var n := |b| - 1;
      assert (a + b)[..|a + b| - 1] == a + b[..n];
      RecentConcat(a, b[..n], now, window);
    }
  }

  ghost function Younger(times: seq<int>, now: int, window: nat): set<nat> {
    set i: nat | i < |times| && now - times[i] < window
  }

  /** What is recent are the times younger than the window, each as often as it was pushed. */
  lemma {:induction false} RecentIsYounger(times: seq<int>, now: int, window: nat)
    ensures |Recent(times, now, window)| == |Younger(times, now, window)|
    ensures forall t | t in Recent(times, now, window) :: t in times && now - t < window
  {
    var after := Younger(times, now, window);
    if times == [] {
      assert after == {};
    } else {
      var n := |times| - 1;
      RecentIsYounger(times[..n], now, window);
      forall i: nat | i < n
        ensures i in after <==> i in Younger(times[..n], now, window)
      {
        assert times[..n][i] == times[i];
      }
      OneMore(Younger(times[..n], now, window), after, n);
    }
  }

  /** What an earlier pruning dropped, a later one would have dropped as well. */
  lemma {:induction false} RecentTwice(times: seq<int>, earlier: int, now: int, window: nat)
    requires earlier <= now
    ensures Recent(Recent(times, earlier, window), now, window) == Recent(times, now, window)
  {
    if times != [] {
      var n := |times| - 1;
      RecentTwice(times[..n], earlier, now, window);
      RecentConcat(Recent(times[..n], earlier, window),
                   if earlier - times[n] < window then [times[n]] else [], now, window);
    }
  }

  lemma {:induction false} RecentOfNow(n: nat, now: int, window: nat)
    requires window > 0
    ensures Recent(Repeat(now, n), now, window) == Repeat(now, n)
  {
    if n > 0 {
      assert Repeat(now, n)[..n - 1] == Repeat(now, n - 1);
      RecentOfNow(n - 1, now, window);
    }
  }

  /** One update of a window, given that so far it agrees with the full record from its last update on. */
  lemma {:induction false} WindowUpdate(window: seq<int>, all: seq<int>, since: int, now: int, n: nat,
                                        width: nat, later: int)
    requires since <= now <= later && width > 0
    requires forall t | t >= since :: Recent(window, t, width) == Recent(all, t, width)
    ensures Recent(Recent(window, now, width) + Repeat(now, n), later, width) ==
            Recent(all + Repeat(now, n), later, width)
    ensures Recent(window, now, width) + Repeat(now, n) == Recent(all + Repeat(now, n), now, width)
  {
    RecentConcat(all, Repeat(now, n), later, width);
    RecentConcat(all, Repeat(now, n), now, width);
    RecentConcat(Recent(window, now, width), Repeat(now, n), later, width);
    RecentTwice(window, now, later, width);
    RecentOfNow(n, now, width);
  }

  ghost function RestartsOf(h: History, i: nat): nat
    requires i < |h|
  {
    if i == 0 then 0 else NewRestarts(Remember(h[i - 1]), h[i])
  }

  /** Every restart ever seen, at the time of the tick that saw it. */
  ghost function AllRestarts(h: History): seq<int> {
    if h == [] then []
    else AllRestarts(h[..|h| - 1]) + Repeat(h[|h| - 1].now, RestartsOf(h, |h| - 1))
  }

  ghost function TransitionsOf(h: History, i: nat): nat
    requires i < |h|
  {
    if i > 0 && Changed(Remember(h[i - 1]), h[i]) then 1 else 0
  }

  /** Every transition ever seen, at the time of the tick that saw it. */
  ghost function AllTransitions(h: History): seq<int> {
    if h == [] then []
    else AllTransitions(h[..|h| - 1]) + Repeat(h[|h| - 1].now, TransitionsOf(h, |h| - 1))
  }

  lemma {:induction false} NextAfter(h: History)
    requires h != []
    ensures var n := |h| - 1;
            var before := TrackAfter(h[..n]);
            && (before.prev == if n == 0 then None else Some(Remember(h[n - 1])))
            && TrackAfter(h).restarts == NextRestarts(before, h[n])
            && TrackAfter(h).transitions == NextTransitions(before, h[n])
            && TrackAfter(h).unhealthy == NextUnhealthy(before, h[n])
  {
    var n := |h| - 1;
    if n > 0 {
      TrackRemembers(h[..n]);
      assert h[..n][n - 1] == h[n - 1];
    } else {
      assert h[..n] == [];
    }
  }

  lemma {:induction false} RestartWindow(h: History, later: int)
    requires ClockRuns(h) && (h != [] ==> h[|h| - 1].now <= later)
    ensures Recent(TrackAfter(h).restarts, later, DAY) == Recent(AllRestarts(h), later, DAY)
    ensures h != [] && RestartsOf(h, |h| - 1) > 0 ==>
              TrackAfter(h).restarts == Recent(AllRestarts(h), h[|h| - 1].now, DAY)
  {
    hide TrackAfter, Changed, Recent;
    if h == [] {
      NothingTracked();
    } else {
      var n := |h| - 1;
      var now := h[n].now;
      PrefixClockRuns(h, n);
      NextAfter(h);
      forall t | t >= now
        ensures Recent(TrackAfter(h[..n]).restarts, t, DAY) == Recent(AllRestarts(h[..n]), t, DAY)
      {
        RestartWindow(h[..n], t);
      }
      WindowUpdate(TrackAfter(h[..n]).restarts, AllRestarts(h[..n]), now, now, RestartsOf(h, n), DAY, later);
      if RestartsOf(h, n) == 0 {
        assert Repeat(now, 0) == [];
        assert AllRestarts(h) == AllRestarts(h[..n]);
      }
    }
  }

  lemma {:induction false} NothingTracked()
    ensures TrackAfter([]) == UNKNOWN
  {
  }

  lemma {:induction false} TransitionWindow(h: History, later: int)
    requires ClockRuns(h) && (h != [] ==> h[|h| - 1].now <= later)
    ensures Recent(TrackAfter(h).transitions, later, HOUR) == Recent(AllTransitions(h), later, HOUR)
    ensures h != [] && TransitionsOf(h, |h| - 1) > 0 ==>
              TrackAfter(h).transitions == Recent(AllTransitions(h), h[|h| - 1].now, HOUR)
  {
    hide TrackAfter, Changed, Recent;
    if h == [] {
      NothingTracked();
    } else {
      var n := |h| - 1;
      var now := h[n].now;
      PrefixClockRuns(h, n);
      NextAfter(h);
      forall t | t >= now
        ensures Recent(TrackAfter(h[..n]).transitions, t, HOUR) == Recent(AllTransitions(h[..n]), t, HOUR)
      {
        TransitionWindow(h[..n], t);
      }
      WindowUpdate(TrackAfter(h[..n]).transitions, AllTransitions(h[..n]), now, now, TransitionsOf(h, n), HOUR, later);
      assert Repeat(now, 0) == [] && Repeat(now, 1) == [now];
      if TransitionsOf(h, n) == 0 {
        assert AllTransitions(h) == AllTransitions(h[..n]);
      }
    }
  }

  /**
    * Although the windows are pruned and only on use, the crash-loop alert fires at a restart
    * exactly when all restarts seen within the last 24 hours exceed 3, and reports their number.
    */
  lemma {:induction false} CrashLoopIsRecount(h: History)
    requires ClockRuns(h) && h != []
    ensures var n := |h| - 1;
            var count := |Recent(AllRestarts(h), h[n].now, DAY)|;
            forall k :: CrashLoop(h[n].name, k) in AlertsAt(h, n) <==> RestartsOf(h, n) > 0 && count > 3 && k == count
  {
    hide TrackAfter, Recent, Changed, AllRestarts;
    var n := |h| - 1;
    NextAfter(h);
    RestartWindow(h, h[n].now);
  }

  /** The flapping alert fires at a transition exactly when at least 3 transitions were seen within the last hour. */
  lemma {:induction false} FlappingIsRecount(h: History)
    requires ClockRuns(h) && h != []
    ensures var n := |h| - 1;
            var count := |Recent(AllTransitions(h), h[n].now, HOUR)|;
            forall k :: Flapping(h[n].name, k) in AlertsAt(h, n) <==>
              TransitionsOf(h, n) > 0 && count >= 3 && k == count
  {
    hide TrackAfter, Recent, Changed, AllTransitions;
    var n := |h| - 1;
    NextAfter(h);
    TransitionWindow(h, h[n].now);
  }

  /**
    * The out-of-memory alert fires exactly at observations that are, directly after one that was not,
    * killed for memory.
    */
  lemma {:induction false} OomAtTransition(h: History, i: nat)
    requires i < |h|
    ensures OomKilled(h[i].name) in AlertsAt(h, i) <==> i > 0 && h[i].oomKilled && !h[i - 1].oomKilled
  {
    hide TrackAfter, NextTransitions, NextRestarts, NextUnhealthy, Changed;
    var upTo := h[..i + 1];
    NextAfter(upTo);
    assert upTo[..i] == h[..i];
  }

  // ---------- one alert per unhealthy run ----------

  ghost predicate UnhealthyRun(h: History, a: nat, b: nat) {
    a < b <= |h| && forall i | a <= i < b :: h[i].health == UNHEALTHY
  }

  ghost predicate MaximalRun(h: History, a: nat, b: nat) {
    && UnhealthyRun(h, a, b)
    && (a == 0 || h[a - 1].health != UNHEALTHY)
    && (b == |h| || h[b].health != UNHEALTHY)
  }

  lemma {:induction false} StreakIsRunLength(h: History, a: nat)
    requires UnhealthyRun(h, a, |h|) && (a == 0 || h[a - 1].health != UNHEALTHY)
    ensures TrackAfter(h).unhealthy == |h| - a
  {
    hide TrackAfter;
    var n := |h| - 1;
    NextAfter(h);
    if a < n {
      assert forall i | a <= i < n :: h[..n][i] == h[i];
      StreakIsRunLength(h[..n], a);
    } else if n > 0 {
      NextAfter(h[..n]);
    } else {
      assert h[..n] == [];
      NothingTracked();
    }
  }

  /** In a maximal unhealthy run the alert fires once, at its second tick; outside such runs never. */
  lemma {:induction false} OneAlertPerRun(h: History, a: nat, b: nat, i: nat)
    requires MaximalRun(h, a, b) && a <= i < b
    ensures UnhealthySustained(h[i].name) in AlertsAt(h, i) <==> i == a + 1
  {
    hide TrackAfter;
    var upTo := h[..i + 1];
    assert forall k | a <= k <= i :: upTo[k] == h[k];
    assert a > 0 ==> upTo[a - 1] == h[a - 1];
    StreakIsRunLength(upTo, a);
    assert upTo[..i] == h[..i];
    NextAfter(upTo);
  }

  lemma {:induction false} NoAlertWhenHealthy(h: History, i: nat)
    requires i < |h| && h[i].health != UNHEALTHY
    ensures UnhealthySustained(h[i].name) !in AlertsAt(h, i)
  {
  }

  /** The alert fires exactly at the second observation of a maximal unhealthy run, so once for each that has two. */
  lemma {:induction false} UnhealthyAlertIff(h: History, i: nat)
    requires i < |h|
    ensures UnhealthySustained(h[i].name) in AlertsAt(h, i) <==>
              && i >= 1 && h[i].health == UNHEALTHY && h[i - 1].health == UNHEALTHY
              && (i >= 2 ==> h[i - 2].health != UNHEALTHY)
  {
    hide AlertsAt;
    if h[i].health != UNHEALTHY {
      NoAlertWhenHealthy(h, i);
    } else {
      var a, b := RunAround(h, i);
      OneAlertPerRun(h, a, b, i);
    }
  }

  lemma {:induction false} RunAround(h: History, i: nat) returns (a: nat, b: nat)
    requires i < |h| && h[i].health == UNHEALTHY
    ensures MaximalRun(h, a, b) && a <= i < b
  {
    a, b := i, i + 1;
    while a > 0 && h[a - 1].health == UNHEALTHY
      invariant a <= i && UnhealthyRun(h, a, b)
    {
      a := a - 1;
    }
    while b < |h| && h[b].health == UNHEALTHY
      invariant i < b <= |h| && UnhealthyRun(h, a, b)
    {
      b := b + 1;
    }
  }
}
