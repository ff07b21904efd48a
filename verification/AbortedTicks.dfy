/**
  * Runs of attempts at one container, some of which abort. The tick writes the row of a change before
  * it remembers the observation, so an abort in between leaves the two apart.
  */
module AbortedTicks {
  import opened Availability
  import opened Buckets
  import opened ContainerTrack
  import opened JsValues

  type Run = seq<Attempt>

  ghost function Advance(t: Track, run: Run): Track {
    if run == [] then t else Take(Advance(t, run[..|run| - 1]), run[|run| - 1])
  }

  ghost function RowsFrom(t: Track, run: Run): seq<EventRecord> {
    if run == [] then [] else RowsFrom(t, run[..|run| - 1]) + RowsOf(Advance(t, run[..|run| - 1]), run[|run| - 1])
  }

  ghost function RunTrack(run: Run): Track { Advance(UNKNOWN, run) }

  ghost function RunLog(run: Run): seq<EventRecord> { RowsFrom(UNKNOWN, run) }

  /** Attempts fail only where something is awaited. */
  ghost predicate Legal(run: Run) { forall i | 0 <= i < |run| :: Possible(RunTrack(run[..i]), run[i]) }

  lemma {:induction false} AdvanceSnoc(t: Track, run: Run, a: Attempt)
    ensures Advance(t, run + [a]) == Take(Advance(t, run), a)
    ensures RowsFrom(t, run + [a]) == RowsFrom(t, run) + RowsOf(Advance(t, run), a)
  {
    assert (run + [a])[..|run|] == run;
  }

  lemma {:induction false} Associate<T>(a: seq<T>, b: seq<T>, c: seq<T>)
    ensures a + (b + c) == (a + b) + c
  {
  }

  lemma {:induction false} AdvanceConcat(t: Track, a: Run, b: Run)
    ensures Advance(t, a + b) == Advance(Advance(t, a), b)
    ensures RowsFrom(t, a + b) == RowsFrom(t, a) + RowsFrom(Advance(t, a), b)
  {
    hide Take, RowsOf;
    if b == [] {
      assert a + b == a && RowsFrom(t, a) + [] == RowsFrom(t, a);
    } else {
      var n := |b| - 1;
      AdvanceConcat(t, a, b[..n]);
      assert (a + b)[..|a + b| - 1] == a + b[..n];
      Associate(RowsFrom(t, a), RowsFrom(Advance(t, a), b[..n]), RowsOf(Advance(t, a + b[..n]), b[n]));
    }
  }

  lemma {:induction false} LegalSnoc(run: Run, a: Attempt)
    requires Legal(run) && Possible(RunTrack(run), a)
    ensures Legal(run + [a])
  {
    hide RunTrack, Possible;
    forall i | 0 <= i < |run + [a]|
      ensures Possible(RunTrack((run + [a])[..i]), (run + [a])[i])
    {
      assert (run + [a])[..i] == run[..i];
      assert run[..|run|] == run;
    }
  }

  /** The same for attempts that continue from some memory. */
  ghost predicate LegalFrom(t: Track, run: Run) { forall i | 0 <= i < |run| :: Possible(Advance(t, run[..i]), run[i]) }

  lemma {:induction false} LegalFromSnoc(t: Track, run: Run, a: Attempt)
    requires LegalFrom(t, run) && Possible(Advance(t, run), a)
    ensures LegalFrom(t, run + [a])
  {
    hide Advance, Possible;
    forall i | 0 <= i < |run + [a]|
      ensures Possible(Advance(t, (run + [a])[..i]), (run + [a])[i])
    {
      assert (run + [a])[..i] == run[..i];
      assert run[..|run|] == run;
    }
  }

  lemma {:induction false} LegalConcat(run: Run, more: Run)
    requires Legal(run) && LegalFrom(RunTrack(run), more)
    ensures Legal(run + more)
  {
    hide Advance, Possible;
    forall i | 0 <= i < |run + more|
      ensures Possible(RunTrack((run + more)[..i]), (run + more)[i])
    {
      if i < |run| {
        assert (run + more)[..i] == run[..i];
      } else {
        assert (run + more)[..i] == run + more[..i - |run|];
        AdvanceConcat(UNKNOWN, run, more[..i - |run|]);
      }
    }
  }

  // ---------- runs that never abort ----------

  ghost function AllThrough(h: History): Run { seq(|h|, i requires 0 <= i < |h| => Through(h[i])) }

  /** Without aborts, memory and rows are those of the observations. */
  lemma {:induction false} CompletedRun(h: History)
    ensures RunTrack(AllThrough(h)) == TrackAfter(h) && RunLog(AllThrough(h)) == LogAfter(h) && Legal(AllThrough(h))
  {
    if h == [] {
      assert AllThrough(h) == [];
    } else {
      hide Next, Emitted;
      var n := |h| - 1;
      CompletedRun(h[..n]);
      assert AllThrough(h) == AllThrough(h[..n]) + [Through(h[n])];
      AdvanceSnoc(UNKNOWN, AllThrough(h[..n]), Through(h[n]));
      LegalSnoc(AllThrough(h[..n]), Through(h[n]));
    }
  }

  /** The observations that got through. */
  ghost function GotThrough(run: Run): History {
    if run == [] then []
    else GotThrough(run[..|run| - 1]) + (if run[|run| - 1].Through? then [run[|run| - 1].c] else [])
  }

  /** What is remembered is the last of them. */
  lemma {:induction false} LastThrough(run: Run)
    ensures RunTrack(run).prev ==
            if GotThrough(run) == [] then None else Some(Remember(GotThrough(run)[|GotThrough(run)| - 1]))
  {
    hide NextTransitions, NextRestarts, NextUnhealthy;
    if run != [] {
      LastThrough(run[..|run| - 1]);
    }
  }

  // ---------- when the log is right ----------

  ghost predicate WritesRow(run: Run, k: nat)
    requires k < |run|
  {
    RowsOf(RunTrack(run[..k]), run[k]) != []
  }

  /** The state of the first observation that got through. */
  ghost function FirstState(run: Run): string {
    if run == [] then RUNNING
    else if RunTrack(run[..|run| - 1]).prev.None? then run[|run| - 1].c.state
    else FirstState(run[..|run| - 1])
  }

  ghost predicate Remembers(run: Run) { RunTrack(run).prev.Some? }

  /** The state observed last by a tick that got through. */
  ghost function RememberedState(run: Run): string
    requires Remembers(run)
  {
    RunTrack(run).prev.value.state
  }

  /** The state the log ends in. */
  ghost function LoggedState(run: Run): string { LastState(FirstState(run), RunLog(run)) }

  /** Attempt `k` failed after writing a state other than the remembered one, and nothing was written since. */
  ghost predicate LostAt(run: Run, k: nat)
    requires k < |run|
  {
    && run[k].Failed? && WritesRow(run, k)
    && Remembers(run[..k]) && run[k].c.state != RememberedState(run[..k])
    && forall j | k < j < |run| :: !WritesRow(run, j)
  }

  ghost predicate Lost(run: Run) { exists k | 0 <= k < |run| :: LostAt(run, k) }

  lemma {:induction false} PrevKept(t: Track, a: Attempt)
    ensures Take(t, a).prev == if a.Through? then Some(Remember(a.c)) else t.prev
    ensures RowsOf(t, a) != [] ==>
            t.prev.Some? && Changed(t.prev.value, a.c) && |RowsOf(t, a)| == 1 && RowsOf(t, a)[0].toState == a.c.state
    ensures a.Through? && t.prev.Some? && RowsOf(t, a) == [] ==> a.c.state == t.prev.value.state
  {
    hide NextTransitions, NextRestarts, NextUnhealthy;
  }

  lemma {:induction false} RowDate(t: Track, a: Attempt)
    ensures |RowsOf(t, a)| <= 1 && forall e | e in RowsOf(t, a) :: e.ts == a.c.stamp
  {
    hide Changed;
  }

  lemma {:induction false} SameRow(run: Run, j: nat)
    requires j < |run| - 1
    ensures WritesRow(run, j) == WritesRow(run[..|run| - 1], j)
  {
    hide RunTrack, RowsOf;
    assert run[..|run| - 1][..j] == run[..j];
  }

  lemma {:induction false} LostShorter(run: Run, k: nat)
    requires run != [] && k < |run| - 1
    ensures LostAt(run, k) <==> LostAt(run[..|run| - 1], k) && !WritesRow(run, |run| - 1)
  {
    hide RunTrack, RowsOf;
    var n := |run| - 1;
    assert run[..n][..k] == run[..k];
    forall j | 0 <= j < n
      ensures WritesRow(run, j) == WritesRow(run[..n], j)
    {
      SameRow(run, j);
    }
  }

  lemma {:induction false} LostIfShorter(run: Run)
    requires run != []
    ensures Lost(run) <==> (if WritesRow(run, |run| - 1) then LostAt(run, |run| - 1) else Lost(run[..|run| - 1]))
  {
    hide LostAt, WritesRow;
    var n := |run| - 1;
    forall k: nat | k < n
      ensures LostAt(run, k) <==> LostAt(run[..n], k) && !WritesRow(run, n)
    {
      LostShorter(run, k);
    }
    LastLost(run);
  }

  lemma {:induction false} LastLost(run: Run)
    requires run != []
    ensures LostAt(run, |run| - 1) ==> WritesRow(run, |run| - 1)
  {
  }

  lemma {:induction false} NoRowYet(run: Run)
    requires !Remembers(run)
    ensures RunLog(run) == [] && !Lost(run)
  {
    hide RowsOf, Take, LostAt;
    if run != [] {
      var n := |run| - 1;
      PrevKept(RunTrack(run[..n]), run[n]);
      NoRowYet(run[..n]);
      LostIfShorter(run);
    }
  }

  /** One attempt on, in terms of what was remembered and logged before. */
  lemma {:induction false} AttemptStep(run: Run)
    requires run != [] && Remembers(run)
    ensures var n := |run| - 1;
            var a, before := run[n], run[..n];
            if a.Through? then
              && RememberedState(run) == a.c.state
              && (Remembers(before) && !WritesRow(run, n) ==> a.c.state == RememberedState(before))
              && (!Remembers(before) ==> !WritesRow(run, n) && FirstState(run) == a.c.state)
            else Remembers(before) && RememberedState(run) == RememberedState(before)
    ensures var n := |run| - 1;
            && (WritesRow(run, n) ==> LoggedState(run) == run[n].c.state)
            && (!WritesRow(run, n) && Remembers(run[..n]) ==> LoggedState(run) == LoggedState(run[..n]))
  {
    hide RowsOf, Take, Changed;
    var n := |run| - 1;
    PrevKept(RunTrack(run[..n]), run[n]);
    assert RunLog(run[..n]) + [] == RunLog(run[..n]);
  }

  /**
    * In every run, the log ends in the state observed last by a tick that got through, unless the
    * last row was written by an aborted tick that saw another state than the remembered one.
    */
  lemma {:induction false} LogIsRightIff(run: Run)
    requires Remembers(run)
    ensures LoggedState(run) == RememberedState(run) <==> !Lost(run)
    ensures run[|run| - 1].Through? ==> RememberedState(run) == run[|run| - 1].c.state
  {
    hide LoggedState, RememberedState, WritesRow, RunTrack;
    var n := |run| - 1;
    NotEmpty(run);
    AttemptStep(run);
    LostIfShorter(run);
    if Remembers(run[..n]) {
      LogIsRightIff(run[..n]);
      LostLast(run);
    } else {
      NoRowYet(run[..n]);
      FirstThrough(run);
    }
  }

  lemma {:induction false} NotEmpty(run: Run)
    requires Remembers(run)
    ensures run != []
  {
  }

  lemma {:induction false} FirstThrough(run: Run)
    requires run != [] && !Remembers(run[..|run| - 1]) && Remembers(run)
    ensures LoggedState(run) == RememberedState(run) && !WritesRow(run, |run| - 1)
  {
    hide Take, RowsOf;
    var n := |run| - 1;
    PrevKept(RunTrack(run[..n]), run[n]);
    NoRowYet(run[..n]);
  }

  lemma {:induction false} LostLast(run: Run)
    requires run != [] && Remembers(run[..|run| - 1])
    ensures var n := |run| - 1;
            LostAt(run, n) <==> run[n].Failed? && WritesRow(run, n) && run[n].c.state != RememberedState(run[..n])
  {
    hide RememberedState, WritesRow;
  }

  /** Attempt `k` failed at the dispatch of an alert that was due for what it saw. */
  ghost predicate FailedAtAlert(run: Run, k: nat)
    requires k < |run|
  {
    run[k].Failed? && run[k].stop != BeforeRow && Alerts(RunTrack(run[..k]), run[k].c) != []
  }

  lemma {:induction false} WrittenMeansAlert(run: Run, k: nat)
    requires Legal(run) && k < |run| && run[k].Failed? && WritesRow(run, k)
    ensures FailedAtAlert(run, k)
  {
    assert Possible(RunTrack(run[..k]), run[k]);
    hide RunTrack, FlappingAlerts, OomAlerts, CrashAlerts, UnhealthyAlerts, Emitted;
  }

  /** Until the next row, the log ends in the state of the last one. */
  lemma {:induction false} LastRowSays(run: Run, k: nat)
    requires k < |run| && WritesRow(run, k) && forall j | k < j < |run| :: !WritesRow(run, j)
    ensures Remembers(run) && LoggedState(run) == run[k].c.state
  {
    hide LoggedState, RememberedState, RowsOf, Take;
    var n := |run| - 1;
    PrevKept(RunTrack(run[..n]), run[n]);
    if k < n {
      forall j | 0 <= j < n
        ensures WritesRow(run, j) == WritesRow(run[..n], j)
      {
        SameRow(run, j);
      }
      LastRowSays(run[..n], k);
    }
    AttemptStep(run);
  }

  /**
    * Whenever the log ends in another state than the remembered one, an attempt saw that state and
    * failed at an alert that was due. Aborts before the row do no harm.
    */
  lemma {:induction false} LossNeedsAFailedAlert(run: Run)
    requires Legal(run) && Remembers(run) && LoggedState(run) != RememberedState(run)
    ensures exists k: nat :: k < |run| && FailedAtAlert(run, k) && run[k].c.state == LoggedState(run)
  {
    hide LoggedState, RememberedState, WritesRow, RunTrack, Possible, Alerts;
    LogIsRightIff(run);
    var k: nat :| k < |run| && LostAt(run, k);
    WrittenMeansAlert(run, k);
    LastRowSays(run, k);
  }

  // ---------- for how long it stays lost ----------

  /** From here on every tick finds what was remembered, whether or not it gets through. */
  ghost predicate Quiet(run: Run, more: Run) {
    forall j | 0 <= j < |more| ::
      Remembers(run + more[..j]) && !Changed(RunTrack(run + more[..j]).prev.value, more[j].c)
  }

  lemma {:induction false} QuietPrefix(run: Run, more: Run, n: nat)
    requires Quiet(run, more) && n <= |more|
    ensures Quiet(run, more[..n])
  {
    hide RunTrack, Changed;
    forall j | 0 <= j < n
      ensures Remembers(run + more[..n][..j]) && !Changed(RunTrack(run + more[..n][..j]).prev.value, more[..n][j].c)
    {
      assert more[..n][..j] == more[..j];
    }
  }

  lemma {:induction false} QuietAttempt(run: Run, a: Attempt)
    requires Remembers(run) && !Changed(RunTrack(run).prev.value, a.c)
    ensures RunLog(run + [a]) == RunLog(run) && !WritesRow(run + [a], |run|)
    ensures Remembers(run + [a]) && RememberedState(run + [a]) == RememberedState(run) == a.c.state
    ensures FirstState(run + [a]) == FirstState(run)
  {
    hide Take, RowsOf;
    AdvanceSnoc(UNKNOWN, run, a);
    PrevKept(RunTrack(run), a);
    UnchangedState(RunTrack(run).prev.value, a.c);
    assert (run + [a])[..|run|] == run;
    assert RunLog(run) + [] == RunLog(run);
  }

  /**
    * A lost recovery stays lost, however many ticks follow, until one sees a change against what was
    * remembered: all of them observe the remembered state, and the log keeps ending in the other.
    */
  lemma {:induction false} LostUntilNextChange(run: Run, more: Run)
    requires Remembers(run) && Lost(run) && Quiet(run, more)
    ensures Lost(run + more) && RunLog(run + more) == RunLog(run)
    ensures Remembers(run + more) && RememberedState(run + more) == RememberedState(run)
    ensures LoggedState(run + more) == LoggedState(run) != RememberedState(run)
    ensures forall j | 0 <= j < |more| :: more[j].c.state == RememberedState(run)
  {
    hide RunTrack, Changed, RunLog, WritesRow, LostAt, RememberedState;
    if more == [] {
      assert run + more == run;
      LogIsRightIff(run);
    } else {
      var n := |more| - 1;
      QuietPrefix(run, more, n);
      LostUntilNextChange(run, more[..n]);
      var before := run + more[..n];
      assert run + more == before + [more[n]];
      assert more[..n] == more[..n][..n];
      QuietAttempt(before, more[n]);
      assert (before + [more[n]])[..|before|] == before;
      LostIfShorter(before + [more[n]]);
    }
  }

  /** The next change seen by a tick that gets through puts the log right. */
  lemma {:induction false} NextChangeHeals(run: Run, c: Observed)
    requires Remembers(run) && Changed(RunTrack(run).prev.value, c)
    ensures !Lost(run + [Through(c)]) && LoggedState(run + [Through(c)]) == c.state
  {
    hide Take, Record, Changed;
    var longer := run + [Through(c)];
    assert longer[..|run|] == run;
    AdvanceSnoc(UNKNOWN, run, Through(c));
    PrevKept(RunTrack(run), Through(c));
    LogIsRightIff(longer);
    AttemptStep(longer);
  }

  lemma {:induction false} AlwaysDown(initial: string, log: seq<StateEvent>, from: int, until: int)
    requires from <= until && forall t | from <= t < until :: StateAt(initial, log, t) != RUNNING
    ensures Downtime(initial, log, from, until) == until - from
    decreases until - from
  {
    if from < until {
      AlwaysDown(initial, log, from + 1, until);
    }
  }

  /** Meanwhile the rollup reports the container down in every bucket, although every tick sees it running. */
  lemma {:induction false} LostRecoveryCountsAsDown(older: seq<StateEvent>, run: Run, more: Run, from: int, until: int)
    requires Remembers(run) && Lost(run) && Quiet(run, more) && RememberedState(run) == RUNNING
    requires Sorted(older + AsStates(RunLog(run))) && from <= until
    requires forall e | e in older + AsStates(RunLog(run)) :: e.ts <= from
    ensures BucketDown(older + AsStates(RunLog(run + more)), from, until) == until - from
    ensures forall j | 0 <= j < |more| :: more[j].c.state == RUNNING
  {
    hide RunTrack, RunLog, Lost, Quiet, RememberedState, BucketDown, StateAt, FirstState;
    var table := older + AsStates(RunLog(run));
    LostUntilNextChange(run, more);
    LogNotEmpty(run);
    assert FinalState(RUNNING, table) == LoggedState(run);
    forall t | from <= t < until
      ensures StateAt(RUNNING, table, t) != RUNNING
    {
      forall i | 0 <= i < |table|
        ensures table[i].ts <= t
      {
        assert table[i] in table;
      }
      StateAtEnd(RUNNING, table, t);
    }
    AlwaysDown(RUNNING, table, from, until);
    BucketMeasures(table, from, until);
  }

  lemma {:induction false} LogNotEmpty(run: Run)
    requires Lost(run)
    ensures RunLog(run) != []
  {
    hide RowsOf, Take, LostAt;
    if run != [] {
      LostIfShorter(run);
      if !WritesRow(run, |run| - 1) {
        LogNotEmpty(run[..|run| - 1]);
      }
    }
  }

  // ---------- it does happen ----------

  /** A container named "web" as one tick sees it. */
  function Web(state: string, health: string, now: int): Observed {
    Observed("web", state, health, 0, false, None, now, now)
  }

  /** What is remembered of it after its observations so far. */
  function WebTrack(health: string, transitions: seq<int>): Track {
    Track(Some(Previous(RUNNING, health, 0, false)), [], transitions, 0)
  }

  const STARTING := "starting"
  const HEALTHY := "healthy"
  const EXITED := "exited"

  /** It changes its health twice and then stops, while the flapping alert of the stop cannot be dispatched. */
  ghost function FlappingStop(): Run {
    [Through(Web(RUNNING, STARTING, 0)),
     Through(Web(RUNNING, HEALTHY, 60_000)),
     Through(Web(RUNNING, STARTING, 120_000)),
     Failed(Web(EXITED, STARTING, 180_000), AtFlapping),
     Through(Web(RUNNING, STARTING, 240_000))]
  }

  lemma {:induction false} RecentAll(times: seq<int>, now: int, window: nat)
    requires forall i | 0 <= i < |times| :: now - times[i] < window
    ensures Recent(times, now, window) == times
  {
    if times != [] {
      RecentAll(times[..|times| - 1], now, window);
    }
  }

  /** One change of health of the running container. */
  lemma {:induction false} HealthStep(from: string, health: string, times: seq<int>, now: int)
    requires from != health && health != UNHEALTHY && forall i | 0 <= i < |times| :: now - times[i] < HOUR
    ensures Next(WebTrack(from, times), Web(RUNNING, health, now)) == WebTrack(health, times + [now])
  {
    RecentAll(times, now, HOUR);
  }

  lemma {:induction false} FirstStep()
    ensures Next(UNKNOWN, Web(RUNNING, STARTING, 0)) == WebTrack(STARTING, [])
  {
    assert |STARTING| != |UNHEALTHY|;
  }

  /** The stop is the third transition within the hour, so an alert is due; only the transition window is updated. */
  lemma {:induction false} StopStep()
    ensures var t, c := WebTrack(STARTING, [60_000, 120_000]), Web(EXITED, STARTING, 180_000);
            && Changed(t.prev.value, c) && CanFail(t, c, AtFlapping)
            && Partly(t, c, AtFlapping).prev == t.prev && PartRows(t, c, AtFlapping) != []
  {
    assert |EXITED| != |RUNNING|;
    RecentAll([60_000, 120_000], 180_000, HOUR);
  }

  lemma {:induction false} ThreeThrough(a: Observed, b: Observed, c: Observed)
    ensures RunTrack([Through(a), Through(b), Through(c)]) == Next(Next(Next(UNKNOWN, a), b), c)
  {
    hide Next;
    assert [Through(a), Through(b), Through(c)] == [] + [Through(a)] + [Through(b)] + [Through(c)];
    AdvanceSnoc(UNKNOWN, [], Through(a));
    AdvanceSnoc(UNKNOWN, [] + [Through(a)], Through(b));
    AdvanceSnoc(UNKNOWN, [] + [Through(a)] + [Through(b)], Through(c));
  }

  lemma {:induction false} TwoHealthChanges()
    ensures Next(Next(Next(UNKNOWN, Web(RUNNING, STARTING, 0)), Web(RUNNING, HEALTHY, 60_000)),
                 Web(RUNNING, STARTING, 120_000)) == WebTrack(STARTING, [60_000, 120_000])
  {
    hide Next, Web, WebTrack;
    assert |STARTING| != |HEALTHY| && |HEALTHY| != |UNHEALTHY| && |STARTING| != |UNHEALTHY|;
    FirstStep();
    HealthStep(STARTING, HEALTHY, [], 60_000);
    HealthStep(HEALTHY, STARTING, [60_000], 120_000);
    assert [] + [60_000] == [60_000] && [60_000] + [120_000] == [60_000, 120_000];
  }

  lemma {:induction false} FlappingStopPrefixes()
    ensures var run := FlappingStop();
            && RunTrack(run[..3]) == WebTrack(STARTING, [60_000, 120_000])
            && run[..4] == run[..3] + [run[3]] && run == run[..4] + [run[4]]
  {
    hide RunTrack, Next, Web, WebTrack;
    var run := FlappingStop();
    assert run[..3] == [run[0], run[1], run[2]];
    ThreeThrough(run[0].c, run[1].c, run[2].c);
    TwoHealthChanges();
  }

  /** Every step of that run is possible, and it ends with the log saying "exited" of a container observed running. */
  lemma {:induction false} FlappingAbortLosesRecovery()
    ensures var run := FlappingStop();
            && Legal(run) && Lost(run) && Remembers(run) && RememberedState(run) == RUNNING
            && run[|run| - 1] == Through(Web(RUNNING, STARTING, 240_000)) && LoggedState(run) == EXITED
  {
    hide RunTrack, RunLog, Possible, Lost, WebTrack, Web, Changed, CanFail, FirstState;
    var run := FlappingStop();
    FlappingStopPrefixes();
    forall i | 0 <= i < |run|
      ensures Possible(RunTrack(run[..i]), run[i])
    {
      FlappingPossible(i);
    }
    FlappingLost();
    var stopped := run[..4];
    WebQuiet();
    QuietAttempt(stopped, run[4]);
    LogIsRightIff(stopped);
    LostIfShorter(run);
  }

  lemma {:induction false} FlappingPossible(i: nat)
    requires i < 5
    ensures Possible(RunTrack(FlappingStop()[..i]), FlappingStop()[i])
  {
    hide RunTrack, CanFail;
    FlappingStopPrefixes();
    StopStep();
  }

  lemma {:induction false} FlappingLost()
    ensures var stopped := FlappingStop()[..4];
            && Remembers(stopped) && RememberedState(stopped) == RUNNING && Lost(stopped)
            && LoggedState(stopped) == EXITED
            && RunTrack(stopped).prev == WebTrack(STARTING, []).prev
  {
    hide Emitted, CanFail, Changed, FirstState;
    var run := FlappingStop();
    var stopped := run[..4];
    FlappingStopPrefixes();
    StopStep();
    assert stopped[..3] == run[..3];
    AdvanceSnoc(UNKNOWN, run[..3], run[3]);
    PrevKept(RunTrack(run[..3]), run[3]);
    LostLast(stopped);
    assert |EXITED| != |RUNNING|;
    assert LostAt(stopped, 3);
    AttemptStep(stopped);
  }

  lemma {:induction false} WebQuiet()
    ensures !Changed(WebTrack(STARTING, []).prev.value, Web(RUNNING, STARTING, 240_000))
  {
  }
}
