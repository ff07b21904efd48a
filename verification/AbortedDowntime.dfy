/**
  * What the rollup makes of the rows of a run some of whose attempts abort, against what the
  * attempts that got through observed.
  */
module AbortedDowntime {
  import opened AbortedTicks
  import opened Availability
  import opened ContainerTrack

  ghost predicate StampsInOrder(run: Run) { forall i, j | 0 <= i < j < |run| :: run[i].c.stamp <= run[j].c.stamp }

  /** One attempt per tick: each is stamped after the one before. */
  ghost predicate StampsApart(run: Run) { forall i, j | 0 <= i < j < |run| :: run[i].c.stamp < run[j].c.stamp }

  /** The container's whole table: rows of earlier presences, then those of the run. */
  ghost function RunTable(older: seq<StateEvent>, run: Run): seq<StateEvent> { older + AsStates(RunLog(run)) }

  /** Those earlier rows are in order, and before the run. */
  ghost predicate OlderThanRun(older: seq<StateEvent>, run: Run) {
    Sorted(older) && forall i, j | 0 <= i < |older| && 0 <= j < |run| :: older[i].ts < run[j].c.stamp
  }

  /** No failed attempt wrote a row that says otherwise on running than what stayed remembered. */
  ghost predicate Harmless(run: Run) { forall k | 0 <= k < |run| :: HarmlessAt(run, k) }

  ghost predicate HarmlessAt(run: Run, k: nat)
    requires k < |run|
  {
    run[k].Failed? && WritesRow(run, k) && Remembers(run[..k]) ==>
      (run[k].c.state == RUNNING <==> RememberedState(run[..k]) == RUNNING)
  }

  /** Older rows and the first observation that got through are running or not alike. */
  ghost predicate StartsAlike(known: string, run: Run) {
    GotThrough(run) != [] ==> (known == RUNNING <==> GotThrough(run)[0].state == RUNNING)
  }

  /** What the table says after the run, and what was observed last. */
  ghost function TableState(known: string, run: Run): string { LastState(known, RunLog(run)) }

  ghost function ObservedState(known: string, run: Run): string { FinalState(known, ObservedStates(GotThrough(run))) }

  ghost predicate AlikeAfter(known: string, run: Run) {
    TableState(known, run) == RUNNING <==> ObservedState(known, run) == RUNNING
  }

  // ---------- state by state ----------

  /** What one attempt does to both states. */
  lemma {:induction false} StatesNext(known: string, run: Run)
    requires run != []
    ensures var n := |run| - 1;
            var a, before := run[n], run[..n];
            && TableState(known, run) == (if WritesRow(run, n) then a.c.state else TableState(known, before))
            && ObservedState(known, run) == (if a.Through? then a.c.state else ObservedState(known, before))
            && (WritesRow(run, n) ==> Remembers(before))
            && (Remembers(before) ==>
                  GotThrough(before) != [] && ObservedState(known, before) == RememberedState(before))
            && (!Remembers(before) ==> GotThrough(before) == [] && ObservedState(known, before) == known)
            && (a.Through? && Remembers(before) && !WritesRow(run, n) ==> a.c.state == RememberedState(before))
  {
    hide Take, RowsOf, Changed;
    var n := |run| - 1;
    PrevKept(RunTrack(run[..n]), run[n]);
    LastThrough(run[..n]);
    assert RunLog(run[..n]) + [] == RunLog(run[..n]);
    assert GotThrough(run[..n]) + [] == GotThrough(run[..n]);
  }

  lemma {:induction false} NothingBefore(known: string, run: Run)
    requires GotThrough(run) == []
    ensures RunLog(run) == [] && TableState(known, run) == ObservedState(known, run) == known
  {
    hide RunTrack, RowsOf, Lost;
    LastThrough(run);
    NoRowYet(run);
  }

  lemma {:induction false} FirstKept(run: Run, n: nat)
    requires n <= |run| && GotThrough(run[..n]) != []
    ensures GotThrough(run) != [] && GotThrough(run)[0] == GotThrough(run[..n])[0]
  {
    if n < |run| {
      assert run[..|run| - 1][..n] == run[..n];
      FirstKept(run[..|run| - 1], n);
    } else {
      assert run[..n] == run;
    }
  }

  lemma {:induction false} HarmlessPrefix(run: Run, n: nat)
    requires Harmless(run) && n <= |run|
    ensures Harmless(run[..n])
  {
    hide RunTrack, RowsOf;
    forall k | 0 <= k < n
      ensures HarmlessAt(run[..n], k)
    {
      assert run[..n][..k] == run[..k];
      assert HarmlessAt(run, k);
    }
  }

  /** Harmless aborts leave table and observation alike. */
  lemma {:induction false} HarmlessIsAlike(known: string, run: Run)
    requires Harmless(run) && StartsAlike(known, run)
    ensures AlikeAfter(known, run)
  {
    hide TableState, ObservedState, RememberedState, WritesRow, GotThrough, Remembers;
    if GotThrough(run) == [] {
      NothingBefore(known, run);
    } else {
      SomethingThrough(run);
      var n := |run| - 1;
      StatesNext(known, run);
      HarmlessPrefix(run, n);
      if GotThrough(run[..n]) != [] {
        FirstKept(run, n);
        HarmlessIsAlike(known, run[..n]);
        assert HarmlessAt(run, n);
      } else {
        NothingBefore(known, run[..n]);
        FirstIsLast(run);
      }
    }
  }

  lemma {:induction false} SomethingThrough(run: Run)
    requires GotThrough(run) != []
    ensures run != []
  {
  }

  lemma {:induction false} FirstIsLast(run: Run)
    requires run != [] && GotThrough(run[..|run| - 1]) == [] && GotThrough(run) != []
    ensures run[|run| - 1].Through? && GotThrough(run)[0] == run[|run| - 1].c
  {
  }

  /** A row that is not harmless sets table and observation apart, provided they were alike before. */
  lemma {:induction false} HarmSetsApart(known: string, run: Run, k: nat)
    requires k < |run| && !HarmlessAt(run, k)
    ensures !AlikeAfter(known, run[..k + 1])
  {
    hide TableState, ObservedState, RunTrack, RowsOf, GotThrough;
    var upTo := run[..k + 1];
    assert upTo[..k] == run[..k] && upTo[k] == run[k];
    StatesNext(known, upTo);
  }

  /** Table and observation are alike after every attempt exactly when they start alike and all aborts are harmless. */
  lemma {:induction false} AlwaysAlikeIff(known: string, run: Run)
    ensures (forall n | 0 <= n <= |run| :: AlikeAfter(known, run[..n])) <==> StartsAlike(known, run) && Harmless(run)
  {
    hide AlikeAfter, HarmlessAt, StartsAlike;
    if StartsAlike(known, run) && Harmless(run) {
      forall n | 0 <= n <= |run|
        ensures AlikeAfter(known, run[..n])
      {
        HarmlessPrefix(run, n);
        StartsAlikePrefix(known, run, n);
        HarmlessIsAlike(known, run[..n]);
      }
    }
    if k :| 0 <= k < |run| && !HarmlessAt(run, k) {
      HarmSetsApart(known, run, k);
    }
    if !StartsAlike(known, run) {
      var n := FirstApart(known, run);
    }
  }

  lemma {:induction false} StartsAlikePrefix(known: string, run: Run, n: nat)
    requires StartsAlike(known, run) && n <= |run|
    ensures StartsAlike(known, run[..n])
  {
    if GotThrough(run[..n]) != [] {
      FirstKept(run, n);
    }
  }

  /** Where they start apart, they are apart after the first attempt that got through. */
  lemma {:induction false} FirstApart(known: string, run: Run) returns (n: nat)
    requires !StartsAlike(known, run)
    ensures 1 <= n <= |run| && !AlikeAfter(known, run[..n])
  {
    hide TableState, ObservedState, WritesRow, Remembers, GotThrough;
    SomethingThrough(run);
    var m := |run| - 1;
    if GotThrough(run[..m]) != [] {
      FirstKept(run, m);
      n := FirstApart(known, run[..m]);
      assert run[..m][..n] == run[..n];
    } else {
      n := |run|;
      assert run[..n] == run;
      StatesNext(known, run);
      NothingBefore(known, run[..m]);
      FirstIsLast(run);
    }
  }

  // ---------- at any instant ----------

  /** How many attempts are stamped at `t` or before. */
  ghost function Until(run: Run, t: int): nat {
    if run == [] || run[|run| - 1].c.stamp <= t then |run| else Until(run[..|run| - 1], t)
  }

  lemma {:induction false} UntilSplits(run: Run, t: int)
    requires StampsInOrder(run)
    ensures Until(run, t) <= |run|
    ensures forall i | 0 <= i < Until(run, t) :: run[i].c.stamp <= t
    ensures forall i | Until(run, t) <= i < |run| :: run[i].c.stamp > t
  {
    if run != [] && run[|run| - 1].c.stamp > t {
      UntilSplits(run[..|run| - 1], t);
    }
  }

  lemma {:induction false} RowsNotAfter(run: Run, t: int)
    requires forall i | 0 <= i < |run| :: run[i].c.stamp <= t
    ensures forall i | 0 <= i < |RunLog(run)| :: RunLog(run)[i].ts <= t
    ensures forall i | 0 <= i < |GotThrough(run)| :: GotThrough(run)[i].stamp <= t
  {
    hide RowsOf, Take;
    if run != [] {
      var before, a := run[..|run| - 1], run[|run| - 1];
      RowsNotAfter(before, t);
      RowDate(RunTrack(before), a);
      assert RunLog(run) == RunLog(before) + RowsOf(RunTrack(before), a);
      forall i | 0 <= i < |RunLog(run)|
        ensures RunLog(run)[i].ts <= t
      {
        assert i >= |RunLog(before)| ==> RunLog(run)[i] in RowsOf(RunTrack(before), a);
      }
    }
  }

  lemma {:induction false} LaterIgnored(initial: string, log: seq<StateEvent>, e: StateEvent, t: int)
    requires e.ts > t
    ensures StateAt(initial, log + [e], t) == StateAt(initial, log, t)
    decreases |log|
  {
    if log == [] {
      assert (log + [e])[0] == e;
    } else {
      assert (log + [e])[0] == log[0] && (log + [e])[1..] == log[1..] + [e];
      LaterIgnored(log[0].toState, log[1..], e, t);
    }
  }

  /** At any instant, table and observations say what they say after the attempts stamped until then. */
  lemma {:induction false} InstantIsPrefix(known: string, run: Run, n: nat, t: int)
    requires n <= |run| && (forall i | 0 <= i < n :: run[i].c.stamp <= t)
    requires forall i | n <= i < |run| :: run[i].c.stamp > t
    ensures StateAt(known, AsStates(RunLog(run)), t) == TableState(known, run[..n])
    ensures StateAt(known, ObservedStates(GotThrough(run)), t) == ObservedState(known, run[..n])
    decreases |run|
  {
    hide StateAt, RowsOf, Take;
    if n == |run| {
      assert run[..n] == run;
      RowsNotAfter(run, t);
      StateAtEnd(known, AsStates(RunLog(run)), t);
      StateAtEnd(known, ObservedStates(GotThrough(run)), t);
    } else {
      var m := |run| - 1;
      assert run[..m][..n] == run[..n];
      InstantIsPrefix(known, run[..m], n, t);
      LastIgnored(known, run, t);
    }
  }

  lemma {:induction false} LastIgnored(known: string, run: Run, t: int)
    requires run != [] && run[|run| - 1].c.stamp > t
    ensures var before := run[..|run| - 1];
            && StateAt(known, AsStates(RunLog(run)), t) == StateAt(known, AsStates(RunLog(before)), t)
            && StateAt(known, ObservedStates(GotThrough(run)), t) ==
               StateAt(known, ObservedStates(GotThrough(before)), t)
  {
    hide StateAt, RowsOf, Take;
    var m := |run| - 1;
    var before, a := run[..m], run[m];
    var rows := RowsOf(RunTrack(before), a);
    RowDate(RunTrack(before), a);
    if rows == [] {
      assert RunLog(run) == RunLog(before);
    } else {
      assert AsStates(RunLog(run)) == AsStates(RunLog(before)) + [StateEvent(a.c.stamp, rows[0].toState)];
      LaterIgnored(known, AsStates(RunLog(before)), StateEvent(a.c.stamp, rows[0].toState), t);
    }
    if a.Through? {
      assert ObservedStates(GotThrough(run)) ==
        ObservedStates(GotThrough(before)) + [StateEvent(a.c.stamp, a.c.state)];
      LaterIgnored(known, ObservedStates(GotThrough(before)), StateEvent(a.c.stamp, a.c.state), t);
    } else {
      assert GotThrough(run) == GotThrough(before);
    }
  }

  // ---------- bucket by bucket ----------

  lemma {:induction false} RunRowsInOrder(run: Run)
    requires StampsInOrder(run)
    ensures Sorted(AsStates(RunLog(run)))
    ensures forall i | 0 <= i < |RunLog(run)| :: run != [] && run[0].c.stamp <= RunLog(run)[i].ts
  {
    hide RowsOf, Take;
    if run != [] {
      var m := |run| - 1;
      RunRowsInOrder(run[..m]);
      RowsNotAfter(run[..m], run[m].c.stamp);
      RowDate(RunTrack(run[..m]), run[m]);
      var before := RunLog(run[..m]);
      assert AsStates(RunLog(run))[..|before|] == AsStates(before);
      forall i, j | 0 <= i < j < |RunLog(run)|
        ensures RunLog(run)[i].ts <= RunLog(run)[j].ts
      {
        assert RunLog(run)[i] == before[i];
        if j < |before| {
          assert AsStates(before)[i].ts <= AsStates(before)[j].ts;
        }
      }
    }
  }

  lemma {:induction false} RunTableInOrder(older: seq<StateEvent>, run: Run)
    requires StampsInOrder(run) && OlderThanRun(older, run)
    ensures Sorted(RunTable(older, run))
  {
    hide RunLog;
    RunRowsInOrder(run);
  }

  ghost predicate RunDowntimeRecovered(older: seq<StateEvent>, run: Run, from: int, until: int) {
    BucketDown(RunTable(older, run), from, until) ==
    Downtime(FinalState(RUNNING, older), ObservedStates(GotThrough(run)), from, until)
  }

  ghost predicate RunIncidentsRecovered(older: seq<StateEvent>, run: Run, from: int, until: int) {
    BucketIncidents(RunTable(older, run), from, until) ==
    IncidentsIn(FinalState(RUNNING, older), ObservedStates(GotThrough(run)), from, until)
  }

  /** The state of the table at an instant after the older rows. */
  lemma {:induction false} TableAt(older: seq<StateEvent>, run: Run, t: int)
    requires StampsInOrder(run) && forall i | 0 <= i < |older| :: older[i].ts <= t
    ensures Until(run, t) <= |run|
    ensures var known, upTo := FinalState(RUNNING, older), run[..Until(run, t)];
            && StateAt(RUNNING, RunTable(older, run), t) == TableState(known, upTo)
            && StateAt(known, ObservedStates(GotThrough(run)), t) == ObservedState(known, upTo)
  {
    hide RunLog, TableState, ObservedState, StateAt;
    UntilSplits(run, t);
    InstantIsPrefix(FinalState(RUNNING, older), run, Until(run, t), t);
    StateAtConcat(RUNNING, older, AsStates(RunLog(run)), t);
  }

  /** Harmless aborts cost nothing: the downtime swept is the time the attempts that got through saw it not running. */
  lemma {:induction false} HarmlessRunIsRecovered(older: seq<StateEvent>, run: Run, from: int, until: int)
    requires StampsInOrder(run) && OlderThanRun(older, run)
    requires StartsAlike(FinalState(RUNNING, older), run) && Harmless(run)
    requires from <= until && StartsAfter(older, from)
    ensures RunDowntimeRecovered(older, run, from, until)
  {
    hide RunTable, TableState, ObservedState, BucketDown, StateAt, StartsAlike, Harmless;
    var known := FinalState(RUNNING, older);
    RunTableInOrder(older, run);
    BucketMeasures(RunTable(older, run), from, until);
    AlwaysAlikeIff(known, run);
    forall t | from <= t < until
      ensures (StateAt(RUNNING, RunTable(older, run), t) == RUNNING) ==
              (StateAt(known, ObservedStates(GotThrough(run)), t) == RUNNING)
    {
      TableAt(older, run, t);
      assert AlikeAfter(known, run[..Until(run, t)]);
    }
    SameStatesSameDowntime(RUNNING, RunTable(older, run), known, ObservedStates(GotThrough(run)), from, until);
  }

  /** At the millisecond of an attempt, downtime is recovered only if table and observation are alike after it. */
  lemma {:induction false} RecoveredIsAlike(older: seq<StateEvent>, run: Run, n: nat)
    requires StampsApart(run) && OlderThanRun(older, run) && 1 <= n <= |run|
    requires var t := run[n - 1].c.stamp; RunDowntimeRecovered(older, run, t, t + 1)
    ensures AlikeAfter(FinalState(RUNNING, older), run[..n])
  {
    hide RunTable, TableState, ObservedState, BucketDown, StateAt, Downtime;
    var known, t := FinalState(RUNNING, older), run[n - 1].c.stamp;
    assert StampsInOrder(run);
    RunTableInOrder(older, run);
    BucketMeasures(RunTable(older, run), t, t + 1);
    OneInstant(RUNNING, RunTable(older, run), t);
    OneInstant(known, ObservedStates(GotThrough(run)), t);
    assert n < |run| ==> run[n].c.stamp > t;
    UntilSplits(run, t);
    TableAt(older, run, t);
  }

  /**
    * Over every run, with aborts anywhere, the rollup recovers the observed downtime in all buckets
    * after the older rows exactly when these and the first observation that got through agree on
    * running or not, and no failed attempt wrote a row that disagrees on it with what stayed remembered.
    */
  lemma {:induction false} RunDowntimeExactlyWhen(older: seq<StateEvent>, run: Run)
    requires StampsApart(run) && OlderThanRun(older, run)
    ensures StartsAlike(FinalState(RUNNING, older), run) && Harmless(run) <==>
            forall from, until | from <= until && StartsAfter(older, from) ::
              RunDowntimeRecovered(older, run, from, until)
  {
    hide StartsAlike, Harmless, AlikeAfter, RunDowntimeRecovered;
    var known := FinalState(RUNNING, older);
    if StartsAlike(known, run) && Harmless(run) {
      forall from, until | from <= until && StartsAfter(older, from)
        ensures RunDowntimeRecovered(older, run, from, until)
      {
        HarmlessRunIsRecovered(older, run, from, until);
      }
    }
    if forall from, until | from <= until && StartsAfter(older, from) ::
         RunDowntimeRecovered(older, run, from, until) {
      forall n | 0 <= n <= |run|
        ensures AlikeAfter(known, run[..n])
      {
        if n == 0 {
          EmptyIsAlike(known, run[..n]);
        } else {
          var t := run[n - 1].c.stamp;
          assert StartsAfter(older, t);
          assert RunDowntimeRecovered(older, run, t, t + 1);
          RecoveredIsAlike(older, run, n);
        }
      }
      AlwaysAlikeIff(known, run);
    }
  }

  lemma {:induction false} EmptyIsAlike(known: string, run: Run)
    requires run == []
    ensures AlikeAfter(known, run)
  {
  }

  lemma {:induction false} HarmIsLoss(run: Run, k: nat)
    requires k < |run| && !HarmlessAt(run, k)
    ensures Lost(run[..k + 1])
  {
    hide RunTrack, RowsOf;
    var upTo := run[..k + 1];
    assert upTo[..k] == run[..k] && upTo[k] == run[k];
    assert LostAt(upTo, k);
  }

  /** Aborts after which log and memory never part are harmless. */
  lemma {:induction false} NeverLostIsHarmless(run: Run)
    requires forall n | 0 <= n <= |run| :: !Lost(run[..n])
    ensures Harmless(run)
  {
    hide Lost, HarmlessAt;
    forall k | 0 <= k < |run|
      ensures HarmlessAt(run, k)
    {
      if !HarmlessAt(run, k) {
        HarmIsLoss(run, k);
      }
    }
  }

  // ---------- incidents ----------

  /** The row of attempt `k` takes the table from running to something else. */
  ghost predicate LeavesInTable(known: string, run: Run, k: nat)
    requires k < |run|
  {
    WritesRow(run, k) && run[k].c.state != RUNNING && TableState(known, run[..k]) == RUNNING
  }

  /** Attempt `k` gets through and sees the container leave running. */
  ghost predicate LeavesObserved(known: string, run: Run, k: nat)
    requires k < |run|
  {
    run[k].Through? && run[k].c.state != RUNNING && ObservedState(known, run[..k]) == RUNNING
  }

  ghost predicate SameLeaving(known: string, run: Run, k: nat)
    requires k < |run|
  {
    LeavesInTable(known, run, k) <==> LeavesObserved(known, run, k)
  }

  lemma {:induction false} LoggedIsFinal(known: string, log: seq<EventRecord>)
    ensures FinalState(known, AsStates(log)) == LastState(known, log)
  {
  }

  lemma {:induction false} RunNext(run: Run)
    requires run != []
    ensures var n := |run| - 1;
            var e, before := StateEvent(run[n].c.stamp, run[n].c.state), run[..n];
            var log, observed := AsStates(RunLog(before)), ObservedStates(GotThrough(before));
            && AsStates(RunLog(run)) == (if WritesRow(run, n) then log + [e] else log)
            && ObservedStates(GotThrough(run)) == (if run[n].Through? then observed + [e] else observed)
  {
    hide RowsOf, Take;
    var n := |run| - 1;
    PrevKept(RunTrack(run[..n]), run[n]);
    RowDate(RunTrack(run[..n]), run[n]);
    var rows := RowsOf(RunTrack(run[..n]), run[n]);
    if rows == [] {
      assert RunLog(run) == RunLog(run[..n]);
    } else {
      assert rows[0] in rows;
      assert AsStates(rows) == [StateEvent(run[n].c.stamp, run[n].c.state)];
    }
    if run[n].Failed? {
      assert GotThrough(run) == GotThrough(run[..n]);
    }
  }

  lemma {:induction false} IncidentsNext(known: string, run: Run, from: int, until: int)
    requires run != []
    ensures var n := |run| - 1;
            var before, inside := run[..n], from <= run[n].c.stamp < until;
            && IncidentsIn(known, AsStates(RunLog(run)), from, until) ==
               IncidentsIn(known, AsStates(RunLog(before)), from, until)
                 + (if inside && LeavesInTable(known, run, n) then 1 else 0)
            && IncidentsIn(known, ObservedStates(GotThrough(run)), from, until) ==
               IncidentsIn(known, ObservedStates(GotThrough(before)), from, until)
                 + (if inside && LeavesObserved(known, run, n) then 1 else 0)
  {
    hide IncidentsIn, WritesRow, RunLog, GotThrough;
    var n := |run| - 1;
    var e, before := StateEvent(run[n].c.stamp, run[n].c.state), run[..n];
    RunNext(run);
    IncidentsSnoc(known, AsStates(RunLog(before)), e, from, until);
    IncidentsSnoc(known, ObservedStates(GotThrough(before)), e, from, until);
    LoggedIsFinal(known, RunLog(before));
  }

  lemma {:induction false} SameLeavingPrefix(known: string, run: Run, n: nat, k: nat)
    requires k < n <= |run|
    ensures SameLeaving(known, run[..n], k) <==> SameLeaving(known, run, k)
  {
    hide RowsOf, RunTrack, TableState, ObservedState;
    assert run[..n][..k] == run[..k];
  }

  /** Where table and observations leave running together, the incidents agree. */
  lemma {:induction false} SameDepartures(known: string, run: Run, from: int, until: int)
    requires forall k | 0 <= k < |run| && from <= run[k].c.stamp < until :: SameLeaving(known, run, k)
    ensures IncidentsIn(known, AsStates(RunLog(run)), from, until) ==
            IncidentsIn(known, ObservedStates(GotThrough(run)), from, until)
  {
    hide IncidentsIn, LeavesInTable, LeavesObserved;
    if run == [] {
      assert AsStates(RunLog(run)) == [] && ObservedStates(GotThrough(run)) == [];
    } else {
      var n := |run| - 1;
      forall k | 0 <= k < n && from <= run[k].c.stamp < until
        ensures SameLeaving(known, run[..n], k)
      {
        SameLeavingPrefix(known, run, n, k);
        assert SameLeaving(known, run, k);
      }
      SameDepartures(known, run[..n], from, until);
      IncidentsNext(known, run, from, until);
      assert from <= run[n].c.stamp < until ==> SameLeaving(known, run, n);
    }
  }

  /** Where they do not, the incidents differ in the millisecond of the attempt. */
  lemma {:induction false} OtherDeparture(known: string, run: Run, k: nat)
    requires StampsApart(run) && k < |run| && !SameLeaving(known, run, k)
    ensures var t := run[k].c.stamp;
            IncidentsIn(known, AsStates(RunLog(run)), t, t + 1) !=
            IncidentsIn(known, ObservedStates(GotThrough(run)), t, t + 1)
  {
    hide IncidentsIn, LeavesInTable, LeavesObserved, RunLog, GotThrough;
    var n, t := |run| - 1, run[k].c.stamp;
    IncidentsNext(known, run, t, t + 1);
    if k == n {
      SameDepartures(known, run[..n], t, t + 1);
    } else {
      SameLeavingPrefix(known, run, n, k);
      OtherDeparture(known, run[..n], k);
    }
  }

  /** Harmless aborts cause no departure and hide none. */
  lemma {:induction false} HarmlessLeaving(known: string, run: Run, k: nat)
    requires StartsAlike(known, run) && Harmless(run) && k < |run|
    ensures SameLeaving(known, run, k)
  {
    hide RowsOf, RunTrack, TableState, ObservedState, Harmless, StartsAlike;
    var before, upTo := run[..k], run[..k + 1];
    assert upTo[..k] == before && upTo[k] == run[k];
    HarmlessPrefix(run, k);
    HarmlessPrefix(run, k + 1);
    StartsAlikePrefix(known, run, k);
    StartsAlikePrefix(known, run, k + 1);
    HarmlessIsAlike(known, before);
    HarmlessIsAlike(known, upTo);
    StatesNext(known, upTo);
  }

  lemma {:induction false} RunIncidentsAre(older: seq<StateEvent>, run: Run, from: int, until: int)
    requires StampsInOrder(run) && OlderThanRun(older, run) && from <= until && StartsAfter(older, from)
    ensures BucketIncidents(RunTable(older, run), from, until) ==
            IncidentsIn(FinalState(RUNNING, older), AsStates(RunLog(run)), from, until)
  {
    hide RunLog, IncidentsIn, SweptIncidents;
    RunTableInOrder(older, run);
    BucketCountsIncidents(RUNNING, RunTable(older, run), from, until);
    IncidentsConcat(RUNNING, older, AsStates(RunLog(run)), from, until);
  }

  /** Under the condition on downtime the incidents of every later bucket are the observed ones as well. */
  lemma {:induction false} HarmlessIncidentsRecovered(older: seq<StateEvent>, run: Run, from: int, until: int)
    requires StampsInOrder(run) && OlderThanRun(older, run)
    requires StartsAlike(FinalState(RUNNING, older), run) && Harmless(run)
    requires from <= until && StartsAfter(older, from)
    ensures RunIncidentsRecovered(older, run, from, until)
  {
    hide RunLog, StartsAlike, Harmless, IncidentsIn, SameLeaving, BucketIncidents, GotThrough;
    var known := FinalState(RUNNING, older);
    RunIncidentsAre(older, run, from, until);
    forall k | 0 <= k < |run|
      ensures SameLeaving(known, run, k)
    {
      HarmlessLeaving(known, run, k);
    }
    SameDepartures(known, run, from, until);
  }

  /**
    * The incidents of all buckets after the older rows are the observed ones exactly when every row
    * that takes the table out of running was written where the container was seen leaving it, and
    * every such observation wrote one.
    */
  lemma {:induction false} RunIncidentsExactlyWhen(older: seq<StateEvent>, run: Run)
    requires StampsApart(run) && OlderThanRun(older, run)
    ensures (forall k | 0 <= k < |run| :: SameLeaving(FinalState(RUNNING, older), run, k)) <==>
            forall from, until | from <= until && StartsAfter(older, from) ::
              RunIncidentsRecovered(older, run, from, until)
  {
    hide RunLog, IncidentsIn, SameLeaving, BucketIncidents, GotThrough, RunTable;
    var known := FinalState(RUNNING, older);
    forall from, until | from <= until && StartsAfter(older, from)
      ensures (forall k | 0 <= k < |run| :: SameLeaving(known, run, k)) ==>
                RunIncidentsRecovered(older, run, from, until)
    {
      if forall k | 0 <= k < |run| :: SameLeaving(known, run, k) {
        RunIncidentsAre(older, run, from, until);
        SameDepartures(known, run, from, until);
      }
    }
    if k: nat :| k < |run| && !SameLeaving(known, run, k) {
      var t := run[k].c.stamp;
      assert StartsAfter(older, t);
      RunIncidentsAre(older, run, t, t + 1);
      OtherDeparture(known, run, k);
      assert !RunIncidentsRecovered(older, run, t, t + 1);
    }
  }
}
