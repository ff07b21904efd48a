/**
  * Windows, streak and alerts over runs of attempts some of which abort: which alerts a failed
  * dispatch swallows, and what it makes the next tick count a second time.
  */
module AbortedAlerts {
  import opened AbortedTicks
  import opened Availability
  import opened Buckets
  import opened ContainerTrack
  import opened JsValues

  // ---------- the unhealthy streak ----------

  /** An attempt that fails earlier leaves the streak alone. */
  predicate UpdatesStreak(a: Attempt) { a.Through? || a.stop == AtUnhealthy }

  /** The attempts that update the streak, by their place in the run. */
  ghost function Positions(run: Run): seq<nat> {
    if run == [] then []
    else
      var n := |run| - 1;
      Positions(run[..n]) + (if UpdatesStreak(run[n]) then [n] else [])
  }

  /** Their observations. */
  ghost function Counted(run: Run): History {
    if run == [] then []
    else
      var n := |run| - 1;
      Counted(run[..n]) + (if UpdatesStreak(run[n]) then [run[n].c] else [])
  }

  ghost predicate UnhealthySentAt(run: Run, k: nat)
    requires k < |run|
  {
    UnhealthySustained(run[k].c.name) in AlertsOf(RunTrack(run[..k]), run[k])
  }

  lemma {:induction false} CountedAt(run: Run, i: nat)
    requires i < |Positions(run)|
    ensures |Counted(run)| == |Positions(run)|
    ensures var k := Positions(run)[i];
            && k < |run| && UpdatesStreak(run[k]) && Counted(run)[i] == run[k].c
            && Counted(run[..k + 1]) == Counted(run)[..i + 1]
  {
    var n := |run| - 1;
    SameNumber(run);
    SameNumber(run[..n]);
    if i < |Positions(run[..n])| {
      CountedAt(run[..n], i);
      var k := Positions(run)[i];
      assert run[..n][..k + 1] == run[..k + 1];
    } else {
      assert run[..n + 1] == run;
      assert Counted(run)[..i + 1] == Counted(run);
    }
  }

  lemma {:induction false} SameNumber(run: Run)
    ensures |Counted(run)| == |Positions(run)|
  {
    if run != [] {
      SameNumber(run[..|run| - 1]);
    }
  }

  /** The streak is that of the observations counted, as if there had been no others. */
  lemma {:induction false} StreakOfCounted(run: Run)
    ensures RunTrack(run).unhealthy == TrackAfter(Counted(run)).unhealthy
  {
    hide NextTransitions, NextRestarts;
    if run != [] {
      var n := |run| - 1;
      StreakOfCounted(run[..n]);
      if UpdatesStreak(run[n]) {
        assert Counted(run)[..|Counted(run)| - 1] == Counted(run[..n]);
      } else {
        assert Counted(run) == Counted(run[..n]);
      }
    }
  }

  /** A failed attempt sends no such alert, whatever it was due. */
  lemma {:induction false} SentWhenThrough(run: Run, k: nat)
    requires k < |run|
    ensures UnhealthySentAt(run, k) <==> run[k].Through? && NextUnhealthy(RunTrack(run[..k]), run[k].c) == 2
  {
    hide RunTrack, NextTransitions, NextRestarts, NextUnhealthy;
  }

  /**
    * Over every run the alert is sent exactly by an attempt that gets through with the second
    * observation of an unhealthy stretch, among the observations that were counted.
    */
  lemma {:induction false} UnhealthySentIff(run: Run, k: nat)
    requires k < |run|
    ensures var counted := Counted(run[..k + 1]);
            var n := |counted| - 1;
            UnhealthySentAt(run, k) <==>
              && run[k].Through? && n >= 1 && counted[n].health == UNHEALTHY && counted[n - 1].health == UNHEALTHY
              && (n >= 2 ==> counted[n - 2].health != UNHEALTHY)
  {
    hide RunTrack, TrackAfter, AlertsOf;
    SentWhenThrough(run, k);
    if run[k].Through? {
      var counted := Counted(run[..k + 1]);
      var n := |counted| - 1;
      assert run[..k + 1][..k] == run[..k];
      assert counted[..n] == Counted(run[..k]);
      StreakOfCounted(run[..k]);
      AlertWhenTwo(counted);
      UnhealthyAlertIff(counted, n);
    }
  }

  lemma {:induction false} AlertWhenTwo(h: History)
    requires h != []
    ensures var n := |h| - 1;
            UnhealthySustained(h[n].name) in AlertsAt(h, n) <==> NextUnhealthy(TrackAfter(h[..n]), h[n]) == 2
  {
    hide TrackAfter, NextTransitions, NextRestarts, NextUnhealthy;
  }

  /** The attempt behind counted observation `i` gets through. */
  ghost predicate CountedThrough(run: Run, i: nat) {
    i < |Positions(run)| && var k := Positions(run)[i]; k < |run| && run[k].Through?
  }

  /** It sends the alert. */
  ghost predicate CountedSends(run: Run, i: nat) {
    i < |Positions(run)| && var k := Positions(run)[i]; k < |run| && UnhealthySentAt(run, k)
  }

  /**
    * A maximal unhealthy stretch gets its alert exactly when the attempt that brings the streak to
    * 2 gets through. If the dispatch fails there, no later attempt of the stretch sends it.
    */
  lemma {:induction false} StretchGetsItsAlertIff(run: Run, a: nat, b: nat)
    requires MaximalRun(Counted(run), a, b)
    ensures (exists i | a <= i < b :: CountedSends(run, i)) <==> a + 1 < b && CountedThrough(run, a + 1)
    ensures forall i | a <= i < b && CountedSends(run, i) :: i == a + 1
  {
    hide CountedSends, CountedThrough, Counted, MaximalRun;
    forall i | a <= i < b
      ensures CountedSends(run, i) <==> i == a + 1 && CountedThrough(run, i)
    {
      SentInStretch(run, a, b, i);
    }
    assert a + 1 < b && CountedThrough(run, a + 1) ==> CountedSends(run, a + 1);
  }

  lemma {:induction false} SentInStretch(run: Run, a: nat, b: nat, i: nat)
    requires MaximalRun(Counted(run), a, b) && a <= i < b
    ensures CountedSends(run, i) <==> i == a + 1 && CountedThrough(run, i)
  {
    hide UnhealthySentAt, Positions, Counted;
    var h := Counted(run);
    SameNumber(run);
    CountedAt(run, i);
    var k := Positions(run)[i];
    UnhealthySentIff(run, k);
    assert i >= 1 ==> h[..i + 1][i - 1] == h[i - 1];
    assert i >= 2 ==> h[..i + 1][i - 2] == h[i - 2];
  }

  // ---------- the windows ----------

  datatype Window = Restarts | Transitions

  function Width(w: Window): nat { if w.Restarts? then DAY else HOUR }

  function Content(w: Window, t: Track): seq<int> { if w.Restarts? then t.restarts else t.transitions }

  /** How much a window takes in for an observation. */
  function Due(w: Window, prev: Previous, c: Observed): nat {
    if w.Restarts? then NewRestarts(prev, c) else if Changed(prev, c) then 1 else 0
  }

  /** Whether an attempt gets as far as the window. */
  predicate Reaches(w: Window, a: Attempt) {
    a.Through? || (if w.Restarts? then a.stop == AtCrashLoop || a.stop == AtUnhealthy else a.stop != BeforeRow)
  }

  /** What attempt `k` pushes. */
  ghost function PushedAt(w: Window, run: Run, k: nat): nat
    requires k < |run|
  {
    var prev := RunTrack(run[..k]).prev;
    if prev.Some? && Reaches(w, run[k]) then Due(w, prev.value, run[k].c) else 0
  }

  /** Every push of the run, at the time of its tick. */
  ghost function Pushes(w: Window, run: Run): seq<int> {
    if run == [] then []
    else Pushes(w, run[..|run| - 1]) + Repeat(run[|run| - 1].c.now, PushedAt(w, run, |run| - 1))
  }

  ghost function Seen(w: Window, h: History): seq<int> {
    if w.Restarts? then AllRestarts(h) else AllTransitions(h)
  }

  /** What the observations that got through would push, had there been no others. */
  ghost function Genuine(w: Window, run: Run): seq<int> { Seen(w, GotThrough(run)) }

  ghost predicate TicksInOrder(run: Run) { forall i, j | 0 <= i < j < |run| :: run[i].c.now <= run[j].c.now }

  lemma {:induction false} PrefixInOrder(run: Run, n: nat)
    requires TicksInOrder(run) && n <= |run|
    ensures TicksInOrder(run[..n])
  {
  }

  lemma {:induction false} ContentNext(w: Window, run: Run)
    requires run != []
    ensures var n := |run| - 1;
            var before, now, pushed := Content(w, RunTrack(run[..n])), run[n].c.now, PushedAt(w, run, n);
            Content(w, RunTrack(run)) ==
            if pushed > 0 then Recent(before, now, Width(w)) + Repeat(now, pushed) else before
  {
    hide Recent, Changed, NextUnhealthy;
    assert Repeat(run[|run| - 1].c.now, 1) == [run[|run| - 1].c.now];
  }

  /** A pruned window is, at any later time, as good as the full record of pushes, failed attempts included. */
  lemma {:induction false} WindowOfRun(w: Window, run: Run, later: int)
    requires TicksInOrder(run) && (run != [] ==> run[|run| - 1].c.now <= later)
    ensures Recent(Content(w, RunTrack(run)), later, Width(w)) == Recent(Pushes(w, run), later, Width(w))
    ensures run != [] && PushedAt(w, run, |run| - 1) > 0 ==>
              Content(w, RunTrack(run)) == Recent(Pushes(w, run), run[|run| - 1].c.now, Width(w))
  {
    hide RunTrack, Recent, PushedAt, Content;
    if run == [] {
      NothingPushed(w);
    } else {
      var n := |run| - 1;
      var now, before := run[n].c.now, run[..n];
      PrefixInOrder(run, n);
      ContentNext(w, run);
      forall t | t >= now
        ensures Recent(Content(w, RunTrack(before)), t, Width(w)) == Recent(Pushes(w, before), t, Width(w))
      {
        WindowOfRun(w, before, t);
      }
      WindowUpdate(Content(w, RunTrack(before)), Pushes(w, before), now, now, PushedAt(w, run, n), Width(w), later);
      if PushedAt(w, run, n) == 0 {
        assert Repeat(now, 0) == [];
        assert Pushes(w, run) == Pushes(w, before);
      }
    }
  }

  lemma {:induction false} NothingPushed(w: Window)
    ensures Content(w, RunTrack([])) == Pushes(w, []) == []
  {
  }

  /** The pushes of failed attempts. */
  ghost function Extra(w: Window, run: Run): nat {
    if run == [] then 0
    else Extra(w, run[..|run| - 1]) + (if run[|run| - 1].Failed? then PushedAt(w, run, |run| - 1) else 0)
  }

  lemma {:induction false} SeenNext(w: Window, h: History)
    requires h != []
    ensures var n := |h| - 1;
            Seen(w, h) == Seen(w, h[..n]) + Repeat(h[n].now, if n == 0 then 0 else Due(w, Remember(h[n - 1]), h[n]))
  {
    hide Changed, NewRestarts;
  }

  lemma {:induction false} GenuineNext(w: Window, run: Run)
    requires run != []
    ensures var n := |run| - 1;
            Genuine(w, run) ==
            Genuine(w, run[..n]) + (if run[n].Through? then Repeat(run[n].c.now, PushedAt(w, run, n)) else [])
  {
    hide RunTrack, Seen, Due;
    var n := |run| - 1;
    LastThrough(run[..n]);
    if run[n].Through? {
      assert GotThrough(run)[..|GotThrough(run)| - 1] == GotThrough(run[..n]);
      SeenNext(w, GotThrough(run));
    } else {
      assert GotThrough(run) == GotThrough(run[..n]);
      assert Genuine(w, run[..n]) + [] == Genuine(w, run[..n]);
    }
  }

  /** A window holds what was pushed: the genuine pushes and, on top of them, those of failed attempts. */
  lemma {:induction false} PushesAddUp(w: Window, run: Run)
    ensures |Pushes(w, run)| == |Genuine(w, run)| + Extra(w, run)
    ensures Extra(w, run) == 0 ==> Pushes(w, run) == Genuine(w, run)
    ensures Extra(w, run) == 0 <==> forall k | 0 <= k < |run| && run[k].Failed? :: PushedAt(w, run, k) == 0
  {
    hide PushedAt, Genuine;
    if run == [] {
      NothingGenuine(w);
    } else {
      var n := |run| - 1;
      PushesAddUp(w, run[..n]);
      GenuineNext(w, run);
      forall k | 0 <= k < n
        ensures PushedAt(w, run[..n], k) == PushedAt(w, run, k)
      {
        SamePush(w, run, n, k);
      }
    }
  }

  lemma {:induction false} NothingGenuine(w: Window)
    ensures Genuine(w, []) == []
  {
  }

  lemma {:induction false} SamePush(w: Window, run: Run, n: nat, k: nat)
    requires k < n <= |run|
    ensures PushedAt(w, run[..n], k) == PushedAt(w, run, k)
  {
    hide RunTrack;
    assert run[..n][..k] == run[..k];
  }

  /** The record of pushes is that of the observations that got through exactly when no failed attempt pushed. */
  lemma {:induction false} PushedOnceIff(w: Window, run: Run)
    ensures Pushes(w, run) == Genuine(w, run) <==>
            forall k | 0 <= k < |run| && run[k].Failed? :: PushedAt(w, run, k) == 0
  {
    hide Pushes, Genuine, PushedAt;
    PushesAddUp(w, run);
  }

  /** There are as many rows as pushed transitions, so a failed attempt's change is written again by the next one. */
  lemma {:induction false} RowsArePushes(run: Run)
    ensures |RunLog(run)| == |Genuine(Transitions, run)| + Extra(Transitions, run)
  {
    hide Genuine, Extra, Take, Changed;
    PushesAddUp(Transitions, run);
    if run != [] {
      RowsArePushes(run[..|run| - 1]);
      PushesAddUp(Transitions, run[..|run| - 1]);
    }
  }

  /** The crash-loop alert reports the recount of all pushes, of failed attempts as well. */
  lemma {:induction false} CrashLoopCountsPushes(run: Run)
    requires TicksInOrder(run) && run != []
    ensures var n := |run| - 1;
            var count := |Recent(Pushes(Restarts, run), run[n].c.now, DAY)|;
            forall k :: CrashLoop(run[n].c.name, k) in AlertsOf(RunTrack(run[..n]), run[n]) <==>
              && (run[n].Through? || run[n].stop == AtUnhealthy)
              && PushedAt(Restarts, run, n) > 0 && count > 3 && k == count
  {
    hide RunTrack, Recent, Changed, Pushes;
    var n := |run| - 1;
    ContentNext(Restarts, run);
    WindowOfRun(Restarts, run, run[n].c.now);
  }

  /** So does the flapping alert. */
  lemma {:induction false} FlappingCountsPushes(run: Run)
    requires TicksInOrder(run) && run != []
    ensures var n := |run| - 1;
            var count := |Recent(Pushes(Transitions, run), run[n].c.now, HOUR)|;
            forall k :: Flapping(run[n].c.name, k) in AlertsOf(RunTrack(run[..n]), run[n]) <==>
              && (run[n].Through? || (run[n].stop != BeforeRow && run[n].stop != AtFlapping))
              && PushedAt(Transitions, run, n) > 0 && count >= 3 && k == count
  {
    hide RunTrack, Recent, Changed, Pushes;
    var n := |run| - 1;
    ContentNext(Transitions, run);
    WindowOfRun(Transitions, run, run[n].c.now);
  }

  // ---------- a run in which all of this happens ----------

  function Web(health: string, restartCount: nat, now: int): Observed {
    Observed("web", RUNNING, health, restartCount, false, None, now, now)
  }

  function WebTrack(health: string, restarts: seq<int>, transitions: seq<int>, unhealthy: nat): Track {
    Track(Some(Previous(RUNNING, health, 0, false)), restarts, transitions, unhealthy)
  }

  /** A container turns unhealthy and restarts twice, while its unhealthy alert cannot be dispatched. */
  ghost function FailedUnhealthyAlert(): Run {
    [Through(Web("healthy", 0, 0)),
     Through(Web(UNHEALTHY, 0, 60_000)),
     Failed(Web(UNHEALTHY, 2, 120_000), AtUnhealthy),
     Through(Web(UNHEALTHY, 2, 180_000))]
  }

  lemma {:induction false} FirstTwo()
    ensures Next(UNKNOWN, Web("healthy", 0, 0)) == WebTrack("healthy", [], [], 0)
    ensures Next(WebTrack("healthy", [], [], 0), Web(UNHEALTHY, 0, 60_000)) == WebTrack(UNHEALTHY, [], [60_000], 1)
  {
    assert |"healthy"| != |UNHEALTHY|;
    assert [] + [60_000] == [60_000];
  }

  lemma {:induction false} WindowsAtFailure()
    ensures var t, c := WebTrack(UNHEALTHY, [], [60_000], 1), Web(UNHEALTHY, 2, 120_000);
            && NextTransitions(t, c) == [60_000, 120_000] && NextRestarts(t, c) == [120_000, 120_000]
            && NextUnhealthy(t, c) == 2
  {
    RecentAll([60_000], 120_000, HOUR);
    assert [60_000] + [120_000] == [60_000, 120_000];
    assert [] + Repeat(120_000, 2) == [120_000, 120_000];
  }

  /** Only the unhealthy alert is due; both windows and the streak have been updated when it fails. */
  lemma {:induction false} AlertFails()
    ensures var t, c := WebTrack(UNHEALTHY, [], [60_000], 1), Web(UNHEALTHY, 2, 120_000);
            && Alerts(t, c) == [UnhealthySustained("web")]
            && Partly(t, c, AtUnhealthy) == WebTrack(UNHEALTHY, [120_000, 120_000], [60_000, 120_000], 2)
  {
    hide NextTransitions, NextRestarts, NextUnhealthy;
    WindowsAtFailure();
  }

  lemma {:induction false} WindowsAgain()
    ensures var t, c := WebTrack(UNHEALTHY, [120_000, 120_000], [60_000, 120_000], 2), Web(UNHEALTHY, 2, 180_000);
            && |NextTransitions(t, c)| == 3 && |NextRestarts(t, c)| == 4 && NextUnhealthy(t, c) == 3
  {
    hide Recent;
    RecentAll([60_000, 120_000], 180_000, HOUR);
    RecentAll([120_000, 120_000], 180_000, DAY);
  }

  lemma {:induction false} CountedAgain()
    ensures Alerts(WebTrack(UNHEALTHY, [120_000, 120_000], [60_000, 120_000], 2), Web(UNHEALTHY, 2, 180_000)) ==
            [Flapping("web", 3), CrashLoop("web", 4)]
  {
    hide NextTransitions, NextRestarts, NextUnhealthy;
    WindowsAgain();
  }

  lemma {:induction false} FailedPrefixes()
    ensures var run := FailedUnhealthyAlert();
            && RunTrack(run[..0]) == UNKNOWN && RunTrack(run[..1]) == WebTrack("healthy", [], [], 0)
            && RunTrack(run[..2]) == WebTrack(UNHEALTHY, [], [60_000], 1)
            && RunTrack(run[..3]) == WebTrack(UNHEALTHY, [120_000, 120_000], [60_000, 120_000], 2)
  {
    hide Next, Partly, Web, WebTrack;
    var run := FailedUnhealthyAlert();
    assert run[..0] == [];
    forall i | 0 <= i < 3
      ensures RunTrack(run[..i + 1]) == Take(RunTrack(run[..i]), run[i])
    {
      assert run[..i + 1] == run[..i] + [run[i]];
      AdvanceSnoc(UNKNOWN, run[..i], run[i]);
    }
    assert RunTrack(run[..0 + 1]) == Next(UNKNOWN, run[0].c);
    assert RunTrack(run[..1 + 1]) == Next(RunTrack(run[..1]), run[1].c);
    assert RunTrack(run[..2 + 1]) == Partly(RunTrack(run[..2]), run[2].c, AtUnhealthy);
    FirstTwo();
    AlertFails();
  }

  lemma {:induction false} SeenOfThree(w: Window, a: Observed, b: Observed, c: Observed)
    ensures |Seen(w, [a, b, c])| == Due(w, Remember(a), b) + Due(w, Remember(b), c)
  {
    hide Due, Seen;
    var h := [a, b, c];
    assert h[..3] == h;
    NothingSeen(w, h[..0]);
    forall n: nat | n < 3
      ensures |Seen(w, h[..n + 1])| == |Seen(w, h[..n])| + if n == 0 then 0 else Due(w, Remember(h[n - 1]), h[n])
    {
      assert h[..n + 1][..n] == h[..n];
      SeenNext(w, h[..n + 1]);
    }
    assert |Seen(w, h[..0 + 1])| == 0;
    assert |Seen(w, h[..1 + 1])| == Due(w, Remember(a), b);
    assert |Seen(w, h[..2 + 1])| == Due(w, Remember(a), b) + Due(w, Remember(b), c);
  }

  lemma {:induction false} NothingSeen(w: Window, h: History)
    requires h == []
    ensures Seen(w, h) == []
  {
  }

  lemma {:induction false} GenuineOfThree()
    ensures |Genuine(Restarts, FailedUnhealthyAlert())| == 2 == |Genuine(Transitions, FailedUnhealthyAlert())|
  {
    hide Seen;
    var run := FailedUnhealthyAlert();
    GotThroughOfIt();
    SeenOfThree(Restarts, run[0].c, run[1].c, run[3].c);
    SeenOfThree(Transitions, run[0].c, run[1].c, run[3].c);
    assert |"healthy"| != |UNHEALTHY|;
  }

  lemma {:induction false} GotThroughOfIt()
    ensures var run := FailedUnhealthyAlert(); GotThrough(run) == [run[0].c, run[1].c, run[3].c]
  {
    hide GotThrough, Web;
    var run := FailedUnhealthyAlert();
    NothingThrough();
    assert run[..0] == [] && run[..4] == run;
    forall i: nat | i < 4
      ensures GotThrough(run[..i + 1]) == GotThrough(run[..i]) + (if run[i].Through? then [run[i].c] else [])
    {
      assert run[..i + 1] == run[..i] + [run[i]];
      GotThroughSnoc(run[..i], run[i]);
    }
    assert GotThrough(run[..0 + 1]) == [run[0].c];
    assert GotThrough(run[..1 + 1]) == [run[0].c, run[1].c];
    assert GotThrough(run[..2 + 1]) == [run[0].c, run[1].c];
    assert GotThrough(run[..3 + 1]) == [run[0].c, run[1].c, run[3].c];
  }

  lemma {:induction false} NothingThrough()
    ensures GotThrough([]) == []
  {
  }

  lemma {:induction false} GotThroughSnoc(run: Run, a: Attempt)
    ensures GotThrough(run + [a]) == GotThrough(run) + (if a.Through? then [a.c] else [])
  {
    assert (run + [a])[..|run|] == run;
  }

  /**
    * A possible run in which one failed dispatch keeps the unhealthy alert from ever being sent, and
    * makes the next tick report four restarts and three transitions where there were two of each.
    */
  lemma {:induction false} FailedDispatchMisleads()
    ensures var run := FailedUnhealthyAlert();
            && Legal(run) && (forall k | 0 <= k < |run| :: !UnhealthySentAt(run, k))
            && AlertsOf(RunTrack(run[..3]), run[3]) == [Flapping("web", 3), CrashLoop("web", 4)]
            && |Genuine(Restarts, run)| == 2 == |Genuine(Transitions, run)|
  {
    hide RunTrack, Next, Partly, Genuine, Alerts, Web, WebTrack;
    var run := FailedUnhealthyAlert();
    FailedPrefixes();
    AlertFails();
    CountedAgain();
    GenuineOfThree();
    forall k | 0 <= k < |run|
      ensures Possible(RunTrack(run[..k]), run[k])
    {
      UnhealthyDue();
    }
    forall k | 0 <= k < |run|
      ensures !UnhealthySentAt(run, k)
    {
      NeverSent(k);
    }
  }

  lemma {:induction false} UnhealthyDue()
    ensures CanFail(WebTrack(UNHEALTHY, [], [60_000], 1), Web(UNHEALTHY, 2, 120_000), AtUnhealthy)
  {
  }

  lemma {:induction false} NeverSent(k: nat)
    requires k < 4
    ensures !UnhealthySentAt(FailedUnhealthyAlert(), k)
  {
    hide RunTrack, AlertsOf;
    FailedPrefixes();
    SentWhenThrough(FailedUnhealthyAlert(), k);
  }
}
