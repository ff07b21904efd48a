/** Downtime of one container, swept out of its state events bucket by bucket. Times are in milliseconds. */
module Availability {
  import opened Buckets

  const RUNNING := "running"

  datatype StateEvent = StateEvent(ts: int, toState: string)

  ghost predicate Sorted(log: seq<StateEvent>) {
    forall i, j | 0 <= i < j < |log| :: log[i].ts <= log[j].ts
  }

  ghost predicate Within(log: seq<StateEvent>, from: int, until: int) {
    forall i | 0 <= i < |log| :: from <= log[i].ts < until
  }

  // ---------- the reference: state at an instant, and how long it is not running ----------

  /** The state a sorted log leaves the container in at time `t`. */
  ghost function StateAt(initial: string, log: seq<StateEvent>, t: int): string
    decreases |log|
  {
    if log == [] || log[0].ts > t then initial else StateAt(log[0].toState, log[1..], t)
  }

  /** The number of milliseconds of [from, to) in which the container is not running. */
  ghost function Downtime(initial: string, log: seq<StateEvent>, from: int, until: int): nat
    decreases until - from
  {
    if from >= until then 0
    else (if StateAt(initial, log, from) != RUNNING then 1 else 0) + Downtime(initial, log, from + 1, until)
  }

  ghost predicate StartsIncident(initial: string, log: seq<StateEvent>, k: nat)
    requires k < |log|
  {
    log[k].toState != RUNNING && (if k == 0 then initial else log[k - 1].toState) == RUNNING
  }

  ghost function IncidentIndices(initial: string, log: seq<StateEvent>, from: int, until: int): set<nat> {
    set k: nat | k < |log| && from <= log[k].ts < until && StartsIncident(initial, log, k)
  }

  /** The number of events of [from, to) that take the container from running to something else. */
  ghost function IncidentsIn(initial: string, log: seq<StateEvent>, from: int, until: int): nat {
    |IncidentIndices(initial, log, from, until)|
  }

  // ---------- the sweep of `rollupAvailability` ----------

  /** What the loop of the sweep adds up from `cursor` on, before rounding. */
  ghost function SweptDown(state: string, cursor: int, events: seq<StateEvent>, until: int): int
    decreases |events|
  {
    if events == [] then (if state != RUNNING then until - cursor else 0)
    else
      (if state != RUNNING then events[0].ts - cursor else 0)
      + SweptDown(events[0].toState, events[0].ts, events[1..], until)
  }

  ghost function SweptIncidents(state: string, events: seq<StateEvent>): nat
    decreases |events|
  {
    if events == [] then 0
    else
      (if events[0].toState != RUNNING && state == RUNNING then 1 else 0)
      + SweptIncidents(events[0].toState, events[1..])
  }

  /** `Math.round(ms / 1000)`. */
  function RoundSeconds(ms: int): int { (ms + 500) / 1000 }

  /** One bucket of one container: walk its events, add up the stretches that are not running. */
  method Sweep(initial: string, events: seq<StateEvent>, from: int, until: int)
    returns (downMs: int, incidents: nat)
    ensures downMs == SweptDown(initial, from, events, until)
    ensures incidents == SweptIncidents(initial, events)
  {
    var cursor, state := from, initial;
    downMs, incidents := 0, 0;
    for i := 0 to |events|
      invariant downMs + SweptDown(state, cursor, events[i..], until) == SweptDown(initial, from, events, until)
      invariant incidents + SweptIncidents(state, events[i..]) == SweptIncidents(initial, events)
    {
      assert events[i..][1..] == events[i + 1..];
      var e := events[i];
      if state != RUNNING {
        downMs := downMs + (e.ts - cursor);
      }
      if e.toState != RUNNING && state == RUNNING {
        incidents := incidents + 1;
      }
      state, cursor := e.toState, e.ts;
    }
    if state != RUNNING {
      downMs := downMs + (until - cursor);
    }
  }

  // ---------- the sweep measures ----------

  lemma {:induction false} DowntimeSplits(initial: string, log: seq<StateEvent>, from: int, middle: int, until: int)
    requires from <= middle <= until
    ensures Downtime(initial, log, from, until) ==
            Downtime(initial, log, from, middle) + Downtime(initial, log, middle, until)
    decreases middle - from
  {
    if from < middle {
      DowntimeSplits(initial, log, from + 1, middle, until);
    }
  }

  /** Downtime depends on the state at each instant only. */
  lemma {:induction false} SameStatesSameDowntime(a: string, log: seq<StateEvent>, b: string,
                                                  other: seq<StateEvent>, from: int, until: int)
    requires forall t | from <= t < until :: (StateAt(a, log, t) == RUNNING) == (StateAt(b, other, t) == RUNNING)
    ensures Downtime(a, log, from, until) == Downtime(b, other, from, until)
    decreases until - from
  {
    if from < until {
      SameStatesSameDowntime(a, log, b, other, from + 1, until);
    }
  }

  lemma {:induction false} ConstantDowntime(initial: string, log: seq<StateEvent>, from: int, until: int)
    requires from <= until
    requires log == [] || until <= log[0].ts
    ensures Downtime(initial, log, from, until) == (if initial != RUNNING then until - from else 0)
    decreases until - from
  {
    if from < until {
      ConstantDowntime(initial, log, from + 1, until);
    }
  }

  /** The sweep over a bucket's events adds up exactly the milliseconds that are not running. */
  lemma {:induction false} SweepMeasures(initial: string, events: seq<StateEvent>, from: int, until: int)
    requires Sorted(events) && Within(events, from, until) && from <= until
    ensures SweptDown(initial, from, events, until) == Downtime(initial, events, from, until)
    decreases |events|
  {
    if events == [] {
      ConstantDowntime(initial, events, from, until);
    } else {
      var first, rest := events[0], events[1..];
      SweepMeasures(first.toState, rest, first.ts, until);
      ConstantDowntime(initial, events, from, first.ts);
      DowntimeSplits(initial, events, from, first.ts, until);
      SameStatesSameDowntime(initial, events, first.toState, rest, first.ts, until);
    }
  }

  // ---------- buckets of a whole log ----------

  ghost function Earlier(log: seq<StateEvent>, from: int): seq<StateEvent> {
    if log == [] || log[0].ts >= from then [] else [log[0]] + Earlier(log[1..], from)
  }

  ghost function During(log: seq<StateEvent>, from: int, until: int): seq<StateEvent> {
    if log == [] then []
    else if from <= log[0].ts < until then [log[0]] + During(log[1..], from, until)
    else During(log[1..], from, until)
  }

  /** `toState` of the last event before the bucket, or running when there is none. */
  ghost function InitialState(assumed: string, log: seq<StateEvent>, from: int): string {
    var before := Earlier(log, from);
    if before == [] then assumed else before[|before| - 1].toState
  }

  ghost function BucketDown(log: seq<StateEvent>, from: int, until: int): int {
    SweptDown(InitialState(RUNNING, log, from), from, During(log, from, until), until)
  }

  ghost function BucketIncidents(log: seq<StateEvent>, from: int, until: int): nat {
    SweptIncidents(InitialState(RUNNING, log, from), During(log, from, until))
  }

  lemma {:induction false} DuringIsOrdered(log: seq<StateEvent>, from: int, until: int)
    requires Sorted(log)
    ensures Sorted(During(log, from, until)) && Within(During(log, from, until), from, until)
    ensures forall e | e in During(log, from, until) :: e in log
  {
    if log != [] {
      DuringIsOrdered(log[1..], from, until);
      var rest := During(log[1..], from, until);
      forall i | 0 <= i < |rest|
        ensures log[0].ts <= rest[i].ts
      {
        assert rest[i] in log[1..];
      }
    }
  }

  /** Inside the bucket, the carried state and the bucket's own events tell the state of the whole log. */
  lemma {:induction false} BucketStates(initial: string, log: seq<StateEvent>, from: int, until: int, t: int)
    requires Sorted(log) && from <= t < until
    ensures StateAt(InitialState(initial, log, from), During(log, from, until), t) == StateAt(initial, log, t)
    decreases |log|
  {
    if log == [] {
    } else if log[0].ts < from {
      BucketStates(log[0].toState, log[1..], from, until, t);
      EarlierCons(initial, log, from);
    } else {
      assert Earlier(log, from) == [];
      NothingEarlier(log, from);
      DuringStates(initial, log, from, until, t);
    }
  }

  lemma {:induction false} EarlierCons(initial: string, log: seq<StateEvent>, from: int)
    requires log != [] && log[0].ts < from
    ensures InitialState(initial, log, from) == InitialState(log[0].toState, log[1..], from)
  {
    var rest := Earlier(log[1..], from);
    assert Earlier(log, from) == [log[0]] + rest;
  }

  lemma {:induction false} NothingEarlier(log: seq<StateEvent>, from: int)
    requires log != [] && log[0].ts >= from && Sorted(log)
    ensures forall i | 0 <= i < |log| :: log[i].ts >= from
  {
  }

  lemma {:induction false} DuringStates(initial: string, log: seq<StateEvent>, from: int, until: int, t: int)
    requires Sorted(log) && from <= t < until && forall i | 0 <= i < |log| :: log[i].ts >= from
    ensures StateAt(initial, During(log, from, until), t) == StateAt(initial, log, t)
    decreases |log|
  {
    if log == [] {
    } else if log[0].ts < until {
      DuringStates(log[0].toState, log[1..], from, until, t);
      assert During(log, from, until)[1..] == During(log[1..], from, until);
    } else {
      NothingDuring(log, from, until);
    }
  }

  lemma {:induction false} NothingDuring(log: seq<StateEvent>, from: int, until: int)
    requires forall i | 0 <= i < |log| :: log[i].ts >= until
    ensures During(log, from, until) == []
  {
    if log != [] {
      NothingDuring(log[1..], from, until);
    }
  }

  /** A bucket's swept downtime is the time of the bucket in which the container was not running. */
  lemma {:induction false} BucketMeasures(log: seq<StateEvent>, from: int, until: int)
    requires Sorted(log) && from <= until
    ensures BucketDown(log, from, until) == Downtime(RUNNING, log, from, until)
    ensures 0 <= BucketDown(log, from, until) <= until - from
  {
    DuringIsOrdered(log, from, until);
    var initial, events := InitialState(RUNNING, log, from), During(log, from, until);
    SweepMeasures(initial, events, from, until);
    forall t | from <= t < until
      ensures StateAt(initial, events, t) == StateAt(RUNNING, log, t)
    {
      BucketStates(RUNNING, log, from, until, t);
    }
    SameStatesSameDowntime(initial, events, RUNNING, log, from, until);
    DowntimeBounded(RUNNING, log, from, until);
  }

  lemma {:induction false} DowntimeBounded(initial: string, log: seq<StateEvent>, from: int, until: int)
    requires from <= until
    ensures Downtime(initial, log, from, until) <= until - from
    decreases until - from
  {
    if from < until {
      DowntimeBounded(initial, log, from + 1, until);
    }
  }

  // ---------- incidents ----------

  lemma {:induction false} ShiftedSize(s: set<nat>, t: set<nat>)
    requires t == set k: nat | k in s :: k + 1
    ensures |t| == |s|
  {
    if s != {} {
      var x :| x in s;
      var smaller := s - {x};
      var shifted := set k: nat | k in smaller :: k + 1;
      ShiftedSize(smaller, shifted);
      forall y
        ensures y in t <==> y in shifted + {x + 1}
      {
        if y in t {
          var k :| k in s && y == k + 1;
          assert k == x || k in smaller;
        }
      }
      assert t == shifted + {x + 1};
    }
  }

  lemma {:induction false} IncidentsCons(initial: string, log: seq<StateEvent>, from: int, until: int)
    requires log != []
    ensures IncidentsIn(initial, log, from, until) ==
            (if from <= log[0].ts < until && StartsIncident(initial, log, 0) then 1 else 0)
            + IncidentsIn(log[0].toState, log[1..], from, until)
  {
    var all := IncidentIndices(initial, log, from, until);
    var later := IncidentIndices(log[0].toState, log[1..], from, until);
    var first: set<nat> := if from <= log[0].ts < until && StartsIncident(initial, log, 0) then {0} else {};
    var shifted := set k: nat | k in later :: k + 1;
    forall k: nat | k > 0
      ensures k in all <==> k - 1 in later
      ensures k in shifted <==> k - 1 in later
    {
      LaterIncident(initial, log, from, until, k - 1);
    }
    assert 0 in all <==> 0 in first;
    assert all == first + shifted;
    ShiftedSize(later, shifted);
  }

  lemma {:induction false} LaterIncident(initial: string, log: seq<StateEvent>, from: int, until: int, k: nat)
    requires log != []
    ensures k + 1 in IncidentIndices(initial, log, from, until) <==>
            k in IncidentIndices(log[0].toState, log[1..], from, until)
  {
    if k + 1 < |log| {
      assert log[1..][k] == log[k + 1];
      if k > 0 {
        assert log[1..][k - 1] == log[k];
      }
    }
  }

  /** The sweep counts exactly the bucket's events that start an incident in the whole log. */
  lemma {:induction false} BucketCountsIncidents(initial: string, log: seq<StateEvent>, from: int, until: int)
    requires Sorted(log) && from <= until
    ensures SweptIncidents(InitialState(initial, log, from), During(log, from, until)) ==
            IncidentsIn(initial, log, from, until)
    decreases |log|
  {
    if log == [] {
      assert IncidentIndices(initial, log, from, until) == {};
    } else {
      IncidentsCons(initial, log, from, until);
      BucketCountsIncidents(log[0].toState, log[1..], from, until);
      if log[0].ts < from {
        EarlierCons(initial, log, from);
      } else {
        NothingEarlier(log, from);
        NoneEarlier(log[1..], from);
        if log[0].ts < until {
          assert During(log, from, until)[1..] == During(log[1..], from, until);
        } else {
          NothingDuring(log, from, until);
          NothingDuring(log[1..], from, until);
        }
      }
    }
  }

  lemma {:induction false} NoneEarlier(log: seq<StateEvent>, from: int)
    requires forall i | 0 <= i < |log| :: log[i].ts >= from
    ensures Earlier(log, from) == []
  {
  }

  lemma {:induction false} IncidentsSplit(initial: string, log: seq<StateEvent>, from: int, middle: int, until: int)
    requires from <= middle <= until
    ensures IncidentsIn(initial, log, from, until) ==
            IncidentsIn(initial, log, from, middle) + IncidentsIn(initial, log, middle, until)
  {
    var a, b := IncidentIndices(initial, log, from, middle), IncidentIndices(initial, log, middle, until);
    assert IncidentIndices(initial, log, from, until) == a + b;
    assert a !! b;
  }

  // ---------- a day and its hours ----------

  ghost function SumDown(log: seq<StateEvent>, from: int, size: nat, n: nat): int
    decreases n
  {
    if n == 0 then 0 else BucketDown(log, from, from + size) + SumDown(log, from + size, size, n - 1)
  }

  ghost function SumIncidents(log: seq<StateEvent>, from: int, size: nat, n: nat): nat
    decreases n
  {
    if n == 0 then 0 else BucketIncidents(log, from, from + size) + SumIncidents(log, from + size, size, n - 1)
  }

  ghost function SumRounded(log: seq<StateEvent>, from: int, size: nat, n: nat): int
    decreases n
  {
    if n == 0 then 0 else RoundSeconds(BucketDown(log, from, from + size)) + SumRounded(log, from + size, size, n - 1)
  }

  /** Before rounding, a long bucket's downtime and incidents are the sums over the short ones it consists of. */
  lemma {:induction false} Additive(log: seq<StateEvent>, from: int, size: nat, n: nat)
    requires Sorted(log)
    ensures SumDown(log, from, size, n) == BucketDown(log, from, from + n * size)
    ensures SumIncidents(log, from, size, n) == BucketIncidents(log, from, from + n * size)
    decreases n
  {
    var until := from + n * size;
    BucketMeasures(log, from, until);
    BucketCountsIncidents(RUNNING, log, from, until);
    if n == 0 {
      assert IncidentIndices(RUNNING, log, from, from) == {};
    } else {
      var middle := from + size;
      assert n * size == size + (n - 1) * size;
      assert middle + (n - 1) * size == until;
      Additive(log, middle, size, n - 1);
      BucketMeasures(log, from, middle);
      BucketMeasures(log, middle, until);
      DowntimeSplits(RUNNING, log, from, middle, until);
      BucketCountsIncidents(RUNNING, log, from, middle);
      BucketCountsIncidents(RUNNING, log, middle, until);
      IncidentsSplit(RUNNING, log, from, middle, until);
    }
  }

  lemma {:induction false} RoundedSum(log: seq<StateEvent>, from: int, size: nat, n: nat)
    ensures -499 * n <= 1000 * SumRounded(log, from, size, n) - SumDown(log, from, size, n) <= 500 * n
    decreases n
  {
    if n > 0 {
      RoundedSum(log, from + size, size, n - 1);
    }
  }

  lemma {:induction false} RoundingArithmetic(total: int, rounded: int, n: nat)
    requires -499 * n <= 1000 * rounded - total <= 500 * n
    ensures 2 * (rounded - RoundSeconds(total)) <= n && 2 * (RoundSeconds(total) - rounded) <= n
  {
    var whole := RoundSeconds(total);
    assert -500 < 1000 * whole - total <= 500;
    assert 1000 * (whole - rounded) <= 500 + 499 * n;
  }

  /** After rounding to seconds, n short buckets are at most n/2 seconds away from the long one. */
  lemma {:induction false} RoundingDrift(log: seq<StateEvent>, from: int, size: nat, n: nat)
    requires Sorted(log)
    ensures var drift := SumRounded(log, from, size, n) - RoundSeconds(BucketDown(log, from, from + n * size));
            2 * drift <= n && 0 <= n + 2 * drift
  {
    Additive(log, from, size, n);
    RoundedSum(log, from, size, n);
    RoundingArithmetic(SumDown(log, from, size, n), SumRounded(log, from, size, n), n);
  }

  /** A day's stored downtime is within 12 seconds of the sum stored for its 24 hours; incidents agree exactly. */
  lemma {:induction false} DayAgainstHours(log: seq<StateEvent>, day: int)
    requires Sorted(log)
    ensures -12 <= SumRounded(log, day, HOUR, 24) - RoundSeconds(BucketDown(log, day, day + DAY)) <= 12
    ensures SumIncidents(log, day, HOUR, 24) == BucketIncidents(log, day, day + DAY)
  {
    RoundingDrift(log, day, HOUR, 24);
    Additive(log, day, HOUR, 24);
  }

  /** The clamps around the rounded downtime never change it. */
  lemma {:induction false} ClampsNeverBind(log: seq<StateEvent>, from: int, seconds: nat)
    requires Sorted(log)
    ensures 0 <= RoundSeconds(BucketDown(log, from, from + 1000 * seconds)) <= seconds
  {
    BucketMeasures(log, from, from + 1000 * seconds);
  }

  /** Rounding gives the nearest second, half a second going up. */
  lemma {:induction false} RoundsToNearest(ms: int)
    ensures -500 < 1000 * RoundSeconds(ms) - ms <= 500
  {
  }
}
