/** What deleting state events older than 180 days does to the availability rollup of a recent bucket. */
module EventRetention {
  import opened Availability
  import opened Buckets

  const EVENT_RETENTION: nat := 180 * DAY

  ghost function KeptEvents(log: seq<StateEvent>, cutoff: int): seq<StateEvent> {
    if log == [] then []
    else if log[0].ts >= cutoff then [log[0]] + KeptEvents(log[1..], cutoff)
    else KeptEvents(log[1..], cutoff)
  }

  /** The deletion removes exactly the events before the cutoff. */
  lemma {:induction false} KeptExactly(log: seq<StateEvent>, cutoff: int, e: StateEvent)
    ensures multiset(KeptEvents(log, cutoff))[e] == if e.ts >= cutoff then multiset(log)[e] else 0
  {
    if log != [] {
      KeptExactly(log[1..], cutoff, e);
      assert log == [log[0]] + log[1..];
    }
  }

  /** Some stored event still tells the state at the bucket's start. */
  ghost predicate StateStillStored(log: seq<StateEvent>, cutoff: int, from: int) {
    Earlier(KeptEvents(log, cutoff), from) != []
  }

  lemma {:induction false} KeptDuring(log: seq<StateEvent>, cutoff: int, from: int, until: int)
    requires cutoff <= from
    ensures During(KeptEvents(log, cutoff), from, until) == During(log, from, until)
  {
    if log != [] {
      KeptDuring(log[1..], cutoff, from, until);
      if log[0].ts >= cutoff {
        assert KeptEvents(log, cutoff)[1..] == KeptEvents(log[1..], cutoff);
      }
    }
  }

  lemma {:induction false} NothingDeleted(log: seq<StateEvent>, cutoff: int)
    requires forall i | 0 <= i < |log| :: log[i].ts >= cutoff
    ensures KeptEvents(log, cutoff) == log
  {
    if log != [] {
      NothingDeleted(log[1..], cutoff);
    }
  }

  /** The state carried into the bucket is the true one, or running if every earlier event is gone. */
  lemma {:induction false} CarriedState(log: seq<StateEvent>, cutoff: int, from: int)
    requires Sorted(log) && cutoff <= from
    ensures InitialState(RUNNING, KeptEvents(log, cutoff), from) ==
            (if StateStillStored(log, cutoff, from) then InitialState(RUNNING, log, from) else RUNNING)
  {
    if log != [] {
      if log[0].ts >= cutoff {
        NothingDeleted(log, cutoff);
      } else {
        CarriedState(log[1..], cutoff, from);
        var rest := Earlier(log[1..], from);
        assert Earlier(log, from) == [log[0]] + rest;
        LaterStays(log[1..], cutoff, from);
      }
    }
  }

  lemma {:induction false} LaterStays(log: seq<StateEvent>, cutoff: int, from: int)
    requires Sorted(log) && cutoff <= from
    ensures StateStillStored(log, cutoff, from) ==> Earlier(log, from) != []
  {
    if log != [] {
      if log[0].ts >= cutoff {
        NothingDeleted(log, cutoff);
      }
    }
  }

  lemma {:induction false} SweepFrom(state: string, events: seq<StateEvent>, from: int, until: int)
    ensures SweptDown(state, from, events, until) ==
            SweptDown(RUNNING, from, events, until) +
            (if state == RUNNING then 0 else if events == [] then until - from else events[0].ts - from)
    ensures SweptIncidents(state, events) ==
            SweptIncidents(RUNNING, events) -
            (if state != RUNNING && events != [] && events[0].toState != RUNNING then 1 else 0)
  {
  }

  /**
    * A bucket's downtime survives the deletion exactly when an earlier event is still stored, or
    * the container was running at the bucket's start, or the bucket starts with an event.
    */
  lemma {:induction false} DowntimeSurvives(log: seq<StateEvent>, cutoff: int, from: int, until: int)
    requires Sorted(log) && cutoff <= from < until
    ensures BucketDown(KeptEvents(log, cutoff), from, until) == BucketDown(log, from, until) <==>
              || StateStillStored(log, cutoff, from)
              || InitialState(RUNNING, log, from) == RUNNING
              || (During(log, from, until) != [] && During(log, from, until)[0].ts == from)
  {
    hide InitialState, SweptDown, SweptIncidents, StateStillStored;
    KeptDuring(log, cutoff, from, until);
    CarriedState(log, cutoff, from);
    SweepFrom(InitialState(RUNNING, log, from), During(log, from, until), from, until);
    DuringIsOrdered(log, from, until);
  }

  /** Its incident count survives exactly unless the lost outage is followed by one more event that is not running. */
  lemma {:induction false} IncidentsSurvive(log: seq<StateEvent>, cutoff: int, from: int, until: int)
    requires Sorted(log) && cutoff <= from < until
    ensures BucketIncidents(KeptEvents(log, cutoff), from, until) == BucketIncidents(log, from, until) <==>
              || StateStillStored(log, cutoff, from)
              || InitialState(RUNNING, log, from) == RUNNING
              || During(log, from, until) == []
              || During(log, from, until)[0].toState == RUNNING
  {
    hide InitialState, SweptDown, SweptIncidents, StateStillStored;
    KeptDuring(log, cutoff, from, until);
    CarriedState(log, cutoff, from);
    SweepFrom(InitialState(RUNNING, log, from), During(log, from, until), from, until);
  }

  /** A container that stopped and never came back is reported fully up once its last event is 180 days old. */
  lemma {:induction false} LongOutageVanishes(stopped: int, from: int)
    requires stopped + 180 * 86_400_000 < from + 3_600_000
    ensures var log, cutoff := [StateEvent(stopped, "exited")], from + HOUR - EVENT_RETENTION;
            BucketDown(log, from, from + HOUR) == HOUR && BucketDown(KeptEvents(log, cutoff), from, from + HOUR) == 0
  {
    var log, cutoff := [StateEvent(stopped, "exited")], from + HOUR - EVENT_RETENTION;
    assert log[1..] == [];
    assert KeptEvents(log, cutoff) == [];
    assert Earlier(log, from) == log && During(log, from, from + HOUR) == [];
  }
}
