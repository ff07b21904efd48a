/** `rollupAvailability`: one row per involved container and bucket, recomputed from the raw rows. */
module AvailabilityRollup {
  import opened Availability
  import opened Buckets
  import opened JsValues

  datatype EventRow = EventRow(containerId: nat, ts: int, toState: string)

  datatype PointRow = PointRow(containerId: nat, ts: int, health: string)

  datatype Key = Key(targetKey: string, granularity: Granularity, bucket: int)

  /** `uptimePct` is kept before it is cut to three decimals. */
  datatype Row = Row(checksTotal: nat, checksUp: nat, downtimeSec: int, incidents: nat, uptimePct: real)

  predicate InBucket(ts: int, from: int, until: int) { from <= ts < until }

  /** The state events of one container, in the order of the table. */
  function LogOf(rows: seq<EventRow>, id: nat): seq<StateEvent> {
    if rows == [] then []
    else
      LogOf(rows[..|rows| - 1], id) +
      (if rows[|rows| - 1].containerId == id then [StateEvent(rows[|rows| - 1].ts, rows[|rows| - 1].toState)] else [])
  }

  function EventsBetween(rows: seq<EventRow>, from: int, until: int): seq<EventRow> {
    if rows == [] then []
    else
      EventsBetween(rows[..|rows| - 1], from, until) +
      (if InBucket(rows[|rows| - 1].ts, from, until) then [rows[|rows| - 1]] else [])
  }

  /** findFirst with ts < from, latest first. */
  function LatestBefore(rows: seq<EventRow>, id: nat, from: int): string {
    if rows == [] then RUNNING
    else if rows[|rows| - 1].containerId == id && rows[|rows| - 1].ts < from then rows[|rows| - 1].toState
    else LatestBefore(rows[..|rows| - 1], id, from)
  }

  function PointsOf(rows: seq<PointRow>, id: nat, from: int, until: int): seq<PointRow> {
    if rows == [] then []
    else
      PointsOf(rows[..|rows| - 1], id, from, until) +
      (if rows[|rows| - 1].containerId == id && InBucket(rows[|rows| - 1].ts, from, until) then [rows[|rows| - 1]]
       else [])
  }

  function Healthy(points: seq<PointRow>): (n: nat)
    ensures n <= |points|
  {
    if points == [] then 0
    else Healthy(points[..|points| - 1]) + (if points[|points| - 1].health in {"healthy", "none"} then 1 else 0)
  }

  function Involved(events: seq<EventRow>, points: seq<PointRow>, from: int, until: int): set<nat> {
    (set e | e in events && InBucket(e.ts, from, until) :: e.containerId) +
    (set p | p in points && InBucket(p.ts, from, until) :: p.containerId)
  }

  /** The bucket holds a sample or a state event of the container. */
  ghost predicate SeenIn(events: seq<EventRow>, points: seq<PointRow>, id: nat, from: int, until: int) {
    || (exists p :: p in points && p.containerId == id && from <= p.ts < until)
    || (exists e :: e in events && e.containerId == id && from <= e.ts < until)
  }

  /** The table is read in time order. */
  ghost predicate Ordered(rows: seq<EventRow>) {
    forall i, j | 0 <= i < j < |rows| :: rows[i].ts <= rows[j].ts
  }

  ghost predicate NamesUnique(containers: map<nat, string>) {
    forall a, b | a in containers && b in containers && containers[a] == containers[b] :: a == b
  }

  /** The checks made of a container within the bucket. */
  ghost function Checks(points: seq<PointRow>, id: nat, from: int, until: int): set<nat> {
    set i: nat | i < |points| && points[i].containerId == id && from <= points[i].ts < until
  }

  /** Those that found it healthy, or running without a health check. */
  ghost function UpChecks(points: seq<PointRow>, id: nat, from: int, until: int): set<nat> {
    set i | i in Checks(points, id, from, until) && (points[i].health == "healthy" || points[i].health == "none")
  }

  lemma {:induction false} ChecksAreCounted(points: seq<PointRow>, id: nat, from: int, until: int)
    ensures |PointsOf(points, id, from, until)| == |Checks(points, id, from, until)|
    ensures Healthy(PointsOf(points, id, from, until)) == |UpChecks(points, id, from, until)|
  {
    hide Checks, UpChecks;
    if points == [] {
      NoChecks(points, id, from, until);
    } else {
      var n := |points| - 1;
      ChecksAreCounted(points[..n], id, from, until);
      var last := ChecksNext(points, id, from, until);
      var up := UpChecksNext(points, id, from, until);
      var before := PointsOf(points[..n], id, from, until);
      assert (before + [points[n]])[..|before|] == before;
      assert before + [] == before;
    }
  }

  lemma {:induction false} NoChecks(points: seq<PointRow>, id: nat, from: int, until: int)
    requires points == []
    ensures Checks(points, id, from, until) == {} && UpChecks(points, id, from, until) == {}
  {
  }

  lemma {:induction false} ChecksNext(points: seq<PointRow>, id: nat, from: int, until: int) returns (last: set<nat>)
    requires points != []
    ensures var n := |points| - 1;
            && last == (if points[n].containerId == id && from <= points[n].ts < until then {n} else {})
            && |Checks(points, id, from, until)| == |Checks(points[..n], id, from, until)| + |last|
  {
    var n := |points| - 1;
    last := if points[n].containerId == id && from <= points[n].ts < until then {n} else {};
    var before, after := Checks(points[..n], id, from, until), Checks(points, id, from, until);
    forall i: nat
      ensures i < n ==> (i in after <==> i in before)
    {
      assert i < n ==> points[..n][i] == points[i];
    }
    OneMore(before, after, n);
  }

  lemma {:induction false} UpChecksNext(points: seq<PointRow>, id: nat, from: int, until: int) returns (last: set<nat>)
    requires points != []
    ensures var n := |points| - 1;
            var inside := points[n].containerId == id && from <= points[n].ts < until;
            && last == (if inside && (points[n].health == "healthy" || points[n].health == "none") then {n} else {})
            && |UpChecks(points, id, from, until)| == |UpChecks(points[..n], id, from, until)| + |last|
  {
    var n := |points| - 1;
    var inside := points[n].containerId == id && from <= points[n].ts < until;
    last := if inside && (points[n].health == "healthy" || points[n].health == "none") then {n} else {};
    var before, after := UpChecks(points[..n], id, from, until), UpChecks(points, id, from, until);
    forall i: nat
      ensures i < n ==> (i in after <==> i in before)
    {
      assert i < n ==> points[..n][i] == points[i];
    }
    OneMore(before, after, n);
  }

  /** What a bucket's row has to say, in terms of when the container was not running. */
  ghost predicate Describes(row: Row, events: seq<EventRow>, points: seq<PointRow>, id: nat, from: int, seconds: nat)
    requires seconds > 0
  {
    var until := from + 1000 * seconds;
    && row.downtimeSec == RoundSeconds(Downtime(RUNNING, LogOf(events, id), from, until))
    && row.incidents == IncidentsIn(RUNNING, LogOf(events, id), from, until)
    && row.checksTotal == |Checks(points, id, from, until)| && row.checksUp == |UpChecks(points, id, from, until)|
    && row.uptimePct == (seconds - row.downtimeSec) as real / seconds as real * 100.0
    && 0.0 <= row.uptimePct <= 100.0
  }

  lemma {:induction false} LogIsSorted(rows: seq<EventRow>, id: nat)
    requires Ordered(rows)
    ensures Sorted(LogOf(rows, id))
    ensures forall e | e in LogOf(rows, id) :: exists i | 0 <= i < |rows| :: rows[i].ts == e.ts
  {
    if rows != [] {
      var n := |rows| - 1;
      LogIsSorted(rows[..n], id);
      forall e | e in LogOf(rows, id)
        ensures exists i | 0 <= i < |rows| :: rows[i].ts == e.ts
      {
        if e in LogOf(rows[..n], id) {
          var i :| 0 <= i < n && rows[..n][i].ts == e.ts;
          assert rows[i].ts == e.ts;
        } else {
          assert rows[n].ts == e.ts;
        }
      }
      var before := LogOf(rows[..n], id);
      forall i | 0 <= i < |before|
        ensures before[i].ts <= rows[n].ts
      {
        assert before[i] in before;
      }
    }
  }

  lemma {:induction false} DuringSnoc(log: seq<StateEvent>, e: StateEvent, from: int, until: int)
    ensures During(log + [e], from, until) == During(log, from, until) + (if from <= e.ts < until then [e] else [])
  {
    if log == [] {
      assert ([] + [e])[1..] == [];
    } else {
      DuringSnoc(log[1..], e, from, until);
      assert (log + [e])[1..] == log[1..] + [e];
    }
  }

  /** Selecting the bucket and then the container is selecting the container and then the bucket. */
  lemma {:induction false} SelectionsCommute(rows: seq<EventRow>, id: nat, from: int, until: int)
    ensures LogOf(EventsBetween(rows, from, until), id) == During(LogOf(rows, id), from, until)
  {
    if rows != [] {
      var n := |rows| - 1;
      var last := rows[n];
      SelectionsCommute(rows[..n], id, from, until);
      DuringSnoc(LogOf(rows[..n], id), StateEvent(last.ts, last.toState), from, until);
      var kept := EventsBetween(rows[..n], from, until);
      assert kept + [] == kept;
      if InBucket(last.ts, from, until) {
        assert (kept + [last])[..|kept|] == kept;
      }
      if last.containerId != id {
        assert LogOf(rows, id) == LogOf(rows[..n], id) + [];
        assert LogOf(rows[..n], id) + [] == LogOf(rows[..n], id);
        assert LogOf(kept, id) + [] == LogOf(kept, id);
      }
    }
  }

  lemma {:induction false} InitialSnoc(log: seq<StateEvent>, e: StateEvent, from: int)
    requires Sorted(log + [e])
    ensures InitialState(RUNNING, log + [e], from) ==
            if e.ts < from then e.toState else InitialState(RUNNING, log, from)
  {
    EarlierSnoc(log, e, from);
  }

  lemma {:induction false} EarlierSnoc(log: seq<StateEvent>, e: StateEvent, from: int)
    requires Sorted(log + [e])
    ensures Earlier(log + [e], from) == if e.ts < from then log + [e] else Earlier(log, from)
  {
    var longer := log + [e];
    if log == [] {
      assert longer[1..] == [];
    } else {
      assert longer[1..] == log[1..] + [e];
      assert longer[0] == log[0] && longer[|log|] == e;
      EarlierSnoc(log[1..], e, from);
    }
  }

  lemma {:induction false} LatestIsInitial(rows: seq<EventRow>, id: nat, from: int)
    requires Ordered(rows)
    ensures LatestBefore(rows, id, from) == InitialState(RUNNING, LogOf(rows, id), from)
  {
    hide InitialState, Sorted;
    if rows == [] {
      NothingInitial(from);
    } else {
      var n := |rows| - 1;
      var last := rows[n];
      LatestIsInitial(rows[..n], id, from);
      LogIsSorted(rows, id);
      if last.containerId == id {
        InitialSnoc(LogOf(rows[..n], id), StateEvent(last.ts, last.toState), from);
      } else {
        assert LogOf(rows[..n], id) + [] == LogOf(rows[..n], id);
      }
    }
  }

  lemma {:induction false} NothingInitial(from: int)
    ensures InitialState(RUNNING, [], from) == RUNNING
  {
  }

  /** The sweep over the selected rows, in terms of the container's whole log. */
  lemma {:induction false} SweptBucket(rows: seq<EventRow>, id: nat, from: int, seconds: nat)
    requires Ordered(rows)
    ensures var until := from + 1000 * seconds;
            var initial, events := LatestBefore(rows, id, from), LogOf(EventsBetween(rows, from, until), id);
            && SweptDown(initial, from, events, until) == Downtime(RUNNING, LogOf(rows, id), from, until)
            && SweptIncidents(initial, events) == IncidentsIn(RUNNING, LogOf(rows, id), from, until)
            && 0 <= RoundSeconds(SweptDown(initial, from, events, until)) <= seconds
  {
    hide LogOf, EventsBetween, LatestBefore, Ordered, SweptDown, SweptIncidents, Downtime, IncidentsIn;
    var until := from + 1000 * seconds;
    var log := LogOf(rows, id);
    LogIsSorted(rows, id);
    LatestIsInitial(rows, id, from);
    SelectionsCommute(rows, id, from, until);
    BucketMeasures(log, from, until);
    BucketCountsIncidents(RUNNING, log, from, until);
    ClampsNeverBind(log, from, seconds);
  }

  class RollupService {
    var stateEvents: seq<EventRow>
    var points: seq<PointRow>
    var containers: map<nat, string>
    var availability: map<Key, Row>

    constructor (stateEvents: seq<EventRow>, points: seq<PointRow>, containers: map<nat, string>)
      ensures this.stateEvents == stateEvents && this.points == points && this.containers == containers
      ensures availability == map[]
    {
      this.stateEvents, this.points, this.containers, availability := stateEvents, points, containers, map[];
    }

    /** The row of one container for one bucket. */
    method ContainerRow(id: nat, from: int, seconds: nat) returns (row: Row)
      requires seconds > 0 && Ordered(stateEvents)
      ensures Describes(row, stateEvents, points, id, from, seconds)
    {
      hide LogOf, EventsBetween, LatestBefore, PointsOf, Healthy, Ordered, SweptDown, SweptIncidents, Downtime,
        IncidentsIn;
      var until := from + 1000 * seconds;
      var initial := LatestBefore(stateEvents, id, from);
      var events := LogOf(EventsBetween(stateEvents, from, until), id);
      var downMs, incidents := Sweep(initial, events, from, until);
      var rounded := RoundSeconds(downMs);
      var downtimeSec := if rounded < 0 then 0 else rounded;
      downtimeSec := if seconds < downtimeSec then seconds else downtimeSec;
      var checks := PointsOf(points, id, from, until);
      var uptimePct := (seconds - downtimeSec) as real / seconds as real * 100.0;
      row := Row(|checks|, Healthy(checks), downtimeSec, incidents, uptimePct);
      SweptBucket(stateEvents, id, from, seconds);
      ChecksAreCounted(points, id, from, until);
      FractionInRange(seconds - downtimeSec, seconds);
    }

    /**
      * One upsert per container whose name is known and that has a sample or a state event in the
      * bucket; every other row stays.
      */
    method RollupAvailability(granularity: Granularity, from: int, seconds: nat)
      requires seconds > 0 && Ordered(stateEvents) && NamesUnique(containers)
      modifies this`availability
      ensures forall id | id in containers && SeenIn(stateEvents, points, id, from, from + 1000 * seconds) ::
                var key := Key(containers[id], granularity, from);
                key in availability && Describes(availability[key], stateEvents, points, id, from, seconds)
      ensures forall key ::
                (forall id | id in containers && SeenIn(stateEvents, points, id, from, from + 1000 * seconds) ::
                   key != Key(containers[id], granularity, from))
                ==> (key in availability <==> key in old(availability)) &&
                    (key in availability ==> availability[key] == old(availability[key]))
    {
      hide Describes, NamesUnique, Ordered, Involved, SeenIn;
      var pending := Involved(stateEvents, points, from, from + 1000 * seconds);
      ghost var all := pending;
      InvolvedAreSeen(stateEvents, points, from, from + 1000 * seconds);
      while pending != {}
        invariant pending <= all
        invariant forall id | id in all - pending && id in containers ::
                    var key := Key(containers[id], granularity, from);
                    key in availability && Describes(availability[key], stateEvents, points, id, from, seconds)
        invariant forall key ::
                    (forall id | id in all && id in containers :: key != Key(containers[id], granularity, from))
                    ==> (key in availability <==> key in old(availability)) &&
                        (key in availability ==> availability[key] == old(availability[key]))
        decreases |pending|
      {
        var id :| id in pending;
        pending := pending - {id};
        if id in containers {
          var row := ContainerRow(id, from, seconds);
          NameTellsContainer(containers, id);
          availability := availability[Key(containers[id], granularity, from) := row];
        }
      }
    }
  }

  lemma {:induction false} InvolvedAreSeen(events: seq<EventRow>, points: seq<PointRow>, from: int, until: int)
    ensures forall id :: id in Involved(events, points, from, until) <==> SeenIn(events, points, id, from, until)
  {
  }

  lemma {:induction false} NameTellsContainer(containers: map<nat, string>, id: nat)
    requires NamesUnique(containers) && id in containers
    ensures forall other | other in containers && containers[other] == containers[id] :: other == id
  {
  }

  lemma {:induction false} FractionInRange(part: int, whole: nat)
    requires 0 <= part <= whole && whole > 0
    ensures 0.0 <= part as real / whole as real * 100.0 <= 100.0
  {
    var fraction := part as real / whole as real;
    assert fraction * whole as real == part as real;
    assert 0.0 <= fraction <= 1.0;
  }
}
