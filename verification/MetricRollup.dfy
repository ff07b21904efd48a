/** `rollupContainers`: one row per container with samples in the bucket, recomputed from the raw samples. */
module MetricRollup {
  import opened Buckets
  import opened JsValues
  import Percentile

  datatype Point = Point(containerId: nat, ts: int, cpuPercent: real, memUsedMb: real, restartCount: Option<nat>,
                         health: string)

  datatype Key = Key(containerId: nat, granularity: Granularity, bucket: int)

  /** Averages and percentile are kept before they are cut to one or two decimals. */
  datatype Row = Row(sampleCount: nat, cpuAvg: real, cpuMax: real, cpuP95: Option<real>, memAvgMb: real, memMaxMb: real,
                     restartsDelta: nat, unhealthySec: int)

  function Within(points: seq<Point>, from: int, until: int): seq<Point> {
    if points == [] then []
    else
      Within(points[..|points| - 1], from, until) +
      (if from <= points[|points| - 1].ts < until then [points[|points| - 1]] else [])
  }

  function OfContainer(points: seq<Point>, id: nat): seq<Point> {
    if points == [] then []
    else
      OfContainer(points[..|points| - 1], id) +
      (if points[|points| - 1].containerId == id then [points[|points| - 1]] else [])
  }

  function Ids(points: seq<Point>): set<nat> { set p | p in points :: p.containerId }

  // ---------- one row ----------

  function Cpus(points: seq<Point>): (s: seq<real>)
    ensures |s| == |points|
  {
    if points == [] then [] else Cpus(points[..|points| - 1]) + [points[|points| - 1].cpuPercent]
  }

  function Mems(points: seq<Point>): (s: seq<real>)
    ensures |s| == |points|
  {
    if points == [] then [] else Mems(points[..|points| - 1]) + [points[|points| - 1].memUsedMb]
  }

  /** The restart counters that are known. */
  function Restarts(points: seq<Point>): seq<nat> {
    if points == [] then []
    else
      Restarts(points[..|points| - 1]) +
      (if points[|points| - 1].restartCount.Some? then [points[|points| - 1].restartCount.value] else [])
  }

  function Unhealthy(points: seq<Point>): (n: nat)
    ensures n <= |points|
  {
    if points == [] then 0
    else Unhealthy(points[..|points| - 1]) + (if points[|points| - 1].health == "unhealthy" then 1 else 0)
  }

  function Sum(s: seq<real>): real {
    if s == [] then 0.0 else Sum(s[..|s| - 1]) + s[|s| - 1]
  }

  function Mean(s: seq<real>): real
    requires s != []
  {
    Sum(s) / |s| as real
  }

  function Maximum(s: seq<real>): real
    requires s != []
  {
    if |s| == 1 || Maximum(s[..|s| - 1]) < s[|s| - 1] then s[|s| - 1] else Maximum(s[..|s| - 1])
  }

  function Highest(s: seq<nat>): nat
    requires s != []
  {
    if |s| == 1 || Highest(s[..|s| - 1]) < s[|s| - 1] then s[|s| - 1] else Highest(s[..|s| - 1])
  }

  function Lowest(s: seq<nat>): nat
    requires s != []
  {
    if |s| == 1 || Lowest(s[..|s| - 1]) > s[|s| - 1] then s[|s| - 1] else Lowest(s[..|s| - 1])
  }

  lemma {:induction false} MaximumIsLargest(s: seq<real>)
    requires s != []
    ensures Maximum(s) in s && forall i | 0 <= i < |s| :: s[i] <= Maximum(s)
  {
    if |s| > 1 {
      MaximumIsLargest(s[..|s| - 1]);
    }
  }

  lemma {:induction false} LowestAndHighest(s: seq<nat>)
    requires s != []
    ensures Lowest(s) <= Highest(s)
    ensures forall i | 0 <= i < |s| :: Lowest(s) <= s[i] <= Highest(s)
  {
    if |s| > 1 {
      LowestAndHighest(s[..|s| - 1]);
    }
  }

  /** Growth of the counter, never below 0. */
  function RestartsDelta(restarts: seq<nat>): nat {
    if restarts == [] || Highest(restarts) < Lowest(restarts) then 0 else Highest(restarts) - Lowest(restarts)
  }

  /** Unhealthy samples, each standing for an equal share of the bucket. */
  function UnhealthySec(unhealthy: nat, samples: nat, bucketSec: nat): int
    requires samples > 0
  {
    var interval := bucketSec as real / samples as real;
    var rounded := (unhealthy as real * interval + 0.5).Floor;
    if bucketSec < rounded then bucketSec else rounded
  }

  function Summary(points: seq<Point>, bucketSec: nat): Row
    requires points != []
  {
    Row(|points|, Mean(Cpus(points)), Maximum(Cpus(points)), Percentile.Of(Cpus(points), 95), Mean(Mems(points)),
        Maximum(Mems(points)), RestartsDelta(Restarts(points)), UnhealthySec(Unhealthy(points), |points|, bucketSec))
  }

  lemma {:induction false} Attained(s: seq<nat>)
    requires s != []
    ensures Lowest(s) in s && Highest(s) in s
  {
    if |s| > 1 {
      Attained(s[..|s| - 1]);
    }
  }

  /** The clamp never binds, and the delta is the largest difference between any two counters of the bucket. */
  lemma {:induction false} RestartsDeltaIsSpread(s: seq<nat>)
    requires s != []
    ensures forall i, j | 0 <= i < |s| && 0 <= j < |s| :: s[j] <= s[i] + RestartsDelta(s)
    ensures exists i, j | 0 <= i < |s| && 0 <= j < |s| :: s[j] == s[i] + RestartsDelta(s)
  {
    LowestAndHighest(s);
    Attained(s);
    var i :| 0 <= i < |s| && s[i] == Lowest(s);
    var j :| 0 <= j < |s| && s[j] == Highest(s);
    assert s[j] == s[i] + RestartsDelta(s);
  }

  lemma {:induction false} SumAtMost(s: seq<real>, bound: real)
    requires forall i | 0 <= i < |s| :: s[i] <= bound
    ensures Sum(s) <= |s| as real * bound
  {
    if s != [] {
      SumAtMost(s[..|s| - 1], bound);
      assert |s| as real * bound == (|s| - 1) as real * bound + bound;
    }
  }

  lemma {:induction false} MeanAtMostMaximum(s: seq<real>)
    requires s != []
    ensures Mean(s) <= Maximum(s)
  {
    MaximumIsLargest(s);
    SumAtMost(s, Maximum(s));
    QuotientAtMost(Sum(s), |s|, Maximum(s));
  }

  lemma {:induction false} QuotientAtMost(sum: real, n: nat, bound: real)
    requires n > 0 && sum <= n as real * bound
    ensures sum / n as real <= bound
  {
    assert sum / n as real * n as real == sum;
  }

  /** The share of unhealthy samples, as seconds of the bucket. */
  ghost function Share(part: nat, whole: nat, bucketSec: nat): real
    requires whole > 0
  {
    part as real * (bucketSec as real / whole as real)
  }

  lemma {:induction false} ShareOfBucket(part: nat, whole: nat, bucketSec: nat)
    requires part <= whole && whole > 0
    ensures 0 <= UnhealthySec(part, whole, bucketSec) <= bucketSec
    ensures Share(part, whole, bucketSec) - 0.5 < UnhealthySec(part, whole, bucketSec) as real <=
            Share(part, whole, bucketSec) + 0.5
    ensures part == whole ==> UnhealthySec(part, whole, bucketSec) == bucketSec
  {
    var interval := bucketSec as real / whole as real;
    assert interval * whole as real == bucketSec as real;
    assert interval >= 0.0;
    ShareAtMost(part, whole, interval);
  }

  lemma {:induction false} ShareAtMost(part: nat, whole: nat, interval: real)
    requires part <= whole && interval >= 0.0
    ensures 0.0 <= part as real * interval <= interval * whole as real
  {
  }

  /** A row's numbers fit together. */
  lemma {:induction false} RowFitsTogether(points: seq<Point>, bucketSec: nat)
    requires points != []
    ensures var row := Summary(points, bucketSec);
            && row.cpuAvg <= row.cpuMax && row.memAvgMb <= row.memMaxMb
            && row.cpuP95.Some? && row.cpuP95.value in Cpus(points) && row.cpuP95.value <= row.cpuMax
            && Percentile.NearestRank(Cpus(points), 95, row.cpuP95.value)
            && 0 <= row.unhealthySec <= bucketSec
            && Share(Unhealthy(points), |points|, bucketSec) - 0.5 < row.unhealthySec as real
                 <= Share(Unhealthy(points), |points|, bucketSec) + 0.5
  {
    hide Mean, Maximum, Percentile.Nearest, UnhealthySec, Percentile.Reaches;
    var cpus := Cpus(points);
    MaximumIsLargest(cpus);
    MeanAtMostMaximum(cpus);
    MeanAtMostMaximum(Mems(points));
    Percentile.PercentileIsNearestRank(cpus, 95, Percentile.Nearest(cpus, 95));
    ShareOfBucket(Unhealthy(points), |points|, bucketSec);
  }

  // ---------- the columns, from the samples ----------

  ghost function TotalCpu(points: seq<Point>): real {
    if points == [] then 0.0 else points[0].cpuPercent + TotalCpu(points[1..])
  }

  ghost function TotalMem(points: seq<Point>): real {
    if points == [] then 0.0 else points[0].memUsedMb + TotalMem(points[1..])
  }

  ghost function UnhealthySamples(points: seq<Point>): set<nat> {
    set i: nat | i < |points| && points[i].health == "unhealthy"
  }

  ghost predicate KnowsRestarts(p: Point) { p.restartCount.Some? }

  /** The largest difference between two known counters, and 0 if none is known. */
  ghost predicate IsRestartSpread(points: seq<Point>, delta: nat) {
    if exists p :: p in points && KnowsRestarts(p) then
      && (forall p, q | p in points && q in points && KnowsRestarts(p) && KnowsRestarts(q) ::
            q.restartCount.value <= p.restartCount.value + delta)
      && (exists p, q :: p in points && q in points && KnowsRestarts(p) && KnowsRestarts(q) &&
            q.restartCount.value == p.restartCount.value + delta)
    else delta == 0
  }

  /** The nearest-rank 95th percentile of the samples' CPU use. */
  ghost predicate IsCpuP95(points: seq<Point>, value: real) {
    forall cpus: seq<real> | |cpus| == |points| && (forall i | 0 <= i < |points| :: cpus[i] == points[i].cpuPercent) ::
      Percentile.NearestRank(cpus, 95, value)
  }

  /** What each column of a row says of the samples it summarises. */
  ghost predicate Summarises(row: Row, points: seq<Point>, bucketSec: nat) {
    && points != [] && row.sampleCount == |points|
    && row.cpuAvg * |points| as real == TotalCpu(points)
    && (exists p :: p in points && p.cpuPercent == row.cpuMax) && (forall p | p in points :: p.cpuPercent <= row.cpuMax)
    && row.cpuP95.Some? && IsCpuP95(points, row.cpuP95.value)
    && row.memAvgMb * |points| as real == TotalMem(points)
    && (exists p :: p in points && p.memUsedMb == row.memMaxMb)
    && (forall p | p in points :: p.memUsedMb <= row.memMaxMb)
    && IsRestartSpread(points, row.restartsDelta)
    && var share := |UnhealthySamples(points)| as real * (bucketSec as real / |points| as real);
       share - 0.5 < row.unhealthySec as real <= share + 0.5
  }

  lemma {:induction false} CpusAre(points: seq<Point>)
    ensures forall i | 0 <= i < |points| :: Cpus(points)[i] == points[i].cpuPercent
  {
    if points != [] {
      CpusAre(points[..|points| - 1]);
    }
  }

  lemma {:induction false} MemsAre(points: seq<Point>)
    ensures forall i | 0 <= i < |points| :: Mems(points)[i] == points[i].memUsedMb
  {
    if points != [] {
      MemsAre(points[..|points| - 1]);
    }
  }

  lemma {:induction false} SumCons(x: real, s: seq<real>)
    ensures Sum([x] + s) == x + Sum(s)
  {
    if s == [] {
      assert [x][..0] == [];
    } else {
      assert ([x] + s)[..|s|] == [x] + s[..|s| - 1];
      SumCons(x, s[..|s| - 1]);
    }
  }

  lemma {:induction false} Totals(points: seq<Point>)
    ensures Sum(Cpus(points)) == TotalCpu(points) && Sum(Mems(points)) == TotalMem(points)
  {
    hide Cpus, Mems;
    CpusAre(points);
    MemsAre(points);
    if points != [] {
      Totals(points[1..]);
      CpusAre(points[1..]);
      MemsAre(points[1..]);
      assert Cpus(points) == [points[0].cpuPercent] + Cpus(points[1..]);
      assert Mems(points) == [points[0].memUsedMb] + Mems(points[1..]);
      SumCons(points[0].cpuPercent, Cpus(points[1..]));
      SumCons(points[0].memUsedMb, Mems(points[1..]));
    } else {
      assert Cpus(points) == [] && Mems(points) == [];
    }
  }

  lemma {:induction false} UnhealthyAre(points: seq<Point>)
    ensures Unhealthy(points) == |UnhealthySamples(points)|
  {
    if points == [] {
      assert UnhealthySamples(points) == {};
    } else {
      var n := |points| - 1;
      UnhealthyAre(points[..n]);
      var last: set<nat> := if points[n].health == "unhealthy" then {n} else {};
      assert UnhealthySamples(points) == UnhealthySamples(points[..n]) + last;
    }
  }

  lemma {:induction false} RestartsAre(points: seq<Point>)
    ensures forall p | p in points && KnowsRestarts(p) :: p.restartCount.value in Restarts(points)
    ensures forall r | r in Restarts(points) :: exists p :: p in points && KnowsRestarts(p) && p.restartCount.value == r
  {
    if points != [] {
      var n := |points| - 1;
      RestartsAre(points[..n]);
      assert points == points[..n] + [points[n]];
      forall r | r in Restarts(points)
        ensures exists p :: p in points && KnowsRestarts(p) && p.restartCount.value == r
      {
        if r in Restarts(points[..n]) {
          var p :| p in points[..n] && KnowsRestarts(p) && p.restartCount.value == r;
          assert p in points;
        } else {
          assert points[n] in points && KnowsRestarts(points[n]) && points[n].restartCount.value == r;
        }
      }
    }
  }

  lemma {:induction false} SpreadOfRestarts(points: seq<Point>)
    ensures IsRestartSpread(points, RestartsDelta(Restarts(points)))
  {
    hide RestartsDelta, Restarts;
    var s := Restarts(points);
    RestartsAre(points);
    if p :| p in points && KnowsRestarts(p) {
      assert p.restartCount.value in s;
      RestartsDeltaIsSpread(s);
      var i, j :| 0 <= i < |s| && 0 <= j < |s| && s[j] == s[i] + RestartsDelta(s);
      assert s[i] in s && s[j] in s;
      var low :| low in points && KnowsRestarts(low) && low.restartCount.value == s[i];
      var high :| high in points && KnowsRestarts(high) && high.restartCount.value == s[j];
      assert high.restartCount.value == low.restartCount.value + RestartsDelta(s);
      forall p, q | p in points && q in points && KnowsRestarts(p) && KnowsRestarts(q)
        ensures q.restartCount.value <= p.restartCount.value + RestartsDelta(s)
      {
        var a :| 0 <= a < |s| && s[a] == p.restartCount.value;
        var b :| 0 <= b < |s| && s[b] == q.restartCount.value;
        assert s[b] <= s[a] + RestartsDelta(s);
      }
    } else {
      NoneKnown(points);
      NoDelta(s);
    }
  }

  lemma {:induction false} NoneKnown(points: seq<Point>)
    requires forall p | p in points :: !KnowsRestarts(p)
    ensures Restarts(points) == []
  {
    if points != [] {
      assert points[|points| - 1] in points;
      NoneKnown(points[..|points| - 1]);
    }
  }

  lemma {:induction false} NoDelta(s: seq<nat>)
    requires s == []
    ensures RestartsDelta(s) == 0
  {
  }

  lemma {:induction false} AverageAndMaximum(s: seq<real>)
    requires s != []
    ensures Mean(s) * |s| as real == Sum(s)
    ensures exists i | 0 <= i < |s| :: s[i] == Maximum(s)
    ensures forall i | 0 <= i < |s| :: s[i] <= Maximum(s)
  {
    MaximumIsLargest(s);
  }

  lemma {:induction false} P95OfSamples(points: seq<Point>)
    requires points != []
    ensures IsCpuP95(points, Percentile.Nearest(Cpus(points), 95))
  {
    hide Percentile.Nearest, Percentile.NearestRank;
    CpusAre(points);
    Percentile.PercentileIsNearestRank(Cpus(points), 95, Percentile.Nearest(Cpus(points), 95));
    forall cpus: seq<real> | |cpus| == |points| && forall i | 0 <= i < |points| :: cpus[i] == points[i].cpuPercent
      ensures cpus == Cpus(points)
    {
    }
  }

  lemma {:induction false} CpuColumns(points: seq<Point>)
    requires points != []
    ensures Mean(Cpus(points)) * |points| as real == TotalCpu(points)
    ensures exists p :: p in points && p.cpuPercent == Maximum(Cpus(points))
    ensures forall p | p in points :: p.cpuPercent <= Maximum(Cpus(points))
  {
    hide Mean, Maximum, Sum, Cpus, TotalCpu;
    CpusAre(points);
    Totals(points);
    AverageAndMaximum(Cpus(points));
    var i :| 0 <= i < |points| && Cpus(points)[i] == Maximum(Cpus(points));
    assert points[i] in points;
  }

  lemma {:induction false} MemColumns(points: seq<Point>)
    requires points != []
    ensures Mean(Mems(points)) * |points| as real == TotalMem(points)
    ensures exists p :: p in points && p.memUsedMb == Maximum(Mems(points))
    ensures forall p | p in points :: p.memUsedMb <= Maximum(Mems(points))
  {
    hide Mean, Maximum, Sum, Mems, TotalMem;
    MemsAre(points);
    Totals(points);
    AverageAndMaximum(Mems(points));
    var i :| 0 <= i < |points| && Mems(points)[i] == Maximum(Mems(points));
    assert points[i] in points;
  }

  /** Every column of a row is the one its name says, of exactly these samples. */
  lemma {:induction false} SummaryMeans(points: seq<Point>, bucketSec: nat)
    requires points != []
    ensures Summarises(Summary(points, bucketSec), points, bucketSec)
  {
    hide Mean, Maximum, Percentile.Nearest, Percentile.NearestRank, UnhealthySec, Sum, Cpus, Mems, RestartsDelta;
    hide IsCpuP95, IsRestartSpread, TotalCpu, TotalMem, Restarts, UnhealthySamples;
    CpuColumns(points);
    MemColumns(points);
    P95OfSamples(points);
    SpreadOfRestarts(points);
    UnhealthyAre(points);
    ShareOfBucket(Unhealthy(points), |points|, bucketSec);
  }

  // ---------- the loop over a bucket ----------

  /** The rows a bucket calls for. */
  ghost function Written(selected: seq<Point>, g: Granularity, from: int): map<Key, Row> {
    map key: Key | key in KeysOf(Ids(selected), g, from) && OfContainer(selected, key.containerId) != [] ::
      Summary(OfContainer(selected, key.containerId), Size(g) / 1000)
  }

  ghost function KeysOf(ids: set<nat>, g: Granularity, from: int): set<Key> { set id | id in ids :: Key(id, g, from) }

  lemma {:induction false} OfContainerSnoc(points: seq<Point>, i: nat, id: nat)
    requires i < |points|
    ensures OfContainer(points[..i + 1], id) ==
            OfContainer(points[..i], id) + (if points[i].containerId == id then [points[i]] else [])
  {
    assert points[..i + 1][..i] == points[..i];
  }

  lemma {:induction false} IdsSnoc(points: seq<Point>, i: nat)
    requires i < |points|
    ensures Ids(points[..i + 1]) == Ids(points[..i]) + {points[i].containerId}
  {
    assert points[..i + 1] == points[..i] + [points[i]];
    forall id
      ensures id in Ids(points[..i] + [points[i]]) <==> id in Ids(points[..i]) + {points[i].containerId}
    {
      assert points[i] in points[..i] + [points[i]];
      assert forall p | p in points[..i] :: p in points[..i] + [points[i]];
    }
  }

  lemma {:induction false} NoPoints(points: seq<Point>, id: nat)
    requires points == []
    ensures OfContainer(points, id) == [] && Ids(points) == {}
  {
  }

  lemma {:induction false} NotAmongIds(points: seq<Point>, id: nat)
    ensures OfContainer(points, id) == [] <==> id !in Ids(points)
  {
    hide Ids;
    if points == [] {
      NoPoints(points, id);
    } else {
      var n := |points| - 1;
      NotAmongIds(points[..n], id);
      IdsSnoc(points, n);
      assert points[..n + 1] == points;
    }
  }

  class RollupService {
    var points: seq<Point>
    var rollups: map<Key, Row>

    constructor (points: seq<Point>)
      ensures this.points == points && rollups == map[]
    {
      this.points, rollups := points, map[];
    }

    /** Group the samples by container. */
    static method GroupByContainer(selected: seq<Point>) returns (groups: map<nat, seq<Point>>)
      ensures groups.Keys == Ids(selected)
      ensures forall id | id in groups :: groups[id] == OfContainer(selected, id) && groups[id] != []
    {
      groups := map[];
      for i := 0 to |selected|
        invariant groups.Keys == Ids(selected[..i])
        invariant forall id | id in groups :: groups[id] == OfContainer(selected[..i], id) && groups[id] != []
      {
        var id := selected[i].containerId;
        var group := if id in groups then groups[id] else [];
        NotAmongIds(selected[..i], id);
        IdsSnoc(selected, i);
        forall other
          ensures OfContainer(selected[..i + 1], other) ==
                  OfContainer(selected[..i], other) + (if id == other then [selected[i]] else [])
        {
          OfContainerSnoc(selected, i, other);
        }
        groups := groups[id := group + [selected[i]]];
      }
      assert selected[..|selected|] == selected;
    }

    /** One upsert per group. */
    method UpsertAll(groups: map<nat, seq<Point>>, granularity: Granularity, from: int)
      requires forall id | id in groups :: groups[id] != []
      modifies this`rollups
      ensures rollups == old(rollups) + Rows(groups, groups.Keys, granularity, from)
    {
      hide Summary, Rows, Size;
      var pending := groups.Keys;
      ghost var done: set<nat> := {};
      NoRows(groups, granularity, from);
      while pending != {}
        invariant pending !! done && pending + done == groups.Keys
        invariant rollups == old(rollups) + Rows(groups, done, granularity, from)
        decreases |pending|
      {
        var id :| id in pending;
        var key, row := Key(id, granularity, from), Summary(groups[id], Size(granularity) / 1000);
        RowsGrow(groups, done, id, granularity, from);
        UpsertLast(old(rollups), Rows(groups, done, granularity, from), key, row);
        rollups := rollups[key := row];
        pending, done := pending - {id}, done + {id};
      }
    }

    /** Read the bucket, then upsert one row per container; all other rows stay. */
    method RollupContainers(granularity: Granularity, from: int)
      modifies this`rollups
      ensures rollups == old(rollups) + Written(Within(points, from, from + Size(granularity)), granularity, from)
    {
      hide OfContainer, Ids, Summary, Within, Rows, Written;
      var selected := Within(points, from, from + Size(granularity));
      if selected == [] {
        NothingWritten(granularity, from);
        return;
      }
      var groups := GroupByContainer(selected);
      UpsertAll(groups, granularity, from);
      AllRows(groups, selected, granularity, from);
    }
  }

  lemma {:induction false} UpsertLast(m: map<Key, Row>, written: map<Key, Row>, key: Key, row: Row)
    ensures m + written[key := row] == (m + written)[key := row]
  {
  }

  ghost function Rows(groups: map<nat, seq<Point>>, done: set<nat>, g: Granularity, from: int): map<Key, Row>
    requires done <= groups.Keys && forall id | id in groups :: groups[id] != []
  {
    map key: Key | key in KeysOf(done, g, from) :: Summary(groups[key.containerId], Size(g) / 1000)
  }

  lemma {:induction false} NoRows(groups: map<nat, seq<Point>>, g: Granularity, from: int)
    requires forall id | id in groups :: groups[id] != []
    ensures forall done | done == {} :: Rows(groups, done, g, from) == map[]
  {
  }

  lemma {:induction false} RowsGrow(groups: map<nat, seq<Point>>, done: set<nat>, id: nat, g: Granularity, from: int)
    requires done <= groups.Keys && id in groups && forall id | id in groups :: groups[id] != []
    ensures Rows(groups, done + {id}, g, from) ==
            Rows(groups, done, g, from)[Key(id, g, from) := Summary(groups[id], Size(g) / 1000)]
  {
    hide Summary;
    var longer := Rows(groups, done + {id}, g, from);
    var expected := Rows(groups, done, g, from)[Key(id, g, from) := Summary(groups[id], Size(g) / 1000)];
    assert KeysOf(done + {id}, g, from) == KeysOf(done, g, from) + {Key(id, g, from)};
    assert longer.Keys == expected.Keys;
  }

  lemma {:induction false} AllRows(groups: map<nat, seq<Point>>, selected: seq<Point>, g: Granularity, from: int)
    requires groups.Keys == Ids(selected)
    requires forall id | id in groups :: groups[id] == OfContainer(selected, id) && groups[id] != []
    ensures Rows(groups, groups.Keys, g, from) == Written(selected, g, from)
  {
  }

  lemma {:induction false} NothingWritten(g: Granularity, from: int)
    ensures Written([], g, from) == map[]
  {
  }
}
