/** The stored daily row against the stored hourly ones of the same day. */
module DailyAgainstHourly {
  import opened Buckets
  import opened JsValues
  import opened MetricRollup
  import opened Retention
  import Percentile

  /** The samples of one container in one stretch of time. */
  ghost function Selected(history: seq<Point>, id: nat, from: int, until: int): seq<Point> {
    OfContainer(Within(history, from, until), id)
  }

  predicate Selects(p: Point, id: nat, from: int, until: int) { from <= p.ts < until && p.containerId == id }

  lemma {:induction false} SelectedSnoc(history: seq<Point>, p: Point, id: nat, from: int, until: int)
    ensures Selected(history + [p], id, from, until) ==
            Selected(history, id, from, until) + (if Selects(p, id, from, until) then [p] else [])
  {
    WithinSnoc(history, p, from, until);
    var before := Within(history, from, until);
    if from <= p.ts < until {
      assert (before + [p])[..|before|] == before;
    } else {
      assert before + [] == before;
    }
  }

  lemma {:induction false} CpusSnoc(points: seq<Point>, p: Point)
    ensures Cpus(points + [p]) == Cpus(points) + [p.cpuPercent]
  {
    assert (points + [p])[..|points|] == points;
  }

  ghost function Load(history: seq<Point>, id: nat, from: int, until: int): multiset<real> {
    multiset(Cpus(Selected(history, id, from, until)))
  }

  lemma {:induction false} LoadSnoc(history: seq<Point>, p: Point, id: nat, from: int, until: int)
    ensures Load(history + [p], id, from, until) ==
            Load(history, id, from, until) +
              (if Selects(p, id, from, until) then multiset{p.cpuPercent} else multiset{})
  {
    hide Selected, Cpus;
    SelectedSnoc(history, p, id, from, until);
    var before := Selected(history, id, from, until);
    CpusSnoc(before, p);
    assert before + [] == before;
  }

  lemma {:induction false} LoadSplits(history: seq<Point>, id: nat, from: int, middle: int, until: int)
    requires from <= middle <= until
    ensures Load(history, id, from, until) == Load(history, id, from, middle) + Load(history, id, middle, until)
  {
    if history == [] {
      NothingSelected(id, from, until);
      NothingSelected(id, from, middle);
      NothingSelected(id, middle, until);
    } else {
      hide Load;
      var n := |history| - 1;
      var p := history[n];
      assert history == history[..n] + [p];
      LoadSplits(history[..n], id, from, middle, until);
      LoadSnoc(history[..n], p, id, from, until);
      LoadSnoc(history[..n], p, id, from, middle);
      LoadSnoc(history[..n], p, id, middle, until);
    }
  }

  lemma {:induction false} NothingSelected(id: nat, from: int, until: int)
    ensures Load([], id, from, until) == multiset{}
  {
    assert Within([], from, until) == [];
  }

  /** The first n hours of a day, those without samples left out. */
  ghost function HourlySamples(history: seq<Point>, id: nat, day: int, n: nat): seq<seq<real>> {
    if n == 0 then []
    else
      HourlySamples(history, id, day, n - 1) +
      (if HourSamples(history, id, day, n - 1) == [] then [] else [HourSamples(history, id, day, n - 1)])
  }

  ghost function HourSamples(history: seq<Point>, id: nat, day: int, i: nat): seq<real> {
    Cpus(Selected(history, id, day + i * HOUR, day + i * HOUR + HOUR))
  }

  lemma {:induction false} FlattenSnoc(parts: seq<seq<real>>, part: seq<real>)
    ensures Percentile.Flatten(parts + [part]) == Percentile.Flatten(parts) + part
  {
    if parts == [] {
      assert (parts + [part])[1..] == [];
    } else {
      assert (parts + [part])[1..] == parts[1..] + [part];
      FlattenSnoc(parts[1..], part);
    }
  }

  lemma {:induction false} HoursMakeTheDay(history: seq<Point>, id: nat, day: int, n: nat)
    ensures multiset(Percentile.Flatten(HourlySamples(history, id, day, n))) == Load(history, id, day, day + n * HOUR)
  {
    hide Selected, Cpus, Percentile.Flatten;
    if n == 0 {
      EmptyStretch(history, id, day);
      assert Percentile.Flatten([]) == [] by { FlattenNothing(); }
    } else {
      HoursMakeTheDay(history, id, day, n - 1);
      LoadSplits(history, id, day, day + (n - 1) * HOUR, day + n * HOUR);
      var before, hour := HourlySamples(history, id, day, n - 1), HourSamples(history, id, day, n - 1);
      FlattenSnoc(before, hour);
      if hour == [] {
        assert before + [] == before;
      }
    }
  }

  lemma {:induction false} FlattenNothing()
    ensures Percentile.Flatten([]) == []
  {
  }

  lemma {:induction false} EmptyStretch(history: seq<Point>, id: nat, from: int)
    ensures Load(history, id, from, from) == multiset{}
  {
    hide Load;
    LoadSplits(history, id, from, from, from);
    MultisetCancels(Load(history, id, from, from));
  }

  lemma {:induction false} MultisetCancels(m: multiset<real>)
    requires m == m + m
    ensures m == multiset{}
  {
    forall x
      ensures m[x] == 0
    {
      assert m[x] == (m + m)[x];
    }
  }

  lemma {:induction false} PartIsAnHour(history: seq<Point>, id: nat, day: int, n: nat, k: nat) returns (i: nat)
    requires k < |HourlySamples(history, id, day, n)|
    ensures i < n && HourlySamples(history, id, day, n)[k] == HourSamples(history, id, day, i) != []
  {
    hide HourSamples;
    if k < |HourlySamples(history, id, day, n - 1)| {
      i := PartIsAnHour(history, id, day, n - 1, k);
    } else {
      i := n - 1;
    }
  }

  /** The hours of a day with samples all have rows. */
  ghost predicate HoursStored(s: State, id: nat, day: int) {
    forall i | 0 <= i < 24 && Samples(s.history, HourKey(id, day, i)) != [] :: HourKey(id, day, i) in s.rows
  }

  function HourKey(id: nat, day: int, i: nat): Key { Key(id, Hourly, day + i * HOUR) }

  ghost predicate HourAtMost(s: State, key: Key, p95: real) {
    key in s.rows && s.rows[key].cpuP95.Some? && s.rows[key].cpuP95.value <= p95
  }

  ghost predicate HourAtLeast(s: State, key: Key, p95: real) {
    key in s.rows && s.rows[key].cpuP95.Some? && p95 <= s.rows[key].cpuP95.value
  }

  lemma {:induction false} RowOfHour(s: State, id: nat, day: int, i: nat)
    requires Reachable(s) && HoursStored(s, id, day) && i < 24 && HourSamples(s.history, id, day, i) != []
    ensures var key := HourKey(id, day, i);
            key in s.rows && s.rows[key].cpuP95 == Some(Percentile.Nearest(HourSamples(s.history, id, day, i), 95))
  {
    hide Reachable, Within, OfContainer, Mean, Maximum, Percentile.Nearest, RestartsDelta, UnhealthySec;
    var key := HourKey(id, day, i);
    assert Samples(s.history, key) == Selected(s.history, id, day + i * HOUR, day + i * HOUR + HOUR);
    PurgeNeverChangesARollup(s, key);
  }

  /**
    * In every reachable state, the daily p95 lies between the smallest and the largest hourly p95
    * of that day, although all of them were computed apart and from a table that is being purged.
    */
  lemma {:induction false} DailyP95WithinHourly(s: State, id: nat, day: int)
    requires Reachable(s) && Key(id, Daily, day) in s.rows && HoursStored(s, id, day)
    ensures var row := s.rows[Key(id, Daily, day)];
            && row.cpuP95.Some?
            && (exists i: nat | i < 24 :: HourAtMost(s, HourKey(id, day, i), row.cpuP95.value))
            && (exists i: nat | i < 24 :: HourAtLeast(s, HourKey(id, day, i), row.cpuP95.value))
  {
    hide Reachable, Within, OfContainer, HoursStored, Mean, Maximum, Percentile.Nearest, RestartsDelta, UnhealthySec;
    hide HourSamples, HourlySamples, Percentile.Flatten;
    PurgeNeverChangesARollup(s, Key(id, Daily, day));
    var parts := HourlySamples(s.history, id, day, 24);
    var whole := Cpus(Selected(s.history, id, day, day + DAY));
    HoursMakeTheDay(s.history, id, day, 24);
    NonEmptyParts(s.history, id, day, parts, whole);
    Percentile.WholeWithinParts(parts, whole, 95);
    var j :| 0 <= j < |parts| && Percentile.Nearest(parts[j], 95) <= Percentile.Nearest(whole, 95);
    var k :| 0 <= k < |parts| && Percentile.Nearest(whole, 95) <= Percentile.Nearest(parts[k], 95);
    var a := PartIsAnHour(s.history, id, day, 24, j);
    var b := PartIsAnHour(s.history, id, day, 24, k);
    RowOfHour(s, id, day, a);
    RowOfHour(s, id, day, b);
    assert HourAtMost(s, HourKey(id, day, a), Percentile.Nearest(whole, 95));
    assert HourAtLeast(s, HourKey(id, day, b), Percentile.Nearest(whole, 95));
  }

  lemma {:induction false} NonEmptyParts(history: seq<Point>, id: nat, day: int, parts: seq<seq<real>>,
                                         whole: seq<real>)
    requires parts == HourlySamples(history, id, day, 24) && whole != []
    requires multiset(Percentile.Flatten(parts)) == multiset(whole)
    ensures parts != [] && forall k | 0 <= k < |parts| :: parts[k] != []
  {
    hide HourSamples, HourlySamples;
    assert whole[0] in multiset(whole);
    forall k | 0 <= k < |parts|
      ensures parts[k] != []
    {
      var i := PartIsAnHour(history, id, day, 24, k);
    }
  }

  // ---------- counts and averages ----------

  ghost function CpuTotal(history: seq<Point>, id: nat, from: int, until: int): real {
    Sum(Cpus(Selected(history, id, from, until)))
  }

  ghost function SampleTotal(history: seq<Point>, id: nat, from: int, until: int): nat {
    |Selected(history, id, from, until)|
  }

  lemma {:induction false} TotalsSnoc(history: seq<Point>, p: Point, id: nat, from: int, until: int)
    ensures SampleTotal(history + [p], id, from, until) ==
            SampleTotal(history, id, from, until) + (if Selects(p, id, from, until) then 1 else 0)
    ensures CpuTotal(history + [p], id, from, until) ==
            CpuTotal(history, id, from, until) + (if Selects(p, id, from, until) then p.cpuPercent else 0.0)
  {
    hide Selected, Cpus;
    SelectedSnoc(history, p, id, from, until);
    var before := Selected(history, id, from, until);
    CpusSnoc(before, p);
    assert before + [] == before;
    assert (Cpus(before) + [p.cpuPercent])[..|Cpus(before)|] == Cpus(before);
  }

  lemma {:induction false} TotalsSplit(history: seq<Point>, id: nat, from: int, middle: int, until: int)
    requires from <= middle <= until
    ensures SampleTotal(history, id, from, until) ==
            SampleTotal(history, id, from, middle) + SampleTotal(history, id, middle, until)
    ensures CpuTotal(history, id, from, until) ==
            CpuTotal(history, id, from, middle) + CpuTotal(history, id, middle, until)
  {
    hide SampleTotal, CpuTotal;
    if history == [] {
      NoTotals(id, from, until);
      NoTotals(id, from, middle);
      NoTotals(id, middle, until);
    } else {
      var n := |history| - 1;
      var p := history[n];
      assert history == history[..n] + [p];
      TotalsSplit(history[..n], id, from, middle, until);
      TotalsSnoc(history[..n], p, id, from, until);
      TotalsSnoc(history[..n], p, id, from, middle);
      TotalsSnoc(history[..n], p, id, middle, until);
    }
  }

  lemma {:induction false} NoTotals(id: nat, from: int, until: int)
    ensures SampleTotal([], id, from, until) == 0 && CpuTotal([], id, from, until) == 0.0
  {
    assert Within([], from, until) == [];
  }

  /** Samples of the stored rows of the first n hours. */
  ghost function SamplesOfHours(s: State, id: nat, day: int, n: nat): nat {
    if n == 0 then 0
    else
      SamplesOfHours(s, id, day, n - 1) +
      (if HourKey(id, day, n - 1) in s.rows then s.rows[HourKey(id, day, n - 1)].sampleCount else 0)
  }

  /** Their averages, each weighted with its number of samples. */
  ghost function CpuOfHours(s: State, id: nat, day: int, n: nat): real {
    if n == 0 then 0.0
    else
      var key := HourKey(id, day, n - 1);
      CpuOfHours(s, id, day, n - 1) +
        (if key in s.rows then s.rows[key].sampleCount as real * s.rows[key].cpuAvg else 0.0)
  }

  lemma {:induction false} MeanTimesCount(s: seq<real>)
    requires s != []
    ensures |s| as real * Mean(s) == Sum(s)
  {
  }

  lemma {:induction false} TotalsOfRow(s: State, key: Key)
    requires Reachable(s) && key in s.rows
    ensures var row, until := s.rows[key], key.bucket + Size(key.granularity);
            && row.sampleCount == SampleTotal(s.history, key.containerId, key.bucket, until)
            && row.sampleCount as real * row.cpuAvg == CpuTotal(s.history, key.containerId, key.bucket, until)
  {
    hide Reachable, Within, OfContainer, Mean, Maximum, Percentile.Nearest, RestartsDelta, UnhealthySec, Size, Sum;
    PurgeNeverChangesARollup(s, key);
    MeanTimesCount(Cpus(Samples(s.history, key)));
  }

  lemma {:induction false} HoursTotal(s: State, id: nat, day: int, n: nat)
    requires Reachable(s) && HoursStored(s, id, day) && n <= 24
    ensures SamplesOfHours(s, id, day, n) == SampleTotal(s.history, id, day, day + n * HOUR)
    ensures CpuOfHours(s, id, day, n) == CpuTotal(s.history, id, day, day + n * HOUR)
  {
    hide Reachable, Within, OfContainer, Sum, Cpus;
    if n == 0 {
      TotalsSplit(s.history, id, day, day, day);
    } else {
      hide SampleTotal, CpuTotal;
      HoursTotal(s, id, day, n - 1);
      TotalsSplit(s.history, id, day, day + (n - 1) * HOUR, day + n * HOUR);
      HourTotal(s, id, day, n - 1);
    }
  }

  lemma {:induction false} HourTotal(s: State, id: nat, day: int, i: nat)
    requires Reachable(s) && HoursStored(s, id, day) && i < 24
    ensures var key, from := HourKey(id, day, i), day + i * HOUR;
            && (if key in s.rows then s.rows[key].sampleCount else 0) == SampleTotal(s.history, id, from, from + HOUR)
            && (if key in s.rows then s.rows[key].sampleCount as real * s.rows[key].cpuAvg else 0.0) ==
               CpuTotal(s.history, id, from, from + HOUR)
  {
    hide Reachable, Within, OfContainer;
    var key := HourKey(id, day, i);
    if key in s.rows {
      TotalsOfRow(s, key);
    } else {
      assert Samples(s.history, key) == [];
    }
  }

  /** Sample counts add up over the hours of a day, and the daily average is the weighted one of the hourly averages. */
  lemma {:induction false} DailyAverageFromHourly(s: State, id: nat, day: int)
    requires Reachable(s) && Key(id, Daily, day) in s.rows && HoursStored(s, id, day)
    ensures var row := s.rows[Key(id, Daily, day)];
            && row.sampleCount == SamplesOfHours(s, id, day, 24)
            && row.sampleCount as real * row.cpuAvg == CpuOfHours(s, id, day, 24)
  {
    hide Reachable, HoursStored, SampleTotal, CpuTotal, SamplesOfHours, CpuOfHours;
    TotalsOfRow(s, Key(id, Daily, day));
    HoursTotal(s, id, day, 24);
  }

  // ---------- maxima ----------

  lemma {:induction false} CpuMember(history: seq<Point>, id: nat, from: int, until: int, x: real)
    ensures x in Cpus(Selected(history, id, from, until)) <==>
            exists k | 0 <= k < |history| :: Selects(history[k], id, from, until) && history[k].cpuPercent == x
  {
    hide Selected, Cpus;
    if history == [] {
      NothingSelected(id, from, until);
      assert multiset(Cpus(Selected([], id, from, until))) == Load([], id, from, until);
      assert x !in multiset(Cpus(Selected([], id, from, until)));
    } else {
      var n := |history| - 1;
      var p := history[n];
      assert history == history[..n] + [p];
      CpuMember(history[..n], id, from, until, x);
      SelectedSnoc(history[..n], p, id, from, until);
      var before := Selected(history[..n], id, from, until);
      CpusSnoc(before, p);
      assert before + [] == before;
      assert forall k | 0 <= k < n :: history[..n][k] == history[k];
    }
  }

  ghost predicate HasMax(s: State, key: Key, max: real) { key in s.rows && s.rows[key].cpuMax == max }

  lemma {:induction false} MaxOfRow(s: State, key: Key)
    requires Reachable(s) && key in s.rows
    ensures var sample := Cpus(Selected(s.history, key.containerId, key.bucket, key.bucket + Size(key.granularity)));
            s.rows[key].cpuMax in sample && forall i | 0 <= i < |sample| :: sample[i] <= s.rows[key].cpuMax
  {
    hide Reachable, Within, OfContainer, Mean, Maximum, Percentile.Nearest, RestartsDelta, UnhealthySec, Size;
    PurgeNeverChangesARollup(s, key);
    MaximumIsLargest(Cpus(Samples(s.history, key)));
  }

  /** The daily maximum is the largest hourly maximum. */
  lemma {:induction false} DailyMaxFromHourly(s: State, id: nat, day: int)
    requires Reachable(s) && Key(id, Daily, day) in s.rows && HoursStored(s, id, day)
    ensures var max := s.rows[Key(id, Daily, day)].cpuMax;
            && (exists i: nat | i < 24 :: HasMax(s, HourKey(id, day, i), max))
            && (forall i: nat | i < 24 && HourKey(id, day, i) in s.rows :: s.rows[HourKey(id, day, i)].cpuMax <= max)
  {
    hide Reachable, Selected, Cpus;
    var daily := Key(id, Daily, day);
    var max := s.rows[daily].cpuMax;
    MaxOfRow(s, daily);
    forall i: nat | i < 24 && HourKey(id, day, i) in s.rows
      ensures s.rows[HourKey(id, day, i)].cpuMax <= max
    {
      HourMaxInDay(s, id, day, i);
    }
    CpuMember(s.history, id, day, day + DAY, max);
    var k :| 0 <= k < |s.history| && Selects(s.history[k], id, day, day + DAY) && s.history[k].cpuPercent == max;
    var i := (s.history[k].ts - day) / HOUR;
    assert Selects(s.history[k], id, day + i * HOUR, day + i * HOUR + HOUR);
    CpuMember(s.history, id, day + i * HOUR, day + i * HOUR + HOUR, max);
    HourIsStored(s, id, day, i, max);
    MaxOfRow(s, HourKey(id, day, i));
    HourMaxInDay(s, id, day, i);
    assert HasMax(s, HourKey(id, day, i), max);
  }

  lemma {:induction false} HourIsStored(s: State, id: nat, day: int, i: nat, x: real)
    requires HoursStored(s, id, day) && i < 24 && x in HourSamples(s.history, id, day, i)
    ensures HourKey(id, day, i) in s.rows
  {
    hide Within, OfContainer;
    assert Samples(s.history, HourKey(id, day, i)) == Selected(s.history, id, day + i * HOUR, day + i * HOUR + HOUR);
  }

  lemma {:induction false} HourMaxInDay(s: State, id: nat, day: int, i: nat)
    requires Reachable(s) && Key(id, Daily, day) in s.rows && i < 24 && HourKey(id, day, i) in s.rows
    ensures s.rows[HourKey(id, day, i)].cpuMax <= s.rows[Key(id, Daily, day)].cpuMax
  {
    hide Reachable, Selected, Cpus;
    var x := s.rows[HourKey(id, day, i)].cpuMax;
    MaxOfRow(s, HourKey(id, day, i));
    MaxOfRow(s, Key(id, Daily, day));
    CpuMember(s.history, id, day + i * HOUR, day + i * HOUR + HOUR, x);
    CpuMember(s.history, id, day, day + DAY, x);
  }
}
