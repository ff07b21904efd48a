/**
  * Raw samples come in, the purge jobs delete old ones, and rollup jobs read and write in between, one
  * database statement per step. `history` is every sample ever inserted and is stored nowhere.
  */
module Retention {
  import opened Buckets
  import opened JsValues
  import opened MetricRollup

  const RAW_RETENTION: nat := 10 * DAY
  const LONGEST_PASS: nat := 2 * DAY

  /** Closed buckets a catch-up looks back over. */
  function Lookback(g: Granularity): nat { if g == Hourly then 48 else 7 }

  /** One call of `processBucket`; `deadline` bounds when its read runs. */
  datatype Job = Job(granularity: Granularity, from: int, deadline: int, read: Option<seq<Point>>)

  datatype State = State(now: int, history: seq<Point>, kept: seq<Point>, jobs: map<nat, Job>, rows: map<Key, Row>)

  datatype Step =
    | Wait(until: int)
    | Insert(point: Point)
    | DeleteOld(cutoff: int)
    | Start(id: nat, granularity: Granularity, bucket: int)
    | Read(id: nat)
    | Upsert(id: nat, containerId: nat)
    | PurgeRows(granularity: Granularity, cutoff: int)

  /** The buckets that a tick or a catch-up beginning at `now` may process. */
  ghost predicate Due(g: Granularity, bucket: int, now: int) {
    exists i | 1 <= i <= Lookback(g) :: bucket == BucketStart(now, Size(g)) - i * Size(g)
  }

  function Since(points: seq<Point>, cutoff: int): seq<Point> {
    if points == [] then []
    else
      Since(points[..|points| - 1], cutoff) +
      (if points[|points| - 1].ts >= cutoff then [points[|points| - 1]] else [])
  }

  ghost predicate Enabled(s: State, step: Step) {
    match step
    case Wait(until) => s.now <= until
    case Insert(point) => point.ts == s.now
    case DeleteOld(cutoff) => cutoff <= s.now - RAW_RETENTION
    case Start(id, g, bucket) => id !in s.jobs && Due(g, bucket, s.now)
    case Read(id) => id in s.jobs && s.now <= s.jobs[id].deadline
    case Upsert(id, containerId) =>
      id in s.jobs && s.jobs[id].read.Some? && OfContainer(s.jobs[id].read.value, containerId) != []
    case PurgeRows(_, _) => true
  }

  function KeyOf(job: Job, containerId: nat): Key { Key(containerId, job.granularity, job.from) }

  function Apply(s: State, step: Step): State {
    match step
    case Wait(until) => s.(now := until)
    case Insert(point) => s.(history := s.history + [point], kept := s.kept + [point])
    case DeleteOld(cutoff) => s.(kept := Since(s.kept, cutoff))
    case Start(id, g, bucket) => s.(jobs := s.jobs[id := Job(g, bucket, s.now + LONGEST_PASS, None)])
    case Read(id) =>
      if id !in s.jobs then s
      else
        var job := s.jobs[id];
        s.(jobs := s.jobs[id := job.(read := Some(Within(s.kept, job.from, job.from + Size(job.granularity))))])
    case Upsert(id, containerId) =>
      if id !in s.jobs || s.jobs[id].read.None? || OfContainer(s.jobs[id].read.value, containerId) == [] then s
      else
        var job := s.jobs[id];
        s.(rows := s.rows[KeyOf(job, containerId) :=
                            Summary(OfContainer(job.read.value, containerId), Size(job.granularity) / 1000)])
    case PurgeRows(g, cutoff) =>
      s.(rows := map key | key in s.rows && !(key.granularity == g && key.bucket < cutoff) :: s.rows[key])
  }

  ghost function After(s: State, steps: seq<Step>): State {
    if steps == [] then s else Apply(After(s, steps[..|steps| - 1]), steps[|steps| - 1])
  }

  ghost predicate Legal(s: State, steps: seq<Step>) {
    forall i | 0 <= i < |steps| :: Enabled(After(s, steps[..i]), steps[i])
  }

  ghost predicate Initial(s: State) { s.history == [] && s.kept == [] && s.jobs == map[] && s.rows == map[] }

  ghost predicate Reachable(s: State) {
    exists start, steps :: Run(start, steps, s)
  }

  ghost predicate Run(start: State, steps: seq<Step>, s: State) {
    Initial(start) && Legal(start, steps) && After(start, steps) == s
  }

  // ---------- the invariant ----------

  ghost predicate KeepsRecent(s: State, horizon: int) {
    horizon <= s.now - RAW_RETENTION && s.kept == Since(s.history, horizon)
  }

  ghost predicate NothingLater(s: State) { forall i | 0 <= i < |s.history| :: s.history[i].ts <= s.now }

  /** A bucket of the whole history, restricted to one container. */
  ghost function Samples(history: seq<Point>, key: Key): seq<Point> {
    OfContainer(Within(history, key.bucket, key.bucket + Size(key.granularity)), key.containerId)
  }

  /** The row is the summary of all samples the bucket ever had, and the bucket is closed. */
  ghost predicate Complete(s: State, key: Key, row: Row) {
    && key.bucket + Size(key.granularity) <= s.now
    && Samples(s.history, key) != []
    && row == Summary(Samples(s.history, key), Size(key.granularity) / 1000)
  }

  ghost predicate JobSees(s: State, job: Job) {
    var until := job.from + Size(job.granularity);
    && until <= s.now && job.deadline - RAW_RETENTION <= job.from
    && (job.read.Some? ==> job.read.value == Within(s.history, job.from, until))
  }

  ghost predicate RowsComplete(s: State) { forall key | key in s.rows :: Complete(s, key, s.rows[key]) }

  ghost predicate JobsSee(s: State) { forall id | id in s.jobs :: JobSees(s, s.jobs[id]) }

  ghost predicate Holds(s: State) {
    (exists horizon :: KeepsRecent(s, horizon)) && NothingLater(s) && JobsSee(s) && RowsComplete(s)
  }

  // ---------- selections of the history ----------

  lemma {:induction false} SinceSnoc(points: seq<Point>, p: Point, cutoff: int)
    ensures Since(points + [p], cutoff) == Since(points, cutoff) + (if p.ts >= cutoff then [p] else [])
  {
    assert (points + [p])[..|points|] == points;
  }

  lemma {:induction false} WithinSnoc(points: seq<Point>, p: Point, from: int, until: int)
    ensures Within(points + [p], from, until) ==
            Within(points, from, until) + (if from <= p.ts < until then [p] else [])
  {
    assert (points + [p])[..|points|] == points;
  }

  lemma {:induction false} SinceTwice(points: seq<Point>, a: int, b: int)
    ensures Since(Since(points, a), b) == Since(points, if a < b then b else a)
  {
    if points != [] {
      var n := |points| - 1;
      SinceTwice(points[..n], a, b);
      if points[n].ts >= a {
        SinceSnoc(Since(points[..n], a), points[n], b);
      } else {
        assert Since(points[..n], a) + [] == Since(points[..n], a);
      }
    }
  }

  /** A deletion removes exactly the samples before its cutoff. */
  lemma {:induction false} DeletionIsExact(points: seq<Point>, cutoff: int, p: Point)
    ensures p in Since(points, cutoff) <==> p in points && p.ts >= cutoff
  {
    if points != [] {
      var n := |points| - 1;
      DeletionIsExact(points[..n], cutoff, p);
      assert points == points[..n] + [points[n]];
    }
  }

  /** A sample can be deleted once it is more than ten days old, and never before. */
  lemma {:induction false} DeletableIff(s: State, p: Point)
    requires p in s.kept
    ensures (exists cutoff :: Enabled(s, DeleteOld(cutoff)) && p !in Apply(s, DeleteOld(cutoff)).kept) <==>
            p.ts + 864_000_000 < s.now
  {
    hide Since;
    forall cutoff
      ensures p in Apply(s, DeleteOld(cutoff)).kept <==> p.ts >= cutoff
    {
      DeletionIsExact(s.kept, cutoff, p);
    }
    var latest := s.now - 864_000_000;
    assert Enabled(s, DeleteOld(latest));
  }

  /** A bucket holds exactly the samples of its half-open interval. */
  lemma {:induction false} BucketIsExact(points: seq<Point>, from: int, until: int, p: Point)
    ensures p in Within(points, from, until) <==> p in points && from <= p.ts < until
  {
    if points != [] {
      var n := |points| - 1;
      BucketIsExact(points[..n], from, until, p);
      assert points == points[..n] + [points[n]];
    }
  }

  /** Deleting older samples does not change a bucket. */
  lemma {:induction false} WithinOfKept(points: seq<Point>, horizon: int, from: int, until: int)
    requires horizon <= from
    ensures Within(Since(points, horizon), from, until) == Within(points, from, until)
  {
    if points != [] {
      hide Since, Within;
      var n := |points| - 1;
      var before, p := points[..n], points[n];
      assert points == before + [p];
      WithinOfKept(before, horizon, from, until);
      SinceSnoc(before, p, horizon);
      WithinSnoc(before, p, from, until);
      WithinSnoc(Since(before, horizon), p, from, until);
      assert Since(before, horizon) + [] == Since(before, horizon);
      assert Within(before, from, until) + [] == Within(before, from, until);
    }
  }

  /** A sample inserted after the bucket closed is not in it. */
  lemma {:induction false} WithinIsClosed(points: seq<Point>, p: Point, from: int, until: int)
    requires until <= p.ts
    ensures Within(points + [p], from, until) == Within(points, from, until)
  {
    WithinSnoc(points, p, from, until);
  }

  // ---------- every step keeps the invariant ----------

  lemma {:induction false} DueIsRecent(g: Granularity, bucket: int, now: int)
    requires Due(g, bucket, now)
    ensures bucket + Size(g) <= now && now + LONGEST_PASS - RAW_RETENTION <= bucket
  {
  }

  lemma {:induction false} InsertKeeps(s: State, p: Point)
    requires Holds(s) && p.ts == s.now
    ensures Holds(Apply(s, Insert(p)))
  {
    hide Since, Within, Summary, OfContainer;
    var t := Apply(s, Insert(p));
    var horizon :| KeepsRecent(s, horizon);
    SinceSnoc(s.history, p, horizon);
    assert KeepsRecent(t, horizon);
    forall key | key in t.rows
      ensures Complete(t, key, t.rows[key])
    {
      assert Complete(s, key, s.rows[key]);
      WithinIsClosed(s.history, p, key.bucket, key.bucket + Size(key.granularity));
    }
    forall id | id in t.jobs
      ensures JobSees(t, t.jobs[id])
    {
      assert JobSees(s, s.jobs[id]);
      WithinIsClosed(s.history, p, s.jobs[id].from, s.jobs[id].from + Size(s.jobs[id].granularity));
    }
  }

  lemma {:induction false} DeleteKeeps(s: State, cutoff: int)
    requires Holds(s) && cutoff <= s.now - RAW_RETENTION
    ensures Holds(Apply(s, DeleteOld(cutoff)))
  {
    hide Since, Complete, JobSees;
    var t := Apply(s, DeleteOld(cutoff));
    var horizon :| KeepsRecent(s, horizon);
    SinceTwice(s.history, horizon, cutoff);
    assert KeepsRecent(t, if horizon < cutoff then cutoff else horizon);
    SameHistory(s, t);
  }

  lemma {:induction false} SameHistory(s: State, t: State)
    requires s.history == t.history && s.now <= t.now
    ensures forall key, row :: Complete(s, key, row) ==> Complete(t, key, row)
    ensures forall job :: JobSees(s, job) ==> JobSees(t, job)
  {
    hide Samples, Summary, Within;
  }

  lemma {:induction false} StartKeeps(s: State, id: nat, g: Granularity, bucket: int)
    requires Holds(s) && id !in s.jobs && Due(g, bucket, s.now)
    ensures Holds(Apply(s, Start(id, g, bucket)))
  {
    hide Since, Within, Complete;
    var t := Apply(s, Start(id, g, bucket));
    DueIsRecent(g, bucket, s.now);
    var horizon :| KeepsRecent(s, horizon);
    assert KeepsRecent(t, horizon);
    SameHistory(s, t);
  }

  /** What a job reads is what it would read had nothing ever been deleted. */
  lemma {:induction false} ReadIsComplete(s: State, id: nat)
    requires Holds(s) && id in s.jobs && s.now <= s.jobs[id].deadline
    ensures var job := s.jobs[id];
            Within(s.kept, job.from, job.from + Size(job.granularity)) ==
            Within(s.history, job.from, job.from + Size(job.granularity))
  {
    var job := s.jobs[id];
    var horizon :| KeepsRecent(s, horizon);
    assert JobSees(s, job);
    WithinOfKept(s.history, horizon, job.from, job.from + Size(job.granularity));
  }

  lemma {:induction false} ReadKeeps(s: State, id: nat)
    requires Holds(s) && id in s.jobs && s.now <= s.jobs[id].deadline
    ensures Holds(Apply(s, Read(id)))
  {
    hide Since, Within, Complete;
    var t := Apply(s, Read(id));
    ReadIsComplete(s, id);
    var horizon :| KeepsRecent(s, horizon);
    assert KeepsRecent(t, horizon);
    assert JobSees(s, s.jobs[id]);
    SameHistory(s, t);
  }

  lemma {:induction false} UpsertKeeps(s: State, id: nat, containerId: nat)
    requires Holds(s) && Enabled(s, Upsert(id, containerId))
    ensures Holds(Apply(s, Upsert(id, containerId)))
    ensures Complete(s, KeyOf(s.jobs[id], containerId),
                     Apply(s, Upsert(id, containerId)).rows[KeyOf(s.jobs[id], containerId)])
  {
    hide Since, Within, Summary, OfContainer;
    var t := Apply(s, Upsert(id, containerId));
    var horizon :| KeepsRecent(s, horizon);
    assert KeepsRecent(t, horizon);
    assert JobSees(s, s.jobs[id]);
    SameHistory(s, t);
  }

  lemma {:induction false} StepKeeps(s: State, step: Step)
    requires Holds(s) && Enabled(s, step)
    ensures Holds(Apply(s, step))
  {
    hide Complete, JobSees, Since, Within, Due;
    match step
    case Wait(until) =>
      var horizon :| KeepsRecent(s, horizon);
      assert KeepsRecent(Apply(s, step), horizon);
      SameHistory(s, Apply(s, step));
    case Insert(point) => InsertKeeps(s, point);
    case DeleteOld(cutoff) => DeleteKeeps(s, cutoff);
    case Start(id, g, bucket) => StartKeeps(s, id, g, bucket);
    case Read(id) => ReadKeeps(s, id);
    case Upsert(id, containerId) => UpsertKeeps(s, id, containerId);
    case PurgeRows(g, cutoff) =>
      var horizon :| KeepsRecent(s, horizon);
      assert KeepsRecent(Apply(s, step), horizon);
      SameHistory(s, Apply(s, step));
  }

  lemma {:induction false} RunHolds(start: State, steps: seq<Step>)
    requires Initial(start) && Legal(start, steps)
    ensures Holds(After(start, steps))
  {
    hide Holds, Enabled, Apply;
    if steps == [] {
      InitialHolds(start);
    } else {
      var n := |steps| - 1;
      forall i | 0 <= i < n
        ensures Enabled(After(start, steps[..n][..i]), steps[..n][i])
      {
        assert steps[..n][..i] == steps[..i];
      }
      RunHolds(start, steps[..n]);
      StepKeeps(After(start, steps[..n]), steps[n]);
    }
  }

  lemma {:induction false} InitialHolds(s: State)
    requires Initial(s)
    ensures Holds(s)
  {
    assert KeepsRecent(s, s.now - RAW_RETENTION);
  }

  lemma {:induction false} ReachableHolds(s: State)
    requires Reachable(s)
    ensures Holds(s)
  {
    hide Holds, Legal, Initial;
    var start, steps :| Run(start, steps, s);
    RunHolds(start, steps);
  }

  // ---------- purging never changes a rollup ----------

  /** In every reachable state each stored row is the rollup of everything its bucket ever contained. */
  lemma {:induction false} PurgeNeverChangesARollup(s: State, key: Key)
    requires Reachable(s) && key in s.rows
    ensures Complete(s, key, s.rows[key])
  {
    hide Complete, Reachable;
    ReachableHolds(s);
  }

  /** Whether a key's row is about this sample. */
  ghost predicate Belongs(p: Point, key: Key) {
    && p.containerId == key.containerId
    && key.bucket <= p.ts < key.bucket + (if key.granularity == Hourly then 3_600_000 else 86_400_000)
  }

  lemma {:induction false} MembersSnoc(points: seq<Point>, p: Point, key: Key)
    ensures Samples(points + [p], key) == Samples(points, key) + (if Belongs(p, key) then [p] else [])
  {
    hide Within, OfContainer;
    var from, until := key.bucket, key.bucket + Size(key.granularity);
    var inside := Within(points, from, until);
    WithinSnoc(points, p, from, until);
    if from <= p.ts < until {
      OneOfContainer(inside, p, key.containerId);
    } else {
      assert inside + [] == inside;
      assert OfContainer(inside, key.containerId) + [] == OfContainer(inside, key.containerId);
    }
  }

  lemma {:induction false} OneOfContainer(points: seq<Point>, p: Point, id: nat)
    ensures OfContainer(points + [p], id) == OfContainer(points, id) + (if p.containerId == id then [p] else [])
  {
    assert (points + [p])[..|points|] == points;
  }

  /** The samples of a key are those of the history that belong to it, each as often as it was inserted. */
  lemma {:induction false} SamplesAre(history: seq<Point>, key: Key, p: Point)
    ensures multiset(Samples(history, key))[p] == if Belongs(p, key) then multiset(history)[p] else 0
  {
    hide Samples, Belongs;
    if history == [] {
      NoSamples(key);
    } else {
      var n := |history| - 1;
      SamplesAre(history[..n], key, p);
      assert history == history[..n] + [history[n]];
      MembersSnoc(history[..n], history[n], key);
    }
  }

  lemma {:induction false} NoSamples(key: Key)
    ensures Samples([], key) == []
  {
  }

  /**
    * In every reachable state each stored row has, column by column, what its name says of all samples
    * its bucket ever had: averages and maxima of CPU and memory, percentile, restarts, unhealthy seconds.
    */
  lemma {:induction false} StoredRowMeans(s: State, key: Key)
    requires Reachable(s) && key in s.rows
    ensures Summarises(s.rows[key], Samples(s.history, key), if key.granularity == Hourly then 3600 else 86_400)
  {
    hide Reachable, Samples, Summary, Summarises;
    PurgeNeverChangesARollup(s, key);
    SummaryMeans(Samples(s.history, key), Size(key.granularity) / 1000);
  }

  /** Writing a row that is there already changes nothing, whichever job does it and however often. */
  lemma {:induction false} ReprocessingChangesNothing(s: State, id: nat, containerId: nat)
    requires Reachable(s) && Enabled(s, Upsert(id, containerId)) && KeyOf(s.jobs[id], containerId) in s.rows
    ensures Apply(s, Upsert(id, containerId)) == s
  {
    hide Reachable, Summary, Samples;
    ReachableHolds(s);
    UpsertKeeps(s, id, containerId);
    var key := KeyOf(s.jobs[id], containerId);
    assert Complete(s, key, s.rows[key]);
    assert s.rows[key := s.rows[key]] == s.rows;
  }

  /** The order of two upserts does not matter. */
  lemma {:induction false} UpsertsCommute(s: State, a: nat, containerA: nat, b: nat, containerB: nat)
    requires Reachable(s) && Enabled(s, Upsert(a, containerA)) && Enabled(s, Upsert(b, containerB))
    ensures Apply(Apply(s, Upsert(a, containerA)), Upsert(b, containerB)) ==
            Apply(Apply(s, Upsert(b, containerB)), Upsert(a, containerA))
  {
    hide Reachable, Summary, Samples, OfContainer;
    ReachableHolds(s);
    UpsertKeeps(s, a, containerA);
    UpsertKeeps(s, b, containerB);
    var ka, kb := KeyOf(s.jobs[a], containerA), KeyOf(s.jobs[b], containerB);
    var ra, rb := Apply(s, Upsert(a, containerA)).rows[ka], Apply(s, Upsert(b, containerB)).rows[kb];
    assert s.rows[ka := ra][kb := rb] == s.rows[kb := rb][ka := ra];
  }

  // ---------- which buckets a catch-up starts ----------

  /** The closed buckets of the lookback that are missing, oldest first. */
  method MissingBuckets(now: int, g: Granularity, have: set<int>) returns (due: seq<int>)
    ensures forall bucket :: bucket in due <==> bucket !in have && Due(g, bucket, now)
    ensures forall i, j | 0 <= i < j < |due| :: due[i] < due[j]
  {
    hide BucketStart, DueFrom, Collected, Size;
    var current := BucketStart(now, Size(g));
    due := [];
    var i := Lookback(g);
    NothingCollected(g, have, current);
    while i >= 1
      invariant 0 <= i <= Lookback(g)
      invariant Collected(due, g, have, current, i)
    {
      var bucket := current - i * Size(g);
      CollectNext(due, g, have, current, i);
      if bucket !in have {
        due := due + [bucket];
      }
      i := i - 1;
    }
    AllCollected(due, g, have, now);
  }

  ghost predicate DueFrom(g: Granularity, bucket: int, current: int, after: nat) {
    exists i | after < i <= Lookback(g) :: bucket == current - i * Size(g)
  }

  /** The missing ones among the buckets further back than `after`. */
  ghost predicate Collected(due: seq<int>, g: Granularity, have: set<int>, current: int, after: nat) {
    && (forall bucket :: bucket in due <==> bucket !in have && DueFrom(g, bucket, current, after))
    && (forall i, j | 0 <= i < j < |due| :: due[i] < due[j])
  }

  lemma {:induction false} NothingCollected(g: Granularity, have: set<int>, current: int)
    ensures Collected([], g, have, current, Lookback(g))
  {
  }

  lemma {:induction false} CollectNext(due: seq<int>, g: Granularity, have: set<int>, current: int, i: nat)
    requires 1 <= i <= Lookback(g) && Collected(due, g, have, current, i)
    ensures var bucket := current - i * Size(g);
            Collected(if bucket in have then due else due + [bucket], g, have, current, i - 1)
  {
    hide DueFrom;
    var bucket := current - i * Size(g);
    DueNext(g, current, i);
    forall k | 0 <= k < |due|
      ensures due[k] < bucket
    {
      assert due[k] in due;
      FurtherBack(g, due[k], current, i);
    }
  }

  lemma {:induction false} FurtherBack(g: Granularity, bucket: int, current: int, after: nat)
    requires DueFrom(g, bucket, current, after)
    ensures bucket < current - after * Size(g)
  {
  }

  lemma {:induction false} DueNext(g: Granularity, current: int, i: nat)
    requires 1 <= i <= Lookback(g)
    ensures forall bucket :: DueFrom(g, bucket, current, i - 1) <==>
            DueFrom(g, bucket, current, i) || bucket == current - i * Size(g)
  {
  }

  lemma {:induction false} AllCollected(due: seq<int>, g: Granularity, have: set<int>, now: int)
    requires Collected(due, g, have, BucketStart(now, Size(g)), 0)
    ensures forall bucket :: bucket in due <==> bucket !in have && Due(g, bucket, now)
    ensures forall i, j | 0 <= i < j < |due| :: due[i] < due[j]
  {
    hide BucketStart;
    forall bucket
      ensures DueFrom(g, bucket, BucketStart(now, Size(g)), 0) <==> Due(g, bucket, now)
    {
    }
  }

  /** A bucket is due when it is a whole hour of the last 48 or a whole UTC day of the last 7. */
  lemma {:induction false} DueMeans(g: Granularity, bucket: int, now: int)
    ensures Due(Hourly, bucket, now) <==>
            bucket % 3_600_000 == 0 && bucket + 3_600_000 <= now < bucket + 49 * 3_600_000
    ensures Due(Daily, bucket, now) <==>
            bucket % 86_400_000 == 0 && bucket + 86_400_000 <= now < bucket + 8 * 86_400_000
  {
    DueOfSize(Hourly, bucket, now, 3_600_000, 48);
    DueOfSize(Daily, bucket, now, 86_400_000, 7);
  }

  lemma {:induction false} DueOfSize(g: Granularity, bucket: int, now: int, size: nat, lookback: nat)
    requires size == Size(g) && lookback == Lookback(g)
    ensures Due(g, bucket, now) <==> bucket % size == 0 && bucket + size <= now < bucket + (lookback + 1) * size
  {
    hide BucketStart, Size, Lookback;
    var current := BucketStart(now, size);
    StartIsMultiple(now, size);
    if bucket % size == 0 {
      var k := bucket / size;
      var c := current / size;
      assert bucket == k * size && current == c * size;
      Multiples(k, c, size, now, lookback);
      if bucket + size <= now < bucket + (lookback + 1) * size {
        assert bucket == current - (c - k) * size;
      }
    }
    if i :| 1 <= i <= lookback && bucket == current - i * size {
      Shifted(current, i, size);
    }
  }

  lemma {:induction false} Shifted(current: int, i: int, size: nat)
    requires size > 0 && current % size == 0
    ensures (current - i * size) % size == 0
  {
    var c := current / size;
    assert current - i * size == (c - i) * size;
    MultipleOf(c - i, size);
  }

  lemma {:induction false} Multiples(k: int, c: int, size: nat, now: int, lookback: nat)
    requires size > 0 && c * size <= now < c * size + size
    ensures k * size + size <= now <==> 1 <= c - k
    ensures now < k * size + (lookback + 1) * size <==> c - k <= lookback
  {
    assert (c - k - 1) * size == c * size - k * size - size;
    assert (k + lookback - c) * size == k * size + (lookback + 1) * size - c * size - size;
    Between(c - k - 1, size);
    Between(k + lookback - c, size);
  }

  /** The bucket of the hourly and of the daily cron is the newest one a catch-up would start. */
  lemma {:induction false} TickIsDue(g: Granularity, now: int)
    ensures Due(g, BucketStart(now - Size(g), Size(g)), now)
  {
    hide Size;
    var size: int := Size(g);
    var k: int := now / size;
    assert (k - 1) * size == k * size - size;
    StartIs(now, k, size);
    StartIs(now - size, k - 1, size);
    assert BucketStart(now - size, size) == BucketStart(now, size) - 1 * size;
  }
}
