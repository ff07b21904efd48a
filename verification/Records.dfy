/** Typed records and the JSON values they are hashed as. */
module Records {
  import opened JsValues
  import opened Canonical

  type SafeNat = n: int | 0 <= n <= MAX_SAFE_INTEGER

  predicate DistinctTexts(keys: seq<Text>) {
    forall i, j | 0 <= i < j < |keys| :: keys[i] != keys[j]
  }

  /** An object with the given keys, in that order. */
  function Record(keys: seq<Text>, values: seq<Value>): (v: Value)
    requires |keys| == |values|
  {
    Obj(seq(|keys|, i requires 0 <= i < |keys| => Entry(keys[i], values[i])))
  }

  /** What a parsed JSON value satisfies: the printer accepts it. */
  predicate Sound(v: Value) { WellFormed(v) && Printable(v) }

  lemma {:induction false} RecordIsSound(keys: seq<Text>, values: seq<Value>)
    requires |keys| == |values| && DistinctTexts(keys)
    requires forall i | 0 <= i < |values| :: Sound(values[i])
    ensures Sound(Record(keys, values))
  {
  }

  /** Records over the same keys with the same hash agree in every field, up to key order. */
  lemma {:induction false} RecordHash(keys: seq<Text>, a: seq<Value>, b: seq<Value>)
    requires |keys| == |a| == |b| && DistinctTexts(keys)
    requires forall i | 0 <= i < |keys| :: Sound(a[i]) && Sound(b[i])
    requires CanonicalHash(Record(keys, a)) == CanonicalHash(Record(keys, b))
    ensures forall i | 0 <= i < |keys| :: Same(a[i], b[i])
  {
    RecordIsSound(keys, a);
    RecordIsSound(keys, b);
    HashIdentifies(Record(keys, a), Record(keys, b));
    SameRecord(keys, a, b);
  }

  /** Records over the same keys differ only in key order when their fields do, one by one. */
  lemma {:induction false} SameRecord(keys: seq<Text>, a: seq<Value>, b: seq<Value>)
    requires |keys| == |a| == |b| && DistinctTexts(keys)
    requires Same(Record(keys, a), Record(keys, b))
    ensures forall i | 0 <= i < |keys| :: Same(a[i], b[i])
  {
    var f, g := Record(keys, a).fields, Record(keys, b).fields;
    forall i | 0 <= i < |keys|
      ensures Same(a[i], b[i])
    {
      assert Matched(f[i], g);
      var j :| 0 <= j < |g| && g[j].key == f[i].key && Same(f[i].value, g[j].value);
      assert keys[i] == keys[j];
      assert i == j;
    }
  }

  function Int(n: int): Value { Number(n as real) }

  function OptionalInt(n: Option<SafeNat>): Value { if n.Some? then Int(n.value) else Null }

  function OptionalText(s: Option<Text>): Value { if s.Some? then Str(s.value) else Null }

  function OptionalBool(b: Option<bool>): Value { if b.Some? then Bool(b.value) else Null }

  function Texts(s: seq<Text>): Value { Arr(seq(|s|, i requires 0 <= i < |s| => Str(s[i]))) }

  lemma {:induction false} TextsSound(s: seq<Text>)
    ensures Sound(Texts(s))
  {
    forall i | 0 <= i < |s|
      ensures Printable(Texts(s).items[i])
    {
      assert Texts(s).items[i] == Str(s[i]);
    }
  }

  lemma {:induction false} SameTexts(s: seq<Text>, t: seq<Text>)
    requires Same(Texts(s), Texts(t))
    ensures s == t
  {
    forall i | 0 <= i < |s|
      ensures s[i] == t[i]
    {
      assert Same(Texts(s).items[i], Texts(t).items[i]);
    }
  }

  // ---------- instants ----------

  function DigitsAt(t: Text, from: nat, count: nat): int
    requires from + count <= |t|
  {
    if count == 0 then 0 else 10 * DigitsAt(t, from, count - 1) + t[from + count - 1] - 48
  }

  /** Days between 1970-01-01 and a date of the proleptic Gregorian calendar. */
  function DaysFromCivil(year: int, month: int, day: int): int {
    var y := if month <= 2 then year - 1 else year;
    var era := y / 400;
    var dayOfYear := (153 * (month + (if month > 2 then -3 else 9)) + 2) / 5 + day - 1;
    var yearOfEra := y - 400 * era;
    146_097 * era + 365 * yearOfEra + yearOfEra / 4 - yearOfEra / 100 + dayOfYear - 719_468
  }

  predicate IsLeap(year: int) { year % 4 == 0 && (year % 100 != 0 || year % 400 == 0) }

  function MonthLength(year: int, month: int): int {
    if month == 2 then (if IsLeap(year) then 29 else 28)
    else if month in {4, 6, 9, 11} then 30
    else 31
  }

  /** The day after. */
  function NextDay(year: int, month: int, day: int): (int, int, int) {
    if day < MonthLength(year, month) then (year, month, day + 1)
    else if month < 12 then (year, month + 1, 1)
    else (year + 1, 1, 1)
  }

  /** Days before a year that begins in March, up to a constant. */
  ghost function YearTerms(y: int): int { 365 * y + y / 4 - y / 100 + y / 400 }

  /** Days since the first of March. */
  ghost function SinceMarch(month: int, day: int): int {
    (153 * (month + (if month > 2 then -3 else 9)) + 2) / 5 + day - 1
  }

  lemma {:induction false} DaysForm(year: int, month: int, day: int)
    ensures DaysFromCivil(year, month, day) ==
            YearTerms(if month <= 2 then year - 1 else year) + SinceMarch(month, day) - 719_468
  {
    var y := if month <= 2 then year - 1 else year;
    var era := y / 400;
    var yearOfEra := y - 400 * era;
    assert y / 4 == 100 * era + yearOfEra / 4;
    assert y / 100 == 4 * era + yearOfEra / 100;
  }

  lemma {:induction false} QuotientGrows(y: int, n: int)
    requires n == 4 || n == 100 || n == 400
    ensures y / n == (y - 1) / n + (if y % n == 0 then 1 else 0)
  {
  }

  lemma {:induction false} MultiplesNest(y: int)
    ensures y % 100 == 0 ==> y % 4 == 0
    ensures y % 400 == 0 ==> y % 100 == 0
  {
  }

  /** Leap years are the multiples of 4 that are not of 100, and the multiples of 400. */
  lemma {:induction false} LeapIndicator(y: int)
    ensures (if IsLeap(y) then 1 else 0) ==
            (if y % 4 == 0 then 1 else 0) - (if y % 100 == 0 then 1 else 0) + (if y % 400 == 0 then 1 else 0)
  {
    MultiplesNest(y);
  }

  /** From one year to the next, the year terms grow by 365, or by 366 into a leap year. */
  lemma {:induction false} YearsGrow(y: int)
    ensures YearTerms(y) == YearTerms(y - 1) + (if IsLeap(y) then 366 else 365)
  {
    hide IsLeap;
    LeapIndicator(y);
    QuotientGrows(y, 4);
    QuotientGrows(y, 100);
    QuotientGrows(y, 400);
  }

  /** The closed form counts days: 1970-01-01 is day 0, and the day after any day has the next number. */
  lemma {:induction false} DaysAreCounted(year: int, month: int, day: int)
    requires 1 <= month <= 12 && 1 <= day <= MonthLength(year, month)
    ensures var next := NextDay(year, month, day);
            DaysFromCivil(next.0, next.1, next.2) == DaysFromCivil(year, month, day) + 1
    ensures DaysFromCivil(1970, 1, 1) == 0
  {
    hide IsLeap, DaysFromCivil, YearTerms;
    var next := NextDay(year, month, day);
    DaysForm(year, month, day);
    DaysForm(next.0, next.1, next.2);
    YearsGrow(year);
    FirstDay();
  }

  lemma {:induction false} FirstDay()
    ensures DaysFromCivil(1970, 1, 1) == 0
  {
  }

  /** `Date.parse` on a text of the instant pattern, in milliseconds; 0 on anything shorter. */
  function Epoch(t: Text): int {
    if |t| < 20 then 0
    else
      var days := DaysFromCivil(DigitsAt(t, 0, 4), DigitsAt(t, 5, 2), DigitsAt(t, 8, 2));
      var seconds := 3600 * DigitsAt(t, 11, 2) + 60 * DigitsAt(t, 14, 2) + DigitsAt(t, 17, 2);
      var zone := if t[19] == 46 && |t| > 23 then 23 else 19;
      var millis := if zone == 23 then DigitsAt(t, 20, 3) else 0;
      var minutesEast :=
        if |t| < zone + 6 then 0
        else (if t[zone] == 45 then -1 else 1) * (60 * DigitsAt(t, zone + 1, 2) + DigitsAt(t, zone + 4, 2));
      86_400_000 * days + 1000 * (seconds - 60 * minutesEast) + millis
  }

  // ---------- projection events ----------

  datatype Source = Source(kind: Text, referenceId: Text, dataClass: Text)

  datatype Route = Route(routeId: Text, modelId: Text, effort: Text)

  datatype Policy = Policy(policyId: Text, decisionHash: Text)

  datatype Metrics = Metrics(durationMs: Option<SafeNat>, apiEquivalentCost: Option<SafeNat>,
                             observedBilledCost: Option<SafeNat>)

  /** A validated event; the members of its enumerations are kept as the texts they are. */
  datatype Event = Event(eventId: Text, idempotencyKey: Text, projectId: Text, entityId: Text, revision: SafeNat,
                         occurredAt: Text, source: Source, state: Text, route: Option<Route>, policy: Policy,
                         metrics: Metrics)

  const EVENT_VERSION := Ascii("route-projection-event-v1")
  const SOURCE_KEYS := [Ascii("kind"), Ascii("reference_id"), Ascii("data_class")]
  const ROUTE_KEYS := [Ascii("route_id"), Ascii("model_id"), Ascii("effort")]
  const POLICY_KEYS := [Ascii("policy_id"), Ascii("decision_hash")]
  const METRICS_KEYS := [Ascii("duration_ms"), Ascii("api_equivalent_cost_micros"),
                         Ascii("observed_billed_cost_micros"), Ascii("currency")]
  const EVENT_KEYS := [Ascii("event_version"), Ascii("event_id"), Ascii("idempotency_key"), Ascii("project_id"),
                       Ascii("entity_id"), Ascii("revision"), Ascii("occurred_at"), Ascii("source"), Ascii("state"),
                       Ascii("route"), Ascii("policy"), Ascii("metrics")]

  function SourceJson(s: Source): Value {
    Record(SOURCE_KEYS, [Str(s.kind), Str(s.referenceId), Str(s.dataClass)])
  }

  function RouteJson(r: Option<Route>): Value {
    if r.None? then Null
    else Record(ROUTE_KEYS, [Str(r.value.routeId), Str(r.value.modelId), Str(r.value.effort)])
  }

  function PolicyJson(p: Policy): Value { Record(POLICY_KEYS, [Str(p.policyId), Str(p.decisionHash)]) }

  function MetricsJson(m: Metrics): Value {
    Record(METRICS_KEYS, MetricsValues(m))
  }

  function EventValues(e: Event): (r: seq<Value>)
    ensures |r| == |EVENT_KEYS|
  {
    [Str(EVENT_VERSION), Str(e.eventId), Str(e.idempotencyKey), Str(e.projectId), Str(e.entityId), Int(e.revision),
     Str(e.occurredAt), SourceJson(e.source), Str(e.state), RouteJson(e.route), PolicyJson(e.policy),
     MetricsJson(e.metrics)]
  }

  function EventJson(e: Event): Value { Record(EVENT_KEYS, EventValues(e)) }

  lemma {:induction false} PartKeysDistinct()
    ensures DistinctTexts(SOURCE_KEYS) && DistinctTexts(ROUTE_KEYS) && DistinctTexts(POLICY_KEYS)
    ensures DistinctTexts(METRICS_KEYS)
  {
    assert ROUTE_KEYS[0][0] != ROUTE_KEYS[1][0];
  }

  lemma {:induction false} EventKeysDistinct()
    ensures DistinctTexts(EVENT_KEYS)
  {
    // Keys of equal length differ in their first letter.
    assert EVENT_KEYS[1][0] != EVENT_KEYS[5][0];
    assert EVENT_KEYS[7][0] != EVENT_KEYS[10][0];
    assert EVENT_KEYS[8][0] != EVENT_KEYS[9][0];
  }

  lemma {:induction false} SourceSound(s: Source)
    ensures Sound(SourceJson(s))
  {
    PartKeysDistinct();
    RecordIsSound(SOURCE_KEYS, [Str(s.kind), Str(s.referenceId), Str(s.dataClass)]);
  }

  lemma {:induction false} RouteSound(r: Option<Route>)
    ensures Sound(RouteJson(r))
  {
    PartKeysDistinct();
    if r.Some? {
      RecordIsSound(ROUTE_KEYS, [Str(r.value.routeId), Str(r.value.modelId), Str(r.value.effort)]);
    }
  }

  lemma {:induction false} PolicySound(p: Policy)
    ensures Sound(PolicyJson(p))
  {
    PartKeysDistinct();
    RecordIsSound(POLICY_KEYS, [Str(p.policyId), Str(p.decisionHash)]);
  }

  function MetricsValues(m: Metrics): (r: seq<Value>)
    ensures |r| == |METRICS_KEYS|
  {
    [OptionalInt(m.durationMs), OptionalInt(m.apiEquivalentCost), OptionalInt(m.observedBilledCost), Str(Ascii("USD"))]
  }

  lemma {:induction false} MetricsSound(m: Metrics)
    ensures Sound(MetricsJson(m))
  {
    PartKeysDistinct();
    RecordIsSound(METRICS_KEYS, MetricsValues(m));
  }

  lemma {:induction false} EventSound(e: Event)
    ensures Sound(EventJson(e)) && forall i | 0 <= i < |EVENT_KEYS| :: Sound(EventValues(e)[i])
  {
    EventKeysDistinct();
    SourceSound(e.source);
    RouteSound(e.route);
    PolicySound(e.policy);
    MetricsSound(e.metrics);
    RecordIsSound(EVENT_KEYS, EventValues(e));
  }

  /** `canonicalHash(event)`. */
  function ContentHash(e: Event): (h: Text)
    ensures CanonicalHash(EventJson(e)) == Some(h)
  {
    EventSound(e);
    Print(EventJson(e))
  }

  lemma {:induction false} SamePolicy(p: Policy, q: Policy)
    requires Same(PolicyJson(p), PolicyJson(q))
    ensures p == q
  {
    PartKeysDistinct();
    var a, b := [Str(p.policyId), Str(p.decisionHash)], [Str(q.policyId), Str(q.decisionHash)];
    SameRecord(POLICY_KEYS, a, b);
    assert Same(a[0], b[0]) && Same(a[1], b[1]);
  }

  lemma {:induction false} SameSource(s: Source, t: Source)
    requires Same(SourceJson(s), SourceJson(t))
    ensures s == t
  {
    PartKeysDistinct();
    var a := [Str(s.kind), Str(s.referenceId), Str(s.dataClass)];
    var b := [Str(t.kind), Str(t.referenceId), Str(t.dataClass)];
    SameRecord(SOURCE_KEYS, a, b);
    assert Same(a[0], b[0]) && Same(a[1], b[1]) && Same(a[2], b[2]);
  }

  lemma {:induction false} SameRoute(r: Option<Route>, s: Option<Route>)
    requires Same(RouteJson(r), RouteJson(s))
    ensures r == s
  {
    PartKeysDistinct();
    if r.Some? && s.Some? {
      var a := [Str(r.value.routeId), Str(r.value.modelId), Str(r.value.effort)];
      var b := [Str(s.value.routeId), Str(s.value.modelId), Str(s.value.effort)];
      SameRecord(ROUTE_KEYS, a, b);
      assert Same(a[0], b[0]) && Same(a[1], b[1]) && Same(a[2], b[2]);
    }
  }

  lemma {:induction false} SameMetrics(m: Metrics, n: Metrics)
    requires Same(MetricsJson(m), MetricsJson(n))
    ensures m == n
  {
    PartKeysDistinct();
    var a, b := MetricsValues(m), MetricsValues(n);
    SameRecord(METRICS_KEYS, a, b);
    assert Same(a[0], b[0]) && Same(a[1], b[1]) && Same(a[2], b[2]);
  }

  /** The content hash identifies the event. */
  lemma {:induction false} ContentHashInjective(e: Event, f: Event)
    requires ContentHash(e) == ContentHash(f)
    ensures e == f
  {
    EventSound(e);
    EventSound(f);
    EventKeysDistinct();
    var a, b := EventValues(e), EventValues(f);
    RecordHash(EVENT_KEYS, a, b);
    SameScalars(e, f);
    assert Same(a[7], b[7]) && Same(a[9], b[9]) && Same(a[10], b[10]) && Same(a[11], b[11]);
    SameSource(e.source, f.source);
    SameRoute(e.route, f.route);
    SamePolicy(e.policy, f.policy);
    SameMetrics(e.metrics, f.metrics);
  }

  lemma {:induction false} SameScalars(e: Event, f: Event)
    requires forall i | 0 <= i < |EVENT_KEYS| :: Same(EventValues(e)[i], EventValues(f)[i])
    ensures e.eventId == f.eventId && e.idempotencyKey == f.idempotencyKey && e.projectId == f.projectId
    ensures e.entityId == f.entityId && e.revision == f.revision && e.occurredAt == f.occurredAt && e.state == f.state
  {
    var a, b := EventValues(e), EventValues(f);
    assert Same(a[1], b[1]) && Same(a[2], b[2]) && Same(a[3], b[3]) && Same(a[4], b[4]);
    assert Same(a[5], b[5]) && Same(a[6], b[6]) && Same(a[8], b[8]);
  }

  // ---------- event batches ----------

  datatype Batch = Batch(batchId: Text, idempotencyKey: Text, projectId: Text, generatedAt: Text, events: seq<Event>,
                         batchHash: Text)

  const BATCH_VERSION := Ascii("route-events-batch-v1")
  const BATCH_KEYS := [Ascii("schema_version"), Ascii("batch_id"), Ascii("idempotency_key"), Ascii("project_id"),
                       Ascii("generated_at"), Ascii("events")]

  function EventsJson(events: seq<Event>): (v: Value)
    ensures v.Arr? && |v.items| == |events|
  {
    Arr(seq(|events|, i requires 0 <= i < |events| => EventJson(events[i])))
  }

  function BatchValues(b: Batch): (r: seq<Value>)
    ensures |r| == |BATCH_KEYS|
  {
    [Str(BATCH_VERSION), Str(b.batchId), Str(b.idempotencyKey), Str(b.projectId), Str(b.generatedAt),
     EventsJson(b.events)]
  }

  lemma {:induction false} BatchSound(b: Batch)
    ensures DistinctTexts(BATCH_KEYS)
    ensures forall i | 0 <= i < |BATCH_KEYS| :: Sound(BatchValues(b)[i])
    ensures Sound(Record(BATCH_KEYS, BatchValues(b)))
  {
    forall i | 0 <= i < |b.events|
      ensures Sound(EventsJson(b.events).items[i])
    {
      EventSound(b.events[i]);
    }
    RecordIsSound(BATCH_KEYS, BatchValues(b));
  }

  /** The hash a batch has to declare: that of the batch without its `batch_hash`. */
  function BodyHash(b: Batch): (h: Text)
    ensures CanonicalHash(Record(BATCH_KEYS, BatchValues(b))) == Some(h)
  {
    BatchSound(b);
    Print(Record(BATCH_KEYS, BatchValues(b)))
  }

  lemma {:induction false} SameEvents(a: seq<Event>, b: seq<Event>)
    requires Same(EventsJson(a), EventsJson(b))
    ensures a == b
  {
    forall i | 0 <= i < |a|
      ensures a[i] == b[i]
    {
      assert Same(EventsJson(a).items[i], EventsJson(b).items[i]);
      SameEvent(a[i], b[i]);
    }
  }

  lemma {:induction false} SameEvent(e: Event, f: Event)
    requires Same(EventJson(e), EventJson(f))
    ensures e == f
  {
    EventSound(e);
    EventSound(f);
    HashIdentifies(EventJson(e), EventJson(f));
    ContentHashInjective(e, f);
  }

  /** Batches that declare their true hash and declare the same one are the same batch. */
  lemma {:induction false} BodyHashInjective(b: Batch, c: Batch)
    requires BodyHash(b) == BodyHash(c)
    ensures b.(batchHash := []) == c.(batchHash := [])
  {
    BatchSound(b);
    BatchSound(c);
    var v, w := BatchValues(b), BatchValues(c);
    RecordHash(BATCH_KEYS, v, w);
    assert Same(v[1], w[1]) && Same(v[2], w[2]) && Same(v[3], w[3]) && Same(v[4], w[4]) && Same(v[5], w[5]);
    SameEvents(b.events, c.events);
  }
}
