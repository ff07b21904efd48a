/** Dashboard supplements and their hashes. */
module SupplementRecords {
  import opened JsValues
  import opened Canonical
  import opened Records

  datatype Experiment = Experiment(experimentId: Text, pairId: Text, arm: Text, state: Text,
                                   functionalResult: Option<Text>, criticalFailure: Option<bool>,
                                   baselineCost: Option<SafeNat>, candidateCost: Option<SafeNat>,
                                   qualityScore: Option<SafeNat>)

  datatype Supplement = Supplement(supplementId: Text, idempotencyKey: Text, projectId: Text, entityId: Text,
                                   revision: SafeNat, decisionHash: Text, occurredAt: Text, matchedRuleIds: seq<Text>,
                                   requestedModelId: Option<Text>, observedModelId: Option<Text>,
                                   experiment: Experiment, contractHash: Text, criteriaHash: Text)

  datatype SupplementBatch = SupplementBatch(batchId: Text, idempotencyKey: Text, projectId: Text, generatedAt: Text,
                                             supplements: seq<Supplement>, batchHash: Text)

  const SUPPLEMENT_VERSION := Ascii("route-dashboard-supplement-v1")
  const BATCH_VERSION := Ascii("route-dashboard-supplements-batch-v1")
  const EXPERIMENT_KEYS := [Ascii("experiment_id"), Ascii("pair_id"), Ascii("arm"), Ascii("state"),
                            Ascii("functional_result"), Ascii("critical_failure"), Ascii("baseline_cost_micros"),
                            Ascii("candidate_cost_micros"), Ascii("quality_score_basis_points")]
  const BODY_KEYS := [Ascii("supplement_version"), Ascii("supplement_id"), Ascii("project_id"), Ascii("entity_id"),
                      Ascii("revision"), Ascii("decision_hash"), Ascii("occurred_at"), Ascii("matched_rule_ids"),
                      Ascii("requested_model_id"), Ascii("observed_model_id"), Ascii("experiment"),
                      Ascii("contract_hash"), Ascii("criteria_hash")]
  const CORE_KEYS := [Ascii("schema_version"), Ascii("batch_id"), Ascii("project_id"), Ascii("generated_at"),
                      Ascii("supplements")]
  const IDEMPOTENCY_KEY := Ascii("idempotency_key")

  function ExperimentValues(x: Experiment): (r: seq<Value>)
    ensures |r| == |EXPERIMENT_KEYS|
  {
    [Str(x.experimentId), Str(x.pairId), Str(x.arm), Str(x.state), OptionalText(x.functionalResult),
     OptionalBool(x.criticalFailure), OptionalInt(x.baselineCost), OptionalInt(x.candidateCost),
     OptionalInt(x.qualityScore)]
  }

  function ExperimentJson(x: Experiment): Value { Record(EXPERIMENT_KEYS, ExperimentValues(x)) }

  /** Everything but the idempotency key. */
  function BodyValues(s: Supplement): (r: seq<Value>)
    ensures |r| == |BODY_KEYS|
  {
    [Str(SUPPLEMENT_VERSION), Str(s.supplementId), Str(s.projectId), Str(s.entityId), Int(s.revision),
     Str(s.decisionHash), Str(s.occurredAt), Texts(s.matchedRuleIds), OptionalText(s.requestedModelId),
     OptionalText(s.observedModelId), ExperimentJson(s.experiment), Str(s.contractHash), Str(s.criteriaHash)]
  }

  function FullKeys(): seq<Text> { BODY_KEYS + [IDEMPOTENCY_KEY] }

  function FullValues(s: Supplement): (r: seq<Value>)
    ensures |r| == |FullKeys()|
  {
    BodyValues(s) + [Str(s.idempotencyKey)]
  }

  lemma {:induction false} ExperimentSound(x: Experiment)
    ensures DistinctTexts(EXPERIMENT_KEYS)
    ensures Sound(ExperimentJson(x))
  {
    RecordIsSound(EXPERIMENT_KEYS, ExperimentValues(x));
  }

  lemma {:induction false} BodyKeysDistinct()
    ensures DistinctTexts(BODY_KEYS) && DistinctTexts(FullKeys())
  {
    // Keys of equal length differ in their first or second letter.
    assert BODY_KEYS[0][0] != BODY_KEYS[8][0];
    assert BODY_KEYS[1][0] != BODY_KEYS[5][0] && BODY_KEYS[1][0] != BODY_KEYS[11][0]
      && BODY_KEYS[1][0] != BODY_KEYS[12][0];
    assert BODY_KEYS[5][0] != BODY_KEYS[11][0] && BODY_KEYS[5][0] != BODY_KEYS[12][0];
    assert BODY_KEYS[11][1] != BODY_KEYS[12][1];
    assert BODY_KEYS[2][0] != BODY_KEYS[10][0];
    forall i | 0 <= i < |BODY_KEYS|
      ensures |BODY_KEYS[i]| != |IDEMPOTENCY_KEY|
    {
    }
  }

  lemma {:induction false} SupplementSound(s: Supplement)
    ensures forall i | 0 <= i < |BODY_KEYS| :: Sound(BodyValues(s)[i])
    ensures forall i | 0 <= i < |FullKeys()| :: Sound(FullValues(s)[i])
    ensures Sound(Record(BODY_KEYS, BodyValues(s))) && Sound(Record(FullKeys(), FullValues(s)))
  {
    BodyKeysDistinct();
    ExperimentSound(s.experiment);
    TextsSound(s.matchedRuleIds);
    RecordIsSound(BODY_KEYS, BodyValues(s));
    RecordIsSound(FullKeys(), FullValues(s));
  }

  /** The idempotency key a supplement has to carry. */
  function BodyHash(s: Supplement): Text {
    SupplementSound(s);
    Print(Record(BODY_KEYS, BodyValues(s)))
  }

  /** `canonicalHash(supplement)`; the printer sorts the keys, so the key order used here is immaterial. */
  function ContentHash(s: Supplement): Text {
    SupplementSound(s);
    Print(Record(FullKeys(), FullValues(s)))
  }

  lemma {:induction false} SameExperiment(x: Experiment, y: Experiment)
    requires Same(ExperimentJson(x), ExperimentJson(y))
    ensures x == y
  {
    ExperimentSound(x);
    var a, b := ExperimentValues(x), ExperimentValues(y);
    SameRecord(EXPERIMENT_KEYS, a, b);
    assert Same(a[0], b[0]) && Same(a[1], b[1]) && Same(a[2], b[2]) && Same(a[3], b[3]) && Same(a[4], b[4]);
    assert Same(a[5], b[5]) && Same(a[6], b[6]) && Same(a[7], b[7]) && Same(a[8], b[8]);
  }

  /** The body hash identifies a supplement up to its idempotency key. */
  lemma {:induction false} BodyHashInjective(s: Supplement, t: Supplement)
    requires BodyHash(s) == BodyHash(t)
    ensures s.(idempotencyKey := []) == t.(idempotencyKey := [])
  {
    SupplementSound(s);
    SupplementSound(t);
    BodyKeysDistinct();
    var a, b := BodyValues(s), BodyValues(t);
    RecordHash(BODY_KEYS, a, b);
    SameBody(s, t);
  }

  lemma {:induction false} SameBody(s: Supplement, t: Supplement)
    requires forall i | 0 <= i < |BODY_KEYS| :: Same(BodyValues(s)[i], BodyValues(t)[i])
    ensures s.(idempotencyKey := []) == t.(idempotencyKey := [])
  {
    var a, b := BodyValues(s), BodyValues(t);
    assert Same(a[1], b[1]) && Same(a[2], b[2]) && Same(a[3], b[3]) && Same(a[4], b[4]) && Same(a[5], b[5]);
    assert Same(a[6], b[6]) && Same(a[7], b[7]) && Same(a[8], b[8]) && Same(a[9], b[9]) && Same(a[10], b[10]);
    assert Same(a[11], b[11]) && Same(a[12], b[12]);
    SameTexts(s.matchedRuleIds, t.matchedRuleIds);
    SameExperiment(s.experiment, t.experiment);
  }

  /** The content hash identifies the supplement. */
  lemma {:induction false} ContentHashInjective(s: Supplement, t: Supplement)
    requires ContentHash(s) == ContentHash(t)
    ensures s == t
  {
    SupplementSound(s);
    SupplementSound(t);
    BodyKeysDistinct();
    RecordHash(FullKeys(), FullValues(s), FullValues(t));
    SameFull(s, t);
  }

  lemma {:induction false} SameFull(s: Supplement, t: Supplement)
    requires forall i | 0 <= i < |FullKeys()| :: Same(FullValues(s)[i], FullValues(t)[i])
    ensures s == t
  {
    hide BodyValues;
    forall i | 0 <= i < |BODY_KEYS|
      ensures Same(BodyValues(s)[i], BodyValues(t)[i])
    {
      assert FullValues(s)[i] == BodyValues(s)[i] && FullValues(t)[i] == BodyValues(t)[i];
    }
    SameBody(s, t);
    assert Same(FullValues(s)[|BODY_KEYS|], FullValues(t)[|BODY_KEYS|]);
  }

  // ---------- batches ----------

  function SupplementsJson(supplements: seq<Supplement>): (v: Value)
    ensures v.Arr? && |v.items| == |supplements|
  {
    Arr(seq(|supplements|, i requires 0 <= i < |supplements| => Record(FullKeys(), FullValues(supplements[i]))))
  }

  function CoreValues(b: SupplementBatch): (r: seq<Value>)
    ensures |r| == |CORE_KEYS|
  {
    [Str(BATCH_VERSION), Str(b.batchId), Str(b.projectId), Str(b.generatedAt), SupplementsJson(b.supplements)]
  }

  lemma {:induction false} CoreSound(b: SupplementBatch)
    ensures DistinctTexts(CORE_KEYS) && DistinctTexts(CORE_KEYS + [IDEMPOTENCY_KEY])
    ensures Sound(Record(CORE_KEYS, CoreValues(b)))
    ensures Sound(Record(CORE_KEYS + [IDEMPOTENCY_KEY], CoreValues(b) + [Str(b.idempotencyKey)]))
  {
    forall i | 0 <= i < |b.supplements|
      ensures Sound(SupplementsJson(b.supplements).items[i])
    {
      SupplementSound(b.supplements[i]);
    }
    assert |BATCH_VERSION| > 0;
    RecordIsSound(CORE_KEYS, CoreValues(b));
    RecordIsSound(CORE_KEYS + [IDEMPOTENCY_KEY], CoreValues(b) + [Str(b.idempotencyKey)]);
  }

  function CoreHash(b: SupplementBatch): Text {
    CoreSound(b);
    Print(Record(CORE_KEYS, CoreValues(b)))
  }

  function KeyedHash(b: SupplementBatch): Text {
    CoreSound(b);
    Print(Record(CORE_KEYS + [IDEMPOTENCY_KEY], CoreValues(b) + [Str(b.idempotencyKey)]))
  }

  lemma {:induction false} SameSupplement(s: Supplement, t: Supplement)
    requires Same(Record(FullKeys(), FullValues(s)), Record(FullKeys(), FullValues(t)))
    ensures s == t
  {
    hide BodyValues;
    BodyKeysDistinct();
    SameRecord(FullKeys(), FullValues(s), FullValues(t));
    SameFull(s, t);
  }

  lemma {:induction false} SameSupplements(a: seq<Supplement>, b: seq<Supplement>)
    requires Same(SupplementsJson(a), SupplementsJson(b))
    ensures a == b
  {
    hide FullValues;
    forall i | 0 <= i < |a|
      ensures a[i] == b[i]
    {
      assert Same(SupplementsJson(a).items[i], SupplementsJson(b).items[i]);
      SameSupplement(a[i], b[i]);
    }
  }

  /** Batches with the same batch hash are the same batch. */
  lemma {:induction false} KeyedHashInjective(b: SupplementBatch, c: SupplementBatch)
    requires KeyedHash(b) == KeyedHash(c)
    ensures b.(batchHash := []) == c.(batchHash := [])
  {
    hide SupplementsJson;
    CoreSound(b);
    CoreSound(c);
    var v, w := CoreValues(b) + [Str(b.idempotencyKey)], CoreValues(c) + [Str(c.idempotencyKey)];
    KeyedSound(b);
    KeyedSound(c);
    RecordHash(CORE_KEYS + [IDEMPOTENCY_KEY], v, w);
    assert Same(v[1], w[1]) && Same(v[2], w[2]) && Same(v[3], w[3]) && Same(v[4], w[4]) && Same(v[5], w[5]);
    SameSupplements(b.supplements, c.supplements);
  }

  lemma {:induction false} KeyedSound(b: SupplementBatch)
    ensures var v := CoreValues(b) + [Str(b.idempotencyKey)];
            forall i | 0 <= i < |v| :: Sound(v[i])
  {
    forall i | 0 <= i < |b.supplements|
      ensures Sound(SupplementsJson(b.supplements).items[i])
    {
      SupplementSound(b.supplements[i]);
    }
  }
}
