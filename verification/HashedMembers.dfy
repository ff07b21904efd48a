/**
  * Which members the hashed JSON objects have. Together with the printer this fixes what is hashed,
  * name by name.
  */
module HashedMembers {
  import opened JsValues
  import opened Canonical
  import Events = Records
  import Supplements = SupplementRecords

  ghost predicate Has(v: Value, name: Text, value: Value) {
    v.Obj? && exists i | 0 <= i < |v.fields| :: v.fields[i] == Entry(name, value)
  }

  /** Exactly so many members, all of different names. */
  ghost predicate Members(v: Value, count: nat) { v.Obj? && |v.fields| == count && DistinctKeys(v.fields) }

  ghost function NumberOrNull(n: Option<Events.SafeNat>): Value { if n.Some? then Number(n.value as real) else Null }

  ghost function TextOrNull(t: Option<Text>): Value { if t.Some? then Str(t.value) else Null }

  ghost function BoolOrNull(b: Option<bool>): Value { if b.Some? then Bool(b.value) else Null }

  ghost function AllTexts(ts: seq<Text>): Value { Arr(seq(|ts|, i requires 0 <= i < |ts| => Str(ts[i]))) }

  ghost function AllEvents(es: seq<Events.Event>): Value {
    Arr(seq(|es|, i requires 0 <= i < |es| => Events.EventJson(es[i])))
  }

  lemma {:induction false} RecordHas(keys: seq<Text>, values: seq<Value>)
    requires |keys| == |values| && Events.DistinctTexts(keys)
    ensures Members(Events.Record(keys, values), |keys|)
    ensures forall i | 0 <= i < |keys| :: Has(Events.Record(keys, values), keys[i], values[i])
  {
    var v := Events.Record(keys, values);
    forall i | 0 <= i < |keys|
      ensures Has(v, keys[i], values[i])
    {
      assert v.fields[i] == Entry(keys[i], values[i]);
    }
  }

  // ---------- events ----------

  /** The object hashed as an event's content hash: twelve members, of which these identify it. */
  lemma {:induction false} EventIdentity(e: Events.Event)
    ensures var v := Events.EventJson(e);
            && Members(v, 12)
            && Has(v, Ascii("event_version"), Str(Ascii("route-projection-event-v1")))
            && Has(v, Ascii("event_id"), Str(e.eventId))
            && Has(v, Ascii("idempotency_key"), Str(e.idempotencyKey))
  {
    hide Has, Members, Ascii;
    Events.EventKeysDistinct();
    var keys, values := Events.EVENT_KEYS, Events.EventValues(e);
    RecordHas(keys, values);
    assert keys[0] == Ascii("event_version");
    assert values[0] == Str(Ascii("route-projection-event-v1"));
    assert keys[1] == Ascii("event_id");
    assert values[1] == Str(e.eventId);
    assert keys[2] == Ascii("idempotency_key");
    assert values[2] == Str(e.idempotencyKey);
  }

  lemma {:induction false} EventSubject(e: Events.Event)
    ensures var v := Events.EventJson(e);
            && Has(v, Ascii("project_id"), Str(e.projectId)) && Has(v, Ascii("entity_id"), Str(e.entityId))
            && Has(v, Ascii("revision"), Number(e.revision as real))
            && Has(v, Ascii("occurred_at"), Str(e.occurredAt))
  {
    hide Has, Members, Ascii;
    Events.EventKeysDistinct();
    var keys, values := Events.EVENT_KEYS, Events.EventValues(e);
    RecordHas(keys, values);
    assert keys[3] == Ascii("project_id");
    assert values[3] == Str(e.projectId);
    assert keys[4] == Ascii("entity_id");
    assert values[4] == Str(e.entityId);
    assert keys[5] == Ascii("revision");
    assert values[5] == Number(e.revision as real);
    assert keys[6] == Ascii("occurred_at");
    assert values[6] == Str(e.occurredAt);
  }

  lemma {:induction false} EventParts(e: Events.Event)
    ensures var v := Events.EventJson(e);
            && Has(v, Ascii("source"), Events.SourceJson(e.source)) && Has(v, Ascii("state"), Str(e.state))
            && Has(v, Ascii("route"), Events.RouteJson(e.route))
            && Has(v, Ascii("policy"), Events.PolicyJson(e.policy))
            && Has(v, Ascii("metrics"), Events.MetricsJson(e.metrics))
  {
    hide Has, Members, Ascii;
    Events.EventKeysDistinct();
    var keys, values := Events.EVENT_KEYS, Events.EventValues(e);
    RecordHas(keys, values);
    assert keys[7] == Ascii("source");
    assert values[7] == Events.SourceJson(e.source);
    assert keys[8] == Ascii("state");
    assert values[8] == Str(e.state);
    assert keys[9] == Ascii("route");
    assert values[9] == Events.RouteJson(e.route);
    assert keys[10] == Ascii("policy");
    assert values[10] == Events.PolicyJson(e.policy);
    assert keys[11] == Ascii("metrics");
    assert values[11] == Events.MetricsJson(e.metrics);
  }

  lemma {:induction false} SourceMembers(s: Events.Source)
    ensures var v := Events.SourceJson(s);
            && Members(v, 3)
            && Has(v, Ascii("kind"), Str(s.kind)) && Has(v, Ascii("reference_id"), Str(s.referenceId))
            && Has(v, Ascii("data_class"), Str(s.dataClass))
  {
    hide Has, Members, Ascii;
    Events.PartKeysDistinct();
    var keys, values := Events.SOURCE_KEYS, [Str(s.kind), Str(s.referenceId), Str(s.dataClass)];
    RecordHas(keys, values);
    assert keys[0] == Ascii("kind");
    assert values[0] == Str(s.kind);
    assert keys[1] == Ascii("reference_id");
    assert values[1] == Str(s.referenceId);
    assert keys[2] == Ascii("data_class");
    assert values[2] == Str(s.dataClass);
  }

  lemma {:induction false} RouteMembers(r: Events.Route)
    ensures var v := Events.RouteJson(Some(r));
            && Members(v, 3)
            && Has(v, Ascii("route_id"), Str(r.routeId)) && Has(v, Ascii("model_id"), Str(r.modelId))
            && Has(v, Ascii("effort"), Str(r.effort))
  {
    hide Has, Members, Ascii;
    Events.PartKeysDistinct();
    var keys, values := Events.ROUTE_KEYS, [Str(r.routeId), Str(r.modelId), Str(r.effort)];
    RecordHas(keys, values);
    assert keys[0] == Ascii("route_id");
    assert values[0] == Str(r.routeId);
    assert keys[1] == Ascii("model_id");
    assert values[1] == Str(r.modelId);
    assert keys[2] == Ascii("effort");
    assert values[2] == Str(r.effort);
  }

  lemma {:induction false} PolicyMembers(p: Events.Policy)
    ensures var v := Events.PolicyJson(p);
            && Members(v, 2)
            && Has(v, Ascii("policy_id"), Str(p.policyId))
            && Has(v, Ascii("decision_hash"), Str(p.decisionHash))
  {
    hide Has, Members, Ascii;
    Events.PartKeysDistinct();
    var keys, values := Events.POLICY_KEYS, [Str(p.policyId), Str(p.decisionHash)];
    RecordHas(keys, values);
    assert keys[0] == Ascii("policy_id");
    assert values[0] == Str(p.policyId);
    assert keys[1] == Ascii("decision_hash");
    assert values[1] == Str(p.decisionHash);
  }

  lemma {:induction false} MetricsMembers(m: Events.Metrics)
    ensures var v := Events.MetricsJson(m);
            && Members(v, 4)
            && Has(v, Ascii("duration_ms"), NumberOrNull(m.durationMs))
            && Has(v, Ascii("api_equivalent_cost_micros"), NumberOrNull(m.apiEquivalentCost))
            && Has(v, Ascii("observed_billed_cost_micros"), NumberOrNull(m.observedBilledCost))
            && Has(v, Ascii("currency"), Str(Ascii("USD")))
  {
    hide Has, Members, Ascii;
    Events.PartKeysDistinct();
    var keys, values := Events.METRICS_KEYS, Events.MetricsValues(m);
    RecordHas(keys, values);
    assert keys[0] == Ascii("duration_ms");
    assert values[0] == NumberOrNull(m.durationMs);
    assert keys[1] == Ascii("api_equivalent_cost_micros");
    assert values[1] == NumberOrNull(m.apiEquivalentCost);
    assert keys[2] == Ascii("observed_billed_cost_micros");
    assert values[2] == NumberOrNull(m.observedBilledCost);
    assert keys[3] == Ascii("currency");
    assert values[3] == Str(Ascii("USD"));
  }

  /** The object a batch declares the hash of: everything but its `batch_hash`. */
  lemma {:induction false} BatchIdentity(b: Events.Batch)
    ensures var v := Events.Record(Events.BATCH_KEYS, Events.BatchValues(b));
            && Members(v, 6)
            && Has(v, Ascii("schema_version"), Str(Ascii("route-events-batch-v1")))
            && Has(v, Ascii("batch_id"), Str(b.batchId))
            && Has(v, Ascii("idempotency_key"), Str(b.idempotencyKey))
  {
    hide Has, Members, Ascii;
    Events.BatchSound(b);
    var keys, values := Events.BATCH_KEYS, Events.BatchValues(b);
    RecordHas(keys, values);
    assert keys[0] == Ascii("schema_version");
    assert values[0] == Str(Ascii("route-events-batch-v1"));
    assert keys[1] == Ascii("batch_id");
    assert values[1] == Str(b.batchId);
    assert keys[2] == Ascii("idempotency_key");
    assert values[2] == Str(b.idempotencyKey);
  }

  lemma {:induction false} BatchContents(b: Events.Batch)
    ensures var v := Events.Record(Events.BATCH_KEYS, Events.BatchValues(b));
            && Has(v, Ascii("project_id"), Str(b.projectId))
            && Has(v, Ascii("generated_at"), Str(b.generatedAt)) && Has(v, Ascii("events"), AllEvents(b.events))
  {
    hide Has, Members, Ascii;
    Events.BatchSound(b);
    var keys, values := Events.BATCH_KEYS, Events.BatchValues(b);
    RecordHas(keys, values);
    assert keys[3] == Ascii("project_id");
    assert values[3] == Str(b.projectId);
    assert keys[4] == Ascii("generated_at");
    assert values[4] == Str(b.generatedAt);
    assert keys[5] == Ascii("events");
    assert values[5] == AllEvents(b.events);
  }

  // ---------- supplements ----------

  /** The object whose hash a supplement carries as its key: thirteen members. */
  lemma {:induction false} SupplementIdentity(s: Supplements.Supplement)
    ensures var v := Events.Record(Supplements.BODY_KEYS, Supplements.BodyValues(s));
            && Members(v, 13)
            && Has(v, Ascii("supplement_version"), Str(Ascii("route-dashboard-supplement-v1")))
            && Has(v, Ascii("supplement_id"), Str(s.supplementId))
            && Has(v, Ascii("project_id"), Str(s.projectId))
  {
    hide Has, Members, Ascii;
    Supplements.BodyKeysDistinct();
    var keys, values := Supplements.BODY_KEYS, Supplements.BodyValues(s);
    RecordHas(keys, values);
    assert keys[0] == Ascii("supplement_version");
    assert values[0] == Str(Ascii("route-dashboard-supplement-v1"));
    assert keys[1] == Ascii("supplement_id");
    assert values[1] == Str(s.supplementId);
    assert keys[2] == Ascii("project_id");
    assert values[2] == Str(s.projectId);
  }

  lemma {:induction false} SupplementLink(s: Supplements.Supplement)
    ensures var v := Events.Record(Supplements.BODY_KEYS, Supplements.BodyValues(s));
            && Has(v, Ascii("entity_id"), Str(s.entityId))
            && Has(v, Ascii("revision"), Number(s.revision as real))
            && Has(v, Ascii("decision_hash"), Str(s.decisionHash))
            && Has(v, Ascii("occurred_at"), Str(s.occurredAt))
  {
    hide Has, Members, Ascii;
    Supplements.BodyKeysDistinct();
    var keys, values := Supplements.BODY_KEYS, Supplements.BodyValues(s);
    RecordHas(keys, values);
    assert keys[3] == Ascii("entity_id");
    assert values[3] == Str(s.entityId);
    assert keys[4] == Ascii("revision");
    assert values[4] == Number(s.revision as real);
    assert keys[5] == Ascii("decision_hash");
    assert values[5] == Str(s.decisionHash);
    assert keys[6] == Ascii("occurred_at");
    assert values[6] == Str(s.occurredAt);
  }

  lemma {:induction false} SupplementModels(s: Supplements.Supplement)
    ensures var v := Events.Record(Supplements.BODY_KEYS, Supplements.BodyValues(s));
            && Has(v, Ascii("matched_rule_ids"), AllTexts(s.matchedRuleIds))
            && Has(v, Ascii("requested_model_id"), TextOrNull(s.requestedModelId))
            && Has(v, Ascii("observed_model_id"), TextOrNull(s.observedModelId))
  {
    hide Has, Members, Ascii;
    Supplements.BodyKeysDistinct();
    var keys, values := Supplements.BODY_KEYS, Supplements.BodyValues(s);
    RecordHas(keys, values);
    assert keys[7] == Ascii("matched_rule_ids");
    assert values[7] == AllTexts(s.matchedRuleIds);
    assert keys[8] == Ascii("requested_model_id");
    assert values[8] == TextOrNull(s.requestedModelId);
    assert keys[9] == Ascii("observed_model_id");
    assert values[9] == TextOrNull(s.observedModelId);
  }

  lemma {:induction false} SupplementExperiment(s: Supplements.Supplement)
    ensures var v := Events.Record(Supplements.BODY_KEYS, Supplements.BodyValues(s));
            && Has(v, Ascii("experiment"), Supplements.ExperimentJson(s.experiment))
            && Has(v, Ascii("contract_hash"), Str(s.contractHash))
            && Has(v, Ascii("criteria_hash"), Str(s.criteriaHash))
  {
    hide Has, Members, Ascii;
    Supplements.BodyKeysDistinct();
    var keys, values := Supplements.BODY_KEYS, Supplements.BodyValues(s);
    RecordHas(keys, values);
    assert keys[10] == Ascii("experiment");
    assert values[10] == Supplements.ExperimentJson(s.experiment);
    assert keys[11] == Ascii("contract_hash");
    assert values[11] == Str(s.contractHash);
    assert keys[12] == Ascii("criteria_hash");
    assert values[12] == Str(s.criteriaHash);
  }

  /** Its content hash is of the same object with the key. */
  lemma {:induction false} SupplementWithKey(s: Supplements.Supplement)
    ensures var v := Events.Record(Supplements.FullKeys(), Supplements.FullValues(s));
            && Members(v, 14) && Has(v, Ascii("idempotency_key"), Str(s.idempotencyKey))
            && forall i | 0 <= i < 13 :: Has(v, Supplements.BODY_KEYS[i], Supplements.BodyValues(s)[i])
  {
    hide Has, Members, Ascii, Supplements.BodyValues;
    Supplements.BodyKeysDistinct();
    var keys, values := Supplements.FullKeys(), Supplements.FullValues(s);
    RecordHas(keys, values);
    forall i | 0 <= i < 13
      ensures keys[i] == Supplements.BODY_KEYS[i] && values[i] == Supplements.BodyValues(s)[i]
    {
    }
    assert keys[13] == Ascii("idempotency_key") && values[13] == Str(s.idempotencyKey);
  }

  lemma {:induction false} SupplementHashes(s: Supplements.Supplement)
    ensures CanonicalHash(Events.Record(Supplements.FullKeys(), Supplements.FullValues(s))) ==
            Some(Supplements.ContentHash(s))
    ensures CanonicalHash(Events.Record(Supplements.BODY_KEYS, Supplements.BodyValues(s))) ==
            Some(Supplements.BodyHash(s))
  {
    hide Ascii, Supplements.BodyValues, Supplements.FullValues;
    Supplements.SupplementSound(s);
  }

  lemma {:induction false} ExperimentKeysDistinct()
    ensures Events.DistinctTexts(Supplements.EXPERIMENT_KEYS)
  {
  }

  lemma {:induction false} ExperimentIdentity(x: Supplements.Experiment)
    ensures var v := Supplements.ExperimentJson(x);
            && Members(v, 9)
            && Has(v, Ascii("experiment_id"), Str(x.experimentId)) && Has(v, Ascii("pair_id"), Str(x.pairId))
            && Has(v, Ascii("arm"), Str(x.arm)) && Has(v, Ascii("state"), Str(x.state))
  {
    hide Has, Members, Ascii;
    ExperimentKeysDistinct();
    var keys, values := Supplements.EXPERIMENT_KEYS, Supplements.ExperimentValues(x);
    RecordHas(keys, values);
    assert keys[0] == Ascii("experiment_id");
    assert values[0] == Str(x.experimentId);
    assert keys[1] == Ascii("pair_id");
    assert values[1] == Str(x.pairId);
    assert keys[2] == Ascii("arm");
    assert values[2] == Str(x.arm);
    assert keys[3] == Ascii("state");
    assert values[3] == Str(x.state);
  }

  lemma {:induction false} ExperimentResults(x: Supplements.Experiment)
    ensures var v := Supplements.ExperimentJson(x);
            && Has(v, Ascii("functional_result"), TextOrNull(x.functionalResult))
            && Has(v, Ascii("critical_failure"), BoolOrNull(x.criticalFailure))
  {
    hide Has, Members, Ascii;
    ExperimentKeysDistinct();
    var keys, values := Supplements.EXPERIMENT_KEYS, Supplements.ExperimentValues(x);
    RecordHas(keys, values);
    assert keys[4] == Ascii("functional_result");
    assert values[4] == TextOrNull(x.functionalResult);
    assert keys[5] == Ascii("critical_failure");
    assert values[5] == BoolOrNull(x.criticalFailure);
  }

  lemma {:induction false} ExperimentNumbers(x: Supplements.Experiment)
    ensures var v := Supplements.ExperimentJson(x);
            && Has(v, Ascii("baseline_cost_micros"), NumberOrNull(x.baselineCost))
            && Has(v, Ascii("candidate_cost_micros"), NumberOrNull(x.candidateCost))
            && Has(v, Ascii("quality_score_basis_points"), NumberOrNull(x.qualityScore))
  {
    hide Has, Members, Ascii;
    ExperimentKeysDistinct();
    var keys, values := Supplements.EXPERIMENT_KEYS, Supplements.ExperimentValues(x);
    RecordHas(keys, values);
    assert keys[6] == Ascii("baseline_cost_micros");
    assert values[6] == NumberOrNull(x.baselineCost);
    assert keys[7] == Ascii("candidate_cost_micros");
    assert values[7] == NumberOrNull(x.candidateCost);
    assert keys[8] == Ascii("quality_score_basis_points");
    assert values[8] == NumberOrNull(x.qualityScore);
  }

  /** The object whose hash is the key of a supplement batch. */
  lemma {:induction false} SupplementBatchIdentity(b: Supplements.SupplementBatch)
    ensures var v := Events.Record(Supplements.CORE_KEYS, Supplements.CoreValues(b));
            && Members(v, 5)
            && Has(v, Ascii("schema_version"), Str(Ascii("route-dashboard-supplements-batch-v1")))
            && Has(v, Ascii("batch_id"), Str(b.batchId)) && Has(v, Ascii("project_id"), Str(b.projectId))
  {
    hide Has, Members, Ascii;
    Supplements.CoreSound(b);
    var keys, values := Supplements.CORE_KEYS, Supplements.CoreValues(b);
    RecordHas(keys, values);
    assert keys[0] == Ascii("schema_version");
    assert values[0] == Str(Ascii("route-dashboard-supplements-batch-v1"));
    assert keys[1] == Ascii("batch_id");
    assert values[1] == Str(b.batchId);
    assert keys[2] == Ascii("project_id");
    assert values[2] == Str(b.projectId);
  }

  lemma {:induction false} SupplementBatchContents(b: Supplements.SupplementBatch)
    ensures var v := Events.Record(Supplements.CORE_KEYS, Supplements.CoreValues(b));
            && Has(v, Ascii("generated_at"), Str(b.generatedAt))
            && Has(v, Ascii("supplements"), Supplements.SupplementsJson(b.supplements))
  {
    hide Has, Members, Ascii;
    Supplements.CoreSound(b);
    var keys, values := Supplements.CORE_KEYS, Supplements.CoreValues(b);
    RecordHas(keys, values);
    assert keys[3] == Ascii("generated_at");
    assert values[3] == Str(b.generatedAt);
    assert keys[4] == Ascii("supplements");
    assert values[4] == Supplements.SupplementsJson(b.supplements);
  }

  /** Its batch hash is of the same object with the key; its supplements stand in it whole and in order. */
  lemma {:induction false} SupplementBatchWithKey(b: Supplements.SupplementBatch)
    ensures var v := Events.Record(Supplements.CORE_KEYS + [Ascii("idempotency_key")],
                                   Supplements.CoreValues(b) + [Str(b.idempotencyKey)]);
            && Members(v, 6) && Has(v, Ascii("idempotency_key"), Str(b.idempotencyKey))
            && (forall i | 0 <= i < 5 :: Has(v, Supplements.CORE_KEYS[i], Supplements.CoreValues(b)[i]))
            && CanonicalHash(v) == Some(Supplements.KeyedHash(b))
    ensures CanonicalHash(Events.Record(Supplements.CORE_KEYS, Supplements.CoreValues(b))) ==
            Some(Supplements.CoreHash(b))
    ensures forall i | 0 <= i < |b.supplements| ::
              Supplements.SupplementsJson(b.supplements).items[i] ==
              Events.Record(Supplements.FullKeys(), Supplements.FullValues(b.supplements[i]))
  {
    hide Has, Members, Ascii, Supplements.FullValues, Supplements.FullKeys;
    Supplements.CoreSound(b);
    var keys, values := Supplements.CORE_KEYS, Supplements.CoreValues(b);
    var all, every := keys + [Ascii("idempotency_key")], values + [Str(b.idempotencyKey)];
    RecordHas(all, every);
    assert forall i | 0 <= i < 5 :: all[i] == keys[i] && every[i] == values[i];
    assert all[5] == Ascii("idempotency_key") && every[5] == Str(b.idempotencyKey);
  }
}
