/** Paired experiments on the dashboard: planned, executed and evaluated pairs. */
module ExperimentPairs {
  import opened JsValues
  import opened Records
  import opened SupplementRecords

  const ARM_A := Ascii("A")
  const ARM_B := Ascii("B")
  const PREPARED := Ascii("prepared")
  const EVALUATED := Ascii("evaluated")

  datatype PairKey = PairKey(experimentId: Text, pairId: Text, contractHash: Text, criteriaHash: Text, dataClass: Text)

  datatype Item = Item(eventId: Text, value: Supplement)

  datatype Status = NotTransported | Prepared | ExecutionIncomplete | PartiallyMeasured

  type Pairs = map<PairKey, seq<Supplement>>

  function KeyOf(item: Item, heads: map<Text, Event>): PairKey
    requires item.eventId in heads
  {
    PairKey(item.value.experiment.experimentId, item.value.experiment.pairId, item.value.contractHash,
            item.value.criteriaHash, heads[item.eventId].source.dataClass)
  }

  /** The supplements of a pair whose event is a current head, in order. */
  ghost function Members(items: seq<Item>, heads: map<Text, Event>, key: PairKey): seq<Supplement> {
    if items == [] then []
    else
      var last := items[|items| - 1];
      Members(items[..|items| - 1], heads, key) +
      (if last.eventId in heads && KeyOf(last, heads) == key then [last.value] else [])
  }

  method BuildPairs(items: seq<Item>, heads: map<Text, Event>) returns (pairs: Pairs)
    ensures forall key :: key in pairs <==> Members(items, heads, key) != []
    ensures forall key | key in pairs :: pairs[key] == Members(items, heads, key)
  {
    pairs := map[];
    for k := 0 to |items|
      invariant forall key :: key in pairs <==> Members(items[..k], heads, key) != []
      invariant forall key | key in pairs :: pairs[key] == Members(items[..k], heads, key)
    {
      assert items[..k + 1][..k] == items[..k];
      if items[k].eventId in heads {
        var key := KeyOf(items[k], heads);
        var known := if key in pairs then pairs[key] else [];
        pairs := pairs[key := known + [items[k].value]];
      }
    }
    assert items[..|items|] == items;
  }

  function StartedArms(items: seq<Supplement>): set<Text> {
    set x | x in items && x.experiment.state != PREPARED :: x.experiment.arm
  }

  function EvaluatedArms(items: seq<Supplement>): set<Text> {
    set x | x in items && x.experiment.state == EVALUATED :: x.experiment.arm
  }

  function Executed(pairs: Pairs): set<PairKey> { set key | key in pairs && |StartedArms(pairs[key])| == 2 }

  function Evaluated(pairs: Pairs): set<PairKey> { set key | key in pairs && |EvaluatedArms(pairs[key])| == 2 }

  predicate HasStarted(pairs: Pairs) {
    exists key | key in pairs :: exists x | x in pairs[key] :: x.experiment.state != PREPARED
  }

  function StatusOf(transported: nat, pairs: Pairs): Status {
    if transported == 0 then NotTransported
    else if |Evaluated(pairs)| > 0 then PartiallyMeasured
    else if |Executed(pairs)| > 0 || HasStarted(pairs) then ExecutionIncomplete
    else Prepared
  }

  /** What validation guarantees of a supplement. */
  predicate KnownArm(x: Supplement) { x.experiment.arm == ARM_A || x.experiment.arm == ARM_B }

  ghost predicate AllKnown(pairs: Pairs) { forall key | key in pairs :: forall x | x in pairs[key] :: KnownArm(x) }

  lemma {:induction false} EvaluatedIsExecuted(items: seq<Supplement>)
    requires (forall x | x in items :: KnownArm(x)) && |EvaluatedArms(items)| == 2
    ensures |StartedArms(items)| == 2
  {
    var evaluated, started := EvaluatedArms(items), StartedArms(items);
    assert EVALUATED[0] != PREPARED[0];
    assert evaluated <= started <= {ARM_A, ARM_B};
    assert started == evaluated + (started - evaluated);
    assert {ARM_A, ARM_B} == started + ({ARM_A, ARM_B} - started);
    assert |{ARM_A, ARM_B}| <= 2;
  }

  ghost predicate HasStartedArm(items: seq<Supplement>, arm: Text) {
    exists x | x in items :: x.experiment.state != PREPARED && x.experiment.arm == arm
  }

  ghost predicate HasEvaluatedArm(items: seq<Supplement>, arm: Text) {
    exists x | x in items :: x.experiment.state == EVALUATED && x.experiment.arm == arm
  }

  lemma {:induction false} TwoArms(arms: set<Text>)
    requires arms <= {ARM_A, ARM_B}
    ensures |arms| == 2 <==> ARM_A in arms && ARM_B in arms
  {
    assert ARM_A[0] != ARM_B[0];
    assert {ARM_A, ARM_B} == arms + ({ARM_A, ARM_B} - arms);
    assert |{ARM_A, ARM_B}| == 2;
    if ARM_A in arms && ARM_B in arms {
      assert arms == {ARM_A, ARM_B};
    }
  }

  /** A pair counts as executed when both arms have started, and as evaluated when both have been evaluated. */
  lemma {:induction false} BothArms(pairs: Pairs, key: PairKey)
    requires AllKnown(pairs) && key in pairs
    ensures key in Executed(pairs) <==> HasStartedArm(pairs[key], ARM_A) && HasStartedArm(pairs[key], ARM_B)
    ensures key in Evaluated(pairs) <==> HasEvaluatedArm(pairs[key], ARM_A) && HasEvaluatedArm(pairs[key], ARM_B)
  {
    TwoArms(StartedArms(pairs[key]));
    TwoArms(EvaluatedArms(pairs[key]));
  }

  lemma {:induction false} Fewer(a: set<PairKey>, b: set<PairKey>)
    requires a <= b
    ensures |a| <= |b|
  {
    assert b == a + (b - a);
  }

  /** Evaluated pairs are executed, executed pairs are planned; the reported numbers follow. */
  lemma {:induction false} PairsNest(pairs: Pairs)
    requires AllKnown(pairs)
    ensures Evaluated(pairs) <= Executed(pairs) <= pairs.Keys
    ensures |Evaluated(pairs)| <= |Executed(pairs)| <= |pairs|
  {
    hide StartedArms, EvaluatedArms, KnownArm;
    forall key | key in Evaluated(pairs)
      ensures key in Executed(pairs)
    {
      EvaluatedIsExecuted(pairs[key]);
    }
    Fewer(Evaluated(pairs), Executed(pairs));
    Fewer(Executed(pairs), pairs.Keys);
  }

  /** An executed pair has started, so "prepared" is reported exactly when nothing has. */
  lemma {:induction false} StatusIsConsistent(transported: nat, pairs: Pairs)
    requires AllKnown(pairs)
    ensures var status := StatusOf(transported, pairs);
            && (status == NotTransported <==> transported == 0)
            && (status == PartiallyMeasured ==> |Evaluated(pairs)| > 0 && |Executed(pairs)| > 0 && HasStarted(pairs))
            && (status == ExecutionIncomplete ==> |Evaluated(pairs)| == 0 && HasStarted(pairs))
            && (status == Prepared <==> transported > 0 && !HasStarted(pairs))
  {
    hide EvaluatedArms, KnownArm, HasStarted;
    PairsNest(pairs);
    if |Executed(pairs)| > 0 {
      var key :| key in Executed(pairs);
      ExecutedHasStarted(pairs, key);
    }
  }

  lemma {:induction false} ExecutedHasStarted(pairs: Pairs, key: PairKey)
    requires key in Executed(pairs)
    ensures HasStarted(pairs)
  {
    var arms := StartedArms(pairs[key]);
    assert arms != {};
    var arm :| arm in arms;
    var x :| x in pairs[key] && x.experiment.state != PREPARED && x.experiment.arm == arm;
  }

  /** A supplement is in a pair when its event is a head and all five identifiers of the pair are its own. */
  ghost predicate BelongsTo(item: Item, heads: map<Text, Event>, key: PairKey) {
    && item.eventId in heads
    && key.experimentId == item.value.experiment.experimentId && key.pairId == item.value.experiment.pairId
    && key.contractHash == item.value.contractHash && key.criteriaHash == item.value.criteriaHash
    && key.dataClass == heads[item.eventId].source.dataClass
  }

  ghost function Belonging(items: seq<Item>, heads: map<Text, Event>, key: PairKey, x: Supplement): set<nat> {
    set i: nat | i < |items| && BelongsTo(items[i], heads, key) && items[i].value == x
  }

  lemma {:induction false} BelongsMeans(item: Item, heads: map<Text, Event>, key: PairKey)
    ensures BelongsTo(item, heads, key) <==> item.eventId in heads && KeyOf(item, heads) == key
  {
  }

  /** A pair holds each such supplement as often as it was read, and no other. */
  lemma {:induction false} MembersBelong(items: seq<Item>, heads: map<Text, Event>, key: PairKey, x: Supplement)
    ensures multiset(Members(items, heads, key))[x] == |Belonging(items, heads, key, x)|
  {
    hide BelongsTo, KeyOf;
    var after := Belonging(items, heads, key, x);
    if items == [] {
      assert after == {};
    } else {
      var n := |items| - 1;
      MembersBelong(items[..n], heads, key, x);
      BelongsMeans(items[n], heads, key);
      var before := Belonging(items[..n], heads, key, x);
      forall i: nat | i < n
        ensures i in after <==> i in before
      {
        assert items[..n][i] == items[i];
      }
      OneMore(before, after, n);
    }
  }
}
