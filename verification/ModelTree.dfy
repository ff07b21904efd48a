/** The model tree of the dashboard: routed events grouped by model and effort, models by family. */
module ModelTree {
  import opened JsValues
  import opened Records

  datatype Family = Gpt | Claude | Outros

  type ModelKey = (Text, Text)

  datatype Group = Group(family: Family, modelId: Text, effort: Text, observed: nat, simulated: nat, total: nat)

  const SIMULATED := Ascii("simulated")

  /** `toLowerCase` as far as the prefixes below can tell. */
  function Lower(t: Text): Text {
    seq(|t|, i requires 0 <= i < |t| => if 65 <= t[i] <= 90 then t[i] + 32 else t[i])
  }

  predicate StartsWith(t: Text, prefix: Text) { |prefix| <= |t| && t[..|prefix|] == prefix }

  function FamilyOf(modelId: Text): Family {
    var id := Lower(modelId);
    if StartsWith(id, Ascii("gpt-")) || StartsWith(id, Ascii("openai.")) then Gpt
    else if StartsWith(id, Ascii("claude-")) || StartsWith(id, Ascii("anthropic.")) then Claude
    else Outros
  }

  function KeyOf(route: Route): ModelKey { (route.modelId, route.effort) }

  predicate IsRouted(e: Event, key: ModelKey) { e.route.Some? && KeyOf(e.route.value) == key }

  /** How many events of a data class were routed to a model at an effort. */
  ghost function Count(history: seq<Event>, key: ModelKey, simulated: bool): nat {
    if history == [] then 0
    else
      Count(history[..|history| - 1], key, simulated) +
      (if IsRouted(history[|history| - 1], key) && (history[|history| - 1].source.dataClass == SIMULATED) == simulated
       then 1 else 0)
  }

  ghost function Routed(history: seq<Event>): nat {
    if history == [] then 0
    else Routed(history[..|history| - 1]) + (if history[|history| - 1].route.Some? then 1 else 0)
  }

  ghost function GroupOf(history: seq<Event>, key: ModelKey): Group {
    var observed, simulated := Count(history, key, false), Count(history, key, true);
    Group(FamilyOf(key.0), key.0, key.1, observed, simulated, observed + simulated)
  }

  ghost predicate Distinct(keys: seq<ModelKey>) { forall i, j | 0 <= i < j < |keys| :: keys[i] != keys[j] }

  function Add(group: Group, simulated: bool): Group {
    if simulated then group.(simulated := group.simulated + 1, total := group.total + 1)
    else group.(observed := group.observed + 1, total := group.total + 1)
  }

  lemma {:induction false} GroupSnoc(history: seq<Event>, k: nat)
    requires k < |history|
    ensures var e := history[k];
            forall key :: GroupOf(history[..k + 1], key) ==
              if IsRouted(e, key) then Add(GroupOf(history[..k], key), e.source.dataClass == SIMULATED)
              else GroupOf(history[..k], key)
    ensures Routed(history[..k + 1]) == Routed(history[..k]) + (if history[k].route.Some? then 1 else 0)
  {
    hide FamilyOf;
    assert history[..k + 1][..k] == history[..k];
  }

  lemma {:induction false} DistinctSnoc(keys: seq<ModelKey>, key: ModelKey)
    requires Distinct(keys) && key !in keys
    ensures Distinct(keys + [key])
  {
  }

  lemma {:induction false} NothingRouted()
    ensures Distinct([]) && Routed([]) == 0 && forall key :: GroupOf([], key).total == 0
  {
    hide FamilyOf;
  }

  /** Groups in the order of their first event; each counts its events by data class. */
  method BuildModelMap(history: seq<Event>) returns (order: seq<ModelKey>, groups: map<ModelKey, Group>)
    ensures Distinct(order) && (forall key :: key in order <==> key in groups)
    ensures forall key | key in groups :: groups[key] == GroupOf(history, key)
    ensures forall key | key !in groups :: GroupOf(history, key).total == 0
  {
    hide GroupOf, Distinct, FamilyOf;
    order, groups := [], map[];
    NothingRouted();
    for k := 0 to |history|
      invariant Distinct(order) && (forall key :: key in order <==> key in groups)
      invariant forall key | key in groups :: groups[key] == GroupOf(history[..k], key)
      invariant forall key | key !in groups :: GroupOf(history[..k], key).total == 0
    {
      var e := history[k];
      GroupSnoc(history, k);
      if e.route.Some? {
        var key := KeyOf(e.route.value);
        if key !in groups {
          DistinctSnoc(order, key);
          EmptyGroup(history[..k], key);
          order := order + [key];
        }
        var group := if key in groups then groups[key] else Group(FamilyOf(key.0), key.0, key.1, 0, 0, 0);
        groups := groups[key := Add(group, e.source.dataClass == SIMULATED)];
      }
    }
    assert history[..|history|] == history;
  }

  lemma {:induction false} EmptyGroup(history: seq<Event>, key: ModelKey)
    requires GroupOf(history, key).total == 0
    ensures GroupOf(history, key) == Group(FamilyOf(key.0), key.0, key.1, 0, 0, 0)
  {
    hide FamilyOf;
  }

  // ---------- totals ----------

  /** The models of one family, summed up. */
  ghost function FamilyTotal(family: Family, order: seq<ModelKey>, groups: map<ModelKey, Group>): nat
    requires forall key | key in order :: key in groups
  {
    if order == [] then 0
    else
      var last := order[|order| - 1];
      assert forall key | key in order[..|order| - 1] :: key in order;
      FamilyTotal(family, order[..|order| - 1], groups) +
        (if groups[last].family == family then groups[last].total else 0)
  }

  ghost function SumOfCounts(keys: seq<ModelKey>, history: seq<Event>): nat {
    if keys == [] then 0
    else
      SumOfCounts(keys[..|keys| - 1], history) + Count(history, keys[|keys| - 1], false) +
        Count(history, keys[|keys| - 1], true)
  }

  lemma {:induction false} NothingCounted(keys: seq<ModelKey>)
    ensures SumOfCounts(keys, []) == 0
  {
    if keys != [] {
      NothingCounted(keys[..|keys| - 1]);
    }
  }

  /** One more routed event adds one to exactly one group. */
  lemma {:induction false} OneMoreEvent(keys: seq<ModelKey>, history: seq<Event>, k: nat)
    requires Distinct(keys) && k < |history|
    ensures SumOfCounts(keys, history[..k + 1]) == SumOfCounts(keys, history[..k]) +
              (if history[k].route.Some? && KeyOf(history[k].route.value) in keys then 1 else 0)
  {
    hide Count;
    if keys != [] {
      var n := |keys| - 1;
      OneMoreEvent(keys[..n], history, k);
      CountSnoc(history, k, keys[n]);
      assert keys == keys[..n] + [keys[n]];
      assert keys[n] !in keys[..n];
    }
  }

  lemma {:induction false} CountSnoc(history: seq<Event>, k: nat, key: ModelKey)
    requires k < |history|
    ensures Count(history[..k + 1], key, false) + Count(history[..k + 1], key, true) ==
            Count(history[..k], key, false) + Count(history[..k], key, true) +
              (if IsRouted(history[k], key) then 1 else 0)
  {
    assert history[..k + 1][..k] == history[..k];
  }

  lemma {:induction false} SumIsRouted(keys: seq<ModelKey>, history: seq<Event>, k: nat)
    requires Distinct(keys) && k <= |history|
    requires forall i | 0 <= i < k && history[i].route.Some? :: KeyOf(history[i].route.value) in keys
    ensures SumOfCounts(keys, history[..k]) == Routed(history[..k])
  {
    hide Count, Distinct;
    if k == 0 {
      NothingCounted(keys);
      assert history[..0] == [];
    } else {
      SumIsRouted(keys, history, k - 1);
      OneMoreEvent(keys, history, k - 1);
      GroupSnoc(history, k - 1);
    }
  }

  lemma {:induction false} FamiliesSum(order: seq<ModelKey>, groups: map<ModelKey, Group>, history: seq<Event>)
    requires forall key | key in order :: key in groups && groups[key] == GroupOf(history, key)
    ensures FamilyTotal(Gpt, order, groups) + FamilyTotal(Claude, order, groups) + FamilyTotal(Outros, order, groups) ==
            SumOfCounts(order, history)
  {
    hide FamilyOf, Count;
    if order != [] {
      var n := |order| - 1;
      assert forall key | key in order[..n] :: key in order;
      FamiliesSum(order[..n], groups, history);
      assert order[n] in order;
    }
  }

  lemma {:induction false} RoutedKeyHasGroup(history: seq<Event>, i: nat)
    requires i < |history| && history[i].route.Some?
    ensures GroupOf(history, KeyOf(history[i].route.value)).total > 0
    decreases |history|
  {
    hide FamilyOf;
    var n := |history| - 1;
    if i < n {
      RoutedKeyHasGroup(history[..n], i);
    }
  }

  /** Over all families, the tree's totals add up to the routed events: none lost, none counted twice. */
  lemma {:induction false} TreeCountsRoutedEvents(history: seq<Event>, order: seq<ModelKey>,
                                                  groups: map<ModelKey, Group>)
    requires Distinct(order) && (forall key :: key in order <==> key in groups)
    requires forall key | key in groups :: groups[key] == GroupOf(history, key)
    requires forall key | key !in groups :: GroupOf(history, key).total == 0
    ensures FamilyTotal(Gpt, order, groups) + FamilyTotal(Claude, order, groups) + FamilyTotal(Outros, order, groups) ==
            Routed(history)
  {
    hide GroupOf, Distinct, FamilyTotal;
    forall i | 0 <= i < |history| && history[i].route.Some?
      ensures KeyOf(history[i].route.value) in order
    {
      RoutedKeyHasGroup(history, i);
    }
    SumIsRouted(order, history, |history|);
    assert history[..|history|] == history;
    FamiliesSum(order, groups, history);
  }

  // ---------- families ----------

  /** The text begins with these letters, in either case. */
  ghost predicate BeginsWith(t: Text, prefix: Text) {
    && |prefix| <= |t|
    && forall i | 0 <= i < |prefix| :: t[i] == prefix[i] || (65 <= t[i] <= 90 && t[i] + 32 == prefix[i])
  }

  lemma {:induction false} LowerStarts(t: Text, prefix: Text)
    requires forall i | 0 <= i < |prefix| :: !(65 <= prefix[i] <= 90)
    ensures StartsWith(Lower(t), prefix) <==> BeginsWith(t, prefix)
  {
    if |prefix| <= |t| {
      assert forall i | 0 <= i < |prefix| :: Lower(t)[..|prefix|][i] == Lower(t)[i];
    }
  }

  /** The family of a model is told by the beginning of its identifier, whatever the case. */
  lemma {:induction false} FamilyByPrefix(modelId: Text)
    ensures FamilyOf(modelId) == Gpt <==> BeginsWith(modelId, Ascii("gpt-")) || BeginsWith(modelId, Ascii("openai."))
    ensures FamilyOf(modelId) == Claude <==>
            BeginsWith(modelId, Ascii("claude-")) || BeginsWith(modelId, Ascii("anthropic."))
  {
    hide BeginsWith, StartsWith, Lower;
    LowerStarts(modelId, Ascii("gpt-"));
    LowerStarts(modelId, Ascii("openai."));
    LowerStarts(modelId, Ascii("claude-"));
    LowerStarts(modelId, Ascii("anthropic."));
    OneFamily(modelId);
  }

  lemma {:induction false} OneFamily(t: Text)
    ensures !((BeginsWith(t, Ascii("gpt-")) || BeginsWith(t, Ascii("openai."))) &&
              (BeginsWith(t, Ascii("claude-")) || BeginsWith(t, Ascii("anthropic."))))
  {
    assert Ascii("gpt-")[0] == 103 && Ascii("openai.")[0] == 111;
    assert Ascii("claude-")[0] == 99 && Ascii("anthropic.")[0] == 97;
  }

  /** The events a group counts, from the events themselves. */
  ghost function RoutedTo(history: seq<Event>, modelId: Text, effort: Text, simulated: bool): set<nat> {
    set i: nat | i < |history| && history[i].route.Some? && history[i].route.value.modelId == modelId &&
                 history[i].route.value.effort == effort &&
                 (history[i].source.dataClass == Ascii("simulated") <==> simulated)
  }

  lemma {:induction false} CountIs(history: seq<Event>, key: ModelKey, simulated: bool)
    ensures Count(history, key, simulated) == |RoutedTo(history, key.0, key.1, simulated)|
  {
    hide Ascii;
    var after := RoutedTo(history, key.0, key.1, simulated);
    if history == [] {
      assert after == {};
    } else {
      var n := |history| - 1;
      CountIs(history[..n], key, simulated);
      var before := RoutedTo(history[..n], key.0, key.1, simulated);
      forall i: nat | i < n
        ensures i in after <==> i in before
      {
        assert history[..n][i] == history[i];
      }
      OneMore(before, after, n);
    }
  }
}
