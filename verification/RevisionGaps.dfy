/** Revision gaps of the dashboard's history: `detectedRevisionGaps`. */
module RevisionGaps {
  import opened JsValues
  import opened Records

  // ---------- what a gap is ----------

  ghost function Stored(history: seq<Event>, entity: Text): set<nat> {
    set i | 0 <= i < |history| && history[i].entityId == entity :: history[i].revision
  }

  ghost function Entities(history: seq<Event>): set<Text> { set e | e in history :: e.entityId }

  /** Not stored, with a lower and a higher revision stored. */
  ghost predicate IsHole(stored: set<nat>, r: nat) {
    r !in stored && (exists low | low in stored :: low < r) && (exists high | high in stored :: r < high)
  }

  ghost function HolesOf(stored: set<nat>): set<nat> { set r: nat | r <= MAX_SAFE_INTEGER && IsHole(stored, r) }

  /** The missing revisions of the given entities, each with its entity. */
  ghost function Holes(history: seq<Event>, entities: set<Text>): set<(Text, nat)> {
    set entity, r | entity in entities && r in HolesOf(Stored(history, entity)) :: (entity, r)
  }

  // ---------- sorted distinct revisions ----------

  ghost predicate Rising(s: seq<nat>) { forall i, j | 0 <= i < j < |s| :: s[i] < s[j] }

  ghost function Elements(s: seq<nat>): set<nat> { set x | x in s }

  function Insert(x: nat, s: seq<nat>): seq<nat> {
    if s == [] || x < s[0] then [x] + s
    else if x == s[0] then s
    else [s[0]] + Insert(x, s[1..])
  }

  /** `[...new Set(values)].sort((a, b) => a - b)`. */
  function SortDistinct(values: seq<nat>): seq<nat> {
    if values == [] then [] else Insert(values[|values| - 1], SortDistinct(values[..|values| - 1]))
  }

  lemma {:induction false} InsertElements(x: nat, s: seq<nat>)
    ensures forall y :: y in Insert(x, s) <==> y == x || y in s
  {
    if s != [] && s[0] < x {
      InsertElements(x, s[1..]);
      assert s == [s[0]] + s[1..];
    }
  }

  lemma {:induction false} RisingCons(x: nat, s: seq<nat>)
    requires Rising(s) && forall y | y in s :: x < y
    ensures Rising([x] + s)
  {
    assert forall i | 0 <= i < |s| :: s[i] in s;
  }

  lemma {:induction false} RisingTail(s: seq<nat>)
    requires Rising(s) && s != []
    ensures Rising(s[1..]) && forall y | y in s[1..] :: s[0] < y
  {
  }

  lemma {:induction false} InsertRises(x: nat, s: seq<nat>)
    requires Rising(s)
    ensures Rising(Insert(x, s))
  {
    if s != [] {
      RisingTail(s);
      assert s == [s[0]] + s[1..];
      if x < s[0] {
        RisingCons(x, s);
      } else if s[0] < x {
        InsertRises(x, s[1..]);
        InsertElements(x, s[1..]);
        RisingCons(s[0], Insert(x, s[1..]));
      }
    }
  }

  lemma {:induction false} SortDistinctIsSort(values: seq<nat>)
    ensures Rising(SortDistinct(values)) && Elements(SortDistinct(values)) == Elements(values)
  {
    if values != [] {
      var n := |values| - 1;
      SortDistinctIsSort(values[..n]);
      InsertRises(values[n], SortDistinct(values[..n]));
      InsertElements(values[n], SortDistinct(values[..n]));
      assert values == values[..n] + [values[n]];
      forall x
        ensures x in SortDistinct(values) <==> x in values
      {
        assert x in Elements(SortDistinct(values[..n])) <==> x in Elements(values[..n]);
      }
    }
  }

  // ---------- gaps of one entity ----------

  ghost function Gap(ordered: seq<nat>): int {
    if |ordered| < 2 then 0
    else
      var last: int := ordered[|ordered| - 1];
      Gap(ordered[..|ordered| - 1]) + (last - ordered[|ordered| - 2] - 1)
  }

  method CountGap(ordered: seq<nat>) returns (gap: nat)
    requires Rising(ordered)
    ensures gap == Gap(ordered)
  {
    gap := 0;
    var i := 1;
    while i < |ordered|
      invariant 1 <= i && gap == Gap(if i <= |ordered| then ordered[..i] else ordered)
    {
      var skipped := ordered[i] - ordered[i - 1] - 1;
      gap := gap + (if skipped > 0 then skipped else 0);
      assert ordered[..i + 1][..i] == ordered[..i];
      i := i + 1;
    }
    assert i == |ordered| ==> ordered[..i] == ordered;
  }

  predicate Inside(low: nat, r: nat, high: nat) { low < r < high }

  ghost function Between(low: nat, high: nat): set<nat> { set r: nat | r < high && Inside(low, r, high) }

  lemma {:induction false} BetweenSize(low: nat, high: nat)
    requires low < high
    ensures |Between(low, high)| == high - low - 1
    decreases high
  {
    if high == low + 1 {
      assert Between(low, high) == {};
    } else {
      BetweenSize(low, high - 1);
      assert Between(low, high) == Between(low, high - 1) + {high - 1};
    }
  }

  lemma {:induction false} HolesGrow(s: seq<nat>, last: nat)
    requires s != [] && Rising(s + [last]) && last <= MAX_SAFE_INTEGER
    ensures HolesOf(Elements(s + [last])) == HolesOf(Elements(s)) + Between(s[|s| - 1], last)
    ensures HolesOf(Elements(s)) !! Between(s[|s| - 1], last)
  {
    var top := s[|s| - 1];
    var all := s + [last];
    assert all[|s|] == last && all[|s| - 1] == top;
    forall y | y in s
      ensures y <= top < last
    {
      var i :| 0 <= i < |s| && s[i] == y;
      assert all[i] == y;
    }
    assert Elements(all) == Elements(s) + {last};
    forall r: nat
      ensures r in HolesOf(Elements(all)) <==> r in HolesOf(Elements(s)) || r in Between(top, last)
    {
      assert top in Elements(s) && last in Elements(all);
    }
  }

  lemma {:induction false} FewHaveNoHoles(ordered: seq<nat>)
    requires |ordered| < 2
    ensures HolesOf(Elements(ordered)) == {}
  {
  }

  lemma {:induction false} PrefixRises(s: seq<nat>, n: nat)
    requires Rising(s) && n <= |s| && forall x | x in s :: x <= MAX_SAFE_INTEGER
    ensures Rising(s[..n]) && forall x | x in s[..n] :: x <= MAX_SAFE_INTEGER
    ensures 2 <= |s| ==> s[|s| - 2] < s[|s| - 1] <= MAX_SAFE_INTEGER
  {
    assert forall x | x in s[..n] :: x in s;
    assert s != [] ==> s[|s| - 1] in s;
  }

  lemma {:induction false} HolesCount(s: seq<nat>, last: nat)
    requires s != [] && Rising(s + [last]) && s[|s| - 1] < last <= MAX_SAFE_INTEGER
    ensures |HolesOf(Elements(s + [last]))| == |HolesOf(Elements(s))| + (last - s[|s| - 1] - 1)
  {
    hide HolesOf, Between, Elements, Rising;
    HolesGrow(s, last);
    BetweenSize(s[|s| - 1], last);
  }

  /** The loop over neighbours counts exactly the missing revisions. */
  lemma {:induction false} GapCountsHoles(ordered: seq<nat>)
    requires Rising(ordered) && forall x | x in ordered :: x <= MAX_SAFE_INTEGER
    ensures Gap(ordered) == |HolesOf(Elements(ordered))|
  {
    if |ordered| < 2 {
      FewHaveNoHoles(ordered);
    } else {
      hide HolesOf, Elements, Rising;
      var n := |ordered| - 1;
      PrefixRises(ordered, n);
      GapCountsHoles(ordered[..n]);
      assert ordered == ordered[..n] + [ordered[n]] && ordered[..n][n - 1] == ordered[n - 1];
      HolesCount(ordered[..n], ordered[n]);
    }
  }

  /** Largest minus smallest plus one, minus the number of distinct revisions. */
  lemma {:induction false} GapIsSpread(ordered: seq<nat>)
    requires Rising(ordered) && ordered != []
    ensures Gap(ordered) == ordered[|ordered| - 1] - ordered[0] + 1 - |ordered|
  {
    if |ordered| > 1 {
      GapIsSpread(ordered[..|ordered| - 1]);
    }
  }

  // ---------- all entities ----------

  ghost function RevisionsOf(history: seq<Event>, entity: Text): seq<nat> {
    if history == [] then []
    else
      RevisionsOf(history[..|history| - 1], entity) +
      (if history[|history| - 1].entityId == entity then [history[|history| - 1].revision] else [])
  }

  lemma {:induction false} RevisionsAreStored(history: seq<Event>, entity: Text)
    ensures Elements(RevisionsOf(history, entity)) == Stored(history, entity)
    ensures forall x | x in RevisionsOf(history, entity) :: x <= MAX_SAFE_INTEGER
  {
    if history != [] {
      var n := |history| - 1;
      var before := RevisionsOf(history[..n], entity);
      RevisionsAreStored(history[..n], entity);
      var here: set<nat> := if history[n].entityId == entity then {history[n].revision} else {};
      forall r
        ensures r in Stored(history, entity) <==> r in Stored(history[..n], entity) + here
      {
        assert forall i | 0 <= i < n :: history[..n][i] == history[i];
      }
      assert Elements(RevisionsOf(history, entity)) == Elements(before) + here;
    }
  }

  lemma {:induction false} RevisionsSnoc(history: seq<Event>, k: nat)
    requires k < |history|
    ensures forall entity :: RevisionsOf(history[..k + 1], entity) ==
              RevisionsOf(history[..k], entity) + (if history[k].entityId == entity then [history[k].revision] else [])
    ensures Entities(history[..k + 1]) == Entities(history[..k]) + {history[k].entityId}
  {
    hide Entities;
    assert history[..k + 1] == history[..k] + [history[k]] && history[..k + 1][..k] == history[..k];
    EntitiesSnoc(history[..k], history[k]);
  }

  lemma {:induction false} DistinctSnoc(order: seq<Text>, entity: Text)
    requires DistinctTexts(order) && entity !in order
    ensures DistinctTexts(order + [entity])
  {
  }

  /** The revisions of each entity, entities in the order of their first event. */
  method GroupRevisions(history: seq<Event>) returns (order: seq<Text>, revisions: map<Text, seq<nat>>)
    ensures DistinctTexts(order) && (forall e :: e in order <==> e in revisions)
    ensures revisions.Keys == Entities(history)
    ensures forall e | e in revisions :: revisions[e] == RevisionsOf(history, e)
  {
    hide RevisionsOf, Entities, DistinctTexts;
    order, revisions := [], map[];
    NothingGrouped();
    for k := 0 to |history|
      invariant DistinctTexts(order) && (forall e :: e in order <==> e in revisions)
      invariant revisions.Keys == Entities(history[..k])
      invariant forall e | e in revisions :: revisions[e] == RevisionsOf(history[..k], e)
      invariant forall e | e !in revisions :: RevisionsOf(history[..k], e) == []
    {
      var entity := history[k].entityId;
      if entity !in revisions {
        DistinctSnoc(order, entity);
        order := order + [entity];
      }
      RevisionsSnoc(history, k);
      var known := if entity in revisions then revisions[entity] else [];
      revisions := revisions[entity := known + [history[k].revision]];
    }
    assert history[..|history|] == history;
  }

  lemma {:induction false} NothingGrouped()
    ensures DistinctTexts([]) && Entities([]) == {} && forall entity :: RevisionsOf([], entity) == []
  {
  }

  lemma {:induction false} EntitiesSnoc(history: seq<Event>, e: Event)
    ensures Entities(history + [e]) == Entities(history) + {e.entityId}
  {
    forall x
      ensures x in Entities(history + [e]) <==> x in Entities(history) + {e.entityId}
    {
      assert e in history + [e];
      assert forall d | d in history :: d in history + [e];
    }
  }

  ghost function Paired(entity: Text, s: set<nat>): set<(Text, nat)> { set r | r in s :: (entity, r) }

  lemma {:induction false} PairSize(entity: Text, s: set<nat>)
    ensures |Paired(entity, s)| == |s|
  {
    if s == {} {
      assert Paired(entity, s) == {};
    } else {
      var x :| x in s;
      PairSize(entity, s - {x});
      assert Paired(entity, s) == Paired(entity, s - {x}) + {(entity, x)};
    }
  }

  lemma {:induction false} HolesOfOneMore(history: seq<Event>, entities: set<Text>, entity: Text)
    requires entity !in entities
    ensures |Holes(history, entities + {entity})| == |Holes(history, entities)| + |HolesOf(Stored(history, entity))|
  {
    hide HolesOf, Stored;
    var own := Paired(entity, HolesOf(Stored(history, entity)));
    PairSize(entity, HolesOf(Stored(history, entity)));
    assert Holes(history, entities + {entity}) == Holes(history, entities) + own;
    assert Holes(history, entities) !! own;
  }

  /** The reported number of gaps is the number of missing (entity, revision) pairs. */
  method DetectedRevisionGaps(history: seq<Event>) returns (gaps: nat)
    ensures gaps == |Holes(history, Entities(history))|
  {
    hide Holes, HolesOf, Elements, Rising, SortDistinct, RevisionsOf, Gap;
    var order, revisions := GroupRevisions(history);
    gaps := 0;
    ghost var done: set<Text> := {};
    NoHoles(history);
    for i := 0 to |order|
      invariant forall e :: e in done <==> e in order[..i]
      invariant gaps == |Holes(history, done)|
    {
      var entity := order[i];
      assert entity in order;
      var ordered := SortDistinct(revisions[entity]);
      EntityHoles(history, entity);
      var gap := CountGap(ordered);
      HolesOfOneMore(history, done, entity);
      gaps := gaps + gap;
      done := done + {entity};
      assert order[..i + 1] == order[..i] + [entity];
    }
    assert order[..|order|] == order;
    assert done == Entities(history);
  }

  lemma {:induction false} NoHoles(history: seq<Event>)
    ensures Holes(history, {}) == {}
  {
  }

  lemma {:induction false} EntityHoles(history: seq<Event>, entity: Text)
    ensures var ordered := SortDistinct(RevisionsOf(history, entity));
            Rising(ordered) && Gap(ordered) == |HolesOf(Stored(history, entity))|
  {
    hide HolesOf, Rising, SortDistinct, RevisionsOf, Gap, Stored;
    var revisions := RevisionsOf(history, entity);
    SortDistinctIsSort(revisions);
    RevisionsAreStored(history, entity);
    forall x | x in SortDistinct(revisions)
      ensures x <= MAX_SAFE_INTEGER
    {
      assert x in Elements(SortDistinct(revisions));
    }
    GapCountsHoles(SortDistinct(revisions));
  }

  ghost predicate Contiguous(stored: set<nat>) {
    forall low, r, high | low in stored && high in stored && low <= r <= high :: r in stored
  }

  /** None are detected exactly when every entity's revisions are contiguous. */
  lemma {:induction false} NoneDetectedIffContiguous(history: seq<Event>)
    ensures Holes(history, Entities(history)) == {} <==>
            forall e | e in Entities(history) :: Contiguous(Stored(history, e))
  {
    hide Entities;
    forall e | e in Entities(history)
      ensures HolesOf(Stored(history, e)) == {} <==> Contiguous(Stored(history, e))
    {
      StoredIsSafe(history, e);
      HolesIffNotContiguous(Stored(history, e));
    }
    if Holes(history, Entities(history)) == {} {
      forall e, r | e in Entities(history)
        ensures r !in HolesOf(Stored(history, e))
      {
        assert (e, r) !in Holes(history, Entities(history));
      }
    }
  }

  lemma {:induction false} StoredIsSafe(history: seq<Event>, entity: Text)
    ensures forall r | r in Stored(history, entity) :: r <= MAX_SAFE_INTEGER
  {
  }

  lemma {:induction false} HolesIffNotContiguous(stored: set<nat>)
    requires forall r | r in stored :: r <= MAX_SAFE_INTEGER
    ensures HolesOf(stored) == {} <==> Contiguous(stored)
  {
    if HolesOf(stored) == {} {
      forall low, r, high | low in stored && high in stored && low <= r <= high
        ensures r in stored
      {
        assert r !in HolesOf(stored);
      }
    }
  }
}
