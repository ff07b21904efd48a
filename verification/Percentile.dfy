/**
  * Nearest-rank percentiles: `p95` of the rollups and `percentile` of the dashboards. Percentages
  * are whole; `n * 0.95` is taken exactly.
  */
module Percentile {
  import opened JsValues

  predicate Ascending(s: seq<real>) { forall i, j | 0 <= i < j < |s| :: s[i] <= s[j] }

  function Insert(x: real, s: seq<real>): seq<real> {
    if s == [] || x <= s[0] then [x] + s else [s[0]] + Insert(x, s[1..])
  }

  /** `sort((a, b) => a - b)`. */
  function Sort(s: seq<real>): seq<real> {
    if s == [] then [] else Insert(s[0], Sort(s[1..]))
  }

  /** `Math.ceil(n * percent / 100) - 1`. */
  function Rank(n: nat, percent: nat): int { (percent * n + 99) / 100 - 1 }

  /** The clamped index of `p95`. */
  function ClampedRank(n: nat, percent: nat): int {
    var rank := if Rank(n, percent) > 0 then Rank(n, percent) else 0;
    if n - 1 < rank then n - 1 else rank
  }

  function Nearest(sample: seq<real>, percent: nat): real
    requires sample != [] && 1 <= percent <= 100
  {
    SortIsSort(sample);
    ClampsNeverBind(|sample|, percent);
    Sort(sample)[ClampedRank(|sample|, percent)]
  }

  function Of(sample: seq<real>, percent: nat): Option<real>
    requires 1 <= percent <= 100
  {
    if sample == [] then None else Some(Nearest(sample, percent))
  }

  // ---------- sorting ----------

  lemma {:induction false} InsertContents(x: real, s: seq<real>)
    ensures multiset(Insert(x, s)) == multiset(s) + multiset{x} && |Insert(x, s)| == |s| + 1
  {
    if s != [] && s[0] < x {
      InsertContents(x, s[1..]);
      assert s == [s[0]] + s[1..];
    }
  }

  lemma {:induction false} AscendingCons(x: real, s: seq<real>)
    requires Ascending(s) && (s == [] || x <= s[0])
    ensures Ascending([x] + s)
  {
  }

  lemma {:induction false} InsertKeepsAscending(x: real, s: seq<real>)
    requires Ascending(s)
    ensures Ascending(Insert(x, s))
    ensures s != [] ==> Insert(x, s) != [] && (Insert(x, s)[0] == x || Insert(x, s)[0] == s[0])
  {
    if s == [] || x <= s[0] {
      AscendingCons(x, s);
    } else {
      InsertKeepsAscending(x, s[1..]);
      InsertContents(x, s[1..]);
      AscendingCons(s[0], Insert(x, s[1..]));
    }
  }

  lemma {:induction false} NothingAscending()
    ensures Ascending([])
  {
  }

  lemma {:induction false} SortIsSort(s: seq<real>)
    ensures Ascending(Sort(s)) && multiset(Sort(s)) == multiset(s) && |Sort(s)| == |s|
  {
    hide Insert, Ascending;
    if s == [] {
      NothingAscending();
    } else {
      SortIsSort(s[1..]);
      InsertKeepsAscending(s[0], Sort(s[1..]));
      InsertContents(s[0], Sort(s[1..]));
      assert s == [s[0]] + s[1..];
    }
  }

  /** For a sample that is not empty the unclamped index is already one of the sample's. */
  lemma {:induction false} ClampsNeverBind(n: nat, percent: nat)
    requires n > 0 && 1 <= percent <= 100
    ensures ClampedRank(n, percent) == Rank(n, percent) && 0 <= Rank(n, percent) < n
  {
    assert percent * n >= n >= 1;
    assert percent * n <= 100 * n;
  }

  // ---------- counting ----------

  predicate Under(x: real, v: real, closed: bool) { x < v || (closed && x == v) }

  /** How many values are below `v`, or at most `v` when `closed`. */
  function Count(s: seq<real>, v: real, closed: bool): (n: nat)
    ensures n <= |s|
  {
    if s == [] then 0 else (if Under(s[0], v, closed) then 1 else 0) + Count(s[1..], v, closed)
  }

  lemma {:induction false} CountConcat(a: seq<real>, b: seq<real>, v: real, closed: bool)
    ensures Count(a + b, v, closed) == Count(a, v, closed) + Count(b, v, closed)
  {
    if a == [] {
      assert a + b == b;
    } else {
      CountConcat(a[1..], b, v, closed);
      assert (a + b)[1..] == a[1..] + b;
    }
  }

  lemma {:induction false} CountOfAll(s: seq<real>, v: real, closed: bool)
    ensures (forall x | x in s :: Under(x, v, closed)) ==> Count(s, v, closed) == |s|
    ensures (forall x | x in s :: !Under(x, v, closed)) ==> Count(s, v, closed) == 0
  {
    if s != [] {
      CountOfAll(s[1..], v, closed);
      assert s[0] in s && forall x | x in s[1..] :: x in s;
    }
  }

  lemma {:induction false} TakeOut(s: seq<real>, i: nat, v: real, closed: bool)
    requires i < |s|
    ensures var rest := s[..i] + s[i + 1..];
            && multiset(s) == multiset(rest) + multiset{s[i]}
            && Count(s, v, closed) == Count(rest, v, closed) + (if Under(s[i], v, closed) then 1 else 0)
  {
    assert s == s[..i] + ([s[i]] + s[i + 1..]);
    CountConcat(s[..i], [s[i]] + s[i + 1..], v, closed);
    CountConcat(s[..i], s[i + 1..], v, closed);
    assert ([s[i]] + s[i + 1..])[1..] == s[i + 1..];
  }

  lemma {:induction false} SameRest(a: multiset<real>, b: multiset<real>, x: real)
    requires a + multiset{x} == b + multiset{x}
    ensures a == b
  {
    assert a == a + multiset{x} - multiset{x};
    assert b == b + multiset{x} - multiset{x};
  }

  lemma {:induction false} Position(x: real, s: seq<real>) returns (i: nat)
    requires x in multiset(s)
    ensures i < |s| && s[i] == x
  {
    i :| 0 <= i < |s| && s[i] == x;
  }

  lemma {:induction false} CountIgnoresOrder(a: seq<real>, b: seq<real>, v: real, closed: bool)
    requires multiset(a) == multiset(b)
    ensures Count(a, v, closed) == Count(b, v, closed)
    decreases |a|
  {
    hide Count;
    assert |multiset(a)| == |a| && |multiset(b)| == |b|;
    if a != [] {
      assert a[0] in multiset(a);
      var i := Position(a[0], b);
      TakeOut(a, 0, v, closed);
      TakeOut(b, i, v, closed);
      SameRest(multiset(a[..0] + a[1..]), multiset(b[..i] + b[i + 1..]), a[0]);
      CountIgnoresOrder(a[..0] + a[1..], b[..i] + b[i + 1..], v, closed);
    } else {
      assert a == b;
    }
  }

  /** In a sorted sample, the value at `k` is under `v` exactly when more than `k` values are. */
  lemma {:induction false} CountAgainstIndex(s: seq<real>, v: real, closed: bool, k: nat)
    requires Ascending(s) && k < |s|
    ensures Under(s[k], v, closed) <==> Count(s, v, closed) > k
  {
    assert s == s[..k] + s[k..] && s == s[..k + 1] + s[k + 1..];
    if Under(s[k], v, closed) {
      CountConcat(s[..k + 1], s[k + 1..], v, closed);
      CountOfAll(s[..k + 1], v, closed);
    } else {
      CountConcat(s[..k], s[k..], v, closed);
      CountOfAll(s[k..], v, closed);
    }
  }

  // ---------- what a percentile means ----------

  /** The share of the values under `v` reaches `percent` per cent. */
  predicate Reaches(s: seq<real>, percent: nat, v: real, closed: bool) {
    100 * Count(s, v, closed) >= percent * |s|
  }

  /** A percentile is at most v exactly when that share of the values is at most v, and likewise for below. */
  lemma {:induction false} PercentileAgainst(s: seq<real>, percent: nat, v: real, closed: bool)
    requires s != [] && 1 <= percent <= 100
    ensures Under(Nearest(s, percent), v, closed) <==> Reaches(s, percent, v, closed)
  {
    SortIsSort(s);
    ClampsNeverBind(|s|, percent);
    CountAgainstIndex(Sort(s), v, closed, Rank(|s|, percent));
    CountIgnoresOrder(Sort(s), s, v, closed);
    RankArithmetic(percent * |s|, Count(s, v, closed));
  }

  lemma {:induction false} RankArithmetic(share: nat, count: nat)
    ensures count > (share + 99) / 100 - 1 <==> 100 * count >= share
  {
  }

  /** The nearest-rank definition: a member of the sample, with enough values up to it and too few below it. */
  ghost predicate NearestRank(s: seq<real>, percent: nat, v: real) {
    v in s && Reaches(s, percent, v, true) && !Reaches(s, percent, v, false)
  }

  /** The computed value is the only one that meets the definition. */
  lemma {:induction false} PercentileIsNearestRank(s: seq<real>, percent: nat, v: real)
    requires s != [] && 1 <= percent <= 100
    ensures NearestRank(s, percent, v) <==> Nearest(s, percent) == v
  {
    var p := Nearest(s, percent);
    SortIsSort(s);
    assert p in Sort(s) && p in multiset(Sort(s));
    PercentileAgainst(s, percent, v, true);
    PercentileAgainst(s, percent, v, false);
    PercentileAgainst(s, percent, p, true);
    PercentileAgainst(s, percent, p, false);
  }

  // ---------- a day and its hours ----------

  ghost function Flatten(parts: seq<seq<real>>): seq<real> {
    if parts == [] then [] else parts[0] + Flatten(parts[1..])
  }

  ghost predicate EveryPartReaches(parts: seq<seq<real>>, percent: nat, v: real, closed: bool, reaches: bool) {
    forall i | 0 <= i < |parts| :: Reaches(parts[i], percent, v, closed) == reaches
  }

  lemma {:induction false} ShareArithmetic(percent: nat, m: nat, n: nat)
    ensures percent * (m + n) == percent * m + percent * n
  {
  }

  lemma {:induction false} ReachesConcat(a: seq<real>, b: seq<real>, percent: nat, v: real, closed: bool)
    ensures Reaches(a, percent, v, closed) && Reaches(b, percent, v, closed) ==> Reaches(a + b, percent, v, closed)
    ensures !Reaches(a, percent, v, closed) && (b == [] || !Reaches(b, percent, v, closed)) ==>
              !Reaches(a + b, percent, v, closed)
  {
    hide Count;
    CountConcat(a, b, v, closed);
    ShareArithmetic(percent, |a|, |b|);
    if b == [] {
      assert a + b == a;
    }
  }

  lemma {:induction false} SharesAddUp(parts: seq<seq<real>>, percent: nat, v: real, closed: bool, reaches: bool)
    requires parts != [] && EveryPartReaches(parts, percent, v, closed, reaches)
    ensures Reaches(Flatten(parts), percent, v, closed) == reaches
  {
    hide Reaches;
    var rest := parts[1..];
    assert Reaches(parts[0], percent, v, closed) == reaches;
    if rest == [] {
      assert Flatten(parts) == parts[0] + [] == parts[0];
    } else {
      SharesAddUp(rest, percent, v, closed, reaches);
      ReachesConcat(parts[0], Flatten(rest), percent, v, closed);
    }
  }

  lemma {:induction false} NonEmptyWhole(parts: seq<seq<real>>)
    requires parts != [] && parts[0] != []
    ensures Flatten(parts) != []
  {
  }

  /** Some part's percentile is at most, and some part's at least, the percentile of all parts together. */
  lemma {:induction false} WholeWithinParts(parts: seq<seq<real>>, whole: seq<real>, percent: nat)
    requires parts != [] && (forall i | 0 <= i < |parts| :: parts[i] != []) && 1 <= percent <= 100
    requires multiset(whole) == multiset(Flatten(parts))
    ensures whole != []
    ensures exists i | 0 <= i < |parts| :: Nearest(parts[i], percent) <= Nearest(whole, percent)
    ensures exists j | 0 <= j < |parts| :: Nearest(whole, percent) <= Nearest(parts[j], percent)
  {
    hide Nearest, Count, Flatten;
    NonEmptyWhole(parts);
    assert |multiset(whole)| == |Flatten(parts)|;
    var v := Nearest(whole, percent);
    PercentileAgainst(whole, percent, v, true);
    PercentileAgainst(whole, percent, v, false);
    CountIgnoresOrder(whole, Flatten(parts), v, true);
    CountIgnoresOrder(whole, Flatten(parts), v, false);
    if !exists i | 0 <= i < |parts| :: Nearest(parts[i], percent) <= v {
      forall i | 0 <= i < |parts|
        ensures !Reaches(parts[i], percent, v, true)
      {
        PercentileAgainst(parts[i], percent, v, true);
      }
      SharesAddUp(parts, percent, v, true, false);
      assert false;
    }
    if !exists j | 0 <= j < |parts| :: v <= Nearest(parts[j], percent) {
      forall j | 0 <= j < |parts|
        ensures Reaches(parts[j], percent, v, false)
      {
        PercentileAgainst(parts[j], percent, v, false);
      }
      SharesAddUp(parts, percent, v, false, true);
      assert false;
    }
  }
}
