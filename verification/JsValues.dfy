/** JavaScript values as the ingest endpoints receive them. */
module JsValues {

  /** A UTF-16 code unit; JavaScript strings are sequences of these. */
  type CodeUnit = u: int | 0 <= u < 0x1_0000

  type Text = seq<CodeUnit>

  datatype Option<+T> = None | Some(value: T)

  datatype Entry<+T> = Entry(key: Text, value: T)

  /**
    * A finite tree of values. `Number` holds the finite numbers other than negative zero.
    * `NonObject` stands for everything else that `typeof` does not call an object: undefined,
    * functions, symbols, big integers and the non-finite numbers. `Instance` stands for an object
    * with a foreign prototype or with an accessor property.
    */
  datatype Value =
    | Null
    | Bool(b: bool)
    | Number(n: real)
    | NegZero
    | Str(s: Text)
    | Arr(items: seq<Value>)
    | Obj(fields: seq<Entry<Value>>)
    | NonObject
    | Instance

  const MAX_SAFE_INTEGER := 9_007_199_254_740_991

  predicate DistinctKeys<T>(s: seq<Entry<T>>) {
    forall i, j | 0 <= i < j < |s| :: s[i].key != s[j].key
  }

  /** What every JavaScript object satisfies: its own keys are pairwise different, at any depth. */
  predicate WellFormed(v: Value) {
    match v
    case Arr(items) => forall i | 0 <= i < |items| :: WellFormed(items[i])
    case Obj(fields) =>
      DistinctKeys(fields) && forall i | 0 <= i < |fields| :: WellFormed(fields[i].value)
    case _ => true
  }

  /** The code units of an ASCII literal. */
  function Ascii(s: string): (t: Text)
    requires forall i | 0 <= i < |s| :: s[i] < 128 as char
    ensures |t| == |s| && forall i | 0 <= i < |s| :: t[i] == s[i] as int
  {
    seq(|s|, i requires 0 <= i < |s| => s[i] as int)
  }

  /** Order of `Array.prototype.sort` without a comparator: lexicographic on code units. */
  predicate Before(a: Text, b: Text) {
    if a == [] then b != []
    else if b == [] then false
    else a[0] < b[0] || (a[0] == b[0] && Before(a[1..], b[1..]))
  }

  lemma {:induction false} BeforeTrichotomy(a: Text, b: Text)
    ensures a == b || Before(a, b) || Before(b, a)
    ensures !(Before(a, b) && Before(b, a))
    ensures !Before(a, a)
  {
    if a != [] {
      BeforeTrichotomy(a[1..], a[1..]);
      if b != [] {
        BeforeTrichotomy(a[1..], b[1..]);
        if a[0] == b[0] && a[1..] == b[1..] {
          assert a == [a[0]] + a[1..] && b == [b[0]] + b[1..];
        }
      }
    }
  }

  lemma {:induction false} BeforeTransitive(a: Text, b: Text, c: Text)
    requires Before(a, b) && Before(b, c)
    ensures Before(a, c)
  {
    if a != [] && b != [] && c != [] && a[0] == b[0] == c[0] {
      BeforeTransitive(a[1..], b[1..], c[1..]);
    }
  }

  predicate StrictlySorted<T>(s: seq<Entry<T>>) {
    forall i, j | 0 <= i < j < |s| :: Before(s[i].key, s[j].key)
  }

  function InsertByKey<T>(e: Entry<T>, s: seq<Entry<T>>): (r: seq<Entry<T>>)
    ensures multiset(r) == multiset(s) + multiset{e}
    ensures |r| == |s| + 1
  {
    if s == [] || Before(e.key, s[0].key) then
      [e] + s
    else
      assert s == [s[0]] + s[1..];
      [s[0]] + InsertByKey(e, s[1..])
  }

  /** `Object.keys(item).sort()`, carrying each key's value along. */
  function SortByKey<T>(s: seq<Entry<T>>): (r: seq<Entry<T>>)
    ensures multiset(r) == multiset(s)
    ensures |r| == |s|
  {
    if s == [] then []
    else
      assert s == [s[0]] + s[1..];
      InsertByKey(s[0], SortByKey(s[1..]))
  }

  lemma {:induction false} InsertKeepsSorted<T>(e: Entry<T>, s: seq<Entry<T>>)
    requires StrictlySorted(s)
    requires forall i | 0 <= i < |s| :: s[i].key != e.key
    ensures StrictlySorted(InsertByKey(e, s))
  {
    var r := InsertByKey(e, s);
    if s == [] {
    } else if Before(e.key, s[0].key) {
      forall i, j | 0 <= i < j < |r|
        ensures Before(r[i].key, r[j].key)
      {
        if i == 0 && j > 1 {
          BeforeTransitive(e.key, s[0].key, s[j - 1].key);
        }
      }
    } else {
      BeforeTrichotomy(e.key, s[0].key);
      var tail := s[1..];
      InsertKeepsSorted(e, tail);
      var rest := InsertByKey(e, tail);
      forall j | 0 <= j < |rest|
        ensures Before(s[0].key, rest[j].key)
      {
        assert rest[j] in multiset(rest);
        assert rest[j] in multiset(tail) || rest[j] == e;
        if rest[j] != e {
          assert rest[j] in tail;
          var k :| 0 <= k < |tail| && tail[k] == rest[j];
          assert tail[k] == s[k + 1];
        }
      }
      assert r == [s[0]] + rest;
    }
  }

  lemma {:induction false} SortSorts<T>(s: seq<Entry<T>>)
    requires DistinctKeys(s)
    ensures StrictlySorted(SortByKey(s))
    ensures DistinctKeys(SortByKey(s))
  {
    if s != [] {
      var tail := s[1..];
      SortSorts(tail);
      var sorted := SortByKey(tail);
      forall i | 0 <= i < |sorted|
        ensures sorted[i].key != s[0].key
      {
        assert sorted[i] in multiset(sorted);
        assert sorted[i] in tail;
        var k :| 0 <= k < |tail| && tail[k] == sorted[i];
        assert tail[k] == s[k + 1];
      }
      InsertKeepsSorted(s[0], sorted);
    }
    StrictIsDistinct(SortByKey(s));
  }

  lemma {:induction false} StrictIsDistinct<T>(s: seq<Entry<T>>)
    requires StrictlySorted(s)
    ensures DistinctKeys(s)
  {
    forall i, j | 0 <= i < j < |s|
      ensures s[i].key != s[j].key
    {
      BeforeTrichotomy(s[i].key, s[j].key);
    }
  }

  /** There is only one way to put a set of entries in key order. */
  lemma {:induction false} SortedIsUnique<T>(a: seq<Entry<T>>, b: seq<Entry<T>>)
    requires StrictlySorted(a) && StrictlySorted(b)
    requires |a| == |b|
    requires forall x | x in a :: x in b
    ensures a == b
  {
    if a != [] {
      SortedHead(a, b);
      StrictIsDistinct(a);
      var ta, tb := a[1..], b[1..];
      forall x | x in ta
        ensures x in tb
      {
        assert x in a;
        var k :| 0 <= k < |ta| && ta[k] == x;
        assert a[0].key != a[k + 1].key;
        assert x in b;
      }
      SortedIsUnique(ta, tb);
      assert a == [a[0]] + ta && b == [b[0]] + tb;
    }
  }

  lemma {:induction false} SortedHead<T>(a: seq<Entry<T>>, b: seq<Entry<T>>)
    requires StrictlySorted(a) && StrictlySorted(b)
    requires |a| == |b| > 0
    requires forall x | x in a :: x in b
    ensures a[0] == b[0]
  {
    // Distinct entries and equal lengths make the inclusion an equality of sets.
    StrictIsDistinct(a);
    StrictIsDistinct(b);
    var sa, sb := (set x | x in a), (set x | x in b);
    NoRepeats(a);
    NoRepeats(b);
    SubsetOfSameSize(sa, sb);
    assert b[0] in sb && a[0] in sa;
    assert b[0] in a && a[0] in b;
    if a[0] != b[0] {
      var i :| 0 <= i < |a| && a[i] == b[0];
      var j :| 0 <= j < |b| && b[j] == a[0];
      assert Before(a[0].key, a[i].key) && Before(b[0].key, b[j].key);
      BeforeTrichotomy(a[0].key, b[0].key);
      assert false;
    }
  }

  lemma {:induction false} NoRepeats<T>(s: seq<Entry<T>>)
    requires DistinctKeys(s)
    ensures |set x | x in s| == |s|
  {
    if s != [] {
      var tail := s[1..];
      NoRepeats(tail);
      assert s == [s[0]] + tail;
      assert s[0] !in tail;
      assert (set x | x in s) == (set x | x in tail) + {s[0]};
    }
  }

  lemma {:induction false} SubsetOfSameSize<T>(a: set<T>, b: set<T>)
    requires a <= b && |a| == |b|
    ensures a == b
  {
    if a != b {
      var x :| x in b && x !in a;
      SubsetNoLarger(a, b - {x});
    }
  }

  lemma {:induction false} SubsetNoLarger<T>(a: set<T>, b: set<T>)
    requires a <= b
    ensures |a| <= |b|
  {
    if a != {} {
      var x :| x in a;
      SubsetNoLarger(a - {x}, b - {x});
    }
  }

  lemma {:induction false} SortedMembers<T>(s: seq<Entry<T>>)
    ensures forall i | 0 <= i < |s| :: SortByKey(s)[i] in s
    ensures forall i | 0 <= i < |s| :: s[i] in SortByKey(s)
  {
    var r := SortByKey(s);
    forall i | 0 <= i < |s|
      ensures r[i] in s && s[i] in r
    {
      assert r[i] in multiset(r) && s[i] in multiset(s);
    }
  }

  /** The same entry at the same position of both sequences. */
  ghost predicate Together<A, B>(e: Entry<A>, f: Entry<B>, a: seq<Entry<A>>, b: seq<Entry<B>>) {
    exists k | 0 <= k < |a| && k < |b| :: a[k] == e && b[k] == f
  }

  ghost predicate AllTogether<A, B>(sa: seq<Entry<A>>, sb: seq<Entry<B>>, a: seq<Entry<A>>, b: seq<Entry<B>>) {
    |sa| == |sb| && forall i | 0 <= i < |sa| :: Together(sa[i], sb[i], a, b)
  }

  lemma {:induction false} TogetherCons<A, B>(e: Entry<A>, f: Entry<B>, sa: seq<Entry<A>>, sb: seq<Entry<B>>,
                           a: seq<Entry<A>>, b: seq<Entry<B>>)
    requires Together(e, f, a, b) && AllTogether(sa, sb, a, b)
    ensures AllTogether([e] + sa, [f] + sb, a, b)
  {
  }

  /** Sorting looks at keys only: entries that stand side by side move side by side. */
  lemma {:induction false} SortTogether<A, B>(a: seq<Entry<A>>, b: seq<Entry<B>>)
    requires |a| == |b| && forall i | 0 <= i < |a| :: a[i].key == b[i].key
    ensures AllTogether(SortByKey(a), SortByKey(b), a, b)
  {
    if a != [] {
      var ta, tb := a[1..], b[1..];
      SortTogether(ta, tb);
      var sa, sb := SortByKey(ta), SortByKey(tb);
      forall i | 0 <= i < |sa|
        ensures Together(sa[i], sb[i], a, b)
      {
        var k :| 0 <= k < |ta| && ta[k] == sa[i] && tb[k] == sb[i];
        assert a[k + 1] == sa[i] && b[k + 1] == sb[i];
      }
      assert Together(a[0], b[0], a, b);
      InsertTogether(a[0], b[0], sa, sb, a, b);
    }
  }

  lemma {:induction false} InsertTogether<A, B>(e: Entry<A>, f: Entry<B>, sa: seq<Entry<A>>, sb: seq<Entry<B>>,
                                                a: seq<Entry<A>>, b: seq<Entry<B>>)
    requires |a| == |b| && forall i | 0 <= i < |a| :: a[i].key == b[i].key
    requires Together(e, f, a, b) && AllTogether(sa, sb, a, b)
    ensures AllTogether(InsertByKey(e, sa), InsertByKey(f, sb), a, b)
  {
    if sa == [] {
      TogetherCons(e, f, sa, sb, a, b);
    } else {
      assert Together(sa[0], sb[0], a, b);
      SameKey(e, f, a, b);
      SameKey(sa[0], sb[0], a, b);
      if Before(e.key, sa[0].key) {
        TogetherCons(e, f, sa, sb, a, b);
      } else {
        InsertTogether(e, f, sa[1..], sb[1..], a, b);
        TogetherCons(sa[0], sb[0], InsertByKey(e, sa[1..]), InsertByKey(f, sb[1..]), a, b);
      }
    }
  }

  lemma {:induction false} SameKey<A, B>(e: Entry<A>, f: Entry<B>, a: seq<Entry<A>>, b: seq<Entry<B>>)
    requires |a| == |b| && forall i | 0 <= i < |a| :: a[i].key == b[i].key
    requires Together(e, f, a, b)
    ensures e.key == f.key
  {
    var k :| 0 <= k < |a| && a[k] == e && b[k] == f;
  }

  /** Counting positions, one more at the end. */
  lemma {:induction false} OneMore(before: set<nat>, after: set<nat>, n: nat)
    requires (forall i | i in before :: i < n) && (forall i | i in after :: i <= n)
    requires forall i: nat | i < n :: i in after <==> i in before
    ensures |after| == |before| + (if n in after then 1 else 0)
  {
    var last: set<nat> := if n in after then {n} else {};
    assert after == before + last && before !! last;
  }
}
