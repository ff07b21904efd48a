/** `cloneDescriptorData`: the copy of an untrusted value that the supplement schema is applied to. */
module Descriptors {
  import opened JsValues
  import opened Canonical
  import opened Envelope

  // ---------- which values are copied, and into what ----------

  predicate KeyClean(screen: Screen, inspectText: bool, key: Text) { !(inspectText && screen.forbiddenKey(key)) }

  /** Clean at every depth: plain data only, whole numbers, no forbidden key or text. */
  predicate Clean(screen: Screen, inspectText: bool, v: Value) {
    match v
    case Null => true
    case Bool(_) => true
    case Str(s) => !(inspectText && screen.forbiddenText(s))
    case Number(n) => SafeInteger(n)
    case NegZero => true
    case Arr(items) => forall i | 0 <= i < |items| :: Clean(screen, inspectText, items[i])
    case Obj(fields) =>
      forall i | 0 <= i < |fields| ::
        KeyClean(screen, inspectText, fields[i].key) && Clean(screen, inspectText, fields[i].value)
    case NonObject => false
    case Instance => false
  }

  /** The same value, keys in the same order, with zeros for negative zeros. */
  ghost function Copy(v: Value): Value {
    match v
    case NegZero => Number(0.0)
    case Arr(items) => Arr(seq(|items|, i requires 0 <= i < |items| => Copy(items[i])))
    case Obj(fields) => Obj(seq(|fields|, i requires 0 <= i < |fields| => Entry(fields[i].key, Copy(fields[i].value))))
    case _ => v
  }

  // ---------- the copying ----------

  /** None where the source throws. */
  method CloneDescriptorData(screen: Screen, value: Value, inspectText: bool) returns (clone: Option<Value>)
    ensures clone == if Clean(screen, inspectText, value) then Some(Copy(value)) else None
    decreases value, 1
  {
    match value
    case Null => return Some(value);
    case Bool(_) => return Some(value);
    case Str(s) => return if inspectText && screen.forbiddenText(s) then None else Some(value);
    case Number(n) => return if SafeInteger(n) then Some(value) else None;
    case NegZero => return Some(Number(0.0));
    case Arr(items) => clone := CloneItems(screen, value, items, inspectText);
    case Obj(fields) => clone := CloneFields(screen, value, fields, inspectText);
    case NonObject => return None;
    case Instance => return None;
  }

  method CloneItems(screen: Screen, value: Value, items: seq<Value>, inspectText: bool) returns (clone: Option<Value>)
    requires value == Arr(items)
    ensures clone == if Clean(screen, inspectText, value) then Some(Copy(value)) else None
    decreases value, 0
  {
    var output: seq<Value> := [];
    for i := 0 to |items|
      invariant |output| == i
      invariant forall j | 0 <= j < i :: Clean(screen, inspectText, items[j]) && output[j] == Copy(items[j])
    {
      var item := CloneDescriptorData(screen, items[i], inspectText);
      if item.None? {
        return None;
      }
      output := output + [item.value];
    }
    assert Arr(output) == Copy(value);
    clone := Some(Arr(output));
  }

  /** Fills the output key by key. */
  method CloneFields(screen: Screen, value: Value, fields: seq<Entry<Value>>, inspectText: bool)
    returns (clone: Option<Value>)
    requires value == Obj(fields)
    ensures clone == if Clean(screen, inspectText, value) then Some(Copy(value)) else None
    decreases value, 0
  {
    var output: seq<Entry<Value>> := [];
    for i := 0 to |fields|
      invariant |output| == i
      invariant forall j | 0 <= j < i ::
                  KeyClean(screen, inspectText, fields[j].key) && Clean(screen, inspectText, fields[j].value) &&
                  output[j] == Entry(fields[j].key, Copy(fields[j].value))
    {
      if inspectText && screen.forbiddenKey(fields[i].key) {
        return None;
      }
      var member := CloneDescriptorData(screen, fields[i].value, inspectText);
      if member.None? {
        return None;
      }
      output := output + [Entry(fields[i].key, member.value)];
    }
    assert Obj(output) == Copy(value);
    clone := Some(Obj(output));
  }

  // ---------- the copy against the hash ----------

  lemma {:induction false} CopyIsSame(v: Value)
    requires Printable(v) && WellFormed(v)
    ensures Same(v, Copy(v)) && Printable(Copy(v)) && WellFormed(Copy(v))
  {
    match v
    case Arr(items) =>
      forall i | 0 <= i < |items|
        ensures Same(items[i], Copy(items[i])) && Printable(Copy(items[i])) && WellFormed(Copy(items[i]))
      {
        CopyIsSame(items[i]);
      }
    case Obj(fields) =>
      forall i | 0 <= i < |fields|
        ensures Same(fields[i].value, Copy(fields[i].value)) && Printable(Copy(fields[i].value))
                && WellFormed(Copy(fields[i].value))
      {
        CopyIsSame(fields[i].value);
      }
      SameFields(fields, Copy(v).fields);
    case _ =>
  }

  lemma {:induction false} SameFields(f: seq<Entry<Value>>, g: seq<Entry<Value>>)
    requires |f| == |g| && DistinctKeys(f)
    requires forall i | 0 <= i < |f| :: f[i].key == g[i].key && Same(f[i].value, g[i].value)
    ensures Same(Obj(f), Obj(g))
  {
  }

  /** Whatever is copied can be hashed; without text inspection nothing else that can be hashed is refused. */
  lemma {:induction false} CleanIsPrintable(screen: Screen, inspectText: bool, v: Value)
    ensures Clean(screen, inspectText, v) ==> Printable(v)
    ensures !inspectText && Printable(v) ==> Clean(screen, inspectText, v)
  {
    match v
    case Arr(items) =>
      forall i | 0 <= i < |items|
        ensures Clean(screen, inspectText, items[i]) ==> Printable(items[i])
        ensures !inspectText && Printable(items[i]) ==> Clean(screen, inspectText, items[i])
      {
        CleanIsPrintable(screen, inspectText, items[i]);
      }
    case Obj(fields) =>
      forall i | 0 <= i < |fields|
        ensures Clean(screen, inspectText, fields[i].value) ==> Printable(fields[i].value)
        ensures !inspectText && Printable(fields[i].value) ==> Clean(screen, inspectText, fields[i].value)
      {
        CleanIsPrintable(screen, inspectText, fields[i].value);
      }
    case _ =>
  }

  /** The hash checks on the copy are hash checks on what was received. */
  lemma {:induction false} CopyKeepsTheHash(screen: Screen, inspectText: bool, v: Value)
    requires WellFormed(v) && Clean(screen, inspectText, v)
    ensures CanonicalHash(v).Some? && CanonicalHash(Copy(v)) == CanonicalHash(v)
  {
    CleanIsPrintable(screen, inspectText, v);
    CopyIsSame(v);
    HashIdentifies(v, Copy(v));
  }

  /** Copying a copy changes nothing and is never refused. */
  lemma {:induction false} CopyTwice(screen: Screen, inspectText: bool, v: Value)
    ensures Copy(Copy(v)) == Copy(v)
    ensures Clean(screen, inspectText, v) ==> Clean(screen, inspectText, Copy(v))
  {
    match v
    case Arr(items) =>
      forall i | 0 <= i < |items|
        ensures Copy(Copy(items[i])) == Copy(items[i])
        ensures Clean(screen, inspectText, items[i]) ==> Clean(screen, inspectText, Copy(items[i]))
      {
        CopyTwice(screen, inspectText, items[i]);
      }
      assert Copy(Copy(v)) == Copy(v);
    case Obj(fields) =>
      forall i | 0 <= i < |fields|
        ensures Copy(Copy(fields[i].value)) == Copy(fields[i].value)
        ensures Clean(screen, inspectText, fields[i].value) ==> Clean(screen, inspectText, Copy(fields[i].value))
      {
        CopyTwice(screen, inspectText, fields[i].value);
      }
      assert Copy(Copy(v)) == Copy(v);
    case _ =>
  }
}
