/** `assertSafeEnvelope`: a bounded traversal with an explicit stack, before any recursive validation. */
module Envelope {
  import opened JsValues
  import Canonical

  const MAX_BYTES := 64 * 1024
  const MAX_NODES := 8000
  const MAX_DEPTH := 8
  const MAX_ENTRIES := 100
  const MAX_KEY_LENGTH := 64
  const MAX_TEXT_LENGTH := 128

  /**
    * The regular expressions are taken as given. `forbiddenText` holds of a text that is neither a
    * hash, nor a UUID, nor an instant, and that matches the forbidden-text expression.
    */
  datatype Screen = Screen(forbiddenKey: Text -> bool, forbiddenText: Text -> bool)

  /** `Buffer.byteLength`: length in UTF-8, a lone surrogate being replaced by U+FFFD. */
  function ByteLength(s: Text): nat {
    if s == [] then 0
    else if Canonical.StartsPair(s) then 4 + ByteLength(s[2..])
    else (if s[0] < 0x80 then 1 else if s[0] < 0x800 then 2 else 3) + ByteLength(s[1..])
  }

  /** The bytes of one code point, or of a lone surrogate's replacement, in UTF-8. */
  function Utf8(codePoint: nat): seq<int> {
    if codePoint < 0x80 then [codePoint]
    else if codePoint < 0x800 then [0xC0 + codePoint / 0x40, 0x80 + codePoint % 0x40]
    else if codePoint < 0x1_0000 then
      [0xE0 + codePoint / 0x1000, 0x80 + codePoint / 0x40 % 0x40, 0x80 + codePoint % 0x40]
    else
      [0xF0 + codePoint / 0x4_0000, 0x80 + codePoint / 0x1000 % 0x40, 0x80 + codePoint / 0x40 % 0x40,
       0x80 + codePoint % 0x40]
  }

  /** The code point of a surrogate pair. */
  function PairPoint(lead: int, trail: int): int { 0x1_0000 + (lead - 0xD800) * 0x400 + (trail - 0xDC00) }

  ghost function Encoded(s: Text): seq<int> {
    if s == [] then []
    else if Canonical.StartsPair(s) then Utf8(PairPoint(s[0], s[1])) + Encoded(s[2..])
    else if Canonical.IsLead(s[0]) || Canonical.IsTrail(s[0]) then Utf8(0xFFFD) + Encoded(s[1..])
    else Utf8(s[0]) + Encoded(s[1..])
  }

  /** The length is that of the encoded bytes, and for ASCII that of the text. */
  lemma {:induction false} ByteLengthIsEncodedLength(s: Text)
    ensures ByteLength(s) == |Encoded(s)|
    ensures (forall i | 0 <= i < |s| :: s[i] < 0x80) ==> ByteLength(s) == |s|
  {
    if s == [] {
    } else if Canonical.StartsPair(s) {
      ByteLengthIsEncodedLength(s[2..]);
    } else {
      ByteLengthIsEncodedLength(s[1..]);
    }
  }

  lemma {:induction false} EncodedAreBytes(s: Text)
    ensures forall b | b in Encoded(s) :: 0 <= b < 256
  {
    if s == [] {
    } else if Canonical.StartsPair(s) {
      EncodedAreBytes(s[2..]);
      BytesOfPoint(PairPoint(s[0], s[1]));
    } else {
      EncodedAreBytes(s[1..]);
      BytesOfPoint(s[0]);
      BytesOfPoint(0xFFFD);
    }
  }

  lemma {:induction false} BytesOfPoint(codePoint: nat)
    requires codePoint < 0x11_0000
    ensures forall b | b in Utf8(codePoint) :: 0 <= b < 256
  {
    Utf8Decodes(codePoint);
  }

  /** What follows the first byte lies in 0x80 .. 0xBF, and the code point can be read back. */
  lemma {:induction false} Utf8Decodes(codePoint: nat)
    requires codePoint < 0x11_0000
    ensures var u := Utf8(codePoint);
            && 1 <= |u| <= 4 && (forall i | 1 <= i < |u| :: 0x80 <= u[i] < 0xC0)
            && (|u| == 1 ==> u[0] == codePoint < 0x80)
            && (|u| == 2 ==> 0xC2 <= u[0] < 0xE0 && codePoint == (u[0] - 0xC0) * 0x40 + (u[1] - 0x80))
            && (|u| == 3 ==> 0xE0 <= u[0] < 0xF0 &&
                             codePoint == (u[0] - 0xE0) * 0x1000 + (u[1] - 0x80) * 0x40 + (u[2] - 0x80))
            && (|u| == 4 ==> 0xF0 <= u[0] < 0xF5 &&
                             codePoint == (u[0] - 0xF0) * 0x4_0000 + (u[1] - 0x80) * 0x1000
                                            + (u[2] - 0x80) * 0x40 + (u[3] - 0x80))
  {
    Sixes(codePoint);
    Sixes(codePoint / 0x40);
    Sixes(codePoint / 0x1000);
    assert codePoint / 0x40 / 0x40 == codePoint / 0x1000 && codePoint / 0x1000 / 0x40 == codePoint / 0x4_0000;
  }

  lemma {:induction false} Sixes(n: nat)
    ensures n == n / 0x40 * 0x40 + n % 0x40 && 0 <= n % 0x40 < 0x40
  {
  }

  /** `Object.entries`: an array's keys are its indices in decimal. */
  function Entries(v: Value): (r: seq<Entry<Value>>)
    ensures forall i | 0 <= i < |r| :: r[i].value < v
  {
    match v
    case Obj(fields) => fields
    case Arr(items) => seq(|items|, i requires 0 <= i < |items| => Entry(Canonical.PrintNat(i), items[i]))
    case _ => []
  }

  // ---------- the order-free description ----------

  predicate KeyAllowed(screen: Screen, key: Text) {
    |key| <= MAX_KEY_LENGTH && !screen.forbiddenKey(key)
  }

  predicate KeysAllowed(screen: Screen, entries: seq<Entry<Value>>) {
    forall i | 0 <= i < |entries| :: KeyAllowed(screen, entries[i].key)
  }

  predicate ShapeAllowed(screen: Screen, v: Value, depth: nat) {
    && depth <= MAX_DEPTH
    && !v.Instance?
    && |Entries(v)| <= MAX_ENTRIES
    && (v.Str? ==> |v.s| <= MAX_TEXT_LENGTH && !screen.forbiddenText(v.s))
  }

  predicate NodeAllowed(screen: Screen, v: Value, depth: nat) {
    ShapeAllowed(screen, v, depth) && KeysAllowed(screen, Entries(v))
  }

  predicate TreeAllowed(screen: Screen, v: Value, depth: nat) {
    && NodeAllowed(screen, v, depth)
    && forall i | 0 <= i < |Entries(v)| :: TreeAllowed(screen, Entries(v)[i].value, depth + 1)
  }

  function NodeCount(v: Value): nat
    decreases v, 1
  {
    1 + NodeCounts(v, Entries(v))
  }

  function NodeCounts(whole: Value, entries: seq<Entry<Value>>): nat
    requires forall i | 0 <= i < |entries| :: entries[i].value < whole
    decreases whole, 0, |entries|
  {
    if entries == [] then 0
    else NodeCounts(whole, entries[..|entries| - 1]) + NodeCount(entries[|entries| - 1].value)
  }

  function OwnBytes(v: Value): nat { if v.Str? then ByteLength(v.s) else 0 }

  /** Bytes of every text and every key in the tree. */
  function TreeBytes(v: Value): nat
    decreases v, 1
  {
    OwnBytes(v) + EntryBytes(v, Entries(v))
  }

  function EntryBytes(whole: Value, entries: seq<Entry<Value>>): nat
    requires forall i | 0 <= i < |entries| :: entries[i].value < whole
    decreases whole, 0, |entries|
  {
    if entries == [] then 0
    else
      var last := entries[|entries| - 1];
      EntryBytes(whole, entries[..|entries| - 1]) + ByteLength(last.key) + TreeBytes(last.value)
  }

  predicate Safe(screen: Screen, v: Value) {
    TreeAllowed(screen, v, 0) && NodeCount(v) <= MAX_NODES && TreeBytes(v) <= MAX_BYTES
  }

  // ---------- what is left on the stack ----------

  type Stack = seq<(Value, nat)>

  ghost function StackNodes(pending: Stack): nat {
    if pending == [] then 0
    else StackNodes(pending[..|pending| - 1]) + NodeCount(pending[|pending| - 1].0)
  }

  ghost function StackBytes(pending: Stack): nat {
    if pending == [] then 0
    else StackBytes(pending[..|pending| - 1]) + TreeBytes(pending[|pending| - 1].0)
  }

  ghost predicate StackAllowed(screen: Screen, pending: Stack) {
    pending == [] ||
    (StackAllowed(screen, pending[..|pending| - 1]) &&
     TreeAllowed(screen, pending[|pending| - 1].0, pending[|pending| - 1].1))
  }

  lemma {:induction false} Push(screen: Screen, pending: Stack, v: Value, depth: nat)
    ensures StackNodes(pending + [(v, depth)]) == StackNodes(pending) + NodeCount(v)
    ensures StackBytes(pending + [(v, depth)]) == StackBytes(pending) + TreeBytes(v)
    ensures StackAllowed(screen, pending + [(v, depth)]) <==>
            StackAllowed(screen, pending) && TreeAllowed(screen, v, depth)
  {
    var p := pending + [(v, depth)];
    assert p[..|p| - 1] == pending;
  }

  ghost predicate EntriesAllowed(screen: Screen, entries: seq<Entry<Value>>, depth: nat) {
    forall i | 0 <= i < |entries| :: TreeAllowed(screen, entries[i].value, depth)
  }

  /** `pending` is `rest` with these entries pushed; their keys take `keyBytes`. */
  ghost predicate Pushed(screen: Screen, rest: Stack, whole: Value, entries: seq<Entry<Value>>, depth: nat,
                         pending: Stack, keyBytes: nat)
    requires forall i | 0 <= i < |entries| :: entries[i].value < whole
  {
    && StackNodes(pending) == StackNodes(rest) + NodeCounts(whole, entries)
    && keyBytes + StackBytes(pending) == StackBytes(rest) + EntryBytes(whole, entries)
    && (StackAllowed(screen, pending) <==> StackAllowed(screen, rest) && EntriesAllowed(screen, entries, depth))
  }

  lemma {:induction false} AllowedChild(screen: Screen, entries: seq<Entry<Value>>, e: Entry<Value>, depth: nat)
    ensures EntriesAllowed(screen, entries + [e], depth) <==>
            EntriesAllowed(screen, entries, depth) && TreeAllowed(screen, e.value, depth)
  {
    var longer := entries + [e];
    if EntriesAllowed(screen, longer, depth) {
      assert longer[|entries|] == e;
      forall i | 0 <= i < |entries|
        ensures TreeAllowed(screen, entries[i].value, depth)
      {
        assert longer[i] == entries[i];
      }
    }
  }

  lemma {:induction false} PushChild(screen: Screen, rest: Stack, whole: Value, entries: seq<Entry<Value>>,
                                     e: Entry<Value>, depth: nat, pending: Stack, keyBytes: nat)
    requires forall i | 0 <= i < |entries| :: entries[i].value < whole
    requires e.value < whole
    requires Pushed(screen, rest, whole, entries, depth, pending, keyBytes)
    ensures Pushed(screen, rest, whole, entries + [e], depth,
                   pending + [(e.value, depth)], keyBytes + ByteLength(e.key))
  {
    Push(screen, pending, e.value, depth);
    AllowedChild(screen, entries, e, depth);
    var longer := entries + [e];
    assert longer[..|longer| - 1] == entries;
  }

  /** Replacing a node by its children: what the whole stack holds changes by the node itself. */
  lemma {:induction false} Expand(screen: Screen, rest: Stack, v: Value, depth: nat, pending: Stack, keyBytes: nat)
    requires Pushed(screen, rest, v, Entries(v), depth + 1, pending, keyBytes)
    ensures StackNodes(rest + [(v, depth)]) == StackNodes(pending) + 1
    ensures StackBytes(rest + [(v, depth)]) == OwnBytes(v) + keyBytes + StackBytes(pending)
    ensures StackAllowed(screen, rest + [(v, depth)]) <==>
            StackAllowed(screen, pending) && NodeAllowed(screen, v, depth)
  {
    Push(screen, rest, v, depth);
  }

  lemma {:induction false} NothingPushed(screen: Screen, rest: Stack, whole: Value, depth: nat)
    ensures Pushed(screen, rest, whole, [], depth, rest, 0)
  {
  }

  lemma {:induction false} PushNext(screen: Screen, rest: Stack, whole: Value, entries: seq<Entry<Value>>,
                                    k: nat, depth: nat, pending: Stack, keyBytes: nat)
    requires forall i | 0 <= i < |entries| :: entries[i].value < whole
    requires k < |entries|
    requires Pushed(screen, rest, whole, entries[..k], depth, pending, keyBytes)
    ensures Pushed(screen, rest, whole, entries[..k + 1], depth,
                   pending + [(entries[k].value, depth)], keyBytes + ByteLength(entries[k].key))
  {
    assert entries[..k + 1] == entries[..k] + [entries[k]];
    PushChild(screen, rest, whole, entries[..k], entries[k], depth, pending, keyBytes);
  }

  /** The inner loop: check each key, count its bytes, push its value. */
  method PushEntries(screen: Screen, ghost whole: Value, entries: seq<Entry<Value>>, depth: nat, rest: Stack)
    returns (ok: bool, pending: Stack, keyBytes: nat)
    requires forall i | 0 <= i < |entries| :: entries[i].value < whole
    ensures ok <==> KeysAllowed(screen, entries)
    ensures ok ==> Pushed(screen, rest, whole, entries, depth, pending, keyBytes)
  {
    hide Pushed, KeyAllowed, ByteLength;
    keyBytes, pending := 0, rest;
    NothingPushed(screen, rest, whole, depth);
    assert entries[..0] == [];
    var k := 0;
    while k < |entries|
      invariant 0 <= k <= |entries|
      invariant Pushed(screen, rest, whole, entries[..k], depth, pending, keyBytes)
      invariant forall i | 0 <= i < k :: KeyAllowed(screen, entries[i].key)
    {
      if !KeyAllowed(screen, entries[k].key) {
        return false, pending, keyBytes;
      }
      PushNext(screen, rest, whole, entries, k, depth, pending, keyBytes);
      keyBytes, pending := keyBytes + ByteLength(entries[k].key), pending + [(entries[k].value, depth)];
      k := k + 1;
    }
    assert entries[..k] == entries;
    ok := true;
  }

  /** What the traversal still owes: counters plus stack make up the input. */
  ghost predicate Remaining(screen: Screen, input: Value, nodes: nat, size: nat, pending: Stack) {
    && nodes + StackNodes(pending) == NodeCount(input)
    && size + StackBytes(pending) == TreeBytes(input)
    && (StackAllowed(screen, pending) <==> TreeAllowed(screen, input, 0))
  }

  lemma {:induction false} StartTraversal(screen: Screen, input: Value)
    ensures Remaining(screen, input, 0, 0, [(input, 0)])
  {
    var start: Stack := [(input, 0)];
    assert start[..0] == [] && start[0] == (input, 0);
    assert StackAllowed(screen, start) <==> TreeAllowed(screen, start[0].0, start[0].1);
  }

  lemma {:induction false} VisitNode(screen: Screen, input: Value, nodes: nat, size: nat, rest: Stack, v: Value,
                                     depth: nat, pending: Stack, keyBytes: nat)
    requires Remaining(screen, input, nodes, size, rest + [(v, depth)])
    requires Pushed(screen, rest, v, Entries(v), depth + 1, pending, keyBytes)
    requires NodeAllowed(screen, v, depth)
    ensures Remaining(screen, input, nodes + 1, size + OwnBytes(v) + keyBytes, pending)
    ensures StackNodes(pending) < StackNodes(rest + [(v, depth)])
  {
    Expand(screen, rest, v, depth, pending, keyBytes);
  }

  lemma {:induction false} RejectNode(screen: Screen, input: Value, nodes: nat, size: nat, rest: Stack,
                                      v: Value, depth: nat)
    requires Remaining(screen, input, nodes, size, rest + [(v, depth)])
    requires !NodeAllowed(screen, v, depth) || nodes >= MAX_NODES
    ensures !Safe(screen, input)
  {
    Push(screen, rest, v, depth);
  }

  lemma {:induction false} RejectSize(screen: Screen, input: Value, nodes: nat, size: nat, pending: Stack)
    requires Remaining(screen, input, nodes, size, pending)
    requires size > MAX_BYTES
    ensures !Safe(screen, input)
  {
  }

  lemma {:induction false} AcceptEmpty(screen: Screen, input: Value, nodes: nat, size: nat)
    requires Remaining(screen, input, nodes, size, [])
    requires nodes <= MAX_NODES && size <= MAX_BYTES
    ensures Safe(screen, input)
  {
  }

  /** One iteration of the outer loop after the node counter: check the node, push its children. */
  method CheckNode(screen: Screen, value: Value, depth: nat, rest: Stack)
    returns (ok: bool, pending: Stack, keyBytes: nat)
    ensures ok <==> NodeAllowed(screen, value, depth)
    ensures ok ==> Pushed(screen, rest, value, Entries(value), depth + 1, pending, keyBytes)
  {
    if !ShapeAllowed(screen, value, depth) {
      return false, rest, 0;
    }
    ok, pending, keyBytes := PushEntries(screen, value, Entries(value), depth + 1, rest);
  }

  /** Accepts exactly the trees within the limits, although it meets them one node at a time. */
  method AssertSafe(screen: Screen, input: Value) returns (ok: bool)
    ensures ok <==> Safe(screen, input)
  {
    var size: nat, nodes: nat := 0, 0;
    var pending: Stack := [(input, 0)];
    StartTraversal(screen, input);
    while |pending| > 0
      invariant Remaining(screen, input, nodes, size, pending)
      invariant nodes <= MAX_NODES && size <= MAX_BYTES
      decreases StackNodes(pending)
    {
      var (value, depth) := pending[|pending| - 1];
      var rest := pending[..|pending| - 1];
      assert pending == rest + [(value, depth)];
      var allowed, pushed, keyBytes := CheckNode(screen, value, depth, rest);
      if nodes + 1 > MAX_NODES || !allowed {
        RejectNode(screen, input, nodes, size, rest, value, depth);
        return false;
      }
      VisitNode(screen, input, nodes, size, rest, value, depth, pushed, keyBytes);
      var bytes := if value.Str? then ByteLength(value.s) else 0;
      nodes, size, pending := nodes + 1, size + bytes + keyBytes, pushed;
      if size > MAX_BYTES {
        RejectSize(screen, input, nodes, size, pending);
        return false;
      }
    }
    AcceptEmpty(screen, input, nodes, size);
    return true;
  }

  // ---------- the limits, node by node ----------

  /** The node at the end of a path of positions. */
  ghost function At(v: Value, path: seq<nat>): Option<Value> {
    if path == [] then Some(v)
    else
      match v
      case Arr(items) => if path[0] < |items| then At(items[path[0]], path[1..]) else None
      case Obj(fields) => if path[0] < |fields| then At(fields[path[0]].value, path[1..]) else None
      case _ => None
  }

  /** What is demanded of a node at a depth. */
  ghost predicate WithinLimits(screen: Screen, node: Value, depth: nat) {
    && depth <= 8 && node != Instance
    && (node.Str? ==> |node.s| <= 128 && !screen.forbiddenText(node.s))
    && (node.Arr? ==>
          && |node.items| <= 100
          && forall i | 0 <= i < |node.items| :: !screen.forbiddenKey(Canonical.PrintNat(i)))
    && (node.Obj? ==>
          && |node.fields| <= 100
          && forall e | e in node.fields :: |e.key| <= 64 && !screen.forbiddenKey(e.key))
  }

  lemma {:induction false} ShortIndex(n: nat)
    requires n < 100
    ensures |Canonical.PrintNat(n)| <= 2
  {
    assert n >= 10 ==> n / 10 < 10;
  }

  lemma {:induction false} NodeWithinLimits(screen: Screen, v: Value, depth: nat)
    ensures NodeAllowed(screen, v, depth) <==> WithinLimits(screen, v, depth)
  {
    match v
    case Arr(items) =>
      if |items| <= 100 {
        forall i | 0 <= i < |items|
          ensures KeyAllowed(screen, Entries(v)[i].key) <==> !screen.forbiddenKey(Canonical.PrintNat(i))
        {
          ShortIndex(i);
        }
      }
    case Obj(fields) =>
      assert Entries(v) == fields;
    case _ =>
  }

  ghost predicate AllWithin(screen: Screen, v: Value, depth: nat) {
    forall path | At(v, path).Some? :: WithinLimits(screen, At(v, path).value, depth + |path|)
  }

  lemma {:induction false} WithinHere(screen: Screen, v: Value, depth: nat)
    requires AllWithin(screen, v, depth)
    ensures WithinLimits(screen, v, depth)
    ensures forall i | 0 <= i < |Entries(v)| :: AllWithin(screen, Entries(v)[i].value, depth + 1)
  {
    hide WithinLimits;
    assert At(v, []) == Some(v);
    forall i, path | 0 <= i < |Entries(v)| && At(Entries(v)[i].value, path).Some?
      ensures WithinLimits(screen, At(Entries(v)[i].value, path).value, depth + 1 + |path|)
    {
      assert ([i] + path)[1..] == path;
      assert At(v, [i] + path) == At(Entries(v)[i].value, path);
    }
  }

  lemma {:induction false} WithinAll(screen: Screen, v: Value, depth: nat)
    requires WithinLimits(screen, v, depth)
    requires forall i | 0 <= i < |Entries(v)| :: AllWithin(screen, Entries(v)[i].value, depth + 1)
    ensures AllWithin(screen, v, depth)
  {
    hide WithinLimits, Entries, At;
    AtRoot(v);
    forall path | At(v, path).Some?
      ensures WithinLimits(screen, At(v, path).value, depth + |path|)
    {
      if path != [] {
        FirstStep(v, path);
        assert AllWithin(screen, Entries(v)[path[0]].value, depth + 1);
      }
    }
  }

  lemma {:induction false} AtRoot(v: Value)
    ensures At(v, []) == Some(v)
  {
  }

  lemma {:induction false} FirstStep(v: Value, path: seq<nat>)
    requires path != [] && At(v, path).Some?
    ensures path[0] < |Entries(v)| && At(v, path) == At(Entries(v)[path[0]].value, path[1..])
  {
  }

  lemma {:induction false} TreeWithinLimits(screen: Screen, v: Value, depth: nat)
    ensures TreeAllowed(screen, v, depth) <==> AllWithin(screen, v, depth)
  {
    hide NodeAllowed, AllWithin, Entries;
    forall i | 0 <= i < |Entries(v)|
      ensures TreeAllowed(screen, Entries(v)[i].value, depth + 1) <==> AllWithin(screen, Entries(v)[i].value, depth + 1)
    {
      TreeWithinLimits(screen, Entries(v)[i].value, depth + 1);
    }
    NodeWithinLimits(screen, v, depth);
    if AllWithin(screen, v, depth) {
      WithinHere(screen, v, depth);
    }
    if TreeAllowed(screen, v, depth) {
      WithinAll(screen, v, depth);
    }
  }

  /** Accepted is what has at most 8000 nodes and 65536 bytes, and every node of which is within its limits. */
  lemma {:induction false} SafeMeans(screen: Screen, v: Value)
    ensures Safe(screen, v) <==>
              && (forall path | At(v, path).Some? :: WithinLimits(screen, At(v, path).value, |path|))
              && NodeCount(v) <= 8000 && TreeBytes(v) <= 65_536
  {
    hide TreeAllowed, WithinLimits, At, NodeCount, TreeBytes;
    TreeWithinLimits(screen, v, 0);
  }

  /** Nothing the printer throws on. */
  ghost predicate PlainNode(node: Value) {
    && node != NonObject && node != Instance
    && (node.Number? ==>
          node.n == node.n.Floor as real && -9_007_199_254_740_991.0 <= node.n <= 9_007_199_254_740_991.0)
  }

  /** Every node on every path is such a one. */
  ghost predicate AllPlain(v: Value) { forall path | At(v, path).Some? :: PlainNode(At(v, path).value) }

  lemma {:induction false} PlainLeaf(v: Value)
    requires !v.Arr? && !v.Obj?
    ensures Canonical.Printable(v) <==> AllPlain(v)
  {
    assert At(v, []) == Some(v);
    assert forall path | At(v, path).Some? :: path == [];
  }

  lemma {:induction false} PlainParts(v: Value)
    requires v.Arr? || v.Obj?
    ensures AllPlain(v) <==> forall i | 0 <= i < |Entries(v)| :: AllPlain(Entries(v)[i].value)
  {
    hide PlainNode;
    if AllPlain(v) {
      forall i, path | 0 <= i < |Entries(v)| && At(Entries(v)[i].value, path).Some?
        ensures PlainNode(At(Entries(v)[i].value, path).value)
      {
        assert ([i] + path)[1..] == path;
        assert At(v, [i] + path) == At(Entries(v)[i].value, path);
      }
    }
    if forall i | 0 <= i < |Entries(v)| :: AllPlain(Entries(v)[i].value) {
      forall path | At(v, path).Some?
        ensures PlainNode(At(v, path).value)
      {
        if path == [] {
          PlainContainer(v);
        } else {
          assert At(v, path) == At(Entries(v)[path[0]].value, path[1..]);
          assert AllPlain(Entries(v)[path[0]].value);
        }
      }
    }
  }

  lemma {:induction false} PlainContainer(v: Value)
    requires v.Arr? || v.Obj?
    ensures PlainNode(v)
  {
  }

  lemma {:induction false} PrintableIsPlain(v: Value)
    ensures Canonical.Printable(v) <==> AllPlain(v)
  {
    hide PlainNode, AllPlain;
    match v
    case Arr(items) =>
      forall i | 0 <= i < |items|
        ensures Canonical.Printable(items[i]) <==> AllPlain(Entries(v)[i].value)
      {
        PrintableIsPlain(items[i]);
      }
      PlainParts(v);
    case Obj(fields) =>
      forall i | 0 <= i < |fields|
        ensures Canonical.Printable(fields[i].value) <==> AllPlain(Entries(v)[i].value)
      {
        PrintableIsPlain(fields[i].value);
      }
      PlainParts(v);
    case _ =>
      PlainLeaf(v);
  }

  /** A value can be hashed exactly when it is plain data throughout, with whole numbers of at most 53 bits. */
  lemma {:induction false} HashableMeans(v: Value)
    ensures Canonical.CanonicalHash(v).Some? <==> AllPlain(v)
  {
    hide AllPlain;
    PrintableIsPlain(v);
  }
}
