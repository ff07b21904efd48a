/**
  * The sorted-key printer behind `canonicalHash`. SHA-256 is taken to be injective, so the digest
  * is represented by the text that is digested.
  */
module Canonical {
  import opened JsValues

  const QUOTE: CodeUnit := 34
  const BACKSLASH: CodeUnit := 92
  const COMMA: CodeUnit := 44
  const COLON: CodeUnit := 58
  const MINUS: CodeUnit := 45
  const OPEN_ARRAY: CodeUnit := 91
  const CLOSE_ARRAY: CodeUnit := 93
  const OPEN_OBJECT: CodeUnit := 123
  const CLOSE_OBJECT: CodeUnit := 125
  const NULL_TEXT: Text := [110, 117, 108, 108]
  const TRUE_TEXT: Text := [116, 114, 117, 101]
  const FALSE_TEXT: Text := [102, 97, 108, 115, 101]

  // ---------- printing ----------

  predicate IsLead(u: CodeUnit) { 0xD800 <= u <= 0xDBFF }

  predicate IsTrail(u: CodeUnit) { 0xDC00 <= u <= 0xDFFF }

  function HexDigit(d: int): CodeUnit
    requires 0 <= d < 16
  {
    if d < 10 then 48 + d else 87 + d
  }

  function Hex4(u: CodeUnit): Text {
    [HexDigit(u / 16 / 16 / 16), HexDigit(u / 16 / 16 % 16), HexDigit(u / 16 % 16), HexDigit(u % 16)]
  }

  /** How one code unit outside a surrogate pair is written inside quotes. */
  function EscapeUnit(u: CodeUnit): Text {
    if u == QUOTE || u == BACKSLASH then [BACKSLASH, u]
    else if u == 8 then [BACKSLASH, 98]
    else if u == 9 then [BACKSLASH, 116]
    else if u == 10 then [BACKSLASH, 110]
    else if u == 12 then [BACKSLASH, 102]
    else if u == 13 then [BACKSLASH, 114]
    else if u < 32 || IsLead(u) || IsTrail(u) then [BACKSLASH, 117] + Hex4(u)
    else [u]
  }

  function Escape(s: Text): Text {
    if s == [] then []
    else if StartsPair(s) then [s[0], s[1]] + Escape(s[2..])
    else EscapeUnit(s[0]) + Escape(s[1..])
  }

  function Quote(s: Text): Text { [QUOTE] + Escape(s) + [QUOTE] }

  function PrintNat(n: nat): (t: Text)
    ensures |t| > 0 && IsDigit(t[0])
  {
    if n < 10 then [48 + n] else PrintNat(n / 10) + [48 + n % 10]
  }

  function PrintInt(n: int): Text {
    if n < 0 then [MINUS] + PrintNat(-n) else PrintNat(n)
  }

  predicate SafeInteger(n: real) {
    n == n.Floor as real && -MAX_SAFE_INTEGER <= n.Floor <= MAX_SAFE_INTEGER
  }

  /** The values the printer does not throw on. */
  predicate Printable(v: Value) {
    match v
    case Number(n) => SafeInteger(n)
    case Arr(items) => forall i | 0 <= i < |items| :: Printable(items[i])
    case Obj(fields) => forall i | 0 <= i < |fields| :: Printable(fields[i].value)
    case NonObject => false
    case Instance => false
    case _ => true
  }

  function Print(v: Value): (t: Text)
    requires Printable(v)
    ensures |t| > 0
    decreases v, 1
  {
    match v
    case Null => NULL_TEXT
    case Bool(b) => if b then TRUE_TEXT else FALSE_TEXT
    case Number(n) => PrintInt(n.Floor)
    case NegZero => PrintInt(0)
    case Str(s) => Quote(s)
    case Arr(items) => [OPEN_ARRAY] + JoinItems(PrintItems(items)) + [CLOSE_ARRAY]
    case Obj(fields) => [OPEN_OBJECT] + JoinEntries(SortByKey(PrintFields(fields))) + [CLOSE_OBJECT]
  }

  function PrintItems(items: seq<Value>): (r: seq<Text>)
    requires forall i | 0 <= i < |items| :: Printable(items[i])
    ensures |r| == |items|
    ensures forall i | 0 <= i < |items| :: r[i] == Print(items[i])
    decreases items, 0
  {
    if items == [] then [] else [Print(items[0])] + PrintItems(items[1..])
  }

  function PrintFields(fields: seq<Entry<Value>>): (r: seq<Entry<Text>>)
    requires forall i | 0 <= i < |fields| :: Printable(fields[i].value)
    ensures |r| == |fields|
    ensures forall i | 0 <= i < |fields| :: r[i] == Entry(fields[i].key, Print(fields[i].value))
    decreases fields, 0
  {
    if fields == [] then []
    else [Entry(fields[0].key, Print(fields[0].value))] + PrintFields(fields[1..])
  }

  function JoinItems(texts: seq<Text>): Text {
    if texts == [] then []
    else if |texts| == 1 then texts[0]
    else texts[0] + [COMMA] + JoinItems(texts[1..])
  }

  function Member(key: Text, text: Text): Text { Quote(key) + [COLON] + text }

  function JoinEntries(entries: seq<Entry<Text>>): Text {
    if entries == [] then []
    else if |entries| == 1 then Member(entries[0].key, entries[0].value)
    else Member(entries[0].key, entries[0].value) + [COMMA] + JoinEntries(entries[1..])
  }

  /** `canonicalHash`: None where the source throws. */
  function CanonicalHash(v: Value): Option<Text> {
    if Printable(v) then Some(Print(v)) else None
  }

  // ---------- the value a printed text denotes ----------

  /** The value with every object's keys in order and without a negative zero. */
  function Normal(v: Value): Value
    decreases v, 1
  {
    match v
    case NegZero => Number(0.0)
    case Arr(items) => Arr(NormalItems(items))
    case Obj(fields) => Obj(SortByKey(NormalFields(fields)))
    case _ => v
  }

  function NormalItems(items: seq<Value>): (r: seq<Value>)
    ensures |r| == |items|
    ensures forall i | 0 <= i < |items| :: r[i] == Normal(items[i])
    decreases items, 0
  {
    if items == [] then [] else [Normal(items[0])] + NormalItems(items[1..])
  }

  function NormalFields(fields: seq<Entry<Value>>): (r: seq<Entry<Value>>)
    ensures |r| == |fields|
    ensures forall i | 0 <= i < |fields| :: r[i] == Entry(fields[i].key, Normal(fields[i].value))
    decreases fields, 0
  {
    if fields == [] then []
    else [Entry(fields[0].key, Normal(fields[0].value))] + NormalFields(fields[1..])
  }

  /** The two values differ at most in the order of object keys and in the sign of zeros. */
  ghost predicate Same(v: Value, w: Value)
    decreases v, 1
  {
    match v
    case Arr(items) =>
      w.Arr? && |items| == |w.items| && forall i | 0 <= i < |items| :: Same(items[i], w.items[i])
    case Obj(fields) =>
      w.Obj? && |fields| == |w.fields| && forall i | 0 <= i < |fields| :: Matched(fields[i], w.fields)
    case NegZero => w == NegZero || w == Number(0.0)
    case Number(n) => w == v || (n == 0.0 && w == NegZero)
    case _ => v == w
  }

  ghost predicate Matched(e: Entry<Value>, fields: seq<Entry<Value>>)
    decreases e, 2
  {
    exists j | 0 <= j < |fields| :: fields[j].key == e.key && Same(e.value, fields[j].value)
  }

  // ---------- parsing ----------

  predicate IsDigit(u: CodeUnit) { 48 <= u <= 57 }

  function HexValue(u: CodeUnit): (d: int)
    ensures -1 <= d < 16
  {
    if IsDigit(u) then u - 48 else if 97 <= u <= 102 then u - 87 else -1
  }

  /** The code unit written at the front of a string body, and what follows it. */
  function DecodeUnit(t: Text): (r: Option<(CodeUnit, Text)>)
    requires t != []
    ensures r.Some? ==> |r.value.1| < |t|
  {
    if t[0] != BACKSLASH then Some((t[0], t[1..]))
    else if |t| < 2 then None
    else if t[1] == QUOTE || t[1] == BACKSLASH then Some((t[1], t[2..]))
    else if t[1] == 98 then Some((8, t[2..]))
    else if t[1] == 116 then Some((9, t[2..]))
    else if t[1] == 110 then Some((10, t[2..]))
    else if t[1] == 102 then Some((12, t[2..]))
    else if t[1] == 114 then Some((13, t[2..]))
    else if t[1] == 117 && |t| >= 6 then
      var a, b, c, d := HexValue(t[2]), HexValue(t[3]), HexValue(t[4]), HexValue(t[5]);
      if a < 0 || b < 0 || c < 0 || d < 0 then None
      else Some((4096 * a + 256 * b + 16 * c + d, t[6..]))
    else None
  }

  /** The string body up to the closing quote, and what follows that quote. */
  function ParseChars(t: Text): (r: Option<(Text, Text)>)
    ensures r.Some? ==> |r.value.1| < |t|
  {
    if t == [] then None
    else if t[0] == QUOTE then Some(([], t[1..]))
    else
      match DecodeUnit(t)
      case None => None
      case Some((u, rest)) => Prepend(u, ParseChars(rest))
  }

  function Prepend(u: CodeUnit, r: Option<(Text, Text)>): Option<(Text, Text)> {
    match r
    case None => None
    case Some((s, rest)) => Some(([u] + s, rest))
  }

  function ParseDigits(t: Text, acc: nat): (r: (nat, Text))
    ensures |r.1| <= |t|
  {
    if t != [] && IsDigit(t[0]) then ParseDigits(t[1..], 10 * acc + (t[0] - 48)) else (acc, t)
  }

  function ParseValue(t: Text): (r: Option<(Value, Text)>)
    ensures r.Some? ==> |r.value.1| < |t|
    decreases |t|, 0
  {
    if t == [] then None
    else if NULL_TEXT <= t then Some((Null, t[4..]))
    else if TRUE_TEXT <= t then Some((Bool(true), t[4..]))
    else if FALSE_TEXT <= t then Some((Bool(false), t[5..]))
    else if IsDigit(t[0]) then
      var (n, rest) := ParseDigits(t[1..], t[0] - 48);
      Some((Number(n as real), rest))
    else if t[0] == MINUS && |t| > 1 && IsDigit(t[1]) then
      var (n, rest) := ParseDigits(t[1..], 0);
      Some((Number((0 - n) as real), rest))
    else if t[0] == QUOTE then
      match ParseChars(t[1..])
      case None => None
      case Some((s, rest)) => Some((Str(s), rest))
    else if t[0] == OPEN_ARRAY then
      if |t| > 1 && t[1] == CLOSE_ARRAY then Some((Arr([]), t[2..]))
      else
        match ParseItems(t[1..])
        case None => None
        case Some((items, rest)) => Some((Arr(items), rest))
    else if t[0] == OPEN_OBJECT then
      if |t| > 1 && t[1] == CLOSE_OBJECT then Some((Obj([]), t[2..]))
      else
        match ParseFields(t[1..])
        case None => None
        case Some((fields, rest)) => Some((Obj(fields), rest))
    else None
  }

  function ParseItems(t: Text): (r: Option<(seq<Value>, Text)>)
    ensures r.Some? ==> |r.value.1| < |t|
    decreases |t|, 1
  {
    match ParseValue(t)
    case None => None
    case Some((v, rest)) =>
      if rest == [] then None
      else if rest[0] == CLOSE_ARRAY then Some(([v], rest[1..]))
      else if rest[0] == COMMA then
        match ParseItems(rest[1..])
        case None => None
        case Some((items, rest')) => Some(([v] + items, rest'))
      else None
  }

  function ParseMember(t: Text): (r: Option<(Entry<Value>, Text)>)
    ensures r.Some? ==> |r.value.1| < |t|
    decreases |t|, 1
  {
    if t == [] || t[0] != QUOTE then None
    else
      match ParseChars(t[1..])
      case None => None
      case Some((key, afterKey)) =>
        if afterKey == [] || afterKey[0] != COLON then None
        else
          match ParseValue(afterKey[1..])
          case None => None
          case Some((v, rest)) => Some((Entry(key, v), rest))
  }

  function ParseFields(t: Text): (r: Option<(seq<Entry<Value>>, Text)>)
    ensures r.Some? ==> |r.value.1| < |t|
    decreases |t|, 2
  {
    match ParseMember(t)
    case None => None
    case Some((e, rest)) =>
      if rest == [] then None
      else if rest[0] == CLOSE_OBJECT then Some(([e], rest[1..]))
      else if rest[0] == COMMA then
        match ParseFields(rest[1..])
        case None => None
        case Some((fields, rest')) => Some(([e] + fields, rest'))
      else None
  }

  // ---------- round trip ----------

  lemma {:induction false} HexDigitRoundTrip(d: int)
    requires 0 <= d < 16
    ensures HexValue(HexDigit(d)) == d
  {
  }

  lemma {:induction false} HexRoundTrip(u: CodeUnit)
    ensures var h := Hex4(u);
            HexValue(h[0]) >= 0 && HexValue(h[1]) >= 0 && HexValue(h[2]) >= 0 && HexValue(h[3]) >= 0 &&
            4096 * HexValue(h[0]) + 256 * HexValue(h[1]) + 16 * HexValue(h[2]) + HexValue(h[3]) == u
  {
    var q1 := u / 16;
    var q2 := q1 / 16;
    var q3 := q2 / 16;
    assert u == 16 * q1 + u % 16 && q1 == 16 * q2 + q1 % 16 && q2 == 16 * q3 + q2 % 16;
    HexDigitRoundTrip(q3);
    HexDigitRoundTrip(q2 % 16);
    HexDigitRoundTrip(q1 % 16);
    HexDigitRoundTrip(u % 16);
  }

  lemma {:induction false} UnitRoundTrip(u: CodeUnit, rest: Text)
    ensures EscapeUnit(u)[0] != QUOTE
    ensures DecodeUnit(EscapeUnit(u) + rest) == Some((u, rest))
  {
    var t := EscapeUnit(u) + rest;
    if |EscapeUnit(u)| == 6 {
      HexRoundTrip(u);
      assert t[6..] == rest;
    } else if |EscapeUnit(u)| == 2 {
      assert t[2..] == rest;
    } else {
      assert t[1..] == rest;
    }
  }

  lemma {:induction false} CharsStep(written: Text, u: CodeUnit, tail: Text, s: Text, rest: Text)
    requires written != [] && written[0] != QUOTE
    requires DecodeUnit(written + tail) == Some((u, tail))
    requires ParseChars(tail) == Some((s, rest))
    ensures ParseChars(written + tail) == Some(([u] + s, rest))
  {
  }

  predicate StartsPair(s: Text) { |s| > 1 && IsLead(s[0]) && IsTrail(s[1]) }

  lemma {:induction false} PairText(s: Text, end: Text)
    requires StartsPair(s)
    ensures Escape(s) + end == [s[0]] + ([s[1]] + (Escape(s[2..]) + end))
  {
  }

  lemma {:induction false} UnitText(s: Text, end: Text)
    requires s != [] && !StartsPair(s)
    ensures Escape(s) + end == EscapeUnit(s[0]) + (Escape(s[1..]) + end)
  {
  }

  lemma {:induction false} RawStep(u: CodeUnit, tail: Text, s: Text, rest: Text)
    requires u != QUOTE && u != BACKSLASH
    requires ParseChars(tail) == Some((s, rest))
    ensures ParseChars([u] + tail) == Some(([u] + s, rest))
  {
    assert ([u] + tail)[1..] == tail;
    CharsStep([u], u, tail, s, rest);
  }

  lemma {:induction false} PairStep(s: Text, end: Text, rest: Text)
    requires StartsPair(s)
    requires ParseChars(Escape(s[2..]) + end) == Some((s[2..], rest))
    ensures ParseChars(Escape(s) + end) == Some((s, rest))
  {
    PairText(s, end);
    var tail := Escape(s[2..]) + end;
    RawStep(s[1], tail, s[2..], rest);
    RawStep(s[0], [s[1]] + tail, [s[1]] + s[2..], rest);
    assert s == [s[0]] + ([s[1]] + s[2..]);
  }

  lemma {:induction false} UnitStep(s: Text, end: Text, rest: Text)
    requires s != [] && !StartsPair(s)
    requires ParseChars(Escape(s[1..]) + end) == Some((s[1..], rest))
    ensures ParseChars(Escape(s) + end) == Some((s, rest))
  {
    UnitText(s, end);
    var tail := Escape(s[1..]) + end;
    UnitRoundTrip(s[0], tail);
    CharsStep(EscapeUnit(s[0]), s[0], tail, s[1..], rest);
    assert s == [s[0]] + s[1..];
  }

  /** Quoting loses nothing: section 7 of RFC 8259, with lone surrogates written as escapes. */
  lemma {:induction false} CharsRoundTrip(s: Text, rest: Text)
    ensures ParseChars(Escape(s) + ([QUOTE] + rest)) == Some((s, rest))
  {
    var end := [QUOTE] + rest;
    if s == [] {
      assert Escape(s) + end == end && end[1..] == rest;
    } else if StartsPair(s) {
      CharsRoundTrip(s[2..], rest);
      PairStep(s, end, rest);
    } else {
      CharsRoundTrip(s[1..], rest);
      UnitStep(s, end, rest);
    }
  }

  predicate EndsNumber(rest: Text) { rest == [] || !IsDigit(rest[0]) }

  lemma {:induction false} DigitsRoundTrip(n: nat, rest: Text)
    ensures ParseDigits(PrintNat(n) + rest, 0) == ParseDigits(rest, n)
  {
    if n < 10 {
      assert (PrintNat(n) + rest)[1..] == rest;
    } else {
      var last := [48 + n % 10];
      DigitsRoundTrip(n / 10, last + rest);
      assert PrintNat(n) + rest == PrintNat(n / 10) + (last + rest);
      assert (last + rest)[1..] == rest;
    }
  }

  lemma {:induction false} NaturalRoundTrip(n: nat, rest: Text)
    requires EndsNumber(rest)
    ensures ParseValue(PrintNat(n) + rest) == Some((Number(n as real), rest))
  {
    var t := PrintNat(n) + rest;
    DigitsRoundTrip(n, rest);
    assert t[0] == PrintNat(n)[0];
    assert ParseDigits(t, 0) == ParseDigits(t[1..], t[0] - 48);
  }

  lemma {:induction false} NegativeRoundTrip(n: nat, rest: Text)
    requires EndsNumber(rest)
    ensures ParseValue([MINUS] + PrintNat(n) + rest) == Some((Number((0 - n) as real), rest))
  {
    var t := [MINUS] + PrintNat(n) + rest;
    DigitsRoundTrip(n, rest);
    assert t[1..] == PrintNat(n) + rest;
    assert t[1] == PrintNat(n)[0];
  }

  lemma {:induction false} NumberRoundTrip(n: int, rest: Text)
    requires EndsNumber(rest)
    ensures ParseValue(PrintInt(n) + rest) == Some((Number(n as real), rest))
  {
    if n < 0 {
      NegativeRoundTrip(-n, rest);
    } else {
      NaturalRoundTrip(n, rest);
    }
  }

  /** `text` reads back as `v` wherever a number would end. */
  ghost predicate Reads(text: Text, v: Value) {
    text != [] && text[0] != CLOSE_ARRAY &&
    forall rest | EndsNumber(rest) :: ParseValue(text + rest) == Some((v, rest))
  }

  ghost predicate ReadsAll(texts: seq<Text>, values: seq<Value>) {
    |texts| == |values| && forall i | 0 <= i < |texts| :: Reads(texts[i], values[i])
  }

  ghost predicate ReadsEntries(texts: seq<Entry<Text>>, entries: seq<Entry<Value>>) {
    |texts| == |entries| &&
    forall i | 0 <= i < |texts| :: texts[i].key == entries[i].key && Reads(texts[i].value, entries[i].value)
  }

  lemma {:induction false} LastItem(t: Text, v: Value, rest: Text)
    requires ParseValue(t) == Some((v, [CLOSE_ARRAY] + rest))
    ensures ParseItems(t) == Some(([v], rest))
  {
    assert ([CLOSE_ARRAY] + rest)[1..] == rest;
  }

  lemma {:induction false} NextItem(t: Text, v: Value, tail: Text, values: seq<Value>, rest: Text)
    requires ParseValue(t) == Some((v, [COMMA] + tail))
    requires ParseItems(tail) == Some((values, rest))
    ensures ParseItems(t) == Some(([v] + values, rest))
  {
    assert ([COMMA] + tail)[1..] == tail;
  }

  lemma {:induction false} JoinItemsText(texts: seq<Text>, end: Text)
    requires |texts| > 1
    ensures JoinItems(texts) + end == texts[0] + ([COMMA] + (JoinItems(texts[1..]) + end))
  {
  }

  lemma {:induction false} ItemsRoundTrip(texts: seq<Text>, values: seq<Value>, rest: Text)
    requires texts != [] && ReadsAll(texts, values)
    ensures ParseItems(JoinItems(texts) + ([CLOSE_ARRAY] + rest)) == Some((values, rest))
  {
    var end := [CLOSE_ARRAY] + rest;
    assert Reads(texts[0], values[0]);
    if |texts| == 1 {
      ReadsAt(texts[0], values[0], end);
      LastItem(texts[0] + end, values[0], rest);
      assert [values[0]] == values;
    } else {
      ItemsRoundTrip(texts[1..], values[1..], rest);
      var tail := JoinItems(texts[1..]) + end;
      JoinItemsText(texts, end);
      ReadsAt(texts[0], values[0], [COMMA] + tail);
      NextItem(texts[0] + ([COMMA] + tail), values[0], tail, values[1..], rest);
      assert values == [values[0]] + values[1..];
    }
  }

  lemma {:induction false} ReadsAt(text: Text, v: Value, rest: Text)
    requires Reads(text, v) && EndsNumber(rest)
    ensures ParseValue(text + rest) == Some((v, rest))
  {
  }

  lemma {:induction false} MemberText(key: Text, text: Text, after: Text)
    ensures Member(key, text) + after == [QUOTE] + (Escape(key) + ([QUOTE] + ([COLON] + (text + after))))
  {
  }

  lemma {:induction false} MemberStep(key: Text, text: Text, v: Value, after: Text)
    requires ParseValue(text + after) == Some((v, after))
    ensures ParseMember(Member(key, text) + after) == Some((Entry(key, v), after))
  {
    var afterKey := [COLON] + (text + after);
    var body := Escape(key) + ([QUOTE] + afterKey);
    MemberText(key, text, after);
    assert ([QUOTE] + body)[1..] == body;
    CharsRoundTrip(key, afterKey);
    assert afterKey[1..] == text + after;
  }

  lemma {:induction false} LastField(t: Text, e: Entry<Value>, rest: Text)
    requires ParseMember(t) == Some((e, [CLOSE_OBJECT] + rest))
    ensures ParseFields(t) == Some(([e], rest))
  {
    assert ([CLOSE_OBJECT] + rest)[1..] == rest;
  }

  lemma {:induction false} NextField(t: Text, e: Entry<Value>, tail: Text, fields: seq<Entry<Value>>, rest: Text)
    requires ParseMember(t) == Some((e, [COMMA] + tail))
    requires ParseFields(tail) == Some((fields, rest))
    ensures ParseFields(t) == Some(([e] + fields, rest))
  {
    assert ([COMMA] + tail)[1..] == tail;
  }

  lemma {:induction false} JoinEntriesText(texts: seq<Entry<Text>>, end: Text)
    requires |texts| > 1
    ensures JoinEntries(texts) + end ==
            Member(texts[0].key, texts[0].value) + ([COMMA] + (JoinEntries(texts[1..]) + end))
  {
  }

  lemma {:induction false} ReadsEntriesSplit(texts: seq<Entry<Text>>, entries: seq<Entry<Value>>)
    requires texts != [] && ReadsEntries(texts, entries)
    ensures texts[0].key == entries[0].key && Reads(texts[0].value, entries[0].value)
    ensures ReadsEntries(texts[1..], entries[1..])
    ensures entries == [Entry(texts[0].key, entries[0].value)] + entries[1..]
  {
  }

  lemma {:induction false} EntriesRoundTrip(texts: seq<Entry<Text>>, entries: seq<Entry<Value>>, rest: Text)
    requires texts != [] && ReadsEntries(texts, entries)
    ensures ParseFields(JoinEntries(texts) + ([CLOSE_OBJECT] + rest)) == Some((entries, rest))
  {
    var end := [CLOSE_OBJECT] + rest;
    var key, text, v := texts[0].key, texts[0].value, entries[0].value;
    ReadsEntriesSplit(texts, entries);
    if |texts| == 1 {
      ReadsAt(text, v, end);
      MemberStep(key, text, v, end);
      LastField(Member(key, text) + end, Entry(key, v), rest);
      assert entries == [Entry(key, v)];
    } else {
      EntriesRoundTrip(texts[1..], entries[1..], rest);
      var tail := JoinEntries(texts[1..]) + end;
      JoinEntriesText(texts, end);
      ReadsAt(text, v, [COMMA] + tail);
      MemberStep(key, text, v, [COMMA] + tail);
      NextField(Member(key, text) + ([COMMA] + tail), Entry(key, v), tail, entries[1..], rest);
    }
  }

  lemma {:induction false} ObjectValue(t: Text, inner: Text, fields: seq<Entry<Value>>, rest: Text)
    requires t == [OPEN_OBJECT] + inner && inner != [] && inner[0] == QUOTE
    requires ParseFields(inner) == Some((fields, rest))
    ensures ParseValue(t) == Some((Obj(fields), rest))
  {
    assert t[1..] == inner;
  }

  lemma {:induction false} ArrayValue(t: Text, inner: Text, items: seq<Value>, rest: Text)
    requires t == [OPEN_ARRAY] + inner && inner != [] && inner[0] != CLOSE_ARRAY
    requires ParseItems(inner) == Some((items, rest))
    ensures ParseValue(t) == Some((Arr(items), rest))
  {
    assert t[1..] == inner;
  }

  lemma {:induction false} ArrayReads(texts: seq<Text>, values: seq<Value>)
    requires ReadsAll(texts, values)
    ensures Reads([OPEN_ARRAY] + JoinItems(texts) + [CLOSE_ARRAY], Arr(values))
  {
    var text := [OPEN_ARRAY] + JoinItems(texts) + [CLOSE_ARRAY];
    forall rest | EndsNumber(rest)
      ensures ParseValue(text + rest) == Some((Arr(values), rest))
    {
      var t := text + rest;
      if texts == [] {
        assert t[2..] == rest;
      } else {
        var inner := JoinItems(texts) + ([CLOSE_ARRAY] + rest);
        assert t == [OPEN_ARRAY] + inner;
        ItemsRoundTrip(texts, values, rest);
        assert Reads(texts[0], values[0]);
        assert inner[0] == texts[0][0];
        ArrayValue(t, inner, values, rest);
      }
    }
  }

  lemma {:induction false} ObjectReads(texts: seq<Entry<Text>>, entries: seq<Entry<Value>>)
    requires ReadsEntries(texts, entries)
    ensures Reads([OPEN_OBJECT] + JoinEntries(texts) + [CLOSE_OBJECT], Obj(entries))
  {
    var text := [OPEN_OBJECT] + JoinEntries(texts) + [CLOSE_OBJECT];
    forall rest | EndsNumber(rest)
      ensures ParseValue(text + rest) == Some((Obj(entries), rest))
    {
      var t := text + rest;
      if texts == [] {
        assert t[2..] == rest;
      } else {
        var inner := JoinEntries(texts) + ([CLOSE_OBJECT] + rest);
        assert t == [OPEN_OBJECT] + inner;
        EntriesRoundTrip(texts, entries, rest);
        assert inner[0] == QUOTE;
        ObjectValue(t, inner, entries, rest);
      }
    }
  }

  lemma {:induction false} WordRoundTrip(v: Value, rest: Text)
    requires v.Null? || v.Bool?
    ensures ParseValue(Print(v) + rest) == Some((v, rest))
  {
    var t := Print(v) + rest;
    assert t[0] == Print(v)[0];
    if v.Null? {
      assert t[4..] == rest;
    } else if v.b {
      assert t[4..] == rest;
    } else {
      assert t[5..] == rest;
    }
  }

  lemma {:induction false} LeafReads(v: Value)
    requires Printable(v) && !v.Arr? && !v.Obj?
    ensures Reads(Print(v), Normal(v))
  {
    forall rest | EndsNumber(rest)
      ensures ParseValue(Print(v) + rest) == Some((Normal(v), rest))
    {
      match v
      case Number(n) => NumberRoundTrip(n.Floor, rest);
      case NegZero => NumberRoundTrip(0, rest);
      case Str(s) => StringRoundTrip(s, rest);
      case _ => WordRoundTrip(v, rest);
    }
  }

  lemma {:induction false} StringRoundTrip(s: Text, rest: Text)
    ensures ParseValue(Quote(s) + rest) == Some((Str(s), rest))
  {
    var t := Quote(s) + rest;
    assert t[1..] == Escape(s) + ([QUOTE] + rest);
    CharsRoundTrip(s, rest);
  }

  /** Every printed value reads back as that value with its keys sorted. */
  lemma {:induction false} PrintReads(v: Value)
    requires Printable(v)
    ensures Reads(Print(v), Normal(v))
  {
    match v
    case Arr(items) =>
      forall i | 0 <= i < |items|
        ensures Reads(PrintItems(items)[i], NormalItems(items)[i])
      {
        PrintReads(items[i]);
      }
      ArrayReads(PrintItems(items), NormalItems(items));
    case Obj(fields) =>
      var texts, entries := PrintFields(fields), NormalFields(fields);
      forall i | 0 <= i < |fields|
        ensures Reads(texts[i].value, entries[i].value)
      {
        PrintReads(fields[i].value);
      }
      SortTogether(texts, entries);
      var sortedTexts, sortedEntries := SortByKey(texts), SortByKey(entries);
      forall i | 0 <= i < |fields|
        ensures sortedTexts[i].key == sortedEntries[i].key && Reads(sortedTexts[i].value, sortedEntries[i].value)
      {
        assert Together(sortedTexts[i], sortedEntries[i], texts, entries);
      }
      ObjectReads(SortByKey(texts), SortByKey(entries));
    case _ => LeafReads(v);
  }

  lemma {:induction false} RoundTrip(v: Value)
    requires Printable(v)
    ensures ParseValue(Print(v)) == Some((Normal(v), []))
  {
    PrintReads(v);
    assert EndsNumber([]);
    assert Print(v) + [] == Print(v);
  }

  // ---------- printing identifies values up to key order ----------

  /** Sorting the keys makes two values equal exactly when they differ only in key order. */
  lemma {:induction false} SameNormal(v: Value, w: Value)
    requires WellFormed(v) && WellFormed(w)
    ensures Normal(v) == Normal(w) <==> Same(v, w)
    decreases v, 1
  {
    if v.Arr? && w.Arr? && |v.items| == |w.items| {
      SameNormalItems(v.items, w.items);
    } else if v.Obj? && w.Obj? && |v.fields| == |w.fields| {
      SameNormalFields(v.fields, w.fields);
    } else {
      SameNormalOther(v, w);
    }
  }

  lemma {:induction false} SameNormalOther(v: Value, w: Value)
    requires !(v.Arr? && w.Arr? && |v.items| == |w.items|)
    requires !(v.Obj? && w.Obj? && |v.fields| == |w.fields|)
    ensures Normal(v) == Normal(w) <==> Same(v, w)
  {
  }

  lemma {:induction false} SameNormalItems(a: seq<Value>, b: seq<Value>)
    requires |a| == |b|
    requires forall i | 0 <= i < |a| :: WellFormed(a[i]) && WellFormed(b[i])
    ensures NormalItems(a) == NormalItems(b) <==> forall i | 0 <= i < |a| :: Same(a[i], b[i])
    decreases a, 0
  {
    forall i | 0 <= i < |a|
      ensures NormalItems(a)[i] == NormalItems(b)[i] <==> Same(a[i], b[i])
    {
      SameNormal(a[i], b[i]);
    }
  }

  lemma {:induction false} SameNormalFields(f: seq<Entry<Value>>, g: seq<Entry<Value>>)
    requires DistinctKeys(f) && DistinctKeys(g) && |f| == |g|
    requires forall i | 0 <= i < |f| :: WellFormed(f[i].value) && WellFormed(g[i].value)
    ensures SortByKey(NormalFields(f)) == SortByKey(NormalFields(g)) <==> forall i | 0 <= i < |f| :: Matched(f[i], g)
    decreases f, 0
  {
    forall i, j | 0 <= i < |f| && 0 <= j < |g|
      ensures Normal(f[i].value) == Normal(g[j].value) <==> Same(f[i].value, g[j].value)
    {
      SameNormal(f[i].value, g[j].value);
    }
    SameNormalObject(f, g);
  }

  lemma {:induction false} SameNormalObject(f: seq<Entry<Value>>, g: seq<Entry<Value>>)
    requires DistinctKeys(f) && DistinctKeys(g) && |f| == |g|
    requires forall i, j | 0 <= i < |f| && 0 <= j < |g| ::
               Normal(f[i].value) == Normal(g[j].value) <==> Same(f[i].value, g[j].value)
    ensures SortByKey(NormalFields(f)) == SortByKey(NormalFields(g)) <==> forall i | 0 <= i < |f| :: Matched(f[i], g)
  {
    var a, b := NormalFields(f), NormalFields(g);
    SortedAgree(a, b);
    forall i | 0 <= i < |f|
      ensures a[i] in b <==> Matched(f[i], g)
    {
      NormalMember(f[i], g);
    }
  }

  lemma {:induction false} NormalMember(e: Entry<Value>, g: seq<Entry<Value>>)
    requires forall j | 0 <= j < |g| :: Normal(e.value) == Normal(g[j].value) <==> Same(e.value, g[j].value)
    ensures Entry(e.key, Normal(e.value)) in NormalFields(g) <==> Matched(e, g)
  {
    var n := Entry(e.key, Normal(e.value));
    if n in NormalFields(g) {
      var j :| 0 <= j < |g| && NormalFields(g)[j] == n;
      assert g[j].key == e.key && Same(e.value, g[j].value);
    }
    if Matched(e, g) {
      var j :| 0 <= j < |g| && g[j].key == e.key && Same(e.value, g[j].value);
      assert NormalFields(g)[j] == n;
    }
  }

  /** Two objects sort to the same entries exactly when each entry of one occurs in the other. */
  lemma {:induction false} SortedAgree<T>(a: seq<Entry<T>>, b: seq<Entry<T>>)
    requires DistinctKeys(a) && DistinctKeys(b) && |a| == |b|
    ensures SortByKey(a) == SortByKey(b) <==> forall i | 0 <= i < |a| :: a[i] in b
  {
    SortedMembers(a);
    SortedMembers(b);
    if forall i | 0 <= i < |a| :: a[i] in b {
      SortSorts(a);
      SortSorts(b);
      SortedIsUnique(SortByKey(a), SortByKey(b));
    }
  }

  lemma {:induction false} SamePrints(v: Value, w: Value)
    requires WellFormed(v) && WellFormed(w)
    requires Same(v, w) && Printable(v) && Printable(w)
    ensures Print(v) == Print(w)
  {
    match v
    case Arr(items) =>
      forall i | 0 <= i < |items|
        ensures PrintItems(items)[i] == PrintItems(w.items)[i]
      {
        SamePrints(items[i], w.items[i]);
      }
      assert PrintItems(items) == PrintItems(w.items);
    case Obj(fields) =>
      forall i | 0 <= i < |fields|
        ensures PrintFields(fields)[i] in PrintFields(w.fields)
      {
        assert Matched(fields[i], w.fields);
        var j :| 0 <= j < |w.fields| && w.fields[j].key == fields[i].key && Same(fields[i].value, w.fields[j].value);
        SamePrints(fields[i].value, w.fields[j].value);
        assert PrintFields(w.fields)[j] == PrintFields(fields)[i];
      }
      SortedAgree(PrintFields(fields), PrintFields(w.fields));
    case _ =>
  }

  lemma {:induction false} PrintableNormal(v: Value)
    ensures Printable(Normal(v)) == Printable(v)
  {
    match v
    case Arr(items) =>
      forall i | 0 <= i < |items|
        ensures Printable(NormalItems(items)[i]) == Printable(items[i])
      {
        PrintableNormal(items[i]);
      }
    case Obj(fields) =>
      var entries := NormalFields(fields);
      forall i | 0 <= i < |fields|
        ensures Printable(entries[i].value) == Printable(fields[i].value)
      {
        PrintableNormal(fields[i].value);
      }
      PrintableSorted(entries);
      PrintableObject(entries);
      PrintableObject(SortByKey(entries));
    case _ =>
  }

  ghost predicate AllPrintable(entries: seq<Entry<Value>>) {
    forall e | e in entries :: Printable(e.value)
  }

  lemma {:induction false} PrintableSorted(entries: seq<Entry<Value>>)
    ensures AllPrintable(SortByKey(entries)) <==> AllPrintable(entries)
  {
    SortedMembers(entries);
    assert forall e :: e in entries <==> e in SortByKey(entries);
  }

  lemma {:induction false} PrintableObject(entries: seq<Entry<Value>>)
    ensures Printable(Obj(entries)) <==> AllPrintable(entries)
  {
  }

  /** A value that can be hashed shares its hash with exactly the values that differ from it in key order only. */
  lemma {:induction false} HashIdentifies(v: Value, w: Value)
    requires WellFormed(v) && WellFormed(w)
    requires CanonicalHash(v).Some?
    ensures CanonicalHash(v) == CanonicalHash(w) <==> Same(v, w)
  {
    SameNormal(v, w);
    if CanonicalHash(v) == CanonicalHash(w) {
      RoundTrip(v);
      RoundTrip(w);
    }
    if Same(v, w) {
      PrintableNormal(v);
      PrintableNormal(w);
      SamePrints(v, w);
    }
  }

  // ---------- which order, which escapes ----------

  /** After a common prefix of length `k`, text `a` ends and `b` goes on, or `a` has the smaller code unit. */
  ghost predicate ComesFirst(a: Text, b: Text, k: nat) {
    && k <= |a| && k < |b| && a[..k] == b[..k]
    && (k == |a| || (a[k] as int) < (b[k] as int))
  }

  lemma {:induction false} BeforeComesFirst(a: Text, b: Text) returns (k: nat)
    requires Before(a, b)
    ensures ComesFirst(a, b, k)
  {
    k := 0;
    if a != [] && a[0] == b[0] {
      var rest := BeforeComesFirst(a[1..], b[1..]);
      k := rest + 1;
      assert a[..k] == [a[0]] + a[1..][..rest] && b[..k] == [b[0]] + b[1..][..rest];
    }
  }

  ghost predicate Precedes(a: Text, b: Text) { exists k: nat :: ComesFirst(a, b, k) }

  ghost predicate Rises<T>(fields: seq<Entry<T>>) {
    forall i, j | 0 <= i < j < |fields| :: Precedes(fields[i].key, fields[j].key)
  }

  /** In every object of the tree the keys rise. */
  ghost predicate KeysRise(v: Value) {
    match v
    case Arr(items) => forall i | 0 <= i < |items| :: KeysRise(items[i])
    case Obj(fields) => Rises(fields) && forall i | 0 <= i < |fields| :: KeysRise(fields[i].value)
    case _ => true
  }

  lemma {:induction false} SortedRises<T>(fields: seq<Entry<T>>)
    requires StrictlySorted(fields)
    ensures Rises(fields)
  {
    hide Before, ComesFirst;
    forall i, j | 0 <= i < j < |fields|
      ensures Precedes(fields[i].key, fields[j].key)
    {
      var k := BeforeComesFirst(fields[i].key, fields[j].key);
    }
  }

  ghost predicate AllRise(entries: seq<Entry<Value>>) { forall e | e in entries :: KeysRise(e.value) }

  lemma {:induction false} ObjectRises(entries: seq<Entry<Value>>)
    requires Rises(entries) && AllRise(entries)
    ensures KeysRise(Obj(entries))
  {
    hide Rises;
  }

  lemma {:induction false} SortedAllRise(entries: seq<Entry<Value>>)
    requires AllRise(entries)
    ensures AllRise(SortByKey(entries))
  {
    hide KeysRise;
    SortedMembers(entries);
  }

  lemma {:induction false} NormalRises(v: Value)
    requires WellFormed(v)
    ensures KeysRise(Normal(v))
  {
    match v
    case Arr(items) =>
      forall i | 0 <= i < |items|
        ensures KeysRise(NormalItems(items)[i])
      {
        NormalRises(items[i]);
      }
    case Obj(fields) =>
      var entries := NormalFields(fields);
      forall i | 0 <= i < |fields|
        ensures KeysRise(entries[i].value)
      {
        NormalRises(fields[i].value);
      }
      SortSorts(entries);
      SortedRises(SortByKey(entries));
      SortedAllRise(entries);
      ObjectRises(SortByKey(entries));
    case _ =>
  }

  /**
    * What is hashed is a JSON text in which, at every depth, each key comes before the next one by its
    * first different code unit, a prefix coming before what it is a prefix of.
    */
  lemma {:induction false} HashedKeysRise(v: Value)
    requires WellFormed(v) && CanonicalHash(v).Some?
    ensures var parsed := ParseValue(CanonicalHash(v).value);
            parsed.Some? && parsed.value.1 == [] && KeysRise(parsed.value.0)
  {
    RoundTrip(v);
    NormalRises(v);
  }

  /**
    * How long each escape is. With the round trip this leaves one way to write a text: the two-letter
    * escapes where there is one, six letters for other control characters and for lone surrogates.
    */
  lemma {:induction false} EscapeLengths(u: CodeUnit)
    ensures |EscapeUnit(u)| == if u in {8, 9, 10, 12, 13, 34, 92} then 2
                               else if u < 32 || 0xD800 <= u <= 0xDFFF then 6 else 1
  {
  }

  /** The unit is half of a surrogate pair of the text. */
  ghost predicate Paired(s: Text, i: nat)
    requires i < |s|
  {
    || (0xD800 <= s[i] <= 0xDBFF && i + 1 < |s| && 0xDC00 <= s[i + 1] <= 0xDFFF)
    || (0xDC00 <= s[i] <= 0xDFFF && i > 0 && 0xD800 <= s[i - 1] <= 0xDBFF)
  }

  /** One letter for each half of a pair, else what its escape takes. */
  ghost function Letters(s: Text, from: nat): nat
    requires from <= |s|
    decreases |s| - from
  {
    if from == |s| then 0 else (if Paired(s, from) then 1 else |EscapeUnit(s[from])|) + Letters(s, from + 1)
  }

  lemma {:induction false} SuffixLetters(s: Text, from: nat)
    requires from <= |s| && (0 < from < |s| ==> !(IsLead(s[from - 1]) && IsTrail(s[from])))
    ensures |Escape(s[from..])| == Letters(s, from)
    decreases |s| - from
  {
    hide EscapeUnit;
    var rest := s[from..];
    if rest != [] {
      if StartsPair(rest) {
        assert rest[2..] == s[from + 2..];
        SuffixLetters(s, from + 2);
      } else {
        assert rest[1..] == s[from + 1..];
        SuffixLetters(s, from + 1);
      }
    }
  }

  /** A pair of surrogates is written as it is, also at the end of a text; only lone ones are escaped. */
  lemma {:induction false} QuotedLength(s: Text)
    ensures |Quote(s)| == Letters(s, 0) + 2
  {
    assert s[0..] == s;
    SuffixLetters(s, 0);
  }

  /** The words and brackets of JSON, in ASCII. */
  lemma {:induction false} WordsAndBrackets()
    ensures Print(Null) == [110, 117, 108, 108] && Print(Bool(true)) == [116, 114, 117, 101]
    ensures Print(Bool(false)) == [102, 97, 108, 115, 101] && PrintInt(-7) == [45, 55] && PrintInt(0) == [48]
    ensures forall n: int :: PrintInt(n)[0] == 45 <==> n < 0
    ensures Print(Arr([])) == [91, 93] && Print(Obj([])) == [123, 125] && Print(Str([])) == [34, 34]
    ensures EscapeUnit(34) == [92, 34] && EscapeUnit(92) == [92, 92] && EscapeUnit(10) == [92, 110]
  {
    forall n: int
      ensures PrintInt(n)[0] == 45 <==> n < 0
    {
    }
  }

  /** Its punctuation: items are set apart by commas, keys from values by colons. */
  lemma {:induction false} Punctuation(v: Value, w: Value, a: Text, b: Text, n: nat)
    requires Printable(v) && Printable(w) && ComesFirst(a, b, n)
    ensures Printable(Arr([v, w])) && Print(Arr([v, w])) == [91] + (Print(v) + [44] + Print(w)) + [93]
    ensures Printable(Obj([Entry(b, w), Entry(a, v)]))
    ensures Print(Obj([Entry(b, w), Entry(a, v)])) ==
            [123] + ((Quote(a) + [58] + Print(v)) + [44] + (Quote(b) + [58] + Print(w))) + [125]
  {
    hide Print, Quote, Before, Printable;
    TwoItems(v, w);
    TwoFields(v, w, a, b, n);
  }

  lemma {:induction false} TwoItems(v: Value, w: Value)
    requires Printable(v) && Printable(w)
    ensures Printable(Arr([v, w])) && Print(Arr([v, w])) == [91] + (Print(v) + [44] + Print(w)) + [93]
  {
    var texts := PrintItems([v, w]);
    assert texts == [Print(v), Print(w)];
    assert texts[1..] == [Print(w)];
    assert JoinItems(texts[1..]) == Print(w);
  }

  lemma {:induction false} ComesFirstBefore(a: Text, b: Text, n: nat)
    requires ComesFirst(a, b, n)
    ensures Before(a, b)
  {
    if n > 0 {
      assert a[..n][0] == b[..n][0];
      assert a[1..][..n - 1] == a[..n][1..] && b[1..][..n - 1] == b[..n][1..];
      ComesFirstBefore(a[1..], b[1..], n - 1);
    }
  }

  lemma {:induction false} SortsTwo<T>(first: Entry<T>, second: Entry<T>)
    requires Before(first.key, second.key)
    ensures SortByKey([second, first]) == [first, second]
  {
    BeforeTrichotomy(first.key, second.key);
    var both, last := [second, first], [first];
    assert both[1..] == last && last[1..] == [];
    assert SortByKey(last) == InsertByKey(first, []);
    assert SortByKey(both) == InsertByKey(second, last);
  }

  lemma {:induction false} TwoFields(v: Value, w: Value, a: Text, b: Text, n: nat)
    requires Printable(v) && Printable(w) && ComesFirst(a, b, n)
    ensures Printable(Obj([Entry(b, w), Entry(a, v)]))
    ensures Print(Obj([Entry(b, w), Entry(a, v)])) ==
            [123] + ((Quote(a) + [58] + Print(v)) + [44] + (Quote(b) + [58] + Print(w))) + [125]
  {
    hide Quote, Before, SortByKey, JoinEntries, Print, Printable, PrintFields, ComesFirst;
    var fields := [Entry(b, w), Entry(a, v)];
    PrintableFields(fields);
    var texts := PrintFields(fields);
    var first, second := Entry(a, Print(v)), Entry(b, Print(w));
    assert texts == [second, first];
    ComesFirstBefore(a, b, n);
    SortsTwo(first, second);
    JoinedTwo(first, second);
    ObjectPrints(fields);
  }

  lemma {:induction false} PrintableFields(fields: seq<Entry<Value>>)
    requires forall i | 0 <= i < |fields| :: Printable(fields[i].value)
    ensures Printable(Obj(fields))
  {
  }

  lemma {:induction false} ObjectPrints(fields: seq<Entry<Value>>)
    requires Printable(Obj(fields))
    ensures Print(Obj(fields)) == [123] + JoinEntries(SortByKey(PrintFields(fields))) + [125]
  {
    hide SortByKey, JoinEntries, PrintFields;
  }

  lemma {:induction false} JoinedTwo(first: Entry<Text>, second: Entry<Text>)
    ensures JoinEntries([first, second]) ==
            (Quote(first.key) + [58] + first.value) + [44] + (Quote(second.key) + [58] + second.value)
  {
    var entries := [first, second];
    assert entries[1..] == [second];
    assert JoinEntries(entries[1..]) == Member(second.key, second.value);
  }
}
