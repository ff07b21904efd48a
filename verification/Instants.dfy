/** `Date.parse` on the instants the schemas admit, field by field, and what it decides. */
module Instants {
  import opened JsValues
  import opened Records
  import opened ProjectionStore
  import opened SupplementRecords
  import opened SupplementStore

  datatype Zone = Utc | Offset(east: bool, hours: nat, minutes: nat)

  datatype Fields = Fields(year: nat, month: nat, day: nat, hour: nat, minute: nat, second: nat,
                           millis: Option<nat>, zone: Zone)

  /** What the schema demands of the fields. */
  ghost predicate Valid(f: Fields) {
    && 1000 <= f.year < 10_000 && 1 <= f.month <= 12 && 1 <= f.day <= MonthLength(f.year, f.month)
    && f.hour < 24 && f.minute < 60 && f.second < 60 && (f.millis.Some? ==> f.millis.value < 1000)
    && (f.zone.Offset? ==> f.zone.minutes < 60 && (f.zone.hours < 14 || (f.zone.hours == 14 && f.zone.minutes == 0)))
  }

  /** The last decimal digit. */
  function Digit(n: nat): CodeUnit { 48 + n % 10 }

  /** yyyy-mm-ddThh:mm:ss */
  function LocalText(f: Fields): Text {
    [Digit(f.year / 1000), Digit(f.year / 100), Digit(f.year / 10), Digit(f.year), 45,
     Digit(f.month / 10), Digit(f.month), 45, Digit(f.day / 10), Digit(f.day), 84,
     Digit(f.hour / 10), Digit(f.hour), 58, Digit(f.minute / 10), Digit(f.minute), 58,
     Digit(f.second / 10), Digit(f.second)]
  }

  function MillisText(millis: Option<nat>): Text {
    if millis.None? then [] else [46, Digit(millis.value / 100), Digit(millis.value / 10), Digit(millis.value)]
  }

  /** Z, or +hh:mm east and -hh:mm west of Greenwich. */
  function ZoneText(zone: Zone): Text {
    match zone
    case Utc => [90]
    case Offset(east, hours, minutes) =>
      [if east then 43 else 45, Digit(hours / 10), Digit(hours), 58, Digit(minutes / 10), Digit(minutes)]
  }

  function TextOf(f: Fields): Text { LocalText(f) + MillisText(f.millis) + ZoneText(f.zone) }

  /** How far the zone's clocks are ahead, in minutes. */
  function Ahead(zone: Zone): int {
    match zone
    case Utc => 0
    case Offset(east, hours, minutes) => if east then 60 * hours + minutes else -(60 * hours + minutes)
  }

  /** Milliseconds since 1970-01-01T00:00:00Z. */
  function MillisOf(f: Fields): int {
    86_400_000 * DaysFromCivil(f.year, f.month, f.day) + 3_600_000 * f.hour + 60_000 * f.minute + 1000 * f.second
      + (if f.millis.Some? then f.millis.value else 0) - 60_000 * Ahead(f.zone)
  }

  lemma {:induction false} TwoDigits(t: Text, from: nat, n: nat)
    requires from + 2 <= |t| && n < 100 && t[from] == Digit(n / 10) && t[from + 1] == Digit(n)
    ensures DigitsAt(t, from, 2) == n
  {
    assert DigitsAt(t, from, 1) == 10 * DigitsAt(t, from, 0) + t[from] - 48;
  }

  lemma {:induction false} ThreeDigits(t: Text, from: nat, n: nat)
    requires from + 3 <= |t| && n < 1000
    requires t[from] == Digit(n / 100) && t[from + 1] == Digit(n / 10) && t[from + 2] == Digit(n)
    ensures DigitsAt(t, from, 3) == n
  {
    TwoDigits(t, from, n / 10);
  }

  lemma {:induction false} FourDigits(t: Text, from: nat, n: nat)
    requires from + 4 <= |t| && n < 10_000 && t[from] == Digit(n / 1000)
    requires t[from + 1] == Digit(n / 100) && t[from + 2] == Digit(n / 10) && t[from + 3] == Digit(n)
    ensures DigitsAt(t, from, 4) == n
  {
    ThreeDigits(t, from, n / 10);
  }

  lemma {:induction false} LocalDigits(f: Fields, t: Text)
    requires Valid(f) && LocalText(f) <= t
    ensures DigitsAt(t, 0, 4) == f.year && DigitsAt(t, 5, 2) == f.month && DigitsAt(t, 8, 2) == f.day
    ensures DigitsAt(t, 11, 2) == f.hour && DigitsAt(t, 14, 2) == f.minute && DigitsAt(t, 17, 2) == f.second
  {
    hide Digit, DigitsAt;
    assert forall i | 0 <= i < 19 :: t[i] == LocalText(f)[i];
    FourDigits(t, 0, f.year);
    TwoDigits(t, 5, f.month);
    TwoDigits(t, 8, f.day);
    TwoDigits(t, 11, f.hour);
    TwoDigits(t, 14, f.minute);
    TwoDigits(t, 17, f.second);
  }

  ghost function ZoneAt(f: Fields): nat { if f.millis.Some? then 23 else 19 }

  /** Where the zone stands in the text, and what stands before it. */
  lemma {:induction false} TextParts(f: Fields)
    ensures var t, zone := TextOf(f), ZoneAt(f);
            && LocalText(f) <= t && |t| == zone + |ZoneText(f.zone)|
            && (forall i | 0 <= i < |ZoneText(f.zone)| :: t[zone + i] == ZoneText(f.zone)[i])
            && (f.millis.Some? ==> forall i | 0 <= i < 4 :: t[19 + i] == MillisText(f.millis)[i])
  {
    hide LocalText, Digit;
    LocalLength(f);
  }

  lemma {:induction false} MillisDigits(f: Fields)
    requires Valid(f)
    ensures var t := TextOf(f);
            && |t| > 19 && (t[19] == 46 <==> f.millis.Some?)
            && (f.millis.Some? ==> |t| > 23 && DigitsAt(t, 20, 3) == f.millis.value)
  {
    hide LocalText, Digit, TextOf, DigitsAt;
    TextParts(f);
    var t := TextOf(f);
    if f.millis.Some? {
      assert t[19 + 0] == MillisText(f.millis)[0] && t[19 + 1] == MillisText(f.millis)[1];
      assert t[19 + 2] == MillisText(f.millis)[2] && t[19 + 3] == MillisText(f.millis)[3];
      ThreeDigits(t, 20, f.millis.value);
    } else {
      assert t[ZoneAt(f) + 0] == ZoneText(f.zone)[0];
    }
  }

  lemma {:induction false} ZoneDigits(f: Fields)
    requires Valid(f)
    ensures var t, zone := TextOf(f), ZoneAt(f);
            && (|t| >= zone + 6 <==> f.zone.Offset?) && |t| > zone
            && (f.zone.Offset? ==>
                  && (t[zone] == 45 <==> !f.zone.east)
                  && DigitsAt(t, zone + 1, 2) == f.zone.hours && DigitsAt(t, zone + 4, 2) == f.zone.minutes)
  {
    hide LocalText, Digit, TextOf, DigitsAt;
    TextParts(f);
    var t, zone := TextOf(f), ZoneAt(f);
    if f.zone.Offset? {
      var text := ZoneText(f.zone);
      assert t[zone + 0] == text[0] && t[zone + 1] == text[1] && t[zone + 2] == text[2];
      assert t[zone + 4] == text[4] && t[zone + 5] == text[5];
      TwoDigits(t, zone + 1, f.zone.hours);
      TwoDigits(t, zone + 4, f.zone.minutes);
    }
  }

  /** Reading the text gives the instant its fields name. */
  lemma {:induction false} EpochOfFields(f: Fields)
    requires Valid(f)
    ensures Epoch(TextOf(f)) == MillisOf(f)
  {
    hide DaysFromCivil, DigitsAt, LocalText, Digit, TextOf;
    TextParts(f);
    LocalDigits(f, TextOf(f));
    MillisDigits(f);
    ZoneDigits(f);
  }

  lemma {:induction false} LocalLength(f: Fields)
    ensures |LocalText(f)| == 19
  {
  }

  /**
    * The zone moves an instant the right way: the same local time west of Greenwich is later, east of
    * it earlier; a second, minute, hour or day more is that much later; the epoch is 0.
    */
  lemma {:induction false} InstantsMove(f: Fields)
    requires Valid(f)
    ensures f.zone.Offset? ==>
              var utc, minutes := Epoch(TextOf(f.(zone := Utc))), 60 * f.zone.hours + f.zone.minutes;
              Epoch(TextOf(f)) == if f.zone.east then utc - minutes * 60_000 else utc + minutes * 60_000
    ensures f.second < 59 ==> Epoch(TextOf(f.(second := f.second + 1))) == Epoch(TextOf(f)) + 1000
    ensures f.minute < 59 ==> Epoch(TextOf(f.(minute := f.minute + 1))) == Epoch(TextOf(f)) + 60_000
    ensures f.hour < 23 ==> Epoch(TextOf(f.(hour := f.hour + 1))) == Epoch(TextOf(f)) + 3_600_000
    ensures f.millis.Some? ==> Epoch(TextOf(f)) == Epoch(TextOf(f.(millis := None))) + f.millis.value
    ensures var next := NextDay(f.year, f.month, f.day);
            next.0 < 10_000 ==>
              0 <= next.1 && 0 <= next.2 &&
              Epoch(TextOf(f.(year := next.0, month := next.1, day := next.2))) == Epoch(TextOf(f)) + 86_400_000
    ensures Epoch(TextOf(Fields(1970, 1, 1, 0, 0, 0, None, Utc))) == 0
  {
    hide TextOf, Epoch, DaysFromCivil;
    EpochOfFields(f);
    if f.zone.Offset? {
      EpochOfFields(f.(zone := Utc));
    }
    if f.second < 59 {
      EpochOfFields(f.(second := f.second + 1));
    }
    if f.minute < 59 {
      EpochOfFields(f.(minute := f.minute + 1));
    }
    if f.hour < 23 {
      EpochOfFields(f.(hour := f.hour + 1));
    }
    EpochOfFields(f.(millis := None));
    var next := NextDay(f.year, f.month, f.day);
    DaysAreCounted(f.year, f.month, f.day);
    if next.0 < 10_000 {
      EpochOfFields(f.(year := next.0, month := next.1, day := next.2));
    }
    FirstDay();
    EpochOfFields(Fields(1970, 1, 1, 0, 0, 0, None, Utc));
  }

  /**
    * A supplement that is new in every key, and whose event is stored with the same decision hash, is
    * linked if the two instants are the same, and refused as divergent if they are not, however
    * either of them is written.
    */
  lemma {:induction false} InstantDecides(events: set<EventRow>, t: SupplementTables, b: SupplementBatch,
                                          event: EventRow, f: Fields, g: Fields)
    requires UniqueLinks(events) && ParsedSupplements(b) && |b.supplements| == 1
    requires forall r | r in t.batches :: r.batchId != b.batchId && r.idempotencyKey != b.idempotencyKey
    requires var s := b.supplements[0];
             && event in events && event.projectId == s.projectId && event.entityId == s.entityId
             && event.revision == s.revision && event.envelope.policy.decisionHash == s.decisionHash
             && event.envelope.occurredAt == TextOf(f) && s.occurredAt == TextOf(g) && Valid(f) && Valid(g)
             && forall r | r in t.supplements ::
                  r.supplementId != s.supplementId && r.idempotencyKey != s.idempotencyKey &&
                  (r.projectId, r.entityId, r.revision) != (s.projectId, s.entityId, s.revision)
    ensures Linkage(events, t, b).1 ==
            if MillisOf(f) == MillisOf(g) then Accepted(1, 0, false, b.batchHash) else Conflict
  {
    hide Epoch, TextOf, MillisOf, ParsedSupplements, SupplementRowOf, SupplementBatchRowOf, UniqueLinks, Valid;
    var s := b.supplements[0];
    EpochOfFields(f);
    EpochOfFields(g);
    LinkedIsUnique(events, s, event);
    assert b.supplements == [s] && b.supplements[..0] == [];
    assert PriorSupplementBatches(t.batches, b) == {} && SupplementMatches(t.supplements, s) == {};
    var start := Linking(t.supplements, 0, 0);
    assert LinkAll(events, start, b.supplements) == LinkStep(events, start, s);
  }
}
