/** The JSON text of one event: its fields, and what is not left out as a default. */
module EventPrinter {
  import opened Bytes
  import opened Json
  import opened JsonStrings
  import opened JsonEscape
  import opened FieldPrinter
  import opened Sequences

  const DATA: Text := [100, 97, 116, 97]
  const SAMPLERATE: Text := [115, 97, 109, 112, 108, 101, 114, 97, 116, 101]
  const TIME: Text := [116, 105, 109, 101]

  function Decimal(n: nat): (t: Text)
  {
    if n < 10 then [48 + n] else Decimal(n / 10) + [48 + n % 10]
  }

  function ReadDecimal(t: Text): nat
    requires AllDigits(t)
  {
    if t == [] then 0 else 10 * ReadDecimal(t[..|t| - 1]) + (t[|t| - 1] - 48)
  }

  lemma {:induction false} DigitRunOfDigits(t: Text)
    requires AllDigits(t)
    ensures DigitRun(t) == |t|
  {
    if t != [] {
      DigitRunOfDigits(t[1..]);
    }
  }

  lemma {:induction false} DecimalReads(n: nat)
    ensures var t := Decimal(n);
            t != [] && AllDigits(t) && ReadDecimal(t) == n && (t[0] == 48 <==> n == 0) && (n == 0 ==> |t| == 1)
  {
    if n < 10 {
      assert Decimal(n)[..0] == [];
    } else {
      DecimalReads(n / 10);
      assert Decimal(n)[..|Decimal(n)| - 1] == Decimal(n / 10);
    }
  }

  lemma DecimalIsNumber(n: nat)
    ensures IsNumber(Decimal(n))
  {
    DecimalReads(n);
    DigitRunOfDigits(Decimal(n));
    var t := Decimal(n);
    assert t[..|t|] == t && t[|t|..] == [];
  }

  /** An event as it is printed: the print of its fields, its sample rate, and its time
      as text unless it is zero. */
  datatype Printable = Printable(fields: Text, sampleRate: nat, time: Option<Text>)

  function TimeText(t: Text): Text { [QUOTE] + Escape(t) + [QUOTE] }

  /** A rate of one is the default and is left out like zero; so is a zero time. The
      print of the fields is escaped on its way in. */
  function EventEntries(e: Printable): seq<Entry>
  {
    [Entry(DATA, Escape(e.fields))] +
    (if e.sampleRate <= 1 then [] else [Entry(SAMPLERATE, Decimal(e.sampleRate))]) +
    (if e.time.None? then [] else [Entry(TIME, TimeText(e.time.value))])
  }

  function MarshalEvent(e: Printable): Text
  {
    PrintEntries(EventEntries(e))
  }

  /** What a reader makes of the members of an event: a missing rate is one. The fields
      are read with their names and strings decoded. */
  predicate ReadAs(fields: map<Text, Value>, data: Value, rate: nat, time: Option<Text>)
  {
    DATA in fields && SameMeaning(data, fields[DATA]) &&
    (if SAMPLERATE in fields then
       fields[SAMPLERATE].Number? && AllDigits(fields[SAMPLERATE].raw) && ReadDecimal(fields[SAMPLERATE].raw) == rate
     else rate == 1) &&
    (if TIME in fields then
       fields[TIME].String? && IsStringBody(fields[TIME].raw) && time == Some(Decode(fields[TIME].raw))
     else time == None)
  }

  predicate Readable(e: Printable)
  {
    IsText(e.fields) && (e.time.Some? ==> IsPlain(e.time.value))
  }

  lemma NamesDiffer()
    ensures DATA != SAMPLERATE && SAMPLERATE != TIME && DATA != TIME
    ensures IsPlain(DATA) && IsPlain(SAMPLERATE) && IsPlain(TIME)
  {
    assert |DATA| == 4 && |SAMPLERATE| == 10 && |TIME| == 4 && DATA[0] != TIME[0];
  }

  lemma RateText(n: nat)
    ensures Parse(Decimal(n)) == Some(Number(Decimal(n)))
  {
    DecimalIsNumber(n);
    ParsePrint(Number(Decimal(n)));
  }

  lemma TimeReads(t: Text)
    requires IsPlain(t)
    ensures IsStringBody(Escape(t)) && Decode(Escape(t)) == t
    ensures Parse(TimeText(t)) == Some(String(Escape(t)))
  {
    PlainIsItself(t);
    DecodeEscaped(t);
    ParsePrint(String(Escape(t)));
  }

  lemma OneMoreReadable(es: seq<Entry>, e: Entry)
    requires JsonTexts(es) && PlainKeys(es) && DistinctKeys(es)
    requires IsText(e.text) && IsPlain(e.key) && forall i :: 0 <= i < |es| ==> es[i].key != e.key
    ensures JsonTexts(es + [e]) && PlainKeys(es + [e]) && DistinctKeys(es + [e])
  {
  }

  lemma EntriesReadable(e: Printable)
    requires Readable(e)
    ensures JsonTexts(EventEntries(e)) && PlainKeys(EventEntries(e)) && DistinctKeys(EventEntries(e))
  {
    NamesDiffer();
    EscapedReads(e.fields);
    var es := [Entry(DATA, Escape(e.fields))];
    if e.sampleRate > 1 {
      RateText(e.sampleRate);
      OneMoreReadable(es, Entry(SAMPLERATE, Decimal(e.sampleRate)));
      es := es + [Entry(SAMPLERATE, Decimal(e.sampleRate))];
    }
    if e.time.Some? {
      TimeReads(e.time.value);
      OneMoreReadable(es, Entry(TIME, TimeText(e.time.value)));
      es := es + [Entry(TIME, TimeText(e.time.value))];
    }
    assert es == EventEntries(e);
  }

  /** The text of an event reads back as its fields, its rate, with zero read as one,
      and its time. */
  lemma EventReadsBack(e: Printable)
    requires Readable(e)
    ensures var v := Parse(MarshalEvent(e));
            v.Some? && v.value.Object? && Named(v.value.members) &&
            ReadAs(AsMap(v.value.members), Parse(e.fields).value, if e.sampleRate == 0 then 1 else e.sampleRate, e.time)
  {
    var es := EventEntries(e);
    EntriesReadable(e);
    ReadsBackIff(es);
    var ms :| Parse(MarshalEvent(e)) == Some(Object(ms)) && SameFields(ms, es);
    MapOfFields(ms, es);
    MapReads(AsMap(ms), e);
  }

  /** Which members an event has. */
  lemma EventKeys(e: Printable)
    ensures var es := EventEntries(e);
            Entry(DATA, Escape(e.fields)) in es &&
            (if e.sampleRate > 1 then Entry(SAMPLERATE, Decimal(e.sampleRate)) in es else !HasKey(es, SAMPLERATE)) &&
            (if e.time.Some? then Entry(TIME, TimeText(e.time.value)) in es else !HasKey(es, TIME))
  {
    NamesDiffer();
    var es := EventEntries(e);
    assert es[0] == Entry(DATA, Escape(e.fields));
    if e.sampleRate > 1 {
      assert es[1] == Entry(SAMPLERATE, Decimal(e.sampleRate));
    }
    if e.time.Some? {
      assert es[|es| - 1] == Entry(TIME, TimeText(e.time.value));
    }
  }

  lemma InMap(fields: map<Text, Value>, es: seq<Entry>, e: Entry)
    requires JsonTexts(es) && MapHolds(fields, es) && e in es
    ensures EntryIn(fields, e)
  {
  }

  lemma NotInMap(fields: map<Text, Value>, es: seq<Entry>, k: Text)
    requires JsonTexts(es) && MapHolds(fields, es) && !HasKey(es, k)
    ensures k !in fields
  {
  }

  lemma MapReads(fields: map<Text, Value>, e: Printable)
    requires Readable(e) && JsonTexts(EventEntries(e)) && MapHolds(fields, EventEntries(e))
    ensures ReadAs(fields, Parse(e.fields).value, if e.sampleRate == 0 then 1 else e.sampleRate, e.time)
  {
    var es := EventEntries(e);
    EventKeys(e);
    InMap(fields, es, Entry(DATA, Escape(e.fields)));
    EscapedReads(e.fields);
    if e.sampleRate > 1 {
      InMap(fields, es, Entry(SAMPLERATE, Decimal(e.sampleRate)));
      RateText(e.sampleRate);
      DecimalReads(e.sampleRate);
    } else {
      NotInMap(fields, es, SAMPLERATE);
    }
    if e.time.Some? {
      InMap(fields, es, Entry(TIME, TimeText(e.time.value)));
      TimeReads(e.time.value);
    } else {
      NotInMap(fields, es, TIME);
    }
  }

  /** Two events print alike exactly when their fields do once escaped, their times agree,
      and their rates agree or are both left out. Then the fields mean the same. */
  lemma SameTextIff(a: Printable, b: Printable)
    requires Readable(a) && Readable(b)
    ensures MarshalEvent(a) == MarshalEvent(b) <==>
            Escape(a.fields) == Escape(b.fields) && a.time == b.time &&
            (a.sampleRate == b.sampleRate || (a.sampleRate <= 1 && b.sampleRate <= 1))
  {
    EventReadsBack(a);
    EventReadsBack(b);
    if MarshalEvent(a) == MarshalEvent(b) {
      DataReads(a);
      DataReads(b);
      ParseIffPrinted(Escape(a.fields), Parse(Escape(a.fields)).value);
      ParseIffPrinted(Escape(b.fields), Parse(Escape(b.fields)).value);
    } else if Escape(a.fields) == Escape(b.fields) && a.time == b.time {
      if a.sampleRate == b.sampleRate || (a.sampleRate <= 1 && b.sampleRate <= 1) {
        SameEntries(a, b);
      }
    }
  }

  lemma SameEntries(a: Printable, b: Printable)
    requires Escape(a.fields) == Escape(b.fields) && a.time == b.time
    requires a.sampleRate == b.sampleRate || (a.sampleRate <= 1 && b.sampleRate <= 1)
    ensures EventEntries(a) == EventEntries(b)
  {
  }

  /** The data member is the escaped print of the fields. */
  lemma DataReads(e: Printable)
    requires Readable(e)
    ensures var v := Parse(MarshalEvent(e));
            v.Some? && v.value.Object? && Named(v.value.members) && DATA in AsMap(v.value.members) &&
            Some(AsMap(v.value.members)[DATA]) == Parse(Escape(e.fields))
  {
    var es := EventEntries(e);
    EntriesReadable(e);
    ReadsBackIff(es);
    var ms :| Parse(MarshalEvent(e)) == Some(Object(ms)) && SameFields(ms, es);
    MapOfFields(ms, es);
    InMap(AsMap(ms), es, es[0]);
  }

  /** Fields under a less-than sign, and under the six bytes that escape one. */
  const PLAIN_KEY: Text := [60]
  const SPELLED_KEY: Text := [BACKSLASH, 117, 48, 48, 51, 99]

  const FRONT: Text := [OPEN_BRACE, QUOTE]
  const BACK: Text := [QUOTE, COLON, 49, CLOSE_BRACE]

  lemma OneFieldText(key: Text)
    ensures PrintEntries([Entry(key, [49])]) == FRONT + (key + BACK)
  {
    OneEntry(Entry(key, [49]));
    assert [OPEN_BRACE] + ([QUOTE] + key + [QUOTE, COLON] + [49]) + [CLOSE_BRACE] == FRONT + (key + BACK);
  }

  lemma KeysEscapeAlike(rest: Text)
    ensures Escape(PLAIN_KEY + rest) == Escape(SPELLED_KEY + rest)
  {
    CalmStays(SPELLED_KEY, rest);
    assert (PLAIN_KEY + rest)[1..] == rest;
    assert SpecialEscape(60) == SPELLED_KEY;
  }

  lemma SpelledEscapes(rest: Text)
    ensures Escape(FRONT + (PLAIN_KEY + rest)) == Escape(FRONT + (SPELLED_KEY + rest))
  {
    CalmStays(FRONT, PLAIN_KEY + rest);
    CalmStays(FRONT, SPELLED_KEY + rest);
    KeysEscapeAlike(rest);
  }

  lemma DifferentTexts()
    ensures FRONT + (PLAIN_KEY + BACK) != FRONT + (SPELLED_KEY + BACK)
  {
    assert |FRONT + (PLAIN_KEY + BACK)| == 7 && |FRONT + (SPELLED_KEY + BACK)| == 12;
  }

  /** Different prints of fields can make one event. */
  lemma SpelledAlike(rate: nat, time: Option<Text>)
    ensures var a, b := PrintEntries([Entry(PLAIN_KEY, [49])]), PrintEntries([Entry(SPELLED_KEY, [49])]);
            a != b && MarshalEvent(Printable(a, rate, time)) == MarshalEvent(Printable(b, rate, time))
  {
    var a, b := FRONT + (PLAIN_KEY + BACK), FRONT + (SPELLED_KEY + BACK);
    OneFieldText(PLAIN_KEY);
    OneFieldText(SPELLED_KEY);
    DifferentTexts();
    SpelledEscapes(BACK);
    SameEntries(Printable(a, rate, time), Printable(b, rate, time));
  }

  /** "data": and "samplerate": and "time": in bytes. */
  const DATA_NAME: Text := [34, 100, 97, 116, 97, 34, 58]
  const RATE_NAME: Text := [34, 115, 97, 109, 112, 108, 101, 114, 97, 116, 101, 34, 58]
  const TIME_NAME: Text := [34, 116, 105, 109, 101, 34, 58]

  lemma NamesInBytes(t: Text)
    ensures EntryText(Entry(DATA, t)) == DATA_NAME + t
    ensures EntryText(Entry(SAMPLERATE, t)) == RATE_NAME + t
    ensures EntryText(Entry(TIME, t)) == TIME_NAME + t
  {
    assert [QUOTE] + DATA + [QUOTE, COLON] == DATA_NAME;
    assert [QUOTE] + SAMPLERATE + [QUOTE, COLON] == RATE_NAME;
    assert [QUOTE] + TIME + [QUOTE, COLON] == TIME_NAME;
  }

  /** What stands behind the fields: a rate above one and a time, each after a comma. */
  function RateInBytes(rate: nat): Text
  {
    if rate > 1 then [44] + (RATE_NAME + Decimal(rate)) else []
  }

  function TimeInBytes(time: Option<Text>): Text
  {
    if time.Some? then [44] + (TIME_NAME + ([34] + Escape(time.value) + [34])) else []
  }

  lemma Assemble(data: Text, rate: Text, time: Text)
    ensures [123] + ((data + rate) + time) + [125] == [123] + data + rate + time + [125]
  {
  }

  lemma JoinMore(es: seq<Entry>, e: Entry)
    requires es != []
    ensures Join(EntryTexts(es + [e])) == Join(EntryTexts(es)) + ([44] + EntryText(e))
  {
    EntryTextsMore(es, e);
    Regroup(Join(EntryTexts(es)), [COMMA], EntryText(e));
  }

  /** The text of an event, in bytes. */
  lemma EventInBytes(e: Printable)
    ensures MarshalEvent(e) ==
            [123] + (DATA_NAME + Escape(e.fields)) + RateInBytes(e.sampleRate) + TimeInBytes(e.time) + [125]
  {
    var es := [Entry(DATA, Escape(e.fields))];
    OneEntry(es[0]);
    NamesInBytes(Escape(e.fields));
    var data := DATA_NAME + Escape(e.fields);
    if e.sampleRate > 1 {
      NamesInBytes(Decimal(e.sampleRate));
      JoinMore(es, Entry(SAMPLERATE, Decimal(e.sampleRate)));
      es := es + [Entry(SAMPLERATE, Decimal(e.sampleRate))];
    } else {
      assert data + [] == data;
    }
    assert Join(EntryTexts(es)) == data + RateInBytes(e.sampleRate);
    if e.time.Some? {
      NamesInBytes(TimeText(e.time.value));
      JoinMore(es, Entry(TIME, TimeText(e.time.value)));
      es := es + [Entry(TIME, TimeText(e.time.value))];
    } else {
      assert data + RateInBytes(e.sampleRate) + [] == data + RateInBytes(e.sampleRate);
    }
    assert es == EventEntries(e);
    Assemble(data, RateInBytes(e.sampleRate), TimeInBytes(e.time));
  }

  lemma {:induction false} DigitsAreCalm(n: nat)
    ensures IsCalm(Decimal(n))
  {
    if n >= 10 {
      DigitsAreCalm(n / 10);
    }
  }

  lemma EscapedEntry(key: Text, text: Text)
    requires IsCalm(key) && Escape(text) == text
    ensures IsEscaped(Entry(key, text))
  {
    var front := [QUOTE] + key + [QUOTE, COLON];
    assert EntryText(Entry(key, text)) == front + text;
    CalmStays(front, text);
  }

  predicate IsEscaped(e: Entry) { Escape(EntryText(e)) == EntryText(e) }

  predicate AllEscaped(es: seq<Entry>) { Escape(Join(EntryTexts(es))) == Join(EntryTexts(es)) }

  lemma RateEscaped(n: nat)
    ensures IsEscaped(Entry(SAMPLERATE, Decimal(n)))
  {
    DigitsAreCalm(n);
    CalmIsItself(Decimal(n));
    EscapedEntry(SAMPLERATE, Decimal(n));
  }

  lemma TimeEscaped(t: Text)
    ensures IsEscaped(Entry(TIME, TimeText(t)))
  {
    EscapeEnclosed(QUOTE, Escape(t), QUOTE);
    EscapeTwice(t);
    EscapedEntry(TIME, TimeText(t));
  }

  lemma DataEscaped(fields: Text)
    ensures IsEscaped(Entry(DATA, Escape(fields)))
  {
    EscapeTwice(fields);
    EscapedEntry(DATA, Escape(fields));
  }

  /** The text of an event is escaped throughout, so that the encoder, which escapes it
      once more on the way into a batch, leaves it as it is. */
  lemma EventIsEscaped(e: Printable)
    ensures Escape(MarshalEvent(e)) == MarshalEvent(e)
  {
    var es := [Entry(DATA, Escape(e.fields))];
    DataEscaped(e.fields);
    OneEntry(es[0]);
    if e.sampleRate > 1 {
      RateEscaped(e.sampleRate);
      OneMoreEscaped(es, Entry(SAMPLERATE, Decimal(e.sampleRate)));
      es := es + [Entry(SAMPLERATE, Decimal(e.sampleRate))];
    }
    if e.time.Some? {
      TimeEscaped(e.time.value);
      OneMoreEscaped(es, Entry(TIME, TimeText(e.time.value)));
      es := es + [Entry(TIME, TimeText(e.time.value))];
    }
    assert es == EventEntries(e);
    EscapeEnclosed(OPEN_BRACE, Join(EntryTexts(es)), CLOSE_BRACE);
  }

  lemma OneEntry(e: Entry)
    ensures Join(EntryTexts([e])) == EntryText(e)
  {
  }

  lemma OneMoreEscaped(es: seq<Entry>, e: Entry)
    requires es != [] && AllEscaped(es) && IsEscaped(e)
    ensures AllEscaped(es + [e])
  {
    EntryTextsMore(es, e);
    AfterComma(Join(EntryTexts(es)), EntryText(e));
  }
}
