/** The escaping that an HTML-safe JSON encoder applies to texts it passes on, and that
    it changes no value's meaning. */
module JsonEscape {
  import opened Bytes
  import opened Json
  import opened JsonStrings
  import opened Sequences

  /** Less-than, greater-than and ampersand. */
  predicate IsSpecial(b: Byte) { b in {60, 62, 38} }

  function HexDigit(d: nat): Byte
    requires d < 16
  {
    if d < 10 then 48 + d else 87 + d
  }

  function SpecialEscape(b: Byte): Text
  {
    [BACKSLASH, 117, 48, 48, HexDigit(b / 16), HexDigit(b % 16)]
  }

  /** The line separators U+2028 and U+2029, in UTF-8. */
  predicate StartsSeparator(t: Text)
  {
    |t| >= 3 && t[0] == 0xE2 && t[1] == 0x80 && t[2] in {0xA8, 0xA9}
  }

  function SeparatorEscape(b: Byte): Text
  {
    [BACKSLASH, 117, 50, 48, 50, HexDigit(b % 16)]
  }

  /** The length of what is escaped, or not, as one: a separator or a byte. */
  function FirstLength(t: Text): (n: nat)
    requires t != []
    ensures 1 <= n <= |t|
  {
    if StartsSeparator(t) then 3 else 1
  }

  function FirstEscape(t: Text): Text
    requires t != []
  {
    if IsSpecial(t[0]) then SpecialEscape(t[0])
    else if StartsSeparator(t) then SeparatorEscape(t[2])
    else [t[0]]
  }

  function Escape(t: Text): Text
  {
    if t == [] then [] else FirstEscape(t) + Escape(t[FirstLength(t)..])
  }

  /** Bytes that are never escaped, whatever follows. */
  predicate IsCalm(t: Text)
  {
    forall i :: 0 <= i < |t| ==> !IsSpecial(t[i]) && t[i] < 0x80
  }

  lemma {:induction false} CalmStays(a: Text, b: Text)
    requires IsCalm(a)
    ensures Escape(a + b) == a + Escape(b)
  {
    if a == [] {
      assert a + b == b;
    } else {
      CalmStays(a[1..], b);
      assert (a + b)[1..] == a[1..] + b;
      assert FirstEscape(a + b) == [a[0]] && FirstLength(a + b) == 1;
      Regroup([a[0]], a[1..], Escape(b));
      assert a == [a[0]] + a[1..];
    }
  }

  lemma CalmIsItself(a: Text)
    requires IsCalm(a)
    ensures Escape(a) == a
  {
    CalmStays(a, []);
    assert a + [] == a;
  }

  /** Texts can be escaped apart where the second starts with an ASCII byte. */
  lemma {:induction false} EscapeConcat(a: Text, b: Text)
    requires b == [] || b[0] < 0x80
    ensures Escape(a + b) == Escape(a) + Escape(b)
    decreases |a|
  {
    if a == [] {
      assert a + b == b;
    } else {
      var n := FirstLength(a);
      assert StartsSeparator(a + b) <==> StartsSeparator(a);
      assert (a + b)[n..] == a[n..] + b;
      EscapeConcat(a[n..], b);
      Regroup(FirstEscape(a), Escape(a[n..]), Escape(b));
    }
  }

  lemma EscapeWhole(t: Text)
    requires t != [] && FirstLength(t) == |t|
    ensures Escape(t) == FirstEscape(t)
  {
    assert t[|t|..] == [];
  }

  /** What is escaped, and how. */
  lemma EscapeForms()
    ensures Escape([60]) == [92, 117, 48, 48, 51, 99]
    ensures Escape([62]) == [92, 117, 48, 48, 51, 101]
    ensures Escape([38]) == [92, 117, 48, 48, 50, 54]
    ensures Escape([0xE2, 0x80, 0xA8]) == [92, 117, 50, 48, 50, 56]
    ensures Escape([0xE2, 0x80, 0xA9]) == [92, 117, 50, 48, 50, 57]
  {
    EscapeWhole([60]);
    EscapeWhole([62]);
    EscapeWhole([38]);
    EscapeWhole([0xE2, 0x80, 0xA8]);
    EscapeWhole([0xE2, 0x80, 0xA9]);
  }

  predicate SeparatorAt(t: Text, i: nat)
  {
    i + 2 < |t| && t[i] == 0xE2 && t[i + 1] == 0x80 && (t[i + 2] == 0xA8 || t[i + 2] == 0xA9)
  }

  /** And nothing else: a text without these is left alone. */
  lemma {:induction false} OthersStay(t: Text)
    requires forall i :: 0 <= i < |t| ==> t[i] != 60 && t[i] != 62 && t[i] != 38
    requires forall i :: 0 <= i < |t| ==> !SeparatorAt(t, i)
    ensures Escape(t) == t
  {
    if t != [] {
      forall i | 0 <= i < |t[1..]| ensures !SeparatorAt(t[1..], i) {
        assert !SeparatorAt(t, i + 1);
      }
      assert !SeparatorAt(t, 0);
      OthersStay(t[1..]);
    }
  }

  // ---- string bodies ----

  lemma EscapeLengthIsCalm(t: Text)
    requires t != [] && t[0] == BACKSLASH && EscapeLength(t) > 0
    ensures IsCalm(t[..EscapeLength(t)])
  {
  }

  lemma SameEscapeLength(t: Text, u: Text)
    requires t != [] && t[0] == BACKSLASH && EscapeLength(t) > 0 && t[..EscapeLength(t)] <= u
    ensures u != [] && u[0] == BACKSLASH && EscapeLength(u) == EscapeLength(t)
    ensures EscapeLength(t) == 6 ==> CodeUnit(u) == CodeUnit(t)
  {
    var n := EscapeLength(t);
    assert u[..n] == t[..n];
    assert forall i :: 0 <= i < n ==> u[i] == t[..n][i] == t[i];
  }

  lemma SpecialReads(b: Byte, rest: Text)
    requires IsSpecial(b)
    ensures var u := SpecialEscape(b) + rest;
            EscapeLength(u) == 6 && CodeUnit(u) == b && u[6..] == rest
  {
  }

  lemma SeparatorReads(b: Byte, rest: Text)
    requires b in {0xA8, 0xA9}
    ensures var u := SeparatorEscape(b) + rest;
            EscapeLength(u) == 6 && CodeUnit(u) == 0x2028 + (b - 0xA8) && u[6..] == rest &&
            Utf8(CodeUnit(u)) == [0xE2, 0x80, b]
  {
  }

  /** How the escaped text starts, according to how the text starts. */
  lemma EscapedStart(raw: Text)
    requires raw != [] && IsStringBody(raw)
    ensures raw[0] == BACKSLASH ==>
              var n := EscapeLength(raw);
              n > 0 && Escape(raw) == raw[..n] + Escape(raw[n..]) && Escape(raw)[n..] == Escape(raw[n..]) &&
              EscapeLength(Escape(raw)) == n && (n == 6 ==> CodeUnit(Escape(raw)) == CodeUnit(raw))
    ensures IsSpecial(raw[0]) ==> Escape(raw) == SpecialEscape(raw[0]) + Escape(raw[1..])
    ensures StartsSeparator(raw) ==> Escape(raw) == SeparatorEscape(raw[2]) + Escape(raw[3..])
    ensures raw[0] != BACKSLASH && !IsSpecial(raw[0]) && !StartsSeparator(raw) ==>
              Escape(raw) == [raw[0]] + Escape(raw[1..])
  {
    if raw[0] == BACKSLASH {
      var n := EscapeLength(raw);
      EscapeLengthIsCalm(raw);
      CalmStays(raw[..n], raw[n..]);
      assert raw == raw[..n] + raw[n..];
      SameEscapeLength(raw, Escape(raw));
    }
  }

  lemma SeparatorBody(raw: Text)
    requires IsStringBody(raw) && StartsSeparator(raw)
    ensures IsStringBody(raw[3..])
  {
    assert raw[1..][1..][1..] == raw[3..] && raw[1..][1..] == raw[2..];
    assert IsStringBody(raw[1..]) && IsStringBody(raw[2..]);
  }

  lemma {:induction false} EscapedBody(raw: Text)
    requires IsStringBody(raw)
    ensures IsStringBody(Escape(raw))
    decreases |raw|
  {
    if raw != [] {
      EscapedStart(raw);
      if raw[0] == BACKSLASH {
        EscapedBody(raw[EscapeLength(raw)..]);
      } else if IsSpecial(raw[0]) {
        EscapedBody(raw[1..]);
        SpecialReads(raw[0], Escape(raw[1..]));
      } else if StartsSeparator(raw) {
        SeparatorBody(raw);
        EscapedBody(raw[3..]);
        SeparatorReads(raw[2], Escape(raw[3..]));
      } else {
        EscapedBody(raw[1..]);
      }
    }
  }

  /** A text starts with the second half of a surrogate pair. */
  predicate StartsLow(t: Text)
  {
    t != [] && t[0] == BACKSLASH && EscapeLength(t) == 6 && 0xDC00 <= CodeUnit(t) < 0xE000
  }

  /** Escaping makes no second halves, and keeps those that are there. */
  lemma SameLow(rest: Text)
    requires IsStringBody(rest)
    ensures StartsLow(Escape(rest)) <==> StartsLow(rest)
    ensures StartsLow(rest) ==>
              Escape(rest) == rest[..6] + Escape(rest[6..]) && CodeUnit(Escape(rest)) == CodeUnit(rest)
  {
    if rest != [] {
      EscapedStart(rest);
      if IsSpecial(rest[0]) {
        SpecialReads(rest[0], Escape(rest[1..]));
      } else if StartsSeparator(rest) {
        SeparatorReads(rest[2], Escape(rest[3..]));
      }
    }
  }

  lemma PairIsHighAndLow(t: Text)
    requires t != [] && t[0] == BACKSLASH && EscapeLength(t) == 6
    ensures StartsPair(t) <==> 0xD800 <= CodeUnit(t) < 0xDC00 && StartsLow(t[6..])
  {
  }

  lemma JoinPair(raw: Text, tail: Text)
    requires |raw| >= 12
    ensures raw[..6] + (raw[6..][..6] + tail) == raw[..12] + tail
    ensures (raw[..12] + tail)[12..] == tail && raw[6..][6..] == raw[12..]
  {
  }

  /** A first half of a surrogate pair finds the same second half, or none. */
  lemma SamePair(raw: Text)
    requires raw != [] && IsStringBody(raw) && raw[0] == BACKSLASH && EscapeLength(raw) == 6
    ensures EscapeLength(Escape(raw)) == 6 && (StartsPair(Escape(raw)) <==> StartsPair(raw))
    ensures StartsPair(raw) ==>
              Escape(raw)[12..] == Escape(raw[12..]) && CodeUnit(Escape(raw)[6..]) == CodeUnit(raw[6..])
  {
    EscapedStart(raw);
    SameLow(raw[6..]);
    PairIsHighAndLow(raw);
    PairIsHighAndLow(Escape(raw));
    if StartsPair(raw) {
      JoinPair(raw, Escape(raw[6..][6..]));
    }
  }

  /** Escaping changes nothing of what a string body stands for. */
  lemma {:induction false} DecodeEscaped(raw: Text)
    requires IsStringBody(raw)
    ensures IsStringBody(Escape(raw)) && Decode(Escape(raw)) == Decode(raw)
    decreases |raw|
  {
    EscapedBody(raw);
    if raw != [] {
      EscapedStart(raw);
      UnitsFollow(raw);
      if raw[0] == BACKSLASH {
        DecodeEscaped(raw[UnitLength(raw)..]);
        EscapedUnit(raw);
      } else if IsSpecial(raw[0]) {
        DecodeEscaped(raw[1..]);
        SpecialReads(raw[0], Escape(raw[1..]));
      } else if StartsSeparator(raw) {
        SeparatorBody(raw);
        DecodeEscaped(raw[3..]);
        SeparatorReads(raw[2], Escape(raw[3..]));
        DecodeSeparator(raw);
      } else {
        DecodeEscaped(raw[1..]);
      }
    }
  }

  /** Escapes that agree in what they name are the same unit. */
  lemma SameUnit(t: Text, u: Text)
    requires t != [] && IsStringBody(t) && t[0] == BACKSLASH && u != [] && IsStringBody(u) && u[0] == BACKSLASH
    requires EscapeLength(t) == EscapeLength(u) && (EscapeLength(t) == 2 ==> t[1] == u[1])
    requires EscapeLength(t) == 6 ==> CodeUnit(t) == CodeUnit(u) && (StartsPair(t) <==> StartsPair(u))
    requires EscapeLength(t) == 6 && StartsPair(t) ==> CodeUnit(t[6..]) == CodeUnit(u[6..])
    ensures UnitLength(t) == UnitLength(u) && UnitText(t) == UnitText(u)
  {
  }

  lemma EscapedUnit(raw: Text)
    requires raw != [] && IsStringBody(raw) && IsStringBody(Escape(raw)) && raw[0] == BACKSLASH
    ensures Escape(raw) != [] && UnitLength(Escape(raw)) == UnitLength(raw) && UnitText(Escape(raw)) == UnitText(raw)
    ensures Escape(raw)[UnitLength(raw)..] == Escape(raw[UnitLength(raw)..])
  {
    EscapedStart(raw);
    var u := Escape(raw);
    if EscapeLength(raw) == 6 {
      SamePair(raw);
    } else {
      assert u[1] == raw[..2][1];
    }
    SameUnit(raw, u);
  }

  lemma DecodeByte(raw: Text)
    requires raw != [] && IsStringBody(raw) && raw[0] != BACKSLASH
    ensures IsStringBody(raw[1..]) && Decode(raw) == [raw[0]] + Decode(raw[1..])
  {
  }

  lemma DecodeSeparator(raw: Text)
    requires IsStringBody(raw) && StartsSeparator(raw)
    ensures IsStringBody(raw[3..]) && Decode(raw) == [0xE2, 0x80, raw[2]] + Decode(raw[3..])
  {
    DecodeByte(raw);
    DecodeByte(raw[1..]);
    assert raw[1..][1..] == raw[2..];
    DecodeByte(raw[2..]);
    assert raw[2..][1..] == raw[3..];
    Regroup([raw[0]], [raw[1]], [raw[2]] + Decode(raw[3..]));
    Regroup([raw[0]] + [raw[1]], [raw[2]], Decode(raw[3..]));
  }

  // ---- values ----

  function EscapeValue(v: Value): Value
  {
    match v
    case String(raw) => String(Escape(raw))
    case Array(items) => Array(seq(|items|, i requires 0 <= i < |items| => EscapeValue(items[i])))
    case Object(members) =>
      Object(seq(|members|, i requires 0 <= i < |members| =>
        Member(Escape(members[i].name), EscapeValue(members[i].value))))
    case _ => v
  }

  /** Equal up to how strings and names are spelled. */
  predicate SameMeaning(v: Value, w: Value)
    decreases v
  {
    match v
    case String(raw) => w.String? && IsStringBody(raw) && IsStringBody(w.raw) && Decode(raw) == Decode(w.raw)
    case Array(items) =>
      w.Array? && |items| == |w.items| && forall i :: 0 <= i < |items| ==> SameMeaning(items[i], w.items[i])
    case Object(members) =>
      w.Object? && |members| == |w.members| &&
      (forall i :: 0 <= i < |members| ==> SameName(members[i].name, w.members[i].name)) &&
      (forall i :: 0 <= i < |members| ==> SameMeaning(members[i].value, w.members[i].value))
    case _ => v == w
  }

  predicate SameName(a: Text, b: Text) { IsStringBody(a) && IsStringBody(b) && Decode(a) == Decode(b) }

  lemma {:induction false} EscapeKeepsMeaning(v: Value)
    requires WellFormed(v)
    ensures WellFormed(EscapeValue(v)) && SameMeaning(v, EscapeValue(v))
  {
    match v
    case String(raw) => DecodeEscaped(raw);
    case Array(items) =>
      var w := EscapeValue(v);
      forall i | 0 <= i < |items| ensures WellFormed(w.items[i]) && SameMeaning(items[i], w.items[i]) {
        EscapeKeepsMeaning(items[i]);
      }
    case Object(members) =>
      var w := EscapeValue(v);
      forall i | 0 <= i < |members|
        ensures MemberWellFormed(w.members[i]) && SameName(members[i].name, w.members[i].name) &&
                SameMeaning(members[i].value, w.members[i].value)
      {
        DecodeEscaped(members[i].name);
        EscapeKeepsMeaning(members[i].value);
      }
    case _ =>
  }

  lemma EscapeBetween(open: Byte, body: Text, close: Byte, rest: Text)
    requires IsCalm([open]) && IsCalm([close])
    ensures Escape([open] + body + [close] + rest) == [open] + Escape(body) + [close] + Escape(rest)
  {
    var t := [open] + body + [close] + rest;
    assert t == [open] + (body + ([close] + rest));
    CalmStays([open], body + ([close] + rest));
    EscapeConcat(body, [close] + rest);
    CalmStays([close], rest);
    assert [open] + Escape(body) + [close] + Escape(rest) == [open] + (Escape(body) + ([close] + Escape(rest)));
  }

  lemma EscapeEnclosed(open: Byte, body: Text, close: Byte)
    requires IsCalm([open]) && IsCalm([close])
    ensures Escape([open] + body + [close]) == [open] + Escape(body) + [close]
  {
    EscapeBetween(open, body, close, []);
    assert [open] + body + [close] + [] == [open] + body + [close];
    assert [open] + Escape(body) + [close] + [] == [open] + Escape(body) + [close];
  }

  lemma {:induction false} NumberIsCalm(raw: Text)
    requires IsNumber(raw)
    ensures Escape(raw) == raw
  {
    CalmIsItself(raw);
  }

  /** Escaping the text of a value prints the escaped value. */
  lemma {:induction false} EscapePrint(v: Value)
    requires WellFormed(v)
    ensures Escape(Print(v)) == Print(EscapeValue(v))
    decreases v, 1
  {
    match v
    case Null => CalmIsItself(NULL_TEXT);
    case True => CalmIsItself(TRUE_TEXT);
    case False => CalmIsItself(FALSE_TEXT);
    case Number(raw) => NumberIsCalm(raw);
    case String(raw) => EscapeEnclosed(QUOTE, raw, QUOTE);
    case Array(items) =>
      EscapeItems(items);
      EscapeEnclosed(OPEN_BRACKET, PrintItems(items), CLOSE_BRACKET);
    case Object(members) =>
      EscapeMembers(members);
      assert EscapeValue(v).members == EscapeMemberSeq(members);
      EscapeEnclosed(OPEN_BRACE, PrintMembers(members), CLOSE_BRACE);
  }

  function EscapeValues(items: seq<Value>): seq<Value>
  {
    seq(|items|, i requires 0 <= i < |items| => EscapeValue(items[i]))
  }

  function EscapeMember(m: Member): Member { Member(Escape(m.name), EscapeValue(m.value)) }

  function EscapeMemberSeq(members: seq<Member>): seq<Member>
  {
    seq(|members|, i requires 0 <= i < |members| => EscapeMember(members[i]))
  }

  lemma AfterComma(a: Text, b: Text)
    ensures Escape(a + [COMMA] + b) == Escape(a) + [COMMA] + Escape(b)
  {
    assert a + [COMMA] + b == a + ([COMMA] + b);
    EscapeConcat(a, [COMMA] + b);
    CalmStays([COMMA], b);
    assert Escape(a) + [COMMA] + Escape(b) == Escape(a) + ([COMMA] + Escape(b));
  }

  lemma {:induction false} EscapeItems(items: seq<Value>)
    requires forall i :: 0 <= i < |items| ==> WellFormed(items[i])
    ensures Escape(PrintItems(items)) == PrintItems(EscapeValues(items))
    decreases items, 0
  {
    if |items| > 0 {
      EscapePrint(items[0]);
      if |items| > 1 {
        EscapeItems(items[1..]);
        AfterComma(Print(items[0]), PrintItems(items[1..]));
        assert EscapeValues(items)[1..] == EscapeValues(items[1..]);
      }
    }
  }

  lemma {:induction false} EscapeMembers(members: seq<Member>)
    requires forall i :: 0 <= i < |members| ==> MemberWellFormed(members[i])
    ensures Escape(PrintMembers(members)) == PrintMembers(EscapeMemberSeq(members))
    decreases members, 0
  {
    if |members| > 0 {
      EscapePrint(members[0].value);
      EscapeMemberText(members[0]);
      if |members| > 1 {
        EscapeMembers(members[1..]);
        AfterComma(PrintMember(members[0]), PrintMembers(members[1..]));
        assert EscapeMemberSeq(members)[1..] == EscapeMemberSeq(members[1..]);
      }
    }
  }

  lemma MemberText(name: Text, value: Text)
    ensures [QUOTE] + name + [QUOTE, COLON] + value == [QUOTE] + name + [QUOTE] + ([COLON] + value)
  {
  }

  lemma EscapeMemberText(m: Member)
    requires Escape(Print(m.value)) == Print(EscapeValue(m.value))
    ensures Escape(PrintMember(m)) == PrintMember(EscapeMember(m))
  {
    MemberText(m.name, Print(m.value));
    EscapeBetween(QUOTE, m.name, QUOTE, [COLON] + Print(m.value));
    CalmStays([COLON], Print(m.value));
    MemberText(Escape(m.name), Escape(Print(m.value)));
  }

  /** An escaped text reads as a value of the same meaning. */
  lemma EscapedReads(t: Text)
    requires IsText(t)
    ensures Parse(Escape(t)) == Some(EscapeValue(Parse(t).value))
    ensures SameMeaning(Parse(t).value, Parse(Escape(t)).value)
  {
    var v := Parse(t).value;
    ParseIffPrinted(t, v);
    EscapePrint(v);
    EscapeKeepsMeaning(v);
    ParsePrint(EscapeValue(v));
  }

  // ---- once is enough ----

  lemma EscapeStartsLike(t: Text)
    requires Escape(t) != [] && Escape(t)[0] >= 0x80
    ensures t != [] && t[0] == Escape(t)[0] && Escape(t) == [t[0]] + Escape(t[1..])
  {
  }

  /** Escaping an escaped text changes nothing. */
  lemma {:induction false} EscapeTwice(t: Text)
    ensures Escape(Escape(t)) == Escape(t)
    decreases |t|
  {
    if t == [] {
    } else if IsSpecial(t[0]) {
      EscapeTwice(t[1..]);
      CalmStays(SpecialEscape(t[0]), Escape(t[1..]));
    } else if StartsSeparator(t) {
      EscapeTwice(t[3..]);
      CalmStays(SeparatorEscape(t[2]), Escape(t[3..]));
    } else {
      EscapeTwice(t[1..]);
      NoNewSeparator(t);
      assert Escape(t)[1..] == Escape(t[1..]);
    }
  }

  lemma NoNewSeparator(t: Text)
    requires t != [] && !IsSpecial(t[0]) && !StartsSeparator(t)
    ensures !StartsSeparator(Escape(t))
  {
    if StartsSeparator(Escape(t)) {
      var u := t[1..];
      assert Escape(t)[1..] == Escape(u);
      EscapeStartsLike(u);
      assert Escape(u)[1..] == Escape(u[1..]);
      EscapeStartsLike(u[1..]);
    }
  }
}
