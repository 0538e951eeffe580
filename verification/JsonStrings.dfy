/** What the text between the quotes of a JSON string stands for (section 7 of RFC 8259). */
module JsonStrings {
  import opened Bytes
  import opened Json
  import opened Sequences

  function HexValue(b: Byte): (d: nat)
    requires IsHex(b)
    ensures d < 16
  {
    if IsDigit(b) then b - 48 else if b <= 70 then b - 55 else b - 87
  }

  /** The code unit of the \uXXXX escape at the start of t. */
  function CodeUnit(t: Text): (c: nat)
    requires t != [] && t[0] == BACKSLASH && EscapeLength(t) == 6
    ensures c < 0x1_0000
  {
    0x1000 * HexValue(t[2]) + 0x100 * HexValue(t[3]) + 0x10 * HexValue(t[4]) + HexValue(t[5])
  }

  function Utf8(c: nat): (t: Text)
    requires c < 0x11_0000
    ensures 1 <= |t| <= 4
  {
    if c < 0x80 then [c]
    else if c < 0x800 then [0xC0 + c / 0x40, 0x80 + c % 0x40]
    else if c < 0x1_0000 then [0xE0 + c / 0x1000, 0x80 + c / 0x40 % 0x40, 0x80 + c % 0x40]
    else [0xF0 + c / 0x4_0000, 0x80 + c / 0x1000 % 0x40, 0x80 + c / 0x40 % 0x40, 0x80 + c % 0x40]
  }

  const REPLACEMENT: Text := [0xEF, 0xBF, 0xBD]

  function ShortEscape(b: Byte): Byte
  {
    match b
    case 98 => 8
    case 102 => 12
    case 110 => 10
    case 114 => 13
    case 116 => 9
    case _ => b
  }

  /** A surrogate pair takes two escapes. */
  predicate StartsPair(raw: Text)
    requires raw != [] && raw[0] == BACKSLASH && EscapeLength(raw) == 6
  {
    0xD800 <= CodeUnit(raw) < 0xDC00 && |raw| >= 12 && raw[6] == BACKSLASH && EscapeLength(raw[6..]) == 6 &&
    0xDC00 <= CodeUnit(raw[6..]) < 0xE000
  }

  /** The length of the unit that starts a string body: a byte, an escape, or a pair. */
  function UnitLength(raw: Text): (n: nat)
    requires raw != [] && IsStringBody(raw)
    ensures n in {1, 2, 6, 12} && n <= |raw|
    ensures n == 1 <==> raw[0] != BACKSLASH
  {
    if raw[0] != BACKSLASH then 1
    else if EscapeLength(raw) == 2 then 2
    else if StartsPair(raw) then 12
    else 6
  }

  /** The bytes that this unit stands for. */
  function UnitText(raw: Text): (t: Text)
    requires raw != [] && IsStringBody(raw)
    ensures |t| <= UnitLength(raw)
    ensures raw[0] == BACKSLASH ==> 0 < |t| < UnitLength(raw)
  {
    if raw[0] != BACKSLASH then [raw[0]]
    else if EscapeLength(raw) == 2 then [ShortEscape(raw[1])]
    else
      var c := CodeUnit(raw);
      if StartsPair(raw) then Utf8(0x1_0000 + 0x400 * (c - 0xD800) + (CodeUnit(raw[6..]) - 0xDC00))
      else if 0xD800 <= c < 0xE000 then REPLACEMENT
      else Utf8(c)
  }

  lemma UnitsFollow(raw: Text)
    requires raw != [] && IsStringBody(raw)
    ensures IsStringBody(raw[UnitLength(raw)..])
  {
    if UnitLength(raw) == 12 {
      assert raw[6..][6..] == raw[12..];
    }
  }

  function Decode(raw: Text): Text
    requires IsStringBody(raw)
  {
    if raw == [] then []
    else
      UnitsFollow(raw);
      UnitText(raw) + Decode(raw[UnitLength(raw)..])
  }

  /** The short escapes, each with what it stands for. */
  lemma ShortEscapesRead()
    ensures forall b: Byte :: b in {34, 92, 47, 98, 102, 110, 114, 116} ==> IsStringBody([92, b])
    ensures UnitText([92, 34]) == [34] && UnitText([92, 92]) == [92] && UnitText([92, 47]) == [47]
    ensures UnitText([92, 98]) == [8] && UnitText([92, 102]) == [12] && UnitText([92, 110]) == [10]
    ensures UnitText([92, 114]) == [13] && UnitText([92, 116]) == [9]
  {
  }

  /** Escapes of code points in one to three bytes, in either case of digits, and half a
      pair alone: a capital A, e with acute, the euro sign, and the first half of a face. */
  lemma CodePointsRead()
    ensures IsStringBody([92, 117, 48, 48, 52, 49]) && UnitText([92, 117, 48, 48, 52, 49]) == [0x41]
    ensures IsStringBody([92, 117, 48, 48, 69, 57]) && UnitText([92, 117, 48, 48, 69, 57]) == [0xC3, 0xA9]
    ensures IsStringBody([92, 117, 50, 48, 97, 99]) && UnitText([92, 117, 50, 48, 97, 99]) == [0xE2, 0x82, 0xAC]
    ensures IsStringBody([92, 117, 100, 56, 51, 100]) && UnitText([92, 117, 100, 56, 51, 100]) == [0xEF, 0xBF, 0xBD]
  {
  }

  /** And the whole pair. */
  lemma PairReads()
    ensures var face := [92, 117, 100, 56, 51, 100, 92, 117, 100, 101, 48, 48];
            IsStringBody(face) && UnitText(face) == [0xF0, 0x9F, 0x98, 0x80]
  {
    var face: Text := [92, 117, 100, 56, 51, 100, 92, 117, 100, 101, 48, 48];
    assert face[6..] == [92, 117, 100, 101, 48, 48];
    assert face[6..][6..] == [];
    assert IsStringBody(face[6..]);
    assert CodeUnit(face) == 0xD83D && CodeUnit(face[6..]) == 0xDE00;
  }

  /** Bytes that stand for themselves between quotes. */
  predicate IsPlain(t: Text)
  {
    forall i :: 0 <= i < |t| ==> t[i] != QUOTE && t[i] != BACKSLASH && t[i] >= 32
  }

  lemma {:induction false} PlainIsItself(t: Text)
    requires IsPlain(t)
    ensures IsStringBody(t) && Decode(t) == t
  {
    if t != [] {
      PlainIsItself(t[1..]);
    }
  }

  /** Decoding never lengthens, and keeps the length only of plain text. */
  lemma {:induction false} DecodeShortens(raw: Text)
    requires IsStringBody(raw)
    ensures |Decode(raw)| <= |raw|
    ensures |Decode(raw)| == |raw| <==> IsPlain(raw)
  {
    if raw != [] {
      UnitsFollow(raw);
      var n := UnitLength(raw);
      DecodeShortens(raw[n..]);
      if raw[0] != BACKSLASH {
        assert IsPlain(raw) <==> IsPlain(raw[1..]) by {
          assert forall i :: 0 <= i < |raw[1..]| ==> raw[1..][i] == raw[i + 1];
        }
      }
    }
  }

  predicate NoQuote(t: Text) { forall i :: 0 <= i < |t| ==> t[i] != QUOTE }

  /** The unit that starts raw, and what was left over before it, after taking off the
      bytes that the unit stands for: no quote is among what remains. */
  lemma UnitLeavesNoQuote(before: Text, raw: Text)
    requires raw != [] && IsStringBody(raw) && NoQuote(before)
    requires UnitText(raw) <= before + raw[..UnitLength(raw)]
    ensures NoQuote((before + raw[..UnitLength(raw)])[|UnitText(raw)|..])
  {
    var unit := raw[..UnitLength(raw)];
    assert (before + unit)[0] == if before == [] then raw[0] else before[0];
    assert UnitLength(raw) == 12 ==> forall i :: 0 <= i < 6 ==> raw[6..][i] == raw[6 + i];
    assert forall i :: 0 <= i < |unit| && unit[i] == QUOTE ==> i == 1 && UnitLength(raw) == 2;
  }

  lemma DropFront(d: Text, more: Text, all: Text, back: Text)
    requires d + more <= all + back && |d| <= |all|
    ensures d <= all && more <= all[|d|..] + back
  {
    var t := all + back;
    assert d == t[..|d|] == all[..|d|];
    assert t[|d|..] == all[|d|..] + back;
    assert more == (d + more)[|d|..] == t[|d|..][..|more|];
  }

  /** What remains before the rest of raw, after taking off its first unit's text. */
  function Remains(before: Text, raw: Text): Text
    requires raw != [] && IsStringBody(raw)
  {
    (before + raw[..UnitLength(raw)])[|UnitText(raw)|..]
  }

  lemma TakeOffUnit(before: Text, raw: Text, more: Text)
    requires raw != [] && IsStringBody(raw) && NoQuote(before)
    requires (UnitText(raw) + more) + [QUOTE] <= before + raw
    ensures NoQuote(Remains(before, raw))
    ensures more + [QUOTE] <= Remains(before, raw) + raw[UnitLength(raw)..]
  {
    var n := UnitLength(raw);
    Regroup(UnitText(raw), more, [QUOTE]);
    Regroup(before, raw[..n], raw[n..]);
    assert raw == raw[..n] + raw[n..];
    DropFront(UnitText(raw), more + [QUOTE], before + raw[..n], raw[n..]);
    UnitLeavesNoQuote(before, raw);
  }

  /** No string body starts with what it stands for, followed by a quote; not even
      behind other bytes that hold no quote. */
  lemma {:induction false} NeverQuotedPrefix(before: Text, raw: Text)
    requires IsStringBody(raw) && NoQuote(before)
    ensures !(Decode(raw) + [QUOTE] <= before + raw)
    decreases |raw|
  {
    if raw == [] {
      assert before + raw == before && Decode(raw) + [QUOTE] == [QUOTE];
      assert before == [] || before[0] != [QUOTE][0];
    } else if Decode(raw) + [QUOTE] <= before + raw {
      UnitsFollow(raw);
      TakeOffUnit(before, raw, Decode(raw[UnitLength(raw)..]));
      NeverQuotedPrefix(Remains(before, raw), raw[UnitLength(raw)..]);
    }
  }

  lemma SameLengthFront(a: Text, x: Text, b: Text, y: Text)
    requires |a| == |b| && a + x == b + y
    ensures a == b && x == y
  {
    assert a == (a + x)[..|a|] == (b + y)[..|b|] == b;
    assert x == (a + x)[|a|..] == (b + y)[|b|..] == y;
  }

  lemma ShorterFront(a: Text, c: Byte, x: Text, b: Text, y: Text)
    requires |a| < |b| && a + ([c] + x) == b + y
    ensures a + [c] <= b
  {
    var t := a + ([c] + x);
    assert a + [c] == t[..|a| + 1] == (b + y)[..|a| + 1] == b[..|a| + 1];
  }

  /** Text that decodes to the bytes which stand in its own place is plain. */
  lemma SamePlaceIsPlain(name: Text, raw: Text, rest: Text, rest': Text)
    requires IsStringBody(raw) && Decode(raw) == name
    requires name + ([QUOTE] + rest) == raw + ([QUOTE] + rest')
    ensures name == raw && IsPlain(name) && rest == rest'
  {
    DecodeShortens(raw);
    NeverQuotedPrefix([], raw);
    assert [] + raw == raw;
    if |name| < |raw| {
      ShorterFront(name, QUOTE, rest, raw, [QUOTE] + rest');
    }
    SameLengthFront(name, [QUOTE] + rest, raw, [QUOTE] + rest');
    SameLengthFront([QUOTE], rest, [QUOTE], rest');
  }
}
