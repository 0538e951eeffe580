/** Byte strings, the comma-joining of parts, and JSON texts (RFC 8259) in the
    compact form that an encoder prints: values, their printer and their parser. */
module Bytes {
  type Byte = b: int | 0 <= b < 256

  type Text = seq<Byte>

  const COMMA: Byte := 44
  const COLON: Byte := 58
  const QUOTE: Byte := 34
  const BACKSLASH: Byte := 92
  const OPEN_BRACKET: Byte := 91
  const CLOSE_BRACKET: Byte := 93
  const OPEN_BRACE: Byte := 123
  const CLOSE_BRACE: Byte := 125

  datatype Option<+T> = None | Some(value: T)

  /** The parts with one comma between neighbours. */
  function Join(parts: seq<Text>): Text
  {
    if |parts| == 0 then []
    else if |parts| == 1 then parts[0]
    else Join(parts[..|parts| - 1]) + [COMMA] + parts[|parts| - 1]
  }

  function Concat(parts: seq<Text>): Text
  {
    if |parts| == 0 then [] else Concat(parts[..|parts| - 1]) + parts[|parts| - 1]
  }

  function TotalLength(parts: seq<Text>): nat
  {
    if |parts| == 0 then 0 else TotalLength(parts[..|parts| - 1]) + |parts[|parts| - 1]|
  }

  lemma {:induction false} ConcatLength(parts: seq<Text>)
    ensures |Concat(parts)| == TotalLength(parts)
  {
    if |parts| > 0 {
      ConcatLength(parts[..|parts| - 1]);
    }
  }

  lemma {:induction false} JoinLength(parts: seq<Text>)
    ensures |Join(parts)| == TotalLength(parts) + (if |parts| == 0 then 0 else |parts| - 1)
  {
    if |parts| == 1 {
      assert parts[..0] == [];
    } else if |parts| > 1 {
      JoinLength(parts[..|parts| - 1]);
    }
  }

  lemma JoinAppend(parts: seq<Text>, x: Text)
    ensures Join(parts + [x]) == if |parts| == 0 then x else Join(parts) + [COMMA] + x
  {
    assert (parts + [x])[..|parts|] == parts;
  }

  /** Joining may as well start from the front. */
  lemma {:induction false} JoinFront(parts: seq<Text>)
    requires |parts| > 1
    ensures Join(parts) == parts[0] + [COMMA] + Join(parts[1..])
  {
    var n := |parts| - 1;
    if n == 1 {
      assert parts[..1] == [parts[0]] && parts[1..] == [parts[1]];
    } else {
      JoinFront(parts[..n]);
      assert parts[..n][1..] == parts[1..][..n - 1];
      assert parts[1..][n - 1] == parts[n];
      assert Join(parts[1..]) == Join(parts[1..][..n - 1]) + [COMMA] + parts[n];
    }
  }
}

/** JSON values as token trees: numbers and strings keep the text between their
    delimiters, so that a value has exactly one compact text. */
module Json {
  import opened Bytes

  datatype Value =
    | Null
    | True
    | False
    | Number(raw: Text)
    | String(raw: Text)
    | Array(items: seq<Value>)
    | Object(members: seq<Member>)

  datatype Member = Member(name: Text, value: Value)

  // ---- tokens (sections 3, 6 and 7 of RFC 8259) ----

  const NULL_TEXT: Text := [110, 117, 108, 108]
  const TRUE_TEXT: Text := [116, 114, 117, 101]
  const FALSE_TEXT: Text := [102, 97, 108, 115, 101]

  predicate IsDigit(b: Byte) { 48 <= b <= 57 }

  predicate IsHex(b: Byte) { IsDigit(b) || 65 <= b <= 70 || 97 <= b <= 102 }

  /** A byte that may stand in a number: digits, plus, minus, point, e and E. */
  predicate IsNumberByte(b: Byte) { IsDigit(b) || b in {43, 45, 46, 69, 101} }

  predicate AllDigits(t: Text) { forall i :: 0 <= i < |t| ==> IsDigit(t[i]) }

  predicate IsInteger(t: Text)
  {
    |t| > 0 && AllDigits(t) && (t[0] == 48 ==> |t| == 1)
  }

  predicate IsExponent(t: Text)
  {
    |t| > 1 && t[0] in {69, 101} &&
    var digits := if t[1] in {43, 45} then t[2..] else t[1..];
    |digits| > 0 && AllDigits(digits)
  }

  /** The number of leading digits. */
  function DigitRun(t: Text): (n: nat)
    ensures n <= |t|
  {
    if t == [] || !IsDigit(t[0]) then 0 else 1 + DigitRun(t[1..])
  }

  /** number = [ minus ] int [ frac ] [ exp ] */
  predicate IsNumber(t: Text)
  {
    (forall i :: 0 <= i < |t| ==> IsNumberByte(t[i])) &&
    var u := if t != [] && t[0] == 45 then t[1..] else t;
    var n := DigitRun(u);
    IsInteger(u[..n]) &&
    var v := u[n..];
    if v != [] && v[0] == 46 then
      var m := DigitRun(v[1..]);
      m > 0 && (v[1 + m..] == [] || IsExponent(v[1 + m..]))
    else
      v == [] || IsExponent(v)
  }

  /** The length of the escape sequence that starts with the backslash at t[0];
      0 when it is malformed. */
  function EscapeLength(t: Text): (n: nat)
    requires t != [] && t[0] == BACKSLASH
    ensures n <= |t| && n in {0, 2, 6}
  {
    if |t| >= 2 && t[1] in {QUOTE, BACKSLASH, 47, 98, 102, 110, 114, 116} then 2
    else if |t| >= 6 && t[1] == 117 && IsHex(t[2]) && IsHex(t[3]) && IsHex(t[4]) && IsHex(t[5]) then 6
    else 0
  }

  /** What may stand between the quotes of a string. */
  predicate IsStringBody(t: Text)
  {
    t == [] ||
    if t[0] == BACKSLASH then
      var n := EscapeLength(t);
      n > 0 && IsStringBody(t[n..])
    else
      t[0] != QUOTE && t[0] >= 32 && IsStringBody(t[1..])
  }

  predicate WellFormed(v: Value)
  {
    match v
    case Number(raw) => IsNumber(raw)
    case String(raw) => IsStringBody(raw)
    case Array(items) => forall i :: 0 <= i < |items| ==> WellFormed(items[i])
    case Object(members) =>
      forall i :: 0 <= i < |members| ==> IsStringBody(members[i].name) && WellFormed(members[i].value)
    case _ => true
  }

  // ---- printing ----

  function Print(v: Value): Text
    decreases v, 1
  {
    match v
    case Null => NULL_TEXT
    case True => TRUE_TEXT
    case False => FALSE_TEXT
    case Number(raw) => raw
    case String(raw) => [QUOTE] + raw + [QUOTE]
    case Array(items) => [OPEN_BRACKET] + PrintItems(items) + [CLOSE_BRACKET]
    case Object(members) => [OPEN_BRACE] + PrintMembers(members) + [CLOSE_BRACE]
  }

  function PrintItems(items: seq<Value>): Text
    decreases items, 0
  {
    if |items| == 0 then []
    else if |items| == 1 then Print(items[0])
    else Print(items[0]) + [COMMA] + PrintItems(items[1..])
  }

  function PrintMember(m: Member): Text
    decreases m, 2
  {
    [QUOTE] + m.name + [QUOTE, COLON] + Print(m.value)
  }

  function PrintMembers(members: seq<Member>): Text
    decreases members, 0
  {
    if |members| == 0 then []
    else
      var first := PrintMember(members[0]);
      if |members| == 1 then first else first + [COMMA] + PrintMembers(members[1..])
  }

  // ---- parsing ----

  function NumberRun(t: Text): (n: nat)
    ensures n <= |t|
  {
    if t == [] || !IsNumberByte(t[0]) then 0 else 1 + NumberRun(t[1..])
  }

  /** Reads up to the closing quote; the rest starts behind it. */
  function ScanString(t: Text): (r: Option<(Text, Text)>)
    ensures r.Some? ==> |r.value.1| < |t|
  {
    if t == [] then None
    else if t[0] == QUOTE then Some(([], t[1..]))
    else if t[0] == BACKSLASH then
      var n := EscapeLength(t);
      if n == 0 then None
      else
        match ScanString(t[n..])
        case None => None
        case Some((body, rest)) => Some((t[..n] + body, rest))
    else if t[0] < 32 then None
    else
      match ScanString(t[1..])
      case None => None
      case Some((body, rest)) => Some(([t[0]] + body, rest))
  }

  /** A literal name or a number. */
  function ParseScalar(t: Text): (r: Option<(Value, Text)>)
    ensures r.Some? ==> |r.value.1| < |t|
  {
    if NULL_TEXT <= t then Some((Null, t[4..]))
    else if TRUE_TEXT <= t then Some((True, t[4..]))
    else if FALSE_TEXT <= t then Some((False, t[5..]))
    else
      var n := NumberRun(t);
      if n > 0 && IsNumber(t[..n]) then Some((Number(t[..n]), t[n..])) else None
  }

  function ParseValue(t: Text): (r: Option<(Value, Text)>)
    ensures r.Some? ==> |r.value.1| < |t|
    decreases |t|, 0
  {
    if t == [] then None
    else if t[0] == QUOTE then
      match ScanString(t[1..])
      case None => None
      case Some((body, rest)) => Some((String(body), rest))
    else if t[0] == OPEN_BRACKET then
      if |t| > 1 && t[1] == CLOSE_BRACKET then Some((Array([]), t[2..]))
      else
        match ParseItems(t[1..])
        case None => None
        case Some((items, rest)) => Some((Array(items), rest))
    else if t[0] == OPEN_BRACE then
      if |t| > 1 && t[1] == CLOSE_BRACE then Some((Object([]), t[2..]))
      else
        match ParseMembers(t[1..])
        case None => None
        case Some((members, rest)) => Some((Object(members), rest))
    else ParseScalar(t)
  }

  function ParseItems(t: Text): (r: Option<(seq<Value>, Text)>)
    ensures r.Some? ==> |r.value.1| < |t| && |r.value.0| > 0
    decreases |t|, 1
  {
    match ParseValue(t)
    case None => None
    case Some((v, rest)) =>
      if rest == [] then None
      else if rest[0] == CLOSE_BRACKET then Some(([v], rest[1..]))
      else if rest[0] != COMMA then None
      else
        match ParseItems(rest[1..])
        case None => None
        case Some((vs, rest')) => Some(([v] + vs, rest'))
  }

  function ParseMembers(t: Text): (r: Option<(seq<Member>, Text)>)
    ensures r.Some? ==> |r.value.1| < |t| && |r.value.0| > 0
    decreases |t|, 1
  {
    if t == [] || t[0] != QUOTE then None
    else
      match ScanString(t[1..])
      case None => None
      case Some((name, afterName)) =>
        if afterName == [] || afterName[0] != COLON then None
        else
          match ParseValue(afterName[1..])
          case None => None
          case Some((v, rest)) =>
            if rest == [] then None
            else if rest[0] == CLOSE_BRACE then Some(([Member(name, v)], rest[1..]))
            else if rest[0] != COMMA then None
            else
              match ParseMembers(rest[1..])
              case None => None
              case Some((ms, rest')) => Some(([Member(name, v)] + ms, rest'))
  }

  /** A whole text is one value. */
  function Parse(t: Text): Option<Value>
  {
    match ParseValue(t)
    case Some((v, rest)) => if rest == [] then Some(v) else None
    case None => None
  }

  predicate IsText(t: Text) { Parse(t) != None }

  // ---- what is printed parses back ----

  lemma {:induction false} ScanStringBody(body: Text, rest: Text)
    requires IsStringBody(body)
    ensures ScanString(body + [QUOTE] + rest) == Some((body, rest))
    decreases |body|
  {
    var t := body + [QUOTE] + rest;
    if body == [] {
      assert t == [QUOTE] + rest;
      assert t[1..] == rest;
    } else if body[0] == BACKSLASH {
      var n := EscapeLength(body);
      ScanStringBody(body[n..], rest);
      assert EscapeLength(t) == n;
      assert t[n..] == body[n..] + [QUOTE] + rest && t[..n] == body[..n];
      assert body == body[..n] + body[n..];
    } else {
      ScanStringBody(body[1..], rest);
      assert t[1..] == body[1..] + [QUOTE] + rest;
      assert body == [body[0]] + body[1..];
    }
  }

  /** A value text is followed by nothing or by a byte that cannot extend a number. */
  predicate Delimited(rest: Text) { rest == [] || !IsNumberByte(rest[0]) }

  lemma {:induction false} NumberRunStops(raw: Text, rest: Text)
    requires Delimited(rest) && forall i :: 0 <= i < |raw| ==> IsNumberByte(raw[i])
    ensures NumberRun(raw + rest) == |raw|
  {
    if raw == [] {
      assert raw + rest == rest;
    } else {
      NumberRunStops(raw[1..], rest);
      assert (raw + rest)[1..] == raw[1..] + rest;
    }
  }

  lemma NumberIsNotEmpty(raw: Text)
    requires IsNumber(raw)
    ensures raw != []
  {
  }

  lemma PrintFirstByte(v: Value)
    requires WellFormed(v)
    ensures Print(v) != [] && Print(v)[0] != CLOSE_BRACKET && Print(v)[0] != CLOSE_BRACE
  {
    if v.Number? { NumberIsNotEmpty(v.raw); }
  }

  predicate IsScalar(v: Value) { v.Null? || v.True? || v.False? || v.Number? }

  lemma ParsePrintedScalar(v: Value, rest: Text)
    requires IsScalar(v) && WellFormed(v) && Delimited(rest)
    ensures ParseScalar(Print(v) + rest) == Some((v, rest))
    ensures Print(v)[0] !in {QUOTE, OPEN_BRACKET, OPEN_BRACE, CLOSE_BRACKET, CLOSE_BRACE}
  {
    var t := Print(v) + rest;
    match v
    case Null => assert t[..4] == NULL_TEXT;
    case True => assert t[0] == TRUE_TEXT[0]; assert t[..4] == TRUE_TEXT;
    case False => assert t[0] == FALSE_TEXT[0]; assert t[..5] == FALSE_TEXT;
    case Number(raw) =>
      NumberRunStops(raw, rest);
      assert IsNumberByte(t[0]);
      assert t[..|raw|] == raw && t[|raw|..] == rest;
  }

  lemma {:induction false} ParsePrinted(v: Value, rest: Text)
    requires WellFormed(v) && Delimited(rest)
    ensures ParseValue(Print(v) + rest) == Some((v, rest))
    decreases v, 1
  {
    if IsScalar(v) {
      ParsePrintedScalar(v, rest);
    } else if v.String? {
      ScanStringBody(v.raw, rest);
      assert (Print(v) + rest)[1..] == v.raw + [QUOTE] + rest;
    } else if v.Array? {
      ParsePrintedArray(v, rest);
    } else {
      ParsePrintedObject(v, rest);
    }
  }

  lemma {:induction false} ParsePrintedArray(v: Value, rest: Text)
    requires v.Array? && WellFormed(v) && Delimited(rest)
    ensures ParseValue(Print(v) + rest) == Some((v, rest))
    decreases v, 0
  {
    if v.items == [] {
      EmptyText(rest);
    } else {
      ParsePrintedItems(v.items, rest);
      PrintFirstByte(v.items[0]);
      ArrayText(v.items, rest);
    }
  }

  lemma {:induction false} ParsePrintedObject(v: Value, rest: Text)
    requires v.Object? && WellFormed(v) && Delimited(rest)
    ensures ParseValue(Print(v) + rest) == Some((v, rest))
    decreases v, 0
  {
    if v.members == [] {
      EmptyText(rest);
    } else {
      ParsePrintedMembers(v.members, rest);
      ObjectText(v.members, rest);
    }
  }

  lemma EmptyText(rest: Text)
    ensures ParseValue(Print(Array([])) + rest) == Some((Array([]), rest))
    ensures ParseValue(Print(Object([])) + rest) == Some((Object([]), rest))
  {
    assert Print(Array([])) == [OPEN_BRACKET, CLOSE_BRACKET];
    assert Print(Object([])) == [OPEN_BRACE, CLOSE_BRACE];
    assert (Print(Array([])) + rest)[2..] == rest;
    assert (Print(Object([])) + rest)[2..] == rest;
  }

  lemma BracketSlice(open: Byte, body: Text, close: Byte, rest: Text)
    ensures ([open] + body + [close] + rest)[1..] == body + [close] + rest
    ensures body != [] ==> ([open] + body + [close] + rest)[1] == body[0]
  {
  }

  lemma ValueIsArray(t: Text, items: seq<Value>, rest: Text)
    requires |t| > 1 && t[0] == OPEN_BRACKET && t[1] != CLOSE_BRACKET
    requires ParseItems(t[1..]) == Some((items, rest))
    ensures ParseValue(t) == Some((Array(items), rest))
  {
  }

  lemma ValueIsObject(t: Text, members: seq<Member>, rest: Text)
    requires |t| > 1 && t[0] == OPEN_BRACE && t[1] != CLOSE_BRACE
    requires ParseMembers(t[1..]) == Some((members, rest))
    ensures ParseValue(t) == Some((Object(members), rest))
  {
  }

  lemma ArrayText(items: seq<Value>, rest: Text)
    requires items != [] && Print(items[0]) != [] && Print(items[0])[0] != CLOSE_BRACKET
    requires ParseItems(PrintItems(items) + [CLOSE_BRACKET] + rest) == Some((items, rest))
    ensures ParseValue(Print(Array(items)) + rest) == Some((Array(items), rest))
  {
    BracketSlice(OPEN_BRACKET, PrintItems(items), CLOSE_BRACKET, rest);
    assert PrintItems(items)[0] == Print(items[0])[0];
    ValueIsArray(Print(Array(items)) + rest, items, rest);
  }

  lemma ObjectText(members: seq<Member>, rest: Text)
    requires members != []
    requires ParseMembers(PrintMembers(members) + [CLOSE_BRACE] + rest) == Some((members, rest))
    ensures ParseValue(Print(Object(members)) + rest) == Some((Object(members), rest))
  {
    BracketSlice(OPEN_BRACE, PrintMembers(members), CLOSE_BRACE, rest);
    assert PrintMembers(members)[0] == QUOTE;
    ValueIsObject(Print(Object(members)) + rest, members, rest);
  }

  lemma ItemsEnd(t: Text, v: Value, rest: Text)
    requires ParseValue(t) == Some((v, [CLOSE_BRACKET] + rest))
    ensures ParseItems(t) == Some(([v], rest))
  {
    assert ([CLOSE_BRACKET] + rest)[1..] == rest;
  }

  lemma ItemsMore(t: Text, v: Value, t': Text, vs: seq<Value>, rest: Text)
    requires ParseValue(t) == Some((v, [COMMA] + t'))
    requires ParseItems(t') == Some((vs, rest))
    ensures ParseItems(t) == Some(([v] + vs, rest))
  {
    assert ([COMMA] + t')[1..] == t';
  }

  /** Texts compared by where their brackets fall. */
  lemma AroundBracket(a: Text, c: Byte, b: Text, close: Byte, rest: Text)
    ensures a + [c] + b + [close] + rest == a + ([c] + (b + [close] + rest))
    ensures a + [close] + rest == a + ([close] + rest)
    ensures ([c] + b)[1..] == b
  {
  }

  lemma FirstItem(items: seq<Value>, rest: Text)
    requires |items| > 1
    ensures PrintItems(items) + [CLOSE_BRACKET] + rest ==
            Print(items[0]) + ([COMMA] + (PrintItems(items[1..]) + [CLOSE_BRACKET] + rest))
  {
    var first, more := Print(items[0]), PrintItems(items[1..]);
    assert PrintItems(items) == first + [COMMA] + more;
    AroundBracket(first, COMMA, more, CLOSE_BRACKET, rest);
  }

  lemma {:induction false} ParsePrintedItems(items: seq<Value>, rest: Text)
    requires |items| > 0 && forall i :: 0 <= i < |items| ==> WellFormed(items[i])
    ensures ParseItems(PrintItems(items) + [CLOSE_BRACKET] + rest) == Some((items, rest))
    decreases items, 0
  {
    var t := PrintItems(items) + [CLOSE_BRACKET] + rest;
    if |items| == 1 {
      AroundBracket(Print(items[0]), COMMA, [], CLOSE_BRACKET, rest);
      ParsePrinted(items[0], [CLOSE_BRACKET] + rest);
      ItemsEnd(t, items[0], rest);
      assert items == [items[0]];
    } else {
      var t' := PrintItems(items[1..]) + [CLOSE_BRACKET] + rest;
      FirstItem(items, rest);
      ParsePrinted(items[0], [COMMA] + t');
      ParsePrintedItems(items[1..], rest);
      ItemsMore(t, items[0], t', items[1..], rest);
      assert items == [items[0]] + items[1..];
    }
  }

  lemma MemberSlices(name: Text, value: Text, tail: Text)
    ensures var t := [QUOTE] + name + [QUOTE, COLON] + value + tail;
            t[0] == QUOTE && t[1..] == name + [QUOTE] + ([COLON] + (value + tail)) &&
            ([COLON] + (value + tail))[1..] == value + tail
  {
  }

  lemma MembersUnfold(t: Text, name: Text, afterName: Text, v: Value, rest: Text)
    requires t != [] && t[0] == QUOTE && ScanString(t[1..]) == Some((name, afterName))
    requires afterName != [] && afterName[0] == COLON
    requires ParseValue(afterName[1..]) == Some((v, rest)) && rest != []
    ensures rest[0] == CLOSE_BRACE ==> ParseMembers(t) == Some(([Member(name, v)], rest[1..]))
    ensures rest[0] == COMMA && ParseMembers(rest[1..]).Some? ==>
              ParseMembers(t) ==
              Some(([Member(name, v)] + ParseMembers(rest[1..]).value.0, ParseMembers(rest[1..]).value.1))
  {
  }

  lemma MemberStart(m: Member, tail: Text)
    requires IsStringBody(m.name)
    requires ParseValue(Print(m.value) + tail) == Some((m.value, tail)) && tail != []
    ensures tail[0] == CLOSE_BRACE ==> ParseMembers(PrintMember(m) + tail) == Some(([m], tail[1..]))
    ensures tail[0] == COMMA && ParseMembers(tail[1..]).Some? ==>
              ParseMembers(PrintMember(m) + tail) ==
              Some(([m] + ParseMembers(tail[1..]).value.0, ParseMembers(tail[1..]).value.1))
  {
    var afterName := [COLON] + (Print(m.value) + tail);
    MemberSlices(m.name, Print(m.value), tail);
    ScanStringBody(m.name, afterName);
    MembersUnfold(PrintMember(m) + tail, m.name, afterName, m.value, tail);
  }

  lemma FirstMember(members: seq<Member>, rest: Text)
    requires |members| > 1
    ensures PrintMembers(members) + [CLOSE_BRACE] + rest ==
            PrintMember(members[0]) + ([COMMA] + (PrintMembers(members[1..]) + [CLOSE_BRACE] + rest))
  {
    var first, more := PrintMember(members[0]), PrintMembers(members[1..]);
    assert PrintMembers(members) == first + [COMMA] + more;
    AroundBracket(first, COMMA, more, CLOSE_BRACE, rest);
  }

  lemma {:induction false} ParsePrintedMembers(members: seq<Member>, rest: Text)
    requires |members| > 0
    requires forall i :: 0 <= i < |members| ==> IsStringBody(members[i].name) && WellFormed(members[i].value)
    ensures ParseMembers(PrintMembers(members) + [CLOSE_BRACE] + rest) == Some((members, rest))
    decreases members, 0
  {
    var m := members[0];
    if |members| == 1 {
      ParsePrinted(m.value, [CLOSE_BRACE] + rest);
      MemberStart(m, [CLOSE_BRACE] + rest);
      assert members == [m] && PrintMembers(members) == PrintMember(m);
      AroundBracket(PrintMember(m), CLOSE_BRACE, rest, CLOSE_BRACE, rest);
    } else {
      var t' := PrintMembers(members[1..]) + [CLOSE_BRACE] + rest;
      ParsePrinted(m.value, [COMMA] + t');
      ParsePrintedMembers(members[1..], rest);
      FirstMember(members, rest);
      MemberStart(m, [COMMA] + t');
      AroundBracket([], COMMA, t', COMMA, []);
      assert members == [m] + members[1..];
    }
  }

  /** Parsing undoes printing, on every well-formed value. */
  lemma ParsePrint(v: Value)
    requires WellFormed(v)
    ensures Parse(Print(v)) == Some(v)
  {
    ParsePrinted(v, []);
    assert Print(v) + [] == Print(v);
  }

  // ---- what parses was printed ----

  lemma {:induction false} ScanStringSound(t: Text)
    requires ScanString(t).Some?
    ensures var (body, rest) := ScanString(t).value;
            IsStringBody(body) && t == body + [QUOTE] + rest
  {
    if t[0] == QUOTE {
      assert t == [QUOTE] + t[1..];
    } else if t[0] == BACKSLASH {
      var n := EscapeLength(t);
      ScanStringSound(t[n..]);
      var (body, rest) := ScanString(t[n..]).value;
      assert EscapeLength(t[..n] + body) == n;
      assert (t[..n] + body)[n..] == body;
      assert t == t[..n] + t[n..];
    } else {
      ScanStringSound(t[1..]);
      var (body, rest) := ScanString(t[1..]).value;
      assert ([t[0]] + body)[1..] == body;
      assert t == [t[0]] + t[1..];
    }
  }

  lemma ScalarSound(t: Text)
    requires ParseScalar(t).Some?
    ensures var (v, rest) := ParseScalar(t).value; IsScalar(v) && WellFormed(v) && t == Print(v) + rest
  {
  }

  /** t reads as r: it starts with the print of the value, and goes on with the rest. */
  ghost predicate Reads(t: Text, v: Value, rest: Text)
  {
    WellFormed(v) && t == Print(v) + rest
  }

  ghost predicate ReadsItems(t: Text, items: seq<Value>, rest: Text)
  {
    (forall i :: 0 <= i < |items| ==> WellFormed(items[i])) && t == PrintItems(items) + [CLOSE_BRACKET] + rest
  }

  ghost predicate ReadsMembers(t: Text, members: seq<Member>, rest: Text)
  {
    (forall i :: 0 <= i < |members| ==> MemberWellFormed(members[i])) &&
    t == PrintMembers(members) + [CLOSE_BRACE] + rest
  }

  lemma ReadsArray(t: Text, items: seq<Value>, rest: Text)
    requires t != [] && t[0] == OPEN_BRACKET && ReadsItems(t[1..], items, rest)
    ensures Reads(t, Array(items), rest)
  {
    assert t == [t[0]] + t[1..];
  }

  lemma ReadsObject(t: Text, members: seq<Member>, rest: Text)
    requires t != [] && t[0] == OPEN_BRACE && ReadsMembers(t[1..], members, rest)
    ensures Reads(t, Object(members), rest)
  {
    assert t == [t[0]] + t[1..];
  }

  lemma ReadsString(t: Text, body: Text, rest: Text)
    requires t != [] && t[0] == QUOTE && IsStringBody(body) && t[1..] == body + [QUOTE] + rest
    ensures Reads(t, String(body), rest)
  {
    assert t == [t[0]] + t[1..];
  }

  lemma ReadsEmpty(t: Text)
    requires |t| > 1
    ensures t[0] == OPEN_BRACKET && t[1] == CLOSE_BRACKET ==> Reads(t, Array([]), t[2..])
    ensures t[0] == OPEN_BRACE && t[1] == CLOSE_BRACE ==> Reads(t, Object([]), t[2..])
  {
    assert t == [t[0], t[1]] + t[2..];
    assert Print(Array([])) == [OPEN_BRACKET, CLOSE_BRACKET];
    assert Print(Object([])) == [OPEN_BRACE, CLOSE_BRACE];
  }

  lemma {:induction false} ParsedIsPrinted(t: Text)
    requires ParseValue(t).Some?
    ensures Reads(t, ParseValue(t).value.0, ParseValue(t).value.1)
    decreases |t|, 0
  {
    if t[0] == QUOTE {
      ScanStringSound(t[1..]);
      var (body, rest) := ScanString(t[1..]).value;
      ReadsString(t, body, rest);
    } else if t[0] == OPEN_BRACKET {
      if |t| > 1 && t[1] == CLOSE_BRACKET {
        ReadsEmpty(t);
      } else {
        ParsedItemsArePrinted(t[1..]);
        ReadsArray(t, ParseItems(t[1..]).value.0, ParseItems(t[1..]).value.1);
      }
    } else if t[0] == OPEN_BRACE {
      if |t| > 1 && t[1] == CLOSE_BRACE {
        ReadsEmpty(t);
      } else {
        ParsedMembersArePrinted(t[1..]);
        ReadsObject(t, ParseMembers(t[1..]).value.0, ParseMembers(t[1..]).value.1);
      }
    } else {
      ScalarSound(t);
    }
  }

  lemma {:induction false} ParsedItemsArePrinted(t: Text)
    requires ParseItems(t).Some?
    ensures ReadsItems(t, ParseItems(t).value.0, ParseItems(t).value.1)
    decreases |t|, 1
  {
    ParsedIsPrinted(t);
    var (v, rest) := ParseValue(t).value;
    if rest[0] == CLOSE_BRACKET {
      assert rest == [CLOSE_BRACKET] + rest[1..];
      assert PrintItems([v]) == Print(v);
    } else {
      ParsedItemsArePrinted(rest[1..]);
      ItemsStep(t, v, ParseItems(rest[1..]).value.0, ParseItems(rest[1..]).value.1, rest);
    }
  }

  lemma ItemsStep(t: Text, v: Value, vs: seq<Value>, rest': Text, rest: Text)
    requires vs != [] && rest != [] && rest[0] == COMMA
    requires Reads(t, v, rest) && ReadsItems(rest[1..], vs, rest')
    ensures ReadsItems(t, [v] + vs, rest')
  {
    assert ([v] + vs)[1..] == vs;
    FirstItem([v] + vs, rest');
    assert rest == [COMMA] + rest[1..];
  }

  predicate MemberWellFormed(m: Member) { IsStringBody(m.name) && WellFormed(m.value) }

  lemma {:induction false} ParsedMembersArePrinted(t: Text)
    requires ParseMembers(t).Some?
    ensures ReadsMembers(t, ParseMembers(t).value.0, ParseMembers(t).value.1)
    decreases |t|, 1
  {
    ScanStringSound(t[1..]);
    var (name, afterName) := ScanString(t[1..]).value;
    ParsedIsPrinted(afterName[1..]);
    var (v, rest) := ParseValue(afterName[1..]).value;
    var m := Member(name, v);
    MemberText(t, name, afterName, v, rest);
    if rest[0] == CLOSE_BRACE {
      LastMember(t, m, rest);
    } else {
      ParsedMembersArePrinted(rest[1..]);
      MembersStep(t, m, ParseMembers(rest[1..]).value.0, ParseMembers(rest[1..]).value.1, rest);
    }
  }

  lemma LastMember(t: Text, m: Member, rest: Text)
    requires rest != [] && rest[0] == CLOSE_BRACE && MemberWellFormed(m) && t == PrintMember(m) + rest
    ensures ReadsMembers(t, [m], rest[1..])
  {
    assert rest == [CLOSE_BRACE] + rest[1..];
    assert PrintMembers([m]) == PrintMember(m);
  }

  lemma MembersStep(t: Text, m: Member, ms: seq<Member>, rest': Text, rest: Text)
    requires ms != [] && rest != [] && rest[0] == COMMA && MemberWellFormed(m)
    requires t == PrintMember(m) + rest && ReadsMembers(rest[1..], ms, rest')
    ensures ReadsMembers(t, [m] + ms, rest')
  {
    assert ([m] + ms)[1..] == ms;
    FirstMember([m] + ms, rest');
    assert rest == [COMMA] + rest[1..];
  }

  lemma MemberText(t: Text, name: Text, afterName: Text, v: Value, rest: Text)
    requires t != [] && t[0] == QUOTE && t[1..] == name + [QUOTE] + afterName
    requires afterName != [] && afterName[0] == COLON && afterName[1..] == Print(v) + rest
    ensures t == PrintMember(Member(name, v)) + rest
  {
    assert t == [QUOTE] + t[1..] && afterName == [COLON] + afterName[1..];
  }

  /** A text is a JSON text exactly when it is the print of a well-formed value,
      and that value is the one the parser returns. */
  lemma ParseIffPrinted(t: Text, v: Value)
    ensures Parse(t) == Some(v) <==> WellFormed(v) && t == Print(v)
  {
    if Parse(t) == Some(v) {
      ParsedIsPrinted(t);
      assert Print(v) + [] == Print(v);
    }
    if WellFormed(v) && t == Print(v) {
      ParsePrint(v);
    }
  }

  /** [false,-10] in bytes. */
  lemma SampleArray()
    ensures Parse([91, 102, 97, 108, 115, 101, 44, 45, 49, 48, 93]) == Some(Array([False, Number([45, 49, 48])]))
  {
    var items := [False, Number([45, 49, 48])];
    assert items[1..] == [Number([45, 49, 48])];
    assert Print(Array(items)) == [91, 102, 97, 108, 115, 101, 44, 45, 49, 48, 93];
    assert IsNumber([45, 49, 48]);
    ParsePrint(Array(items));
  }

  /** {"a":null,"b":"c"} and true in bytes. */
  lemma SampleObject()
    ensures Parse([123, 34, 97, 34, 58, 110, 117, 108, 108, 44, 34, 98, 34, 58, 34, 99, 34, 125]) ==
            Some(Object([Member([97], Null), Member([98], String([99]))]))
    ensures Parse([116, 114, 117, 101]) == Some(True)
  {
    var members := [Member([97], Null), Member([98], String([99]))];
    assert members[1..] == [Member([98], String([99]))];
    assert PrintMembers(members[1..]) == [34, 98, 34, 58, 34, 99, 34];
    assert PrintMember(members[0]) == [34, 97, 34, 58, 110, 117, 108, 108];
    assert Print(Object(members)) ==
           [123, 34, 97, 34, 58, 110, 117, 108, 108, 44, 34, 98, 34, 58, 34, 99, 34, 125];
    assert IsStringBody([97]) && IsStringBody([98]) && IsStringBody([99]);
    ParsePrint(Object(members));
    ParsePrint(True);
  }

  // ---- arrays as joined parts ----

  function Texts(vs: seq<Value>): seq<Text>
  {
    seq(|vs|, i requires 0 <= i < |vs| => Print(vs[i]))
  }

  lemma {:induction false} PrintItemsIsJoin(vs: seq<Value>)
    ensures PrintItems(vs) == Join(Texts(vs))
  {
    if |vs| > 1 {
      PrintItemsIsJoin(vs[1..]);
      JoinFront(Texts(vs));
      assert Texts(vs)[1..] == Texts(vs[1..]);
    }
  }

  /** Each part, read on its own. */
  function Values(parts: seq<Text>): (vs: seq<Value>)
    requires forall i :: 0 <= i < |parts| ==> IsText(parts[i])
    ensures |vs| == |parts|
  {
    seq(|parts|, i requires 0 <= i < |parts| && IsText(parts[i]) => Parse(parts[i]).value)
  }

  /** JSON texts between brackets with single commas are an array of exactly
      those values in that order (section 5 of RFC 8259). */
  lemma ArrayOfParts(parts: seq<Text>)
    requires forall i :: 0 <= i < |parts| ==> IsText(parts[i])
    ensures Parse([OPEN_BRACKET] + Join(parts) + [CLOSE_BRACKET]) == Some(Array(Values(parts)))
  {
    var vs := Values(parts);
    forall i | 0 <= i < |parts| ensures WellFormed(vs[i]) && Print(vs[i]) == parts[i] {
      ParseIffPrinted(parts[i], vs[i]);
    }
    assert Texts(vs) == parts;
    PrintItemsIsJoin(vs);
    ParsePrint(Array(vs));
  }
}
