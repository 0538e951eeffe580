/** The printing of a map of fields as a JSON object, with sorted keys. */
module FieldPrinter {
  import opened Bytes
  import opened Json
  import opened JsonStrings
  import opened Sequences

  /** What a field holds: nothing, or a value of some kind. */
  datatype Kind = Pointer | Slice | Map | Other

  datatype Field = Nothing | Thing(kind: Kind, isNil: bool, content: int)

  type FieldMap = map<Text, Field>

  /** The JSON encoder of single values. */
  type Marshal = Field -> Option<Text>

  function MaybeMarshal(marshal: Marshal, v: Field): Option<Text>
  {
    if v.Nothing? then None
    else if v.kind in {Pointer, Slice, Map} && v.isNil then None
    else marshal(v)
  }

  /** A printed field: its key as it stands, and the text of its value. */
  datatype Entry = Entry(key: Text, text: Text)

  function EntryText(e: Entry): Text
  {
    [QUOTE] + e.key + [QUOTE, COLON] + e.text
  }

  function EntryTexts(es: seq<Entry>): seq<Text>
  {
    seq(|es|, i requires 0 <= i < |es| => EntryText(es[i]))
  }

  function PrintEntries(es: seq<Entry>): Text
  {
    [OPEN_BRACE] + Join(EntryTexts(es)) + [CLOSE_BRACE]
  }

  // ---- the order of keys ----

  /** Byte by byte, a prefix first. */
  predicate LessEq(a: Text, b: Text)
  {
    a == [] || (b != [] && (a[0] < b[0] || (a[0] == b[0] && LessEq(a[1..], b[1..]))))
  }

  predicate Less(a: Text, b: Text) { a != b && LessEq(a, b) }

  lemma {:induction false} OrderIsTotal(a: Text, b: Text)
    ensures LessEq(a, b) || LessEq(b, a)
    ensures LessEq(a, b) && LessEq(b, a) ==> a == b
  {
    if a != [] && b != [] {
      OrderIsTotal(a[1..], b[1..]);
      if a[0] == b[0] && a[1..] == b[1..] {
        assert a == [a[0]] + a[1..] && b == [b[0]] + b[1..];
      }
    }
  }

  lemma {:induction false} OrderIsTransitive(a: Text, b: Text, c: Text)
    requires LessEq(a, b) && LessEq(b, c)
    ensures LessEq(a, c)
  {
    if a != [] && a[0] == b[0] && b[0] == c[0] {
      OrderIsTransitive(a[1..], b[1..], c[1..]);
    }
  }

  lemma LessIsTransitive(a: Text, b: Text, c: Text)
    requires Less(a, b) && Less(b, c)
    ensures Less(a, c)
  {
    OrderIsTransitive(a, b, c);
    OrderIsTotal(a, b);
  }

  /** One key is less than another when it is a proper prefix of it, or has the smaller
      byte where they first differ. */
  lemma {:induction false} LessIff(a: Text, b: Text)
    ensures Less(a, b) <==>
            (|a| < |b| && a == b[..|a|]) ||
            exists i :: FirstDiffer(a, b, i)
  {
    if a != [] && b != [] && a[0] == b[0] {
      LessIff(a[1..], b[1..]);
      SameFirstByte(a, b);
    } else if a != [] && b != [] {
      assert FirstDiffer(a, b, 0) <==> a[0] < b[0];
    }
  }

  predicate FirstDiffer(a: Text, b: Text, i: nat)
  {
    i < |a| && i < |b| && a[..i] == b[..i] && a[i] < b[i]
  }

  lemma SameFirstByte(a: Text, b: Text)
    requires a != [] && b != [] && a[0] == b[0]
    ensures a == b <==> a[1..] == b[1..]
    ensures (|a| < |b| && a == b[..|a|]) <==> (|a[1..]| < |b[1..]| && a[1..] == b[1..][..|a[1..]|])
    ensures (exists i :: FirstDiffer(a, b, i)) <==> (exists i :: FirstDiffer(a[1..], b[1..], i))
  {
    assert a == [a[0]] + a[1..] && b == [b[0]] + b[1..];
    if |a| < |b| {
      assert b[..|a|] == [b[0]] + b[1..][..|a| - 1];
    }
    forall i: nat | i < |a[1..]| && i < |b[1..]|
      ensures FirstDiffer(a, b, i + 1) <==> FirstDiffer(a[1..], b[1..], i)
    {
      assert a[..i + 1] == [a[0]] + a[1..][..i] && b[..i + 1] == [b[0]] + b[1..][..i];
      assert a[..i + 1][1..] == a[1..][..i] && b[..i + 1][1..] == b[1..][..i];
    }
    if i: nat :| FirstDiffer(a, b, i) {
      assert FirstDiffer(a[1..], b[1..], i - 1);
    }
  }

  predicate Ascending(s: seq<Text>)
  {
    forall i, j :: 0 <= i < j < |s| ==> Less(s[i], s[j])
  }

  predicate Before(k: Text, s: seq<Text>)
  {
    forall i :: 0 <= i < |s| ==> Less(k, s[i])
  }

  ghost predicate Holds(s: seq<Text>, ks: set<Text>)
  {
    forall k :: k in s <==> k in ks
  }

  /** There is only one ascending order of a set of keys. */
  lemma {:induction false} OneOrder(s: seq<Text>, t: seq<Text>, ks: set<Text>)
    requires Ascending(s) && Ascending(t) && Holds(s, ks) && Holds(t, ks)
    ensures s == t
    decreases |s|
  {
    if t != [] {
      assert t[0] in t;
    }
    if s != [] {
      SameFirst(s, t, ks);
      Rest(s, ks);
      Rest(t, ks);
      OneOrder(s[1..], t[1..], ks - {s[0]});
      assert s == [s[0]] + s[1..] && t == [t[0]] + t[1..];
    }
  }

  lemma SameFirst(s: seq<Text>, t: seq<Text>, ks: set<Text>)
    requires Ascending(s) && Ascending(t) && Holds(s, ks) && Holds(t, ks) && s != []
    ensures t != [] && s[0] == t[0]
  {
    assert s[0] in s;
    assert t[0] in t;
    var i :| 0 <= i < |t| && t[i] == s[0];
    var j :| 0 <= j < |s| && s[j] == t[0];
    OrderIsTotal(s[0], t[0]);
  }

  lemma Rest(s: seq<Text>, ks: set<Text>)
    requires Ascending(s) && Holds(s, ks) && s != []
    ensures Ascending(s[1..]) && Holds(s[1..], ks - {s[0]})
  {
    forall k ensures k in s[1..] <==> k in ks - {s[0]} {
      if k in s[1..] {
        var i :| 0 <= i < |s[1..]| && s[1..][i] == k;
        assert s[i + 1] == k && Less(s[0], s[i + 1]);
      }
    }
  }

  // ---- sorting ----

  function Insert(s: seq<Text>, x: Text): seq<Text>
  {
    if s == [] then [x] else if LessEq(x, s[0]) then [x] + s else [s[0]] + Insert(s[1..], x)
  }

  function SortStrings(s: seq<Text>): seq<Text>
  {
    if s == [] then [] else Insert(SortStrings(s[..|s| - 1]), s[|s| - 1])
  }

  lemma {:induction false} InsertHolds(s: seq<Text>, x: Text)
    ensures forall k :: k in Insert(s, x) <==> k in s || k == x
  {
    if s != [] && !LessEq(x, s[0]) {
      InsertHolds(s[1..], x);
      assert s == [s[0]] + s[1..];
    }
  }

  lemma {:induction false} InsertAscends(s: seq<Text>, x: Text)
    requires Ascending(s) && x !in s
    ensures Ascending(Insert(s, x))
  {
    if s != [] {
      assert s[0] in s;
      OrderIsTotal(x, s[0]);
      if LessEq(x, s[0]) {
        forall i | 0 <= i < |s| ensures Less(x, s[i]) {
          if i > 0 { LessIsTransitive(x, s[0], s[i]); }
        }
      } else {
        InsertAscends(s[1..], x);
        InsertHolds(s[1..], x);
        assert Before(s[0], Insert(s[1..], x)) by {
          forall i | 0 <= i < |Insert(s[1..], x)| ensures Less(s[0], Insert(s[1..], x)[i]) {
            assert Insert(s[1..], x)[i] in Insert(s[1..], x);
          }
        }
      }
    }
  }

  lemma {:induction false} SortSorts(s: seq<Text>, ks: set<Text>)
    requires NoRepeats(s) && Holds(s, ks)
    ensures Ascending(SortStrings(s)) && Holds(SortStrings(s), ks)
  {
    if s != [] {
      var n := |s| - 1;
      var x := s[n];
      assert s == s[..n] + [x];
      assert x !in s[..n];
      SortSorts(s[..n], ks - {x});
      InsertAscends(SortStrings(s[..n]), x);
      InsertHolds(SortStrings(s[..n]), x);
    }
  }

  // ---- the printer ----

  /** The fields of these keys that can be marshalled, in the order of the keys. */
  function EntriesOf(marshal: Marshal, m: FieldMap, keys: seq<Text>): seq<Entry>
    requires forall k :: k in keys ==> k in m
  {
    if keys == [] then []
    else
      var n := |keys| - 1;
      var b := MaybeMarshal(marshal, m[keys[n]]);
      EntriesOf(marshal, m, keys[..n]) + (if b.Some? then [Entry(keys[n], b.value)] else [])
  }

  lemma EntriesMore(marshal: Marshal, m: FieldMap, keys: seq<Text>, i: nat)
    requires i < |keys| && forall k :: k in keys ==> k in m
    ensures var b := MaybeMarshal(marshal, m[keys[i]]);
            EntriesOf(marshal, m, keys[..i + 1]) ==
            EntriesOf(marshal, m, keys[..i]) + (if b.Some? then [Entry(keys[i], b.value)] else [])
  {
    assert keys[..i + 1][..i] == keys[..i];
  }

  lemma EntryTextsMore(es: seq<Entry>, e: Entry)
    ensures Join(EntryTexts(es + [e])) ==
            Join(EntryTexts(es)) + (if es == [] then [] else [COMMA]) + EntryText(e)
  {
    assert EntryTexts(es + [e]) == EntryTexts(es) + [EntryText(e)];
    JoinAppend(EntryTexts(es), EntryText(e));
  }

  lemma WriteEntry(out: Text, e: Entry)
    ensures out + [QUOTE] + e.key + [QUOTE] + [COLON] + e.text == out + EntryText(e)
  {
  }

  /** Prints the fields that can be marshalled, keys ascending, whatever order the map
      hands its keys out in. */
  method MarshalJSON(marshal: Marshal, m: FieldMap) returns (out: Text)
    ensures forall keys :: Ascending(keys) && Holds(keys, m.Keys) ==> out == PrintEntries(EntriesOf(marshal, m, keys))
    ensures exists keys :: Ascending(keys) && Holds(keys, m.Keys)
  {
    var keys: seq<Text> := [];
    var todo := m.Keys;
    while todo != {}
      invariant todo <= m.Keys && Holds(keys, m.Keys - todo) && NoRepeats(keys)
    {
      var k :| k in todo;
      keys, todo := keys + [k], todo - {k};
    }
    SortSorts(keys, m.Keys);
    keys := SortStrings(keys);
    forall other | Ascending(other) && Holds(other, m.Keys) ensures other == keys {
      OneOrder(other, keys, m.Keys);
    }
    out := PrintSorted(marshal, m, keys);
  }

  method PrintSorted(marshal: Marshal, m: FieldMap, keys: seq<Text>) returns (out: Text)
    requires forall k :: k in keys ==> k in m
    ensures out == PrintEntries(EntriesOf(marshal, m, keys))
  {
    out := [OPEN_BRACE];
    var first := true;
    ghost var printed: seq<Entry> := [];
    for i := 0 to |keys|
      invariant printed == EntriesOf(marshal, m, keys[..i]) && (first <==> printed == [])
      invariant out == [OPEN_BRACE] + Join(EntryTexts(printed))
    {
      EntriesMore(marshal, m, keys, i);
      var b := MaybeMarshal(marshal, m[keys[i]]);
      if b.Some? {
        ghost var e := Entry(keys[i], b.value);
        EntryTextsMore(printed, e);
        WriteEntry(out + (if first then [] else [COMMA]), e);
        Regroup([OPEN_BRACE], Join(EntryTexts(printed)), if first then [] else [COMMA]);
        Regroup([OPEN_BRACE], Join(EntryTexts(printed)) + (if first then [] else [COMMA]), EntryText(e));
        if first {
          first := false;
          assert out + [] == out;
        } else {
          out := out + [COMMA];
        }
        out := out + [QUOTE];
        out := out + keys[i];
        out := out + [QUOTE];
        out := out + [COLON];
        out := out + b.value;
        printed := printed + [e];
      }
    }
    out := out + [CLOSE_BRACE];
    assert keys[..|keys|] == keys;
  }

  /** A field is printed when it holds something that is not a nil pointer, slice or
      map, and the encoder has a text for it. */
  predicate IsPrinted(marshal: Marshal, v: Field)
  {
    v.Thing? && !(v.isNil && (v.kind == Pointer || v.kind == Slice || v.kind == Map)) && marshal(v).Some?
  }

  /** The entries are exactly the printed fields, each once and with the encoder's text. */
  lemma {:induction false} EntriesAreFields(marshal: Marshal, m: FieldMap, keys: seq<Text>)
    requires NoRepeats(keys) && forall k :: k in keys ==> k in m
    ensures forall e :: e in EntriesOf(marshal, m, keys) <==>
                        e.key in keys && IsPrinted(marshal, m[e.key]) && e.text == marshal(m[e.key]).value
    ensures DistinctKeys(EntriesOf(marshal, m, keys))
  {
    if keys != [] {
      var n := |keys| - 1;
      assert keys == keys[..n] + [keys[n]];
      EntriesAreFields(marshal, m, keys[..n]);
      var front := EntriesOf(marshal, m, keys[..n]);
      forall i | 0 <= i < |front| ensures front[i].key != keys[n] {
        assert front[i] in front;
      }
    }
  }

  // ---- reading the print back ----

  /** The contract of the encoder of single values: it prints JSON texts. */
  predicate JsonTexts(es: seq<Entry>)
  {
    forall i :: 0 <= i < |es| ==> IsText(es[i].text)
  }

  function Members(es: seq<Entry>): (ms: seq<Member>)
    requires JsonTexts(es)
    ensures |ms| == |es|
  {
    seq(|es|, i requires 0 <= i < |es| => Member(es[i].key, Parse(es[i].text).value))
  }

  function MemberTexts(ms: seq<Member>): seq<Text>
  {
    seq(|ms|, i requires 0 <= i < |ms| => PrintMember(ms[i]))
  }

  lemma {:induction false} PrintMembersIsJoin(ms: seq<Member>)
    ensures PrintMembers(ms) == Join(MemberTexts(ms))
  {
    if |ms| > 1 {
      PrintMembersIsJoin(ms[1..]);
      JoinFront(MemberTexts(ms));
      assert MemberTexts(ms)[1..] == MemberTexts(ms[1..]);
    }
  }

  lemma PrintIsObject(es: seq<Entry>)
    requires JsonTexts(es)
    ensures PrintEntries(es) == Print(Object(Members(es)))
    ensures forall i :: 0 <= i < |es| ==> WellFormed(Members(es)[i].value)
  {
    var ms := Members(es);
    forall i | 0 <= i < |es| ensures WellFormed(ms[i].value) && PrintMember(ms[i]) == EntryText(es[i]) {
      ParseIffPrinted(es[i].text, ms[i].value);
    }
    assert MemberTexts(ms) == EntryTexts(es);
    PrintMembersIsJoin(ms);
  }

  /** Reading gives these entries, in this order: keys as decoded, values as read. */
  ghost predicate ReadsAs(t: Text, es: seq<Entry>)
    requires JsonTexts(es)
  {
    exists ms :: Parse(t) == Some(Object(ms)) && SameFields(ms, es)
  }

  predicate SameField(m: Member, e: Entry)
    requires IsText(e.text)
  {
    IsStringBody(m.name) && Decode(m.name) == e.key && m.value == Parse(e.text).value
  }

  predicate SameFields(ms: seq<Member>, es: seq<Entry>)
    requires JsonTexts(es)
  {
    |ms| == |es| && forall i :: 0 <= i < |ms| ==> SameField(ms[i], es[i])
  }

  predicate PlainKeys(es: seq<Entry>)
  {
    forall i :: 0 <= i < |es| ==> IsPlain(es[i].key)
  }

  lemma FirstMemberText(m: Member, tail: Text)
    ensures PrintMember(m) + tail == [QUOTE] + (m.name + ([QUOTE] + ([COLON] + (Print(m.value) + tail))))
  {
  }

  /** Everything behind the first member. */
  function After(ms: seq<Member>): Text
    requires ms != []
  {
    if |ms| == 1 then [] else [COMMA] + PrintMembers(ms[1..])
  }

  lemma SplitFirst(ms: seq<Member>)
    requires ms != []
    ensures PrintMembers(ms) ==
            [QUOTE] + (ms[0].name + ([QUOTE] + ([COLON] + (Print(ms[0].value) + After(ms)))))
  {
    FirstMemberText(ms[0], After(ms));
    assert PrintMembers(ms) == PrintMember(ms[0]) + After(ms);
  }

  /** Two members in the same place with equal values, one of them read: the other is
      the same, and plain. */
  lemma FirstAgrees(ms: seq<Member>, read: seq<Member>)
    requires ms != [] && |ms| == |read| && PrintMembers(ms) == PrintMembers(read)
    requires IsStringBody(read[0].name) && Decode(read[0].name) == ms[0].name && read[0].value == ms[0].value
    ensures IsPlain(ms[0].name) && ms[0] == read[0] && PrintMembers(ms[1..]) == PrintMembers(read[1..])
  {
    SplitFirst(ms);
    SplitFirst(read);
    var v := Print(ms[0].value);
    var rest, rest' := [COLON] + (v + After(ms)), [COLON] + (v + After(read));
    SameLengthFront([QUOTE], ms[0].name + ([QUOTE] + rest), [QUOTE], read[0].name + ([QUOTE] + rest'));
    SamePlaceIsPlain(ms[0].name, read[0].name, rest, rest');
    SameLengthFront([COLON], v + After(ms), [COLON], v + After(read));
    SameLengthFront(v, After(ms), v, After(read));
    if |ms| > 1 {
      SameLengthFront([COMMA], PrintMembers(ms[1..]), [COMMA], PrintMembers(read[1..]));
    }
  }

  lemma {:induction false} AllAgree(es: seq<Entry>, read: seq<Member>)
    requires JsonTexts(es) && SameFields(read, es) && PrintMembers(Members(es)) == PrintMembers(read)
    ensures PlainKeys(es)
    decreases |es|
  {
    if es != [] {
      assert SameField(read[0], es[0]);
      FirstAgrees(Members(es), read);
      assert Members(es)[1..] == Members(es[1..]);
      forall i | 0 <= i < |es[1..]| ensures SameField(read[1..][i], es[1..][i]) {
        assert SameField(read[i + 1], es[i + 1]);
      }
      AllAgree(es[1..], read[1..]);
    }
  }

  lemma BracesOff(a: Text, b: Text)
    requires [OPEN_BRACE] + a + [CLOSE_BRACE] == [OPEN_BRACE] + b + [CLOSE_BRACE]
    ensures a == b
  {
    var t, t' := [OPEN_BRACE] + a + [CLOSE_BRACE], [OPEN_BRACE] + b + [CLOSE_BRACE];
    assert a == t[1..|t| - 1] && b == t'[1..|t'| - 1];
  }

  /** The print reads back as exactly the printed entries if and only if no printed key
      has a byte that needs an escape. */
  lemma ReadsBackIff(es: seq<Entry>)
    requires JsonTexts(es)
    ensures ReadsAs(PrintEntries(es), es) <==> PlainKeys(es)
  {
    var t := PrintEntries(es);
    PrintIsObject(es);
    if PlainKeys(es) {
      var ms := Members(es);
      forall i | 0 <= i < |es| ensures IsStringBody(ms[i].name) && SameField(ms[i], es[i]) {
        PlainIsItself(es[i].key);
      }
      ParsePrint(Object(ms));
      assert SameFields(ms, es);
    }
    if ReadsAs(t, es) {
      var ms :| Parse(t) == Some(Object(ms)) && SameFields(ms, es);
      ParseIffPrinted(t, Object(ms));
      BracesOff(PrintMembers(Members(es)), PrintMembers(ms));
      AllAgree(es, ms);
    }
  }

  predicate Named(ms: seq<Member>)
  {
    forall i :: 0 <= i < |ms| ==> IsStringBody(ms[i].name)
  }

  /** The map that an object stands for: a later member overrides an earlier one. */
  function AsMap(ms: seq<Member>): map<Text, Value>
    requires Named(ms)
  {
    if ms == [] then map[] else AsMap(ms[..|ms| - 1])[Decode(ms[|ms| - 1].name) := ms[|ms| - 1].value]
  }

  ghost predicate HasKey(es: seq<Entry>, k: Text)
  {
    exists e :: e in es && e.key == k
  }

  /** The map holds exactly the entries. */
  ghost predicate MapHolds(fields: map<Text, Value>, es: seq<Entry>)
    requires JsonTexts(es)
  {
    (forall e :: e in es ==> EntryIn(fields, e)) && forall k :: k in fields ==> HasKey(es, k)
  }

  predicate EntryIn(fields: map<Text, Value>, e: Entry)
  {
    e.key in fields && Some(fields[e.key]) == Parse(e.text)
  }

  lemma HoldsOneMore(fields: map<Text, Value>, es: seq<Entry>, e: Entry)
    requires JsonTexts(es) && IsText(e.text) && MapHolds(fields, es) && !HasKey(es, e.key)
    ensures JsonTexts(es + [e]) && MapHolds(fields[e.key := Parse(e.text).value], es + [e])
  {
    var more := fields[e.key := Parse(e.text).value];
    forall e' | e' in es + [e] ensures EntryIn(more, e') {
      if e' in es {
        assert EntryIn(fields, e');
      }
    }
    forall k | k in more ensures HasKey(es + [e], k) {
      if k == e.key {
        assert e in es + [e];
      } else {
        var e' :| e' in es && e'.key == k;
        assert e' in es + [e];
      }
    }
  }

  predicate DistinctKeys(es: seq<Entry>)
  {
    forall i, j :: 0 <= i < j < |es| ==> es[i].key != es[j].key
  }

  lemma FrontFields(ms: seq<Member>, es: seq<Entry>)
    requires JsonTexts(es) && SameFields(ms, es) && DistinctKeys(es) && ms != []
    ensures var n := |ms| - 1;
            JsonTexts(es[..n]) && SameFields(ms[..n], es[..n]) && DistinctKeys(es[..n]) &&
            !HasKey(es[..n], es[n].key) && SameField(ms[n], es[n]) && es == es[..n] + [es[n]]
  {
    var n := |ms| - 1;
    forall i | 0 <= i < n ensures SameField(ms[..n][i], es[..n][i]) {
      assert SameField(ms[i], es[i]);
    }
  }

  lemma FieldsAreNamed(ms: seq<Member>, es: seq<Entry>)
    requires JsonTexts(es) && SameFields(ms, es)
    ensures Named(ms)
  {
    assert forall i :: 0 <= i < |ms| ==> SameField(ms[i], es[i]);
  }

  lemma {:induction false} MapOfFields(ms: seq<Member>, es: seq<Entry>)
    requires JsonTexts(es) && SameFields(ms, es) && DistinctKeys(es)
    ensures Named(ms) && MapHolds(AsMap(ms), es)
  {
    FieldsAreNamed(ms, es);
    if ms != [] {
      var n := |ms| - 1;
      FrontFields(ms, es);
      MapOfFields(ms[..n], es[..n]);
      HoldsOneMore(AsMap(ms[..n]), es[..n], es[n]);
    }
  }

  /** The map read back holds this key just if its field is printed, and then the value
      that the encoder's text reads as. */
  predicate ReadsField(fields: map<Text, Value>, marshal: Marshal, m: FieldMap, k: Text)
  {
    if k in m && IsPrinted(marshal, m[k]) then k in fields && Some(fields[k]) == Parse(marshal(m[k]).value)
    else k !in fields
  }

  /** For keys without bytes that need an escape, printing a map of fields and reading
      it back gives exactly the printed fields. */
  lemma FieldsReadBack(marshal: Marshal, m: FieldMap, keys: seq<Text>)
    requires Ascending(keys) && Holds(keys, m.Keys)
    requires JsonTexts(EntriesOf(marshal, m, keys))
    requires forall k :: k in m && IsPrinted(marshal, m[k]) ==> IsPlain(k)
    ensures var v := Parse(PrintEntries(EntriesOf(marshal, m, keys)));
            v.Some? && v.value.Object? && Named(v.value.members) &&
            forall k :: ReadsField(AsMap(v.value.members), marshal, m, k)
  {
    var es := EntriesOf(marshal, m, keys);
    EntriesAreFields(marshal, m, keys);
    assert PlainKeys(es) by {
      forall i | 0 <= i < |es| ensures IsPlain(es[i].key) {
        assert es[i] in es;
      }
    }
    ReadsBackIff(es);
    var ms :| Parse(PrintEntries(es)) == Some(Object(ms)) && SameFields(ms, es);
    MapOfFields(ms, es);
    forall k ensures ReadsField(AsMap(ms), marshal, m, k) {
      FieldInMap(marshal, m, keys, ms, k);
    }
  }

  lemma FieldInMap(marshal: Marshal, m: FieldMap, keys: seq<Text>, ms: seq<Member>, k: Text)
    requires Ascending(keys) && Holds(keys, m.Keys) && JsonTexts(EntriesOf(marshal, m, keys))
    requires SameFields(ms, EntriesOf(marshal, m, keys)) && Named(ms)
    ensures ReadsField(AsMap(ms), marshal, m, k)
  {
    var es := EntriesOf(marshal, m, keys);
    EntriesAreFields(marshal, m, keys);
    MapOfFields(ms, es);
    if k in m && IsPrinted(marshal, m[k]) {
      var e := Entry(k, marshal(m[k]).value);
      assert e in es;
      assert EntryIn(AsMap(ms), e);
    }
  }

  /** One field whose key holds quotes prints like two fields. */
  lemma InjectedKey(one: Text)
    ensures var quoted := [97, QUOTE, COLON] + one + [COMMA, QUOTE, 98];
            PrintEntries([Entry(quoted, one)]) == PrintEntries([Entry([97], one), Entry([98], one)])
  {
    var quoted := [97, QUOTE, COLON] + one + [COMMA, QUOTE, 98];
    var a, b := Entry([97], one), Entry([98], one);
    EntryTextsMore([a], b);
    EntryTextsMore([], a);
    EntryTextsMore([], Entry(quoted, one));
    assert [] + [a] == [a] && [] + [Entry(quoted, one)] == [Entry(quoted, one)] && [a] + [b] == [a, b];
    assert EntryText(Entry(quoted, one)) == EntryText(a) + [COMMA] + EntryText(b);
  }
}
