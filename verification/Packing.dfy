/** How much of a list of events one request takes, and what that does to the
    list over the rounds of a fire. */
module Packing {
  import opened Bytes
  import opened Types
  import Json
  import Msgpack

  datatype Format = JsonFormat | MsgpackFormat

  /** The per-event encoder: any function that yields bytes or fails. */
  type Encoder = Event -> Option<Text>

  predicate Sendable(enc: Encoder, e: Event)
  {
    enc(e).Some? && |enc(e).value| <= API_EVENT_SIZE_MAX
  }

  function TextOf(enc: Encoder, e: Event): Text
  {
    if enc(e).Some? then enc(e).value else []
  }

  /** The events that can be sent at all, in order. */
  function Accepted(enc: Encoder, es: seq<Event>): (r: seq<Event>)
    ensures |r| <= |es|
  {
    if es == [] then []
    else
      var n := |es| - 1;
      Accepted(enc, es[..n]) + (if Sendable(enc, es[n]) then [es[n]] else [])
  }

  /** The events that cannot be sent, in order. */
  function Rejected(enc: Encoder, es: seq<Event>): seq<Event>
  {
    if es == [] then []
    else
      var n := |es| - 1;
      Rejected(enc, es[..n]) + (if Sendable(enc, es[n]) then [] else [es[n]])
  }

  /** The encodings of the sendable events. */
  function Payload(enc: Encoder, es: seq<Event>): (parts: seq<Text>)
    ensures |parts| == |Accepted(enc, es)|
  {
    var a := Accepted(enc, es);
    seq(|a|, i requires 0 <= i < |a| => TextOf(enc, a[i]))
  }

  function JsonBody(parts: seq<Text>): Text
  {
    [OPEN_BRACKET] + Join(parts) + [CLOSE_BRACKET]
  }

  function MsgpackBody(parts: seq<Text>): Text
  {
    Msgpack.ArrayHeader(|parts|) + Concat(parts)
  }

  function Body(fmt: Format, parts: seq<Text>): Text
  {
    match fmt
    case JsonFormat => JsonBody(parts)
    case MsgpackFormat => MsgpackBody(parts)
  }

  /** The size that the limit is checked against before a part is added: the JSON
      body as it would be closed now, or the msgpack body with the widest header. */
  function Filled(fmt: Format, parts: seq<Text>): nat
  {
    match fmt
    case JsonFormat => |JsonBody(parts)|
    case MsgpackFormat => Msgpack.MAX_HEADER + TotalLength(parts)
  }

  predicate Fits(fmt: Format, parts: seq<Text>, x: Text)
  {
    Filled(fmt, parts) + |x| <= API_MAX_BATCH_SIZE
  }

  /** c is where a request stops taking events: everything sendable before it
      fitted, and the event at c is the first sendable one that does not. */
  ghost predicate IsCut(fmt: Format, enc: Encoder, es: seq<Event>, c: nat)
  {
    c <= |es| &&
    (forall i :: 0 <= i < c && Sendable(enc, es[i]) ==> Fits(fmt, Payload(enc, es[..i]), TextOf(enc, es[i]))) &&
    (c < |es| ==> Sendable(enc, es[c]) && !Fits(fmt, Payload(enc, es[..c]), TextOf(enc, es[c])))
  }

  function CutFrom(fmt: Format, enc: Encoder, es: seq<Event>, i: nat): (c: nat)
    requires i <= |es|
    ensures c <= |es|
    decreases |es| - i
  {
    if i == |es| then i
    else if Sendable(enc, es[i]) && !Fits(fmt, Payload(enc, es[..i]), TextOf(enc, es[i])) then i
    else CutFrom(fmt, enc, es, i + 1)
  }

  function Cut(fmt: Format, enc: Encoder, es: seq<Event>): (c: nat)
    ensures c <= |es|
  {
    CutFrom(fmt, enc, es, 0)
  }

  lemma {:induction false} CutFromIsCut(fmt: Format, enc: Encoder, es: seq<Event>, i: nat)
    requires i <= |es|
    requires forall j :: 0 <= j < i && Sendable(enc, es[j]) ==> Fits(fmt, Payload(enc, es[..j]), TextOf(enc, es[j]))
    ensures IsCut(fmt, enc, es, CutFrom(fmt, enc, es, i))
    decreases |es| - i
  {
    if i < |es| && (Sendable(enc, es[i]) ==> Fits(fmt, Payload(enc, es[..i]), TextOf(enc, es[i]))) {
      CutFromIsCut(fmt, enc, es, i + 1);
    }
  }

  /** The cut is the one place that is one. */
  lemma CutIff(fmt: Format, enc: Encoder, es: seq<Event>, c: nat)
    ensures IsCut(fmt, enc, es, c) <==> c == Cut(fmt, enc, es)
  {
    CutFromIsCut(fmt, enc, es, 0);
  }

  /** The cut in bytes. Before it every sendable event fits: the JSON array as it would be
      closed without a comma, or five bytes and all values, is within 5,000,000. The event
      at the cut is at most 1,000,000 bytes and does not fit. */
  lemma CutInBytes(enc: Encoder, es: seq<Event>, i: nat)
    requires i < |es| && enc(es[i]).Some? && |enc(es[i]).value| <= 1_000_000
    ensures i < Cut(JsonFormat, enc, es) ==> |Join(Payload(enc, es[..i]))| + |enc(es[i]).value| + 2 <= 5_000_000
    ensures i == Cut(JsonFormat, enc, es) ==> |Join(Payload(enc, es[..i]))| + |enc(es[i]).value| + 2 > 5_000_000
    ensures i < Cut(MsgpackFormat, enc, es) ==> TotalLength(Payload(enc, es[..i])) + |enc(es[i]).value| + 5 <= 5_000_000
    ensures i == Cut(MsgpackFormat, enc, es) ==> TotalLength(Payload(enc, es[..i])) + |enc(es[i]).value| + 5 > 5_000_000
  {
    CutIff(JsonFormat, enc, es, Cut(JsonFormat, enc, es));
    CutIff(MsgpackFormat, enc, es, Cut(MsgpackFormat, enc, es));
  }

  /** Nothing that cannot be sent is where a request stops. */
  lemma CutIsSendable(fmt: Format, enc: Encoder, es: seq<Event>)
    requires Cut(fmt, enc, es) < |es|
    ensures var e := es[Cut(fmt, enc, es)]; enc(e).Some? && |enc(e).value| <= 1_000_000
  {
    CutIff(fmt, enc, es, Cut(fmt, enc, es));
  }

  /** What one request deals with, and what it leaves for a later one. */
  function Head(fmt: Format, enc: Encoder, es: seq<Event>): seq<Event>
  {
    es[..Cut(fmt, enc, es)]
  }

  function Tail(fmt: Format, enc: Encoder, es: seq<Event>): seq<Event>
  {
    es[Cut(fmt, enc, es)..]
  }

  // ---- filters ----

  lemma FiltersAppend(enc: Encoder, es: seq<Event>, i: nat)
    requires i < |es|
    ensures Sendable(enc, es[i]) ==>
              Accepted(enc, es[..i + 1]) == Accepted(enc, es[..i]) + [es[i]] &&
              Rejected(enc, es[..i + 1]) == Rejected(enc, es[..i]) &&
              Payload(enc, es[..i + 1]) == Payload(enc, es[..i]) + [TextOf(enc, es[i])]
    ensures !Sendable(enc, es[i]) ==>
              Accepted(enc, es[..i + 1]) == Accepted(enc, es[..i]) &&
              Rejected(enc, es[..i + 1]) == Rejected(enc, es[..i]) + [es[i]] &&
              Payload(enc, es[..i + 1]) == Payload(enc, es[..i])
  {
    assert es[..i + 1][..i] == es[..i];
  }

  lemma AcceptedLast(enc: Encoder, es: seq<Event>)
    requires es != []
    ensures var n := |es| - 1;
            Accepted(enc, es) == Accepted(enc, es[..n]) + (if Sendable(enc, es[n]) then [es[n]] else [])
  {
  }

  lemma {:induction false} AcceptedConcat(enc: Encoder, a: seq<Event>, b: seq<Event>)
    ensures Accepted(enc, a + b) == Accepted(enc, a) + Accepted(enc, b)
    decreases |b|
  {
    if b == [] {
      assert a + b == a;
    } else {
      var n := |b| - 1;
      AcceptedConcat(enc, a, b[..n]);
      assert (a + b)[..|a| + n] == a + b[..n];
      AcceptedLast(enc, a + b);
      AcceptedLast(enc, b);
    }
  }

  lemma RejectedLast(enc: Encoder, es: seq<Event>)
    requires es != []
    ensures var n := |es| - 1;
            Rejected(enc, es) == Rejected(enc, es[..n]) + (if Sendable(enc, es[n]) then [] else [es[n]])
  {
  }

  lemma {:induction false} RejectedConcat(enc: Encoder, a: seq<Event>, b: seq<Event>)
    ensures Rejected(enc, a + b) == Rejected(enc, a) + Rejected(enc, b)
    decreases |b|
  {
    if b == [] {
      assert a + b == a;
    } else {
      var n := |b| - 1;
      RejectedConcat(enc, a, b[..n]);
      assert (a + b)[..|a| + n] == a + b[..n];
      RejectedLast(enc, a + b);
      RejectedLast(enc, b);
    }
  }

  lemma {:induction false} FiltersCount(enc: Encoder, es: seq<Event>)
    ensures |Accepted(enc, es)| + |Rejected(enc, es)| == |es|
  {
    if es != [] {
      FiltersCount(enc, es[..|es| - 1]);
    }
  }

  lemma {:induction false} FiltersSound(enc: Encoder, es: seq<Event>)
    ensures forall i :: 0 <= i < |Accepted(enc, es)| ==>
              enc(Accepted(enc, es)[i]).Some? && |enc(Accepted(enc, es)[i]).value| <= 1_000_000
    ensures forall i :: 0 <= i < |Rejected(enc, es)| ==>
              enc(Rejected(enc, es)[i]).None? || |enc(Rejected(enc, es)[i]).value| > 1_000_000
  {
    if es != [] {
      FiltersSound(enc, es[..|es| - 1]);
    }
  }

  /** Accepting and rejecting only sorts events apart: nothing appears or is lost. */
  lemma {:induction false} FiltersPartition(enc: Encoder, es: seq<Event>)
    ensures multiset(Accepted(enc, es)) + multiset(Rejected(enc, es)) == multiset(es)
  {
    if es != [] {
      var n := |es| - 1;
      FiltersPartition(enc, es[..n]);
      assert es == es[..n] + [es[n]];
    }
  }

  // ---- sizes ----

  lemma {:induction false} PayloadSize(enc: Encoder, es: seq<Event>)
    ensures TotalLength(Payload(enc, es)) <= |Accepted(enc, es)| * API_EVENT_SIZE_MAX
  {
    if es != [] {
      var n := |es| - 1;
      PayloadSize(enc, es[..n]);
      FiltersAppend(enc, es, n);
      assert es[..n + 1] == es;
      if Sendable(enc, es[n]) {
        assert Payload(enc, es)[..|Payload(enc, es)| - 1] == Payload(enc, es[..n]);
      }
    }
  }

  lemma FilledSize(fmt: Format, parts: seq<Text>)
    ensures Filled(fmt, parts) <= TotalLength(parts) + |parts| + Msgpack.MAX_HEADER
  {
    JoinLength(parts);
  }

  /** A request that leaves events over has taken at least four of them. */
  lemma OverflowTakesFour(fmt: Format, enc: Encoder, es: seq<Event>)
    requires Tail(fmt, enc, es) != []
    ensures |Accepted(enc, Head(fmt, enc, es))| >= 4
    ensures |Tail(fmt, enc, es)| + 4 <= |es|
  {
    var head := Head(fmt, enc, es);
    CutIff(fmt, enc, es, Cut(fmt, enc, es));
    PayloadSize(enc, head);
    FilledSize(fmt, Payload(enc, head));
  }

  lemma TailShrinks(fmt: Format, enc: Encoder, es: seq<Event>)
    requires es != []
    ensures |Tail(fmt, enc, es)| < |es|
  {
    if Tail(fmt, enc, es) != [] {
      OverflowTakesFour(fmt, enc, es);
    }
  }

  lemma BodyAppend(parts: seq<Text>, x: Text)
    ensures |JsonBody(parts + [x])| == |JsonBody(parts)| + |x| + (if parts == [] then 0 else 1)
    ensures TotalLength(parts + [x]) == TotalLength(parts) + |x|
  {
    JoinAppend(parts, x);
    assert (parts + [x])[..|parts|] == parts;
  }

  /** Size of the body when the first i events have been dealt with. */
  lemma {:induction false} PrefixSize(fmt: Format, enc: Encoder, es: seq<Event>, i: nat)
    requires i <= Cut(fmt, enc, es)
    ensures var parts := Payload(enc, es[..i]);
            fmt.JsonFormat? ==>
              |JsonBody(parts)| <= API_MAX_BATCH_SIZE + (if |parts| <= 1 then 0 else 1)
    ensures fmt.MsgpackFormat? ==>
              Msgpack.MAX_HEADER + TotalLength(Payload(enc, es[..i])) <= API_MAX_BATCH_SIZE
  {
    if i > 0 {
      PrefixSize(fmt, enc, es, i - 1);
      FiltersAppend(enc, es, i - 1);
      CutIff(fmt, enc, es, Cut(fmt, enc, es));
      if Sendable(enc, es[i - 1]) {
        BodyAppend(Payload(enc, es[..i - 1]), TextOf(enc, es[i - 1]));
      }
    }
  }

  /** The size of the finished body: msgpack keeps within the limit; JSON, whose
      commas are counted only after the check, may pass it by one byte, and then
      only with two events or more. */
  lemma BodySize(fmt: Format, enc: Encoder, es: seq<Event>)
    ensures var parts := Payload(enc, Head(fmt, enc, es));
            match fmt
            case JsonFormat => |Body(fmt, parts)| <= API_MAX_BATCH_SIZE + (if |parts| <= 1 then 0 else 1)
            case MsgpackFormat => |Body(fmt, parts)| <= API_MAX_BATCH_SIZE
  {
    PrefixSize(fmt, enc, es, Cut(fmt, enc, es));
    ConcatLength(Payload(enc, Head(fmt, enc, es)));
  }

  /** A JSON body passes the limit exactly when its last event filled the batch
      to the byte and was not the first. */
  lemma JsonOvershootIff(enc: Encoder, es: seq<Event>)
    ensures var parts := Payload(enc, Head(JsonFormat, enc, es));
            |JsonBody(parts)| > API_MAX_BATCH_SIZE <==>
            |parts| >= 2 &&
            |JsonBody(parts[..|parts| - 1])| + |parts[|parts| - 1]| == API_MAX_BATCH_SIZE
  {
    var parts := Payload(enc, Head(JsonFormat, enc, es));
    BodySize(JsonFormat, enc, es);
    if |parts| >= 2 {
      var n := |parts| - 1;
      assert parts == parts[..n] + [parts[n]];
      BodyAppend(parts[..n], parts[n]);
    }
  }

  /** Events that encode to something have at most five million in a request, so
      that the header of the msgpack array never wraps. */
  lemma {:induction false} PartsBelowLength(parts: seq<Text>)
    requires forall i :: 0 <= i < |parts| ==> parts[i] != []
    ensures |parts| <= TotalLength(parts)
  {
    if parts != [] {
      PartsBelowLength(parts[..|parts| - 1]);
    }
  }

  // ---- what the server reads ----

  /** The contract of the JSON encoder: it prints JSON texts. */
  ghost predicate EncodesJson(enc: Encoder)
  {
    forall e :: enc(e).Some? ==> Json.IsText(enc(e).value)
  }

  /** The contract of the msgpack encoder: it prints non-empty self-delimiting values. */
  ghost predicate EncodesMsgpack(enc: Encoder, extent: Msgpack.Extent)
  {
    forall e :: enc(e).Some? ==> enc(e).value != [] && Msgpack.Delimits(extent, enc(e).value)
  }

  /** For every pattern of rejected and left-over events, the JSON body parses as
      the array of the accepted events' values. */
  lemma JsonBodyReads(enc: Encoder, es: seq<Event>)
    requires EncodesJson(enc)
    ensures var head := Head(JsonFormat, enc, es);
            var parts := Payload(enc, head);
            (forall i :: 0 <= i < |parts| ==> Json.IsText(parts[i])) &&
            Json.Parse(Body(JsonFormat, parts)) == Some(Json.Array(Json.Values(parts)))
  {
    FiltersSound(enc, Head(JsonFormat, enc, es));
    Json.ArrayOfParts(Payload(enc, Head(JsonFormat, enc, es)));
  }

  /** The msgpack body reads back as the accepted events' encodings, in number and order. */
  lemma MsgpackBodyReads(enc: Encoder, extent: Msgpack.Extent, es: seq<Event>)
    requires EncodesMsgpack(enc, extent)
    ensures var parts := Payload(enc, Head(MsgpackFormat, enc, es));
            Msgpack.ReadArray(extent, Body(MsgpackFormat, parts)) == Some(parts) &&
            Msgpack.ReadArrayHeader(Body(MsgpackFormat, parts)) == Some((|parts|, Concat(parts)))
  {
    var parts := Payload(enc, Head(MsgpackFormat, enc, es));
    PrefixSize(MsgpackFormat, enc, es, Cut(MsgpackFormat, enc, es));
    FiltersSound(enc, Head(MsgpackFormat, enc, es));
    PartsBelowLength(parts);
    Msgpack.ReadPackedArray(extent, parts);
    Msgpack.ReadHeader(|parts|, Concat(parts));
  }

  // ---- rounds ----

  /** The lists that one bucket fires, when at most n firings are allowed. */
  function Rounds(fmt: Format, enc: Encoder, es: seq<Event>, n: nat): (r: seq<seq<Event>>)
    ensures |r| <= n
  {
    if n == 0 || es == [] then [] else [es] + Rounds(fmt, enc, Tail(fmt, enc, es), n - 1)
  }

  /** What is left of the bucket after n firings. */
  function Residue(fmt: Format, enc: Encoder, es: seq<Event>, n: nat): (r: seq<Event>)
    ensures |r| <= |es|
  {
    if n == 0 || es == [] then es else Residue(fmt, enc, Tail(fmt, enc, es), n - 1)
  }

  lemma {:induction false} NextRound(fmt: Format, enc: Encoder, es: seq<Event>, n: nat)
    ensures var left := Residue(fmt, enc, es, n);
            Rounds(fmt, enc, es, n + 1) == Rounds(fmt, enc, es, n) + (if left == [] then [] else [left]) &&
            Residue(fmt, enc, es, n + 1) == if left == [] then [] else Tail(fmt, enc, left)
  {
    if n > 0 && es != [] {
      NextRound(fmt, enc, Tail(fmt, enc, es), n - 1);
    }
  }

  /** How many firings a bucket would take without a cap: the drain ends by itself. */
  function Firings(fmt: Format, enc: Encoder, es: seq<Event>): (n: nat)
    ensures n <= (|es| + 3) / 4
    decreases |es|
  {
    if es == [] then 0
    else
      TailShrinks(fmt, enc, es);
      assert Tail(fmt, enc, es) != [] ==> |Tail(fmt, enc, es)| + 4 <= |es| by {
        if Tail(fmt, enc, es) != [] { OverflowTakesFour(fmt, enc, es); }
      }
      1 + Firings(fmt, enc, Tail(fmt, enc, es))
  }

  /** A capped drain leaves nothing exactly when the bucket needs no more firings
      than the cap. */
  lemma {:induction false} DrainedIff(fmt: Format, enc: Encoder, es: seq<Event>, n: nat)
    ensures Residue(fmt, enc, es, n) == [] <==> Firings(fmt, enc, es) <= n
  {
    if n > 0 && es != [] {
      DrainedIff(fmt, enc, Tail(fmt, enc, es), n - 1);
    }
  }

  /** The firings of one fire: the first one, and a drain that runs while its
      counter has not passed the maximum. */
  const FIRINGS_PER_BUCKET: nat := 1 + (MAX_OVERFLOW_BATCHES + 1)

  lemma FortyEightDrain(fmt: Format, enc: Encoder, es: seq<Event>)
    requires |es| <= 48
    ensures Residue(fmt, enc, es, FIRINGS_PER_BUCKET) == []
  {
    DrainedIff(fmt, enc, es, FIRINGS_PER_BUCKET);
  }

  ghost predicate AllOfSize(enc: Encoder, es: seq<Event>, size: nat)
  {
    forall i :: 0 <= i < |es| ==> enc(es[i]).Some? && |enc(es[i]).value| == size
  }

  lemma LastOfSize(enc: Encoder, es: seq<Event>, size: nat)
    requires AllOfSize(enc, es, size) && size <= API_EVENT_SIZE_MAX && es != []
    ensures var n := |es| - 1;
            AllOfSize(enc, es[..n], size) && |TextOf(enc, es[n])| == size &&
            Payload(enc, es) == Payload(enc, es[..n]) + [TextOf(enc, es[n])]
  {
    var n := |es| - 1;
    FiltersAppend(enc, es, n);
    assert es[..n + 1] == es;
  }

  lemma TimesOneMore(n: nat, size: nat)
    ensures (n + 1) * size == n * size + size
  {
  }

  lemma {:induction false} UniformPayload(enc: Encoder, es: seq<Event>, size: nat)
    requires AllOfSize(enc, es, size) && size <= API_EVENT_SIZE_MAX
    ensures |Payload(enc, es)| == |es| && TotalLength(Payload(enc, es)) == |es| * size
  {
    if es != [] {
      var n := |es| - 1;
      LastOfSize(enc, es, size);
      UniformPayload(enc, es[..n], size);
      BodyAppend(Payload(enc, es[..n]), TextOf(enc, es[n]));
      TimesOneMore(n, size);
    }
  }

  /** Events of the largest size go four to a request. */
  lemma LargestGoInFours(fmt: Format, enc: Encoder, es: seq<Event>)
    requires AllOfSize(enc, es, API_EVENT_SIZE_MAX)
    ensures Cut(fmt, enc, es) == if |es| <= 4 then |es| else 4
  {
    var c := Cut(fmt, enc, es);
    CutIff(fmt, enc, es, c);
    if |es| > 4 {
      UniformPayload(enc, es[..4], API_EVENT_SIZE_MAX);
      JoinLength(Payload(enc, es[..4]));
      assert !Fits(fmt, Payload(enc, es[..4]), TextOf(enc, es[4]));
    }
    if c >= 4 {
    } else if c < 4 && c < |es| {
      UniformPayload(enc, es[..c], API_EVENT_SIZE_MAX);
      JoinLength(Payload(enc, es[..c]));
    }
  }

  lemma {:induction false} LargestFirings(fmt: Format, enc: Encoder, es: seq<Event>)
    requires AllOfSize(enc, es, API_EVENT_SIZE_MAX)
    ensures Firings(fmt, enc, es) == (|es| + 3) / 4
    decreases |es|
  {
    if es != [] {
      LargestGoInFours(fmt, enc, es);
      LargestFirings(fmt, enc, Tail(fmt, enc, es));
    }
  }

  /** With events of the largest size, one fire drains a bucket exactly when it
      holds at most 48 of them. */
  lemma LargestDrainIff(fmt: Format, enc: Encoder, es: seq<Event>)
    requires AllOfSize(enc, es, API_EVENT_SIZE_MAX)
    ensures Residue(fmt, enc, es, FIRINGS_PER_BUCKET) == [] <==> |es| <= 48
  {
    LargestFirings(fmt, enc, es);
    DrainedIff(fmt, enc, es, FIRINGS_PER_BUCKET);
  }

  // ---- order over the rounds ----

  function Sent(fmt: Format, enc: Encoder, rounds: seq<seq<Event>>): seq<Event>
  {
    if rounds == [] then []
    else Accepted(enc, Head(fmt, enc, rounds[0])) + Sent(fmt, enc, rounds[1..])
  }

  function Refused(fmt: Format, enc: Encoder, rounds: seq<seq<Event>>): seq<Event>
  {
    if rounds == [] then []
    else Rejected(enc, Head(fmt, enc, rounds[0])) + Refused(fmt, enc, rounds[1..])
  }

  lemma SuffixOfSuffix(es: seq<Event>, i: nat, k: nat)
    requires i <= |es| && k <= |es| - i
    ensures es[i..][|es| - i - k..] == es[|es| - k..]
    ensures es[..|es| - k] == es[..i] + es[i..][..|es| - i - k]
  {
  }

  lemma {:induction false} ResidueIsSuffix(fmt: Format, enc: Encoder, es: seq<Event>, n: nat)
    ensures es[|es| - |Residue(fmt, enc, es, n)|..] == Residue(fmt, enc, es, n)
  {
    if n > 0 && es != [] {
      var i := Cut(fmt, enc, es);
      ResidueIsSuffix(fmt, enc, es[i..], n - 1);
      var left := Residue(fmt, enc, es[i..], n - 1);
      assert Residue(fmt, enc, es, n) == left;
      SuffixOfSuffix(es, i, |left|);
    }
  }

  /** The events that n firings take from the bucket. */
  function Taken(fmt: Format, enc: Encoder, es: seq<Event>, n: nat): seq<Event>
  {
    es[..|es| - |Residue(fmt, enc, es, n)|]
  }

  lemma TakenStep(fmt: Format, enc: Encoder, es: seq<Event>, n: nat)
    requires n > 0 && es != []
    ensures Taken(fmt, enc, es, n) == Head(fmt, enc, es) + Taken(fmt, enc, Tail(fmt, enc, es), n - 1)
  {
    SuffixOfSuffix(es, Cut(fmt, enc, es), |Residue(fmt, enc, Tail(fmt, enc, es), n - 1)|);
  }

  lemma SentStep(fmt: Format, enc: Encoder, es: seq<Event>, later: seq<seq<Event>>, taken: seq<Event>)
    requires Sent(fmt, enc, later) == Accepted(enc, taken)
    requires Refused(fmt, enc, later) == Rejected(enc, taken)
    ensures Sent(fmt, enc, [es] + later) == Accepted(enc, Head(fmt, enc, es) + taken)
    ensures Refused(fmt, enc, [es] + later) == Rejected(enc, Head(fmt, enc, es) + taken)
  {
    assert ([es] + later)[1..] == later;
    AcceptedConcat(enc, Head(fmt, enc, es), taken);
    RejectedConcat(enc, Head(fmt, enc, es), taken);
  }

  lemma {:induction false} SentInOrder(fmt: Format, enc: Encoder, es: seq<Event>, n: nat)
    ensures Sent(fmt, enc, Rounds(fmt, enc, es, n)) == Accepted(enc, Taken(fmt, enc, es, n))
    ensures Refused(fmt, enc, Rounds(fmt, enc, es, n)) == Rejected(enc, Taken(fmt, enc, es, n))
    decreases n
  {
    if n > 0 && es != [] {
      var tail := Tail(fmt, enc, es);
      SentInOrder(fmt, enc, tail, n - 1);
      SentStep(fmt, enc, es, Rounds(fmt, enc, tail, n - 1), Taken(fmt, enc, tail, n - 1));
      TakenStep(fmt, enc, es, n);
    } else {
      assert Taken(fmt, enc, es, n) == [];
    }
  }

  /** Over all its rounds a bucket is taken in arrival order: up to one point every
      event is either sent or refused, each once and in order, and from that
      point on everything is left over. */
  lemma ArrivalOrder(fmt: Format, enc: Encoder, es: seq<Event>, n: nat)
    ensures es == Taken(fmt, enc, es, n) + Residue(fmt, enc, es, n)
    ensures Sent(fmt, enc, Rounds(fmt, enc, es, n)) == Accepted(enc, Taken(fmt, enc, es, n))
    ensures Refused(fmt, enc, Rounds(fmt, enc, es, n)) == Rejected(enc, Taken(fmt, enc, es, n))
  {
    ResidueIsSuffix(fmt, enc, es, n);
    SentInOrder(fmt, enc, es, n);
  }

  // ---- witnesses ----

  /** Five events of 999,999 bytes print a body one byte over the limit. */
  lemma JsonOvershootWitness(enc: Encoder, es: seq<Event>)
    requires |es| == 5 && AllOfSize(enc, es, 999_999)
    ensures Tail(JsonFormat, enc, es) == []
    ensures |Body(JsonFormat, Payload(enc, Head(JsonFormat, enc, es)))| == API_MAX_BATCH_SIZE + 1
  {
    var c := Cut(JsonFormat, enc, es);
    CutIff(JsonFormat, enc, es, c);
    UniformPayload(enc, es[..c], 999_999);
    JoinLength(Payload(enc, es[..c]));
  }
}
