/** The histories that a batch aggregator leaves behind. */
module History {
  import opened Types
  import opened Packing
  import opened Buckets
  import opened Firing
  import opened Sequences

  /** The firings of one key, in order. */
  function Project(h: seq<Firing>, k: string): seq<Firing>
  {
    if h == [] then []
    else
      var n := |h| - 1;
      Project(h[..n], k) + (if h[n].key == k then [h[n]] else [])
  }

  /** The requests that a run of firings has made. */
  function Transcript(cfg: Config, h: seq<Firing>): seq<Request>
  {
    if h == [] then []
    else
      var n := |h| - 1;
      FireOutcome(cfg, Transcript(cfg, h[..n]), h[n].events).1
  }

  /** Every outcome in the history is what the server made of that firing then. */
  ghost predicate Genuine(cfg: Config, h: seq<Firing>)
  {
    forall i :: 0 <= i < |h| ==> h[i].outcome == FireOutcome(cfg, Transcript(cfg, h[..i]), h[i].events).0
  }

  lemma ExtendHistory(cfg: Config, h: seq<Firing>, f: Firing)
    requires Genuine(cfg, h)
    requires f.outcome == FireOutcome(cfg, Transcript(cfg, h), f.events).0
    ensures Genuine(cfg, h + [f])
    ensures Transcript(cfg, h + [f]) == FireOutcome(cfg, Transcript(cfg, h), f.events).1
    ensures AllOffers(cfg.format, cfg.encode, h + [f]) ==
            AllOffers(cfg.format, cfg.encode, h) + Offers(cfg.format, cfg.encode, f)
    ensures Project(h + [f], f.key) == Project(h, f.key) + [f]
    ensures forall k :: k != f.key ==> Project(h + [f], k) == Project(h, k)
  {
    var g := h + [f];
    assert g[..|h|] == h;
    forall i | 0 <= i < |g|
      ensures g[i].outcome == FireOutcome(cfg, Transcript(cfg, g[..i]), g[i].events).0
    {
      if i < |h| {
        assert g[..i] == h[..i];
      }
    }
  }

  /** The responses and requests that a history accounts for. */
  ghost predicate Accounts(cfg: Config, h: seq<Firing>, responses: seq<Response>, requests: seq<Request>)
  {
    responses == AllOffers(cfg.format, cfg.encode, h) && requests == Transcript(cfg, h) && Genuine(cfg, h)
  }

  lemma AccountsMore(cfg: Config, h: seq<Firing>, f: Firing, before: seq<Response>, log: seq<Request>,
                     after: seq<Response>)
    requires Accounts(cfg, h, before, log) && f.outcome == FireOutcome(cfg, log, f.events).0
    requires after == before + Refusals(cfg.encode, Head(cfg.format, cfg.encode, f.events)) +
                      Replies(cfg.format, cfg.encode, f)
    ensures Accounts(cfg, h + [f], after, FireOutcome(cfg, log, f.events).1)
  {
    ExtendHistory(cfg, h, f);
    Regroup(before, Refusals(cfg.encode, Head(cfg.format, cfg.encode, f.events)), Replies(cfg.format, cfg.encode, f));
  }

  // ---- the rounds of a fire, key by key ----

  /** A bucket that received the events es has been fired n times: fs are its firings,
      and left is what waits for the next one. Before the first one nothing waits. */
  ghost predicate Progress(cfg: Config, es: seq<Event>, n: nat, fs: seq<Firing>, left: seq<Event>)
  {
    FiringsOf(cfg.format, cfg.encode, es, n, fs) &&
    left == if n == 0 then [] else Residue(cfg.format, cfg.encode, es, n)
  }

  lemma ProgressStep(cfg: Config, es: seq<Event>, n: nat, fs: seq<Firing>, left: seq<Event>, f: Firing)
    requires Progress(cfg, es, n, fs, left)
    requires f.events != [] && f.events == if n == 0 then es else left
    ensures Progress(cfg, es, n + 1, fs + [f], Tail(cfg.format, cfg.encode, f.events))
  {
    NextRound(cfg.format, cfg.encode, es, n);
    assert EventsOf(fs + [f]) == EventsOf(fs) + [f.events];
  }

  lemma ProgressIdle(cfg: Config, es: seq<Event>, n: nat, fs: seq<Firing>)
    requires Progress(cfg, es, n, fs, []) && (n == 0 ==> es == [])
    ensures Progress(cfg, es, n + 1, fs, [])
  {
    NextRound(cfg.format, cfg.encode, es, n);
    assert EventsOf(fs) + [] == EventsOf(fs);
  }

  lemma {:induction false} ProgressRests(cfg: Config, es: seq<Event>, n: nat, m: nat, fs: seq<Firing>)
    requires Progress(cfg, es, n, fs, []) && 0 < n <= m
    ensures Progress(cfg, es, m, fs, [])
    decreases m - n
  {
    if n < m {
      ProgressIdle(cfg, es, n, fs);
      ProgressRests(cfg, es, n + 1, m, fs);
    }
  }

  /** In a pass over the keys: those still to do have been fired n times, the others
      once more. */
  ghost predicate Pass(cfg: Config, added: seq<Event>, h: seq<Firing>, o: Buckets, todo: set<string>, n: nat)
  {
    forall k :: KeyPass(cfg, added, h, o, todo, n, k)
  }

  ghost predicate KeyPass(cfg: Config, added: seq<Event>, h: seq<Firing>, o: Buckets, todo: set<string>, n: nat,
                          k: string)
  {
    Progress(cfg, OfKey(added, k), if k in todo then n else n + 1, Project(h, k), Get(o, k))
  }

  lemma PassStep(cfg: Config, added: seq<Event>, h: seq<Firing>, o: Buckets, todo: set<string>, n: nat,
                 f: Firing, o': Buckets)
    requires Pass(cfg, added, h, o, todo, n) && f.key in todo
    requires f.events != [] && f.events == if n == 0 then OfKey(added, f.key) else Get(o, f.key)
    requires Get(o', f.key) == Tail(cfg.format, cfg.encode, f.events)
    requires forall k :: k != f.key ==> Get(o', k) == Get(o, k)
    ensures Pass(cfg, added, h + [f], o', todo - {f.key}, n)
  {
    forall k ensures KeyPass(cfg, added, h + [f], o', todo - {f.key}, n, k) {
      assert KeyPass(cfg, added, h, o, todo, n, k);
      assert (h + [f])[..|h|] == h;
      if k == f.key {
        ProgressStep(cfg, OfKey(added, k), n, Project(h, k), Get(o, k), f);
      }
    }
  }

  lemma FirstPass(cfg: Config, added: seq<Event>, todo: set<string>)
    requires forall k :: k in todo <==> OfKey(added, k) != []
    ensures Pass(cfg, added, [], map[], todo, 0)
  {
    forall k ensures KeyPass(cfg, added, [], map[], todo, 0, k) {
      assert Progress(cfg, OfKey(added, k), 0, [], []);
      if k !in todo {
        ProgressIdle(cfg, OfKey(added, k), 0, []);
      }
    }
  }

  lemma NextPass(cfg: Config, added: seq<Event>, h: seq<Firing>, o: Buckets, n: nat)
    requires Pass(cfg, added, h, o, {}, n) && Keyed(o)
    ensures Pass(cfg, added, h, o, o.Keys, n + 1)
  {
    var m := n + 1;
    forall k ensures KeyPass(cfg, added, h, o, o.Keys, m, k) {
      assert KeyPass(cfg, added, h, o, {}, n, k);
      if k !in o.Keys {
        ProgressIdle(cfg, OfKey(added, k), n + 1, Project(h, k));
      }
    }
  }

  /** What a whole fire does to each key: its bucket is fired in rounds, and what is
      left after the last one stays in the overflow. */
  ghost predicate Fired(cfg: Config, added: seq<Event>, h: seq<Firing>, o: Buckets)
  {
    forall k :: KeyFired(cfg, added, h, o, k)
  }

  ghost predicate KeyFired(cfg: Config, added: seq<Event>, h: seq<Firing>, o: Buckets, k: string)
  {
    Progress(cfg, OfKey(added, k), FIRINGS_PER_BUCKET, Project(h, k), Get(o, k))
  }

  lemma LastPass(cfg: Config, added: seq<Event>, h: seq<Firing>, o: Buckets, n: nat)
    requires Pass(cfg, added, h, o, {}, n) && n < FIRINGS_PER_BUCKET
    requires o == map[] || n + 1 == FIRINGS_PER_BUCKET
    ensures Fired(cfg, added, h, o)
  {
    forall k ensures KeyFired(cfg, added, h, o, k) {
      assert KeyPass(cfg, added, h, o, {}, n, k);
      if o == map[] {
        ProgressRests(cfg, OfKey(added, k), n + 1, FIRINGS_PER_BUCKET, Project(h, k));
      }
    }
  }

  lemma {:induction false} ProjectedKeys(h: seq<Firing>, k: string, i: nat)
    requires i < |Project(h, k)|
    ensures Project(h, k)[i].key == k && Project(h, k)[i] in h
  {
    var n := |h| - 1;
    if i < |Project(h[..n], k)| {
      ProjectedKeys(h[..n], k, i);
    }
  }
}

/** The batch aggregator: collects events in buckets and fires them. */
module BatchAggregator {
  import opened Bytes
  import opened Types
  import opened Packing
  import opened Buckets
  import opened Firing
  import opened History
  import opened Sequences
  import Msgpack

  /** The buckets hold exactly these events, each bucket in their order. */
  ghost predicate HoldsByKey(b: Buckets, es: seq<Event>)
  {
    forall k :: HoldsKey(b, es, k)
  }

  ghost predicate HoldsKey(b: Buckets, es: seq<Event>, k: string)
  {
    Get(b, k) == OfKey(es, k) && (k in b <==> OfKey(es, k) != [])
  }

  lemma HoldsMore(b: Buckets, es: seq<Event>, e: Event)
    requires HoldsByKey(b, es)
    ensures HoldsByKey(Put(b, e), es + [e])
  {
    assert (es + [e])[..|es|] == es;
    forall k ensures HoldsKey(Put(b, e), es + [e], k) {
      assert HoldsKey(b, es, k);
    }
  }

  /** A place in the list being fired; None once its event has been refused. */
  type Slot = Option<Event>

  function Full(es: seq<Event>): (r: seq<Slot>)
    ensures |r| == |es|
  {
    seq(|es|, i requires 0 <= i < |es| => Some(es[i]))
  }

  /** The slots after refusal: those of unsendable events are empty. */
  function Screened(enc: Encoder, es: seq<Event>): (r: seq<Slot>)
    ensures |r| == |es|
  {
    seq(|es|, i requires 0 <= i < |es| => if Sendable(enc, es[i]) then Some(es[i]) else None)
  }

  function Occupants(slots: seq<Slot>): seq<Event>
  {
    if slots == [] then []
    else
      var n := |slots| - 1;
      Occupants(slots[..n]) + (if slots[n].Some? then [slots[n].value] else [])
  }

  lemma {:induction false} OccupantsConcat(a: seq<Slot>, b: seq<Slot>)
    ensures Occupants(a + b) == Occupants(a) + Occupants(b)
    decreases |b|
  {
    if b == [] {
      assert a + b == a;
    } else {
      var n := |b| - 1;
      OccupantsConcat(a, b[..n]);
      assert (a + b)[..|a| + n] == a + b[..n];
    }
  }

  lemma {:induction false} OccupantsOfFull(es: seq<Event>)
    ensures Occupants(Full(es)) == es
  {
    if es != [] {
      var n := |es| - 1;
      OccupantsOfFull(es[..n]);
      assert Full(es)[..n] == Full(es[..n]);
    }
  }

  lemma {:induction false} OccupantsOfScreened(enc: Encoder, es: seq<Event>)
    ensures Occupants(Screened(enc, es)) == Accepted(enc, es)
  {
    if es != [] {
      var n := |es| - 1;
      OccupantsOfScreened(enc, es[..n]);
      assert Screened(enc, es)[..n] == Screened(enc, es[..n]);
    }
  }

  /** The slots of a list after its encoding. */
  function Encoded(fmt: Format, enc: Encoder, es: seq<Event>): seq<Slot>
  {
    Screened(enc, Head(fmt, enc, es)) + Full(Tail(fmt, enc, es))
  }

  lemma OccupantsOfEncoded(fmt: Format, enc: Encoder, es: seq<Event>)
    ensures Occupants(Encoded(fmt, enc, es)) == Present(fmt, enc, es)
  {
    OccupantsConcat(Screened(enc, Head(fmt, enc, es)), Full(Tail(fmt, enc, es)));
    OccupantsOfScreened(enc, Head(fmt, enc, es));
    OccupantsOfFull(Tail(fmt, enc, es));
  }

  lemma OccupantsAppend(slots: seq<Slot>, i: nat)
    requires i < |slots|
    ensures Occupants(slots[..i + 1]) ==
            Occupants(slots[..i]) + (if slots[i].Some? then [slots[i].value] else [])
  {
    assert slots[..i + 1][..i] == slots[..i];
  }

  lemma SlotAt(slots: seq<Slot>, enc: Encoder, es: seq<Event>, i: nat, j: nat)
    requires i <= j < |es| && slots == Screened(enc, es[..i]) + Full(es[i..])
    ensures |slots| == |es| && slots[j] == Some(es[j])
  {
  }

  lemma ScreenStep(enc: Encoder, es: seq<Event>, i: nat)
    requires i < |es|
    ensures var slots := Screened(enc, es[..i]) + Full(es[i..]);
            Screened(enc, es[..i + 1]) + Full(es[i + 1..]) ==
            if Sendable(enc, es[i]) then slots else slots[i := None]
  {
  }

  lemma RefusalStep(enc: Encoder, es: seq<Event>, i: nat)
    requires i < |es|
    ensures Refusals(enc, es[..i + 1]) ==
            Refusals(enc, es[..i]) + (if Sendable(enc, es[i]) then [] else [Refusal(enc, es[i])])
  {
    FiltersAppend(enc, es, i);
  }

  /** The JSON body while it is still open. */
  function OpenBody(parts: seq<Text>): Text
  {
    [OPEN_BRACKET] + Join(parts)
  }

  lemma OpenBodyMore(parts: seq<Text>, x: Text)
    ensures OpenBody(parts + [x]) == OpenBody(parts) + (if parts == [] then [] else [COMMA]) + x
  {
    JoinAppend(parts, x);
  }

  lemma JsonFits(parts: seq<Text>, x: Text)
    ensures Fits(JsonFormat, parts, x) <==> |OpenBody(parts)| + |x| + 1 <= API_MAX_BATCH_SIZE
    ensures OpenBody(parts) + [CLOSE_BRACKET] == Body(JsonFormat, parts)
  {
  }

  /** Everything sendable among the first i events fitted. */
  ghost predicate FitsUpTo(fmt: Format, enc: Encoder, es: seq<Event>, i: nat)
  {
    i <= |es| &&
    forall j :: 0 <= j < i && Sendable(enc, es[j]) ==> Fits(fmt, Payload(enc, es[..j]), TextOf(enc, es[j]))
  }

  lemma CutHere(fmt: Format, enc: Encoder, es: seq<Event>, i: nat)
    requires FitsUpTo(fmt, enc, es, i)
    requires i < |es| ==> Sendable(enc, es[i]) && !Fits(fmt, Payload(enc, es[..i]), TextOf(enc, es[i]))
    ensures i == Cut(fmt, enc, es)
    ensures Head(fmt, enc, es) == es[..i] && Tail(fmt, enc, es) == es[i..]
    ensures Encoded(fmt, enc, es) == Screened(enc, es[..i]) + Full(es[i..])
  {
    CutIff(fmt, enc, es, i);
  }

  /** The encoding loop when the first i events are dealt with: the responses so far
      and the slots as they stand. */
  ghost predicate Encoding(fmt: Format, enc: Encoder, es: seq<Event>, i: nat, before: seq<Response>,
                           responses: seq<Response>, slots: seq<Slot>)
  {
    FitsUpTo(fmt, enc, es, i) &&
    responses == before + Refusals(enc, es[..i]) &&
    slots == Screened(enc, es[..i]) + Full(es[i..])
  }

  lemma EncodingStarts(fmt: Format, enc: Encoder, es: seq<Event>, before: seq<Response>)
    ensures Encoding(fmt, enc, es, 0, before, before, Full(es))
    ensures Payload(enc, es[..0]) == []
  {
  }

  lemma EncodingRefuses(fmt: Format, enc: Encoder, es: seq<Event>, i: nat, before: seq<Response>,
                        responses: seq<Response>, slots: seq<Slot>)
    requires Encoding(fmt, enc, es, i, before, responses, slots) && i < |es| && !Sendable(enc, es[i])
    ensures Encoding(fmt, enc, es, i + 1, before, responses + [Refusal(enc, es[i])], slots[i := None])
    ensures Payload(enc, es[..i + 1]) == Payload(enc, es[..i])
  {
    FiltersAppend(enc, es, i);
    ScreenStep(enc, es, i);
    RefusalStep(enc, es, i);
  }

  lemma EncodingAccepts(fmt: Format, enc: Encoder, es: seq<Event>, i: nat, before: seq<Response>,
                        responses: seq<Response>, slots: seq<Slot>)
    requires Encoding(fmt, enc, es, i, before, responses, slots) && i < |es| && Sendable(enc, es[i])
    requires Fits(fmt, Payload(enc, es[..i]), TextOf(enc, es[i]))
    ensures Encoding(fmt, enc, es, i + 1, before, responses, slots)
    ensures Payload(enc, es[..i + 1]) == Payload(enc, es[..i]) + [TextOf(enc, es[i])]
  {
    FiltersAppend(enc, es, i);
    ScreenStep(enc, es, i);
    RefusalStep(enc, es, i);
  }

  /** Room for the widest msgpack array header. */
  const ROOM: Text := [0, 0, 0, 0, 0]

  lemma RoomAppend(parts: seq<Text>, x: Text)
    ensures ROOM + Concat(parts + [x]) == ROOM + Concat(parts) + x
  {
    assert (parts + [x])[..|parts|] == parts;
    assert Concat(parts + [x]) == Concat(parts) + x;
  }

  lemma MsgpackFits(parts: seq<Text>, x: Text)
    ensures Fits(MsgpackFormat, parts, x) <==> |ROOM + Concat(parts)| + |x| <= API_MAX_BATCH_SIZE
  {
    ConcatLength(parts);
  }

  lemma HeaderOverRoom(parts: seq<Text>)
    ensures var header := Msgpack.ArrayHeader(|parts|);
            var start := Msgpack.MAX_HEADER - |header|;
            var buf := ROOM + Concat(parts);
            (buf[..start] + header + buf[start + |header|..])[start..] == MsgpackBody(parts)
  {
    var header := Msgpack.ArrayHeader(|parts|);
    var buf := ROOM + Concat(parts);
    assert buf[Msgpack.MAX_HEADER..] == Concat(parts);
  }

  /** The occupant of a slot stands behind those of the slots before it. */
  lemma OccupantAt(slots: seq<Slot>, i: nat)
    requires i < |slots| && slots[i].Some?
    ensures |Occupants(slots[..i])| < |Occupants(slots)|
    ensures Occupants(slots)[|Occupants(slots[..i])|] == slots[i].value
  {
    OccupantsAppend(slots, i);
    assert slots == slots[..i + 1] + slots[i + 1..];
    OccupantsConcat(slots[..i + 1], slots[i + 1..]);
  }

  /** Back into the bucket of key k. */
  function PutBack(b: Buckets, k: string, es: seq<Event>): Buckets
  {
    if es == [] then b else b[k := Get(b, k) + es]
  }

  lemma TailOfKey(fmt: Format, enc: Encoder, es: seq<Event>, k: string)
    requires AllOfKey(es, k)
    ensures AllOfKey(Tail(fmt, enc, es), k)
  {
  }

  lemma PutBackGets(b: Buckets, k: string, es: seq<Event>)
    ensures var o := PutBack(b - {k}, k, es);
            Get(o, k) == es &&
            (forall k' :: k' != k ==> Get(o, k') == Get(b, k') && (k' in o <==> k' in b))
    ensures Keyed(b) ==> Keyed(b - {k})
  {
  }

  lemma PutBackIsPutAll(b: Buckets, k: string, es: seq<Event>)
    requires Keyed(b) && AllOfKey(es, k)
    ensures PutAll(b, es) == PutBack(b, k, es) && Keyed(PutBack(b, k, es))
  {
    PutAllOfKey(b, es, k);
  }

  /** Copies src over dst from a position on. */
  method CopyOver(dst: array<Byte>, at: nat, src: Text)
    requires at + |src| <= dst.Length
    modifies dst
    ensures dst[..] == old(dst[..at]) + src + old(dst[at + |src|..])
  {
    for i := 0 to |src|
      invariant forall j :: 0 <= j < dst.Length ==>
                  dst[j] == if at <= j < at + i then src[j - at] else old(dst[j])
    {
      dst[at + i] := src[i];
    }
  }

  class BatchAgg {
    const cfg: Config

    var batches: Buckets
    var overflowBatches: Buckets
    /** Every response handed to the response queue, in order. */
    var responses: seq<Response>
    /** Every request sent, in order. */
    var requests: seq<Request>

    ghost var added: seq<Event>
    ghost var history: seq<Firing>

    /** The buckets hold the added events by key; responses and requests are those of
        the firings so far. */
    ghost predicate Valid()
      reads this
    {
      Bucketed() && Keyed(overflowBatches) && Recorded()
    }

    ghost predicate Bucketed()
      reads this`batches, this`added
    {
      HoldsByKey(batches, added)
    }

    ghost predicate Recorded()
      reads this`responses, this`requests, this`history
    {
      Accounts(cfg, history, responses, requests)
    }

    constructor (cfg: Config)
      ensures this.cfg == cfg && Valid()
      ensures added == [] && history == [] && overflowBatches == map[]
    {
      this.cfg := cfg;
      batches, overflowBatches := map[], map[];
      responses, requests := [], [];
      added, history := [], [];
    }

    method Add(e: Event)
      requires Valid()
      modifies this`batches, this`added
      ensures Valid() && added == old(added) + [e]
      ensures batches == Put(old(batches), e)
    {
      var key := e.apiHost + "_" + e.apiKey + "_" + e.dataset;
      batches := batches[key := (if key in batches then batches[key] else []) + [e]];
      added := added + [e];
      HoldsMore(old(batches), old(added), e);
    }

    method EnqueueResponse(r: Response)
      modifies this`responses
      ensures responses == old(responses) + [r]
    {
      responses := responses + [r];
    }

    method ReenqueueEvents(events: seq<Event>)
      modifies this`overflowBatches
      ensures overflowBatches == PutAll(old(overflowBatches), events)
    {
      for i := 0 to |events|
        invariant overflowBatches == PutAll(old(overflowBatches), events[..i])
      {
        var e := events[i];
        var key := e.apiHost + "_" + e.apiKey + "_" + e.dataset;
        overflowBatches := overflowBatches[key :=
          (if key in overflowBatches then overflowBatches[key] else []) + [e]];
        assert events[..i + 1][..i] == events[..i];
      }
      assert events[..|events|] == events;
    }

    /** Refuses the i-th event: one response, and its slot is emptied in place. */
    method Refuse(events: array<Slot>, i: nat)
      requires i < events.Length && events[i].Some?
      modifies this`responses, events
      ensures responses == old(responses) + [Refusal(cfg.encode, old(events[i].value))]
      ensures events[..] == old(events[..])[i := None]
    {
      var e := events[i].value;
      if cfg.encode(e).None? {
        EnqueueResponse(ErrorResponse(NotEncodable, e.metadata));
      } else {
        EnqueueResponse(ErrorResponse(TooLarge, e.metadata));
      }
      events[i] := None;
    }

    /** Encodes the i-th event, or refuses it when it has no encoding or one that is
        too large. */
    method Examine(events: array<Slot>, i: nat, ghost fmt: Format, ghost es: seq<Event>,
                   ghost before: seq<Response>)
      returns (encoding: Option<Text>)
      requires Encoding(fmt, cfg.encode, es, i, before, responses, events[..]) && i < |es| == events.Length
      modifies this`responses, events
      ensures encoding.Some? <==> Sendable(cfg.encode, es[i])
      ensures encoding.Some? ==>
                encoding.value == TextOf(cfg.encode, es[i]) &&
                responses == old(responses) && events[..] == old(events[..])
      ensures encoding.None? ==>
                Encoding(fmt, cfg.encode, es, i + 1, before, responses, events[..]) &&
                Payload(cfg.encode, es[..i + 1]) == Payload(cfg.encode, es[..i])
    {
      SlotAt(events[..], cfg.encode, es, i, i);
      var e := events[i].value;
      encoding := cfg.encode(e);
      if encoding.None? || |encoding.value| > API_EVENT_SIZE_MAX {
        EncodingRefuses(fmt, cfg.encode, es, i, before, responses, events[..]);
        Refuse(events, i);
        encoding := None;
      }
    }

    /** Builds the JSON array body event by event, counting bytes. */
    method EncodeBatchJSON(events: array<Slot>, ghost es: seq<Event>) returns (body: Text, numEncoded: nat)
      requires events[..] == Full(es)
      modifies this`responses, this`overflowBatches, events
      ensures body == Body(JsonFormat, Payload(cfg.encode, Head(JsonFormat, cfg.encode, es)))
      ensures numEncoded == |Accepted(cfg.encode, Head(JsonFormat, cfg.encode, es))|
      ensures responses == old(responses) + Refusals(cfg.encode, Head(JsonFormat, cfg.encode, es))
      ensures overflowBatches == PutAll(old(overflowBatches), Tail(JsonFormat, cfg.encode, es))
      ensures events[..] == Encoded(JsonFormat, cfg.encode, es)
    {
      var first := true;
      var buf: Text := [OPEN_BRACKET];
      var bytesTotal := 1;
      numEncoded := 0;
      ghost var parts: seq<Text> := [];
      EncodingStarts(JsonFormat, cfg.encode, es, responses);
      for i := 0 to events.Length
        invariant events.Length == |es| && parts == Payload(cfg.encode, es[..i])
        invariant buf == OpenBody(parts) && bytesTotal == |buf|
        invariant numEncoded == |parts| && (first <==> numEncoded == 0)
        invariant overflowBatches == old(overflowBatches)
        invariant Encoding(JsonFormat, cfg.encode, es, i, old(responses), responses, events[..])
      {
        var encoding := Examine(events, i, JsonFormat, es, old(responses));
        if encoding.None? {
          continue;
        }
        bytesTotal := bytesTotal + |encoding.value|;
        JsonFits(parts, encoding.value);
        if bytesTotal + 1 > API_MAX_BATCH_SIZE {
          CutHere(JsonFormat, cfg.encode, es, i);
          Overflow(events, i, es);
          body := buf + [CLOSE_BRACKET];
          return;
        }
        EncodingAccepts(JsonFormat, cfg.encode, es, i, old(responses), responses, events[..]);
        OpenBodyMore(parts, encoding.value);
        if !first {
          buf := buf + [COMMA];
          bytesTotal := bytesTotal + 1;
        }
        first := false;
        buf := buf + encoding.value;
        parts := parts + [encoding.value];
        numEncoded := numEncoded + 1;
      }
      CutHere(JsonFormat, cfg.encode, es, |es|);
      JsonFits(parts, []);
      body := buf + [CLOSE_BRACKET];
    }

    /** Builds the msgpack body behind room for the widest header, and then lets the
        real header end where the events begin. */
    method EncodeBatchMsgp(events: array<Slot>, ghost es: seq<Event>) returns (body: Text, numEncoded: nat)
      requires events[..] == Full(es)
      modifies this`responses, this`overflowBatches, events
      ensures body == Body(MsgpackFormat, Payload(cfg.encode, Head(MsgpackFormat, cfg.encode, es)))
      ensures numEncoded == |Accepted(cfg.encode, Head(MsgpackFormat, cfg.encode, es))|
      ensures responses == old(responses) + Refusals(cfg.encode, Head(MsgpackFormat, cfg.encode, es))
      ensures overflowBatches == PutAll(old(overflowBatches), Tail(MsgpackFormat, cfg.encode, es))
      ensures events[..] == Encoded(MsgpackFormat, cfg.encode, es)
    {
      var buf: Text := ROOM;
      numEncoded := 0;
      ghost var parts: seq<Text> := [];
      EncodingStarts(MsgpackFormat, cfg.encode, es, responses);
      for i := 0 to events.Length
        invariant events.Length == |es| && parts == Payload(cfg.encode, es[..i])
        invariant buf == ROOM + Concat(parts) && numEncoded == |parts|
        invariant overflowBatches == old(overflowBatches)
        invariant Encoding(MsgpackFormat, cfg.encode, es, i, old(responses), responses, events[..])
      {
        var encoding := Examine(events, i, MsgpackFormat, es, old(responses));
        if encoding.None? {
          continue;
        }
        MsgpackFits(parts, encoding.value);
        if |buf| + |encoding.value| > API_MAX_BATCH_SIZE {
          CutHere(MsgpackFormat, cfg.encode, es, i);
          Overflow(events, i, es);
          body := PatchHeader(buf, numEncoded, parts);
          return;
        }
        EncodingAccepts(MsgpackFormat, cfg.encode, es, i, old(responses), responses, events[..]);
        RoomAppend(parts, encoding.value);
        parts := parts + [encoding.value];
        buf := buf + encoding.value;
        numEncoded := numEncoded + 1;
      }
      CutHere(MsgpackFormat, cfg.encode, es, |es|);
      body := PatchHeader(buf, numEncoded, parts);
    }

    /** Chops off the leading bytes that the header does not need, and copies the
        header over the room that is left: no event byte is touched. */
    method PatchHeader(buf: Text, numEncoded: nat, ghost parts: seq<Text>) returns (body: Text)
      requires buf == ROOM + Concat(parts) && numEncoded == |parts|
      ensures body == MsgpackBody(parts)
    {
      var header := Msgpack.ArrayHeader(numEncoded);
      var whole := new Byte[|buf|](j requires 0 <= j < |buf| => buf[j]);
      assert whole[..] == buf && forall i :: 0 <= i <= |buf| ==> whole[..i] == buf[..i] && whole[i..] == buf[i..];
      var start := Msgpack.MAX_HEADER - |header|;
      HeaderOverRoom(parts);
      CopyOver(whole, start, header);
      assert whole[start..] == whole[..][start..];
      body := whole[start..];
    }

    method EncodeBatch(events: array<Slot>, ghost es: seq<Event>) returns (body: Text, numEncoded: nat)
      requires events[..] == Full(es)
      modifies this`responses, this`overflowBatches, events
      ensures body == Body(cfg.format, Payload(cfg.encode, Head(cfg.format, cfg.encode, es)))
      ensures numEncoded == |Accepted(cfg.encode, Head(cfg.format, cfg.encode, es))|
      ensures responses == old(responses) + Refusals(cfg.encode, Head(cfg.format, cfg.encode, es))
      ensures overflowBatches == PutAll(old(overflowBatches), Tail(cfg.format, cfg.encode, es))
      ensures events[..] == Encoded(cfg.format, cfg.encode, es)
    {
      if cfg.format.MsgpackFormat? {
        body, numEncoded := EncodeBatchMsgp(events, es);
      } else {
        body, numEncoded := EncodeBatchJSON(events, es);
      }
    }

    /** Puts the events from position i on, none of which has been looked at yet,
        back into buckets. */
    method Overflow(events: array<Slot>, i: nat, ghost es: seq<Event>)
      requires i <= events.Length == |es|
      requires events[..] == Screened(cfg.encode, es[..i]) + Full(es[i..])
      modifies this`overflowBatches
      ensures overflowBatches == PutAll(old(overflowBatches), es[i..])
    {
      var rest := [];
      for j := i to events.Length
        invariant rest == es[i..j] && overflowBatches == old(overflowBatches)
      {
        SlotAt(events[..], cfg.encode, es, i, j);
        rest := rest + [events[j].value];
      }
      assert es[i..|es|] == es[i..];
      ReenqueueEvents(rest);
    }

    /** Offers the same error for every event still in its slot. */
    method EnqueueErrResponses(o: Outcome, events: array<Slot>)
      requires o.Failed?
      modifies this`responses
      ensures responses == old(responses) + Failures(o, Occupants(events[..]))
    {
      for i := 0 to events.Length
        invariant responses == old(responses) + Failures(o, Occupants(events[..i]))
      {
        OccupantsAppend(events[..], i);
        assert events[..][..i] == events[..i] && events[..][..i + 1] == events[..i + 1];
        if events[i].Some? {
          EnqueueResponse(Response(Some(o.err), o.status, o.body, events[i].value.metadata));
        }
      }
      assert events[..events.Length] == events[..];
    }

    /** Walks answers and slots together, stepping over empty slots. */
    method MatchResponses(answers: seq<Answer>, events: array<Slot>)
      modifies this`responses
      ensures responses == old(responses) + Matched(answers, Occupants(events[..]))
    {
      var eIdx := 0;
      ghost var slots := events[..];
      ghost var all := Occupants(slots);
      ghost var matched: seq<Response> := [];
      for i := 0 to |answers|
        invariant eIdx <= events.Length && events[..] == slots
        invariant |Occupants(slots[..eIdx])| == i <= |all|
        invariant matched == Matched(answers[..i], all) && responses == old(responses) + matched
      {
        while eIdx < events.Length && events[eIdx].None?
          invariant eIdx <= events.Length && |Occupants(slots[..eIdx])| == i
          invariant responses == old(responses) + matched
        {
          OccupantsAppend(slots, eIdx);
          eIdx := eIdx + 1;
        }
        if eIdx == events.Length {
          assert slots[..eIdx] == slots;
          assert Matched(answers, all) == matched;
          return;
        }
        OccupantAt(slots, eIdx);
        OccupantsAppend(slots, eIdx);
        var r := AnswerFor(answers[i], events[eIdx].value);
        EnqueueResponse(r);
        assert Matched(answers[..i + 1], all) == matched + [r];
        matched := matched + [r];
        eIdx := eIdx + 1;
      }
      assert answers[..|answers|] == answers;
    }

    /** One retry for timeouts and for throttling replies. */
    method Send(req: Request) returns (o: Outcome)
      modifies this`requests
      ensures o == Exchange(cfg.server, old(requests), req).0
      ensures requests == Exchange(cfg.server, old(requests), req).1
    {
      var last := NoReply(0, false);
      var closed := false;
      var try := 0;
      while try < 2
        invariant 0 <= try <= 2
        invariant try == 0 ==> requests == old(requests)
        invariant try == 1 ==> requests == old(requests) + [req] && last == cfg.server(requests) && Retries(last)
        invariant try == 2 ==> requests == old(requests) + [req] + [req] && last == cfg.server(requests) &&
                               Retries(last) && Retries(cfg.server(old(requests) + [req]))
        invariant try > 0 ==> (closed <==> last.Reply?)
      {
        requests := requests + [req];
        last := cfg.server(requests);
        closed := false;
        if last.Reply? && last.status in {429, 503} && last.wait {
          closed := true;
          try := try + 1;
          continue;
        }
        if last.NoReply? && last.timeout {
          try := try + 1;
          continue;
        }
        break;
      }
      if last.NoReply? {
        o := Failed(Transport(last.code), 0, []);
      } else if last.status != 200 && last.status != 202 {
        var text := if closed then last.afterClose else last.raw;
        if text.None? {
          o := Failed(UnreadableBody, 0, []);
        } else {
          o := Failed(UnexpectedStatus(last.status), last.status, text.value);
        }
      } else if last.decoded.None? {
        o := Failed(Undecodable, 0, []);
      } else {
        o := Answered(last.decoded.value);
      }
    }

    /** Posts the encoded events, addressed like the first one still in its slot. */
    method Post(events: array<Slot>, body: Text, ghost es: seq<Event>) returns (o: Outcome)
      requires Occupants(events[..]) == Present(cfg.format, cfg.encode, es)
      requires Accepted(cfg.encode, Head(cfg.format, cfg.encode, es)) != []
      requires body == Body(cfg.format, Payload(cfg.encode, Head(cfg.format, cfg.encode, es)))
      modifies this`requests
      ensures o == FireOutcome(cfg, old(requests), es).0 && !o.Unsent?
      ensures requests == FireOutcome(cfg, old(requests), es).1
    {
      var i := FirstPresent(events);
      var e := events[i].value;
      if !cfg.urlOk(e.apiHost, e.dataset) {
        return Failed(BadUrl, 0, []);
      }
      o := Send(Request(e.apiHost, e.apiKey, e.dataset, body));
    }

    /** Posts the encoded events, if any, and offers what comes back. */
    method Deliver(events: array<Slot>, body: Text, numEncoded: nat, ghost f: Firing)
      requires Occupants(events[..]) == Present(cfg.format, cfg.encode, f.events)
      requires numEncoded == |Accepted(cfg.encode, Head(cfg.format, cfg.encode, f.events))|
      requires body == Body(cfg.format, Payload(cfg.encode, Head(cfg.format, cfg.encode, f.events)))
      requires f.outcome == FireOutcome(cfg, requests, f.events).0
      modifies this`responses, this`requests
      ensures responses == old(responses) + Replies(cfg.format, cfg.encode, f)
      ensures requests == FireOutcome(cfg, old(requests), f.events).1
    {
      if numEncoded == 0 {
        assert Replies(cfg.format, cfg.encode, f) == [];
        return;
      }
      var o := Post(events, body, f.events);
      if o.Failed? {
        EnqueueErrResponses(o, events);
      } else {
        MatchResponses(o.answers, events);
      }
    }

    /** Fires one list of events of one key: one firing is added to the history, and
        what does not fit goes back to the bucket of that key. */
    method FireBatch(list: seq<Event>, ghost k: string)
      requires Recorded() && Keyed(overflowBatches) && AllOfKey(list, k)
      modifies this`responses, this`requests, this`overflowBatches, this`history
      ensures Recorded() && Keyed(overflowBatches)
      ensures list == [] ==> history == old(history)
      ensures list != [] ==>
                history == old(history) + [Firing(k, list, FireOutcome(cfg, old(requests), list).0)]
      ensures overflowBatches == PutBack(old(overflowBatches), k, Tail(cfg.format, cfg.encode, list))
    {
      TailOfKey(cfg.format, cfg.encode, list, k);
      PutBackIsPutAll(overflowBatches, k, Tail(cfg.format, cfg.encode, list));
      if |list| == 0 {
        return;
      }
      var events := Slots(list);
      ghost var f := Firing(k, list, FireOutcome(cfg, requests, list).0);
      var body, numEncoded := EncodeBatch(events, list);
      OccupantsOfEncoded(cfg.format, cfg.encode, list);
      Deliver(events, body, numEncoded, f);
      AccountsMore(cfg, history, f, old(responses), old(requests), responses);
      history := history + [f];
    }

    method Slots(list: seq<Event>) returns (events: array<Slot>)
      ensures fresh(events) && events[..] == Full(list)
    {
      events := new Slot[|list|](i requires 0 <= i < |list| => Some(list[i]));
    }

    /** Sends every bucket, in any order, and then drains the overflow: pass after pass
        over the keys found at its start, until nothing is left or the cap is reached. */
    method Fire()
      requires Valid() && history == [] && overflowBatches == map[]
      modifies this`responses, this`requests, this`overflowBatches, this`history
      ensures Valid() && Fired(cfg, added, history, overflowBatches)
    {
      FireBuckets();
      ghost var n := DrainOverflow();
      LastPass(cfg, added, history, overflowBatches, n);
    }

    method DrainOverflow() returns (ghost n: nat)
      requires InPass({}, 0)
      modifies this`responses, this`requests, this`overflowBatches, this`history
      ensures InPass({}, n) && n < FIRINGS_PER_BUCKET
      ensures overflowBatches == map[] || n + 1 == FIRINGS_PER_BUCKET
    {
      var overflowCount := 0;
      while |overflowBatches| > 0
        invariant 0 <= overflowCount <= MAX_OVERFLOW_BATCHES + 1
        invariant InPass({}, overflowCount)
        decreases MAX_OVERFLOW_BATCHES + 1 - overflowCount
      {
        if overflowCount > MAX_OVERFLOW_BATCHES {
          break;
        }
        overflowCount := overflowCount + 1;
        DrainKeys(overflowCount);
      }
      n := overflowCount;
    }

    /** A pass that has these keys still to do, each with something to fire. */
    ghost predicate InPass(todo: set<string>, n: nat)
      reads this
    {
      Recorded() && Keyed(overflowBatches) && Pass(cfg, added, history, overflowBatches, todo, n) &&
      forall k :: k in todo ==> if n == 0 then k !in overflowBatches && k in batches else k in overflowBatches
    }

    method FireBuckets()
      requires Valid() && history == [] && overflowBatches == map[]
      modifies this`responses, this`requests, this`overflowBatches, this`history
      ensures InPass({}, 0)
    {
      var todo := batches.Keys;
      assert forall k :: HoldsKey(batches, added, k) ==> (k in todo <==> OfKey(added, k) != []);
      FirstPass(cfg, added, todo);
      while todo != {}
        invariant InPass(todo, 0)
      {
        var k :| k in todo;
        FireBucket(k, todo);
        todo := todo - {k};
      }
    }

    method FireBucket(k: string, ghost todo: set<string>)
      requires Bucketed() && k in todo && InPass(todo, 0)
      modifies this`responses, this`requests, this`overflowBatches, this`history
      ensures InPass(todo - {k}, 0)
    {
      OfKeyKeeps(added, k);
      assert HoldsKey(batches, added, k);
      assert overflowBatches - {k} == overflowBatches;
      FireKey(batches[k], k, todo, 0, overflowBatches);
    }

    /** One pass of the drain, over the keys that the overflow has now: each is taken
        out before it is fired, because it may overflow again. */
    method DrainKeys(ghost n: nat)
      requires n > 0 && InPass({}, n - 1)
      modifies this`responses, this`requests, this`overflowBatches, this`history
      ensures InPass({}, n)
    {
      NextPass(cfg, added, history, overflowBatches, n - 1);
      var todo := overflowBatches.Keys;
      while todo != {}
        invariant InPass(todo, n)
      {
        var k :| k in todo;
        DrainKey(k, todo, n);
        todo := todo - {k};
      }
    }

    method DrainKey(k: string, ghost todo: set<string>, ghost n: nat)
      requires n > 0 && k in todo && InPass(todo, n)
      modifies this`responses, this`requests, this`overflowBatches, this`history
      ensures InPass(todo - {k}, n)
    {
      var events := overflowBatches[k];
      ghost var before := overflowBatches;
      overflowBatches := overflowBatches - {k};
      FireKey(events, k, todo, n, before);
    }

    /** One step of a pass. The bucket has been taken out of the overflow, if it was
        there. */
    method FireKey(events: seq<Event>, k: string, ghost todo: set<string>, ghost n: nat, ghost before: Buckets)
      requires Recorded() && Keyed(before) && overflowBatches == before - {k} && k in todo
      requires events != [] && AllOfKey(events, k) && events == if n == 0 then OfKey(added, k) else Get(before, k)
      requires Pass(cfg, added, history, before, todo, n)
      modifies this`responses, this`requests, this`overflowBatches, this`history
      ensures Recorded() && Keyed(overflowBatches)
      ensures Pass(cfg, added, history, overflowBatches, todo - {k}, n)
      ensures forall k' :: k' != k ==> (k' in overflowBatches <==> k' in before)
    {
      ghost var f := Firing(k, events, FireOutcome(cfg, requests, events).0);
      ghost var tail := Tail(cfg.format, cfg.encode, events);
      PutBackGets(before, k, tail);
      PassStep(cfg, added, history, before, todo, n, f, PutBack(before - {k}, k, tail));
      FireBatch(events, k);
    }

    method FirstPresent(events: array<Slot>) returns (i: nat)
      requires Occupants(events[..]) != []
      ensures i < events.Length && events[i].Some? && events[i].value == Occupants(events[..])[0]
    {
      i := 0;
      assert events[..0] == [];
      while i < events.Length && events[i].None?
        invariant i <= events.Length && Occupants(events[..i]) == []
      {
        OccupantsAppend(events[..], i);
        assert events[..][..i] == events[..i] && events[..][..i + 1] == events[..i + 1];
        i := i + 1;
      }
      assert events[..events.Length] == events[..];
      OccupantAt(events[..], i);
      assert events[..][..i] == events[..i];
    }
  }
}
