/** One firing of a list of events: the exchange with the server, the responses
    that it offers, and the balance of responses over a bucket's firings. */
module Firing {
  import opened Bytes
  import opened Types
  import opened Packing
  import opened Buckets
  import opened Sequences
  import Json
  import Msgpack

  // ---- the exchange with the server ----

  datatype Request = Request(apiHost: string, apiKey: string, dataset: string, body: Text)

  /** One entry of the list that the server replies with. */
  datatype Answer = Answer(status: int, message: string)

  /** What one attempt brings back. `wait` says that Retry-After asks for a wait of
      less than a minute; `raw` is the body when it can be read as an error text,
      `afterClose` what can be read as one after the body has been closed, which may
      still be an empty text, and `decoded` the body when it can be read as a list of
      answers. */
  datatype Attempt =
    | NoReply(code: int, timeout: bool)
    | Reply(status: int, wait: bool, raw: Option<Text>, afterClose: Option<Text>, decoded: Option<seq<Answer>>)

  /** The server: any function of the requests so far. */
  type Server = seq<Request> -> Attempt

  datatype Config = Config(
    format: Format,
    encode: Encoder,
    urlOk: (string, string) -> bool,
    server: Server)

  datatype Outcome =
    | Unsent
    | Failed(err: Error, status: int, body: Text)
    | Answered(answers: seq<Answer>)

  /** The attempt is given up for another: a timeout, or a throttling reply, whose
      body is closed before the wait. */
  predicate Retries(a: Attempt)
  {
    match a
    case NoReply(_, timeout) => timeout
    case Reply(status, wait, _, _, _) => status in {429, 503} && wait
  }

  /** The error text that can still be read when the attempts are over. */
  function Readable(a: Attempt): Option<Text>
    requires a.Reply?
  {
    if Retries(a) then a.afterClose else a.raw
  }

  predicate Accepts(a: Attempt) { a.Reply? && a.status in {200, 202} }

  /** What the last attempt means. */
  function Settle(a: Attempt): Outcome
  {
    match a
    case NoReply(code, _) => Failed(Transport(code), 0, [])
    case Reply(status, _, _, _, decoded) =>
      if !Accepts(a) then
        if Readable(a).None? then Failed(UnreadableBody, 0, [])
        else Failed(UnexpectedStatus(status), status, Readable(a).value)
      else if decoded.None? then Failed(Undecodable, 0, [])
      else Answered(decoded.value)
  }

  /** At most two attempts with the same request. */
  function Exchange(server: Server, log: seq<Request>, req: Request): (Outcome, seq<Request>)
  {
    var first := server(log + [req]);
    if !Retries(first) then (Settle(first), log + [req])
    else (Settle(server(log + [req] + [req])), log + [req] + [req])
  }

  /** The request for a list of events: addressed like its first sendable event. */
  function RequestFor(cfg: Config, es: seq<Event>): Request
    requires Accepted(cfg.encode, Head(cfg.format, cfg.encode, es)) != []
  {
    var head := Head(cfg.format, cfg.encode, es);
    var first := Accepted(cfg.encode, head)[0];
    Request(first.apiHost, first.apiKey, first.dataset, Body(cfg.format, Payload(cfg.encode, head)))
  }

  function FireOutcome(cfg: Config, log: seq<Request>, es: seq<Event>): (Outcome, seq<Request>)
  {
    if Accepted(cfg.encode, Head(cfg.format, cfg.encode, es)) == [] then (Unsent, log)
    else
      var req := RequestFor(cfg, es);
      if !cfg.urlOk(req.apiHost, req.dataset) then (Failed(BadUrl, 0, []), log)
      else Exchange(cfg.server, log, req)
  }

  // ---- the responses of one firing ----

  function Refusal(enc: Encoder, e: Event): Response
  {
    ErrorResponse(if enc(e).None? then NotEncodable else TooLarge, e.metadata)
  }

  function Refusals(enc: Encoder, es: seq<Event>): (rs: seq<Response>)
    ensures |rs| == |Rejected(enc, es)|
  {
    var r := Rejected(enc, es);
    seq(|r|, i requires 0 <= i < |r| => Refusal(enc, r[i]))
  }

  function Failures(o: Outcome, es: seq<Event>): (rs: seq<Response>)
    requires o.Failed?
    ensures |rs| == |es|
  {
    seq(|es|, i requires 0 <= i < |es| => Response(Some(o.err), o.status, o.body, es[i].metadata))
  }

  function AnswerFor(a: Answer, e: Event): Response
  {
    Response(if a.message == "" then None else Some(FromServer(a.message)), a.status, [], e.metadata)
  }

  /** Answers and events are matched position by position, as far as both go. */
  function Matched(answers: seq<Answer>, es: seq<Event>): (rs: seq<Response>)
    ensures |rs| == if |answers| <= |es| then |answers| else |es|
  {
    var n := if |answers| <= |es| then |answers| else |es|;
    seq(n, i requires 0 <= i < n => AnswerFor(answers[i], es[i]))
  }

  datatype Firing = Firing(key: string, events: seq<Event>, outcome: Outcome)

  /** The events that are still in their slots when the outcome is known: the
      request's own ones, and behind them those that wait for another request. */
  function Present(fmt: Format, enc: Encoder, es: seq<Event>): seq<Event>
  {
    Accepted(enc, Head(fmt, enc, es)) + Tail(fmt, enc, es)
  }

  function Replies(fmt: Format, enc: Encoder, f: Firing): seq<Response>
  {
    match f.outcome
    case Unsent => []
    case Failed(_, _, _) => Failures(f.outcome, Present(fmt, enc, f.events))
    case Answered(answers) => Matched(answers, Present(fmt, enc, f.events))
  }

  /** Every response that a firing offers, in order. */
  function Offers(fmt: Format, enc: Encoder, f: Firing): seq<Response>
  {
    Refusals(enc, Head(fmt, enc, f.events)) + Replies(fmt, enc, f)
  }

  // ---- alignment of server replies ----

  /** The j-th reply goes out with the metadata of the j-th event in the request
      body, whatever was rejected before it and however much was left over: with the
      status that the server gave, and with an error exactly when the server named one. */
  lemma ReplyAlignment(cfg: Config, f: Firing, j: nat)
    requires f.outcome.Answered?
    requires var accepted := Accepted(cfg.encode, Head(cfg.format, cfg.encode, f.events));
             |f.outcome.answers| <= |accepted| && j < |f.outcome.answers|
    ensures var head := Head(cfg.format, cfg.encode, f.events);
            var offers := Offers(cfg.format, cfg.encode, f);
            var r, answer := offers[|Rejected(cfg.encode, head)| + j], f.outcome.answers[j];
            |offers| == |Rejected(cfg.encode, head)| + |f.outcome.answers| &&
            r.metadata == Accepted(cfg.encode, head)[j].metadata && r.status == answer.status && r.body == [] &&
            (r.err.None? <==> answer.message == "") &&
            (r.err.Some? ==> r.err.value == FromServer(answer.message)) &&
            cfg.encode(Accepted(cfg.encode, head)[j]) == Some(Payload(cfg.encode, head)[j])
  {
    FiltersSound(cfg.encode, Head(cfg.format, cfg.encode, f.events));
  }

  /** Read through the body that was sent: the value at position j of the JSON array
      is the encoding of the event whose metadata the j-th reply hands back. */
  lemma ReplyAlignmentThroughBody(cfg: Config, f: Firing, j: nat)
    requires cfg.format.JsonFormat? && EncodesJson(cfg.encode) && f.outcome.Answered?
    requires var accepted := Accepted(cfg.encode, Head(cfg.format, cfg.encode, f.events));
             |f.outcome.answers| <= |accepted| && j < |f.outcome.answers|
    ensures var head := Head(cfg.format, cfg.encode, f.events);
            var e := Accepted(cfg.encode, head)[j];
            var v := Json.Parse(RequestFor(cfg, f.events).body);
            v.Some? && v.value.Array? && |v.value.items| == |Accepted(cfg.encode, head)| &&
            cfg.encode(e) == Some(Json.Print(v.value.items[j])) &&
            Offers(cfg.format, cfg.encode, f)[|Rejected(cfg.encode, head)| + j].metadata == e.metadata
  {
    var head := Head(cfg.format, cfg.encode, f.events);
    var parts := Payload(cfg.encode, head);
    JsonBodyReads(cfg.encode, f.events);
    FiltersSound(cfg.encode, head);
    Json.ParseIffPrinted(parts[j], Json.Values(parts)[j]);
    ReplyAlignment(cfg, f, j);
  }

  /** The same for msgpack: the request reads back as an array whose j-th value is the
      encoding of the event whose metadata the j-th reply hands back. */
  lemma ReplyAlignmentThroughMsgpack(cfg: Config, extent: Msgpack.Extent, f: Firing, j: nat)
    requires cfg.format.MsgpackFormat? && EncodesMsgpack(cfg.encode, extent) && f.outcome.Answered?
    requires var accepted := Accepted(cfg.encode, Head(cfg.format, cfg.encode, f.events));
             |f.outcome.answers| <= |accepted| && j < |f.outcome.answers|
    ensures var head := Head(cfg.format, cfg.encode, f.events);
            var e := Accepted(cfg.encode, head)[j];
            var read := Msgpack.ReadArray(extent, RequestFor(cfg, f.events).body);
            read.Some? && |read.value| == |Accepted(cfg.encode, head)| && cfg.encode(e) == Some(read.value[j]) &&
            Offers(cfg.format, cfg.encode, f)[|Rejected(cfg.encode, head)| + j].metadata == e.metadata
  {
    MsgpackBodyReads(cfg.encode, extent, f.events);
    ReplyAlignment(cfg, f, j);
  }

  // ---- what a request carries ----

  /** The values are the encodings of these events, one by one. */
  ghost predicate EncodingsOf(enc: Encoder, es: seq<Event>, texts: seq<Text>)
  {
    |texts| == |es| && forall n :: 0 <= n < |es| ==> enc(es[n]) == Some(texts[n])
  }

  /** The request reads back as exactly these events: an array of their encodings, in
      either format, and the coordinates of the first of them. */
  ghost predicate Carries(cfg: Config, extent: Msgpack.Extent, req: Request, es: seq<Event>)
  {
    es != [] && req.apiHost == es[0].apiHost && req.apiKey == es[0].apiKey && req.dataset == es[0].dataset &&
    match cfg.format
    case JsonFormat =>
      var v := Json.Parse(req.body);
      v.Some? && v.value.Array? && EncodingsOf(cfg.encode, es, Json.Texts(v.value.items))
    case MsgpackFormat =>
      var read := Msgpack.ReadArray(extent, req.body);
      read.Some? && EncodingsOf(cfg.encode, es, read.value)
  }

  /** The contract of the encoder that the configured format needs. */
  ghost predicate EncodesFormat(cfg: Config, extent: Msgpack.Extent)
  {
    match cfg.format
    case JsonFormat => EncodesJson(cfg.encode)
    case MsgpackFormat => EncodesMsgpack(cfg.encode, extent)
  }

  lemma PayloadEncodes(enc: Encoder, es: seq<Event>)
    ensures EncodingsOf(enc, Accepted(enc, es), Payload(enc, es))
  {
    FiltersSound(enc, es);
  }

  lemma TextsOfValues(parts: seq<Text>)
    requires forall i :: 0 <= i < |parts| ==> Json.IsText(parts[i])
    ensures Json.Texts(Json.Values(parts)) == parts
  {
    forall i | 0 <= i < |parts| ensures Json.Print(Json.Values(parts)[i]) == parts[i] {
      Json.ParseIffPrinted(parts[i], Json.Values(parts)[i]);
    }
  }

  /** In both formats the request for a list of events carries the sendable ones before
      the cut, all of them and in order. */
  lemma RequestCarries(cfg: Config, extent: Msgpack.Extent, es: seq<Event>)
    requires EncodesFormat(cfg, extent) && Accepted(cfg.encode, Head(cfg.format, cfg.encode, es)) != []
    ensures Carries(cfg, extent, RequestFor(cfg, es), Accepted(cfg.encode, Head(cfg.format, cfg.encode, es)))
  {
    var head := Head(cfg.format, cfg.encode, es);
    PayloadEncodes(cfg.encode, head);
    match cfg.format
    case JsonFormat =>
      JsonBodyReads(cfg.encode, es);
      TextsOfValues(Payload(cfg.encode, head));
    case MsgpackFormat =>
      MsgpackBodyReads(cfg.encode, extent, es);
  }

  // ---- refusals ----

  /** The refusals say why: an event without an encoding, or with one of more than
      1,000,000 bytes. Each goes out with its own event's metadata, in order. */
  lemma RefusalsSayWhy(enc: Encoder, es: seq<Event>, i: nat)
    requires i < |Rejected(enc, es)|
    ensures var e, r := Rejected(enc, es)[i], Refusals(enc, es)[i];
            r.metadata == e.metadata && r.status == 0 && r.body == [] &&
            (r.err == Some(NotEncodable) <==> enc(e) == None) &&
            (r.err == Some(TooLarge) <==> enc(e).Some? && |enc(e).value| > 1_000_000)
  {
    FiltersSound(enc, es);
  }

  function Least(a: nat, b: nat): nat { if a <= b then a else b }

  /** The replies hand back the metadata of the request's events as far as they go, and
      then that of the events left over, which were not in the request. Nothing of these
      is handed back exactly when there are no more replies than events in the request,
      or nothing was left over. */
  lemma StrayRepliesIff(fmt: Format, enc: Encoder, f: Firing)
    requires f.outcome.Answered?
    ensures var accepted, tail := Accepted(enc, Head(fmt, enc, f.events)), Tail(fmt, enc, f.events);
            var n := |f.outcome.answers|;
            var own := Least(n, |accepted|);
            var stray := Least(n - own, |tail|);
            Handed(Replies(fmt, enc, f)) == Owed(accepted[..own]) + Owed(tail[..stray]) &&
            (Owed(tail[..stray]) == [] <==> n <= |accepted| || tail == [])
  {
    var accepted, tail := Accepted(enc, Head(fmt, enc, f.events)), Tail(fmt, enc, f.events);
    var n := |f.outcome.answers|;
    var own := Least(n, |accepted|);
    var stray := Least(n - own, |tail|);
    assert |Owed(tail[..stray])| == stray;
    assert Handed(Replies(fmt, enc, f)) == Owed(accepted[..own]) + Owed(tail[..stray]);
  }

  // ---- whether an error status is reported ----

  predicate AllReport(rs: seq<Response>, err: Error, status: int, body: Text)
  {
    forall i :: 0 <= i < |rs| ==> rs[i].err == Some(err) && rs[i].status == status && rs[i].body == body
  }

  /** Without an event to send, or with a bad URL, nothing is requested: no response, or
      the URL's error for every event still there. Otherwise at least one request goes out. */
  lemma NothingRequestedIff(cfg: Config, log: seq<Request>, f: Firing)
    requires f.outcome == FireOutcome(cfg, log, f.events).0
    ensures var accepted := Accepted(cfg.encode, Head(cfg.format, cfg.encode, f.events));
            var requests := FireOutcome(cfg, log, f.events).1;
            var replies := Replies(cfg.format, cfg.encode, f);
            (accepted == [] ==> requests == log && replies == []) &&
            (accepted != [] && !cfg.urlOk(accepted[0].apiHost, accepted[0].dataset) ==>
               requests == log && AllReport(replies, BadUrl, 0, []) && |replies| >= |accepted|) &&
            (accepted != [] && cfg.urlOk(accepted[0].apiHost, accepted[0].dataset) ==> |requests| > |log|)
  {
  }

  /** What an exchange comes to. There are two requests, both alike, just if the first
      attempt is a timeout, or a 429 or 503 that asks for a wait. With the last attempt:
      no reply answers every event with the transport's error; 200 and 202 answer with
      the list, if there is one, and else with a decoding error; any other status is
      reported with the body's text if it can then be read, which after a reply that
      asked for a wait is what a closed body still yields, and else not at all. */
  lemma OutcomeByStatus(cfg: Config, log: seq<Request>, f: Firing)
    requires Accepted(cfg.encode, Head(cfg.format, cfg.encode, f.events)) != []
    requires cfg.urlOk(RequestFor(cfg, f.events).apiHost, RequestFor(cfg, f.events).dataset)
    requires f.outcome == FireOutcome(cfg, log, f.events).0
    ensures Replies(cfg.format, cfg.encode, f) != [] || f.outcome.Answered?
    ensures var req := RequestFor(cfg, f.events);
            var first := cfg.server(log + [req]);
            FireOutcome(cfg, log, f.events).1 ==
                        if (first.NoReply? && first.timeout) ||
                           (first.Reply? && (first.status == 429 || first.status == 503) && first.wait)
                        then log + [req] + [req] else log + [req]
    ensures var last := cfg.server(FireOutcome(cfg, log, f.events).1);
            var replies := Replies(cfg.format, cfg.encode, f);
            last.NoReply? ==> AllReport(replies, Transport(last.code), 0, [])
    ensures var last := cfg.server(FireOutcome(cfg, log, f.events).1);
            var replies := Replies(cfg.format, cfg.encode, f);
            last.Reply? && (last.status == 200 || last.status == 202) && last.decoded.None? ==>
              AllReport(replies, Undecodable, 0, [])
    ensures var last := cfg.server(FireOutcome(cfg, log, f.events).1);
            forall answers :: f.outcome == Answered(answers) <==>
              last.Reply? && (last.status == 200 || last.status == 202) && last.decoded == Some(answers)
    ensures var last := cfg.server(FireOutcome(cfg, log, f.events).1);
            var replies := Replies(cfg.format, cfg.encode, f);
            last.Reply? && last.status != 200 && last.status != 202 ==>
              var text := if (last.status == 429 || last.status == 503) && last.wait then last.afterClose else last.raw;
              match text
              case Some(body) => AllReport(replies, UnexpectedStatus(last.status), last.status, body)
              case None => AllReport(replies, UnreadableBody, 0, [])
  {
    assert |Present(cfg.format, cfg.encode, f.events)| > 0;
  }

  /** So the status of a reply that refuses the request is reported to all events or to
      none, and to all if and only if its body can still be read. */
  lemma StatusReportedIff(cfg: Config, log: seq<Request>, f: Firing)
    requires Accepted(cfg.encode, Head(cfg.format, cfg.encode, f.events)) != []
    requires cfg.urlOk(RequestFor(cfg, f.events).apiHost, RequestFor(cfg, f.events).dataset)
    requires f.outcome == FireOutcome(cfg, log, f.events).0
    requires var last := cfg.server(FireOutcome(cfg, log, f.events).1);
             last.Reply? && last.status != 200 && last.status != 202
    ensures var last := cfg.server(FireOutcome(cfg, log, f.events).1);
            var replies := Replies(cfg.format, cfg.encode, f);
            var text := if (last.status == 429 || last.status == 503) && last.wait then last.afterClose else last.raw;
            ((exists body :: AllReport(replies, UnexpectedStatus(last.status), last.status, body)) <==> text.Some?) &&
            (AllReport(replies, UnreadableBody, 0, []) <==> text.None?)
  {
    OutcomeByStatus(cfg, log, f);
    var last := cfg.server(FireOutcome(cfg, log, f.events).1);
    var replies := Replies(cfg.format, cfg.encode, f);
    assert replies != [];
    assert forall err, status, body :: AllReport(replies, err, status, body) ==> replies[0].err == Some(err);
  }

  function Always(a: Attempt): Server { rs => a }

  /** A server that answers its n-th request in one way and later ones in another. */
  function AtFirst(n: nat, first: Attempt, later: Attempt): Server
  {
    rs => if |rs| == n then first else later
  }

  /** All four cases occur: a second throttling reply that asks for a wait loses its
      status, but keeps it with an empty body, which can be read when closed; one that
      asks for none keeps it on the second attempt; and a first reply whose body cannot
      be read loses it. */
  lemma StatusCases(log: seq<Request>, req: Request)
    ensures Exchange(Always(Reply(429, true, Some([1]), None, None)), log, req) ==
            (Failed(UnreadableBody, 0, []), log + [req] + [req])
    ensures Exchange(Always(Reply(429, true, Some([]), Some([]), None)), log, req) ==
            (Failed(UnexpectedStatus(429), 429, []), log + [req] + [req])
    ensures Exchange(AtFirst(|log| + 1, NoReply(0, true), Reply(429, false, Some([]), None, None)), log, req) ==
            (Failed(UnexpectedStatus(429), 429, []), log + [req] + [req])
    ensures Exchange(Always(Reply(429, false, None, None, None)), log, req) ==
            (Failed(UnreadableBody, 0, []), log + [req])
  {
  }

  // ---- balance of one firing ----

  /** The server answers every event of the request, and nothing is skipped that
      could be sent. */
  predicate WellAnswered(fmt: Format, enc: Encoder, f: Firing)
  {
    var accepted := Accepted(enc, Head(fmt, enc, f.events));
    (f.outcome.Unsent? <==> accepted == []) &&
    (f.outcome.Answered? ==> |f.outcome.answers| == |accepted|)
  }

  /** The events answered by a failed firing although they wait for another one. */
  function Doubled(fmt: Format, enc: Encoder, f: Firing): seq<Event>
  {
    if f.outcome.Failed? then Tail(fmt, enc, f.events) else []
  }

  lemma RefusalsHand(enc: Encoder, es: seq<Event>)
    ensures Handed(Refusals(enc, es)) == Owed(Rejected(enc, es))
  {
  }

  lemma RepliesHand(fmt: Format, enc: Encoder, f: Firing)
    requires WellAnswered(fmt, enc, f)
    ensures Handed(Replies(fmt, enc, f)) == Owed(Accepted(enc, Head(fmt, enc, f.events)) + Doubled(fmt, enc, f))
  {
  }

  /** A firing offers one response for each event that it deals with, and when it
      fails one more for each event that it leaves over. */
  lemma FiringBalance(fmt: Format, enc: Encoder, f: Firing)
    requires WellAnswered(fmt, enc, f)
    ensures multiset(Handed(Offers(fmt, enc, f))) ==
            multiset(Owed(Head(fmt, enc, f.events))) + multiset(Owed(Doubled(fmt, enc, f)))
  {
    var head := Head(fmt, enc, f.events);
    RefusalsHand(enc, head);
    RepliesHand(fmt, enc, f);
    HandedConcat(Refusals(enc, head), Replies(fmt, enc, f));
    OwedConcat(Accepted(enc, head), Doubled(fmt, enc, f));
    OwedFilters(enc, head);
  }

  lemma {:induction false} OwedFilters(enc: Encoder, es: seq<Event>)
    ensures multiset(Owed(Rejected(enc, es))) + multiset(Owed(Accepted(enc, es))) == multiset(Owed(es))
  {
    if es != [] {
      var n := |es| - 1;
      OwedFilters(enc, es[..n]);
      OwedConcat(es[..n], [es[n]]);
      assert es == es[..n] + [es[n]];
      AcceptedLast(enc, es);
      RejectedLast(enc, es);
      OwedConcat(Accepted(enc, es[..n]), [es[n]]);
      OwedConcat(Rejected(enc, es[..n]), [es[n]]);
      assert Accepted(enc, es[..n]) + [] == Accepted(enc, es[..n]);
      assert Rejected(enc, es[..n]) + [] == Rejected(enc, es[..n]);
    }
  }

  // ---- balance of a bucket ----

  function AllOffers(fmt: Format, enc: Encoder, fs: seq<Firing>): seq<Response>
  {
    if fs == [] then [] else AllOffers(fmt, enc, fs[..|fs| - 1]) + Offers(fmt, enc, fs[|fs| - 1])
  }

  function EventsOf(fs: seq<Firing>): seq<seq<Event>>
  {
    seq(|fs|, i requires 0 <= i < |fs| => fs[i].events)
  }

  predicate AllWellAnswered(fmt: Format, enc: Encoder, fs: seq<Firing>)
  {
    forall i :: 0 <= i < |fs| ==> WellAnswered(fmt, enc, fs[i])
  }

  /** The metadata that failed firings hand back for events they leave over. */
  function Surplus(fmt: Format, enc: Encoder, fs: seq<Firing>): multiset<int>
  {
    if fs == [] then multiset{}
    else multiset(Owed(Doubled(fmt, enc, fs[0]))) + Surplus(fmt, enc, fs[1..])
  }

  lemma AllOffersLast(fmt: Format, enc: Encoder, fs: seq<Firing>)
    requires fs != []
    ensures AllOffers(fmt, enc, fs) == AllOffers(fmt, enc, fs[..|fs| - 1]) + Offers(fmt, enc, fs[|fs| - 1])
  {
  }

  lemma {:induction false} AllOffersFront(fmt: Format, enc: Encoder, fs: seq<Firing>)
    requires fs != []
    ensures AllOffers(fmt, enc, fs) == Offers(fmt, enc, fs[0]) + AllOffers(fmt, enc, fs[1..])
  {
    var n := |fs| - 1;
    if n == 0 {
      assert fs[..0] == [] && fs[1..] == [];
    } else {
      AllOffersFront(fmt, enc, fs[..n]);
      var middle := fs[1..][..n - 1];
      assert fs[..n][1..] == middle && fs[1..][n - 1] == fs[n] && |fs[1..]| == n;
      AllOffersLast(fmt, enc, fs);
      AllOffersLast(fmt, enc, fs[1..]);
      Regroup(Offers(fmt, enc, fs[0]), AllOffers(fmt, enc, middle), Offers(fmt, enc, fs[n]));
    }
  }

  /** The firings of a bucket: its rounds, each with an outcome. */
  ghost predicate FiringsOf(fmt: Format, enc: Encoder, es: seq<Event>, n: nat, fs: seq<Firing>)
  {
    EventsOf(fs) == Rounds(fmt, enc, es, n)
  }

  lemma FiringsStep(fmt: Format, enc: Encoder, es: seq<Event>, n: nat, fs: seq<Firing>)
    requires FiringsOf(fmt, enc, es, n, fs)
    ensures fs == [] <==> n == 0 || es == []
    ensures fs != [] ==> fs[0].events == es && FiringsOf(fmt, enc, Tail(fmt, enc, es), n - 1, fs[1..])
  {
    assert |EventsOf(fs)| == |fs|;
    if fs != [] {
      assert EventsOf(fs)[0] == fs[0].events;
      assert EventsOf(fs)[1..] == EventsOf(fs[1..]);
    }
  }

  lemma BalanceStep(fmt: Format, enc: Encoder, f: Firing, later: seq<Firing>, taken: seq<Event>)
    requires WellAnswered(fmt, enc, f)
    requires multiset(Handed(AllOffers(fmt, enc, later))) == multiset(Owed(taken)) + Surplus(fmt, enc, later)
    ensures multiset(Handed(AllOffers(fmt, enc, [f] + later))) ==
            multiset(Owed(Head(fmt, enc, f.events) + taken)) + Surplus(fmt, enc, [f] + later)
  {
    var fs := [f] + later;
    assert fs[1..] == later;
    AllOffersFront(fmt, enc, fs);
    FiringBalance(fmt, enc, f);
    HandedConcat(Offers(fmt, enc, f), AllOffers(fmt, enc, later));
    OwedConcat(Head(fmt, enc, f.events), taken);
  }

  lemma NothingTaken(fmt: Format, enc: Encoder, es: seq<Event>, n: nat)
    requires n == 0 || es == []
    ensures Taken(fmt, enc, es, n) == [] && Owed(Taken(fmt, enc, es, n)) == []
    ensures Handed(AllOffers(fmt, enc, [])) == []
  {
  }

  /** Over all its firings a bucket offers one response for each event it takes, and
      for each failed firing one more for each event that firing left over. */
  lemma {:induction false} BucketBalance(fmt: Format, enc: Encoder, es: seq<Event>, n: nat, fs: seq<Firing>)
    requires FiringsOf(fmt, enc, es, n, fs) && AllWellAnswered(fmt, enc, fs)
    ensures multiset(Handed(AllOffers(fmt, enc, fs))) ==
            multiset(Owed(Taken(fmt, enc, es, n))) + Surplus(fmt, enc, fs)
    decreases n
  {
    FiringsStep(fmt, enc, es, n, fs);
    if fs == [] {
      NothingTaken(fmt, enc, es, n);
    } else {
      var tail := Tail(fmt, enc, es);
      BucketBalance(fmt, enc, tail, n - 1, fs[1..]);
      BalanceStep(fmt, enc, fs[0], fs[1..], Taken(fmt, enc, tail, n - 1));
      TakenStep(fmt, enc, es, n);
      assert fs == [fs[0]] + fs[1..];
    }
  }

  function SurplusSize(fmt: Format, enc: Encoder, fs: seq<Firing>): nat
  {
    if fs == [] then 0 else |Doubled(fmt, enc, fs[0])| + SurplusSize(fmt, enc, fs[1..])
  }

  lemma {:induction false} SurplusHasSize(fmt: Format, enc: Encoder, fs: seq<Firing>)
    ensures |Surplus(fmt, enc, fs)| == SurplusSize(fmt, enc, fs)
  {
    if fs != [] {
      SurplusHasSize(fmt, enc, fs[1..]);
    }
  }

  /** Every firing but the last was answered, and the last one either failed or left
      nothing over. */
  predicate OneEach(fs: seq<Firing>, drained: bool)
  {
    (forall r :: 0 <= r < |fs| - 1 ==> !fs[r].outcome.Failed?) &&
    (drained || (fs != [] && fs[|fs| - 1].outcome.Failed?))
  }

  /** The numbers of events that each firing leaves over, and which firings fail. */
  function LeftOver(fmt: Format, enc: Encoder, fs: seq<Firing>): seq<nat>
  {
    seq(|fs|, i requires 0 <= i < |fs| => |Tail(fmt, enc, fs[i].events)|)
  }

  function SumWhere(sizes: seq<nat>, fails: seq<bool>): nat
    requires |sizes| == |fails|
  {
    if sizes == [] then 0 else (if fails[0] then sizes[0] else 0) + SumWhere(sizes[1..], fails[1..])
  }

  predicate Falling(sizes: seq<nat>)
  {
    forall i :: 0 < i < |sizes| ==> sizes[i] < sizes[i - 1]
  }

  /** In a falling sequence, the chosen entries sum up to the last one just if none
      before the last is chosen, and the last one is chosen or 0. */
  lemma {:induction false} SumIsLastIff(sizes: seq<nat>, fails: seq<bool>)
    requires |sizes| == |fails| > 0 && Falling(sizes)
    ensures SumWhere(sizes, fails) == sizes[|sizes| - 1] <==>
            (forall r :: 0 <= r < |fails| - 1 ==> !fails[r]) &&
            (sizes[|sizes| - 1] == 0 || fails[|fails| - 1])
  {
    if |sizes| == 1 {
      assert SumWhere(sizes[1..], fails[1..]) == 0;
    } else {
      SumIsLastIff(sizes[1..], fails[1..]);
      FirstIsLargest(sizes);
      assert forall r :: 1 <= r < |fails| ==> fails[r] == fails[1..][r - 1];
    }
  }

  lemma {:induction false} FirstIsLargest(sizes: seq<nat>)
    requires |sizes| > 1 && Falling(sizes)
    ensures sizes[|sizes| - 1] < sizes[0]
  {
    if |sizes| > 2 {
      FirstIsLargest(sizes[1..]);
    }
  }

  function Fails(fs: seq<Firing>): seq<bool>
  {
    seq(|fs|, i requires 0 <= i < |fs| => fs[i].outcome.Failed?)
  }

  lemma {:induction false} SurplusIsSum(fmt: Format, enc: Encoder, fs: seq<Firing>)
    ensures SurplusSize(fmt, enc, fs) == SumWhere(LeftOver(fmt, enc, fs), Fails(fs))
  {
    if fs != [] {
      SurplusIsSum(fmt, enc, fs[1..]);
      assert LeftOver(fmt, enc, fs)[1..] == LeftOver(fmt, enc, fs[1..]);
      assert Fails(fs)[1..] == Fails(fs[1..]);
    }
  }

  /** Each firing leaves less over than the one before, and the last one leaves the
      residue. */
  lemma {:induction false} LeftOverFalls(fmt: Format, enc: Encoder, es: seq<Event>, n: nat, fs: seq<Firing>)
    requires FiringsOf(fmt, enc, es, n, fs) && fs != []
    ensures Falling(LeftOver(fmt, enc, fs))
    ensures Tail(fmt, enc, fs[|fs| - 1].events) == Residue(fmt, enc, es, n)
    decreases n
  {
    var tail := Tail(fmt, enc, es);
    FiringsStep(fmt, enc, es, n, fs);
    FiringsStep(fmt, enc, tail, n - 1, fs[1..]);
    if fs[1..] != [] {
      LeftOverFalls(fmt, enc, tail, n - 1, fs[1..]);
      TailShrinks(fmt, enc, tail);
      var sizes, later := LeftOver(fmt, enc, fs), LeftOver(fmt, enc, fs[1..]);
      assert sizes[1..] == later && sizes[0] == |tail|;
      FallingFront(sizes);
    }
  }

  lemma FallingFront(sizes: seq<nat>)
    requires |sizes| > 1 && sizes[1] < sizes[0] && Falling(sizes[1..])
    ensures Falling(sizes)
  {
    forall i | 0 < i < |sizes| ensures sizes[i] < sizes[i - 1] {
      if i > 1 {
        assert sizes[1..][i - 1] < sizes[1..][i - 2];
      }
    }
  }

  lemma FailsSay(fs: seq<Firing>, drained: bool)
    requires fs != []
    ensures OneEach(fs, drained) <==>
            (forall r :: 0 <= r < |Fails(fs)| - 1 ==> !Fails(fs)[r]) && (drained || Fails(fs)[|Fails(fs)| - 1])
  {
    assert forall r :: 0 <= r < |fs| ==> Fails(fs)[r] == fs[r].outcome.Failed?;
  }

  /** The surplus of failed firings amounts to what is left over just in the runs of
      one response each. */
  lemma SurplusSizeIff(fmt: Format, enc: Encoder, es: seq<Event>, n: nat, fs: seq<Firing>)
    requires FiringsOf(fmt, enc, es, n, fs) && n > 0
    ensures SurplusSize(fmt, enc, fs) == |Residue(fmt, enc, es, n)| <==> OneEach(fs, Residue(fmt, enc, es, n) == [])
  {
    FiringsStep(fmt, enc, es, n, fs);
    if fs != [] {
      LeftOverFalls(fmt, enc, es, n, fs);
      SurplusIsSum(fmt, enc, fs);
      SumIsLastIff(LeftOver(fmt, enc, fs), Fails(fs));
      FailsSay(fs, Residue(fmt, enc, es, n) == []);
    }
  }

  lemma {:induction false} OnlyLastDoubles(fmt: Format, enc: Encoder, fs: seq<Firing>)
    requires fs != [] && forall r :: 0 <= r < |fs| - 1 ==> !fs[r].outcome.Failed?
    ensures Surplus(fmt, enc, fs) == multiset(Owed(Doubled(fmt, enc, fs[|fs| - 1])))
  {
    if |fs| == 1 {
      assert fs[1..] == [];
    } else {
      OnlyLastDoubles(fmt, enc, fs[1..]);
    }
  }

  lemma Cancel(all: multiset<int>, taken: multiset<int>, left: multiset<int>, surplus: multiset<int>)
    requires all == taken + surplus
    ensures all == taken + left <==> surplus == left
  {
    if all == taken + left {
      forall m ensures surplus[m] == left[m] {
        assert all[m] == taken[m] + surplus[m] && all[m] == taken[m] + left[m];
      }
    }
  }

  /** A bucket's events get exactly one response each if and only if every firing but
      the last was answered, and the last one failed or the bucket needs no more firings
      than it is allowed. */
  lemma ExactlyOnceIff(fmt: Format, enc: Encoder, es: seq<Event>, n: nat, fs: seq<Firing>)
    requires FiringsOf(fmt, enc, es, n, fs) && AllWellAnswered(fmt, enc, fs) && n > 0
    ensures multiset(Handed(AllOffers(fmt, enc, fs))) == multiset(Owed(es)) <==>
            OneEach(fs, Firings(fmt, enc, es) <= n)
  {
    BucketBalance(fmt, enc, es, n, fs);
    OwedSplits(fmt, enc, es, n);
    DrainedIff(fmt, enc, es, n);
    var left, surplus := Residue(fmt, enc, es, n), Surplus(fmt, enc, fs);
    Cancel(multiset(Handed(AllOffers(fmt, enc, fs))), multiset(Owed(Taken(fmt, enc, es, n))),
           multiset(Owed(left)), surplus);
    SurplusIff(fmt, enc, es, n, fs);
  }

  lemma FiveTakeTwoRounds(fmt: Format, enc: Encoder, es: seq<Event>)
    requires |es| == 5 && AllOfSize(enc, es, API_EVENT_SIZE_MAX)
    ensures Head(fmt, enc, es) == es[..4] && Tail(fmt, enc, es) == es[4..]
    ensures Head(fmt, enc, es[4..]) == [es[4]] && Tail(fmt, enc, es[4..]) == []
    ensures Rounds(fmt, enc, es, FIRINGS_PER_BUCKET) == [es, es[4..]]
  {
    LargestGoInFours(fmt, enc, es);
    LargestGoInFours(fmt, enc, es[4..]);
    assert Rounds(fmt, enc, [], FIRINGS_PER_BUCKET - 2) == [];
    assert Rounds(fmt, enc, es[4..], FIRINGS_PER_BUCKET - 1) == [es[4..]];
  }

  /** With nothing to refuse all events are still present. */
  lemma AllPresent(fmt: Format, enc: Encoder, es: seq<Event>)
    requires AllOfSize(enc, es, API_EVENT_SIZE_MAX)
    ensures Refusals(enc, Head(fmt, enc, es)) == [] && Present(fmt, enc, es) == es
  {
    var head, tail := Head(fmt, enc, es), Tail(fmt, enc, es);
    AllSent(enc, head);
    assert es == head + tail;
  }

  /** Then a failed firing answers all its events, and so does one that is answered in
      full and leaves nothing over. */
  lemma OffersWhenPresent(fmt: Format, enc: Encoder, f: Firing)
    requires Refusals(enc, Head(fmt, enc, f.events)) == [] && Present(fmt, enc, f.events) == f.events
    requires f.outcome.Failed? || (f.outcome.Answered? && |f.outcome.answers| == |f.events|)
    ensures Handed(Offers(fmt, enc, f)) == Owed(f.events)
  {
    var replies := if f.outcome.Failed? then Failures(f.outcome, f.events) else Matched(f.outcome.answers, f.events);
    assert Handed(replies) == Owed(f.events);
    assert [] + replies == replies;
  }

  /** Five events of the largest size, of which the first request takes four. When it
      fails, and the second one, with the fifth event, is answered, the fifth event has
      two responses. */
  lemma DuplicateResponse(fmt: Format, enc: Encoder, es: seq<Event>, first: Firing, second: Firing)
    requires |es| == 5 && AllOfSize(enc, es, API_EVENT_SIZE_MAX)
    requires first.events == es && first.outcome.Failed?
    requires second.events == es[4..] && second.outcome.Answered? && |second.outcome.answers| == 1
    ensures FiringsOf(fmt, enc, es, FIRINGS_PER_BUCKET, [first, second]) && AllWellAnswered(fmt, enc, [first, second])
    ensures Handed(AllOffers(fmt, enc, [first, second])) == Owed(es) + Owed([es[4]])
  {
    FiveWellAnswered(fmt, enc, es, first, second);
    FivePresent(fmt, enc, es);
    TwoFirings(fmt, enc, first, second);
    assert es[4..] == [es[4]];
  }

  lemma FivePresent(fmt: Format, enc: Encoder, es: seq<Event>)
    requires |es| == 5 && AllOfSize(enc, es, API_EVENT_SIZE_MAX)
    ensures Refusals(enc, Head(fmt, enc, es)) == [] && Present(fmt, enc, es) == es
    ensures Refusals(enc, Head(fmt, enc, es[4..])) == [] && Present(fmt, enc, es[4..]) == es[4..]
  {
    AllPresent(fmt, enc, es);
    AllPresent(fmt, enc, es[4..]);
  }

  lemma FiveWellAnswered(fmt: Format, enc: Encoder, es: seq<Event>, first: Firing, second: Firing)
    requires |es| == 5 && AllOfSize(enc, es, API_EVENT_SIZE_MAX)
    requires first.events == es && first.outcome.Failed?
    requires second.events == es[4..] && second.outcome.Answered? && |second.outcome.answers| == 1
    ensures FiringsOf(fmt, enc, es, FIRINGS_PER_BUCKET, [first, second]) && AllWellAnswered(fmt, enc, [first, second])
  {
    FiveTakeTwoRounds(fmt, enc, es);
    assert EventsOf([first, second]) == [es, es[4..]];
    AllSent(enc, es[..4]);
    AllSent(enc, [es[4]]);
  }

  lemma TwoFirings(fmt: Format, enc: Encoder, first: Firing, second: Firing)
    requires Refusals(enc, Head(fmt, enc, first.events)) == [] && Present(fmt, enc, first.events) == first.events
    requires Refusals(enc, Head(fmt, enc, second.events)) == [] && Present(fmt, enc, second.events) == second.events
    requires first.outcome.Failed? && second.outcome.Answered? && |second.outcome.answers| == |second.events|
    ensures Handed(AllOffers(fmt, enc, [first, second])) == Owed(first.events) + Owed(second.events)
  {
    OffersWhenPresent(fmt, enc, first);
    OffersWhenPresent(fmt, enc, second);
    assert [first, second][..1] == [first] && [first][..0] == [];
    assert AllOffers(fmt, enc, [first]) == Offers(fmt, enc, first);
    HandedConcat(Offers(fmt, enc, first), Offers(fmt, enc, second));
  }

  lemma {:induction false} AllSent(enc: Encoder, es: seq<Event>)
    requires AllOfSize(enc, es, API_EVENT_SIZE_MAX)
    ensures Accepted(enc, es) == es && Rejected(enc, es) == []
  {
    if es != [] {
      var n := |es| - 1;
      AllSent(enc, es[..n]);
      assert es == es[..n] + [es[n]];
    }
  }

  lemma SurplusIff(fmt: Format, enc: Encoder, es: seq<Event>, n: nat, fs: seq<Firing>)
    requires FiringsOf(fmt, enc, es, n, fs) && n > 0
    ensures Surplus(fmt, enc, fs) == multiset(Owed(Residue(fmt, enc, es, n))) <==>
            OneEach(fs, Residue(fmt, enc, es, n) == [])
  {
    var left := Residue(fmt, enc, es, n);
    SurplusSizeIff(fmt, enc, es, n, fs);
    SurplusHasSize(fmt, enc, fs);
    assert |multiset(Owed(left))| == |left|;
    if OneEach(fs, left == []) && fs != [] {
      LeftOverFalls(fmt, enc, es, n, fs);
      OnlyLastDoubles(fmt, enc, fs);
    }
  }

  lemma OwedSplits(fmt: Format, enc: Encoder, es: seq<Event>, n: nat)
    ensures multiset(Owed(es)) ==
            multiset(Owed(Taken(fmt, enc, es, n))) + multiset(Owed(Residue(fmt, enc, es, n)))
  {
    ResidueIsSuffix(fmt, enc, es, n);
    assert es == Taken(fmt, enc, es, n) + Residue(fmt, enc, es, n);
    OwedConcat(Taken(fmt, enc, es, n), Residue(fmt, enc, es, n));
  }

  // ---- per event ----

  /** The failed firings that the i-th event of es sat through in the left-over part. */
  function SatThrough(fmt: Format, enc: Encoder, es: seq<Event>, fs: seq<Firing>, i: nat): nat
  {
    if fs == [] then 0
    else
      var over := Tail(fmt, enc, fs[0].events);
      (if fs[0].outcome.Failed? && |over| + i >= |es| then 1 else 0) + SatThrough(fmt, enc, es, fs[1..], i)
  }

  /** Summed over the first n events that carry metadata m: one response if the event is
      among the first `taken` ones, and one for each failed firing it sat through. */
  function ResponsesDue(fmt: Format, enc: Encoder, es: seq<Event>, taken: nat, fs: seq<Firing>, m: int, n: nat): nat
    requires n <= |es|
  {
    if n == 0 then 0
    else
      ResponsesDue(fmt, enc, es, taken, fs, m, n - 1) +
      (if es[n - 1].metadata == m
       then (if n - 1 < taken then 1 else 0) + SatThrough(fmt, enc, es, fs, n - 1) else 0)
  }

  lemma CountLast(es: seq<Event>, lo: nat, n: nat, m: int)
    requires lo <= n < |es|
    ensures multiset(Owed(es[lo..n + 1]))[m] ==
            multiset(Owed(es[lo..n]))[m] + (if es[n].metadata == m then 1 else 0)
  {
    assert es[lo..n + 1] == es[lo..n] + [es[n]];
    OwedConcat(es[lo..n], [es[n]]);
    assert Owed([es[n]]) == [es[n].metadata];
  }

  lemma {:induction false} DueForTaken(fmt: Format, enc: Encoder, es: seq<Event>, taken: nat, fs: seq<Firing>,
                                       m: int, n: nat)
    requires n <= |es|
    ensures ResponsesDue(fmt, enc, es, taken, fs, m, n) ==
            multiset(Owed(es[..Least(taken, n)]))[m] + ResponsesDue(fmt, enc, es, 0, fs, m, n)
  {
    if n == 0 {
      assert es[..0] == [];
    } else {
      DueForTaken(fmt, enc, es, taken, fs, m, n - 1);
      if n - 1 < taken {
        CountLast(es, 0, n - 1, m);
        assert es[0..n] == es[..n] && es[0..n - 1] == es[..n - 1];
      }
    }
  }

  /** What one firing leaves over counts for each event in it. */
  lemma {:induction false} DueForFiring(fmt: Format, enc: Encoder, es: seq<Event>, fs: seq<Firing>, m: int,
                                        lo: nat, n: nat)
    requires fs != [] && n <= |es| && lo == |es| - |Tail(fmt, enc, fs[0].events)|
    ensures ResponsesDue(fmt, enc, es, 0, fs, m, n) ==
            (if fs[0].outcome.Failed? && lo <= n then multiset(Owed(es[lo..n]))[m] else 0) +
            ResponsesDue(fmt, enc, es, 0, fs[1..], m, n)
  {
    if n > 0 {
      DueForFiring(fmt, enc, es, fs, m, lo, n - 1);
      if lo <= n - 1 {
        CountLast(es, lo, n - 1, m);
      }
    }
    if lo == n {
      assert es[lo..n] == [];
    }
  }

  lemma SuffixTail(fmt: Format, enc: Encoder, es: seq<Event>, k: nat) returns (k': nat)
    requires k <= |es|
    ensures k <= k' <= |es| && Tail(fmt, enc, es[k..]) == es[k'..] && |es[k'..]| == |es| - k'
    ensures es[k'..] == es[k'..|es|]
  {
    k' := k + Cut(fmt, enc, es[k..]);
  }

  lemma {:induction false} SurplusDue(fmt: Format, enc: Encoder, es: seq<Event>, k: nat, n: nat, fs: seq<Firing>,
                                      m: int)
    requires k <= |es| && FiringsOf(fmt, enc, es[k..], n, fs)
    ensures Surplus(fmt, enc, fs)[m] == ResponsesDue(fmt, enc, es, 0, fs, m, |es|)
    decreases n
  {
    FiringsStep(fmt, enc, es[k..], n, fs);
    if fs == [] {
      NothingDue(fmt, enc, es, m, |es|);
    } else {
      var k' := SuffixTail(fmt, enc, es, k);
      SurplusDue(fmt, enc, es, k', n - 1, fs[1..], m);
      DueForFiring(fmt, enc, es, fs, m, k', |es|);
    }
  }

  lemma {:induction false} NothingDue(fmt: Format, enc: Encoder, es: seq<Event>, m: int, n: nat)
    requires n <= |es|
    ensures ResponsesDue(fmt, enc, es, 0, [], m, n) == 0
  {
    if n > 0 {
      NothingDue(fmt, enc, es, m, n - 1);
    }
  }

  /** For any metadata: the responses that hand it back are, summed over the events that
      carry it, one for each event that the bucket takes, and one for every failed firing
      that left the event over. */
  lemma ResponsesPerEvent(fmt: Format, enc: Encoder, es: seq<Event>, n: nat, fs: seq<Firing>, m: int)
    requires FiringsOf(fmt, enc, es, n, fs) && AllWellAnswered(fmt, enc, fs)
    ensures multiset(Handed(AllOffers(fmt, enc, fs)))[m] ==
            ResponsesDue(fmt, enc, es, |Taken(fmt, enc, es, n)|, fs, m, |es|)
  {
    BucketBalance(fmt, enc, es, n, fs);
    assert es[0..] == es;
    SurplusDue(fmt, enc, es, 0, n, fs, m);
    DueForTaken(fmt, enc, es, |Taken(fmt, enc, es, n)|, fs, m, |es|);
    AddCounts(multiset(Handed(AllOffers(fmt, enc, fs))), multiset(Owed(Taken(fmt, enc, es, n))),
              Surplus(fmt, enc, fs), m);
  }

  lemma AddCounts(all: multiset<int>, a: multiset<int>, b: multiset<int>, m: int)
    requires all == a + b
    ensures all[m] == a[m] + b[m]
  {
  }

  // ---- whose target a request carries ----

  /** When the same two coordinates are free of underscores in all events of a bucket,
      every event travels in a request that carries its own host, key and dataset. */
  lemma OwnTarget(cfg: Config, f: Firing, p: PlainPair, i: nat)
    requires AllOfKey(f.events, f.key)
    requires forall j :: 0 <= j < |f.events| ==> PlainIn(p, f.events[j])
    requires i < |Accepted(cfg.encode, Head(cfg.format, cfg.encode, f.events))|
    ensures var e := Accepted(cfg.encode, Head(cfg.format, cfg.encode, f.events))[i];
            var req := RequestFor(cfg, f.events);
            req.apiHost == e.apiHost && req.apiKey == e.apiKey && req.dataset == e.dataset
  {
    var head := Head(cfg.format, cfg.encode, f.events);
    AcceptedComeFrom(cfg.encode, head, 0);
    AcceptedComeFrom(cfg.encode, head, i);
    var a, b := Accepted(cfg.encode, head)[0], Accepted(cfg.encode, head)[i];
    var x :| 0 <= x < |head| && head[x] == a;
    var y :| 0 <= y < |head| && head[y] == b;
    assert f.events[x] == a && f.events[y] == b;
    KeyTellsTargets(p, a, b);
  }

  lemma {:induction false} AcceptedComeFrom(enc: Encoder, es: seq<Event>, i: nat)
    requires i < |Accepted(enc, es)|
    ensures exists x :: 0 <= x < |es| && es[x] == Accepted(enc, es)[i]
  {
    var n := |es| - 1;
    if i < |Accepted(enc, es[..n])| {
      AcceptedComeFrom(enc, es[..n], i);
      var x :| 0 <= x < n && es[..n][x] == Accepted(enc, es[..n])[i];
      assert es[x] == Accepted(enc, es)[i];
    } else {
      assert es[n] == Accepted(enc, es)[i];
    }
  }
}
