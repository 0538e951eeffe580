/** What a whole fire guarantees: per key in arrival order, and over all keys one
    response for each event. */
module Accounting {
  import opened Types
  import opened Packing
  import opened Buckets
  import opened Firing
  import opened History
  import Msgpack

  /** For each key: its events are sent or refused in arrival order, each once, up to
      what stays in the overflow. */
  lemma FireKeepsOrder(cfg: Config, added: seq<Event>, h: seq<Firing>, o: Buckets, k: string)
    requires Fired(cfg, added, h, o)
    ensures var es := OfKey(added, k);
            var taken := Taken(cfg.format, cfg.encode, es, FIRINGS_PER_BUCKET);
            var rounds := EventsOf(Project(h, k));
            es == taken + Get(o, k) &&
            Sent(cfg.format, cfg.encode, rounds) == Accepted(cfg.encode, taken) &&
            Refused(cfg.format, cfg.encode, rounds) == Rejected(cfg.encode, taken)
    ensures Get(o, k) == [] <==> Firings(cfg.format, cfg.encode, OfKey(added, k)) <= FIRINGS_PER_BUCKET
  {
    assert KeyFired(cfg, added, h, o, k);
    ArrivalOrder(cfg.format, cfg.encode, OfKey(added, k), FIRINGS_PER_BUCKET);
    DrainedIff(cfg.format, cfg.encode, OfKey(added, k), FIRINGS_PER_BUCKET);
  }

  /** The server answers every event of every request that it accepts. */
  predicate AnswersInFull(cfg: Config, h: seq<Firing>)
  {
    forall i :: 0 <= i < |h| && h[i].outcome.Answered? ==>
      |h[i].outcome.answers| == |Accepted(cfg.encode, Head(cfg.format, cfg.encode, h[i].events))|
  }

  lemma FullAnswersSuffice(cfg: Config, h: seq<Firing>, k: string)
    requires Genuine(cfg, h) && AnswersInFull(cfg, h)
    ensures AllWellAnswered(cfg.format, cfg.encode, Project(h, k))
  {
    forall i | 0 <= i < |h| ensures WellAnswered(cfg.format, cfg.encode, h[i]) {
      assert h[i].outcome == FireOutcome(cfg, Transcript(cfg, h[..i]), h[i].events).0;
    }
    forall i | 0 <= i < |Project(h, k)| ensures WellAnswered(cfg.format, cfg.encode, Project(h, k)[i]) {
      ProjectedKeys(h, k, i);
    }
  }

  /** All firings of a key but the last were answered, and the last one failed or the
      key needs no more firings than the cap allows. */
  predicate KeyOneEach(cfg: Config, added: seq<Event>, h: seq<Firing>, k: string)
  {
    OneEach(Project(h, k), Firings(cfg.format, cfg.encode, OfKey(added, k)) <= FIRINGS_PER_BUCKET)
  }

  /** A key's events get exactly one response each, counted by metadata, if and only if
      that is so. */
  lemma KeyExactlyOnceIff(cfg: Config, added: seq<Event>, h: seq<Firing>, o: Buckets, k: string)
    requires Fired(cfg, added, h, o) && Genuine(cfg, h) && AnswersInFull(cfg, h)
    ensures multiset(Handed(AllOffers(cfg.format, cfg.encode, Project(h, k)))) == multiset(Owed(OfKey(added, k)))
            <==> KeyOneEach(cfg, added, h, k)
  {
    assert KeyFired(cfg, added, h, o, k);
    FullAnswersSuffice(cfg, h, k);
    ExactlyOnceIff(cfg.format, cfg.encode, OfKey(added, k), FIRINGS_PER_BUCKET, Project(h, k));
  }

  lemma TakenSize(cfg: Config, added: seq<Event>, h: seq<Firing>, o: Buckets, k: string)
    requires Fired(cfg, added, h, o)
    ensures FiringsOf(cfg.format, cfg.encode, OfKey(added, k), FIRINGS_PER_BUCKET, Project(h, k))
    ensures |Taken(cfg.format, cfg.encode, OfKey(added, k), FIRINGS_PER_BUCKET)| == |OfKey(added, k)| - |Get(o, k)|
  {
    assert KeyFired(cfg, added, h, o, k);
  }

  /** For any metadata, over the events of a key that carry it: one response for an event
      that the fire takes, and one more for every failed firing that left it over. */
  lemma KeyResponsesPerEvent(cfg: Config, added: seq<Event>, h: seq<Firing>, o: Buckets, k: string, m: int)
    requires Fired(cfg, added, h, o) && Genuine(cfg, h) && AnswersInFull(cfg, h)
    ensures var es := OfKey(added, k);
            |Get(o, k)| <= |es| &&
            multiset(Handed(AllOffers(cfg.format, cfg.encode, Project(h, k))))[m] ==
            ResponsesDue(cfg.format, cfg.encode, es, |es| - |Get(o, k)|, Project(h, k), m, |es|)
  {
    TakenSize(cfg, added, h, o, k);
    FullAnswersSuffice(cfg, h, k);
    ResponsesPerEvent(cfg.format, cfg.encode, OfKey(added, k), FIRINGS_PER_BUCKET, Project(h, k), m);
  }

  // ---- targets ----

  lemma DropDrop(es: seq<Event>, i: nat, c: nat)
    requires i <= |es| && c <= |es| - i
    ensures es[i..][c..] == es[i + c..]
  {
  }

  lemma {:induction false} RoundIsSuffix(fmt: Format, enc: Encoder, es: seq<Event>, n: nat, r: nat) returns (c: nat)
    requires r < |Rounds(fmt, enc, es, n)|
    ensures c <= |es| && Rounds(fmt, enc, es, n)[r] == es[c..]
  {
    if r == 0 {
      c := 0;
    } else {
      var i := Cut(fmt, enc, es);
      assert Rounds(fmt, enc, es, n)[r] == Rounds(fmt, enc, Tail(fmt, enc, es), n - 1)[r - 1];
      c := RoundIsSuffix(fmt, enc, Tail(fmt, enc, es), n - 1, r - 1);
      DropDrop(es, i, c);
      c := i + c;
    }
  }

  lemma {:induction false} InProject(h: seq<Firing>, i: nat) returns (r: nat)
    requires i < |h|
    ensures r < |Project(h, h[i].key)| && Project(h, h[i].key)[r] == h[i]
  {
    var n := |h| - 1;
    if i == n {
      r := |Project(h[..n], h[i].key)|;
    } else {
      r := InProject(h[..n], i);
    }
  }

  lemma {:induction false} OfKeyComeFrom(es: seq<Event>, k: string, i: nat)
    requires i < |OfKey(es, k)|
    ensures OfKey(es, k)[i] in es
  {
    var n := |es| - 1;
    if i < |OfKey(es[..n], k)| {
      OfKeyComeFrom(es[..n], k, i);
    }
  }

  lemma SuffixOfKey(added: seq<Event>, k: string, c: nat)
    requires c <= |OfKey(added, k)|
    ensures AllOfKey(OfKey(added, k)[c..], k)
    ensures forall j :: 0 <= j < |OfKey(added, k)[c..]| ==> OfKey(added, k)[c..][j] in added
  {
    OfKeyKeeps(added, k);
    forall j | 0 <= j < |OfKey(added, k)[c..]| ensures OfKey(added, k)[c..][j] in added {
      OfKeyComeFrom(added, k, c + j);
    }
  }

  /** Every firing of a fire is of events of one key, all of them added ones. */
  lemma FiringsOfOneKey(cfg: Config, added: seq<Event>, h: seq<Firing>, o: Buckets, i: nat)
    requires Fired(cfg, added, h, o) && i < |h|
    ensures AllOfKey(h[i].events, h[i].key)
    ensures forall j :: 0 <= j < |h[i].events| ==> h[i].events[j] in added
  {
    var k := h[i].key;
    assert KeyFired(cfg, added, h, o, k);
    var r := InProject(h, i);
    assert EventsOf(Project(h, k))[r] == h[i].events;
    var c := RoundIsSuffix(cfg.format, cfg.encode, OfKey(added, k), FIRINGS_PER_BUCKET, r);
    SuffixOfKey(added, k, c);
  }

  /** When the same two of host, key and dataset are free of underscores in all events,
      then in a whole fire every event travels in a request with its own three. */
  lemma FireKeepsTargets(cfg: Config, added: seq<Event>, h: seq<Firing>, o: Buckets, p: PlainPair, i: nat, j: nat)
    requires Fired(cfg, added, h, o) && i < |h|
    requires forall e :: e in added ==> PlainIn(p, e)
    requires j < |Accepted(cfg.encode, Head(cfg.format, cfg.encode, h[i].events))|
    ensures var e := Accepted(cfg.encode, Head(cfg.format, cfg.encode, h[i].events))[j];
            var req := RequestFor(cfg, h[i].events);
            req.apiHost == e.apiHost && req.apiKey == e.apiKey && req.dataset == e.dataset
  {
    FiringsOfOneKey(cfg, added, h, o, i);
    OwnTarget(cfg, h[i], p, j);
  }

  // ---- what was requested ----

  lemma RequestsOfOne(cfg: Config, log: seq<Request>, es: seq<Event>)
    ensures log <= FireOutcome(cfg, log, es).1
    ensures forall i :: |log| <= i < |FireOutcome(cfg, log, es).1| ==>
              Accepted(cfg.encode, Head(cfg.format, cfg.encode, es)) != [] &&
              FireOutcome(cfg, log, es).1[i] == RequestFor(cfg, es)
  {
  }

  lemma {:induction false} RequestOf(cfg: Config, h: seq<Firing>, i: nat) returns (j: nat)
    requires i < |Transcript(cfg, h)|
    ensures j < |h| && Accepted(cfg.encode, Head(cfg.format, cfg.encode, h[j].events)) != []
    ensures Transcript(cfg, h)[i] == RequestFor(cfg, h[j].events)
  {
    var n := |h| - 1;
    var before := Transcript(cfg, h[..n]);
    RequestsOfOne(cfg, before, h[n].events);
    if i < |before| {
      j := RequestOf(cfg, h[..n], i);
    } else {
      j := n;
    }
  }

  /** In both formats every request of a history reads back as exactly the encodings of
      the events that one of its firings accepted, in order, and is addressed like the
      first of them. */
  lemma RequestsReadBack(cfg: Config, extent: Msgpack.Extent, h: seq<Firing>, i: nat)
    requires EncodesFormat(cfg, extent) && i < |Transcript(cfg, h)|
    ensures exists j :: 0 <= j < |h| &&
              Carries(cfg, extent, Transcript(cfg, h)[i], Accepted(cfg.encode, Head(cfg.format, cfg.encode, h[j].events)))
  {
    var j := RequestOf(cfg, h, i);
    RequestCarries(cfg, extent, h[j].events);
  }

  lemma {:induction false} TranscriptGrows(cfg: Config, h: seq<Firing>, n: nat)
    requires n <= |h|
    ensures Transcript(cfg, h[..n]) <= Transcript(cfg, h)
    decreases |h|
  {
    if n == |h| {
      assert h[..n] == h;
    } else {
      var m := |h| - 1;
      assert h[..m][..n] == h[..n];
      TranscriptGrows(cfg, h[..m], n);
      RequestsOfOne(cfg, Transcript(cfg, h[..m]), h[m].events);
    }
  }

  /** And every firing with something to send and a good URL was requested. */
  lemma FiringWasRequested(cfg: Config, extent: Msgpack.Extent, h: seq<Firing>, j: nat)
    requires EncodesFormat(cfg, extent) && j < |h|
    requires var accepted := Accepted(cfg.encode, Head(cfg.format, cfg.encode, h[j].events));
             accepted != [] && cfg.urlOk(accepted[0].apiHost, accepted[0].dataset)
    ensures exists i :: 0 <= i < |Transcript(cfg, h)| &&
              Carries(cfg, extent, Transcript(cfg, h)[i], Accepted(cfg.encode, Head(cfg.format, cfg.encode, h[j].events)))
  {
    var i := |Transcript(cfg, h[..j])|;
    assert h[..j + 1][..j] == h[..j];
    RequestsOfOne(cfg, Transcript(cfg, h[..j]), h[j].events);
    TranscriptGrows(cfg, h, j + 1);
    RequestCarries(cfg, extent, h[j].events);
    assert Transcript(cfg, h[..j + 1])[i] == RequestFor(cfg, h[j].events);
  }

  // ---- over all keys ----

  function FiringsIn(h: seq<Firing>, ks: set<string>): seq<Firing>
  {
    if h == [] then []
    else
      var n := |h| - 1;
      FiringsIn(h[..n], ks) + (if h[n].key in ks then [h[n]] else [])
  }

  function EventsIn(es: seq<Event>, ks: set<string>): seq<Event>
  {
    if es == [] then []
    else
      var n := |es| - 1;
      EventsIn(es[..n], ks) + (if KeyOf(es[n]) in ks then [es[n]] else [])
  }

  function Offered(cfg: Config, h: seq<Firing>): multiset<int>
  {
    multiset(Handed(AllOffers(cfg.format, cfg.encode, h)))
  }

  lemma OfferedMore(cfg: Config, h: seq<Firing>, f: Firing)
    ensures Offered(cfg, h + [f]) == Offered(cfg, h) + multiset(Handed(Offers(cfg.format, cfg.encode, f)))
  {
    assert (h + [f])[..|h|] == h;
    HandedConcat(AllOffers(cfg.format, cfg.encode, h), Offers(cfg.format, cfg.encode, f));
  }

  lemma {:induction false} SplitFirings(cfg: Config, h: seq<Firing>, ks: set<string>, k: string)
    requires k !in ks
    ensures Offered(cfg, FiringsIn(h, ks + {k})) == Offered(cfg, FiringsIn(h, ks)) + Offered(cfg, Project(h, k))
  {
    if h != [] {
      var n := |h| - 1;
      var both, one, other := FiringsIn(h[..n], ks + {k}), FiringsIn(h[..n], ks), Project(h[..n], k);
      SplitFirings(cfg, h[..n], ks, k);
      if h[n].key == k {
        OfferedMore(cfg, both, h[n]);
        OfferedMore(cfg, other, h[n]);
        assert one + [] == one;
      } else if h[n].key in ks {
        OfferedMore(cfg, both, h[n]);
        OfferedMore(cfg, one, h[n]);
        assert other + [] == other;
      } else {
        assert both + [] == both && one + [] == one && other + [] == other;
      }
    }
  }

  lemma {:induction false} SplitEvents(es: seq<Event>, ks: set<string>, k: string)
    requires k !in ks
    ensures multiset(Owed(EventsIn(es, ks + {k}))) == multiset(Owed(EventsIn(es, ks))) + multiset(Owed(OfKey(es, k)))
  {
    if es != [] {
      var n := |es| - 1;
      SplitEvents(es[..n], ks, k);
      OwedConcat(EventsIn(es[..n], ks + {k}), [es[n]]);
      OwedConcat(EventsIn(es[..n], ks), [es[n]]);
      OwedConcat(OfKey(es[..n], k), [es[n]]);
      assert EventsIn(es[..n], ks) + [] == EventsIn(es[..n], ks);
      assert OfKey(es[..n], k) + [] == OfKey(es[..n], k);
      assert EventsIn(es[..n], ks + {k}) + [] == EventsIn(es[..n], ks + {k});
    }
  }

  lemma {:induction false} BalanceOverKeys(cfg: Config, added: seq<Event>, h: seq<Firing>, ks: set<string>)
    requires forall k :: k in ks ==> Offered(cfg, Project(h, k)) == multiset(Owed(OfKey(added, k)))
    ensures Offered(cfg, FiringsIn(h, ks)) == multiset(Owed(EventsIn(added, ks)))
    decreases |ks|
  {
    if ks == {} {
      NoEvents(added);
      NoFirings(h);
    } else {
      var k :| k in ks;
      var rest := ks - {k};
      BalanceOverKeys(cfg, added, h, rest);
      SplitFirings(cfg, h, rest, k);
      SplitEvents(added, rest, k);
      assert rest + {k} == ks;
    }
  }

  lemma {:induction false} NoEvents(es: seq<Event>)
    ensures EventsIn(es, {}) == []
  {
    if es != [] {
      NoEvents(es[..|es| - 1]);
    }
  }

  lemma {:induction false} NoFirings(h: seq<Firing>)
    ensures FiringsIn(h, {}) == []
  {
    if h != [] {
      NoFirings(h[..|h| - 1]);
    }
  }

  lemma {:induction false} AllFirings(h: seq<Firing>, ks: set<string>)
    requires forall i :: 0 <= i < |h| ==> h[i].key in ks
    ensures FiringsIn(h, ks) == h
  {
    if h != [] {
      AllFirings(h[..|h| - 1], ks);
    }
  }

  lemma {:induction false} AllEvents(es: seq<Event>, ks: set<string>)
    requires forall i :: 0 <= i < |es| ==> KeyOf(es[i]) in ks
    ensures EventsIn(es, ks) == es
  {
    if es != [] {
      AllEvents(es[..|es| - 1], ks);
    }
  }

  /** In a fire whose keys all meet the condition, every added event is offered exactly
      one response: the metadata handed back is the metadata that was added. */
  lemma FireAnswersEachOnce(cfg: Config, added: seq<Event>, h: seq<Firing>, o: Buckets)
    requires Fired(cfg, added, h, o) && Genuine(cfg, h) && AnswersInFull(cfg, h)
    requires forall k :: KeyOneEach(cfg, added, h, k)
    ensures multiset(Handed(AllOffers(cfg.format, cfg.encode, h))) == multiset(Owed(added))
  {
    var ks := (set i | 0 <= i < |h| :: h[i].key) + (set i | 0 <= i < |added| :: KeyOf(added[i]));
    forall k | k in ks ensures Offered(cfg, Project(h, k)) == multiset(Owed(OfKey(added, k))) {
      KeyExactlyOnceIff(cfg, added, h, o, k);
    }
    BalanceOverKeys(cfg, added, h, ks);
    AllFirings(h, ks);
    AllEvents(added, ks);
  }

  /** The usual run: at most 48 events of each key, and no failed firing that overflowed. */
  lemma SmallFireAnswersEachOnce(cfg: Config, added: seq<Event>, h: seq<Firing>, o: Buckets)
    requires Fired(cfg, added, h, o) && Genuine(cfg, h) && AnswersInFull(cfg, h)
    requires forall k :: |OfKey(added, k)| <= 48
    requires forall i :: 0 <= i < |h| && h[i].outcome.Failed? ==> Tail(cfg.format, cfg.encode, h[i].events) == []
    ensures forall k :: Get(o, k) == []
    ensures multiset(Handed(AllOffers(cfg.format, cfg.encode, h))) == multiset(Owed(added))
  {
    forall k ensures Get(o, k) == [] && KeyOneEach(cfg, added, h, k) {
      assert KeyFired(cfg, added, h, o, k);
      FortyEightDrain(cfg.format, cfg.encode, OfKey(added, k));
      DrainedIff(cfg.format, cfg.encode, OfKey(added, k), FIRINGS_PER_BUCKET);
      OnlyLastOverflowFails(cfg, added, h, o, k);
    }
    FireAnswersEachOnce(cfg, added, h, o);
  }

  lemma OnlyLastOverflowFails(cfg: Config, added: seq<Event>, h: seq<Firing>, o: Buckets, k: string)
    requires Fired(cfg, added, h, o)
    requires forall i :: 0 <= i < |h| && h[i].outcome.Failed? ==> Tail(cfg.format, cfg.encode, h[i].events) == []
    ensures OneEach(Project(h, k), true)
  {
    assert KeyFired(cfg, added, h, o, k);
    var fs := Project(h, k);
    forall r | 0 <= r < |fs| - 1 ensures !fs[r].outcome.Failed? {
      LeftOverFalls(cfg.format, cfg.encode, OfKey(added, k), FIRINGS_PER_BUCKET, fs);
      var sizes := LeftOver(cfg.format, cfg.encode, fs);
      assert sizes[r + 1] < sizes[r];
      ProjectedKeys(h, k, r);
    }
  }

  // ---- how many responses a fire can offer ----

  lemma OffersAtMostEvents(fmt: Format, enc: Encoder, f: Firing)
    ensures |Offers(fmt, enc, f)| <= |f.events|
  {
    FiltersCount(enc, Head(fmt, enc, f.events));
  }

  lemma {:induction false} OffersAtMost(fmt: Format, enc: Encoder, fs: seq<Firing>, m: nat)
    requires forall i :: 0 <= i < |fs| ==> |fs[i].events| <= m
    ensures |AllOffers(fmt, enc, fs)| <= |fs| * m
  {
    if fs != [] {
      var n := |fs| - 1;
      OffersAtMost(fmt, enc, fs[..n], m);
      OffersAtMostEvents(fmt, enc, fs[n]);
      TimesOneMore(n, m);
    }
  }

  lemma {:induction false} RoundsNotLonger(fmt: Format, enc: Encoder, es: seq<Event>, n: nat, r: nat)
    requires r < |Rounds(fmt, enc, es, n)|
    ensures |Rounds(fmt, enc, es, n)[r]| <= |es|
  {
    if r > 0 {
      RoundsNotLonger(fmt, enc, Tail(fmt, enc, es), n - 1, r - 1);
    }
  }

  /** A key's firings offer at most twelve responses for each of its events. */
  lemma KeyOffersAtMost(cfg: Config, added: seq<Event>, h: seq<Firing>, o: Buckets, k: string)
    requires Fired(cfg, added, h, o)
    ensures |AllOffers(cfg.format, cfg.encode, Project(h, k))| <= FIRINGS_PER_BUCKET * |OfKey(added, k)|
  {
    var fs, es := Project(h, k), OfKey(added, k);
    assert KeyFired(cfg, added, h, o, k);
    assert |EventsOf(fs)| == |fs| <= FIRINGS_PER_BUCKET;
    forall i | 0 <= i < |fs| ensures |fs[i].events| <= |es| {
      assert EventsOf(fs)[i] == fs[i].events;
      RoundsNotLonger(cfg.format, cfg.encode, es, FIRINGS_PER_BUCKET, i);
    }
    OffersAtMost(cfg.format, cfg.encode, fs, |es|);
    AtMostTimes(|fs|, FIRINGS_PER_BUCKET, |es|);
  }

  lemma AtMostTimes(a: nat, b: nat, n: nat)
    requires a <= b
    ensures a * n <= b * n
  {
  }

  lemma {:induction false} OfferedOverKeys(cfg: Config, added: seq<Event>, h: seq<Firing>, o: Buckets, ks: set<string>)
    requires Fired(cfg, added, h, o)
    ensures |Offered(cfg, FiringsIn(h, ks))| <= FIRINGS_PER_BUCKET * |EventsIn(added, ks)|
    decreases |ks|
  {
    if ks == {} {
      NoFirings(h);
    } else {
      var k :| k in ks;
      var rest := ks - {k};
      OfferedOverKeys(cfg, added, h, o, rest);
      KeyOffersAtMost(cfg, added, h, o, k);
      assert rest + {k} == ks;
      SplitFirings(cfg, h, rest, k);
      SplitCounts(added, rest, k);
    }
  }

  lemma SplitCounts(es: seq<Event>, ks: set<string>, k: string)
    requires k !in ks
    ensures |EventsIn(es, ks + {k})| == |EventsIn(es, ks)| + |OfKey(es, k)|
  {
    SplitEvents(es, ks, k);
    assert |multiset(Owed(EventsIn(es, ks + {k})))| == |Owed(EventsIn(es, ks + {k}))|;
    assert |multiset(Owed(EventsIn(es, ks)))| == |Owed(EventsIn(es, ks))|;
    assert |multiset(Owed(OfKey(es, k)))| == |Owed(OfKey(es, k))|;
  }

  /** And so does a whole fire, whatever the server does. */
  lemma FireOffersAtMost(cfg: Config, added: seq<Event>, h: seq<Firing>, o: Buckets)
    requires Fired(cfg, added, h, o)
    ensures |AllOffers(cfg.format, cfg.encode, h)| <= FIRINGS_PER_BUCKET * |added|
  {
    var ks := (set i | 0 <= i < |h| :: h[i].key) + (set i | 0 <= i < |added| :: KeyOf(added[i]));
    OfferedOverKeys(cfg, added, h, o, ks);
    AllFirings(h, ks);
    AllEvents(added, ks);
    assert |Offered(cfg, h)| == |Handed(AllOffers(cfg.format, cfg.encode, h))|;
  }
}
