/** From accepted sends to offered responses: the sampling, the queue, the generations
    and the batch fires put together. */
module Pipeline {
  import opened Bytes
  import opened Types
  import opened Sequences
  import opened FlushProtocol
  import opened BatchAggregator
  import FieldModel
  import Firing
  import History
  import Packing
  import Accounting
  import Buckets

  /** The events of some Add calls. */
  function AddedEvents(adders: seq<Adder>, ids: seq<nat>): seq<Event>
    requires forall i :: 0 <= i < |ids| ==> ids[i] < |adders|
  {
    seq(|ids|, i requires 0 <= i < |ids| => adders[ids[i]].event)
  }

  predicate InRange(adders: seq<Adder>, ids: seq<nat>)
  {
    forall i :: 0 <= i < |ids| ==> ids[i] < |adders|
  }

  /** The metadata of some Add calls' events; 0 for a number that is no call. */
  function MetaOf(adders: seq<Adder>, ids: seq<nat>): seq<int>
  {
    seq(|ids|, i requires 0 <= i < |ids| =>
      if ids[i] < |adders| then adders[ids[i]].event.metadata else 0)
  }

  lemma MetaConcat(adders: seq<Adder>, a: seq<nat>, b: seq<nat>)
    ensures MetaOf(adders, a + b) == MetaOf(adders, a) + MetaOf(adders, b)
    ensures multiset(MetaOf(adders, a + b)) == multiset(MetaOf(adders, a)) + multiset(MetaOf(adders, b))
  {
    assert MetaOf(adders, a + b) == MetaOf(adders, a) + MetaOf(adders, b);
  }

  /** The metadata depends only on which calls there are, and how often. */
  lemma MetaOfMultiset(adders: seq<Adder>, a: seq<nat>, b: seq<nat>)
    requires multiset(a) == multiset(b)
    ensures multiset(MetaOf(adders, a)) == multiset(MetaOf(adders, b))
  {
    var f := (t: nat) => if t < |adders| then adders[t].event.metadata else 0;
    assert MetaOf(adders, a) == Map(f, a) && MetaOf(adders, b) == Map(f, b);
    MapOfMultiset(f, a, b);
  }

  lemma OwedOfMultiset(a: seq<Event>, b: seq<Event>)
    requires multiset(a) == multiset(b)
    ensures multiset(Owed(a)) == multiset(Owed(b))
  {
    var f := (e: Event) => e.metadata;
    assert Owed(a) == Map(f, a) && Owed(b) == Map(f, b);
    MapOfMultiset(f, a, b);
  }

  // ---- all calls, accepted and overflowed ----

  /** All calls whose events the generations fired. */
  function FiredIds(gens: seq<Generation>): seq<nat>
  {
    if gens == [] then [] else FiredIds(gens[..|gens| - 1]) + Flat(gens[|gens| - 1].fired)
  }

  function AcceptedBelow(entries: seq<Entry>, n: nat): seq<nat>
  {
    if n == 0 then [] else AcceptedBelow(entries, n - 1) + AcceptedBy(entries, n - 1)
  }

  lemma {:induction false} FiredAreAccepted(gens: seq<Generation>, entries: seq<Entry>)
    requires Conserved(gens, entries) && AllDrained(gens)
    ensures multiset(FiredIds(gens)) == multiset(AcceptedBelow(entries, |gens|))
  {
    if gens != [] {
      var n := |gens| - 1;
      assert Conserved(gens[..n], entries) by {
        forall g | 0 <= g < n ensures KeepsAll(gens[..n][g], entries, g) {
          assert KeepsAll(gens[g], entries, g);
        }
      }
      FiredAreAccepted(gens[..n], entries);
      assert KeepsAll(gens[n], entries, n);
    }
  }

  function AdderIds(entries: seq<Entry>): seq<nat>
  {
    seq(|entries|, i requires 0 <= i < |entries| => entries[i].adder)
  }

  lemma MoreOfBoth(grown: seq<nat>, a: seq<nat>, b: seq<nat>, d: multiset<nat>, more: seq<nat>)
    requires multiset(grown) == multiset(a) + d
    ensures multiset(grown + (b + more)) == multiset(a + b) + (d + multiset(more))
  {
  }

  function Below(e: Entry, n: nat): multiset<nat> { if e.gen < n then multiset{e.adder} else multiset{} }

  lemma {:induction false} OneMoreEntry(entries: seq<Entry>, e: Entry, n: nat)
    ensures multiset(AcceptedBelow(entries + [e], n)) == multiset(AcceptedBelow(entries, n)) + Below(e, n)
  {
    if n > 0 {
      var more := if e.gen == n - 1 then [e.adder] else [];
      OneMoreEntry(entries, e, n - 1);
      AcceptedByMore(entries, e, n - 1);
      assert Below(e, n - 1) + multiset(more) == Below(e, n);
      MoreOfBoth(AcceptedBelow(entries + [e], n - 1), AcceptedBelow(entries, n - 1), AcceptedBy(entries, n - 1),
                 Below(e, n - 1), more);
    }
  }

  lemma {:induction false} NothingBelow(n: nat)
    ensures AcceptedBelow([], n) == []
  {
    if n > 0 {
      NothingBelow(n - 1);
    }
  }

  predicate AllBelow(entries: seq<Entry>, n: nat)
  {
    forall i :: 0 <= i < |entries| ==> entries[i].gen < n
  }

  lemma AdderIdsLast(entries: seq<Entry>, e: Entry)
    ensures multiset(AdderIds(entries + [e])) == multiset(AdderIds(entries)) + multiset{e.adder}
  {
    assert AdderIds(entries + [e]) == AdderIds(entries) + [e.adder];
  }

  lemma OneMoreBelow(entries: seq<Entry>, e: Entry, n: nat)
    requires e.gen < n && multiset(AcceptedBelow(entries, n)) == multiset(AdderIds(entries))
    ensures multiset(AcceptedBelow(entries + [e], n)) == multiset(AdderIds(entries + [e]))
  {
    OneMoreEntry(entries, e, n);
    AdderIdsLast(entries, e);
  }

  lemma {:induction false} AcceptedBelowIsAll(entries: seq<Entry>, n: nat)
    requires AllBelow(entries, n)
    ensures multiset(AcceptedBelow(entries, n)) == multiset(AdderIds(entries))
  {
    if entries == [] {
      NothingBelow(n);
    } else {
      var k := |entries| - 1;
      AcceptedBelowIsAll(entries[..k], n);
      OneMoreBelow(entries[..k], entries[k], n);
      assert entries == entries[..k] + [entries[k]];
    }
  }

  function UpTo(n: nat): seq<nat> { seq(n, i => i) }

  lemma {:induction false} OncePerId(n: nat, t: nat)
    ensures multiset(UpTo(n))[t] == if t < n then 1 else 0
  {
    if n > 0 {
      OncePerId(n - 1, t);
      assert UpTo(n) == UpTo(n - 1) + [n - 1];
    }
  }

  lemma {:induction false} CountNoRepeats(xs: seq<nat>, t: nat)
    requires NoRepeats(xs)
    ensures multiset(xs)[t] == if t in xs then 1 else 0
  {
    if xs != [] {
      var n := |xs| - 1;
      CountNoRepeats(xs[..n], t);
      assert xs == xs[..n] + [xs[n]];
      assert forall i :: 0 <= i < n ==> xs[..n][i] != xs[n];
    }
  }

  /** When all calls have returned, each was accepted or overflowed, and only one of both. */
  lemma CallsDivide(s: State)
    requires Inv(s) && Quiet(s)
    ensures multiset(AdderIds(s.accepted)) + multiset(s.overflowed) == multiset(UpTo(|s.adders|))
  {
    var ids := AdderIds(s.accepted);
    var all: multiset<nat>, both: multiset<nat> := multiset(UpTo(|s.adders|)), multiset(ids) + multiset(s.overflowed);
    forall t: nat ensures both[t] == all[t] {
      OncePerId(|s.adders|, t);
      CountNoRepeats(ids, t);
      CountNoRepeats(s.overflowed, t);
      CallIsOne(s, t);
    }
    assert both == all;
  }

  lemma CallIsOne(s: State, t: nat)
    requires Inv(s) && Quiet(s)
    ensures t < |s.adders| ==> (t in AdderIds(s.accepted) <==> t !in s.overflowed)
    ensures t >= |s.adders| ==> t !in AdderIds(s.accepted) && t !in s.overflowed
  {
    var ids := AdderIds(s.accepted);
    assert forall i :: 0 <= i < |ids| ==> EntryOk(|s.gens|, s.adders, s.accepted[i]) && ids[i] == s.accepted[i].adder;
    assert forall i :: 0 <= i < |s.overflowed| ==> OverflowAt(s.adders, s.overflowed[i]);
    if t < |s.adders| {
      assert s.adders[t] in s.adders;
      if WasAccepted(s.adders[t]) {
        assert HasEntry(s.accepted, t);
        var i: nat :| EntryFor(s.accepted, t, i);
        assert ids[i] == t;
      } else {
        assert OverflowAt(s.adders, t);
      }
    }
  }

  // ---- responses ----

  function OverflowResponses(adders: seq<Adder>, ids: seq<nat>): seq<Response>
  {
    seq(|ids|, i requires 0 <= i < |ids| => ErrorResponse(QueueOverflow, MetaOf(adders, ids)[i]))
  }

  /** The responses that each fired batch offered, by generation and position. */
  type BatchResponses = (nat, nat) -> seq<Response>

  function GenResponses(r: BatchResponses, g: nat, n: nat): seq<Response>
  {
    if n == 0 then [] else GenResponses(r, g, n - 1) + r(g, n - 1)
  }

  function AllBatchResponses(r: BatchResponses, gens: seq<Generation>): seq<Response>
  {
    if gens == [] then []
    else
      var n := |gens| - 1;
      AllBatchResponses(r, gens[..n]) + GenResponses(r, n, |gens[n].fired|)
  }

  /** These are the responses of a fire that added these events, the server answers in
      full, and every key meets the condition of one response each. */
  ghost predicate FiredAs(cfg: Firing.Config, es: seq<Event>, h: seq<Firing.Firing>, o: Buckets.Buckets,
                          responses: seq<Response>)
  {
    FireOf(cfg, es, h, o, responses) && Accounting.AnswersInFull(cfg, h) &&
    forall k :: Accounting.KeyOneEach(cfg, es, h, k)
  }

  ghost predicate FireOf(cfg: Firing.Config, es: seq<Event>, h: seq<Firing.Firing>, o: Buckets.Buckets,
                         responses: seq<Response>)
  {
    History.Fired(cfg, es, h, o) && History.Genuine(cfg, h) &&
    responses == Firing.AllOffers(cfg.format, cfg.encode, h)
  }

  ghost predicate FiredWell(es: seq<Event>, responses: seq<Response>)
  {
    exists cfg, h, o :: FiredAs(cfg, es, h, o, responses)
  }

  method Aggregate(cfg: Firing.Config, es: seq<Event>) returns (agg: BatchAgg)
    ensures fresh(agg) && agg.cfg == cfg && agg.Valid() && agg.added == es
    ensures agg.history == [] && agg.overflowBatches == map[]
  {
    agg := new BatchAgg(cfg);
    for i := 0 to |es|
      invariant fresh(agg) && agg.cfg == cfg && agg.Valid() && agg.added == es[..i]
      invariant agg.history == [] && agg.overflowBatches == map[]
    {
      agg.Add(es[i]);
      assert es[..i + 1] == es[..i] + [es[i]];
    }
    assert es[..|es|] == es;
  }

  /** What becomes of a batch: its events are added to a new aggregator, which is fired.
      It offers at most so many responses as the protocol allows a fire, and the batch
      has been fired well when the server and the keys do their part. */
  method FireOnce(cfg: Firing.Config, es: seq<Event>)
    returns (responses: seq<Response>, ghost h: seq<Firing.Firing>, ghost o: Buckets.Buckets)
    ensures FireOf(cfg, es, h, o, responses)
    ensures |responses| <= Packing.FIRINGS_PER_BUCKET * |es|
    ensures Accounting.AnswersInFull(cfg, h) && (forall k :: Accounting.KeyOneEach(cfg, es, h, k)) ==>
              FiredWell(es, responses)
  {
    var agg := Aggregate(cfg, es);
    agg.Fire();
    responses, h, o := agg.responses, agg.history, agg.overflowBatches;
    Accounting.FireOffersAtMost(cfg, es, h, o);
    WellWhen(cfg, es, h, o, responses);
  }

  lemma WellWhen(cfg: Firing.Config, es: seq<Event>, h: seq<Firing.Firing>, o: Buckets.Buckets,
                 responses: seq<Response>)
    requires FireOf(cfg, es, h, o, responses)
    ensures Accounting.AnswersInFull(cfg, h) && (forall k :: Accounting.KeyOneEach(cfg, es, h, k)) ==>
              FiredWell(es, responses)
  {
    if Accounting.AnswersInFull(cfg, h) && (forall k :: Accounting.KeyOneEach(cfg, es, h, k)) {
      assert FiredAs(cfg, es, h, o, responses);
    }
  }

  ghost predicate BatchWell(s: State, r: BatchResponses, g: nat, i: nat)
    requires g < |s.gens| && i < |s.gens[g].fired|
  {
    InRange(s.adders, s.gens[g].fired[i]) && FiredWell(AddedEvents(s.adders, s.gens[g].fired[i]), r(g, i))
  }

  lemma FiredWellAnswers(es: seq<Event>, responses: seq<Response>)
    requires FiredWell(es, responses)
    ensures multiset(Handed(responses)) == multiset(Owed(es))
  {
    var cfg, h, o :| FiredAs(cfg, es, h, o, responses);
    Accounting.FireAnswersEachOnce(cfg, es, h, o);
  }

  lemma BatchAnswers(s: State, r: BatchResponses, g: nat, i: nat)
    requires g < |s.gens| && i < |s.gens[g].fired| && GenWell(s, r, g)
    ensures multiset(Handed(r(g, i))) == multiset(MetaOf(s.adders, s.gens[g].fired[i]))
  {
    var ids := s.gens[g].fired[i];
    assert BatchWell(s, r, g, i);
    FiredWellAnswers(AddedEvents(s.adders, ids), r(g, i));
    assert Owed(AddedEvents(s.adders, ids)) == MetaOf(s.adders, ids);
  }

  /** The batches of the first n generations were all fired well. */
  ghost predicate FiredWellBelow(s: State, r: BatchResponses, n: nat)
    requires n <= |s.gens|
  {
    forall g :: 0 <= g < n ==> GenWell(s, r, g)
  }

  ghost predicate GenWell(s: State, r: BatchResponses, g: nat)
    requires g < |s.gens|
  {
    forall i :: 0 <= i < |s.gens[g].fired| ==> BatchWell(s, r, g, i)
  }

  lemma AnswersConcat(adders: seq<Adder>, rs: seq<Response>, ids: seq<nat>, rs': seq<Response>, ids': seq<nat>)
    requires multiset(Handed(rs)) == multiset(MetaOf(adders, ids))
    requires multiset(Handed(rs')) == multiset(MetaOf(adders, ids'))
    ensures multiset(Handed(rs + rs')) == multiset(MetaOf(adders, ids + ids'))
  {
    HandedConcat(rs, rs');
    MetaConcat(adders, ids, ids');
  }

  lemma FlatTake(batches: seq<seq<nat>>, n: nat)
    requires 0 < n <= |batches|
    ensures Flat(batches[..n]) == Flat(batches[..n - 1]) + batches[n - 1]
  {
    assert batches[..n] == batches[..n - 1] + [batches[n - 1]];
    FlatMore(batches[..n - 1], batches[n - 1]);
  }

  lemma {:induction false} GenAnswers(s: State, r: BatchResponses, g: nat, n: nat)
    requires g < |s.gens| && n <= |s.gens[g].fired| && GenWell(s, r, g)
    ensures multiset(Handed(GenResponses(r, g, n))) == multiset(MetaOf(s.adders, Flat(s.gens[g].fired[..n])))
  {
    if n > 0 {
      var fired := s.gens[g].fired;
      GenAnswers(s, r, g, n - 1);
      BatchAnswers(s, r, g, n - 1);
      AnswersConcat(s.adders, GenResponses(r, g, n - 1), Flat(fired[..n - 1]), r(g, n - 1), fired[n - 1]);
      FlatTake(fired, n);
    }
  }

  lemma {:induction false} AllAnswers(s: State, r: BatchResponses, n: nat)
    requires n <= |s.gens| && FiredWellBelow(s, r, n)
    ensures multiset(Handed(AllBatchResponses(r, s.gens[..n]))) == multiset(MetaOf(s.adders, FiredIds(s.gens[..n])))
  {
    if n > 0 {
      var m := n - 1;
      var fired := s.gens[m].fired;
      AllAnswers(s, r, m);
      GenAnswers(s, r, m, |fired|);
      assert fired[..|fired|] == fired;
      assert s.gens[..n][..m] == s.gens[..m] && s.gens[..n][m] == s.gens[m];
      AnswersConcat(s.adders, AllBatchResponses(r, s.gens[..m]), FiredIds(s.gens[..m]),
                    GenResponses(r, m, |fired|), Flat(fired));
    }
  }

  /** Everything offered on the response queue: for the events that sampling dropped,
      for the calls that overflowed, and by the batches. */
  function Offered(s: State, dropped: seq<Response>, r: BatchResponses): seq<Response>
  {
    dropped + (OverflowResponses(s.adders, s.overflowed) + AllBatchResponses(r, s.gens))
  }

  function Called(adders: seq<Adder>): seq<Event>
  {
    seq(|adders|, t requires 0 <= t < |adders| => adders[t].event)
  }

  /** The event that the transmission makes of a handover; `content` stands for what the
      encoder will find in it. */
  function EventOf(h: FieldModel.Handover, content: FieldModel.Handover -> int): Event
  {
    Event(h.to.apiHost, h.to.writeKey, h.to.dataset, h.to.metadata, content(h))
  }

  function HandedEvents(hs: seq<FieldModel.Handover>, content: FieldModel.Handover -> int): seq<Event>
  {
    seq(|hs|, i requires 0 <= i < |hs| => EventOf(hs[i], content))
  }

  /** Every handover became the argument of one Add call, whole. */
  ghost predicate AddsTheHandovers(s: State, w: FieldModel.World, content: FieldModel.Handover -> int)
  {
    multiset(Called(s.adders)) == multiset(HandedEvents(w.handed, content))
  }

  /** Each Add that overflowed is answered with that error, and its own event's metadata. */
  lemma OverflowSaysSo(adders: seq<Adder>, ids: seq<nat>, i: nat)
    requires i < |ids| && ids[i] < |adders|
    ensures |OverflowResponses(adders, ids)| == |ids|
    ensures OverflowResponses(adders, ids)[i] ==
            Response(Some(QueueOverflow), 0, [], adders[ids[i]].event.metadata)
  {
  }

  lemma OverflowHands(adders: seq<Adder>, ids: seq<nat>)
    ensures Handed(OverflowResponses(adders, ids)) == MetaOf(adders, ids)
  {
  }

  lemma EntriesBelow(s: State)
    requires Inv(s)
    ensures AllBelow(s.accepted, |s.gens|)
  {
    assert forall i :: 0 <= i < |s.accepted| ==> EntryOk(|s.gens|, s.adders, s.accepted[i]);
  }

  /** The calls that were accepted are those that the generations fired. */
  lemma FiredOrOverflowed(s: State)
    requires Inv(s) && Quiet(s) && AllDrained(s.gens)
    ensures multiset(s.overflowed + FiredIds(s.gens)) == multiset(UpTo(|s.adders|))
  {
    FiredAreAccepted(s.gens, s.accepted);
    EntriesBelow(s);
    AcceptedBelowIsAll(s.accepted, |s.gens|);
    CallsDivide(s);
  }

  lemma QueueAnswers(s: State, r: BatchResponses)
    requires Inv(s) && Quiet(s) && AllDrained(s.gens) && FiredWellBelow(s, r, |s.gens|)
    ensures multiset(Handed(OverflowResponses(s.adders, s.overflowed) + AllBatchResponses(r, s.gens))) ==
            multiset(MetaOf(s.adders, UpTo(|s.adders|)))
  {
    assert s.gens[..|s.gens|] == s.gens;
    AllAnswers(s, r, |s.gens|);
    OverflowHands(s.adders, s.overflowed);
    AnswersConcat(s.adders, OverflowResponses(s.adders, s.overflowed), s.overflowed,
                  AllBatchResponses(r, s.gens), FiredIds(s.gens));
    FiredOrOverflowed(s);
    MetaOfMultiset(s.adders, s.overflowed + FiredIds(s.gens), UpTo(|s.adders|));
  }

  lemma HandedAsOwed(hs: seq<FieldModel.Handover>, content: FieldModel.Handover -> int)
    ensures Owed(HandedEvents(hs, content)) == FieldModel.HandedMetadata(hs)
  {
  }

  lemma CalledAsOwed(adders: seq<Adder>)
    ensures Owed(Called(adders)) == MetaOf(adders, UpTo(|adders|))
  {
  }

  /** What the calls owe and what sampling dropped is what is offered. */
  lemma Compose(s: State, w: FieldModel.World, r: BatchResponses, content: FieldModel.Handover -> int)
    requires AddsTheHandovers(s, w, content)
    requires multiset(Handed(OverflowResponses(s.adders, s.overflowed) + AllBatchResponses(r, s.gens))) ==
             multiset(MetaOf(s.adders, UpTo(|s.adders|)))
    ensures multiset(Handed(Offered(s, w.dropped, r))) == FieldModel.AccountedFor(w)
  {
    CalledAsOwed(s.adders);
    HandedAsOwed(w.handed, content);
    OwedOfMultiset(Called(s.adders), HandedEvents(w.handed, content));
    HandedConcat(w.dropped, OverflowResponses(s.adders, s.overflowed) + AllBatchResponses(r, s.gens));
  }

  /** Everything is at rest, and all batches were fired well. */
  ghost predicate AtRest(s: State, r: BatchResponses)
  {
    Quiet(s) && AllDrained(s.gens) && FiredWellBelow(s, r, |s.gens|)
  }

  /** When all calls have returned and all generations are drained, and all batches were
      fired well: every send that returned no error has had exactly one response
      offered, and a send that returned an error none. */
  lemma EachSendAnsweredOnce(to: FieldModel.Destination, ops: seq<FieldModel.Op>, cfg: Config, steps: seq<Step>,
                             r: BatchResponses, content: FieldModel.Handover -> int)
    requires FieldModel.Run(FieldModel.Start(FieldModel.Honeycomb, to), ops).Some? && Run(cfg, steps).Some?
    requires AtRest(Run(cfg, steps).value, r)
    requires AddsTheHandovers(Run(cfg, steps).value,
                              FieldModel.Run(FieldModel.Start(FieldModel.Honeycomb, to), ops).value, content)
    ensures var start := FieldModel.Start(FieldModel.Honeycomb, to);
            multiset(Handed(Offered(Run(cfg, steps).value, FieldModel.Run(start, ops).value.dropped, r))) ==
            multiset(FieldModel.NilSends(start, ops))
  {
    var s := Run(cfg, steps).value;
    RunKeeps(cfg, steps);
    QueueAnswers(s, r);
    FieldModel.SendsAccountedFor(FieldModel.Honeycomb, to, ops);
    Compose(s, FieldModel.Run(FieldModel.Start(FieldModel.Honeycomb, to), ops).value, r, content);
  }

  // ---- from a send to the request that carries it ----

  lemma {:induction false} InFlat(batches: seq<seq<nat>>, i: nat, t: nat)
    requires i < |batches| && t in batches[i]
    ensures t in Flat(batches)
  {
    var n := |batches| - 1;
    if i < n {
      InFlat(batches[..n], i, t);
    }
  }

  lemma {:induction false} AcceptedByFrom(entries: seq<Entry>, g: nat, t: nat) returns (i: nat)
    requires t in AcceptedBy(entries, g)
    ensures i < |entries| && entries[i].adder == t
  {
    var n := |entries| - 1;
    if entries[n].gen == g && entries[n].adder == t {
      i := n;
    } else {
      i := AcceptedByFrom(entries[..n], g, t);
    }
  }

  /** Batches hold only events of calls that there were. */
  lemma FiredInRange(s: State, g: nat, i: nat)
    requires Inv(s) && g < |s.gens| && i < |s.gens[g].fired|
    ensures InRange(s.adders, s.gens[g].fired[i])
  {
    var ids := s.gens[g].fired[i];
    assert KeepsAll(s.gens[g], s.accepted, g);
    forall x | 0 <= x < |ids| ensures ids[x] < |s.adders| {
      InFlat(s.gens[g].fired, i, ids[x]);
      assert ids[x] in Content(s.gens[g]);
      assert ids[x] in multiset(AcceptedBy(s.accepted, g));
      var k := AcceptedByFrom(s.accepted, g, ids[x]);
      assert EntryOk(|s.gens|, s.adders, s.accepted[k]);
    }
  }

  /** What is added is what was handed over. */
  lemma AddedWasHanded(s: State, w: FieldModel.World, content: FieldModel.Handover -> int, ids: seq<nat>, e: Event)
    returns (x: nat)
    requires AddsTheHandovers(s, w, content) && InRange(s.adders, ids) && e in AddedEvents(s.adders, ids)
    ensures x < |w.handed| && e == EventOf(w.handed[x], content)
  {
    var i: nat :| i < |ids| && AddedEvents(s.adders, ids)[i] == e;
    assert Called(s.adders)[ids[i]] == e;
    assert e in multiset(Called(s.adders));
    assert e in multiset(HandedEvents(w.handed, content));
    x :| x < |HandedEvents(w.handed, content)| && HandedEvents(w.handed, content)[x] == e;
  }

  /** This request is for the host, key and dataset that the event of a handover was
      given. */
  predicate GoesTo(req: Firing.Request, to: FieldModel.Destination)
  {
    req.apiHost == to.apiHost && req.apiKey == to.writeKey && req.dataset == to.dataset
  }

  /** In every run: each event that a fired batch puts into a request is one that was
      sent, and when the same two of host, key and dataset are free of underscores in all
      events sent, the request is for the host, key and dataset that it was sent with. */
  lemma SendsReachTheirTargets(to: FieldModel.Destination, ops: seq<FieldModel.Op>, cfg: Config, steps: seq<Step>,
                               content: FieldModel.Handover -> int, g: nat, i: nat, fire: Firing.Config,
                               h: seq<Firing.Firing>, o: Buckets.Buckets, p: Buckets.PlainPair, n: nat, j: nat)
    returns (x: nat)
    requires FieldModel.Run(FieldModel.Start(FieldModel.Honeycomb, to), ops).Some? && Run(cfg, steps).Some?
    requires AddsTheHandovers(Run(cfg, steps).value,
                              FieldModel.Run(FieldModel.Start(FieldModel.Honeycomb, to), ops).value, content)
    requires var s := Run(cfg, steps).value;
             g < |s.gens| && i < |s.gens[g].fired| &&
             (RunKeeps(cfg, steps); FiredInRange(s, g, i);
              History.Fired(fire, AddedEvents(s.adders, s.gens[g].fired[i]), h, o))
    requires n < |h| && j < |Packing.Accepted(fire.encode, Packing.Head(fire.format, fire.encode, h[n].events))|
    requires var handed := FieldModel.Run(FieldModel.Start(FieldModel.Honeycomb, to), ops).value.handed;
             forall y :: 0 <= y < |handed| ==> Buckets.PlainIn(p, EventOf(handed[y], content))
    ensures var w := FieldModel.Run(FieldModel.Start(FieldModel.Honeycomb, to), ops).value;
            var e := Packing.Accepted(fire.encode, Packing.Head(fire.format, fire.encode, h[n].events))[j];
            x < |w.handed| && e == EventOf(w.handed[x], content) && e.metadata == w.handed[x].to.metadata &&
            GoesTo(Firing.RequestFor(fire, h[n].events), w.handed[x].to)
  {
    var s := Run(cfg, steps).value;
    var w := FieldModel.Run(FieldModel.Start(FieldModel.Honeycomb, to), ops).value;
    RunKeeps(cfg, steps);
    FiredInRange(s, g, i);
    x := TargetReached(s, w, content, s.gens[g].fired[i], fire, h, o, p, n, j);
  }

  lemma TargetReached(s: State, w: FieldModel.World, content: FieldModel.Handover -> int, ids: seq<nat>,
                      fire: Firing.Config, h: seq<Firing.Firing>, o: Buckets.Buckets, p: Buckets.PlainPair, n: nat,
                      j: nat)
    returns (x: nat)
    requires AddsTheHandovers(s, w, content) && InRange(s.adders, ids)
    requires History.Fired(fire, AddedEvents(s.adders, ids), h, o)
    requires n < |h| && j < |Packing.Accepted(fire.encode, Packing.Head(fire.format, fire.encode, h[n].events))|
    requires forall y :: 0 <= y < |w.handed| ==> Buckets.PlainIn(p, EventOf(w.handed[y], content))
    ensures var e := Packing.Accepted(fire.encode, Packing.Head(fire.format, fire.encode, h[n].events))[j];
            x < |w.handed| && e == EventOf(w.handed[x], content) && e.metadata == w.handed[x].to.metadata &&
            GoesTo(Firing.RequestFor(fire, h[n].events), w.handed[x].to)
  {
    var added := AddedEvents(s.adders, ids);
    var head := Packing.Head(fire.format, fire.encode, h[n].events);
    var e := Packing.Accepted(fire.encode, head)[j];
    forall a | a in added ensures Buckets.PlainIn(p, a) {
      var y := AddedWasHanded(s, w, content, ids, a);
    }
    Accounting.FireKeepsTargets(fire, added, h, o, p, n, j);
    Accounting.FiringsOfOneKey(fire, added, h, o, n);
    Firing.AcceptedComeFrom(fire.encode, head, j);
    assert e in added by {
      var y: nat :| y < |head| && head[y] == e;
      assert h[n].events[y] == e;
    }
    x := AddedWasHanded(s, w, content, ids, e);
  }
}
