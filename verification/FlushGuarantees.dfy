/** What the generation protocol guarantees in every run: no use of a closed channel,
    every accepted event in one generation and fired once when its Flush returns, calls
    that end, and when they can get stuck on the response channel. */
module FlushGuarantees {
  import opened Bytes
  import opened Types
  import opened FlushProtocol
  import Packing

  // ---- channels ----

  /** In every run: no event is sent on a closed Work channel, no Work channel is closed
      twice, and nothing is offered on the response channel after Stop has closed it. */
  lemma NoClosedChannelUsed(cfg: Config, steps: seq<Step>, step: Step)
    requires Run(cfg, steps).Some? && Enabled(cfg, Run(cfg, steps).value, step)
    ensures var s := Run(cfg, steps).value;
            !s.panicked && !Apply(cfg, s, step).panicked &&
            (step.Send? || step.HandOver? || step.BeginStop? ==> !Now(s).closed) &&
            (step.CloseWork? ==> !s.gens[s.flushers[step.t].gen].closed && s.flushers[step.t].gen != s.current) &&
            (step.OfferResponse? || step.OfferOverflow? || step.OfferSampled? ==> s.phase != Stopped)
  {
    var s := Run(cfg, steps).value;
    RunKeeps(cfg, steps);
    StepKeeps(cfg, s, step);
    ActiveMeansRunning(s);
    if step.OfferResponse? {
      EveryFireOwes(s, step.g);
    }
    if step.CloseWork? {
      assert StageOk(s.flushers[step.t], s.gens[s.flushers[step.t].gen]);
    }
  }

  // ---- one generation per accepted event ----

  function CountOf(entries: seq<Entry>, g: nat, t: nat): nat
  {
    if entries == [] then 0
    else
      var n := |entries| - 1;
      CountOf(entries[..n], g, t) + (if entries[n] == Entry(t, g) then 1 else 0)
  }

  lemma {:induction false} AcceptedCount(entries: seq<Entry>, g: nat, t: nat)
    ensures multiset(AcceptedBy(entries, g))[t] == CountOf(entries, g, t)
  {
    if entries != [] {
      AcceptedCount(entries[..|entries| - 1], g, t);
    }
  }

  lemma {:induction false} CountOfDistinct(entries: seq<Entry>, g: nat, t: nat)
    requires forall i, j :: 0 <= i < j < |entries| ==> entries[i].adder != entries[j].adder
    ensures CountOf(entries, g, t) == if Entry(t, g) in entries then 1 else 0
  {
    if entries != [] {
      var n := |entries| - 1;
      CountOfDistinct(entries[..n], g, t);
      assert forall i :: 0 <= i < n ==> entries[..n][i].adder != entries[n].adder;
      assert entries == entries[..n] + [entries[n]];
    }
  }

  /** How often an event is somewhere in a generation: once in the one that accepted it. */
  lemma ContentCount(s: State, g: nat, t: nat)
    requires Inv(s) && g < |s.gens|
    ensures Content(s.gens[g])[t] == if Entry(t, g) in s.accepted then 1 else 0
  {
    assert KeepsAll(s.gens[g], s.accepted, g);
    AcceptedCount(s.accepted, g, t);
    CountOfDistinct(s.accepted, g, t);
  }

  /** The event is somewhere in generation g, once, and in no other one. */
  ghost predicate OnlyIn(s: State, g: nat, t: nat)
  {
    g < |s.gens| && Content(s.gens[g])[t] == 1 &&
    forall h :: 0 <= h < |s.gens| && h != g ==> Content(s.gens[h])[t] == 0
  }

  ghost predicate Nowhere(s: State, t: nat)
  {
    forall h :: 0 <= h < |s.gens| ==> Content(s.gens[h])[t] == 0
  }

  lemma EntryIsOnlyPlace(s: State, i: nat)
    requires Inv(s) && i < |s.accepted|
    ensures OnlyIn(s, s.accepted[i].gen, s.accepted[i].adder)
  {
    var e := s.accepted[i];
    assert EntryOk(|s.gens|, s.adders, e);
    ContentCount(s, e.gen, e.adder);
    assert forall j :: 0 <= j < |s.accepted| && s.accepted[j].adder == e.adder ==> j == i;
    forall h | 0 <= h < |s.gens| && h != e.gen ensures Content(s.gens[h])[e.adder] == 0 {
      ContentCount(s, h, e.adder);
    }
  }

  /** In every run, an accepted event is in exactly one generation, there exactly once;
      an event that was not accepted is in none. */
  lemma OneGenerationEach(cfg: Config, steps: seq<Step>, t: nat)
    requires Run(cfg, steps).Some? && t < |Run(cfg, steps).value.adders|
    ensures var s := Run(cfg, steps).value;
            if WasAccepted(s.adders[t]) then exists g :: OnlyIn(s, g, t) else Nowhere(s, t)
  {
    var s := Run(cfg, steps).value;
    RunKeeps(cfg, steps);
    if WasAccepted(s.adders[t]) {
      assert HasEntry(s.accepted, t);
      var i: nat :| EntryFor(s.accepted, t, i);
      EntryIsOnlyPlace(s, i);
    } else {
      forall i | 0 <= i < |s.accepted| ensures s.accepted[i].adder != t {
        assert EntryOk(|s.gens|, s.adders, s.accepted[i]);
      }
      forall h | 0 <= h < |s.gens| ensures Content(s.gens[h])[t] == 0 {
        ContentCount(s, h, t);
      }
    }
  }

  /** Every Add call that has returned was either accepted, or has had exactly one
      overflow response offered, and never both. */
  lemma AddsEndOneWay(cfg: Config, steps: seq<Step>, t: nat)
    requires Run(cfg, steps).Some? && t < |Run(cfg, steps).value.adders|
    ensures var s := Run(cfg, steps).value;
            (s.adders[t].pc == Overflowed <==> t in s.overflowed) &&
            (t in s.overflowed ==> multiset(s.overflowed)[t] == 1 && !HasEntry(s.accepted, t)) &&
            (WasAccepted(s.adders[t]) <==> HasEntry(s.accepted, t))
  {
    var s := Run(cfg, steps).value;
    RunKeeps(cfg, steps);
    assert OverflowAt(s.adders, t) <==> s.adders[t].pc == Overflowed;
    if HasEntry(s.accepted, t) {
      var i: nat :| EntryFor(s.accepted, t, i);
      assert EntryOk(|s.gens|, s.adders, s.accepted[i]);
    }
    if t in s.overflowed {
      var i :| 0 <= i < |s.overflowed| && s.overflowed[i] == t;
      assert OverflowAt(s.adders, s.overflowed[i]);
      OnceInDistinct(s.overflowed, i);
    }
  }

  lemma OnceInDistinct(xs: seq<nat>, i: nat)
    requires i < |xs| && forall i, j :: 0 <= i < j < |xs| ==> xs[i] != xs[j]
    ensures multiset(xs)[xs[i]] == 1
  {
    assert xs == xs[..i] + [xs[i]] + xs[i + 1..];
    assert xs[i] !in xs[..i] && xs[i] !in xs[i + 1..];
  }

  // ---- what a returning Flush has achieved ----

  lemma FinishedFired(s: State, g: nat)
    requires Inv(s) && g < |s.gens| && Drained(s.gens[g])
    ensures multiset(Flat(s.gens[g].fired)) == multiset(AcceptedBy(s.accepted, g))
  {
    assert KeepsAll(s.gens[g], s.accepted, g);
  }

  /** When a Flush has returned, the generation that it retired is closed, and what it
      fired is exactly what it had accepted, each event once. */
  lemma FlushFiresRetired(cfg: Config, steps: seq<Step>, t: nat)
    requires Run(cfg, steps).Some? && FlushAt(Run(cfg, steps).value, t, Returned)
    ensures var s := Run(cfg, steps).value;
            var g := s.flushers[t].gen;
            g < |s.gens| && g != s.current && Finished(s.gens[g]) &&
            multiset(Flat(s.gens[g].fired)) == multiset(AcceptedBy(s.accepted, g))
  {
    var s := Run(cfg, steps).value;
    RunKeeps(cfg, steps);
    assert StageOk(s.flushers[t], s.gens[s.flushers[t].gen]);
    FinishedFired(s, s.flushers[t].gen);
  }

  /** When a Flush has returned that no other Flush overlapped, every event accepted
      before it began has been fired exactly once. */
  lemma SoloFlushFiresAll(cfg: Config, steps: seq<Step>, t: nat, k: nat)
    requires Run(cfg, steps).Some? && FlushAt(Run(cfg, steps).value, t, Returned)
    requires Run(cfg, steps).value.flushers[t].solo && k < Run(cfg, steps).value.flushers[t].mark
    ensures var s := Run(cfg, steps).value;
            k < |s.accepted| &&
            var e := s.accepted[k];
            e.gen < |s.gens| && multiset(Flat(s.gens[e.gen].fired))[e.adder] == 1
  {
    var s := Run(cfg, steps).value;
    RunKeeps(cfg, steps);
    assert MarkOk(s.gens, s.current, s.flushers[t], s.accepted);
    var e := s.accepted[k];
    assert Settled(s.gens, s.current, s.flushers[t], e);
    FinishedFired(s, e.gen);
    AcceptedCount(s.accepted, e.gen, e.adder);
    CountOfDistinct(s.accepted, e.gen, e.adder);
  }

  /** After Stop, everything ever accepted has been fired exactly once. */
  lemma StopFiresAll(cfg: Config, steps: seq<Step>, k: nat)
    requires Run(cfg, steps).Some? && Run(cfg, steps).value.phase == Stopped
    requires k < |Run(cfg, steps).value.accepted|
    ensures var s := Run(cfg, steps).value;
            var e := s.accepted[k];
            e.gen < |s.gens| && multiset(Flat(s.gens[e.gen].fired))[e.adder] == 1
  {
    var s := Run(cfg, steps).value;
    RunKeeps(cfg, steps);
    var e := s.accepted[k];
    assert EntryOk(|s.gens|, s.adders, e);
    FinishedFired(s, e.gen);
    AcceptedCount(s.accepted, e.gen, e.adder);
    CountOfDistinct(s.accepted, e.gen, e.adder);
  }

  // ---- overlapping Flushes ----

  lemma RunMore(cfg: Config, steps: seq<Step>, s: State, step: Step)
    requires Run(cfg, steps) == Some(s) && Enabled(cfg, s, step)
    ensures Run(cfg, steps + [step]) == Some(Apply(cfg, s, step))
  {
    assert (steps + [step])[..|steps|] == steps;
  }

  const ONE_SLOT := Config(1, false, false)

  /** One event accepted, and any Flushes. */
  function Added(e: Event, current: nat, gens: seq<Generation>, flushers: seq<Flusher>): State
  {
    State([FRESH.(queue := [0])] + gens, current, [Adder(e, Accepted)], flushers, [Entry(0, 0)], [], Running, false,
          0, true, current)
  }

  lemma RunTo(r: seq<Step>, s: State, step: Step, s': State)
    requires Run(ONE_SLOT, r) == Some(s) && Enabled(ONE_SLOT, s, step)
    requires Apply(ONE_SLOT, s, step).gens == s'.gens && Apply(ONE_SLOT, s, step).current == s'.current
    requires Apply(ONE_SLOT, s, step).adders == s'.adders && Apply(ONE_SLOT, s, step).flushers == s'.flushers
    requires Apply(ONE_SLOT, s, step).accepted == s'.accepted && Apply(ONE_SLOT, s, step).overflowed == s'.overflowed
    requires Apply(ONE_SLOT, s, step).phase == s'.phase && Apply(ONE_SLOT, s, step).panicked == s'.panicked
    requires Apply(ONE_SLOT, s, step).waiting == s'.waiting && Apply(ONE_SLOT, s, step).reading == s'.reading
    requires Apply(ONE_SLOT, s, step).swaps == s'.swaps
    ensures Run(ONE_SLOT, r + [step]) == Some(s')
  {
    RunMore(ONE_SLOT, r, s, step);
  }

  lemma SendFirst(e: Event)
    ensures var s := Apply(ONE_SLOT, INIT.(adders := [Adder(e, Locked)]), Send(0));
            s == Added(e, 0, [], []).(adders := [Adder(e, Sent)])
  {
    var s := Apply(ONE_SLOT, INIT.(adders := [Adder(e, Locked)]), Send(0));
    assert Queued(FRESH, 0).queue == [0];
    assert s.gens == [Queued(FRESH, 0)] == Added(e, 0, [], []).gens;
    assert s.adders == [Adder(e, Sent)];
    assert s.accepted == [Entry(0, 0)];
  }

  lemma StartAdd(e: Event) returns (r: seq<Step>)
    ensures Run(ONE_SLOT, r) == Some(INIT.(adders := [Adder(e, Locked)]))
  {
    var s := INIT.(adders := [Adder(e, Waiting)]);
    RunTo([], INIT, BeginAdd(e), s);
    r := [] + [BeginAdd(e)];
    RunTo(r, s, LockAdd(0), INIT.(adders := [Adder(e, Locked)]));
    r := r + [LockAdd(0)];
  }

  lemma AddOne(e: Event) returns (r: seq<Step>)
    ensures Run(ONE_SLOT, r) == Some(Added(e, 0, [], []))
  {
    r := StartAdd(e);
    SendFirst(e);
    RunMore(ONE_SLOT, r, INIT.(adders := [Adder(e, Locked)]), Send(0));
    r := r + [Send(0)];
    RunTo(r, Added(e, 0, [], []).(adders := [Adder(e, Sent)]), UnlockAdd(0), Added(e, 0, [], []));
    r := r + [UnlockAdd(0)];
  }

  /** A first Flush goes as far as releasing the lock. */
  lemma FirstFlush(e: Event, r0: seq<Step>) returns (r: seq<Step>)
    requires Run(ONE_SLOT, r0) == Some(Added(e, 0, [], []))
    ensures Run(ONE_SLOT, r) == Some(Added(e, 1, [FRESH], [Flusher(Released, 0, 1, true, 0)]))
  {
    var s1 := Added(e, 0, [FRESH], [Flusher(Created, 1, 1, true, 0)]);
    var s2 := Added(e, 0, [FRESH], [Flusher(Holding, 1, 1, true, 0)]);
    var s3 := Added(e, 1, [FRESH], [Flusher(Swapped, 0, 1, true, 0)]);
    RunTo(r0, Added(e, 0, [], []), BeginFlush, s1);
    r := r0 + [BeginFlush];
    RunTo(r, s1, LockFlush(0), s2);
    r := r + [LockFlush(0)];
    RunTo(r, s2, Swap(0), s3);
    r := r + [Swap(0)];
    RunTo(r, s3, UnlockFlush(0), Added(e, 1, [FRESH], [Flusher(Released, 0, 1, true, 0)]));
    r := r + [UnlockFlush(0)];
  }

  const LATE := Flusher(Released, 0, 1, false, 0)

  lemma SecondFlushBegins(e: Event, r0: seq<Step>) returns (r: seq<Step>)
    requires Run(ONE_SLOT, r0) == Some(Added(e, 1, [FRESH], [Flusher(Released, 0, 1, true, 0)]))
    ensures Run(ONE_SLOT, r) == Some(Added(e, 2, [FRESH, FRESH], [LATE, Flusher(Swapped, 1, 1, false, 1)]))
  {
    var s := Added(e, 1, [FRESH], [Flusher(Released, 0, 1, true, 0)]);
    var s1 := Added(e, 1, [FRESH, FRESH], [LATE, Flusher(Created, 2, 1, false, 0)]);
    var s2 := Added(e, 1, [FRESH, FRESH], [LATE, Flusher(Holding, 2, 1, false, 0)]);
    assert s.flushers[0] in s.flushers;
    RunTo(r0, s, BeginFlush, s1);
    r := r0 + [BeginFlush];
    RunTo(r, s1, LockFlush(1), s2);
    r := r + [LockFlush(1)];
    RunTo(r, s2, Swap(1), Added(e, 2, [FRESH, FRESH], [LATE, Flusher(Swapped, 1, 1, false, 1)]));
    r := r + [Swap(1)];
  }

  lemma SecondFlushReturns(e: Event, r0: seq<Step>) returns (r: seq<Step>)
    requires Run(ONE_SLOT, r0) == Some(Added(e, 2, [FRESH, FRESH], [LATE, Flusher(Swapped, 1, 1, false, 1)]))
    ensures Run(ONE_SLOT, r) ==
            Some(Added(e, 2, [FRESH.(closed := true), FRESH], [LATE, Flusher(Returned, 1, 1, false, 1)]))
  {
    var s := Added(e, 2, [FRESH, FRESH], [LATE, Flusher(Swapped, 1, 1, false, 1)]);
    var s1 := Added(e, 2, [FRESH, FRESH], [LATE, Flusher(Released, 1, 1, false, 1)]);
    var s2 := Added(e, 2, [FRESH.(closed := true), FRESH], [LATE, Flusher(Stopping, 1, 1, false, 1)]);
    RunTo(r0, s, UnlockFlush(1), s1);
    r := r0 + [UnlockFlush(1)];
    RunTo(r, s1, CloseWork(1), s2);
    r := r + [CloseWork(1)];
    RunTo(r, s2, ReturnFlush(1),
          Added(e, 2, [FRESH.(closed := true), FRESH], [LATE, Flusher(Returned, 1, 1, false, 1)]));
    r := r + [ReturnFlush(1)];
  }

  /** The second Flush has returned although an event accepted before it began is still
      queued. */
  predicate LeftQueued(s: State)
  {
    FlushAt(s, 1, Returned) && s.flushers[1].mark == 1 && s.accepted == [Entry(0, 0)] &&
    s.gens != [] && s.gens[0].queue == [0] && s.gens[0].fired == []
  }

  /** With overlapping Flushes the guarantee covers only the retired generation: there is
      a run in which an event is accepted before a Flush begins, and is still in its
      queue when that Flush has returned. */
  lemma OverlapLeavesEvents(e: Event)
    ensures exists r :: Run(ONE_SLOT, r).Some? && LeftQueued(Run(ONE_SLOT, r).value)
  {
    var r := AddOne(e);
    r := FirstFlush(e, r);
    r := SecondFlushBegins(e, r);
    r := SecondFlushReturns(e, r);
    assert Run(ONE_SLOT, r).Some?;
  }

  /** A first Flush has released the lock, and an Add has begun after that. */
  function Later(e: Event, pc: AddPc): State
  {
    Added(e, 1, [FRESH], [Flusher(Released, 0, 1, true, 0)]).(adders := [Adder(e, Accepted), Adder(e, pc)])
  }

  lemma LaterAdd(e: Event, r0: seq<Step>) returns (r: seq<Step>)
    requires Run(ONE_SLOT, r0) == Some(Added(e, 1, [FRESH], [Flusher(Released, 0, 1, true, 0)]))
    ensures Run(ONE_SLOT, r) == Some(Later(e, Locked))
  {
    var s := Added(e, 1, [FRESH], [Flusher(Released, 0, 1, true, 0)]);
    RunTo(r0, s, BeginAdd(e), Later(e, Waiting));
    r := r0 + [BeginAdd(e)];
    RunTo(r, Later(e, Waiting), LockAdd(1), Later(e, Locked));
    r := r + [LockAdd(1)];
  }

  predicate AddedMeanwhile(s: State)
  {
    FlushAt(s, 0, Released) && AddAt(s, 1, Sent) && s.accepted == [Entry(0, 0), Entry(1, 1)]
  }

  /** Add does not wait for a Flush to return: there is a run in which a Flush has
      released the lock and not returned, and an Add that comes later goes through. */
  lemma AddDuringFlush(e: Event)
    ensures exists r :: Run(ONE_SLOT, r).Some? && AddedMeanwhile(Run(ONE_SLOT, r).value)
  {
    var r := AddOne(e);
    r := FirstFlush(e, r);
    r := LaterAdd(e, r);
    RunMore(ONE_SLOT, r, Later(e, Locked), Send(1));
    r := r + [Send(1)];
    assert Run(ONE_SLOT, r).Some?;
  }

  // ---- calls come to an end ----

  /** What the callers, sampling Sends among them, and the reader of responses begin of
      their own accord. */
  predicate FromOutside(step: Step)
  {
    step.BeginAdd? || step.BeginFlush? || step.FailFlush? || step.BeginStop? || step.OfferSampled? ||
    step.Reader?
  }

  function AddWork(a: Adder): nat
  {
    match a.pc
    case Waiting => 30
    case Locked => 29
    case Sent => 1
    case Full => 3
    case Offering => 2
    case Accepted => 0
    case Overflowed => 0
  }

  function FlushWork(f: Flusher): nat
  {
    match f.pc
    case Created => 6
    case Holding => 5
    case Swapped => 4
    case Released => 3
    case Stopping => 2
    case Returned => 0
    case StartFailed => 0
  }

  /** An event that waits for its batch counts for all the responses that it can bring:
      two for an offer, which may leave one for a reader. */
  const EVENT_WORK: nat := 2 * Packing.FIRINGS_PER_BUCKET + 2

  function GenWork(g: Generation): nat
  {
    (EVENT_WORK + 1) * |g.queue| + EVENT_WORK * |g.forming| + |g.inFlight| + 2 * Sum((n: nat) => n, g.owing)
  }

  function Sum<T>(work: T -> nat, xs: seq<T>): nat
  {
    if xs == [] then 0 else Sum(work, xs[..|xs| - 1]) + work(xs[|xs| - 1])
  }

  lemma {:induction false} SumUpdate<T>(work: T -> nat, xs: seq<T>, i: nat, x: T)
    requires i < |xs|
    ensures Sum(work, xs[i := x]) + work(xs[i]) == Sum(work, xs) + work(x)
  {
    var n := |xs| - 1;
    if i == n {
      assert xs[i := x][..n] == xs[..n];
    } else {
      SumUpdate(work, xs[..n], i, x);
      assert xs[i := x][..n] == xs[..n][i := x];
    }
  }

  lemma SumOneMore<T>(work: T -> nat, xs: seq<T>, x: T)
    ensures Sum(work, xs + [x]) == Sum(work, xs) + work(x)
  {
    assert (xs + [x])[..|xs|] == xs;
  }

  lemma {:induction false} SumConcat<T>(work: T -> nat, a: seq<T>, b: seq<T>)
    ensures Sum(work, a + b) == Sum(work, a) + Sum(work, b)
    decreases |b|
  {
    if b == [] {
      assert a + b == a;
    } else {
      var n := |b| - 1;
      SumConcat(work, a, b[..n]);
      SumOneMore(work, a + b[..n], b[n]);
      assert a + b == (a + b[..n]) + [b[n]];
    }
  }

  lemma SumWithout<T>(work: T -> nat, xs: seq<T>, i: nat)
    requires i < |xs|
    ensures Sum(work, Without(xs, i)) + work(xs[i]) == Sum(work, xs)
  {
    SumConcat(work, xs[..i], xs[i + 1..]);
    SumOneMore(work, xs[..i], xs[i]);
    SumConcat(work, xs[..i] + [xs[i]], xs[i + 1..]);
    assert xs == (xs[..i] + [xs[i]]) + xs[i + 1..];
  }

  function AddsWork(s: State): nat { Sum((a: Adder) => AddWork(a), s.adders) }

  function FlushesWork(s: State): nat { Sum((f: Flusher) => FlushWork(f), s.flushers) }

  function GensWork(s: State): nat { Sum((g: Generation) => GenWork(g), s.gens) }

  /** The work left: what the calls, the events and the responses under way still need. */
  function Work(s: State): nat
  {
    AddsWork(s) + FlushesWork(s) + GensWork(s) + s.waiting + (if s.phase == Closing then 1 else 0)
  }

  lemma AdderProgress(s: State, t: nat, pc: AddPc)
    requires t < |s.adders|
    ensures AddsWork(WithAdder(s, t, pc)) + AddWork(s.adders[t]) ==
            AddsWork(s) + AddWork(s.adders[t].(pc := pc))
  {
    SumUpdate((a: Adder) => AddWork(a), s.adders, t, s.adders[t].(pc := pc));
  }

  lemma FlusherProgress(s: State, t: nat, f: Flusher)
    requires t < |s.flushers|
    ensures FlushesWork(s.(flushers := s.flushers[t := f])) + FlushWork(s.flushers[t]) ==
            FlushesWork(s) + FlushWork(f)
  {
    SumUpdate((f: Flusher) => FlushWork(f), s.flushers, t, f);
  }

  lemma GenProgress(s: State, g: nat, gen: Generation)
    requires g < |s.gens|
    ensures GensWork(WithGen(s, g, gen)) + GenWork(s.gens[g]) == GensWork(s) + GenWork(gen)
  {
    SumUpdate((g: Generation) => GenWork(g), s.gens, g, gen);
  }

  lemma DeliverProgress(s: State, t: nat, gen: Generation)
    requires s.current < |s.gens| && AddAt(s, t, Locked)
    requires GenWork(gen) <= GenWork(Now(s)) + EVENT_WORK + 1
    ensures Work(Deliver(s, t, gen)) < Work(s)
  {
    var s' := Deliver(s, t, gen);
    AdderProgress(s, t, Sent);
    GenProgress(s, s.current, gen);
    assert s'.adders == WithAdder(s, t, Sent).adders && s'.gens == WithGen(s, s.current, gen).gens;
    assert s'.flushers == s.flushers;
  }

  lemma WorkerProgress(s: State, g: nat, gen: Generation)
    requires g < |s.gens| && GenWork(gen) < GenWork(s.gens[g])
    ensures Work(WithGen(s, g, gen)) + GenWork(s.gens[g]) == Work(s) + GenWork(gen)
  {
    GenProgress(s, g, gen);
    assert WithGen(s, g, gen).adders == s.adders && WithGen(s, g, gen).flushers == s.flushers;
  }

  lemma OfferedWork(s: State, fate: Fate)
    ensures Work(AfterOffer(s, fate)) <= Work(s) + 1
  {
    assert AfterOffer(s, fate).adders == s.adders && AfterOffer(s, fate).flushers == s.flushers;
    assert AfterOffer(s, fate).gens == s.gens;
  }

  lemma DispatchProgress(g: Generation, offers: nat)
    requires g.forming != [] && offers <= Packing.FIRINGS_PER_BUCKET * |g.forming|
    ensures GenWork(Dispatched(g, offers)) < GenWork(g)
  {
    SumOneMore((n: nat) => n, g.owing, offers);
  }

  lemma OwingProgress(g: Generation, i: nat)
    requires i < |g.owing| && g.owing[i] > 0
    ensures GenWork(OwingLess(g, i)) + 2 == GenWork(g)
  {
    SumUpdate((n: nat) => n, g.owing, i, g.owing[i] - 1);
  }

  lemma FinishProgress(g: Generation, i: nat)
    requires i < |g.inFlight| && i < |g.owing| && g.owing[i] == 0
    ensures GenWork(FiredBatch(g, i)) + 1 == GenWork(g)
  {
    SumWithout((n: nat) => n, g.owing, i);
  }

  lemma AdderStepProgress(s: State, t: nat, pc: AddPc)
    requires t < |s.adders| && AddWork(s.adders[t].(pc := pc)) < AddWork(s.adders[t])
    ensures Work(WithAdder(s, t, pc)) + AddWork(s.adders[t]) == Work(s) + AddWork(s.adders[t].(pc := pc))
  {
    AdderProgress(s, t, pc);
    assert WithAdder(s, t, pc).gens == s.gens && WithAdder(s, t, pc).flushers == s.flushers;
  }

  lemma FlusherStepProgress(s: State, t: nat, f: Flusher, s': State)
    requires t < |s.flushers| && FlushWork(f) < FlushWork(s.flushers[t])
    requires s'.flushers == s.flushers[t := f] && s'.adders == s.adders && s'.phase == s.phase
    requires GensWork(s') == GensWork(s) && s'.waiting == s.waiting
    ensures Work(s') < Work(s)
  {
    FlusherProgress(s, t, f);
  }

  lemma OverflowProgress(cfg: Config, s: State, t: nat, fate: Fate)
    requires Enabled(cfg, s, OfferOverflow(t, fate))
    ensures Work(Apply(cfg, s, OfferOverflow(t, fate))) < Work(s)
  {
    var s' := WithAdder(s, t, Overflowed).(overflowed := s.overflowed + [t]);
    AdderStepProgress(s, t, Overflowed);
    assert s'.adders == WithAdder(s, t, Overflowed).adders && s'.gens == s.gens && s'.flushers == s.flushers;
    OfferedWork(s', fate);
  }

  lemma WorkerStepProgress(cfg: Config, s: State, step: Step)
    requires Enabled(cfg, s, step) && IsWorkerStep(step)
    ensures Work(Apply(cfg, s, step)) < Work(s)
  {
    var gen := s.gens[step.g];
    match step
    case Take(g) => WorkerProgress(s, g, Took(gen));
    case Dispatch(g, offers) =>
      DispatchProgress(gen, offers);
      WorkerProgress(s, g, Dispatched(gen, offers));
    case OfferResponse(g, i, fate) =>
      OwingProgress(gen, i);
      WorkerProgress(s, g, OwingLess(gen, i));
      OfferedWork(WithGen(s, g, OwingLess(gen, i)), fate);
    case FinishFire(g, i) =>
      FinishProgress(gen, i);
      WorkerProgress(s, g, FiredBatch(gen, i));
  }

  lemma FlushStepProgress(cfg: Config, s: State, step: Step)
    requires Enabled(cfg, s, step)
    requires step.LockFlush? || step.Swap? || step.UnlockFlush? || step.CloseWork? || step.ReturnFlush?
    ensures Work(Apply(cfg, s, step)) < Work(s)
  {
    var s' := Apply(cfg, s, step);
    match step
    case LockFlush(t) => FlusherStepProgress(s, t, s.flushers[t].(pc := Holding), s');
    case Swap(t) => FlusherStepProgress(s, t, AfterSwap(s.flushers[t], s.current, s.swaps), s');
    case UnlockFlush(t) => FlusherStepProgress(s, t, s.flushers[t].(pc := Released), s');
    case CloseWork(t) =>
      var g := s.flushers[t].gen;
      GenProgress(s, g, s.gens[g].(closed := true));
      FlusherStepProgress(s, t, s.flushers[t].(pc := Stopping), s');
    case ReturnFlush(t) => FlusherStepProgress(s, t, s.flushers[t].(pc := Returned), s');
  }

  /** Every step that does not come from outside uses up work. */
  lemma StepProgress(cfg: Config, s: State, step: Step)
    requires Enabled(cfg, s, step) && !FromOutside(step)
    ensures Work(Apply(cfg, s, step)) < Work(s)
  {
    match step
    case LockAdd(t) => AdderStepProgress(s, t, Locked);
    case Send(t) => DeliverProgress(s, t, Queued(Now(s), t));
    case HandOver(t) => DeliverProgress(s, t, HandedOver(Now(s), t));
    case Reject(t) => AdderStepProgress(s, t, Full);
    case UnlockAdd(t) => AdderStepProgress(s, t, if s.adders[t].pc == Sent then Accepted else Offering);
    case OfferOverflow(t, fate) => OverflowProgress(cfg, s, t, fate);
    case Take(_) => WorkerStepProgress(cfg, s, step);
    case Dispatch(_, _) => WorkerStepProgress(cfg, s, step);
    case OfferResponse(_, _, _) => WorkerStepProgress(cfg, s, step);
    case FinishFire(_, _) => WorkerStepProgress(cfg, s, step);
    case ReadResponse =>
    case ReturnStop =>
    case _ => FlushStepProgress(cfg, s, step);
  }

  lemma LastStepProgress(cfg: Config, steps: seq<Step>, more: seq<Step>)
    requires more != [] && Run(cfg, steps + more).Some? && !FromOutside(more[|more| - 1])
    ensures Run(cfg, steps + more[..|more| - 1]).Some?
    ensures Work(Run(cfg, steps + more).value) < Work(Run(cfg, steps + more[..|more| - 1]).value)
  {
    var n := |more| - 1;
    assert (steps + more)[..|steps| + n] == steps + more[..n];
    StepProgress(cfg, Run(cfg, steps + more[..n]).value, more[n]);
  }

  /** A run with no further steps from outside is no longer than the work that was left. */
  lemma {:induction false} RunsEnd(cfg: Config, steps: seq<Step>, more: seq<Step>)
    requires Run(cfg, steps).Some? && Run(cfg, steps + more).Some?
    requires forall i :: 0 <= i < |more| ==> !FromOutside(more[i])
    ensures |more| + Work(Run(cfg, steps + more).value) <= Work(Run(cfg, steps).value)
    decreases |more|
  {
    if more == [] {
      assert steps + more == steps;
    } else {
      LastStepProgress(cfg, steps, more);
      RunsEnd(cfg, steps, more[..|more| - 1]);
    }
  }

  // ---- getting stuck ----

  ghost predicate CanMove(cfg: Config, s: State)
  {
    exists step :: !FromOutside(step) && Enabled(cfg, s, step)
  }

  /** Nobody takes responses, the channel is full, and none may be dropped. */
  predicate Clogged(cfg: Config, s: State)
  {
    cfg.blockOnResponse && !s.reading && s.waiting >= Room(cfg)
  }

  /** A response can be offered, or an earlier one taken first, unless the channel is clogged. */
  lemma OffersGoOn(cfg: Config, s: State) returns (fate: Fate)
    requires s.current < |s.gens| && !Clogged(cfg, s)
    ensures CanOffer(cfg, s, fate) || CanMove(cfg, s)
  {
    if s.waiting < Room(cfg) {
      fate := Buffered;
    } else if !cfg.blockOnResponse {
      fate := Dropped;
    } else {
      fate := HandedOn;
      if s.waiting > 0 {
        assert Enabled(cfg, s, ReadResponse);
      }
    }
  }

  lemma FireMoves(cfg: Config, s: State, g: nat)
    requires s.current < |s.gens| && g < |s.gens| && s.gens[g].inFlight != []
    requires |s.gens[g].inFlight| == |s.gens[g].owing|
    ensures CanMove(cfg, s) || Clogged(cfg, s)
  {
    if s.gens[g].owing[0] == 0 {
      assert Enabled(cfg, s, FinishFire(g, 0));
    } else if !Clogged(cfg, s) {
      var fate := OffersGoOn(cfg, s);
      if CanOffer(cfg, s, fate) {
        assert Enabled(cfg, s, OfferResponse(g, 0, fate));
      }
    }
  }

  lemma EveryFireOwes(s: State, g: nat)
    requires Inv(s) && g < |s.gens|
    ensures |s.gens[g].inFlight| == |s.gens[g].owing|
  {
    assert KeepsAll(s.gens[g], s.accepted, g);
  }

  lemma WorkerMoves(cfg: Config, s: State, g: nat)
    requires s.current < |s.gens| && g < |s.gens| && (s.gens[g].queue != [] || s.gens[g].forming != [])
    ensures CanMove(cfg, s)
  {
    if s.gens[g].queue != [] {
      assert Enabled(cfg, s, Take(g));
    } else {
      assert Enabled(cfg, s, Dispatch(g, 0));
    }
  }

  lemma UndrainedMoves(cfg: Config, s: State, g: nat)
    requires Inv(s) && g < |s.gens| && !Drained(s.gens[g])
    ensures CanMove(cfg, s) || Clogged(cfg, s)
  {
    EveryFireOwes(s, g);
    if s.gens[g].queue != [] || s.gens[g].forming != [] {
      WorkerMoves(cfg, s, g);
    } else {
      FireMoves(cfg, s, g);
    }
  }

  lemma ReaderMoves(cfg: Config, s: State, t: nat)
    requires Inv(s) && t < |s.adders| && IsReader(s.adders[t])
    ensures CanMove(cfg, s) || Clogged(cfg, s)
  {
    if s.adders[t].pc != Locked {
      assert Enabled(cfg, s, UnlockAdd(t));
    } else if |Now(s).queue| < cfg.capacity {
      assert Enabled(cfg, s, Send(t));
    } else if Now(s).queue == [] {
      assert Enabled(cfg, s, HandOver(t));
    } else {
      UndrainedMoves(cfg, s, s.current);
    }
  }

  lemma WriterMoves(cfg: Config, s: State, t: nat)
    requires s.current < |s.gens| && t < |s.flushers| && IsWriter(s.flushers[t])
    ensures CanMove(cfg, s)
  {
    if s.flushers[t].pc == Holding {
      assert Enabled(cfg, s, Swap(t));
    } else {
      assert Enabled(cfg, s, UnlockFlush(t));
    }
  }

  lemma AdderCanMove(cfg: Config, s: State, t: nat)
    requires Inv(s) && t < |s.adders| && AddActive(s.adders[t])
    ensures CanMove(cfg, s) || Clogged(cfg, s)
  {
    if IsReader(s.adders[t]) {
      ReaderMoves(cfg, s, t);
    } else if s.adders[t].pc == Offering {
      if !Clogged(cfg, s) {
        var fate := OffersGoOn(cfg, s);
        if CanOffer(cfg, s, fate) {
          assert Enabled(cfg, s, OfferOverflow(t, fate));
        }
      }
    } else if exists f :: f in s.flushers && IsWriter(f) {
      var i :| 0 <= i < |s.flushers| && IsWriter(s.flushers[i]);
      WriterMoves(cfg, s, i);
    } else {
      assert Enabled(cfg, s, LockAdd(t));
    }
  }

  lemma FlusherCanMove(cfg: Config, s: State, t: nat)
    requires Inv(s) && t < |s.flushers| && FlushActive(s.flushers[t])
    ensures CanMove(cfg, s) || Clogged(cfg, s)
  {
    var f := s.flushers[t];
    if IsWriter(f) {
      WriterMoves(cfg, s, t);
    } else if f.pc == Created {
      if exists h :: h in s.flushers && IsWriter(h) {
        var i :| 0 <= i < |s.flushers| && IsWriter(s.flushers[i]);
        WriterMoves(cfg, s, i);
      } else if exists a :: a in s.adders && IsReader(a) {
        var i :| 0 <= i < |s.adders| && IsReader(s.adders[i]);
        ReaderMoves(cfg, s, i);
      } else {
        assert Enabled(cfg, s, LockFlush(t));
      }
    } else if f.pc == Released {
      assert Enabled(cfg, s, CloseWork(t));
    } else if Drained(s.gens[f.gen]) {
      assert Enabled(cfg, s, ReturnFlush(t));
    } else {
      UndrainedMoves(cfg, s, f.gen);
    }
  }

  /** A call is under way, and nothing can happen but what comes from outside. */
  ghost predicate Stuck(cfg: Config, s: State)
  {
    (!Quiet(s) || s.phase == Closing) && !CanMove(cfg, s)
  }

  /** In every run calls get stuck only on a clogged response channel. With RunsEnd this
      means: while responses may be dropped or a reader takes them, every Add, Flush and
      Stop returns. */
  lemma StuckOnlyWhenClogged(cfg: Config, steps: seq<Step>)
    requires Run(cfg, steps).Some? && Stuck(cfg, Run(cfg, steps).value)
    ensures Clogged(cfg, Run(cfg, steps).value)
  {
    var s := Run(cfg, steps).value;
    RunKeeps(cfg, steps);
    if exists a :: a in s.adders && AddActive(a) {
      var t :| 0 <= t < |s.adders| && AddActive(s.adders[t]);
      AdderCanMove(cfg, s, t);
    } else if exists f :: f in s.flushers && FlushActive(f) {
      var t :| 0 <= t < |s.flushers| && FlushActive(s.flushers[t]);
      FlusherCanMove(cfg, s, t);
    } else if Drained(Now(s)) {
      assert Enabled(cfg, s, ReturnStop);
    } else {
      UndrainedMoves(cfg, s, s.current);
    }
  }

  /** While responses may be dropped or a reader takes them: as long as a call is under
      way, something can happen by itself. */
  lemma NoDeadlock(cfg: Config, steps: seq<Step>)
    requires Run(cfg, steps).Some? && (!cfg.blockOnResponse || Run(cfg, steps).value.reading)
    requires !Quiet(Run(cfg, steps).value) || Run(cfg, steps).value.phase == Closing
    ensures CanMove(cfg, Run(cfg, steps).value)
  {
    if !CanMove(cfg, Run(cfg, steps).value) {
      StuckOnlyWhenClogged(cfg, steps);
    }
  }

  /** The response channel is not in the way, and will not be without the reader. */
  predicate Flows(cfg: Config, s: State) { !cfg.blockOnResponse || s.reading }

  predicate AllReturned(s: State) { Quiet(s) && s.phase != Closing }

  lemma NextStep(cfg: Config, steps: seq<Step>) returns (step: Step)
    requires Run(cfg, steps).Some? && Flows(cfg, Run(cfg, steps).value) && !AllReturned(Run(cfg, steps).value)
    ensures !FromOutside(step) && Run(cfg, steps + [step]).Some? && Flows(cfg, Run(cfg, steps + [step]).value)
    ensures Work(Run(cfg, steps + [step]).value) < Work(Run(cfg, steps).value)
  {
    var s := Run(cfg, steps).value;
    NoDeadlock(cfg, steps);
    step :| !FromOutside(step) && Enabled(cfg, s, step);
    RunMore(cfg, steps, s, step);
    StepProgress(cfg, s, step);
  }

  lemma Prepend(steps: seq<Step>, step: Step, later: seq<Step>)
    ensures steps + ([step] + later) == steps + [step] + later
  {
  }

  /** And then some way on without anything from outside lets all calls return. */
  lemma {:induction false} CallsReturn(cfg: Config, steps: seq<Step>) returns (more: seq<Step>)
    requires Run(cfg, steps).Some? && Flows(cfg, Run(cfg, steps).value)
    ensures forall i :: 0 <= i < |more| ==> !FromOutside(more[i])
    ensures Run(cfg, steps + more).Some? && AllReturned(Run(cfg, steps + more).value)
    decreases Work(Run(cfg, steps).value)
  {
    if AllReturned(Run(cfg, steps).value) {
      more := [];
      assert steps + more == steps;
    } else {
      var step := NextStep(cfg, steps);
      var later := CallsReturn(cfg, steps + [step]);
      Prepend(steps, step, later);
      more := [step] + later;
    }
  }

  lemma InsideLeavesReader(cfg: Config, s: State, step: Step)
    requires Enabled(cfg, s, step) && !FromOutside(step)
    ensures Apply(cfg, s, step).reading == s.reading
  {
  }

  lemma LastLeavesReader(cfg: Config, steps: seq<Step>, more: seq<Step>)
    requires more != [] && Run(cfg, steps + more).Some? && !FromOutside(more[|more| - 1])
    ensures Run(cfg, steps + more[..|more| - 1]).Some?
    ensures Run(cfg, steps + more).value.reading == Run(cfg, steps + more[..|more| - 1]).value.reading
  {
    var n := |more| - 1;
    assert (steps + more)[..|steps| + n] == steps + more[..n];
    InsideLeavesReader(cfg, Run(cfg, steps + more[..n]).value, more[n]);
  }

  lemma {:induction false} ReaderStays(cfg: Config, steps: seq<Step>, more: seq<Step>)
    requires Run(cfg, steps).Some? && Run(cfg, steps + more).Some?
    requires forall i :: 0 <= i < |more| ==> !FromOutside(more[i])
    ensures Run(cfg, steps + more).value.reading == Run(cfg, steps).value.reading
    decreases |more|
  {
    if more == [] {
      assert steps + more == steps;
    } else {
      LastLeavesReader(cfg, steps, more);
      ReaderStays(cfg, steps, more[..|more| - 1]);
    }
  }

  /** Whatever happens by itself from then on: when nothing more can, all calls have
      returned. */
  lemma AllWaysReturn(cfg: Config, steps: seq<Step>, more: seq<Step>)
    requires Run(cfg, steps).Some? && Flows(cfg, Run(cfg, steps).value)
    requires Run(cfg, steps + more).Some? && forall i :: 0 <= i < |more| ==> !FromOutside(more[i])
    ensures |more| <= Work(Run(cfg, steps).value)
    ensures !CanMove(cfg, Run(cfg, steps + more).value) ==> AllReturned(Run(cfg, steps + more).value)
  {
    RunsEnd(cfg, steps, more);
    ReaderStays(cfg, steps, more);
    if !AllReturned(Run(cfg, steps + more).value) {
      NoDeadlock(cfg, steps + more);
    }
  }

  /** Nothing is under way, nobody reads, and k responses wait. */
  ghost predicate Unread(s: State, k: nat)
  {
    s.current == 0 && |s.gens| == 1 && Drained(s.gens[0]) && s.gens[0].owing == [] && !s.gens[0].closed &&
    s.flushers == [] && s.phase == Running && !s.reading && s.waiting == k && Quiet(s)
  }

  /** One event more has been added and is in the hands of the worker. */
  function OneMore(s: State, e: Event, pc: AddPc): State
    requires |s.gens| == 1
  {
    var t := |s.adders|;
    s.(gens := [s.gens[0].(forming := [t])], adders := s.adders + [Adder(e, pc)],
       accepted := s.accepted + [Entry(t, 0)])
  }

  lemma AddLocked(cfg: Config, e: Event, r0: seq<Step>, k: nat) returns (r: seq<Step>)
    requires Run(cfg, r0).Some? && Unread(Run(cfg, r0).value, k)
    ensures var s0 := Run(cfg, r0).value;
            Run(cfg, r) == Some(s0.(adders := s0.adders + [Adder(e, Locked)]))
  {
    var s0 := Run(cfg, r0).value;
    var t := |s0.adders|;
    RunMore(cfg, r0, s0, BeginAdd(e));
    r := r0 + [BeginAdd(e)];
    var s1 := s0.(adders := s0.adders + [Adder(e, Waiting)]);
    RunMore(cfg, r, s1, LockAdd(t));
    r := r + [LockAdd(t)];
    assert WithAdder(s1, t, Locked).adders == s0.adders + [Adder(e, Locked)];
  }

  lemma AddHandedOver(cfg: Config, e: Event, r0: seq<Step>, k: nat) returns (r: seq<Step>)
    requires Run(cfg, r0).Some? && Unread(Run(cfg, r0).value, k) && !Run(cfg, r0).value.panicked
    ensures Run(cfg, r) == Some(OneMore(Run(cfg, r0).value, e, Accepted))
  {
    var s0 := Run(cfg, r0).value;
    var t := |s0.adders|;
    r := AddLocked(cfg, e, r0, k);
    var s2 := s0.(adders := s0.adders + [Adder(e, Locked)]);
    RunMore(cfg, r, s2, HandOver(t));
    r := r + [HandOver(t)];
    assert HandedOver(s0.gens[0], t).forming == [t];
    assert Apply(cfg, s2, HandOver(t)).adders == s0.adders + [Adder(e, Sent)];
    assert Apply(cfg, s2, HandOver(t)).gens == [s0.gens[0].(forming := [t])];
    assert Apply(cfg, s2, HandOver(t)) == OneMore(s0, e, Sent);
    RunMore(cfg, r, OneMore(s0, e, Sent), UnlockAdd(t));
    r := r + [UnlockAdd(t)];
    assert WithAdder(OneMore(s0, e, Sent), t, Accepted).adders == s0.adders + [Adder(e, Accepted)];
  }

  /** One event is added, and its fire has one response to offer. */
  lemma AddAndDispatch(cfg: Config, e: Event, r0: seq<Step>, k: nat) returns (r: seq<Step>)
    requires Run(cfg, r0).Some? && Unread(Run(cfg, r0).value, k)
    ensures Run(cfg, r).Some?
    ensures var s, s0 := Run(cfg, r).value, Run(cfg, r0).value;
            s == OneMore(s0, e, Accepted).(gens := [s0.gens[0].(inFlight := [[|s0.adders|]], owing := [1])])
  {
    var s0 := Run(cfg, r0).value;
    RunKeeps(cfg, r0);
    r := AddHandedOver(cfg, e, r0, k);
    var s := OneMore(s0, e, Accepted);
    RunMore(cfg, r, s, Dispatch(0, 1));
    r := r + [Dispatch(0, 1)];
    assert Dispatched(s.gens[0], 1) == s0.gens[0].(inFlight := [[|s0.adders|]], owing := [1]);
    assert Apply(cfg, s, Dispatch(0, 1)).gens == [Dispatched(s.gens[0], 1)];
  }

  lemma OneMoreUnread(cfg: Config, e: Event, r0: seq<Step>, k: nat) returns (r: seq<Step>)
    requires Run(cfg, r0).Some? && Unread(Run(cfg, r0).value, k) && k < Room(cfg)
    ensures Run(cfg, r).Some? && Unread(Run(cfg, r).value, k + 1)
  {
    r := AddAndDispatch(cfg, e, r0, k);
    var s := Run(cfg, r).value;
    var g := s.gens[0];
    RunMore(cfg, r, s, OfferResponse(0, 0, Buffered));
    r := r + [OfferResponse(0, 0, Buffered)];
    var s' := Run(cfg, r).value;
    assert s'.gens[0] == g.(owing := [0]);
    RunMore(cfg, r, s', FinishFire(0, 0));
    r := r + [FinishFire(0, 0)];
    assert FiredBatch(s'.gens[0], 0).inFlight == [] && FiredBatch(s'.gens[0], 0).owing == [];
  }

  lemma {:induction false} FillUnread(cfg: Config, e: Event, k: nat) returns (r: seq<Step>)
    requires k <= Room(cfg)
    ensures Run(cfg, r).Some? && Unread(Run(cfg, r).value, k)
  {
    if k == 0 {
      r := [] + [Reader(false)];
      RunMore(cfg, [], INIT, Reader(false));
    } else {
      r := FillUnread(cfg, e, k - 1);
      r := OneMoreUnread(cfg, e, r, k - 1);
    }
  }

  /** Some run gets stuck if and only if responses may not be dropped. */
  lemma StuckIff(cfg: Config)
    ensures (exists steps :: Run(cfg, steps).Some? && Stuck(cfg, Run(cfg, steps).value)) <==> cfg.blockOnResponse
  {
    if cfg.blockOnResponse {
      var e := Event("", "", "", 0, 0);
      var r := FillUnread(cfg, e, Room(cfg));
      r := AddAndDispatch(cfg, e, r, Room(cfg));
      var s := Run(cfg, r).value;
      RunMore(cfg, r, s, BeginStop);
      NothingMoves(cfg, Apply(cfg, s, BeginStop));
    }
    forall steps | Run(cfg, steps).Some? && Stuck(cfg, Run(cfg, steps).value) ensures cfg.blockOnResponse {
      StuckOnlyWhenClogged(cfg, steps);
    }
  }

  lemma NothingMoves(cfg: Config, s: State)
    requires s.phase == Closing && Quiet(s) && Clogged(cfg, s) && |s.gens| == 1 && s.current == 0
    requires s.gens[0].queue == [] && s.gens[0].forming == [] && |s.gens[0].inFlight| == 1 && s.gens[0].owing == [1]
    ensures Stuck(cfg, s)
  {
    forall step | Enabled(cfg, s, step) ensures FromOutside(step) {
      NoCallMoves(s);
    }
  }

  lemma NoCallMoves(s: State)
    requires Quiet(s)
    ensures forall t: nat, pc :: AddAt(s, t, pc) ==> pc in {Accepted, Overflowed}
    ensures forall t: nat, pc :: FlushAt(s, t, pc) ==> pc in {Returned, StartFailed}
  {
    forall t: nat, pc | AddAt(s, t, pc) ensures pc in {Accepted, Overflowed} {
      assert s.adders[t] in s.adders;
    }
    forall t: nat, pc | FlushAt(s, t, pc) ensures pc in {Returned, StartFailed} {
      assert s.flushers[t] in s.flushers;
    }
  }
}
