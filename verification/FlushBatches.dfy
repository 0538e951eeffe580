/** What becomes of queued events and of responses: the batches that are fired, and how
    the responses that the fires offer add up. */
module FlushBatches {
  import opened FlushProtocol
  import opened FlushGuarantees
  import opened FlushQueues

  // ---- batches ----

  ghost predicate IsStretch(batch: seq<nat>, all: seq<nat>)
  {
    batch != [] && exists i :: StretchAt(batch, all, i)
  }

  predicate StretchAt(batch: seq<nat>, all: seq<nat>, i: int)
  {
    0 <= i <= i + |batch| <= |all| && all[i..i + |batch|] == batch
  }

  ghost predicate AllStretches(batches: seq<seq<nat>>, all: seq<nat>)
  {
    forall i :: 0 <= i < |batches| ==> IsStretch(batches[i], all)
  }

  /** Every batch that is being fired, or has been, is a stretch of what was accepted. */
  ghost predicate Cut(gen: Generation, accepted: seq<Entry>, g: nat)
  {
    AllStretches(gen.inFlight, AcceptedBy(accepted, g)) && AllStretches(gen.fired, AcceptedBy(accepted, g))
  }

  ghost predicate InStretches(gens: seq<Generation>, accepted: seq<Entry>)
  {
    forall g :: 0 <= g < |gens| ==> Cut(gens[g], accepted, g)
  }

  lemma StretchesGrow(batches: seq<seq<nat>>, all: seq<nat>, more: seq<nat>)
    requires AllStretches(batches, all)
    ensures AllStretches(batches, all + more)
  {
    forall i | 0 <= i < |batches| ensures IsStretch(batches[i], all + more) {
      assert IsStretch(batches[i], all);
      var at :| StretchAt(batches[i], all, at);
      assert (all + more)[at..at + |batches[i]|] == all[at..at + |batches[i]|];
      assert StretchAt(batches[i], all + more, at);
    }
  }

  /** The front of a suffix is a stretch. */
  lemma FrontIsStretch(front: seq<nat>, rest: seq<nat>, all: seq<nat>)
    requires front != [] && IsSuffix(front + rest, all)
    ensures IsStretch(front, all)
  {
    var at := |all| - |front + rest|;
    assert all[at..][..|front|] == all[at..at + |front|];
    assert (front + rest)[..|front|] == front;
    assert StretchAt(front, all, at);
  }

  lemma DeliverStretches(s: State, t: nat, gen: Generation)
    requires InStretches(s.gens, s.accepted) && s.current < |s.gens| && t < |s.adders|
    requires gen.inFlight == Now(s).inFlight && gen.fired == Now(s).fired
    ensures InStretches(Deliver(s, t, gen).gens, Deliver(s, t, gen).accepted)
  {
    var s' := Deliver(s, t, gen);
    forall g | 0 <= g < |s'.gens| ensures Cut(s'.gens[g], s'.accepted, g) {
      assert Cut(s.gens[g], s.accepted, g);
      var more := if s.current == g then [t] else [];
      AcceptedByMore(s.accepted, Entry(t, s.current), g);
      StretchesGrow(s.gens[g].inFlight, AcceptedBy(s.accepted, g), more);
      StretchesGrow(s.gens[g].fired, AcceptedBy(s.accepted, g), more);
    }
  }

  lemma WorkerStretches(s: State, g: nat, gen: Generation)
    requires InStretches(s.gens, s.accepted) && g < |s.gens| && Cut(gen, s.accepted, g)
    ensures InStretches(WithGen(s, g, gen).gens, s.accepted)
  {
    var gens := WithGen(s, g, gen).gens;
    forall h | 0 <= h < |gens| ensures Cut(gens[h], s.accepted, h) {
      assert Cut(s.gens[h], s.accepted, h);
    }
  }

  lemma DispatchStretches(s: State, g: nat, offers: nat)
    requires InStretches(s.gens, s.accepted) && InOrder(s.gens, s.accepted)
    requires g < |s.gens| && s.gens[g].forming != []
    ensures Cut(Dispatched(s.gens[g], offers), s.accepted, g)
  {
    assert Cut(s.gens[g], s.accepted, g) && OrderedIn(s.gens[g], s.accepted, g);
    FrontIsStretch(s.gens[g].forming, s.gens[g].queue, AcceptedBy(s.accepted, g));
  }

  lemma FinishStretches(s: State, g: nat, i: nat)
    requires InStretches(s.gens, s.accepted) && g < |s.gens|
    requires i < |s.gens[g].inFlight| && i < |s.gens[g].owing|
    ensures Cut(FiredBatch(s.gens[g], i), s.accepted, g)
  {
    assert Cut(s.gens[g], s.accepted, g);
    var all, left := AcceptedBy(s.accepted, g), Without(s.gens[g].inFlight, i);
    forall j | 0 <= j < |left| ensures IsStretch(left[j], all) {
      assert left[j] == s.gens[g].inFlight[if j < i then j else j + 1];
    }
  }

  lemma StepStretches(cfg: Config, s: State, step: Step)
    requires Enabled(cfg, s, step) && InStretches(s.gens, s.accepted) && InOrder(s.gens, s.accepted)
    ensures InStretches(Apply(cfg, s, step).gens, Apply(cfg, s, step).accepted)
  {
    match step
    case Send(t) => DeliverStretches(s, t, Queued(Now(s), t));
    case HandOver(t) => DeliverStretches(s, t, HandedOver(Now(s), t));
    case CloseWork(t) =>
      var g := s.flushers[t].gen;
      assert Cut(s.gens[g], s.accepted, g);
      WorkerStretches(s, g, s.gens[g].(closed := true));
    case BeginStop =>
      assert Cut(Now(s), s.accepted, s.current);
      WorkerStretches(s, s.current, Now(s).(closed := true));
    case Take(g) =>
      assert Cut(s.gens[g], s.accepted, g);
      WorkerStretches(s, g, Took(s.gens[g]));
    case Dispatch(g, offers) =>
      DispatchStretches(s, g, offers);
      WorkerStretches(s, g, Dispatched(s.gens[g], offers));
    case OfferResponse(g, i, _) =>
      assert Cut(s.gens[g], s.accepted, g);
      WorkerStretches(s, g, OwingLess(s.gens[g], i));
    case FinishFire(g, i) =>
      FinishStretches(s, g, i);
      WorkerStretches(s, g, FiredBatch(s.gens[g], i));
    case _ =>
  }

  /** In every run each batch, in flight or fired, is not empty and holds consecutive
      events of its generation in the order in which they were accepted. */
  lemma {:induction false} BatchesAreStretches(cfg: Config, steps: seq<Step>)
    requires Run(cfg, steps).Some?
    ensures InStretches(Run(cfg, steps).value.gens, Run(cfg, steps).value.accepted)
  {
    if steps != [] {
      var front := steps[..|steps| - 1];
      BatchesAreStretches(cfg, front);
      NothingOvertakes(cfg, front);
      StepStretches(cfg, Run(cfg, front).value, steps[|steps| - 1]);
    }
  }

  // ---- responses ----

  /** How many responses a step commits a fire to, how many a fire offers in it, and how
      many enter and leave the response channel. */
  function Asked(step: Step): nat { if step.Dispatch? then step.offers else 0 }

  function Made(step: Step): nat { if step.OfferResponse? then 1 else 0 }

  function Entering(step: Step): nat
  {
    match step
    case OfferOverflow(_, Buffered) => 1
    case OfferResponse(_, _, Buffered) => 1
    case OfferSampled(Buffered) => 1
    case _ => 0
  }

  function Leaving(step: Step): nat { if step.ReadResponse? then 1 else 0 }

  function Owes(g: Generation): nat { Sum((n: nat) => n, g.owing) }

  lemma OwesUpdate(s: State, g: nat, gen: Generation)
    requires g < |s.gens|
    ensures Sum(Owes, WithGen(s, g, gen).gens) + Owes(s.gens[g]) == Sum(Owes, s.gens) + Owes(gen)
  {
    SumUpdate(Owes, s.gens, g, gen);
  }

  lemma WorkerOwes(cfg: Config, s: State, step: Step)
    requires Enabled(cfg, s, step) && (step.Take? || step.Dispatch? || step.OfferResponse? || step.FinishFire?)
    ensures Sum(Owes, Apply(cfg, s, step).gens) + Made(step) == Sum(Owes, s.gens) + Asked(step)
  {
    match step
    case Take(g) => OwesUpdate(s, g, Took(s.gens[g]));
    case Dispatch(g, offers) =>
      OwesUpdate(s, g, Dispatched(s.gens[g], offers));
      SumOneMore((n: nat) => n, s.gens[g].owing, offers);
    case OfferResponse(g, i, _) =>
      OwesUpdate(s, g, OwingLess(s.gens[g], i));
      SumUpdate((n: nat) => n, s.gens[g].owing, i, s.gens[g].owing[i] - 1);
    case FinishFire(g, i) =>
      OwesUpdate(s, g, FiredBatch(s.gens[g], i));
      SumWithout((n: nat) => n, s.gens[g].owing, i);
  }

  lemma StepOwes(cfg: Config, s: State, step: Step)
    requires Enabled(cfg, s, step)
    ensures Sum(Owes, Apply(cfg, s, step).gens) + Made(step) == Sum(Owes, s.gens) + Asked(step)
  {
    match step
    case Send(t) => OwesUpdate(s, s.current, Queued(Now(s), t));
    case HandOver(t) => OwesUpdate(s, s.current, HandedOver(Now(s), t));
    case BeginFlush => SumOneMore(Owes, s.gens, FRESH);
    case CloseWork(t) => OwesUpdate(s, s.flushers[t].gen, s.gens[s.flushers[t].gen].(closed := true));
    case BeginStop => OwesUpdate(s, s.current, Now(s).(closed := true));
    case Take(_) => WorkerOwes(cfg, s, step);
    case Dispatch(_, _) => WorkerOwes(cfg, s, step);
    case OfferResponse(_, _, _) => WorkerOwes(cfg, s, step);
    case FinishFire(_, _) => WorkerOwes(cfg, s, step);
    case _ => assert Apply(cfg, s, step).gens == s.gens;
  }

  lemma StepWaits(cfg: Config, s: State, step: Step)
    requires Enabled(cfg, s, step)
    ensures Apply(cfg, s, step).waiting + Leaving(step) == s.waiting + Entering(step)
  {
  }

  lemma {:induction false} NothingOwed(gens: seq<Generation>, accepted: seq<Entry>)
    requires Conserved(gens, accepted) && AllDrained(gens)
    ensures Sum(Owes, gens) == 0
  {
    if gens != [] {
      var n := |gens| - 1;
      assert KeepsAll(gens[n], accepted, n) && Drained(gens[n]);
      forall g | 0 <= g < n ensures KeepsAll(gens[..n][g], accepted, g) && Drained(gens[..n][g]) {
        assert KeepsAll(gens[g], accepted, g) && Drained(gens[g]);
      }
      NothingOwed(gens[..n], accepted);
    }
  }

  lemma {:induction false} TalliesAddUp(cfg: Config, steps: seq<Step>)
    requires Run(cfg, steps).Some?
    ensures var s := Run(cfg, steps).value;
            Sum(Asked, steps) == Sum(Made, steps) + Sum(Owes, s.gens) &&
            Sum(Entering, steps) == Sum(Leaving, steps) + s.waiting
  {
    if steps == [] {
      SumOneMore(Owes, [], FRESH);
      assert INIT.gens == [] + [FRESH];
    } else {
      var front, last := steps[..|steps| - 1], steps[|steps| - 1];
      TalliesAddUp(cfg, front);
      StepOwes(cfg, Run(cfg, front).value, last);
      StepWaits(cfg, Run(cfg, front).value, last);
    }
  }

  /** In every run: what fires were to offer is what they have offered and what they still
      owe, and what went into the response channel is what was read and what waits there.
      Once everything is drained, every response that a fire had to offer was offered. */
  lemma ResponsesAddUp(cfg: Config, steps: seq<Step>)
    requires Run(cfg, steps).Some?
    ensures var s := Run(cfg, steps).value;
            Sum(Asked, steps) == Sum(Made, steps) + Sum(Owes, s.gens) &&
            Sum(Entering, steps) == Sum(Leaving, steps) + s.waiting &&
            (AllDrained(s.gens) ==> Sum(Asked, steps) == Sum(Made, steps))
  {
    TalliesAddUp(cfg, steps);
    RunKeeps(cfg, steps);
    if AllDrained(Run(cfg, steps).value.gens) {
      NothingOwed(Run(cfg, steps).value.gens, Run(cfg, steps).value.accepted);
    }
  }

  // ---- a Flush that fails ----

  predicate NoWriter(fs: seq<Flusher>) { forall f :: f in fs ==> !IsWriter(f) }

  lemma SameFlushers(fs: seq<Flusher>, f: Flusher)
    requires f.pc == StartFailed
    ensures forall t :: 0 <= t < |fs| ==> (fs + [f])[t] == fs[t]
    ensures (fs + [f])[|fs|] == f
    ensures NoWriter(fs + [f]) <==> NoWriter(fs)
    ensures NoFlush(fs + [f]) <==> NoFlush(fs)
  {
    assert forall x :: x in fs + [f] <==> x in fs || x == f;
  }

  function WithFlush(s: State, f: Flusher): State { s.(flushers := s.flushers + [f]) }

  lemma SameLocks(cfg: Config, s: State, f: Flusher, next: Step)
    requires f.pc == StartFailed && (next.LockAdd? || next.LockFlush?)
    ensures Enabled(cfg, WithFlush(s, f), next) <==> Enabled(cfg, s, next)
  {
    SameFlushers(s.flushers, f);
    assert NoWriter(s.flushers + [f]) <==> NoWriter(s.flushers);
  }

  lemma SameStop(cfg: Config, s: State, f: Flusher)
    requires f.pc == StartFailed
    ensures Enabled(cfg, WithFlush(s, f), BeginStop) <==> Enabled(cfg, s, BeginStop)
  {
    SameFlushers(s.flushers, f);
    assert NoFlush(s.flushers + [f]) <==> NoFlush(s.flushers);
  }

  lemma SameFlushes(cfg: Config, s: State, f: Flusher, next: Step)
    requires f.pc == StartFailed && (next.Swap? || next.UnlockFlush? || next.CloseWork? || next.ReturnFlush?)
    ensures Enabled(cfg, WithFlush(s, f), next) <==> Enabled(cfg, s, next)
  {
    SameFlushers(s.flushers, f);
  }

  /** A flusher that never got going makes no difference. */
  lemma OverMakesNoDifference(cfg: Config, s: State, f: Flusher, next: Step)
    requires f.pc == StartFailed
    ensures Enabled(cfg, WithFlush(s, f), next) <==> Enabled(cfg, s, next)
  {
    match next
    case LockAdd(_) => SameLocks(cfg, s, f, next);
    case LockFlush(_) => SameLocks(cfg, s, f, next);
    case Swap(_) => SameFlushes(cfg, s, f, next);
    case UnlockFlush(_) => SameFlushes(cfg, s, f, next);
    case CloseWork(_) => SameFlushes(cfg, s, f, next);
    case ReturnFlush(_) => SameFlushes(cfg, s, f, next);
    case BeginStop => SameStop(cfg, s, f);
    case _ =>
  }

  /** In every run a Flush may fail to start its new client; it is then over, and nothing
      else has changed: whatever could happen still can, and nothing new can. */
  lemma FailedFlushIsHarmless(cfg: Config, steps: seq<Step>, next: Step)
    requires Run(cfg, steps).Some? && Run(cfg, steps).value.phase == Running
    ensures Run(cfg, steps + [FailFlush]).Some?
    ensures var s, s' := Run(cfg, steps).value, Run(cfg, steps + [FailFlush]).value;
            |s'.flushers| == |s.flushers| + 1 && s' == s.(flushers := s'.flushers) &&
            s'.flushers[..|s.flushers|] == s.flushers && !FlushActive(s'.flushers[|s.flushers|]) &&
            (Enabled(cfg, s', next) <==> Enabled(cfg, s, next))
  {
    StillThere(cfg, steps);
    var s := Run(cfg, steps).value;
    RunMore(cfg, steps, s, FailFlush);
    var failed := Flusher(StartFailed, 0, 0, false, 0);
    assert (s.flushers + [failed])[..|s.flushers|] == s.flushers;
    OverMakesNoDifference(cfg, s, failed, next);
  }

  lemma StillThere(cfg: Config, steps: seq<Step>)
    requires Run(cfg, steps).Some?
    ensures Run(cfg, steps).value.current < |Run(cfg, steps).value.gens|
  {
    RunKeeps(cfg, steps);
  }
}
