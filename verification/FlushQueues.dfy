/** When an Add is accepted and when it overflows, how far queues fill, and in which order
    they are emptied. */
module FlushQueues {
  import opened Bytes
  import opened Types
  import opened FlushProtocol
  import opened FlushGuarantees

  // ---- when an Add overflows ----

  /** No Add has been turned away, and none is about to be. */
  predicate NoneRejected(s: State)
  {
    s.overflowed == [] &&
    forall t :: 0 <= t < |s.adders| ==>
      s.adders[t].pc != Full && s.adders[t].pc != Offering && s.adders[t].pc != Overflowed
  }

  lemma StepRejectsNone(cfg: Config, s: State, step: Step)
    requires cfg.blockOnSend && Enabled(cfg, s, step) && NoneRejected(s)
    ensures NoneRejected(Apply(cfg, s, step))
  {
  }

  /** When sends block, no Add overflows, in any run. */
  lemma {:induction false} BlockingNeverOverflows(cfg: Config, steps: seq<Step>)
    requires cfg.blockOnSend && Run(cfg, steps).Some?
    ensures NoneRejected(Run(cfg, steps).value)
  {
    if steps != [] {
      var front := steps[..|steps| - 1];
      BlockingNeverOverflows(cfg, front);
      StepRejectsNone(cfg, Run(cfg, front).value, steps[|steps| - 1]);
    }
  }

  ghost predicate CanBecome(cfg: Config, s: State, t: nat, pc: AddPc)
  {
    exists step :: BecomesBy(cfg, s, step, t, pc)
  }

  predicate BecomesBy(cfg: Config, s: State, step: Step, t: nat, pc: AddPc)
  {
    Enabled(cfg, s, step) && AddAt(Apply(cfg, s, step), t, pc)
  }

  lemma OnlyReject(cfg: Config, s: State, t: nat)
    requires AddAt(s, t, Locked) && s.current < |s.gens|
    ensures CanBecome(cfg, s, t, Full) <==> !cfg.blockOnSend && |s.gens[s.current].queue| >= cfg.capacity
  {
    if !cfg.blockOnSend && |s.gens[s.current].queue| >= cfg.capacity {
      assert BecomesBy(cfg, s, Reject(t), t, Full);
    }
    forall step | BecomesBy(cfg, s, step, t, Full) ensures step == Reject(t) {
      FullByReject(cfg, s, step, t);
    }
  }

  lemma FullByReject(cfg: Config, s: State, step: Step, t: nat)
    requires AddAt(s, t, Locked) && BecomesBy(cfg, s, step, t, Full)
    ensures step == Reject(t)
  {
  }

  lemma OnlySends(cfg: Config, s: State, t: nat)
    requires AddAt(s, t, Locked) && s.current < |s.gens|
    ensures CanBecome(cfg, s, t, Sent) <==>
            |s.gens[s.current].queue| < cfg.capacity || s.gens[s.current].queue == []
  {
    if |s.gens[s.current].queue| < cfg.capacity {
      assert BecomesBy(cfg, s, Send(t), t, Sent);
    }
    if s.gens[s.current].queue == [] {
      assert BecomesBy(cfg, s, HandOver(t), t, Sent);
    }
    forall step | BecomesBy(cfg, s, step, t, Sent) ensures step == Send(t) || step == HandOver(t) {
      SentBySend(cfg, s, step, t);
    }
  }

  lemma SentBySend(cfg: Config, s: State, step: Step, t: nat)
    requires AddAt(s, t, Locked) && BecomesBy(cfg, s, step, t, Sent)
    ensures step == Send(t) || step == HandOver(t)
  {
  }

  /** In every run: an Add that holds the lock can be turned away if and only if sends do
      not block and the current queue is full; and it can be accepted if and only if
      there is room, or nothing queued and so a worker that may take it at once. */
  lemma RejectedIff(cfg: Config, steps: seq<Step>, t: nat)
    requires Run(cfg, steps).Some? && AddAt(Run(cfg, steps).value, t, Locked)
    ensures var s := Run(cfg, steps).value;
            s.current < |s.gens| &&
            (CanBecome(cfg, s, t, Full) <==> !cfg.blockOnSend && |s.gens[s.current].queue| >= cfg.capacity) &&
            (CanBecome(cfg, s, t, Sent) <==>
               |s.gens[s.current].queue| < cfg.capacity || s.gens[s.current].queue == [])
  {
    RunKeeps(cfg, steps);
    OnlyReject(cfg, Run(cfg, steps).value, t);
    OnlySends(cfg, Run(cfg, steps).value, t);
  }

  /** An Add that was turned away can lose its response if and only if responses do not
      block and twice the queue's capacity are waiting, can queue it just if fewer are, and
      can hand it to a reader just if one is there and nothing is waiting before it. */
  lemma DroppedIff(cfg: Config, steps: seq<Step>, t: nat)
    requires Run(cfg, steps).Some? && AddAt(Run(cfg, steps).value, t, Offering)
    ensures var s := Run(cfg, steps).value;
            (Enabled(cfg, s, OfferOverflow(t, Dropped)) <==> !cfg.blockOnResponse && s.waiting >= 2 * cfg.capacity) &&
            (Enabled(cfg, s, OfferOverflow(t, Buffered)) <==> s.waiting < 2 * cfg.capacity) &&
            (Enabled(cfg, s, OfferOverflow(t, HandedOn)) <==> s.reading && s.waiting == 0)
  {
    RunKeeps(cfg, steps);
  }

  // ---- a second Add into a full queue ----

  /** One event is queued, and a second Add is on its way. */
  function SecondAdd(e: Event, pc: AddPc): State
  {
    Added(e, 0, [], []).(adders := [Adder(e, Accepted), Adder(e, pc)])
  }

  lemma SecondAddFull(e: Event, r0: seq<Step>) returns (r: seq<Step>)
    requires Run(ONE_SLOT, r0) == Some(Added(e, 0, [], []))
    ensures Run(ONE_SLOT, r) == Some(SecondAdd(e, Offering))
  {
    RunTo(r0, Added(e, 0, [], []), BeginAdd(e), SecondAdd(e, Waiting));
    r := r0 + [BeginAdd(e)];
    RunTo(r, SecondAdd(e, Waiting), LockAdd(1), SecondAdd(e, Locked));
    r := r + [LockAdd(1)];
    RunTo(r, SecondAdd(e, Locked), Reject(1), SecondAdd(e, Full));
    r := r + [Reject(1)];
    RunTo(r, SecondAdd(e, Full), UnlockAdd(1), SecondAdd(e, Offering));
    r := r + [UnlockAdd(1)];
  }

  predicate SecondOverflowed(s: State)
  {
    AddAt(s, 0, Accepted) && AddAt(s, 1, Overflowed) && s.overflowed == [1] && s.accepted == [Entry(0, 0)] &&
    s.waiting == 1
  }

  /** With room for one event and no blocking, a second Add overflows, and its response is
      offered. */
  lemma SecondAddOverflows(e: Event)
    ensures ONE_SLOT.capacity == 1 && !ONE_SLOT.blockOnSend
    ensures exists r :: Run(ONE_SLOT, r).Some? && SecondOverflowed(Run(ONE_SLOT, r).value)
  {
    var r := AddOne(e);
    r := SecondAddFull(e, r);
    RunMore(ONE_SLOT, r, SecondAdd(e, Offering), OfferOverflow(1, Buffered));
    r := r + [OfferOverflow(1, Buffered)];
    assert Run(ONE_SLOT, r).Some?;
  }

  // ---- how far queues fill ----

  ghost predicate Bounded(cfg: Config, s: State)
  {
    s.waiting <= 2 * cfg.capacity && forall g :: 0 <= g < |s.gens| ==> |s.gens[g].queue| <= cfg.capacity
  }

  lemma StepBounds(cfg: Config, s: State, step: Step)
    requires Enabled(cfg, s, step) && Bounded(cfg, s)
    ensures Bounded(cfg, Apply(cfg, s, step))
  {
  }

  /** In every run each queue holds at most its capacity, and the response channel at most
      twice that. */
  lemma {:induction false} QueuesAreBounded(cfg: Config, steps: seq<Step>)
    requires Run(cfg, steps).Some?
    ensures Bounded(cfg, Run(cfg, steps).value)
  {
    if steps != [] {
      var front := steps[..|steps| - 1];
      QueuesAreBounded(cfg, front);
      StepBounds(cfg, Run(cfg, front).value, steps[|steps| - 1]);
    }
  }

  /** So many responses can wait in some run if and only if they are at most twice the
      capacity. */
  lemma WaitingIff(cfg: Config, k: nat)
    ensures (exists steps :: Run(cfg, steps).Some? && Run(cfg, steps).value.waiting == k) <==> k <= 2 * cfg.capacity
  {
    if k <= 2 * cfg.capacity {
      var steps := FillUnread(cfg, Event("", "", "", 0, 0), k);
      assert Run(cfg, steps).value.waiting == k;
    }
    forall steps | Run(cfg, steps).Some? && Run(cfg, steps).value.waiting == k ensures k <= 2 * cfg.capacity {
      QueuesAreBounded(cfg, steps);
    }
  }

  // ---- order ----

  predicate IsSuffix(w: seq<nat>, all: seq<nat>)
  {
    |w| <= |all| && all[|all| - |w|..] == w
  }

  /** What is forming and queued. */
  function NotDispatched(g: Generation): seq<nat> { g.forming + g.queue }

  ghost predicate InOrder(gens: seq<Generation>, accepted: seq<Entry>)
  {
    forall g :: 0 <= g < |gens| ==> OrderedIn(gens[g], accepted, g)
  }

  ghost predicate OrderedIn(gen: Generation, accepted: seq<Entry>, g: nat)
  {
    IsSuffix(NotDispatched(gen), AcceptedBy(accepted, g))
  }

  lemma SuffixGrows(w: seq<nat>, all: seq<nat>, t: nat)
    requires IsSuffix(w, all)
    ensures IsSuffix(w + [t], all + [t])
  {
    assert (all + [t])[|all| - |w|..] == all[|all| - |w|..] + [t];
  }

  lemma SuffixShrinks(w: seq<nat>, n: nat, all: seq<nat>)
    requires IsSuffix(w, all) && n <= |w|
    ensures IsSuffix(w[n..], all)
  {
    assert all[|all| - |w|..][n..] == all[|all| - |w| + n..];
  }

  lemma DeliverOrder(s: State, t: nat, gen: Generation)
    requires InOrder(s.gens, s.accepted) && s.current < |s.gens| && t < |s.adders|
    requires NotDispatched(gen) == NotDispatched(Now(s)) + [t]
    ensures InOrder(Deliver(s, t, gen).gens, Deliver(s, t, gen).accepted)
  {
    var s' := Deliver(s, t, gen);
    forall g | 0 <= g < |s'.gens| ensures OrderedIn(s'.gens[g], s'.accepted, g) {
      assert OrderedIn(s.gens[g], s.accepted, g);
      AcceptedByMore(s.accepted, Entry(t, s.current), g);
      if g == s.current {
        SuffixGrows(NotDispatched(s.gens[g]), AcceptedBy(s.accepted, g), t);
      } else {
        assert AcceptedBy(s.accepted, g) + [] == AcceptedBy(s.accepted, g);
      }
    }
  }

  lemma WorkerOrder(s: State, g: nat, gen: Generation, n: nat)
    requires InOrder(s.gens, s.accepted) && g < |s.gens| && n <= |NotDispatched(s.gens[g])|
    requires NotDispatched(gen) == NotDispatched(s.gens[g])[n..]
    ensures InOrder(WithGen(s, g, gen).gens, s.accepted)
  {
    var gens := WithGen(s, g, gen).gens;
    forall h | 0 <= h < |gens| ensures OrderedIn(gens[h], s.accepted, h) {
      assert OrderedIn(s.gens[h], s.accepted, h);
      if h == g {
        SuffixShrinks(NotDispatched(s.gens[g]), n, AcceptedBy(s.accepted, g));
      }
    }
  }

  lemma NewGenerationOrder(s: State)
    requires InOrder(s.gens, s.accepted)
    ensures InOrder(s.gens + [FRESH], s.accepted)
  {
    var gens := s.gens + [FRESH];
    forall g | 0 <= g < |gens| ensures OrderedIn(gens[g], s.accepted, g) {
      if g < |s.gens| {
        assert OrderedIn(s.gens[g], s.accepted, g);
      } else {
        assert NotDispatched(FRESH) == [];
      }
    }
  }

  lemma TookInOrder(g: Generation)
    requires g.queue != []
    ensures NotDispatched(Took(g)) == NotDispatched(g)
  {
    assert g.queue == [g.queue[0]] + g.queue[1..];
  }

  lemma StepOrder(cfg: Config, s: State, step: Step)
    requires Enabled(cfg, s, step) && InOrder(s.gens, s.accepted)
    ensures InOrder(Apply(cfg, s, step).gens, Apply(cfg, s, step).accepted)
  {
    match step
    case Send(t) =>
      assert NotDispatched(Queued(Now(s), t)) == NotDispatched(Now(s)) + [t];
      DeliverOrder(s, t, Queued(Now(s), t));
    case HandOver(t) =>
      assert NotDispatched(HandedOver(Now(s), t)) == NotDispatched(Now(s)) + [t];
      DeliverOrder(s, t, HandedOver(Now(s), t));
    case BeginFlush => NewGenerationOrder(s);
    case CloseWork(t) => WorkerOrder(s, s.flushers[t].gen, s.gens[s.flushers[t].gen].(closed := true), 0);
    case BeginStop => WorkerOrder(s, s.current, Now(s).(closed := true), 0);
    case Take(g) =>
      TookInOrder(s.gens[g]);
      WorkerOrder(s, g, Took(s.gens[g]), 0);
    case Dispatch(g, offers) =>
      assert NotDispatched(Dispatched(s.gens[g], offers)) == NotDispatched(s.gens[g])[|s.gens[g].forming|..];
      WorkerOrder(s, g, Dispatched(s.gens[g], offers), |s.gens[g].forming|);
    case OfferResponse(g, i, _) => WorkerOrder(s, g, OwingLess(s.gens[g], i), 0);
    case FinishFire(g, i) => WorkerOrder(s, g, FiredBatch(s.gens[g], i), 0);
    case _ =>
  }

  /** In every run what is queued and forming in a generation is the end of what it has
      accepted, in order: nothing overtakes on the way into a batch. */
  lemma {:induction false} NothingOvertakes(cfg: Config, steps: seq<Step>)
    requires Run(cfg, steps).Some?
    ensures InOrder(Run(cfg, steps).value.gens, Run(cfg, steps).value.accepted)
  {
    if steps != [] {
      var front := steps[..|steps| - 1];
      NothingOvertakes(cfg, front);
      StepOrder(cfg, Run(cfg, front).value, steps[|steps| - 1]);
    }
  }
}
