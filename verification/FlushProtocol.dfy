/** The generations of batching clients behind Add, Flush and Stop, as a state machine
    over the steps of any number of callers and of the clients' own workers. */
module FlushProtocol {
  import opened Bytes
  import opened Types
  import Packing

  /** What the transmission is configured with. */
  datatype Config = Config(capacity: nat, blockOnSend: bool, blockOnResponse: bool)

  /** The response channel has room for this many. */
  function Room(cfg: Config): nat { 2 * cfg.capacity }

  /** One batching client. Events are named by the Add call that brought them; `owing`
      says how many responses each fire in flight has still to offer. */
  datatype Generation = Generation(
    queue: seq<nat>,
    forming: seq<nat>,
    inFlight: seq<seq<nat>>,
    owing: seq<nat>,
    fired: seq<seq<nat>>,
    closed: bool)

  const FRESH := Generation([], [], [], [], [], false)

  datatype AddPc = Waiting | Locked | Sent | Full | Offering | Accepted | Overflowed

  datatype Adder = Adder(event: Event, pc: AddPc)

  datatype FlushPc = Created | Holding | Swapped | Released | Stopping | Returned | StartFailed

  /** A Flush call. `gen` is the generation in its hands: the new one until the swap,
      the retired one from then on. `mark` is the number of events accepted when it
      began, `solo` says that no other Flush has been under way at the same time, and
      `turn` is the number of swaps before its own. */
  datatype Flusher = Flusher(pc: FlushPc, gen: nat, mark: nat, solo: bool, turn: nat)

  datatype Phase = Running | Closing | Stopped

  /** The event of call `adder` was accepted by generation `gen`. */
  datatype Entry = Entry(adder: nat, gen: nat)

  /** `waiting` responses stand in the response channel, and `reading` says that its
      reader is taking them. */
  datatype State = State(
    gens: seq<Generation>,
    current: nat,
    adders: seq<Adder>,
    flushers: seq<Flusher>,
    accepted: seq<Entry>,
    overflowed: seq<nat>,
    phase: Phase,
    panicked: bool,
    waiting: nat,
    reading: bool,
    swaps: nat)

  const INIT := State([FRESH], 0, [], [], [], [], Running, false, 0, true, 0)

  /** What becomes of an offered response: it goes into the channel, straight to a
      waiting reader, or nowhere. */
  datatype Fate = Buffered | HandedOn | Dropped

  datatype Step =
    | BeginAdd(event: Event)
    | LockAdd(t: nat)
    | Send(t: nat)
    | HandOver(t: nat)
    | Reject(t: nat)
    | UnlockAdd(t: nat)
    | OfferOverflow(t: nat, fate: Fate)
    | BeginFlush
    | FailFlush
    | LockFlush(t: nat)
    | Swap(t: nat)
    | UnlockFlush(t: nat)
    | CloseWork(t: nat)
    | ReturnFlush(t: nat)
    | Take(g: nat)
    | Dispatch(g: nat, offers: nat)
    | OfferResponse(g: nat, i: nat, fate: Fate)
    | FinishFire(g: nat, i: nat)
    | OfferSampled(fate: Fate)
    | ReadResponse
    | Reader(on: bool)
    | BeginStop
    | ReturnStop

  // ---- roles ----

  predicate IsReader(a: Adder) { a.pc in {Locked, Sent, Full} }

  predicate IsWriter(f: Flusher) { f.pc in {Holding, Swapped} }

  predicate AddActive(a: Adder) { a.pc !in {Accepted, Overflowed} }

  predicate FlushActive(f: Flusher) { f.pc !in {Returned, StartFailed} }

  predicate NoFlush(fs: seq<Flusher>) { forall f :: f in fs ==> !FlushActive(f) }

  predicate Owner(f: Flusher) { f.pc != StartFailed }

  predicate HasSwapped(f: Flusher) { f.pc in {Swapped, Released, Stopping, Returned} }

  predicate BeforeSwap(f: Flusher) { f.pc in {Created, Holding} }

  predicate Quiet(s: State)
  {
    (forall a :: a in s.adders ==> !AddActive(a)) && (forall f :: f in s.flushers ==> !FlushActive(f))
  }

  predicate Drained(g: Generation) { g.queue == [] && g.forming == [] && g.inFlight == [] }

  predicate Finished(g: Generation) { g.closed && Drained(g) }

  function Now(s: State): Generation
    requires s.current < |s.gens|
  {
    s.gens[s.current]
  }

  // ---- steps ----

  predicate AddAt(s: State, t: nat, pc: AddPc) { t < |s.adders| && s.adders[t].pc == pc }

  predicate FlushAt(s: State, t: nat, pc: FlushPc) { t < |s.flushers| && s.flushers[t].pc == pc }

  /** An offer waits when the channel is full, unless it may be dropped. */
  predicate CanOffer(cfg: Config, s: State, fate: Fate)
  {
    match fate
    case Buffered => s.waiting < Room(cfg)
    case HandedOn => s.reading && s.waiting == 0
    case Dropped => !cfg.blockOnResponse && s.waiting >= Room(cfg)
  }

  /** When a step can happen. Nothing here asks whether a channel is still open: using
      a closed one is a step that panics. */
  predicate Enabled(cfg: Config, s: State, step: Step)
  {
    s.current < |s.gens| &&
    match step
    case BeginAdd(_) => s.phase == Running
    case LockAdd(t) => AddAt(s, t, Waiting) && forall f :: f in s.flushers ==> !IsWriter(f)
    case Send(t) => AddAt(s, t, Locked) && |Now(s).queue| < cfg.capacity
    case HandOver(t) => AddAt(s, t, Locked) && Now(s).queue == []
    case Reject(t) => AddAt(s, t, Locked) && !cfg.blockOnSend && |Now(s).queue| >= cfg.capacity
    case UnlockAdd(t) => AddAt(s, t, Sent) || AddAt(s, t, Full)
    case OfferOverflow(t, fate) => AddAt(s, t, Offering) && CanOffer(cfg, s, fate)
    case BeginFlush => s.phase == Running
    case FailFlush => s.phase == Running
    case LockFlush(t) =>
      FlushAt(s, t, Created) &&
      (forall f :: f in s.flushers ==> !IsWriter(f)) && (forall a :: a in s.adders ==> !IsReader(a))
    case Swap(t) => FlushAt(s, t, Holding)
    case UnlockFlush(t) => FlushAt(s, t, Swapped)
    case CloseWork(t) => FlushAt(s, t, Released) && s.flushers[t].gen < |s.gens|
    case ReturnFlush(t) =>
      FlushAt(s, t, Stopping) && s.flushers[t].gen < |s.gens| && Drained(s.gens[s.flushers[t].gen])
    case Take(g) => g < |s.gens| && s.gens[g].queue != []
    case Dispatch(g, offers) =>
      g < |s.gens| && s.gens[g].forming != [] && offers <= Packing.FIRINGS_PER_BUCKET * |s.gens[g].forming|
    case OfferResponse(g, i, fate) =>
      g < |s.gens| && i < |s.gens[g].owing| && s.gens[g].owing[i] > 0 && CanOffer(cfg, s, fate)
    case FinishFire(g, i) =>
      g < |s.gens| && i < |s.gens[g].inFlight| && i < |s.gens[g].owing| && s.gens[g].owing[i] == 0
    case OfferSampled(fate) => s.phase == Running && CanOffer(cfg, s, fate)
    case ReadResponse => s.reading && s.waiting > 0
    case Reader(_) => true
    case BeginStop => s.phase == Running && Quiet(s)
    case ReturnStop => s.phase == Closing && Drained(Now(s))
  }

  function WithAdder(s: State, t: nat, pc: AddPc): State
    requires t < |s.adders|
  {
    s.(adders := s.adders[t := s.adders[t].(pc := pc)])
  }

  function WithFlusher(s: State, t: nat, pc: FlushPc): State
    requires t < |s.flushers|
  {
    s.(flushers := s.flushers[t := s.flushers[t].(pc := pc)])
  }

  function WithGen(s: State, g: nat, gen: Generation): State
    requires g < |s.gens|
  {
    s.(gens := s.gens[g := gen])
  }

  /** A send on the current Work channel, into its buffer or straight to the worker. */
  function Deliver(s: State, t: nat, gen: Generation): State
    requires s.current < |s.gens| && t < |s.adders|
  {
    WithAdder(WithGen(s, s.current, gen), t, Sent).(
      accepted := s.accepted + [Entry(t, s.current)],
      panicked := s.panicked || Now(s).closed)
  }

  function Queued(g: Generation, t: nat): Generation { g.(queue := g.queue + [t]) }

  function HandedOver(g: Generation, t: nat): Generation { g.(forming := g.forming + [t]) }

  /** Closing the Work channel of a generation. */
  function Close(s: State, g: nat): State
    requires g < |s.gens|
  {
    WithGen(s, g, s.gens[g].(closed := true)).(panicked := s.panicked || s.gens[g].closed)
  }

  function Without<T>(xs: seq<T>, i: nat): seq<T>
    requires i < |xs|
  {
    xs[..i] + xs[i + 1..]
  }

  /** The worker takes the next event into the batch that is forming. */
  function Took(g: Generation): Generation
    requires g.queue != []
  {
    g.(queue := g.queue[1..], forming := g.forming + [g.queue[0]])
  }

  /** The worker sends the forming batch off to be fired, which will offer so many
      responses. */
  function Dispatched(g: Generation, offers: nat): Generation
  {
    g.(forming := [], inFlight := g.inFlight + [g.forming], owing := g.owing + [offers])
  }

  /** The i-th fire in flight has offered one response more. */
  function OwingLess(g: Generation, i: nat): Generation
    requires i < |g.owing| && g.owing[i] > 0
  {
    g.(owing := g.owing[i := g.owing[i] - 1])
  }

  /** A batch has been fired, and all its responses are offered. */
  function FiredBatch(g: Generation, i: nat): Generation
    requires i < |g.inFlight| && i < |g.owing|
  {
    g.(inFlight := Without(g.inFlight, i), owing := Without(g.owing, i), fired := g.fired + [g.inFlight[i]])
  }

  function AfterOffer(s: State, fate: Fate): State
  {
    s.(waiting := s.waiting + (if fate == Buffered then 1 else 0), panicked := s.panicked || s.phase == Stopped)
  }

  /** The flusher after its swap. */
  function AfterSwap(f: Flusher, current: nat, swaps: nat): Flusher
  {
    f.(pc := Swapped, gen := current, turn := swaps)
  }

  function NotSolo(f: Flusher): Flusher
  {
    if FlushActive(f) then f.(solo := false) else f
  }

  function AllNotSolo(fs: seq<Flusher>): (r: seq<Flusher>)
    ensures |r| == |fs|
  {
    seq(|fs|, i requires 0 <= i < |fs| => NotSolo(fs[i]))
  }

  function Apply(cfg: Config, s: State, step: Step): State
    requires Enabled(cfg, s, step)
  {
    match step
    case BeginAdd(e) => s.(adders := s.adders + [Adder(e, Waiting)])
    case LockAdd(t) => WithAdder(s, t, Locked)
    case Send(t) => Deliver(s, t, Queued(Now(s), t))
    case HandOver(t) => Deliver(s, t, HandedOver(Now(s), t))
    case Reject(t) => WithAdder(s, t, Full)
    case UnlockAdd(t) => WithAdder(s, t, if s.adders[t].pc == Sent then Accepted else Offering)
    case OfferOverflow(t, fate) => AfterOffer(WithAdder(s, t, Overflowed).(overflowed := s.overflowed + [t]), fate)
    case BeginFlush =>
      s.(gens := s.gens + [FRESH],
         flushers := AllNotSolo(s.flushers) +
                     [Flusher(Created, |s.gens|, |s.accepted|, NoFlush(s.flushers), 0)])
    case FailFlush => s.(flushers := s.flushers + [Flusher(StartFailed, 0, 0, false, 0)])
    case LockFlush(t) => WithFlusher(s, t, Holding)
    case Swap(t) =>
      s.(current := s.flushers[t].gen,
         flushers := s.flushers[t := AfterSwap(s.flushers[t], s.current, s.swaps)],
         swaps := s.swaps + 1)
    case UnlockFlush(t) => WithFlusher(s, t, Released)
    case CloseWork(t) => WithFlusher(Close(s, s.flushers[t].gen), t, Stopping)
    case ReturnFlush(t) => WithFlusher(s, t, Returned)
    case Take(g) => WithGen(s, g, Took(s.gens[g]))
    case Dispatch(g, offers) => WithGen(s, g, Dispatched(s.gens[g], offers))
    case OfferResponse(g, i, fate) => AfterOffer(WithGen(s, g, OwingLess(s.gens[g], i)), fate)
    case FinishFire(g, i) => WithGen(s, g, FiredBatch(s.gens[g], i))
    case OfferSampled(fate) => AfterOffer(s, fate)
    case ReadResponse => s.(waiting := s.waiting - 1)
    case Reader(on) => s.(reading := on)
    case BeginStop => Close(s, s.current).(phase := Closing)
    case ReturnStop => s.(phase := Stopped)
  }

  // ---- what every step keeps ----

  function Flat(batches: seq<seq<nat>>): seq<nat>
  {
    if batches == [] then [] else Flat(batches[..|batches| - 1]) + batches[|batches| - 1]
  }

  /** The calls whose events are somewhere in a generation. */
  function Content(g: Generation): multiset<nat>
  {
    multiset(g.queue) + multiset(g.forming) + multiset(Flat(g.inFlight)) + multiset(Flat(g.fired))
  }

  function AcceptedBy(entries: seq<Entry>, g: nat): seq<nat>
  {
    if entries == [] then []
    else
      var n := |entries| - 1;
      AcceptedBy(entries[..n], g) + (if entries[n].gen == g then [entries[n].adder] else [])
  }

  /** The lock: one writer at a time, and no readers beside it. */
  ghost predicate Locks(fs: seq<Flusher>, adders: seq<Adder>)
  {
    (forall i, j :: 0 <= i < j < |fs| ==> !(IsWriter(fs[i]) && IsWriter(fs[j]))) &&
    (forall i, t :: 0 <= i < |fs| && 0 <= t < |adders| ==> !(IsWriter(fs[i]) && IsReader(adders[t])))
  }

  ghost predicate OwnedBy(fs: seq<Flusher>, g: nat, i: nat)
  {
    i < |fs| && Owner(fs[i]) && fs[i].gen == g
  }

  ghost predicate Owned(fs: seq<Flusher>, g: nat)
  {
    exists i: nat :: OwnedBy(fs, g, i)
  }

  /** Each of the n generations is the current one or in the hands of exactly one Flush. */
  ghost predicate Ownership(n: nat, current: nat, fs: seq<Flusher>)
  {
    current < n &&
    (forall i :: 0 <= i < |fs| && Owner(fs[i]) ==> fs[i].gen < n && fs[i].gen != current) &&
    (forall i, j :: 0 <= i < j < |fs| && Owner(fs[i]) && Owner(fs[j]) ==> fs[i].gen != fs[j].gen) &&
    (forall g :: 0 <= g < n && g != current ==> Owned(fs, g))
  }

  predicate StageOk(f: Flusher, g: Generation)
  {
    match f.pc
    case Created => g == FRESH
    case Holding => g == FRESH
    case Swapped => !g.closed
    case Released => !g.closed
    case Stopping => g.closed
    case Returned => Finished(g)
    case StartFailed => true
  }

  ghost predicate Stages(gens: seq<Generation>, current: nat, fs: seq<Flusher>, phase: Phase)
    requires Ownership(|gens|, current, fs)
  {
    (gens[current].closed <==> phase != Running) &&
    forall i :: 0 <= i < |fs| && Owner(fs[i]) ==> StageOk(fs[i], gens[fs[i].gen])
  }

  ghost predicate KeepsAll(gen: Generation, accepted: seq<Entry>, g: nat)
  {
    multiset(AcceptedBy(accepted, g)) == Content(gen) && |gen.inFlight| == |gen.owing|
  }

  /** Every generation holds exactly the events that it accepted. */
  ghost predicate Conserved(gens: seq<Generation>, accepted: seq<Entry>)
  {
    forall g :: 0 <= g < |gens| ==> KeepsAll(gens[g], accepted, g)
  }

  predicate WasAccepted(a: Adder) { a.pc in {Sent, Accepted} }

  predicate EntryFor(accepted: seq<Entry>, t: nat, i: nat) { i < |accepted| && accepted[i].adder == t }

  ghost predicate HasEntry(accepted: seq<Entry>, t: nat)
  {
    exists i: nat :: EntryFor(accepted, t, i)
  }

  predicate EntryOk(n: nat, adders: seq<Adder>, e: Entry)
  {
    e.gen < n && e.adder < |adders| && WasAccepted(adders[e.adder])
  }

  /** Accepted calls and entries correspond one to one. */
  ghost predicate Entries(n: nat, adders: seq<Adder>, accepted: seq<Entry>)
  {
    (forall i :: 0 <= i < |accepted| ==> EntryOk(n, adders, accepted[i])) &&
    (forall i, j :: 0 <= i < j < |accepted| ==> accepted[i].adder != accepted[j].adder) &&
    (forall t :: 0 <= t < |adders| && WasAccepted(adders[t]) ==> HasEntry(accepted, t))
  }

  predicate OverflowAt(adders: seq<Adder>, t: nat) { t < |adders| && adders[t].pc == Overflowed }

  /** Overflowed calls and the responses offered for them correspond one to one. */
  ghost predicate Overflows(adders: seq<Adder>, overflowed: seq<nat>)
  {
    (forall i :: 0 <= i < |overflowed| ==> OverflowAt(adders, overflowed[i])) &&
    (forall i, j :: 0 <= i < j < |overflowed| ==> overflowed[i] != overflowed[j]) &&
    (forall t: nat :: OverflowAt(adders, t) ==> t in overflowed)
  }

  /** The generation that a Flush is to retire. */
  function Retiring(current: nat, f: Flusher): nat
  {
    if BeforeSwap(f) then current else f.gen
  }

  /** An entry from before a Flush began is either in the generation which that Flush
      retires, or in a finished one. */
  ghost predicate Settled(gens: seq<Generation>, current: nat, f: Flusher, e: Entry)
  {
    e.gen < |gens| && (Finished(gens[e.gen]) || (FlushActive(f) && e.gen == Retiring(current, f)))
  }

  ghost predicate MarkOk(gens: seq<Generation>, current: nat, f: Flusher, accepted: seq<Entry>)
  {
    f.mark <= |accepted| &&
    (f.solo ==> forall k :: 0 <= k < f.mark ==> Settled(gens, current, f, accepted[k]))
  }

  ghost predicate Marks(gens: seq<Generation>, current: nat, fs: seq<Flusher>, accepted: seq<Entry>)
  {
    forall i :: 0 <= i < |fs| ==> MarkOk(gens, current, fs[i], accepted)
  }

  /** A Flush that is under way and still counts as solo is the only one under way. */
  ghost predicate Solos(fs: seq<Flusher>)
  {
    forall i, j :: 0 <= i < |fs| && 0 <= j < |fs| && i != j ==>
      !(fs[i].solo && FlushActive(fs[i]) && FlushActive(fs[j]))
  }

  ghost predicate AllDrained(gens: seq<Generation>)
  {
    forall g :: 0 <= g < |gens| ==> Drained(gens[g])
  }

  ghost predicate Phases(s: State)
  {
    (s.phase != Running ==> Quiet(s)) && (s.phase == Stopped ==> AllDrained(s.gens))
  }

  ghost predicate Inv(s: State)
  {
    !s.panicked && Locks(s.flushers, s.adders) &&
    Ownership(|s.gens|, s.current, s.flushers) && Stages(s.gens, s.current, s.flushers, s.phase) &&
    Conserved(s.gens, s.accepted) && Entries(|s.gens|, s.adders, s.accepted) &&
    Overflows(s.adders, s.overflowed) &&
    Marks(s.gens, s.current, s.flushers, s.accepted) && Solos(s.flushers) && Phases(s)
  }

  // ---- single parts under single changes ----

  lemma ActiveMeansRunning(s: State)
    requires Phases(s)
    ensures forall t :: 0 <= t < |s.adders| && AddActive(s.adders[t]) ==> s.phase == Running
    ensures forall t :: 0 <= t < |s.flushers| && FlushActive(s.flushers[t]) ==> s.phase == Running
  {
  }

  /** A caller of Add goes on without changing whether its event was accepted or its
      overflow offered, and takes the lock only when no Flush holds it. */
  lemma AdderMoves(s: State, t: nat, pc: AddPc)
    requires Inv(s) && t < |s.adders|
    requires var a := s.adders[t];
             AddActive(a) && (WasAccepted(a) <==> pc in {Sent, Accepted}) && pc != Overflowed &&
             (pc in {Locked, Sent, Full} ==> IsReader(a) || forall f :: f in s.flushers ==> !IsWriter(f))
    ensures Inv(WithAdder(s, t, pc))
  {
    var s' := WithAdder(s, t, pc);
    ActiveMeansRunning(s);
    assert Overflows(s'.adders, s'.overflowed) by {
      assert forall u: nat :: OverflowAt(s'.adders, u) <==> OverflowAt(s.adders, u);
    }
    assert Entries(|s'.gens|, s'.adders, s'.accepted) by {
      forall i | 0 <= i < |s.accepted| ensures EntryOk(|s.gens|, s'.adders, s.accepted[i]) {
        assert EntryOk(|s.gens|, s.adders, s.accepted[i]);
      }
    }
  }

  lemma DeliverContent(g: Generation, t: nat)
    ensures Content(Queued(g, t)) == Content(g) + multiset{t} == Content(HandedOver(g, t))
  {
  }

  lemma AcceptedByMore(entries: seq<Entry>, e: Entry, g: nat)
    ensures AcceptedBy(entries + [e], g) == AcceptedBy(entries, g) + (if e.gen == g then [e.adder] else [])
  {
    assert (entries + [e])[..|entries|] == entries;
  }

  lemma DeliverKeepsEntries(s: State, t: nat)
    requires Inv(s) && AddAt(s, t, Locked)
    ensures var adders := s.adders[t := s.adders[t].(pc := Sent)];
            Entries(|s.gens|, adders, s.accepted + [Entry(t, s.current)]) && Overflows(adders, s.overflowed)
  {
    var adders := s.adders[t := s.adders[t].(pc := Sent)];
    var accepted := s.accepted + [Entry(t, s.current)];
    assert forall u: nat :: OverflowAt(adders, u) <==> OverflowAt(s.adders, u);
    forall i | 0 <= i < |accepted| ensures EntryOk(|s.gens|, adders, accepted[i]) {
      if i < |s.accepted| {
        assert EntryOk(|s.gens|, s.adders, s.accepted[i]);
      }
    }
    forall i, j | 0 <= i < j < |accepted| ensures accepted[i].adder != accepted[j].adder {
      if j == |s.accepted| {
        assert EntryOk(|s.gens|, s.adders, s.accepted[i]);
      }
    }
    forall u | 0 <= u < |adders| && WasAccepted(adders[u]) ensures HasEntry(accepted, u) {
      if u == t {
        assert EntryFor(accepted, u, |s.accepted|);
      } else {
        assert HasEntry(s.accepted, u);
        var i: nat :| EntryFor(s.accepted, u, i);
        assert EntryFor(accepted, u, i);
      }
    }
  }

  lemma DeliverKeepsLocks(fs: seq<Flusher>, adders: seq<Adder>, t: nat)
    requires Locks(fs, adders) && t < |adders| && adders[t].pc == Locked
    ensures Locks(fs, adders[t := adders[t].(pc := Sent)])
  {
  }

  /** A change inside an open-ended generation is no change of stage. */
  lemma StagesWith(gens: seq<Generation>, current: nat, fs: seq<Flusher>, phase: Phase, g: nat, gen: Generation)
    requires Ownership(|gens|, current, fs) && Stages(gens, current, fs, phase)
    requires g < |gens| && gen.closed == gens[g].closed && (g == current || !Drained(gens[g]))
    ensures Stages(gens[g := gen], current, fs, phase)
  {
    forall i | 0 <= i < |fs| && Owner(fs[i]) ensures StageOk(fs[i], gens[g := gen][fs[i].gen]) {
      assert StageOk(fs[i], gens[fs[i].gen]);
    }
  }

  /** The event enters the current generation, which is open. */
  lemma DeliverKeeps(s: State, t: nat, gen: Generation)
    requires Inv(s) && AddAt(s, t, Locked) && Moves(Now(s), gen, multiset{t})
    ensures Inv(Deliver(s, t, gen))
  {
    ActiveMeansRunning(s);
    DeliverKeepsLocks(s.flushers, s.adders, t);
    StagesWith(s.gens, s.current, s.flushers, s.phase, s.current, gen);
    DeliverKeepsEntries(s, t);
    DeliverKeepsContent(s, t, gen);
    DeliverKeepsMarks(s, t, gen);
  }

  /** A generation moves its events on, with some new ones. */
  predicate Moves(g: Generation, g': Generation, added: multiset<nat>)
  {
    Content(g') == Content(g) + added && g'.closed == g.closed &&
    (|g.inFlight| == |g.owing| ==> |g'.inFlight| == |g'.owing|)
  }

  lemma DeliverKeepsContent(s: State, t: nat, gen: Generation)
    requires Inv(s) && AddAt(s, t, Locked) && Moves(Now(s), gen, multiset{t})
    ensures Conserved(s.gens[s.current := gen], s.accepted + [Entry(t, s.current)])
  {
    var gens, accepted := s.gens[s.current := gen], s.accepted + [Entry(t, s.current)];
    forall g | 0 <= g < |gens| ensures KeepsAll(gens[g], accepted, g) {
      assert KeepsAll(s.gens[g], s.accepted, g);
      AcceptedByMore(s.accepted, Entry(t, s.current), g);
    }
  }

  lemma DeliverKeepsMarks(s: State, t: nat, gen: Generation)
    requires Inv(s) && AddAt(s, t, Locked) && s.phase == Running
    ensures Marks(s.gens[s.current := gen], s.current, s.flushers, s.accepted + [Entry(t, s.current)])
  {
    var gens, accepted := s.gens[s.current := gen], s.accepted + [Entry(t, s.current)];
    forall i | 0 <= i < |s.flushers| ensures MarkOk(gens, s.current, s.flushers[i], accepted) {
      assert MarkOk(s.gens, s.current, s.flushers[i], s.accepted);
      var f := s.flushers[i];
      forall k | 0 <= k < f.mark && f.solo ensures Settled(gens, s.current, f, accepted[k]) {
        assert Settled(s.gens, s.current, f, s.accepted[k]);
      }
    }
  }

  lemma WorkerKeepsContent(gens: seq<Generation>, accepted: seq<Entry>, g: nat, gen: Generation)
    requires Conserved(gens, accepted) && g < |gens| && Moves(gens[g], gen, multiset{})
    ensures Conserved(gens[g := gen], accepted)
  {
    var gens' := gens[g := gen];
    forall h | 0 <= h < |gens'| ensures KeepsAll(gens'[h], accepted, h) {
      assert KeepsAll(gens[h], accepted, h);
    }
  }

  /** A worker moves events on inside a generation that is not drained. */
  lemma WorkerKeeps(s: State, g: nat, gen: Generation)
    requires Inv(s) && g < |s.gens| && !Drained(s.gens[g]) && Moves(s.gens[g], gen, multiset{})
    ensures Inv(WithGen(s, g, gen)) && s.phase != Stopped
  {
    WorkerKeepsContent(s.gens, s.accepted, g, gen);
    FinishedStay(s.gens, s.gens[g := gen], s.current, s.flushers, s.accepted);
    StagesWith(s.gens, s.current, s.flushers, s.phase, g, gen);
  }

  predicate StaysFinished(g: Generation, g': Generation) { Finished(g) ==> Finished(g') }

  lemma FinishedStay(gens: seq<Generation>, gens': seq<Generation>, current: nat, fs: seq<Flusher>,
                     accepted: seq<Entry>)
    requires Marks(gens, current, fs, accepted) && |gens| <= |gens'|
    requires forall g :: 0 <= g < |gens| ==> StaysFinished(gens[g], gens'[g])
    ensures Marks(gens', current, fs, accepted)
  {
    forall i | 0 <= i < |fs| ensures MarkOk(gens', current, fs[i], accepted) {
      assert MarkOk(gens, current, fs[i], accepted);
      forall k | 0 <= k < fs[i].mark && fs[i].solo ensures Settled(gens', current, fs[i], accepted[k]) {
        assert Settled(gens, current, fs[i], accepted[k]);
      }
    }
  }

  /** A Flush that is under way, and stays so with its generation, keeps its mark. */
  lemma MarksStay(gens: seq<Generation>, current: nat, fs: seq<Flusher>, t: nat, f: Flusher, accepted: seq<Entry>)
    requires Marks(gens, current, fs, accepted) && t < |fs|
    requires FlushActive(f) && f.mark == fs[t].mark && f.solo == fs[t].solo
    requires Retiring(current, f) == Retiring(current, fs[t])
    ensures Marks(gens, current, fs[t := f], accepted)
  {
    var fs' := fs[t := f];
    forall i | 0 <= i < |fs'| ensures MarkOk(gens, current, fs'[i], accepted) {
      assert MarkOk(gens, current, fs[i], accepted);
      if i == t {
        forall k | 0 <= k < f.mark && f.solo ensures Settled(gens, current, f, accepted[k]) {
          assert Settled(gens, current, fs[t], accepted[k]);
        }
      }
    }
  }

  /** A Flush goes on with the generation it has. */
  lemma FlusherMoves(s: State, t: nat, pc: FlushPc)
    requires Inv(s) && t < |s.flushers| && FlushActive(s.flushers[t]) && pc !in {Returned, StartFailed}
    requires BeforeSwap(s.flushers[t]) <==> pc in {Created, Holding}
    requires pc == Holding ==>
               (forall f :: f in s.flushers ==> !IsWriter(f)) && (forall a :: a in s.adders ==> !IsReader(a))
    requires pc == Swapped ==> IsWriter(s.flushers[t])
    requires StageOk(s.flushers[t].(pc := pc), s.gens[s.flushers[t].gen])
    ensures Inv(WithFlusher(s, t, pc))
  {
    var s' := WithFlusher(s, t, pc);
    ActiveMeansRunning(s);
    OwnersStay(|s.gens|, s.current, s.flushers, t, s'.flushers[t]);
    MarksStay(s.gens, s.current, s.flushers, t, s'.flushers[t], s.accepted);
  }

  lemma OwnersStay(n: nat, current: nat, fs: seq<Flusher>, t: nat, f: Flusher)
    requires Ownership(n, current, fs) && t < |fs|
    requires Owner(f) && Owner(fs[t]) && f.gen == fs[t].gen
    ensures Ownership(n, current, fs[t := f])
  {
    var fs' := fs[t := f];
    forall g | 0 <= g < n && g != current ensures Owned(fs', g) {
      assert Owned(fs, g);
      var i: nat :| OwnedBy(fs, g, i);
      assert OwnedBy(fs', g, i);
    }
  }

  // ---- every step keeps the invariant ----

  lemma BeginAddKeeps(cfg: Config, s: State, e: Event)
    requires Inv(s) && Enabled(cfg, s, BeginAdd(e))
    ensures Inv(Apply(cfg, s, BeginAdd(e)))
  {
    var s' := Apply(cfg, s, BeginAdd(e));
    assert forall u: nat :: OverflowAt(s'.adders, u) <==> OverflowAt(s.adders, u);
    forall i | 0 <= i < |s.accepted| ensures EntryOk(|s.gens|, s'.adders, s.accepted[i]) {
      assert EntryOk(|s.gens|, s.adders, s.accepted[i]);
    }
  }

  lemma OneMoreOverflow(s: State, t: nat)
    requires Inv(s) && AddAt(s, t, Offering)
    ensures var adders := s.adders[t := s.adders[t].(pc := Overflowed)];
            Overflows(adders, s.overflowed + [t]) && Entries(|s.gens|, adders, s.accepted)
  {
    var adders, overflowed := s.adders[t := s.adders[t].(pc := Overflowed)], s.overflowed + [t];
    assert forall u: nat :: OverflowAt(adders, u) <==> OverflowAt(s.adders, u) || u == t;
    assert overflowed[|s.overflowed|] == t;
    assert forall u :: u in s.overflowed ==> u in overflowed;
    forall i | 0 <= i < |s.accepted| ensures EntryOk(|s.gens|, adders, s.accepted[i]) {
      assert EntryOk(|s.gens|, s.adders, s.accepted[i]);
    }
  }

  lemma OfferOverflowKeeps(cfg: Config, s: State, t: nat, fate: Fate)
    requires Inv(s) && Enabled(cfg, s, OfferOverflow(t, fate))
    ensures Inv(Apply(cfg, s, OfferOverflow(t, fate)))
  {
    ActiveMeansRunning(s);
    OneMoreOverflow(s, t);
  }

  predicate NoneSolo(fs: seq<Flusher>)
  {
    forall i :: 0 <= i < |fs| ==> !(fs[i].solo && FlushActive(fs[i]))
  }

  lemma NotSoloKeeps(s: State, fs: seq<Flusher>)
    requires Inv(s) && |fs| == |s.flushers|
    requires forall i :: 0 <= i < |fs| ==> fs[i] == NotSolo(s.flushers[i])
    ensures Locks(fs, s.adders) && Ownership(|s.gens|, s.current, fs)
    ensures Stages(s.gens, s.current, fs, s.phase) && Marks(s.gens, s.current, fs, s.accepted)
    ensures NoneSolo(fs)
  {
    forall g | 0 <= g < |s.gens| && g != s.current ensures Owned(fs, g) {
      assert Owned(s.flushers, g);
      var i: nat :| OwnedBy(s.flushers, g, i);
      assert OwnedBy(fs, g, i);
    }
    forall i | 0 <= i < |fs| && Owner(fs[i]) ensures StageOk(fs[i], s.gens[fs[i].gen]) {
      assert StageOk(s.flushers[i], s.gens[s.flushers[i].gen]);
    }
    forall i | 0 <= i < |fs| ensures MarkOk(s.gens, s.current, fs[i], s.accepted) {
      assert MarkOk(s.gens, s.current, s.flushers[i], s.accepted);
      forall k | 0 <= k < fs[i].mark && fs[i].solo ensures Settled(s.gens, s.current, fs[i], s.accepted[k]) {
        assert Settled(s.gens, s.current, s.flushers[i], s.accepted[k]);
      }
    }
  }

  /** With no Flush under way, everything accepted is in the current generation or in
      a finished one. */
  lemma QuietEntries(s: State, k: nat)
    requires Inv(s) && k < |s.accepted| && NoFlush(s.flushers)
    ensures s.accepted[k].gen == s.current || Finished(s.gens[s.accepted[k].gen])
  {
    assert EntryOk(|s.gens|, s.adders, s.accepted[k]);
    var g := s.accepted[k].gen;
    if g != s.current {
      assert Owned(s.flushers, g);
      var i: nat :| OwnedBy(s.flushers, g, i);
      assert StageOk(s.flushers[i], s.gens[g]);
      assert !FlushActive(s.flushers[i]);
    }
  }

  lemma {:induction false} FreshIsEmpty(entries: seq<Entry>, g: nat)
    requires forall i :: 0 <= i < |entries| ==> entries[i].gen != g
    ensures AcceptedBy(entries, g) == []
  {
    if entries != [] {
      FreshIsEmpty(entries[..|entries| - 1], g);
    }
  }

  lemma FreshGeneration(s: State)
    requires Inv(s)
    ensures Conserved(s.gens + [FRESH], s.accepted) && Entries(|s.gens| + 1, s.adders, s.accepted)
  {
    var gens := s.gens + [FRESH];
    forall i | 0 <= i < |s.accepted|
      ensures EntryOk(|gens|, s.adders, s.accepted[i]) && s.accepted[i].gen != |s.gens|
    {
      assert EntryOk(|s.gens|, s.adders, s.accepted[i]);
    }
    forall g | 0 <= g < |gens| ensures KeepsAll(gens[g], s.accepted, g) {
      if g < |s.gens| {
        assert KeepsAll(s.gens[g], s.accepted, g);
      } else {
        FreshIsEmpty(s.accepted, g);
      }
    }
  }

  lemma AppendOwner(n: nat, current: nat, fs: seq<Flusher>, f: Flusher)
    requires Ownership(n, current, fs) && Owner(f) && f.gen == n
    ensures Ownership(n + 1, current, fs + [f])
  {
    var all := fs + [f];
    forall g | 0 <= g < n + 1 && g != current ensures Owned(all, g) {
      if g == n {
        assert OwnedBy(all, g, |fs|);
      } else {
        assert Owned(fs, g);
        var i: nat :| OwnedBy(fs, g, i);
        assert OwnedBy(all, g, i);
      }
    }
  }

  /** The mark of a Flush that begins. */
  lemma NewMark(s: State, f: Flusher)
    requires Inv(s) && f.pc == Created && f.mark == |s.accepted|
    requires f.solo == NoFlush(s.flushers)
    ensures MarkOk(s.gens + [FRESH], s.current, f, s.accepted)
  {
    if f.solo {
      forall k | 0 <= k < f.mark ensures Settled(s.gens + [FRESH], s.current, f, s.accepted[k]) {
        QuietEntries(s, k);
        assert EntryOk(|s.gens|, s.adders, s.accepted[k]);
      }
    }
  }

  lemma AppendMark(gens: seq<Generation>, current: nat, fs: seq<Flusher>, f: Flusher, accepted: seq<Entry>)
    requires Marks(gens, current, fs, accepted) && MarkOk(gens, current, f, accepted)
    ensures Marks(gens, current, fs + [f], accepted)
  {
    var all := fs + [f];
    forall i | 0 <= i < |all| ensures MarkOk(gens, current, all[i], accepted) {
      assert i < |fs| ==> MarkOk(gens, current, fs[i], accepted);
    }
  }

  lemma AppendStage(gens: seq<Generation>, current: nat, fs: seq<Flusher>, f: Flusher, phase: Phase)
    requires Ownership(|gens|, current, fs) && Stages(gens, current, fs, phase)
    requires f.pc == Created && f.gen == |gens| && Ownership(|gens| + 1, current, fs + [f])
    ensures Stages(gens + [FRESH], current, fs + [f], phase)
  {
    var all := fs + [f];
    forall i | 0 <= i < |all| && Owner(all[i]) ensures StageOk(all[i], (gens + [FRESH])[all[i].gen]) {
      assert i < |fs| ==> StageOk(fs[i], gens[fs[i].gen]);
    }
  }

  lemma AppendSolo(fs: seq<Flusher>, f: Flusher, adders: seq<Adder>)
    requires Locks(fs, adders) && NoneSolo(fs) && !IsWriter(f)
    requires f.solo ==> forall i :: 0 <= i < |fs| ==> !FlushActive(fs[i])
    ensures Locks(fs + [f], adders) && Solos(fs + [f])
  {
  }

  lemma AppendFlusher(s: State, fs: seq<Flusher>, f: Flusher)
    requires Inv(s) && fs == AllNotSolo(s.flushers)
    requires f.pc == Created && f.gen == |s.gens| && f.mark == |s.accepted|
    requires f.solo == NoFlush(s.flushers)
    ensures var gens := s.gens + [FRESH];
            Locks(fs + [f], s.adders) && Ownership(|gens|, s.current, fs + [f]) &&
            Stages(gens, s.current, fs + [f], s.phase) && Marks(gens, s.current, fs + [f], s.accepted) &&
            Solos(fs + [f])
  {
    NotSoloKeeps(s, fs);
    AppendOwner(|s.gens|, s.current, fs, f);
    AppendStage(s.gens, s.current, fs, f, s.phase);
    FinishedStay(s.gens, s.gens + [FRESH], s.current, fs, s.accepted);
    NewMark(s, f);
    AppendMark(s.gens + [FRESH], s.current, fs, f, s.accepted);
    forall i | 0 <= i < |fs| && f.solo ensures !FlushActive(fs[i]) {
      assert s.flushers[i] in s.flushers;
    }
    AppendSolo(fs, f, s.adders);
  }

  lemma BeginFlushKeeps(cfg: Config, s: State)
    requires Inv(s) && Enabled(cfg, s, BeginFlush)
    ensures Inv(Apply(cfg, s, BeginFlush))
  {
    var s' := Apply(cfg, s, BeginFlush);
    var fs, f := AllNotSolo(s.flushers), Flusher(Created, |s.gens|, |s.accepted|, NoFlush(s.flushers), 0);
    assert s'.flushers == fs + [f] && s'.gens == s.gens + [FRESH];
    AppendFlusher(s, fs, f);
    FreshGeneration(s);
  }

  lemma FailFlushKeeps(cfg: Config, s: State)
    requires Inv(s) && Enabled(cfg, s, FailFlush)
    ensures Inv(Apply(cfg, s, FailFlush))
  {
    var f := Flusher(StartFailed, 0, 0, false, 0);
    assert Apply(cfg, s, FailFlush).flushers == s.flushers + [f];
    IdleOwners(|s.gens|, s.current, s.flushers, f);
    IdleMarks(s.gens, s.current, s.flushers, s.accepted, f);
    IdleLocks(s.flushers, s.adders, f);
  }

  lemma IdleOwners(n: nat, current: nat, fs: seq<Flusher>, f: Flusher)
    requires Ownership(n, current, fs) && !Owner(f)
    ensures Ownership(n, current, fs + [f])
  {
    var fs' := fs + [f];
    forall g | 0 <= g < n && g != current ensures Owned(fs', g) {
      assert Owned(fs, g);
      var i: nat :| OwnedBy(fs, g, i);
      assert OwnedBy(fs', g, i);
    }
  }

  lemma IdleMarks(gens: seq<Generation>, current: nat, fs: seq<Flusher>, accepted: seq<Entry>, f: Flusher)
    requires Marks(gens, current, fs, accepted) && f.mark == 0
    ensures Marks(gens, current, fs + [f], accepted)
  {
    var fs' := fs + [f];
    forall i | 0 <= i < |fs'| ensures MarkOk(gens, current, fs'[i], accepted) {
      assert i < |fs| ==> MarkOk(gens, current, fs[i], accepted);
    }
  }

  lemma IdleLocks(fs: seq<Flusher>, adders: seq<Adder>, f: Flusher)
    requires Locks(fs, adders) && Solos(fs) && !IsWriter(f) && !FlushActive(f)
    ensures Locks(fs + [f], adders) && Solos(fs + [f])
  {
  }

  lemma SwapOwners(n: nat, current: nat, fs: seq<Flusher>, t: nat, swaps: nat)
    requires Ownership(n, current, fs) && t < |fs| && fs[t].pc == Holding
    ensures Ownership(n, fs[t].gen, fs[t := AfterSwap(fs[t], current, swaps)])
  {
    var fs' := fs[t := AfterSwap(fs[t], current, swaps)];
    forall g | 0 <= g < n && g != fs[t].gen ensures Owned(fs', g) {
      if g == current {
        assert OwnedBy(fs', g, t);
      } else {
        assert Owned(fs, g);
        var i: nat :| OwnedBy(fs, g, i);
        assert OwnedBy(fs', g, i);
      }
    }
  }

  /** The new generation takes the place of the retired one in every mark. */
  lemma SwapMarks(gens: seq<Generation>, current: nat, fs: seq<Flusher>, t: nat, accepted: seq<Entry>, swaps: nat)
    requires Marks(gens, current, fs, accepted) && Solos(fs) && t < |fs| && fs[t].pc == Holding
    ensures Marks(gens, fs[t].gen, fs[t := AfterSwap(fs[t], current, swaps)], accepted)
  {
    var fs' := fs[t := AfterSwap(fs[t], current, swaps)];
    forall i | 0 <= i < |fs'| ensures MarkOk(gens, fs[t].gen, fs'[i], accepted) {
      assert MarkOk(gens, current, fs[i], accepted);
      var f := fs'[i];
      assert i != t ==> !(f.solo && FlushActive(f));
      forall k | 0 <= k < f.mark && f.solo ensures Settled(gens, fs[t].gen, f, accepted[k]) {
        assert Settled(gens, current, fs[i], accepted[k]);
      }
    }
  }

  lemma SwapKeeps(cfg: Config, s: State, t: nat)
    requires Inv(s) && Enabled(cfg, s, Swap(t))
    ensures Inv(Apply(cfg, s, Swap(t)))
  {
    var s' := Apply(cfg, s, Swap(t));
    ActiveMeansRunning(s);
    SwapOwners(|s.gens|, s.current, s.flushers, t, s.swaps);
    SwapMarks(s.gens, s.current, s.flushers, t, s.accepted, s.swaps);
    assert StageOk(s.flushers[t], s.gens[s.flushers[t].gen]);
    forall i | 0 <= i < |s'.flushers| && Owner(s'.flushers[i])
      ensures StageOk(s'.flushers[i], s'.gens[s'.flushers[i].gen])
    {
      assert StageOk(s.flushers[i], s.gens[s.flushers[i].gen]);
    }
  }

  /** Closing an open generation that is in the hands of one Flush, or the current one. */
  lemma CloseKeepsContent(s: State, g: nat)
    requires Conserved(s.gens, s.accepted) && Marks(s.gens, s.current, s.flushers, s.accepted) && g < |s.gens|
    ensures Conserved(Close(s, g).gens, s.accepted) && Marks(Close(s, g).gens, s.current, s.flushers, s.accepted)
  {
    var s' := Close(s, g);
    forall h | 0 <= h < |s'.gens| ensures KeepsAll(s'.gens[h], s'.accepted, h) {
      assert KeepsAll(s.gens[h], s.accepted, h);
    }
    FinishedStay(s.gens, s'.gens, s.current, s.flushers, s.accepted);
  }

  lemma CloseStages(gens: seq<Generation>, current: nat, fs: seq<Flusher>, phase: Phase, t: nat)
    requires Ownership(|gens|, current, fs) && Stages(gens, current, fs, phase) && t < |fs| && fs[t].pc == Released
    requires Ownership(|gens|, current, fs[t := fs[t].(pc := Stopping)])
    ensures Stages(gens[fs[t].gen := gens[fs[t].gen].(closed := true)], current, fs[t := fs[t].(pc := Stopping)], phase)
  {
    var g, fs' := fs[t].gen, fs[t := fs[t].(pc := Stopping)];
    forall i | 0 <= i < |fs'| && Owner(fs'[i])
      ensures StageOk(fs'[i], gens[g := gens[g].(closed := true)][fs'[i].gen])
    {
      assert StageOk(fs[i], gens[fs[i].gen]);
    }
  }

  lemma LocksLike(fs: seq<Flusher>, adders: seq<Adder>, t: nat, f: Flusher)
    requires t < |fs| && Locks(fs, adders) && Solos(fs) && !IsWriter(f)
    requires f.solo == fs[t].solo && FlushActive(f) == FlushActive(fs[t])
    ensures Locks(fs[t := f], adders) && Solos(fs[t := f])
  {
  }

  lemma CloseWorkKeeps(cfg: Config, s: State, t: nat)
    requires Inv(s) && Enabled(cfg, s, CloseWork(t))
    ensures Inv(Apply(cfg, s, CloseWork(t)))
  {
    var s' := Apply(cfg, s, CloseWork(t));
    var f, g := s.flushers[t].(pc := Stopping), s.flushers[t].gen;
    assert s'.flushers == s.flushers[t := f] && s'.gens == Close(s, g).gens;
    assert StageOk(s.flushers[t], s.gens[g]);
    ActiveMeansRunning(s);
    CloseKeepsContent(s, g);
    OwnersStay(|s.gens|, s.current, s.flushers, t, f);
    CloseStages(s.gens, s.current, s.flushers, s.phase, t);
    LocksLike(s.flushers, s.adders, t, f);
    MarksStay(Close(s, g).gens, s.current, s.flushers, t, f, s.accepted);
  }

  lemma ReturnFlushKeeps(cfg: Config, s: State, t: nat)
    requires Inv(s) && Enabled(cfg, s, ReturnFlush(t))
    ensures Inv(Apply(cfg, s, ReturnFlush(t)))
  {
    var f := s.flushers[t].(pc := Returned);
    ActiveMeansRunning(s);
    assert StageOk(s.flushers[t], s.gens[s.flushers[t].gen]);
    OwnersStay(|s.gens|, s.current, s.flushers, t, f);
    StagesStay(s.gens, s.current, s.flushers, s.phase, t, f);
    LocksStay(s.flushers, s.adders, t, f);
    ReturnKeepsMarks(s, t);
  }

  lemma StagesStay(gens: seq<Generation>, current: nat, fs: seq<Flusher>, phase: Phase, t: nat, f: Flusher)
    requires t < |fs| && Ownership(|gens|, current, fs) && Ownership(|gens|, current, fs[t := f])
    requires Stages(gens, current, fs, phase) && f.gen < |gens| && StageOk(f, gens[f.gen])
    ensures Stages(gens, current, fs[t := f], phase)
  {
    var fs' := fs[t := f];
    forall i | 0 <= i < |fs'| && Owner(fs'[i]) ensures StageOk(fs'[i], gens[fs'[i].gen]) {
      assert i != t ==> StageOk(fs[i], gens[fs[i].gen]);
    }
  }

  lemma LocksStay(fs: seq<Flusher>, adders: seq<Adder>, t: nat, f: Flusher)
    requires t < |fs| && Locks(fs, adders) && Solos(fs) && !IsWriter(f) && !FlushActive(f)
    ensures Locks(fs[t := f], adders) && Solos(fs[t := f])
  {
  }

  lemma ReturnKeepsMarks(s: State, t: nat)
    requires Inv(s) && FlushAt(s, t, Stopping) && Finished(s.gens[s.flushers[t].gen])
    ensures Marks(s.gens, s.current, s.flushers[t := s.flushers[t].(pc := Returned)], s.accepted)
  {
    var f := s.flushers[t].(pc := Returned);
    var fs := s.flushers[t := f];
    assert MarkOk(s.gens, s.current, s.flushers[t], s.accepted);
    forall k | 0 <= k < f.mark && f.solo ensures Settled(s.gens, s.current, f, s.accepted[k]) {
      assert Settled(s.gens, s.current, s.flushers[t], s.accepted[k]);
    }
    assert MarkOk(s.gens, s.current, f, s.accepted);
    forall i | 0 <= i < |fs| ensures MarkOk(s.gens, s.current, fs[i], s.accepted) {
      assert MarkOk(s.gens, s.current, s.flushers[i], s.accepted);
    }
  }

  lemma BeginStopKeeps(cfg: Config, s: State)
    requires Inv(s) && Enabled(cfg, s, BeginStop)
    ensures Inv(Apply(cfg, s, BeginStop))
  {
    CloseKeepsContent(s, s.current);
  }

  lemma ReturnStopKeeps(cfg: Config, s: State)
    requires Inv(s) && Enabled(cfg, s, ReturnStop)
    ensures Inv(Apply(cfg, s, ReturnStop))
  {
    forall g | 0 <= g < |s.gens| ensures Drained(s.gens[g]) {
      if g != s.current {
        assert Owned(s.flushers, g);
        var i: nat :| OwnedBy(s.flushers, g, i);
        assert StageOk(s.flushers[i], s.gens[g]);
        assert s.flushers[i] in s.flushers;
      }
    }
  }

  // ---- the worker's moves keep the content ----

  lemma TakeContent(g: Generation)
    requires g.queue != []
    ensures Moves(g, Took(g), multiset{})
  {
    assert g.queue == [g.queue[0]] + g.queue[1..];
  }

  lemma FlatMore(batches: seq<seq<nat>>, b: seq<nat>)
    ensures Flat(batches + [b]) == Flat(batches) + b
  {
    assert (batches + [b])[..|batches|] == batches;
  }

  lemma {:induction false} FlatConcat(a: seq<seq<nat>>, b: seq<seq<nat>>)
    ensures Flat(a + b) == Flat(a) + Flat(b)
    decreases |b|
  {
    if b == [] {
      assert a + b == a;
    } else {
      var n := |b| - 1;
      FlatConcat(a, b[..n]);
      assert a + b == (a + b[..n]) + [b[n]];
      FlatMore(a + b[..n], b[n]);
    }
  }

  lemma FlatAround(all: seq<seq<nat>>, a: seq<seq<nat>>, b: seq<nat>, c: seq<seq<nat>>)
    requires all == a + [b] + c
    ensures multiset(Flat(a + c)) + multiset(b) == multiset(Flat(all))
  {
    FlatConcat(a, c);
    FlatMore(a, b);
    FlatConcat(a + [b], c);
    Shuffle(Flat(a), b, Flat(c));
  }

  lemma FlatWithout(batches: seq<seq<nat>>, i: nat)
    requires i < |batches|
    ensures multiset(Flat(Without(batches, i))) + multiset(batches[i]) == multiset(Flat(batches))
  {
    SplitAt(batches, i);
    FlatAround(batches, batches[..i], batches[i], batches[i + 1..]);
  }

  lemma SplitAt(batches: seq<seq<nat>>, i: nat)
    requires i < |batches|
    ensures batches == batches[..i] + [batches[i]] + batches[i + 1..]
  {
    assert batches[..i] + [batches[i]] == batches[..i + 1];
  }

  lemma Shuffle(a: seq<nat>, b: seq<nat>, c: seq<nat>)
    ensures multiset(a + c) + multiset(b) == multiset(a + b + c)
  {
  }

  lemma DispatchContent(g: Generation, offers: nat)
    ensures Moves(g, Dispatched(g, offers), multiset{})
  {
    FlatMore(g.inFlight, g.forming);
  }

  lemma FinishContent(g: Generation, i: nat)
    requires i < |g.inFlight| && i < |g.owing|
    ensures Moves(g, FiredBatch(g, i), multiset{})
  {
    FlatWithout(g.inFlight, i);
    FlatMore(g.fired, g.inFlight[i]);
  }

  predicate IsWorkerStep(step: Step)
  {
    step.Take? || step.Dispatch? || step.OfferResponse? || step.FinishFire?
  }

  lemma WorkerStepKeeps(cfg: Config, s: State, step: Step)
    requires Inv(s) && Enabled(cfg, s, step) && IsWorkerStep(step)
    ensures Inv(Apply(cfg, s, step))
  {
    match step
    case Take(g) =>
      TakeContent(s.gens[g]);
      WorkerKeeps(s, g, Took(s.gens[g]));
    case Dispatch(g, offers) =>
      DispatchContent(s.gens[g], offers);
      WorkerKeeps(s, g, Dispatched(s.gens[g], offers));
    case OfferResponse(g, i, fate) =>
      OfferKeeps(cfg, s, g, i, fate);
    case FinishFire(g, i) =>
      FinishContent(s.gens[g], i);
      WorkerKeeps(s, g, FiredBatch(s.gens[g], i));
  }

  lemma OfferKeeps(cfg: Config, s: State, g: nat, i: nat, fate: Fate)
    requires Inv(s) && Enabled(cfg, s, OfferResponse(g, i, fate))
    ensures Inv(Apply(cfg, s, OfferResponse(g, i, fate)))
  {
    assert KeepsAll(s.gens[g], s.accepted, g);
    WorkerKeeps(s, g, OwingLess(s.gens[g], i));
  }

  predicate IsAddStep(step: Step)
  {
    step.BeginAdd? || step.LockAdd? || step.Send? || step.HandOver? || step.Reject? || step.UnlockAdd? ||
    step.OfferOverflow?
  }

  lemma AddStepKeeps(cfg: Config, s: State, step: Step)
    requires Inv(s) && Enabled(cfg, s, step) && IsAddStep(step)
    ensures Inv(Apply(cfg, s, step))
  {
    match step
    case BeginAdd(e) => BeginAddKeeps(cfg, s, e);
    case LockAdd(t) => AdderMoves(s, t, Locked);
    case Send(t) =>
      DeliverContent(Now(s), t);
      DeliverKeeps(s, t, Queued(Now(s), t));
    case HandOver(t) =>
      DeliverContent(Now(s), t);
      DeliverKeeps(s, t, HandedOver(Now(s), t));
    case Reject(t) => AdderMoves(s, t, Full);
    case UnlockAdd(t) => AdderMoves(s, t, if s.adders[t].pc == Sent then Accepted else Offering);
    case OfferOverflow(t, fate) => OfferOverflowKeeps(cfg, s, t, fate);
  }

  lemma MoveFlushKeeps(cfg: Config, s: State, t: nat, pc: FlushPc)
    requires Inv(s) && t < |s.flushers|
    requires (pc == Holding && Enabled(cfg, s, LockFlush(t))) || (pc == Released && Enabled(cfg, s, UnlockFlush(t)))
    ensures Inv(WithFlusher(s, t, pc))
  {
    assert StageOk(s.flushers[t], s.gens[s.flushers[t].gen]);
    FlusherMoves(s, t, pc);
  }

  lemma StepKeeps(cfg: Config, s: State, step: Step)
    requires Inv(s) && Enabled(cfg, s, step)
    ensures Inv(Apply(cfg, s, step))
  {
    if IsAddStep(step) {
      AddStepKeeps(cfg, s, step);
    } else if IsWorkerStep(step) {
      WorkerStepKeeps(cfg, s, step);
    } else {
      match step
      case BeginFlush => BeginFlushKeeps(cfg, s);
      case FailFlush => FailFlushKeeps(cfg, s);
      case LockFlush(t) => MoveFlushKeeps(cfg, s, t, Holding);
      case Swap(t) => SwapKeeps(cfg, s, t);
      case UnlockFlush(t) => MoveFlushKeeps(cfg, s, t, Released);
      case CloseWork(t) => CloseWorkKeeps(cfg, s, t);
      case ReturnFlush(t) => ReturnFlushKeeps(cfg, s, t);
      case BeginStop => BeginStopKeeps(cfg, s);
      case OfferSampled(_) =>
      case ReadResponse =>
      case Reader(_) =>
      case ReturnStop => ReturnStopKeeps(cfg, s);
    }
  }

  // ---- runs ----

  /** The state after a run from the start, when each of its steps could happen. */
  function Run(cfg: Config, steps: seq<Step>): Option<State>
  {
    if steps == [] then Some(INIT)
    else
      match Run(cfg, steps[..|steps| - 1])
      case None => None
      case Some(s) =>
        if Enabled(cfg, s, steps[|steps| - 1]) then Some(Apply(cfg, s, steps[|steps| - 1])) else None
  }

  /** In every interleaving, the invariant holds throughout. */
  lemma {:induction false} RunKeeps(cfg: Config, steps: seq<Step>)
    requires Run(cfg, steps).Some?
    ensures Inv(Run(cfg, steps).value)
  {
    if steps == [] {
      assert KeepsAll(FRESH, [], 0);
    } else {
      RunKeeps(cfg, steps[..|steps| - 1]);
      StepKeeps(cfg, Run(cfg, steps[..|steps| - 1]).value, steps[|steps| - 1]);
    }
  }
}
