/** What a returned Flush has covered when others overlap it. */
module FlushCoverage {
  import opened Types
  import opened FlushProtocol
  import opened FlushGuarantees

  // ---- turns ----

  /** A Flush that holds the generation of e has not swapped later than f. */
  predicate NotLater(u: Flusher, f: Flusher, e: Entry)
  {
    HasSwapped(u) && u.gen == e.gen ==> u.turn <= f.turn
  }

  /** What was accepted before f began has left the current generation by f's swap at
      the latest. */
  ghost predicate Behind(fs: seq<Flusher>, current: nat, f: Flusher, e: Entry)
  {
    e.gen != current && forall i :: 0 <= i < |fs| ==> NotLater(fs[i], f, e)
  }

  ghost predicate Passed(fs: seq<Flusher>, current: nat, accepted: seq<Entry>, f: Flusher)
  {
    f.mark <= |accepted| && (HasSwapped(f) ==> forall k :: 0 <= k < f.mark ==> Behind(fs, current, f, accepted[k]))
  }

  /** Swaps happen one after another. */
  predicate InTurn(fs: seq<Flusher>, swaps: nat)
  {
    (forall i :: 0 <= i < |fs| && HasSwapped(fs[i]) ==> fs[i].turn < swaps) &&
    forall i, j :: 0 <= i < j < |fs| && HasSwapped(fs[i]) && HasSwapped(fs[j]) ==> fs[i].turn != fs[j].turn
  }

  ghost predicate Turns(s: State)
  {
    InTurn(s.flushers, s.swaps) &&
    forall i :: 0 <= i < |s.flushers| ==> Passed(s.flushers, s.current, s.accepted, s.flushers[i])
  }

  /** A flusher goes on and keeps what turns speak of. */
  predicate Alike(f: Flusher, f': Flusher)
  {
    f'.mark == f.mark && (HasSwapped(f') <==> HasSwapped(f)) &&
    (HasSwapped(f) ==> f'.gen == f.gen && f'.turn == f.turn)
  }

  /** The flushers of s go on, perhaps with new ones that have not swapped. */
  ghost predicate GoOn(s: State, s': State)
  {
    s'.current == s.current && s'.swaps == s.swaps && s.accepted <= s'.accepted &&
    |s.flushers| <= |s'.flushers| &&
    (forall i :: 0 <= i < |s.flushers| ==> Alike(s.flushers[i], s'.flushers[i])) &&
    (forall i :: |s.flushers| <= i < |s'.flushers| ==>
       !HasSwapped(s'.flushers[i]) && s'.flushers[i].mark <= |s'.accepted|)
  }

  lemma TurnsGoOn(s: State, s': State)
    requires Turns(s) && GoOn(s, s')
    ensures Turns(s')
  {
    forall i | 0 <= i < |s'.flushers| ensures Passed(s'.flushers, s'.current, s'.accepted, s'.flushers[i]) {
      if i < |s.flushers| {
        assert Alike(s.flushers[i], s'.flushers[i]);
        PassedGoesOn(s, s', i);
      }
    }
    TurnsStay(s, s');
  }

  lemma TurnsStay(s: State, s': State)
    requires InTurn(s.flushers, s.swaps) && GoOn(s, s')
    ensures InTurn(s'.flushers, s'.swaps)
  {
    assert forall i :: 0 <= i < |s.flushers| ==> Alike(s.flushers[i], s'.flushers[i]);
  }

  lemma PassedGoesOn(s: State, s': State, i: nat)
    requires Turns(s) && GoOn(s, s') && i < |s.flushers|
    ensures Passed(s'.flushers, s'.current, s'.accepted, s'.flushers[i])
  {
    var f, f' := s.flushers[i], s'.flushers[i];
    assert Passed(s.flushers, s.current, s.accepted, f) && Alike(f, f');
    forall k | 0 <= k < f'.mark && HasSwapped(f') ensures Behind(s'.flushers, s'.current, f', s'.accepted[k]) {
      var e := s.accepted[k];
      assert e == s'.accepted[k] && Behind(s.flushers, s.current, f, e);
      forall j | 0 <= j < |s'.flushers| ensures NotLater(s'.flushers[j], f', e) {
        assert j < |s.flushers| ==> Alike(s.flushers[j], s'.flushers[j]) && NotLater(s.flushers[j], f, e);
      }
    }
  }

  lemma {:induction false} EmptyHasNoEntries(entries: seq<Entry>, g: nat, k: nat)
    requires AcceptedBy(entries, g) == [] && k < |entries|
    ensures entries[k].gen != g
  {
    var n := |entries| - 1;
    if k < n {
      EmptyHasNoEntries(entries[..n], g, k);
    }
  }

  /** The generation that a Flush is about to swap in has accepted nothing yet. */
  lemma NothingAhead(s: State, t: nat, k: nat)
    requires Inv(s) && FlushAt(s, t, Holding) && k < |s.accepted|
    ensures s.accepted[k].gen != s.flushers[t].gen
  {
    var g := s.flushers[t].gen;
    assert StageOk(s.flushers[t], s.gens[g]);
    assert KeepsAll(s.gens[g], s.accepted, g);
    assert Content(FRESH) == multiset{};
    assert |multiset(AcceptedBy(s.accepted, g))| == |AcceptedBy(s.accepted, g)|;
    EmptyHasNoEntries(s.accepted, g, k);
  }

  lemma SwapPasses(s: State, t: nat, i: nat)
    requires Inv(s) && Turns(s) && FlushAt(s, t, Holding) && i < |s.flushers|
    ensures var fs := s.flushers[t := AfterSwap(s.flushers[t], s.current, s.swaps)];
            Passed(fs, s.flushers[t].gen, s.accepted, fs[i])
  {
    var fs := s.flushers[t := AfterSwap(s.flushers[t], s.current, s.swaps)];
    assert Passed(s.flushers, s.current, s.accepted, s.flushers[i]);
    forall k | 0 <= k < fs[i].mark && HasSwapped(fs[i]) ensures Behind(fs, s.flushers[t].gen, fs[i], s.accepted[k]) {
      NothingAhead(s, t, k);
      forall j | 0 <= j < |fs| ensures NotLater(fs[j], fs[i], s.accepted[k]) {
        if i != t {
          assert Behind(s.flushers, s.current, s.flushers[i], s.accepted[k]);
          assert NotLater(s.flushers[j], s.flushers[i], s.accepted[k]);
        }
      }
    }
  }

  lemma SwapTurns(cfg: Config, s: State, t: nat)
    requires Inv(s) && Turns(s) && Enabled(cfg, s, Swap(t))
    ensures Turns(Apply(cfg, s, Swap(t)))
  {
    var s' := Apply(cfg, s, Swap(t));
    forall i | 0 <= i < |s'.flushers| ensures Passed(s'.flushers, s'.current, s'.accepted, s'.flushers[i]) {
      SwapPasses(s, t, i);
    }
  }

  lemma StepTurns(cfg: Config, s: State, step: Step)
    requires Inv(s) && Turns(s) && Enabled(cfg, s, step)
    ensures Turns(Apply(cfg, s, step))
  {
    if step.Swap? {
      SwapTurns(cfg, s, step.t);
    } else {
      OthersGoOn(cfg, s, step);
      TurnsGoOn(s, Apply(cfg, s, step));
    }
  }

  predicate IsFlushStep(step: Step)
  {
    step.BeginFlush? || step.FailFlush? || step.LockFlush? || step.UnlockFlush? || step.CloseWork? || step.ReturnFlush?
  }

  lemma FlushersGoOn(cfg: Config, s: State, step: Step)
    requires Enabled(cfg, s, step) && IsFlushStep(step)
    ensures GoOn(s, Apply(cfg, s, step))
  {
  }

  lemma OthersGoOn(cfg: Config, s: State, step: Step)
    requires Enabled(cfg, s, step) && !step.Swap?
    ensures GoOn(s, Apply(cfg, s, step))
  {
    if IsFlushStep(step) {
      FlushersGoOn(cfg, s, step);
    } else {
      assert Apply(cfg, s, step).flushers == s.flushers;
    }
  }

  lemma {:induction false} RunTurns(cfg: Config, steps: seq<Step>)
    requires Run(cfg, steps).Some?
    ensures Turns(Run(cfg, steps).value)
  {
    if steps != [] {
      var front := steps[..|steps| - 1];
      RunTurns(cfg, front);
      RunKeeps(cfg, front);
      StepTurns(cfg, Run(cfg, front).value, steps[|steps| - 1]);
    }
  }

  // ---- coverage ----

  /** The event is somewhere in the generation, and not fired yet. */
  predicate Pending(g: Generation, t: nat)
  {
    t in g.queue || t in g.forming || t in Flat(g.inFlight)
  }

  predicate FiredOnce(s: State, e: Entry)
  {
    e.gen < |s.gens| && multiset(Flat(s.gens[e.gen].fired))[e.adder] == 1
  }

  /** A Flush that has swapped and not returned holds the event unfired. */
  predicate HeldBy(s: State, i: nat, e: Entry)
  {
    i < |s.flushers| && HasSwapped(s.flushers[i]) && s.flushers[i].pc != Returned &&
    s.flushers[i].gen == e.gen && e.gen < |s.gens| && Pending(s.gens[e.gen], e.adder)
  }

  /** In every run an accepted event has been fired once, or it is pending; never both. */
  lemma FiredIffNotPending(cfg: Config, steps: seq<Step>, k: nat)
    requires Run(cfg, steps).Some? && k < |Run(cfg, steps).value.accepted|
    ensures var s := Run(cfg, steps).value;
            var e := s.accepted[k];
            e.gen < |s.gens| && (FiredOnce(s, e) <==> !Pending(s.gens[e.gen], e.adder))
  {
    var s := Run(cfg, steps).value;
    RunKeeps(cfg, steps);
    var e := s.accepted[k];
    EntryIsOnlyPlace(s, k);
    var g := s.gens[e.gen];
    assert Content(g)[e.adder] == multiset(g.queue)[e.adder] + multiset(g.forming)[e.adder] +
                                  multiset(Flat(g.inFlight))[e.adder] + multiset(Flat(g.fired))[e.adder];
  }

  /** What was accepted before a Flush that has swapped is in the hands of one that has
      swapped no later. */
  lemma HolderOf(cfg: Config, steps: seq<Step>, t: nat, k: nat) returns (i: nat)
    requires Run(cfg, steps).Some? && t < |Run(cfg, steps).value.flushers|
    requires HasSwapped(Run(cfg, steps).value.flushers[t]) && k < Run(cfg, steps).value.flushers[t].mark
    ensures var s := Run(cfg, steps).value;
            k < |s.accepted| && i < |s.flushers| && HasSwapped(s.flushers[i]) &&
            s.flushers[i].gen == s.accepted[k].gen && s.flushers[i].turn <= s.flushers[t].turn
  {
    var s := Run(cfg, steps).value;
    RunKeeps(cfg, steps);
    RunTurns(cfg, steps);
    var f := s.flushers[t];
    assert Passed(s.flushers, s.current, s.accepted, f);
    var e := s.accepted[k];
    assert Behind(s.flushers, s.current, f, e);
    i := OwnerOf(s, k);
    assert NotLater(s.flushers[i], f, e);
  }

  lemma OwnerOf(s: State, k: nat) returns (i: nat)
    requires Inv(s) && k < |s.accepted| && s.accepted[k].gen != s.current
    ensures i < |s.flushers| && HasSwapped(s.flushers[i]) && s.flushers[i].gen == s.accepted[k].gen
  {
    var g := s.accepted[k].gen;
    assert EntryOk(|s.gens|, s.adders, s.accepted[k]);
    assert Owned(s.flushers, g);
    i :| OwnedBy(s.flushers, g, i);
    assert StageOk(s.flushers[i], s.gens[g]);
    EntryIsOnlyPlace(s, k);
    assert Content(FRESH) == multiset{};
  }

  /** When a Flush has returned, an event accepted before it began has been fired, once,
      if and only if no other Flush that has swapped and not returned holds it. */
  lemma FlushCoversIff(cfg: Config, steps: seq<Step>, t: nat, k: nat)
    requires Run(cfg, steps).Some? && FlushAt(Run(cfg, steps).value, t, Returned)
    requires k < Run(cfg, steps).value.flushers[t].mark
    ensures var s := Run(cfg, steps).value;
            k < |s.accepted| && (FiredOnce(s, s.accepted[k]) <==> forall i :: !HeldBy(s, i, s.accepted[k]))
  {
    var s := Run(cfg, steps).value;
    var i := HolderOf(cfg, steps, t, k);
    FiredIffNotPending(cfg, steps, k);
    ReturnedHoldsNothing(cfg, steps, i);
    if forall j :: !HeldBy(s, j, s.accepted[k]) {
      assert !HeldBy(s, i, s.accepted[k]);
    }
  }

  lemma ReturnedHoldsNothing(cfg: Config, steps: seq<Step>, i: nat)
    requires Run(cfg, steps).Some? && i < |Run(cfg, steps).value.flushers|
    ensures var s := Run(cfg, steps).value;
            s.flushers[i].pc == Returned ==>
              s.flushers[i].gen < |s.gens| && forall a :: !Pending(s.gens[s.flushers[i].gen], a)
  {
    var s := Run(cfg, steps).value;
    RunKeeps(cfg, steps);
    if s.flushers[i].pc == Returned {
      assert StageOk(s.flushers[i], s.gens[s.flushers[i].gen]);
    }
  }

  /** It suffices that every Flush which swapped earlier has returned too. */
  lemma EarlierReturnedSuffices(cfg: Config, steps: seq<Step>, t: nat, k: nat)
    requires Run(cfg, steps).Some? && FlushAt(Run(cfg, steps).value, t, Returned)
    requires k < Run(cfg, steps).value.flushers[t].mark
    requires var s := Run(cfg, steps).value;
             forall f :: f in s.flushers && HasSwapped(f) && f.turn < s.flushers[t].turn ==> f.pc == Returned
    ensures var s := Run(cfg, steps).value; k < |s.accepted| && FiredOnce(s, s.accepted[k])
  {
    var s := Run(cfg, steps).value;
    var i := HolderOf(cfg, steps, t, k);
    FiredIffNotPending(cfg, steps, k);
    ReturnedHoldsNothing(cfg, steps, i);
    RunTurns(cfg, steps);
    assert s.flushers[i] in s.flushers;
  }
}
