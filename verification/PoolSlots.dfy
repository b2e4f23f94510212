/** Who holds what: every pool slot is in one place, and every process belongs to one slot. */
module PoolSlots {
  import opened Basics
  import opened Framing
  import opened PoolModel

  /** Where a slot can be. */
  datatype Place = InQueue(i: nat) | WithThread(t: nat)

  function SlotAt(s: State, p: Place): Option<Slot> {
    match p
    case InQueue(i) => if i < |s.idle| then Some(s.idle[i]) else None
    case WithThread(t) => if Holds(s, t) then Some(SlotOf(s, t)) else None
  }

  /** A slot is named by a number below the pool size and was not given up; its worker was started for it. */
  predicate GoodSlot(env: Env, s: State, slot: Slot) {
    && slot.id < env.maxWorkers && slot.id !in s.lost && slot.id !in s.dropped
    && (slot.worker.Some? ==> slot.worker.value < |s.procs| && s.procs[slot.worker.value].slot == slot.id)
  }

  ghost predicate SlotsGood(env: Env, s: State) {
    forall p :: SlotAt(s, p).Some? ==> GoodSlot(env, s, SlotAt(s, p).value)
  }

  ghost predicate SlotsApart(s: State) {
    forall p, q :: p != q && SlotAt(s, p).Some? && SlotAt(s, q).Some? ==> SlotAt(s, p).value.id != SlotAt(s, q).value.id
  }

  /** A process that was not reaped is the worker of its slot, wherever that slot is. */
  ghost predicate Placed(s: State, w: nat, p: Place)
    requires w < |s.procs|
  {
    SlotAt(s, p).Some? && SlotAt(s, p).value.id == s.procs[w].slot ==> SlotAt(s, p).value.worker == Some(w)
  }

  ghost predicate ProcsPlaced(env: Env, s: State) {
    forall w :: 0 <= w < |s.procs| && !s.procs[w].stopped ==>
      s.procs[w].slot < env.maxWorkers && forall p :: Placed(s, w, p)
  }

  ghost predicate ProcsApart(s: State) {
    forall v, w :: 0 <= v < w < |s.procs| && !s.procs[v].stopped && !s.procs[w].stopped ==>
      s.procs[v].slot != s.procs[w].slot
  }

  ghost predicate GivenUp(env: Env, s: State) {
    && (forall k :: k in s.lost || k in s.dropped ==> k < env.maxWorkers)
    && s.lost !! s.dropped
    && (s.dropped != {} ==> s.closed)
  }

  /** What a phase says about its slot. */
  predicate GoodPhase(s: State, slot: Slot, phase: Phase) {
    match phase
    case Took => true
    case Starting => slot.worker == None
    case Spawning => slot.worker == None
    case Forgetting => slot.worker.Some? && slot.worker.value < |s.procs| && s.procs[slot.worker.value].stopped
    case Removing(_) => slot.worker.Some? && slot.worker.value < |s.procs| && s.procs[slot.worker.value].stopped
    case Finishing(reusable, _) => reusable ==> slot.worker.Some?
    case Returning(_) => true
    case Putting(_) => true
    case _ => slot.worker.Some?
  }

  ghost predicate PhasesGood(s: State) {
    forall t: nat :: Holds(s, t) ==> GoodPhase(s, SlotOf(s, t), PhaseOf(s, t)) && Fits(s.threads[t].image)
  }

  ghost predicate AdmittedFit(s: State) {
    forall t: nat :: IsRequest(s, t) && s.threads[t].at == Admitted ==> Fits(s.threads[t].image)
  }

  ghost predicate SlotInv(env: Env, s: State) {
    && SlotsGood(env, s)
    && SlotsApart(s)
    && ProcsPlaced(env, s)
    && ProcsApart(s)
    && GivenUp(env, s)
    && PhasesGood(s)
    && AdmittedFit(s)
  }

  // ---- Kinds of change ----

  /** Processes keep their slot, and stay stopped once stopped. */
  ghost predicate SameProcs(s: State, s': State) {
    && |s'.procs| == |s.procs|
    && forall w :: 0 <= w < |s.procs| ==>
         s'.procs[w].slot == s.procs[w].slot && (s.procs[w].stopped ==> s'.procs[w].stopped)
  }

  ghost predicate SamePlaces(s: State, s': State) {
    forall p :: SlotAt(s', p) == SlotAt(s, p)
  }

  lemma UnmovedKeeps(env: Env, s: State, s': State)
    requires SlotsGood(env, s) && SlotsApart(s) && ProcsPlaced(env, s) && ProcsApart(s) && GivenUp(env, s)
    requires SameProcs(s, s') && SamePlaces(s, s')
    requires s'.lost == s.lost && s'.dropped == s.dropped && (s.closed ==> s'.closed)
    ensures SlotsGood(env, s') && SlotsApart(s') && ProcsPlaced(env, s') && ProcsApart(s') && GivenUp(env, s')
  {
    forall p | SlotAt(s', p).Some?
      ensures GoodSlot(env, s', SlotAt(s', p).value)
    {
      assert GoodSlot(env, s, SlotAt(s, p).value);
    }
    forall w | 0 <= w < |s'.procs| && !s'.procs[w].stopped
      ensures s'.procs[w].slot < env.maxWorkers && forall p :: Placed(s', w, p)
    {
      forall p
        ensures Placed(s', w, p)
      {
        assert Placed(s, w, p);
      }
    }
  }

  /** The slot at place `from` is now at place `to`, and nothing else moved. */
  ghost predicate Moved(s: State, s': State, from: Place, to: Place) {
    && from != to
    && SlotAt(s, from).Some? && SlotAt(s, to).None?
    && SlotAt(s', from).None? && SlotAt(s', to) == SlotAt(s, from)
    && forall p :: p != from && p != to ==> SlotAt(s', p) == SlotAt(s, p)
  }

  /** The place in s of the slot that is at p after the move. */
  function Before(from: Place, to: Place, p: Place): Place {
    if p == to then from else if p == from then to else p
  }

  lemma MovedKeeps(env: Env, s: State, s': State, from: Place, to: Place)
    requires SlotsGood(env, s) && SlotsApart(s) && ProcsPlaced(env, s) && ProcsApart(s) && GivenUp(env, s)
    requires Moved(s, s', from, to)
    requires s'.procs == s.procs && s'.lost == s.lost && s'.dropped == s.dropped && s'.closed == s.closed
    ensures SlotsGood(env, s') && SlotsApart(s') && ProcsPlaced(env, s') && ProcsApart(s') && GivenUp(env, s')
  {
    forall p
      ensures SlotAt(s', p) == SlotAt(s, Before(from, to, p))
    {
    }
    forall p | SlotAt(s', p).Some?
      ensures GoodSlot(env, s', SlotAt(s', p).value)
    {
      assert GoodSlot(env, s, SlotAt(s, Before(from, to, p)).value);
    }
    forall p, q | p != q && SlotAt(s', p).Some? && SlotAt(s', q).Some?
      ensures SlotAt(s', p).value.id != SlotAt(s', q).value.id
    {
      assert Before(from, to, p) != Before(from, to, q);
    }
    forall w | 0 <= w < |s'.procs| && !s'.procs[w].stopped
      ensures s'.procs[w].slot < env.maxWorkers && forall p :: Placed(s', w, p)
    {
      forall p
        ensures Placed(s', w, p)
      {
        assert Placed(s, w, Before(from, to, p));
      }
    }
  }

  /** Only the slot of thread t changed; it keeps its number, or is gone. */
  ghost predicate OnlySlot(s: State, s': State, t: nat) {
    && Holds(s, t)
    && (SlotAt(s', WithThread(t)).Some? ==> SlotAt(s', WithThread(t)).value.id == SlotOf(s, t).id)
    && forall p :: p != WithThread(t) ==> SlotAt(s', p) == SlotAt(s, p)
  }

  lemma SlotGoneKeeps(env: Env, s: State, s': State, t: nat)
    requires SlotsGood(env, s) && SlotsApart(s) && ProcsPlaced(env, s) && ProcsApart(s) && GivenUp(env, s)
    requires OnlySlot(s, s', t) && SlotAt(s', WithThread(t)).None?
    requires s'.procs == s.procs && s'.closed == s.closed
    requires (s'.lost == s.lost + {SlotOf(s, t).id} && s'.dropped == s.dropped)
             || (s'.dropped == s.dropped + {SlotOf(s, t).id} && s'.lost == s.lost && s.closed)
    ensures SlotsGood(env, s') && SlotsApart(s') && ProcsPlaced(env, s') && ProcsApart(s') && GivenUp(env, s')
  {
    assert SlotAt(s, WithThread(t)).Some?;
    forall p | SlotAt(s', p).Some?
      ensures GoodSlot(env, s', SlotAt(s', p).value)
    {
      assert SlotAt(s, p).value.id != SlotAt(s, WithThread(t)).value.id;
    }
    forall w | 0 <= w < |s'.procs| && !s'.procs[w].stopped
      ensures s'.procs[w].slot < env.maxWorkers && forall p :: Placed(s', w, p)
    {
      forall p
        ensures Placed(s', w, p)
      {
        assert Placed(s, w, p);
      }
    }
  }

  lemma WorkerForgottenKeeps(env: Env, s: State, s': State, t: nat, w: nat)
    requires SlotsGood(env, s) && SlotsApart(s) && ProcsPlaced(env, s) && ProcsApart(s) && GivenUp(env, s)
    requires HoldsWorker(s, t, w) && s.procs[w].stopped
    requires OnlySlot(s, s', t) && SlotAt(s', WithThread(t)) == Some(Slot(SlotOf(s, t).id, None))
    requires s'.procs == s.procs && s'.lost == s.lost && s'.dropped == s.dropped && s'.closed == s.closed
    ensures SlotsGood(env, s') && SlotsApart(s') && ProcsPlaced(env, s') && ProcsApart(s') && GivenUp(env, s')
  {
    assert SlotAt(s, WithThread(t)).Some?;
    forall p, q | p != q && SlotAt(s', p).Some? && SlotAt(s', q).Some?
      ensures SlotAt(s', p).value.id != SlotAt(s', q).value.id
    {
      assert SlotAt(s, p).value.id != SlotAt(s, q).value.id;
    }
    forall v | 0 <= v < |s'.procs| && !s'.procs[v].stopped
      ensures s'.procs[v].slot < env.maxWorkers && forall p :: Placed(s', v, p)
    {
      forall p
        ensures Placed(s', v, p)
      {
        assert Placed(s, v, p);
      }
    }
  }

  lemma WorkerStartedKeeps(env: Env, s: State, s': State, t: nat)
    requires SlotsGood(env, s) && SlotsApart(s) && ProcsPlaced(env, s) && ProcsApart(s) && GivenUp(env, s)
    requires OnlySlot(s, s', t) && SlotOf(s, t).worker == None
    requires SlotAt(s', WithThread(t)) == Some(Slot(SlotOf(s, t).id, Some(|s.procs|)))
    requires s'.procs == s.procs + [NewProc(SlotOf(s, t).id)]
    requires s'.lost == s.lost && s'.dropped == s.dropped && s'.closed == s.closed
    ensures SlotsGood(env, s') && SlotsApart(s') && ProcsPlaced(env, s') && ProcsApart(s') && GivenUp(env, s')
  {
    var id := SlotOf(s, t).id;
    assert SlotAt(s, WithThread(t)).Some? && SlotAt(s, WithThread(t)).value.id == id;
    assert GoodSlot(env, s, SlotAt(s, WithThread(t)).value);
    forall p | SlotAt(s', p).Some?
      ensures GoodSlot(env, s', SlotAt(s', p).value)
    {
      if p != WithThread(t) {
        assert GoodSlot(env, s, SlotAt(s, p).value);
      }
    }
    forall p, q | p != q && SlotAt(s', p).Some? && SlotAt(s', q).Some?
      ensures SlotAt(s', p).value.id != SlotAt(s', q).value.id
    {
      assert SlotAt(s, p).value.id != SlotAt(s, q).value.id;
    }
    // No process of this slot is left, for the slot was empty.
    forall w | 0 <= w < |s.procs| && !s.procs[w].stopped
      ensures s.procs[w].slot != id
    {
      assert Placed(s, w, WithThread(t));
    }
    forall w | 0 <= w < |s'.procs| && !s'.procs[w].stopped
      ensures s'.procs[w].slot < env.maxWorkers && forall p :: Placed(s', w, p)
    {
      forall p
        ensures Placed(s', w, p)
      {
        if w < |s.procs| {
          assert Placed(s, w, p);
        } else if p != WithThread(t) && SlotAt(s, p).Some? {
          assert SlotAt(s, p).value.id != SlotAt(s, WithThread(t)).value.id;
        }
      }
    }
  }

  // ---- Every step keeps the invariant ----

  lemma WorkKeepsSlots(env: Env, s: State, w: nat, step: ChildStep)
    requires SlotInv(env, s) && Enabled(env, s, Work(w, step))
    ensures SlotInv(env, Apply(env, s, Work(w, step)))
  {
    var s' := Apply(env, s, Work(w, step));
    assert SamePlaces(s, s') by {
      forall p ensures SlotAt(s', p) == SlotAt(s, p) {}
    }
    UnmovedKeeps(env, s, s');
    forall t: nat | Holds(s', t)
      ensures GoodPhase(s', SlotOf(s', t), PhaseOf(s', t)) && Fits(s'.threads[t].image)
    {
      assert Holds(s, t);
    }
    forall t: nat | IsRequest(s', t) && s'.threads[t].at == Admitted
      ensures Fits(s'.threads[t].image)
    {
      assert IsRequest(s, t);
    }
  }

  lemma TalkKeepsSlots(env: Env, s: State, t: nat, step: TalkStep)
    requires SlotInv(env, s) && Enabled(env, s, Talk(t, step))
    ensures SlotInv(env, Apply(env, s, Talk(t, step)))
  {
    var s' := Apply(env, s, Talk(t, step));
    TalkMovesNothing(env, s, t, step);
    UnmovedKeeps(env, s, s');
    forall u: nat | Holds(s', u)
      ensures GoodPhase(s', SlotOf(s', u), PhaseOf(s', u)) && Fits(s'.threads[u].image)
    {
      TalkKeepsPhases(env, s, t, step, u);
    }
    forall u: nat | IsRequest(s', u) && s'.threads[u].at == Admitted
      ensures Fits(s'.threads[u].image)
    {
      assert IsRequest(s, u);
    }
  }

  lemma TalkMovesNothing(env: Env, s: State, t: nat, step: TalkStep)
    requires Enabled(env, s, Talk(t, step))
    ensures SamePlaces(s, Apply(env, s, Talk(t, step))) && SameProcs(s, Apply(env, s, Talk(t, step)))
  {
    var s' := Apply(env, s, Talk(t, step));
    forall p
      ensures SlotAt(s', p) == SlotAt(s, p)
    {
    }
  }

  lemma TalkKeepsPhases(env: Env, s: State, t: nat, step: TalkStep, u: nat)
    requires PhasesGood(s) && Enabled(env, s, Talk(t, step)) && Holds(Apply(env, s, Talk(t, step)), u)
    ensures var s' := Apply(env, s, Talk(t, step));
            GoodPhase(s', SlotOf(s', u), PhaseOf(s', u)) && Fits(s'.threads[u].image)
  {
    assert Holds(s, u);
  }

  /** The threads other than t are untouched, and t is still in a good phase. */
  lemma PhasesKept(s: State, s': State, t: nat)
    requires PhasesGood(s) && AdmittedFit(s) && t < |s.threads|
    requires |s'.threads| == |s.threads| && forall u :: 0 <= u < |s.threads| && u != t ==> s'.threads[u] == s.threads[u]
    requires |s.procs| <= |s'.procs| && forall w :: 0 <= w < |s.procs| ==> (s.procs[w].stopped ==> s'.procs[w].stopped)
    requires Holds(s', t) ==> GoodPhase(s', SlotOf(s', t), PhaseOf(s', t)) && Fits(s'.threads[t].image)
    requires IsRequest(s', t) && s'.threads[t].at == Admitted ==> Fits(s'.threads[t].image)
    ensures PhasesGood(s') && AdmittedFit(s')
  {
    forall u: nat | Holds(s', u)
      ensures GoodPhase(s', SlotOf(s', u), PhaseOf(s', u)) && Fits(s'.threads[u].image)
    {
      if u != t {
        assert Holds(s, u);
      }
    }
    forall u: nat | IsRequest(s', u) && s'.threads[u].at == Admitted
      ensures Fits(s'.threads[u].image)
    {
      if u != t {
        assert IsRequest(s, u);
      }
    }
  }

  lemma RunKeepsPhases(env: Env, s: State, t: nat, step: RunStep)
    requires SlotInv(env, s) && Enabled(env, s, Run(t, step))
    ensures PhasesGood(RunNext(env, s, t, step)) && AdmittedFit(RunNext(env, s, t, step))
  {
    var s' := RunNext(env, s, t, step);
    assert IsRequest(s, t);
    assert Holds(s, t) ==> GoodPhase(s, SlotOf(s, t), PhaseOf(s, t)) && Fits(s.threads[t].image);
    PhasesKept(s, s', t);
  }

  lemma TakeMoves(env: Env, s: State, t: nat)
    requires Enabled(env, s, Run(t, Take)) && s.idle != []
    ensures Moved(s, RunNext(env, s, t, Take), InQueue(|s.idle| - 1), WithThread(t))
  {
    var s' := RunNext(env, s, t, Take);
    forall p | p != InQueue(|s.idle| - 1) && p != WithThread(t)
      ensures SlotAt(s', p) == SlotAt(s, p)
    {
    }
  }

  lemma PutMoves(env: Env, s: State, t: nat)
    requires Enabled(env, s, Run(t, Put))
    ensures Moved(s, RunNext(env, s, t, Put), WithThread(t), InQueue(|s.idle|))
  {
    var s' := RunNext(env, s, t, Put);
    forall p | p != InQueue(|s.idle|) && p != WithThread(t)
      ensures SlotAt(s', p) == SlotAt(s, p)
    {
    }
  }

  /** In the other steps of a request the slots of everybody else stay where they are. */
  lemma OthersUnmoved(env: Env, s: State, t: nat, step: RunStep)
    requires Enabled(env, s, Run(t, step)) && step != Put && (step == Take ==> s.idle == [])
    ensures var s' := RunNext(env, s, t, step);
            && (forall p :: p != WithThread(t) ==> SlotAt(s', p) == SlotAt(s, p))
            && (Holds(s, t) ==> OnlySlot(s, s', t))
            && (!Holds(s, t) ==> SamePlaces(s, s'))
  {
    var s' := RunNext(env, s, t, step);
    forall p | p != WithThread(t)
      ensures SlotAt(s', p) == SlotAt(s, p)
    {
    }
  }

  lemma RunKeepsSlots(env: Env, s: State, t: nat, step: RunStep)
    requires SlotInv(env, s) && Enabled(env, s, Run(t, step))
    ensures SlotInv(env, Apply(env, s, Run(t, step)))
  {
    var s' := RunNext(env, s, t, step);
    RunKeepsPhases(env, s, t, step);
    if step == Put {
      PutMoves(env, s, t);
      MovedKeeps(env, s, s', WithThread(t), InQueue(|s.idle|));
    } else if step == Take && s.idle != [] {
      TakeMoves(env, s, t);
      MovedKeeps(env, s, s', InQueue(|s.idle| - 1), WithThread(t));
    } else {
      OthersUnmoved(env, s, t, step);
      if step.StopFails? || (step.Return? && s.closed) {
        SlotGoneKeeps(env, s, s', t);
      } else if step.Forget? {
        assert GoodPhase(s, SlotOf(s, t), PhaseOf(s, t));
        WorkerForgottenKeeps(env, s, s', t, SlotOf(s, t).worker.value);
      } else if step.Spawn? && step.ok {
        assert GoodPhase(s, SlotOf(s, t), PhaseOf(s, t));
        WorkerStartedKeeps(env, s, s', t);
      } else {
        assert SlotAt(s', WithThread(t)) == SlotAt(s, WithThread(t));
        UnmovedKeeps(env, s, s');
      }
    }
  }

  lemma CloseKeepsSlots(env: Env, s: State, t: nat, step: CloseStep)
    requires SlotInv(env, s) && Enabled(env, s, Close(t, step))
    ensures SlotInv(env, Apply(env, s, Close(t, step)))
  {
    var s' := Apply(env, s, Close(t, step));
    assert SamePlaces(s, s') by {
      forall p ensures SlotAt(s', p) == SlotAt(s, p) {}
    }
    UnmovedKeeps(env, s, s');
    PhasesKept(s, s', t);
  }

  lemma StepKeepsSlots(env: Env, s: State, a: Action)
    requires SlotInv(env, s) && Enabled(env, s, a)
    ensures SlotInv(env, Apply(env, s, a))
  {
    match a
    case Work(w, step) => WorkKeepsSlots(env, s, w, step);
    case Talk(t, step) => TalkKeepsSlots(env, s, t, step);
    case Run(t, step) => RunKeepsSlots(env, s, t, step);
    case Close(t, step) => CloseKeepsSlots(env, s, t, step);
  }

  lemma InitialSlots(env: Env, s: State)
    requires Initial(env, s)
    ensures SlotInv(env, s)
  {
    forall p | SlotAt(s, p).Some?
      ensures p.InQueue? && SlotAt(s, p).value == Slot(p.i, None)
    {
    }
  }
}
