/** Counting slots, and what close() can rely on. */
module PoolClosing {
  import opened Basics
  import opened PoolModel
  import opened PoolSlots

  // ---- Conservation of slots ----

  function Weight(th: Thread): nat {
    if th.Request? && th.at.Holding? then 1 else 0
  }

  /** How many threads hold a slot. */
  function Holders(threads: seq<Thread>): nat {
    if threads == [] then 0 else Weight(threads[0]) + Holders(threads[1..])
  }

  lemma {:induction false} HoldersUpdate(threads: seq<Thread>, t: nat, th: Thread)
    requires t < |threads|
    ensures Holders(threads[t := th]) + Weight(threads[t]) == Holders(threads) + Weight(th)
  {
    if t == 0 {
      assert threads[0 := th] == [th] + threads[1..];
    } else {
      assert threads[t := th][1..] == threads[1..][t - 1 := th];
      HoldersUpdate(threads[1..], t - 1, th);
    }
  }

  ghost predicate Conserved(env: Env, s: State) {
    |s.idle| + Holders(s.threads) + |s.lost| + |s.dropped| == env.maxWorkers
  }

  lemma OneMore(s: set<nat>, x: nat)
    requires x !in s
    ensures |s + {x}| == |s| + 1
  {
  }

  /** What one thread's step does to the counts; steps of children do nothing. */
  lemma RunConserves(env: Env, s: State, t: nat, step: RunStep)
    requires RunEnabled(env, s, t, step)
    requires Holds(s, t) ==> SlotOf(s, t).id !in s.lost && SlotOf(s, t).id !in s.dropped
    ensures var s' := RunNext(env, s, t, step);
            && s'.threads == s.threads[t := s'.threads[t]]
            && |s'.idle| + Weight(s'.threads[t]) + |s'.lost| + |s'.dropped|
               == |s.idle| + Weight(s.threads[t]) + |s.lost| + |s.dropped|
  {
    match step
    case StopFails => OneMore(s.lost, SlotOf(s, t).id);
    case Return => OneMore(s.dropped, SlotOf(s, t).id);
    case Take =>
    case Put =>
    case _ => OthersConserve(env, s, t, step);
  }

  lemma OthersConserve(env: Env, s: State, t: nat, step: RunStep)
    requires RunEnabled(env, s, t, step) && !step.Take? && !step.Put? && !step.StopFails? && !step.Return?
    ensures var s' := RunNext(env, s, t, step);
            && s'.threads == s.threads[t := s'.threads[t]] && Weight(s'.threads[t]) == Weight(s.threads[t])
            && s'.idle == s.idle && s'.lost == s.lost && s'.dropped == s.dropped
  {
  }

  lemma StepConserves(env: Env, s: State, a: Action)
    requires Conserved(env, s) && SlotInv(env, s) && Enabled(env, s, a)
    ensures Conserved(env, Apply(env, s, a))
  {
    var s' := Apply(env, s, a);
    match a
    case Work(_, _) =>
    case Run(t, step) =>
      if Holds(s, t) {
        assert SlotAt(s, WithThread(t)).Some?;
        assert GoodSlot(env, s, SlotAt(s, WithThread(t)).value);
      }
      RunConserves(env, s, t, step);
      HoldersUpdate(s.threads, t, s'.threads[t]);
    case Talk(t, _) =>
      HoldersUpdate(s.threads, t, s'.threads[t]);
      assert s'.threads == s.threads[t := s'.threads[t]];
    case Close(t, _) =>
      HoldersUpdate(s.threads, t, s'.threads[t]);
      assert s'.threads == s.threads[t := s'.threads[t]];
  }

  lemma {:induction false} NobodyHolds(threads: seq<Thread>)
    requires forall t :: 0 <= t < |threads| ==> Weight(threads[t]) == 0
    ensures Holders(threads) == 0
  {
    if threads != [] {
      NobodyHolds(threads[1..]);
    }
  }

  /** Threads that hold a slot are counted. */
  lemma {:induction false} HoldersCount(threads: seq<Thread>, ts: set<nat>)
    requires forall t :: t in ts ==> t < |threads| && Weight(threads[t]) == 1
    ensures |ts| <= Holders(threads)
    decreases |ts|
  {
    if ts != {} {
      var t :| t in ts;
      HoldersUpdate(threads, t, Closer(CloseCalled));
      HoldersCount(threads[t := Closer(CloseCalled)], ts - {t});
    }
  }

  // ---- The lock and the registry ----

  predicate IsSpawning(s: State, t: nat) {
    Holds(s, t) && PhaseOf(s, t).Spawning?
  }

  /** The lock is held exactly by the thread that is starting a process. */
  ghost predicate LockInv(s: State) {
    && (forall t: nat :: IsSpawning(s, t) ==> s.lock == Some(t))
    && (s.lock.Some? ==> IsSpawning(s, s.lock.value))
  }

  /** A process leaves the registry only after it was stopped. */
  ghost predicate RegistryInv(s: State) {
    && (forall w :: w in s.workers ==> w < |s.procs|)
    && (forall w :: 0 <= w < |s.procs| && w !in s.workers ==> s.procs[w].stopped)
  }

  /** Once a closer has its snapshot, every registered process is still on its list or failed to stop. */
  ghost predicate CloserOk(s: State, at: CloseAt) {
    match at
    case CloseCalled => true
    case Flagged => s.closed
    case Sweeping(todo, failed) =>
      s.closed && s.lock == None && s.workers <= todo + failed && forall v :: v in todo ==> v < |s.procs|
    case Unlisting(w, todo, failed) =>
      && s.closed && s.lock == None && s.workers <= todo + failed + {w} && w < |s.procs| && s.procs[w].stopped
      && forall v :: v in todo ==> v < |s.procs|
    case Swept(failed) => s.closed && s.lock == None && s.workers <= failed
  }

  ghost predicate ClosersInv(s: State) {
    forall t: nat :: IsCloser(s, t) ==> CloserOk(s, s.threads[t].closeAt)
  }

  ghost predicate CloseInv(s: State) {
    LockInv(s) && RegistryInv(s) && ClosersInv(s)
  }

  /** Processes that leave the registry have been stopped, and stopped ones stay so. */
  lemma RegistryOnlyLosesStopped(env: Env, s: State, a: Action, w: nat)
    requires SlotInv(env, s) && ClosersInv(s) && Enabled(env, s, a) && w < |s.procs|
    ensures var s' := Apply(env, s, a);
            && w < |s'.procs| && (s.procs[w].stopped ==> s'.procs[w].stopped)
            && (w in s.workers && w !in s'.workers ==> s'.procs[w].stopped)
  {
    match a
    case Work(_, _) =>
    case Talk(_, _) =>
    case Run(t, step) => RunLosesStopped(env, s, t, step, w);
    case Close(t, _) => assert CloserOk(s, s.threads[t].closeAt);
  }

  lemma RunLosesStopped(env: Env, s: State, t: nat, step: RunStep, w: nat)
    requires SlotInv(env, s) && RunEnabled(env, s, t, step) && w < |s.procs|
    ensures var s' := RunNext(env, s, t, step);
            && w < |s'.procs| && s'.procs[w] == s.procs[w]
            && (w in s.workers && w !in s'.workers ==> s.procs[w].stopped)
  {
    if step.Forget? {
      assert GoodPhase(s, SlotOf(s, t), PhaseOf(s, t));
    }
  }

  lemma RegistryGainsOnlyProcs(env: Env, s: State, a: Action)
    requires Enabled(env, s, a)
    ensures var s' := Apply(env, s, a);
            && |s.procs| <= |s'.procs|
            && (forall w :: w in s'.workers && w !in s.workers ==> w < |s'.procs|)
            && (forall w :: |s.procs| <= w < |s'.procs| ==> w in s'.workers)
  {
  }

  lemma RegistryKept(env: Env, s: State, a: Action)
    requires RegistryInv(s) && SlotInv(env, s) && ClosersInv(s) && Enabled(env, s, a)
    ensures RegistryInv(Apply(env, s, a))
  {
    var s' := Apply(env, s, a);
    RegistryGainsOnlyProcs(env, s, a);
    forall w | 0 <= w < |s'.procs| && w !in s'.workers
      ensures s'.procs[w].stopped
    {
      RegistryOnlyLosesStopped(env, s, a, w);
    }
  }

  /** Which threads are spawning changes only when a thread takes the lock or gives it back. */
  lemma SpawningKept(env: Env, s: State, a: Action, t: nat)
    requires Enabled(env, s, a) && !(a.Run? && a.t == t && (a.run.LockToStart? || a.run.Spawn?))
    ensures IsSpawning(Apply(env, s, a), t) == IsSpawning(s, t)
  {
  }

  lemma LockKept(env: Env, s: State, a: Action)
    requires LockInv(s) && Enabled(env, s, a)
    ensures LockInv(Apply(env, s, a))
  {
    var s' := Apply(env, s, a);
    if a.Run? && (a.run.LockToStart? || a.run.Spawn?) {
      forall t: nat | t != a.t
        ensures IsSpawning(s', t) == IsSpawning(s, t)
      {
        SpawningKept(env, s, a, t);
      }
      if a.run.Spawn? {
        assert IsSpawning(s, a.t);
      }
    } else {
      forall t: nat
        ensures IsSpawning(s', t) == IsSpawning(s, t)
      {
        SpawningKept(env, s, a, t);
      }
    }
  }

  /** No step of another thread can spoil what a closer knows. */
  lemma CloserKept(env: Env, s: State, a: Action, at: CloseAt)
    requires LockInv(s) && Enabled(env, s, a) && CloserOk(s, at)
    ensures CloserOk(Apply(env, s, a), at)
  {
    var s' := Apply(env, s, a);
    assert s.closed ==> s'.closed;
    if s.closed && s.lock == None {
      assert s'.lock == None && s'.workers <= s.workers && |s'.procs| == |s.procs| by {
        if a.Run? && a.run.Spawn? {
          assert IsSpawning(s, a.t);
        }
      }
    }
  }

  lemma ClosersKept(env: Env, s: State, a: Action)
    requires LockInv(s) && RegistryInv(s) && ClosersInv(s) && Enabled(env, s, a)
    ensures ClosersInv(Apply(env, s, a))
  {
    var s' := Apply(env, s, a);
    forall t: nat | IsCloser(s', t)
      ensures CloserOk(s', s'.threads[t].closeAt)
    {
      if a.Close? && a.t == t {
        OwnCloserKept(env, s, t, a.close);
      } else {
        CloserStays(env, s, a, t);
        CloserKept(env, s, a, s.threads[t].closeAt);
      }
    }
  }

  lemma OwnCloserKept(env: Env, s: State, t: nat, step: CloseStep)
    requires LockInv(s) && RegistryInv(s) && CloseEnabled(s, t, step) && CloserOk(s, s.threads[t].closeAt)
    ensures CloserOk(CloseNext(s, t, step), CloseNext(s, t, step).threads[t].closeAt)
  {
  }

  lemma CloserStays(env: Env, s: State, a: Action, t: nat)
    requires Enabled(env, s, a) && !(a.Close? && a.t == t) && IsCloser(Apply(env, s, a), t)
    ensures IsCloser(s, t) && Apply(env, s, a).threads[t] == s.threads[t]
  {
  }

  lemma StepKeepsClosing(env: Env, s: State, a: Action)
    requires CloseInv(s) && SlotInv(env, s) && Enabled(env, s, a)
    ensures CloseInv(Apply(env, s, a))
  {
    LockKept(env, s, a);
    RegistryKept(env, s, a);
    ClosersKept(env, s, a);
  }

  lemma InitialClosing(env: Env, s: State)
    requires Initial(env, s)
    ensures CloseInv(s) && Conserved(env, s)
  {
    NobodyHolds(s.threads);
  }
}
