/** Why `run` and `close` come to an end: nobody is stuck, and each thread has finitely many steps to take. */
module PoolProgress {
  import opened Basics
  import opened Framing
  import opened PoolModel
  import opened PoolSlots
  import opened PoolClosing
  import opened PoolTheorems

  // ---- Nobody is stuck ----

  /** The thread's next step is to take the lock, or to use the registry under it. */
  predicate NeedsLock(th: Thread) {
    match th
    case Closer(at) => at.Flagged? || at.Unlisting?
    case Request(_, Holding(_, phase)) => phase.Starting? || phase.Forgetting? || phase.Removing?
    case Request(_, _) => false
  }

  /** A step that thread t can take now, or as soon as nobody is starting a process. */
  ghost function NextStep(s: State, t: nat): Action
    requires t < |s.threads|
  {
    match s.threads[t]
    case Closer(CloseCalled) => Close(t, Flag)
    case Closer(Flagged) => Close(t, Snapshot)
    case Closer(Sweeping(todo, _)) =>
      if todo == {} then Close(t, CloseDone) else Close(t, StopSwept(SomeOf(todo), false))
    case Closer(_) => Close(t, Unlist)
    case Request(_, Asked) => Run(t, Admit(false))
    case Request(_, Admitted) => Run(t, Take)
    case Request(_, Holding(slot, phase)) =>
      (match phase
       case Took => if slot.worker.Some? then Talk(t, LookAlive) else Run(t, FindEmpty)
       case Replacing => Run(t, StopFails)
       case Forgetting => Run(t, Forget)
       case Starting => Run(t, LockToStart)
       case Spawning => Run(t, Spawn(false))
       case Finishing(_, _) => Run(t, Finish)
       case Stopping(_) => Run(t, StopFails)
       case Removing(_) => Run(t, Forget)
       case Returning(_) => Run(t, Return)
       case Putting(_) => Run(t, Put)
       case _ => Run(t, GiveUp("timeout")))
    case Request(_, Answered(_)) => Run(t, Admit(false))
  }

  ghost function SomeOf(ws: set<nat>): (w: nat)
    requires ws != {}
    ensures w in ws
  {
    var w :| w in ws;
    w
  }

  predicate Unfinished(th: Thread) {
    if th.Request? then !th.at.Answered? else !th.closeAt.Swept?
  }

  /**
   * No deadlock: a thread that has not returned can take a step now, unless that step needs the
   * lock while another thread is starting a process, which can then end now.
   */
  lemma NobodyIsStuck(env: Env, s: State, t: nat)
    requires Reachable(env, s) && t < |s.threads| && Unfinished(s.threads[t])
    ensures Enabled(env, s, NextStep(s, t))
            || (NeedsLock(s.threads[t]) && s.lock.Some? && s.lock.value != t
                && Enabled(env, s, Run(s.lock.value, Spawn(false))))
  {
    ReachableHeld(env, s);
    if s.lock.Some? {
      assert IsSpawning(s, s.lock.value);
    }
    if s.threads[t].Closer? {
      assert CloserOk(s, s.threads[t].closeAt);
      CloserNotStuck(env, s, t);
    } else if Holds(s, t) {
      PutFindsRoom(env, s, t);
      assert SlotAt(s, WithThread(t)).Some? && GoodSlot(env, s, SlotAt(s, WithThread(t)).value);
      HolderNotStuck(env, s, t);
    }
  }

  lemma CloserNotStuck(env: Env, s: State, t: nat)
    requires IsCloser(s, t) && Unfinished(s.threads[t]) && CloserOk(s, s.threads[t].closeAt)
    ensures Enabled(env, s, NextStep(s, t)) || (NeedsLock(s.threads[t]) && s.lock.Some?)
  {
  }

  lemma HolderNotStuck(env: Env, s: State, t: nat)
    requires Holds(s, t) && GoodSlot(env, s, SlotOf(s, t)) && GoodPhase(s, SlotOf(s, t), PhaseOf(s, t))
    requires |s.idle| < env.maxWorkers
    ensures Enabled(env, s, NextStep(s, t)) || (NeedsLock(s.threads[t]) && s.lock.Some?)
  {
  }

  // ---- Steps are used up ----

  predicate IsOwn(a: Action, t: nat) {
    !a.Work? && a.t == t
  }

  /** How many of the steps are thread t's own. */
  function OwnSteps(steps: seq<Action>, t: nat): nat {
    if steps == [] then 0 else (if IsOwn(steps[0], t) then 1 else 0) + OwnSteps(steps[1..], t)
  }

  /** The longest frame. */
  const FRAME: nat := MAX_MESSAGE + 4

  /** The bytes a receiver may still take before its message is complete or refused. */
  function Receivable(got: Text): nat {
    if |got| < FRAME then FRAME - |got| else 0
  }

  /** Own steps that a request may still have to take: one a phase, one a byte at most. */
  function Effort(th: Thread): nat
    requires th.Request?
  {
    match th.at
    case Asked => 15 + 3 * FRAME
    case Admitted => 14 + 3 * FRAME
    case Answered(_) => 0
    case Holding(_, phase) =>
      (match phase
       case Took => 13 + 3 * FRAME
       case Replacing => 12 + 3 * FRAME
       case Forgetting => 11 + 3 * FRAME
       case Starting => 10 + 3 * FRAME
       case Spawning => 9 + 3 * FRAME
       case AwaitReady(got) => 8 + 2 * FRAME + Receivable(got)
       case SendingImage(rest, _) => 7 + FRAME + |rest|
       case AwaitResponse(got, _) => 6 + Receivable(got)
       case Finishing(_, _) => 5
       case Stopping(_) => 4
       case Removing(_) => 3
       case Returning(_) => 2
       case Putting(_) => 1)
  }

  lemma TakingIsProgress(got: Text, available: Text, n: nat)
    requires CanTake(got, available, n)
    ensures Receivable(got + available[..n]) < Receivable(got)
  {
  }

  lemma TalkIsProgress(env: Env, s: State, t: nat, step: TalkStep)
    requires Enabled(env, s, Talk(t, step))
    ensures var s' := Apply(env, s, Talk(t, step));
            IsRequest(s', t) && Effort(s'.threads[t]) < Effort(s.threads[t])
  {
    var phase, p := PhaseOf(s, t), s.procs[SlotOf(s, t).worker.value];
    match step
    case TakeReady(n) => TakingIsProgress(phase.got, p.toParent, n);
    case TakeResponse(n) => TakingIsProgress(phase.got, p.toParent, n);
    case _ =>
  }

  lemma RunIsProgress(env: Env, s: State, t: nat, step: RunStep)
    requires Enabled(env, s, Run(t, step))
    ensures var s' := Apply(env, s, Run(t, step));
            IsRequest(s', t) && Effort(s'.threads[t]) < Effort(s.threads[t])
  {
  }

  /** Nobody else's step changes where a thread is. */
  lemma OthersLeaveAlone(env: Env, s: State, a: Action, t: nat)
    requires Enabled(env, s, a) && !IsOwn(a, t) && t < |s.threads|
    ensures |Apply(env, s, a).threads| == |s.threads| && Apply(env, s, a).threads[t] == s.threads[t]
  {
  }

  lemma StepIsProgress(env: Env, s: State, a: Action, t: nat)
    requires Enabled(env, s, a) && IsRequest(s, t)
    ensures var s' := Apply(env, s, a);
            IsRequest(s', t) && Effort(s'.threads[t]) + OwnSteps([a], t) <= Effort(s.threads[t])
  {
    assert OwnSteps([a][1..], t) == 0;
    if !IsOwn(a, t) {
      OthersLeaveAlone(env, s, a, t);
    } else if a.Talk? {
      TalkIsProgress(env, s, t, a.talk);
    } else if a.Run? {
      RunIsProgress(env, s, t, a.run);
    }
  }

  /**
   * run() ends by itself: whatever the other threads and the children do, a request takes no more
   * own steps than there are phases and bytes of its three frames.
   */
  lemma {:induction false} RunTakesFinitelyManySteps(env: Env, s: State, steps: seq<Action>, s': State, t: nat)
    requires Runs(env, s, steps, s') && IsRequest(s, t)
    ensures IsRequest(s', t) && OwnSteps(steps, t) + Effort(s'.threads[t]) <= Effort(s.threads[t])
    ensures s.threads[t].at == Asked ==> OwnSteps(steps, t) <= 15 + 3 * FRAME
    decreases |steps|
  {
    if steps != [] {
      StepIsProgress(env, s, steps[0], t);
      assert OwnSteps([steps[0]][1..], t) == 0;
      RunTakesFinitelyManySteps(env, Apply(env, s, steps[0]), steps[1..], s', t);
    }
  }

  // ---- The closer ----

  /** Own steps that a closer may still have to take when no more than n processes are ever started. */
  function CloseEffort(at: CloseAt, n: nat): nat {
    match at
    case CloseCalled => 2 * n + 3
    case Flagged => 2 * n + 2
    case Sweeping(todo, _) => 2 * |todo| + 1
    case Unlisting(_, todo, _) => 2 * |todo| + 2
    case Swept(_) => 0
  }

  lemma CloseIsProgress(env: Env, s: State, t: nat, step: CloseStep, n: nat)
    requires Enabled(env, s, Close(t, step)) && |s.workers| <= n
    ensures var s' := Apply(env, s, Close(t, step));
            IsCloser(s', t) && CloseEffort(s'.threads[t].closeAt, n) < CloseEffort(s.threads[t].closeAt, n)
  {
  }

  lemma {:induction false} ProcessesStay(env: Env, s: State, steps: seq<Action>, s': State)
    requires Runs(env, s, steps, s')
    ensures |s.procs| <= |s'.procs|
    decreases |steps|
  {
    if steps != [] {
      RegistryGainsOnlyProcs(env, s, steps[0]);
      ProcessesStay(env, Apply(env, s, steps[0]), steps[1..], s');
    }
  }

  /**
   * close() ends by itself: it takes no more own steps than two for each process ever started, and
   * three, whatever requests, children and other closers do meanwhile.
   */
  lemma {:induction false} CloseTakesFinitelyManySteps(env: Env, s: State, steps: seq<Action>, s': State, t: nat)
    requires Reachable(env, s) && Runs(env, s, steps, s') && IsCloser(s, t) && s.threads[t].closeAt == CloseCalled
    ensures OwnSteps(steps, t) <= 2 * |s'.procs| + 3
  {
    ReachableHeld(env, s);
    CloserIsUsedUp(env, s, steps, s', t, |s'.procs|);
  }

  lemma {:induction false} CloserIsUsedUp(env: Env, s: State, steps: seq<Action>, s': State, t: nat, n: nat)
    requires HeldInv(env, s) && Runs(env, s, steps, s') && IsCloser(s, t) && |s'.procs| <= n
    ensures IsCloser(s', t)
    ensures OwnSteps(steps, t) + CloseEffort(s'.threads[t].closeAt, n) <= CloseEffort(s.threads[t].closeAt, n)
    decreases |steps|
  {
    if steps != [] {
      var a := steps[0];
      ProcessesStay(env, s, steps, s');
      BelowBound(s.workers, |s.procs|);
      if IsOwn(a, t) {
        CloseIsProgress(env, s, t, a.close, n);
      } else {
        OthersLeaveAlone(env, s, a, t);
      }
      StepKeepsHeld(env, s, a);
      CloserIsUsedUp(env, Apply(env, s, a), steps[1..], s', t, n);
    }
  }
}
