/** What holds in every reachable state of the pool, in every interleaving. */
module PoolTheorems {
  import opened PoolModel
  import opened PoolSlots
  import opened PoolClosing
  import opened PoolExchange
  import opened PoolWires

  /** Who holds what, and what close() relies on: none of it depends on the response codec. */
  ghost predicate HeldInv(env: Env, s: State) {
    SlotInv(env, s) && Conserved(env, s) && CloseInv(s)
  }

  lemma StepKeepsHeld(env: Env, s: State, a: Action)
    requires HeldInv(env, s) && Enabled(env, s, a)
    ensures HeldInv(env, Apply(env, s, a))
  {
    StepKeepsSlots(env, s, a);
    StepConserves(env, s, a);
    StepKeepsClosing(env, s, a);
  }

  lemma {:induction false} RunsKeepHeld(env: Env, s: State, steps: seq<Action>, s': State)
    requires HeldInv(env, s) && Runs(env, s, steps, s')
    ensures HeldInv(env, s')
    decreases |steps|
  {
    if steps != [] {
      StepKeepsHeld(env, s, steps[0]);
      RunsKeepHeld(env, Apply(env, s, steps[0]), steps[1..], s');
    }
  }

  lemma ReachableHeld(env: Env, s: State)
    requires Reachable(env, s)
    ensures HeldInv(env, s)
  {
    var s0, steps :| Initial(env, s0) && Runs(env, s0, steps, s);
    InitialSlots(env, s0);
    InitialClosing(env, s0);
    RunsKeepHeld(env, s0, steps, s);
  }

  ghost predicate Inv(env: Env, s: State) {
    HeldInv(env, s) && WiresInv(env, s) && AnswersInv(s)
  }

  lemma StepKeepsInv(env: Env, s: State, a: Action)
    requires Faithful(env) && Inv(env, s) && Enabled(env, s, a)
    ensures Inv(env, Apply(env, s, a))
  {
    StepKeepsHeld(env, s, a);
    StepKeepsWires(env, s, a);
    StepKeepsAnswers(env, s, a);
  }

  lemma {:induction false} RunsKeepInv(env: Env, s: State, steps: seq<Action>, s': State)
    requires Faithful(env) && Inv(env, s) && Runs(env, s, steps, s')
    ensures Inv(env, s')
    decreases |steps|
  {
    if steps != [] {
      StepKeepsInv(env, s, steps[0]);
      RunsKeepInv(env, Apply(env, s, steps[0]), steps[1..], s');
    }
  }

  lemma ReachableInv(env: Env, s: State)
    requires Faithful(env) && Reachable(env, s)
    ensures Inv(env, s)
  {
    var s0, steps :| Initial(env, s0) && Runs(env, s0, steps, s);
    InitialSlots(env, s0);
    InitialClosing(env, s0);
    InitialWires(env, s0);
    RunsKeepInv(env, s0, steps, s);
  }

  /**
   * Request/response matching: a response that a request took from a child was computed by that
   * child, for that request's image; and no computation answers two requests.
   */
  lemma ResponsesMatchRequests(env: Env, s: State, t: nat, u: nat)
    requires Faithful(env) && Reachable(env, s)
    requires IsRequest(s, t) && s.threads[t].at.Answered? && s.threads[t].at.outcome.FromChild?
    ensures var o := s.threads[t].at.outcome;
            && o.worker < |s.procs| && o.index < |s.procs[o.worker].log|
            && s.procs[o.worker].log[o.index] == (s.threads[t].image, o.response)
            && (u != t && IsRequest(s, u) && s.threads[u].at.Answered? && s.threads[u].at.outcome.FromChild? ==>
                  (s.threads[u].at.outcome.worker, s.threads[u].at.outcome.index) != (o.worker, o.index))
  {
    ReachableInv(env, s);
    assert Genuine(s, t);
    if u != t {
      assert DifferentSources(s, t, u);
    }
  }

  /** An idle worker is ready and its channel is empty in both directions. */
  lemma IdleWorkersAreClean(env: Env, s: State, i: nat)
    requires Faithful(env) && Reachable(env, s) && i < |s.idle| && s.idle[i].worker.Some?
    ensures var w := s.idle[i].worker.value;
            && w < |s.procs| && s.procs[w].ready && s.procs[w].toChild == [] && s.procs[w].toParent == []
            && !s.procs[w].child.Reading? && Unwritten(s.procs[w].child) == []
  {
    ReachableInv(env, s);
    assert WorkerAt(s, InQueue(i)).Some?;
    assert WiresOk(env, s, InQueue(i), s.procs[s.idle[i].worker.value]);
  }

  /** Slots are conserved; before close() none is dropped. */
  lemma SlotsAreConserved(env: Env, s: State)
    requires Reachable(env, s)
    ensures |s.idle| + Holders(s.threads) + |s.lost| + |s.dropped| == env.maxWorkers
    ensures !s.closed ==> |s.idle| + Holders(s.threads) + |s.lost| == env.maxWorkers
  {
    ReachableHeld(env, s);
    assert s.dropped == {} ==> |s.dropped| == 0;
  }

  /** put_nowait never finds the queue full. */
  lemma PutFindsRoom(env: Env, s: State, t: nat)
    requires Reachable(env, s) && Holds(s, t)
    ensures |s.idle| < env.maxWorkers
  {
    ReachableHeld(env, s);
    HoldersCount(s.threads, {t});
  }

  /** A worker is never with two requests, nor with a request and in the queue, nor twice in the queue. */
  lemma NoWorkerIsHeldTwice(env: Env, s: State, p: Place, q: Place)
    requires Reachable(env, s) && p != q && WorkerAt(s, p).Some? && WorkerAt(s, q).Some?
    ensures WorkerAt(s, p) != WorkerAt(s, q)
  {
    ReachableHeld(env, s);
    HeldOnce(env, s, p, q);
  }

  /** The slots of these processes, which are as many as the processes. */
  lemma {:induction false} SlotsOfProcs(env: Env, s: State, ws: set<nat>) returns (slots: set<nat>)
    requires SlotInv(env, s) && forall w :: w in ws ==> w < |s.procs| && !s.procs[w].stopped
    ensures |slots| == |ws| && forall k :: k in slots ==>
              k < env.maxWorkers && exists w :: w in ws && s.procs[w].slot == k
  {
    if ws == {} {
      return {};
    }
    var w :| w in ws;
    var rest := SlotsOfProcs(env, s, ws - {w});
    forall v | v in ws - {w}
      ensures s.procs[v].slot != s.procs[w].slot
    {
      assert v < w || w < v;
    }
    assert s.procs[w].slot !in rest;
    return rest + {s.procs[w].slot};
  }

  lemma {:induction false} BelowBound(ks: set<nat>, n: nat)
    requires forall k :: k in ks ==> k < n
    ensures |ks| <= n
  {
    if n > 0 {
      BelowBound(ks - {n - 1}, n - 1);
    } else {
      assert ks == {};
    }
  }

  /** At most max_workers processes exist that have not been stopped. */
  lemma ProcessesAreBounded(env: Env, s: State)
    requires Reachable(env, s)
    ensures |set w | 0 <= w < |s.procs| && !s.procs[w].stopped| <= env.maxWorkers
  {
    ReachableHeld(env, s);
    var ws: set<nat> := set w: nat | w < |s.procs| && !s.procs[w].stopped;
    var slots := SlotsOfProcs(env, s, ws);
    BelowBound(slots, env.maxWorkers);
    assert ws == set w | 0 <= w < |s.procs| && !s.procs[w].stopped;
  }

  /**
   * Of any max_workers + 1 threads, such as those of the handlers' executor, at least one is not
   * occupied with a child.
   */
  lemma OneThreadIsFree(env: Env, s: State, handlers: set<nat>)
    requires Reachable(env, s) && |handlers| > env.maxWorkers
    requires forall t :: t in handlers ==> t < |s.threads|
    ensures exists t :: t in handlers && !Holds(s, t)
  {
    SlotsAreConserved(env, s);
    if forall t :: t in handlers ==> Holds(s, t) {
      HoldersCount(s.threads, handlers);
    }
  }

  // ---- Shutdown ----

  predicate PastSnapshot(at: CloseAt) {
    at.Sweeping? || at.Unlisting? || at.Swept?
  }

  lemma StepStartsNothing(env: Env, s: State, a: Action, t: nat)
    requires CloseInv(s) && Enabled(env, s, a) && IsCloser(s, t) && PastSnapshot(s.threads[t].closeAt)
    ensures |Apply(env, s, a).procs| == |s.procs|
    ensures IsCloser(Apply(env, s, a), t) && PastSnapshot(Apply(env, s, a).threads[t].closeAt)
  {
    assert CloserOk(s, s.threads[t].closeAt);
    if a.Run? && a.run.Spawn? {
      assert IsSpawning(s, a.t);
    }
  }

  /** From close()'s snapshot on, and so after close() has returned, no worker is ever started. */
  lemma {:induction false} NothingStartsAfterClose(env: Env, s: State, t: nat, steps: seq<Action>, s': State)
    requires Reachable(env, s) && IsCloser(s, t) && PastSnapshot(s.threads[t].closeAt)
    requires Runs(env, s, steps, s')
    ensures |s'.procs| == |s.procs|
  {
    ReachableHeld(env, s);
    RunsStartNothing(env, s, t, steps, s');
  }

  lemma {:induction false} RunsStartNothing(env: Env, s: State, t: nat, steps: seq<Action>, s': State)
    requires HeldInv(env, s) && IsCloser(s, t) && PastSnapshot(s.threads[t].closeAt)
    requires Runs(env, s, steps, s')
    ensures |s'.procs| == |s.procs|
    decreases |steps|
  {
    if steps != [] {
      StepStartsNothing(env, s, steps[0], t);
      StepKeepsHeld(env, s, steps[0]);
      RunsStartNothing(env, Apply(env, s, steps[0]), t, steps[1..], s');
    }
  }

  /**
   * Once close() has returned, every process ever started has been stopped and has left the
   * registry, except those whose stop() raised in this close().
   */
  lemma CloseStopsEverything(env: Env, s: State, t: nat, w: nat)
    requires Reachable(env, s)
    requires IsCloser(s, t) && s.threads[t].closeAt.Swept? && w < |s.procs| && w !in s.threads[t].closeAt.failed
    ensures s.procs[w].stopped && w !in s.workers
  {
    ReachableHeld(env, s);
    assert CloserOk(s, s.threads[t].closeAt);
  }
}
