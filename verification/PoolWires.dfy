/** The wires of every worker, wherever it is held, and where every answer came from. */
module PoolWires {
  import opened Basics
  import opened Framing
  import opened PoolModel
  import opened PoolSlots
  import opened PoolExchange

  // ---- Wires ----

  /** The worker in this place, if there is one. */
  function WorkerAt(s: State, p: Place): Option<nat> {
    if SlotAt(s, p).Some? then SlotAt(s, p).value.worker else None
  }

  predicate WiresOk(env: Env, s: State, p: Place, proc: Proc) {
    match p
    case InQueue(_) => Clean(proc)
    case WithThread(t) => Holds(s, t) ==> PhaseOk(env, s.threads[t].image, PhaseOf(s, t), proc)
  }

  /** An idle worker is clean, and a busy one is as its request's phase says. */
  ghost predicate WiresInv(env: Env, s: State) {
    forall p :: WorkerAt(s, p).Some? ==>
      WorkerAt(s, p).value < |s.procs| && WiresOk(env, s, p, s.procs[WorkerAt(s, p).value])
  }

  /** No worker is in two places. */
  lemma HeldOnce(env: Env, s: State, p: Place, q: Place)
    requires SlotInv(env, s) && p != q && WorkerAt(s, p).Some? && WorkerAt(s, q).Some?
    ensures WorkerAt(s, p) != WorkerAt(s, q)
  {
    assert GoodSlot(env, s, SlotAt(s, p).value) && GoodSlot(env, s, SlotAt(s, q).value);
    assert SlotAt(s, p).value.id != SlotAt(s, q).value.id;
  }

  lemma WorkKeepsWires(env: Env, s: State, w: nat, step: ChildStep)
    requires WiresInv(env, s) && SlotInv(env, s) && Enabled(env, s, Work(w, step))
    ensures WiresInv(env, Apply(env, s, Work(w, step)))
  {
    var s' := Apply(env, s, Work(w, step));
    forall p | WorkerAt(s', p).Some?
      ensures WorkerAt(s', p).value < |s'.procs| && WiresOk(env, s', p, s'.procs[WorkerAt(s', p).value])
    {
      assert SlotAt(s', p) == SlotAt(s, p);
      assert WiresOk(env, s, p, s.procs[WorkerAt(s, p).value]);
      if WorkerAt(s, p).value == w {
        match p
        case InQueue(_) => ChildKeepsClean(env, s.procs[w], step);
        case WithThread(t) => ChildKeepsPhase(env, s.threads[t].image, PhaseOf(s, t), s.procs[w], step);
      }
    }
  }

  lemma TalkKeepsWires(env: Env, s: State, t: nat, step: TalkStep)
    requires Faithful(env) && WiresInv(env, s) && SlotInv(env, s) && Enabled(env, s, Talk(t, step))
    ensures WiresInv(env, Apply(env, s, Talk(t, step)))
  {
    var s' := Apply(env, s, Talk(t, step));
    var w := SlotOf(s, t).worker.value;
    assert WorkerAt(s, WithThread(t)) == Some(w);
    forall p | WorkerAt(s', p).Some?
      ensures WorkerAt(s', p).value < |s'.procs| && WiresOk(env, s', p, s'.procs[WorkerAt(s', p).value])
    {
      assert SlotAt(s', p) == SlotAt(s, p);
      assert WiresOk(env, s, p, s.procs[WorkerAt(s, p).value]);
      if p == WithThread(t) {
        TalkKeepsPhase(env, s.threads[t].image, w, PhaseOf(s, t), s.procs[w], step);
      } else {
        HeldOnce(env, s, p, WithThread(t));
      }
    }
  }

  lemma CloseKeepsWires(env: Env, s: State, t: nat, step: CloseStep)
    requires WiresInv(env, s) && Enabled(env, s, Close(t, step))
    ensures WiresInv(env, Apply(env, s, Close(t, step)))
  {
    var s' := Apply(env, s, Close(t, step));
    forall p | WorkerAt(s', p).Some?
      ensures WorkerAt(s', p).value < |s'.procs| && WiresOk(env, s', p, s'.procs[WorkerAt(s', p).value])
    {
      assert SlotAt(s', p) == SlotAt(s, p);
      var w := WorkerAt(s, p).value;
      assert WiresOk(env, s, p, s.procs[w]);
      if p.WithThread? {
        StopKeepsPhase(env, s.threads[p.t].image, PhaseOf(s, p.t), s.procs[w]);
      }
    }
  }

  /** Places that the step of thread t does not touch. */
  lemma UntouchedWires(env: Env, s: State, t: nat, step: RunStep, p: Place)
    requires WiresInv(env, s) && Enabled(env, s, Run(t, step)) && p != WithThread(t)
    ensures var s' := RunNext(env, s, t, step);
            WorkerAt(s', p).Some? && !(step.Put? && p == InQueue(|s.idle|)) ==>
              WorkerAt(s', p).value < |s'.procs| && WiresOk(env, s', p, s'.procs[WorkerAt(s', p).value])
  {
    var s' := RunNext(env, s, t, step);
    if WorkerAt(s', p).Some? && !(step.Put? && p == InQueue(|s.idle|)) {
      assert SlotAt(s', p) == SlotAt(s, p);
      assert WiresOk(env, s, p, s.procs[WorkerAt(s, p).value]);
    }
  }

  lemma OwnWires(env: Env, s: State, t: nat, step: RunStep)
    requires WiresInv(env, s) && SlotInv(env, s) && Enabled(env, s, Run(t, step))
    ensures var s' := RunNext(env, s, t, step);
            WorkerAt(s', WithThread(t)).Some? ==>
              WorkerAt(s', WithThread(t)).value < |s'.procs|
              && WiresOk(env, s', WithThread(t), s'.procs[WorkerAt(s', WithThread(t)).value])
  {
    var s' := RunNext(env, s, t, step);
    if step.Spawn? {
      if step.ok {
        NewWires(env, s, t);
      } else {
        assert GoodPhase(s, SlotOf(s, t), PhaseOf(s, t));
      }
    } else if step.Take? {
      if s.idle != [] && WorkerAt(s, InQueue(|s.idle| - 1)).Some? {
        assert WiresOk(env, s, InQueue(|s.idle| - 1), s.procs[WorkerAt(s, InQueue(|s.idle| - 1)).value]);
      }
    } else if Holds(s, t) {
      assert GoodPhase(s, SlotOf(s, t), PhaseOf(s, t));
      if WorkerAt(s, WithThread(t)).Some? {
        assert WiresOk(env, s, WithThread(t), s.procs[WorkerAt(s, WithThread(t)).value]);
      }
    }
  }

  lemma NewWires(env: Env, s: State, t: nat)
    requires RunEnabled(env, s, t, Spawn(true))
    ensures var s' := RunNext(env, s, t, Spawn(true));
            && WorkerAt(s', WithThread(t)) == Some(|s.procs|) && |s'.procs| == |s.procs| + 1
            && WiresOk(env, s', WithThread(t), s'.procs[|s.procs|])
  {
    var id := SlotOf(s, t).id;
    assert [] + [] + Framed(READY) == Framed(READY);
    assert Announcing(NewProc(id), []);
  }

  lemma RunKeepsWires(env: Env, s: State, t: nat, step: RunStep)
    requires WiresInv(env, s) && SlotInv(env, s) && Enabled(env, s, Run(t, step))
    ensures WiresInv(env, Apply(env, s, Run(t, step)))
  {
    var s' := RunNext(env, s, t, step);
    OwnWires(env, s, t, step);
    forall p | WorkerAt(s', p).Some?
      ensures WorkerAt(s', p).value < |s'.procs| && WiresOk(env, s', p, s'.procs[WorkerAt(s', p).value])
    {
      if step.Put? && p == InQueue(|s.idle|) {
        assert WorkerAt(s, WithThread(t)) == WorkerAt(s', p);
        assert WiresOk(env, s, WithThread(t), s.procs[WorkerAt(s', p).value]);
      } else if p != WithThread(t) {
        UntouchedWires(env, s, t, step, p);
      }
    }
  }

  lemma StepKeepsWires(env: Env, s: State, a: Action)
    requires Faithful(env) && WiresInv(env, s) && SlotInv(env, s) && Enabled(env, s, a)
    ensures WiresInv(env, Apply(env, s, a))
  {
    match a
    case Work(w, step) => WorkKeepsWires(env, s, w, step);
    case Talk(t, step) => TalkKeepsWires(env, s, t, step);
    case Run(t, step) => RunKeepsWires(env, s, t, step);
    case Close(t, step) => CloseKeepsWires(env, s, t, step);
  }

  // ---- Answers ----

  function OutcomeOf(th: Thread): Option<Outcome> {
    if th.Closer? then None
    else
      match th.at
      case Answered(outcome) => Some(outcome)
      case Holding(_, Finishing(_, outcome)) => Some(outcome)
      case Holding(_, Stopping(outcome)) => Some(outcome)
      case Holding(_, Removing(outcome)) => Some(outcome)
      case Holding(_, Returning(outcome)) => Some(outcome)
      case Holding(_, Putting(outcome)) => Some(outcome)
      case _ => None
  }

  /** The computation that thread t's answer was taken from: worker and position in its log. */
  function Source(s: State, t: nat): Option<Outcome> {
    if t < |s.threads| && OutcomeOf(s.threads[t]).Some? && OutcomeOf(s.threads[t]).value.FromChild?
    then OutcomeOf(s.threads[t]) else None
  }

  /** The request in which thread t is exchanging bytes with its worker. */
  function Exchange(s: State, t: nat): Option<(nat, nat)> {
    if Holds(s, t) && SlotOf(s, t).worker.Some? then
      match PhaseOf(s, t)
      case SendingImage(_, base) => Some((SlotOf(s, t).worker.value, base))
      case AwaitResponse(_, base) => Some((SlotOf(s, t).worker.value, base))
      case _ => None
    else None
  }

  /** An answer is what its child computed for this very image. */
  predicate Genuine(s: State, t: nat)
    requires t < |s.threads| && s.threads[t].Request?
  {
    Source(s, t).Some? ==>
      var o := Source(s, t).value;
      && o.worker < |s.procs| && o.index < |s.procs[o.worker].log|
      && s.procs[o.worker].log[o.index] == (s.threads[t].image, o.response)
  }

  /** Two answers are never the same computation. */
  predicate DifferentSources(s: State, t: nat, u: nat) {
    Source(s, t).Some? && Source(s, u).Some? ==>
      Source(s, t).value.worker != Source(s, u).value.worker || Source(s, t).value.index != Source(s, u).value.index
  }

  /** The response that t is waiting for has not been taken by u. */
  predicate NotTakenBy(s: State, t: nat, u: nat) {
    Exchange(s, t).Some? && Source(s, u).Some? && Source(s, u).value.worker == Exchange(s, t).value.0 ==>
      Source(s, u).value.index < Exchange(s, t).value.1
  }

  ghost predicate AnswersInv(s: State) {
    && (forall t: nat :: IsRequest(s, t) ==> Genuine(s, t))
    && (forall t: nat, u: nat :: t != u ==> DifferentSources(s, t, u))
    && (forall t: nat, u: nat :: NotTakenBy(s, t, u))
  }

  /** Logs only grow. */
  ghost predicate LogsGrow(s: State, s': State) {
    && |s.procs| <= |s'.procs|
    && forall w :: 0 <= w < |s.procs| ==> s.procs[w].log <= s'.procs[w].log
  }

  lemma StepGrowsLogs(env: Env, s: State, a: Action)
    requires Enabled(env, s, a)
    ensures LogsGrow(s, Apply(env, s, a))
  {
    match a
    case Work(w, step) => ChildLogGrows(env, s.procs[w], step);
    case Talk(t, step) => TalkLogStays(PhaseOf(s, t), s.procs[SlotOf(s, t).worker.value], step);
    case Run(t, step) => RunKeepsProcs(env, s, t, step);
    case Close(_, _) =>
  }

  lemma ChildLogGrows(env: Env, p: Proc, step: ChildStep)
    requires ChildEnabled(p, step)
    ensures p.log <= ChildNext(env, p, step).log
  {
  }

  lemma TalkLogStays(phase: Phase, p: Proc, step: TalkStep)
    requires TalkEnabled(false, phase, p, step)
    ensures TalkProc(phase, p, step).log == p.log
  {
  }

  lemma RunKeepsProcs(env: Env, s: State, t: nat, step: RunStep)
    requires RunEnabled(env, s, t, step)
    ensures s.procs <= RunNext(env, s, t, step).procs
  {
  }

  /** No new answer and no new exchange. */
  lemma NothingNewKeeps(s: State, s': State)
    requires AnswersInv(s) && LogsGrow(s, s') && |s'.threads| == |s.threads|
    requires forall t :: 0 <= t < |s.threads| ==> s'.threads[t].Request? == s.threads[t].Request?
    requires forall t :: 0 <= t < |s.threads| && s.threads[t].Request? ==> s'.threads[t].image == s.threads[t].image
    requires forall t: nat :: Source(s', t).None? || Source(s', t) == Source(s, t)
    requires forall t: nat :: Exchange(s', t).None? || Exchange(s', t) == Exchange(s, t)
    ensures AnswersInv(s')
  {
    forall t: nat | IsRequest(s', t)
      ensures Genuine(s', t)
    {
      assert IsRequest(s, t) && Genuine(s, t);
    }
    forall t: nat, u: nat | t != u
      ensures DifferentSources(s', t, u)
    {
      assert DifferentSources(s, t, u);
    }
    forall t: nat, u: nat
      ensures NotTakenBy(s', t, u)
    {
      assert NotTakenBy(s, t, u);
    }
  }

  /** The steps of a request that start an exchange or take a response. */
  predicate StartsOrEnds(step: TalkStep) {
    step.LookAlive? || step.ReadyDone? || step.ResponseDone?
  }

  lemma RunAnswersNothingNew(env: Env, s: State, t: nat, step: RunStep, u: nat)
    requires PhasesGood(s) && Enabled(env, s, Run(t, step))
    ensures var s' := RunNext(env, s, t, step);
            && (Source(s', u).None? || Source(s', u) == Source(s, u))
            && (Exchange(s', u).None? || Exchange(s', u) == Exchange(s, u))
  {
    if u == t {
      OwnAnswersNothingNew(env, s, t, step);
    } else {
      RunSameRequests(env, s, t, step);
    }
  }

  lemma OwnAnswersNothingNew(env: Env, s: State, t: nat, step: RunStep)
    requires PhasesGood(s) && Enabled(env, s, Run(t, step))
    ensures var s' := RunNext(env, s, t, step);
            && (Source(s', t).None? || Source(s', t) == Source(s, t))
            && (Exchange(s', t).None? || Exchange(s', t) == Exchange(s, t))
  {
    if Holds(s, t) {
      assert GoodPhase(s, SlotOf(s, t), PhaseOf(s, t));
    }
  }

  lemma OthersAnswerNothingNew(env: Env, s: State, a: Action, u: nat)
    requires Enabled(env, s, a) && !a.Run? && !(a.Talk? && StartsOrEnds(a.talk))
    ensures var s' := Apply(env, s, a);
            && (Source(s', u).None? || Source(s', u) == Source(s, u))
            && (Exchange(s', u).None? || Exchange(s', u) == Exchange(s, u))
  {
  }

  lemma OthersKeepAnswers(env: Env, s: State, a: Action)
    requires AnswersInv(s) && SlotInv(env, s) && Enabled(env, s, a) && !(a.Talk? && StartsOrEnds(a.talk))
    ensures AnswersInv(Apply(env, s, a))
  {
    var s' := Apply(env, s, a);
    StepGrowsLogs(env, s, a);
    forall u: nat
      ensures Source(s', u).None? || Source(s', u) == Source(s, u)
      ensures Exchange(s', u).None? || Exchange(s', u) == Exchange(s, u)
    {
      if a.Run? {
        RunAnswersNothingNew(env, s, a.t, a.run, u);
      } else {
        OthersAnswerNothingNew(env, s, a, u);
      }
    }
    SameRequests(env, s, a);
    NothingNewKeeps(s, s');
  }

  /** Threads stay what they are, with their images. */
  lemma SameRequests(env: Env, s: State, a: Action)
    requires Enabled(env, s, a)
    ensures var s' := Apply(env, s, a);
            && |s'.threads| == |s.threads|
            && forall t :: 0 <= t < |s.threads| ==>
                 s'.threads[t].Request? == s.threads[t].Request? &&
                 (s.threads[t].Request? ==> s'.threads[t].image == s.threads[t].image)
  {
    if a.Run? {
      RunSameRequests(env, s, a.t, a.run);
    }
  }

  lemma RunSameRequests(env: Env, s: State, t: nat, step: RunStep)
    requires RunEnabled(env, s, t, step)
    ensures exists at :: RunNext(env, s, t, step).threads == s.threads[t := Request(s.threads[t].image, at)]
  {
    var s' := RunNext(env, s, t, step);
    assert s'.threads == s.threads[t := Request(s.threads[t].image, s'.threads[t].at)];
  }

  /** An exchange that starts now waits for a computation that is still to be made. */
  lemma StartKeepsAnswers(env: Env, s: State, t: nat, step: TalkStep)
    requires AnswersInv(s) && Enabled(env, s, Talk(t, step)) && (step.LookAlive? || step.ReadyDone?)
    ensures AnswersInv(Apply(env, s, Talk(t, step)))
  {
    var s' := Apply(env, s, Talk(t, step));
    var w := SlotOf(s, t).worker.value;
    forall u: nat
      ensures Source(s', u).None? || Source(s', u) == Source(s, u)
      ensures u != t ==> Exchange(s', u) == Exchange(s, u)
      ensures Exchange(s', t).None? || Exchange(s', t) == Some((w, |s.procs[w].log|))
    {
    }
    forall u: nat | IsRequest(s', u)
      ensures Genuine(s', u)
    {
      assert IsRequest(s, u) && Genuine(s, u);
    }
    forall u: nat, v: nat | u != v
      ensures DifferentSources(s', u, v)
    {
      assert DifferentSources(s, u, v);
    }
    forall u: nat, v: nat
      ensures NotTakenBy(s', u, v)
    {
      assert NotTakenBy(s, u, v);
      if Source(s, v).Some? {
        assert IsRequest(s, v) && Genuine(s, v);
      }
    }
  }

  /** What the step changes: this exchange becomes an answer. */
  lemma TakesTheResponse(env: Env, s: State, t: nat)
    requires Faithful(env) && WiresInv(env, s) && Enabled(env, s, Talk(t, ResponseDone))
    ensures var s', w, base := Apply(env, s, Talk(t, ResponseDone)), SlotOf(s, t).worker.value, PhaseOf(s, t).base;
            && Exchange(s, t) == Some((w, base)) && Exchange(s', t) == None
            && base < |s.procs[w].log| && s.procs[w].log[base].0 == s.threads[t].image
            && Source(s', t) == Some(FromChild(w, base, s.procs[w].log[base].1))
            && s'.procs == s.procs
  {
    var s', w, base := Apply(env, s, Talk(t, ResponseDone)), SlotOf(s, t).worker.value, PhaseOf(s, t).base;
    assert WorkerAt(s, WithThread(t)) == Some(w);
    assert WiresOk(env, s, WithThread(t), s.procs[w]);
    ResponsePhase(env, s.threads[t].image, w, PhaseOf(s, t), s.procs[w]);
  }

  lemma ResponsePhase(env: Env, image: Text, w: nat, phase: Phase, p: Proc)
    requires Faithful(env) && phase.AwaitResponse? && PhaseOk(env, image, phase, p) && Receiving(phase.got).Complete?
    ensures phase.base < |p.log| && p.log[phase.base].0 == image
    ensures var r := p.log[phase.base].1;
            TalkPhase(env, image, w, phase, p, ResponseDone) == Finishing(Reusable(r), FromChild(w, phase.base, r))
  {
    ResponseIsTheComputedOne(env, image, p, phase.got, phase.base);
  }

  lemma OthersKeepTheirs(env: Env, s: State, t: nat, u: nat)
    requires Enabled(env, s, Talk(t, ResponseDone)) && u != t
    ensures var s' := Apply(env, s, Talk(t, ResponseDone));
            && Source(s', u) == Source(s, u) && Exchange(s', u) == Exchange(s, u)
            && IsRequest(s', u) == IsRequest(s, u) && (IsRequest(s, u) ==> s'.threads[u] == s.threads[u])
  {
  }

  /** The response taken now is the one computed for this image, and nobody else has it. */
  lemma TakeKeepsAnswers(env: Env, s: State, t: nat)
    requires Faithful(env) && AnswersInv(s) && SlotInv(env, s) && WiresInv(env, s)
    requires Enabled(env, s, Talk(t, ResponseDone))
    ensures AnswersInv(Apply(env, s, Talk(t, ResponseDone)))
  {
    var s' := Apply(env, s, Talk(t, ResponseDone));
    TakesTheResponse(env, s, t);
    forall u: nat | u != t
      ensures Source(s', u) == Source(s, u) && Exchange(s', u) == Exchange(s, u) && IsRequest(s', u) == IsRequest(s, u)
      ensures IsRequest(s, u) ==> s'.threads[u] == s.threads[u]
    {
      OthersKeepTheirs(env, s, t, u);
    }
    forall u: nat | IsRequest(s', u)
      ensures Genuine(s', u)
    {
      assert IsRequest(s, u) && Genuine(s, u);
    }
    forall u: nat, v: nat | u != v
      ensures DifferentSources(s', u, v)
    {
      assert DifferentSources(s, u, v) && NotTakenBy(s, t, u) && NotTakenBy(s, t, v);
    }
    forall u: nat, v: nat
      ensures NotTakenBy(s', u, v)
    {
      assert NotTakenBy(s, u, v);
      if u != t && Exchange(s, u).Some? {
        OtherExchange(env, s, t, u);
      }
    }
  }

  /** Two exchanges are with different workers. */
  lemma OtherExchange(env: Env, s: State, t: nat, u: nat)
    requires SlotInv(env, s) && u != t && Exchange(s, t).Some? && Exchange(s, u).Some?
    ensures Exchange(s, u).value.0 != Exchange(s, t).value.0
  {
    HeldOnce(env, s, WithThread(u), WithThread(t));
  }

  lemma StepKeepsAnswers(env: Env, s: State, a: Action)
    requires Faithful(env) && AnswersInv(s) && SlotInv(env, s) && WiresInv(env, s) && Enabled(env, s, a)
    ensures AnswersInv(Apply(env, s, a))
  {
    if a.Talk? && StartsOrEnds(a.talk) {
      if a.talk.ResponseDone? {
        TakeKeepsAnswers(env, s, a.t);
      } else {
        StartKeepsAnswers(env, s, a.t, a.talk);
      }
    } else {
      OthersKeepAnswers(env, s, a);
    }
  }

  lemma InitialWires(env: Env, s: State)
    requires Initial(env, s)
    ensures WiresInv(env, s) && AnswersInv(s)
  {
    forall p | SlotAt(s, p).Some?
      ensures SlotAt(s, p).value.worker == None
    {
    }
    forall t: nat
      ensures Source(s, t).None? && Exchange(s, t).None?
    {
    }
  }
}
