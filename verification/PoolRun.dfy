/** The pool at work: a run in which a request is answered by a new worker. */
module PoolRun {
  import opened Basics
  import opened Framing
  import opened PoolModel

  /** One request thread, no closer, the last slot in its hands. */
  function Alone(env: Env, image: Text, at: At, proc: Proc): State
    requires env.maxWorkers > 0
  {
    State(Slots(env.maxWorkers - 1), false, None, {0}, [proc], [Request(image, at)], {}, {})
  }

  function Slots(n: nat): (r: seq<Slot>)
    ensures |r| == n && forall i :: 0 <= i < n ==> r[i] == Slot(i, None)
  {
    seq(n, i requires 0 <= i < n => Slot(i, None))
  }

  function Working(env: Env, image: Text, phase: Phase, proc: Proc): State
    requires env.maxWorkers > 0
  {
    Alone(env, image, Holding(Slot(env.maxWorkers - 1, Some(0)), phase), proc)
  }

  lemma {:induction false} RunsSnoc(env: Env, s: State, steps: seq<Action>, s': State, a: Action)
    requires Runs(env, s, steps, s') && Enabled(env, s', a)
    ensures Runs(env, s, steps + [a], Apply(env, s', a))
    decreases |steps|
  {
    if steps == [] {
      assert [a][1..] == [] && Runs(env, Apply(env, s', a), [], Apply(env, s', a));
      assert steps + [a] == [a];
    } else {
      assert (steps + [a])[1..] == steps[1..] + [a];
      RunsSnoc(env, Apply(env, s, steps[0]), steps[1..], s', a);
    }
  }

  /** An enabled step leads from a reachable state to a reachable one. */
  lemma ReachableNext(env: Env, s: State, a: Action)
    requires Reachable(env, s) && Enabled(env, s, a)
    ensures Reachable(env, Apply(env, s, a))
  {
    var s0, steps :| Initial(env, s0) && Runs(env, s0, steps, s);
    RunsSnoc(env, s0, steps, s, a);
  }

  lemma WorkStep(env: Env, image: Text, phase: Phase, p: Proc, step: ChildStep)
    requires env.maxWorkers > 0 && Reachable(env, Working(env, image, phase, p)) && ChildEnabled(p, step)
    ensures Reachable(env, Working(env, image, phase, ChildNext(env, p, step)))
  {
    var s := Working(env, image, phase, p);
    ReachableNext(env, s, Work(0, step));
    assert Apply(env, s, Work(0, step)) == Working(env, image, phase, ChildNext(env, p, step));
  }

  lemma TalkTo(env: Env, image: Text, phase: Phase, p: Proc, step: TalkStep)
    requires env.maxWorkers > 0 && Reachable(env, Working(env, image, phase, p)) && TalkEnabled(false, phase, p, step)
    ensures Reachable(env, Working(env, image, TalkPhase(env, image, 0, phase, p, step), TalkProc(phase, p, step)))
  {
    var s := Working(env, image, phase, p);
    ReachableNext(env, s, Talk(0, step));
    assert Apply(env, s, Talk(0, step))
        == Working(env, image, TalkPhase(env, image, 0, phase, p, step), TalkProc(phase, p, step));
  }

  // ---- Until the worker has been started ----

  /** Before there is a process. */
  function Waiting(slots: nat, lock: Option<nat>, image: Text, at: At): State {
    State(Slots(slots), false, lock, {}, [], [Request(image, at)], {}, {})
  }

  lemma Taken(env: Env, image: Text)
    requires env.maxWorkers > 0 && Fits(image)
    ensures Reachable(env, Waiting(env.maxWorkers - 1, None, image, Holding(Slot(env.maxWorkers - 1, None), Took)))
  {
    var n := env.maxWorkers;
    var s := Waiting(n, None, image, Asked);
    assert Initial(env, s) && Runs(env, s, [], s);
    ReachableNext(env, s, Run(0, Admit(true)));
    assert Apply(env, s, Run(0, Admit(true))) == Waiting(n, None, image, Admitted);
    s := Waiting(n, None, image, Admitted);
    ReachableNext(env, s, Run(0, Take));
    assert Slots(n)[..n - 1] == Slots(n - 1);
    assert Apply(env, s, Run(0, Take)) == Waiting(n - 1, None, image, Holding(Slot(n - 1, None), Took));
  }

  lemma Locked(env: Env, image: Text)
    requires env.maxWorkers > 0 && Fits(image)
    ensures Reachable(env,
                      Waiting(env.maxWorkers - 1, Some(0), image, Holding(Slot(env.maxWorkers - 1, None), Spawning)))
  {
    var n := env.maxWorkers;
    Taken(env, image);
    var s := Waiting(n - 1, None, image, Holding(Slot(n - 1, None), Took));
    ReachableNext(env, s, Run(0, FindEmpty));
    assert Apply(env, s, Run(0, FindEmpty)) == Waiting(n - 1, None, image, Holding(Slot(n - 1, None), Starting));
    s := Waiting(n - 1, None, image, Holding(Slot(n - 1, None), Starting));
    ReachableNext(env, s, Run(0, LockToStart));
    assert Apply(env, s, Run(0, LockToStart)) == Waiting(n - 1, Some(0), image, Holding(Slot(n - 1, None), Spawning));
  }

  lemma Started(env: Env, image: Text)
    requires env.maxWorkers > 0 && Fits(image)
    ensures Reachable(env, Working(env, image, AwaitReady([]), NewProc(env.maxWorkers - 1)))
  {
    var n := env.maxWorkers;
    Locked(env, image);
    var s := Waiting(n - 1, Some(0), image, Holding(Slot(n - 1, None), Spawning));
    ReachableNext(env, s, Run(0, Spawn(true)));
    assert Apply(env, s, Run(0, Spawn(true))) == Working(env, image, AwaitReady([]), NewProc(n - 1));
  }

  // ---- A whole frame in two transfers ----

  lemma InTwoPieces(message: Text)
    requires Fits(message)
    ensures Receiving([]) == NeedMore(4)
    ensures message != [] ==> Receiving(Frame(message)[..4]) == NeedMore(|message|)
    ensures message == [] ==> Frame(message)[..4] == Frame(message)
    ensures Receiving(Frame(message)) == Complete(message)
    ensures Frame(message)[..4] + Frame(message)[4..] == Frame(message)
    ensures [] + Frame(message)[..4] == Frame(message)[..4]
    ensures |Frame(message)| == 4 + |message| && Frame(message)[4..][|message|..] == []
    ensures Frame(message)[4..][..|message|] == Frame(message)[4..]
  {
    HeaderRoundTrip(|message|);
    ReceivingFrame(message, Frame(message));
    assert Frame(message)[..4] == Header(|message|);
    assert Frame(message)[..4][..4] == Frame(message)[..4];
  }

  /** The child writes its ready message and the service receives it. */
  lemma Ready(env: Env, image: Text, p: Proc)
    requires env.maxWorkers > 0 && p == NewProc(env.maxWorkers - 1)
    requires Reachable(env, Working(env, image, AwaitReady([]), p))
    ensures Reachable(env, Working(env, image, SendingImage(Framed(image), 0), p.(child := Polling, ready := true)))
  {
    var f := Frame(READY);
    InTwoPieces(READY);
    assert f[|f|..] == [] && f[..|f|] == f && [] + f == f;
    WorkStep(env, image, AwaitReady([]), p, WriteReady(|f|));
    WorkStep(env, image, AwaitReady([]), p.(child := Booting([]), toParent := f), Booted);
    var q := p.(child := Polling, toParent := f);
    TalkTo(env, image, AwaitReady([]), q, TakeReady(4));
    TalkTo(env, image, AwaitReady(f[..4]), q.(toParent := f[4..]), TakeReady(|READY|));
    TalkTo(env, image, AwaitReady(f), q.(toParent := []), ReadyDone);
  }

  /** The image goes out, and the child reads it. */
  lemma ImageRead(env: Env, image: Text, p: Proc)
    requires env.maxWorkers > 0 && Fits(image) && p.child == Polling && p.toChild == []
    requires Reachable(env, Working(env, image, SendingImage(Framed(image), 0), p))
    ensures Reachable(env, Working(env, image, AwaitResponse([], 0), p.(child := Reading(Frame(image)))))
  {
    var f := Frame(image);
    InTwoPieces(image);
    assert f[|f|..] == [] && f[..|f|] == f && [] + f == f;
    TalkTo(env, image, SendingImage(f, 0), p, SendSome(|f|));
    TalkTo(env, image, SendingImage([], 0), p.(toChild := f), SendDone);
    var q := p.(toChild := f);
    WorkStep(env, image, AwaitResponse([], 0), q, Begin);
    WorkStep(env, image, AwaitResponse([], 0), q.(child := Reading([])), Read(4));
    if image != [] {
      WorkStep(env, image, AwaitResponse([], 0), q.(child := Reading(f[..4]), toChild := f[4..]), Read(|image|));
    }
  }

  /** The child computes and writes its response. */
  lemma Answering(env: Env, image: Text, r: Response, p: Proc)
    requires env.maxWorkers > 0 && Fits(image) && Fits(env.serialize(r)) && p.toParent == [] && p.log == []
    requires p.child == Reading(Frame(image))
    requires Reachable(env, Working(env, image, AwaitResponse([], 0), p))
    ensures Reachable(env, Working(env, image, AwaitResponse([], 0),
                                   p.(child := if ChildStops(r) then Gone else Polling,
                                      toParent := Frame(env.serialize(r)), log := [(image, r)])))
  {
    var f := Frame(env.serialize(r));
    InTwoPieces(image);
    assert f[|f|..] == [] && f[..|f|] == f && [] + f == f && |f| >= 4;
    WorkStep(env, image, AwaitResponse([], 0), p, Compute(r));
    var q := p.(log := [(image, r)]);
    assert [] + [(image, r)] == [(image, r)];
    WorkStep(env, image, AwaitResponse([], 0), q.(child := Sending(f, ChildStops(r))), Respond(|f|));
    WorkStep(env, image, AwaitResponse([], 0), q.(child := Sending([], ChildStops(r)), toParent := f), Responded);
  }

  /** The service receives the response. */
  lemma Received(env: Env, image: Text, r: Response, p: Proc)
    requires Faithful(env) && env.maxWorkers > 0 && Fits(env.serialize(r)) && p.toParent == Frame(env.serialize(r))
    requires Reachable(env, Working(env, image, AwaitResponse([], 0), p))
    ensures Reachable(env, Working(env, image, Finishing(Reusable(r), FromChild(0, 0, r)), p.(toParent := [])))
  {
    var m := env.serialize(r);
    var f := Frame(m);
    InTwoPieces(m);
    TalkTo(env, image, AwaitResponse([], 0), p, TakeResponse(4));
    if m != [] {
      TalkTo(env, image, AwaitResponse(f[..4], 0), p.(toParent := f[4..]), TakeResponse(|m|));
    }
    TalkTo(env, image, AwaitResponse(f, 0), p.(toParent := []), ResponseDone);
  }

  // ---- The end of the request ----

  /** The thread has returned with this outcome, and its slot, with or without the worker, is in the queue. */
  ghost predicate Returned(env: Env, image: Text, outcome: Outcome, kept: bool, s: State) {
    && s.threads == [Request(image, Answered(outcome))]
    && |s.idle| == env.maxWorkers > 0
    && s.idle[|s.idle| - 1] == Slot(env.maxWorkers - 1, if kept then Some(0) else None)
    && s.workers == (if kept then {0} else {})
  }

  lemma SlotReturned(env: Env, image: Text, outcome: Outcome, kept: bool, s: State) returns (s': State)
    requires env.maxWorkers > 0 && Reachable(env, s) && !s.closed && s.idle == Slots(env.maxWorkers - 1)
    requires s.threads == [Request(image, Holding(Slot(env.maxWorkers - 1, if kept then Some(0) else None),
                                                  Returning(outcome)))]
    requires s.workers == if kept then {0} else {}
    ensures Reachable(env, s') && Returned(env, image, outcome, kept, s')
  {
    ReachableNext(env, s, Run(0, Return));
    s' := Apply(env, s, Run(0, Return));
    ReachableNext(env, s', Run(0, Put));
    s' := Apply(env, s', Run(0, Put));
  }

  lemma Ends(env: Env, image: Text, reusable: bool, outcome: Outcome, p: Proc) returns (s: State)
    requires env.maxWorkers > 0 && Reachable(env, Working(env, image, Finishing(reusable, outcome), p))
    ensures Reachable(env, s) && Returned(env, image, outcome, reusable, s)
  {
    s := Working(env, image, Finishing(reusable, outcome), p);
    ReachableNext(env, s, Run(0, Finish));
    if reusable {
      s := Apply(env, s, Run(0, Finish));
    } else {
      assert Apply(env, s, Run(0, Finish)) == Working(env, image, Stopping(outcome), p);
      TalkTo(env, image, Stopping(outcome), p, StopSucceeds);
      s := Working(env, image, Removing(outcome), Stop(p));
      ReachableNext(env, s, Run(0, Forget));
      s := Apply(env, s, Run(0, Forget));
      assert s.workers == {};
    }
    s := SlotReturned(env, image, outcome, reusable, s);
  }

  /**
   * A pool with a slot can answer any request with any response its worker may compute, after
   * which every slot is back in the queue. The worker stays with its slot exactly when the response
   * lets it be reused.
   */
  lemma AnyResponseIsPossible(env: Env, image: Text, r: Response) returns (s: State)
    requires Faithful(env) && env.maxWorkers > 0 && Fits(image) && Fits(env.serialize(r))
    ensures Reachable(env, s) && Returned(env, image, FromChild(0, 0, r), Reusable(r), s)
  {
    var p := NewProc(env.maxWorkers - 1);
    Started(env, image);
    Ready(env, image, p);
    p := p.(child := Polling, ready := true);
    ImageRead(env, image, p);
    p := p.(child := Reading(Frame(image)));
    Answering(env, image, r, p);
    p := p.(child := if ChildStops(r) then Gone else Polling, toParent := Frame(env.serialize(r)), log := [(image, r)]);
    Received(env, image, r, p);
    s := Ends(env, image, Reusable(r), FromChild(0, 0, r), p.(toParent := []));
  }
}
