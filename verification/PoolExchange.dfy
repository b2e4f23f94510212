/** What is on the wires: the state of a worker's channel and child in every phase of a request. */
module PoolExchange {
  import opened Basics
  import opened Framing
  import opened PoolModel

  /** What the child still has to write of its current frame. */
  function Unwritten(c: Child): Text {
    match c
    case Booting(rest) => rest
    case Sending(rest, _) => rest
    case _ => []
  }

  /** What the child has read of the current frame. */
  function ReadSoFar(c: Child): Text {
    if c.Reading? then c.got else []
  }

  /** Nothing on the wires: the worker is ready for a request. */
  predicate Clean(p: Proc) {
    && p.ready && p.toChild == [] && p.toParent == []
    && (p.child.Gone? || p.child.Polling? || p.child == Sending([], false) || p.child == Booting([]))
  }

  /** A new worker: the service has received `got` of the ready message. */
  predicate Announcing(p: Proc, got: Text) {
    && !p.ready && p.toChild == [] && p.log == []
    && (p.child.Booting? || p.child.Polling? || p.child.Gone?)
    && (if p.child.Gone? then got + p.toParent <= Framed(READY)
        else got + p.toParent + Unwritten(p.child) == Framed(READY))
  }

  /** The request is on its way and not answered: nothing has come back. */
  predicate Unanswered(p: Proc, image: Text, unsent: Text, got: Text, base: nat) {
    && |p.log| == base && got == [] && p.toParent == [] && Unwritten(p.child) == []
    && (p.child.Sending? ==> !p.child.exits)
    && (p.child.Gone? || ReadSoFar(p.child) + p.toChild + unsent == Framed(image))
  }

  /** The child has computed a response to this very image and its frame is coming back. */
  predicate Responding(env: Env, p: Proc, image: Text, unsent: Text, got: Text, base: nat) {
    && |p.log| == base + 1 && p.log[base].0 == image
    && unsent == [] && p.toChild == []
    && var answer := Framed(env.serialize(p.log[base].1));
       if p.child.Gone? then got + p.toParent <= answer
       else
         && got + p.toParent + Unwritten(p.child) == answer
         && ((p.child.Sending? && p.child.exits == ChildStops(p.log[base].1))
             || (p.child.Polling? && !ChildStops(p.log[base].1)))
  }

  predicate Exchanging(env: Env, p: Proc, image: Text, unsent: Text, got: Text, base: nat) {
    p.ready && (Unanswered(p, image, unsent, got, base) || Responding(env, p, image, unsent, got, base))
  }

  /** What a request's phase says about its worker. */
  predicate PhaseOk(env: Env, image: Text, phase: Phase, p: Proc) {
    match phase
    case Took => Clean(p)
    case AwaitReady(got) => Announcing(p, got)
    case SendingImage(rest, base) => Exchanging(env, p, image, rest, [], base)
    case AwaitResponse(got, base) => Exchanging(env, p, image, [], got, base)
    case Finishing(reusable, _) => reusable ==> Clean(p)
    case Returning(_) => Clean(p)
    case Putting(_) => Clean(p)
    case _ => true
  }

  // ---- Steps of the child ----

  lemma ChildKeepsClean(env: Env, p: Proc, step: ChildStep)
    requires Clean(p) && ChildEnabled(p, step)
    ensures Clean(ChildNext(env, p, step))
  {
  }

  lemma ChildKeepsAnnouncing(env: Env, p: Proc, got: Text, step: ChildStep)
    requires Announcing(p, got) && ChildEnabled(p, step)
    ensures Announcing(ChildNext(env, p, step), got)
  {
    if step.WriteReady? {
      MoveAcross(got, p.toParent, p.child.rest, step.n);
    } else if step.Leave? && !p.child.Gone? {
      assert got + p.toParent <= got + p.toParent + Unwritten(p.child);
    }
  }

  /** Bytes that move from the end of one piece to the beginning of the next leave the whole as it was. */
  lemma MoveAcross(a: Text, b: Text, c: Text, n: nat)
    requires n <= |c|
    ensures a + (b + c[..n]) + c[n..] == a + b + c
  {
  }

  lemma ChildKeepsUnanswered(env: Env, p: Proc, image: Text, unsent: Text, got: Text, base: nat, step: ChildStep)
    requires Fits(image) && Unanswered(p, image, unsent, got, base) && ChildEnabled(p, step) && !step.Compute?
    ensures Unanswered(ChildNext(env, p, step), image, unsent, got, base)
  {
    if step.Read? {
      var c := p.child.got;
      assert c + p.toChild[..step.n] + p.toChild[step.n..] == c + p.toChild;
    }
  }

  /** The child computes only on a whole frame, which can only be this request's. */
  lemma ComputedOnTheImage(env: Env, p: Proc, image: Text, unsent: Text, got: Text, base: nat, response: Response)
    requires Fits(image) && Unanswered(p, image, unsent, got, base) && ChildEnabled(p, Compute(response))
    ensures Responding(env, ChildNext(env, p, Compute(response)), image, unsent, got, base)
  {
    var c := p.child.got;
    assert c + p.toChild + unsent == Frame(image);
    assert c <= Frame(image) by {
      assert c + p.toChild + unsent == c + (p.toChild + unsent);
    }
    ReceivingFrame(image, c);
    assert c == Frame(image);
    assert |p.toChild| == 0 && |unsent| == 0;
  }

  lemma ChildKeepsResponding(env: Env, p: Proc, image: Text, unsent: Text, got: Text, base: nat, step: ChildStep)
    requires Responding(env, p, image, unsent, got, base) && ChildEnabled(p, step)
    ensures Responding(env, ChildNext(env, p, step), image, unsent, got, base)
  {
    if step.Respond? {
      MoveAcross(got, p.toParent, p.child.rest, step.n);
    } else if step.Responded? {
      assert got + p.toParent + [] == got + p.toParent;
    } else if step.Leave? && !p.child.Gone? {
      assert got + p.toParent <= got + p.toParent + Unwritten(p.child);
    }
  }

  lemma ChildKeepsPhase(env: Env, image: Text, phase: Phase, p: Proc, step: ChildStep)
    requires Fits(image) && PhaseOk(env, image, phase, p) && ChildEnabled(p, step)
    ensures PhaseOk(env, image, phase, ChildNext(env, p, step))
  {
    match phase
    case AwaitReady(got) => ChildKeepsAnnouncing(env, p, got, step);
    case SendingImage(rest, base) => ChildKeepsExchange(env, p, image, rest, [], base, step);
    case AwaitResponse(got, base) => ChildKeepsExchange(env, p, image, [], got, base, step);
    case _ =>
      if Clean(p) {
        ChildKeepsClean(env, p, step);
      }
  }

  lemma ChildKeepsExchange(env: Env, p: Proc, image: Text, unsent: Text, got: Text, base: nat, step: ChildStep)
    requires Fits(image) && Exchanging(env, p, image, unsent, got, base) && ChildEnabled(p, step)
    ensures Exchanging(env, ChildNext(env, p, step), image, unsent, got, base)
  {
    if Responding(env, p, image, unsent, got, base) {
      ChildKeepsResponding(env, p, image, unsent, got, base, step);
    } else if step.Compute? {
      ComputedOnTheImage(env, p, image, unsent, got, base, step.response);
    } else {
      ChildKeepsUnanswered(env, p, image, unsent, got, base, step);
    }
  }

  // ---- Stopping a worker ----

  lemma StopKeepsPhase(env: Env, image: Text, phase: Phase, p: Proc)
    requires PhaseOk(env, image, phase, p)
    ensures PhaseOk(env, image, phase, Stop(p))
  {
    match phase
    case AwaitReady(got) =>
      assert got + p.toParent <= got + p.toParent + Unwritten(p.child);
    case SendingImage(rest, base) =>
      assert [] + p.toParent <= [] + p.toParent + Unwritten(p.child);
    case AwaitResponse(got, base) =>
      assert got + p.toParent <= got + p.toParent + Unwritten(p.child);
    case _ =>
  }

  // ---- Steps of the request's own thread ----

  lemma TalkKeepsPhase(env: Env, image: Text, w: nat, phase: Phase, p: Proc, step: TalkStep)
    requires Faithful(env) && Fits(image) && PhaseOk(env, image, phase, p) && TalkEnabled(false, phase, p, step)
    ensures PhaseOk(env, image, TalkPhase(env, image, w, phase, p, step), TalkProc(phase, p, step))
  {
    match step
    case LookAlive => LookKeepsPhase(env, image, p);
    case TakeReady(n) => TakeReadyKeeps(p, phase.got, n);
    case ReadyDone => ReadyStartsExchange(env, image, p, phase.got);
    case SendSome(n) => SendKeepsExchange(env, image, p, phase.rest, phase.base, n);
    case SendDone =>
    case TakeResponse(n) => TakeKeepsExchange(env, image, p, phase.got, phase.base, n);
    case ResponseDone => ResponseIsTheComputedOne(env, image, p, phase.got, phase.base);
    case StopSucceeds =>
  }

  lemma LookKeepsPhase(env: Env, image: Text, p: Proc)
    requires Clean(p)
    ensures Exchanging(env, p, image, Framed(image), [], |p.log|)
  {
    assert ReadSoFar(p.child) + p.toChild + Framed(image) == Framed(image);
  }

  lemma TakeReadyKeeps(p: Proc, got: Text, n: nat)
    requires Announcing(p, got) && n <= |p.toParent|
    ensures Announcing(p.(toParent := p.toParent[n..]), got + p.toParent[..n])
  {
    assert got + p.toParent[..n] + p.toParent[n..] == got + p.toParent;
  }

  lemma ReadyStartsExchange(env: Env, image: Text, p: Proc, got: Text)
    requires Announcing(p, got) && Receiving(got).Complete?
    ensures Receiving(got).message == READY
    ensures Exchanging(env, p.(ready := true), image, Framed(image), [], |p.log|)
  {
    assert got <= Frame(READY) by {
      assert got + p.toParent + Unwritten(p.child) == got + (p.toParent + Unwritten(p.child));
    }
    ReceivingFrame(READY, got);
    assert got == Frame(READY);
    assert p.toParent == [] && (!p.child.Gone? ==> Unwritten(p.child) == []);
    assert ReadSoFar(p.child) + p.toChild + Framed(image) == Framed(image);
  }

  lemma SendKeepsExchange(env: Env, image: Text, p: Proc, rest: Text, base: nat, n: nat)
    requires Exchanging(env, p, image, rest, [], base) && 1 <= n <= |rest|
    ensures Exchanging(env, p.(toChild := p.toChild + rest[..n]), image, rest[n..], [], base)
  {
    MoveAcross(ReadSoFar(p.child), p.toChild, rest, n);
  }

  lemma TakeKeepsExchange(env: Env, image: Text, p: Proc, got: Text, base: nat, n: nat)
    requires Exchanging(env, p, image, [], got, base) && 1 <= n <= |p.toParent|
    ensures Exchanging(env, p.(toParent := p.toParent[n..]), image, [], got + p.toParent[..n], base)
  {
    assert got + p.toParent[..n] + p.toParent[n..] == got + p.toParent;
  }

  /** A complete response is the one the child computed for this image, and it leaves the wires clean. */
  lemma ResponseIsTheComputedOne(env: Env, image: Text, p: Proc, got: Text, base: nat)
    requires Faithful(env) && Exchanging(env, p, image, [], got, base) && Receiving(got).Complete?
    ensures |p.log| == base + 1 && p.log[base].0 == image
    ensures env.parse(Receiving(got).message) == Some(p.log[base].1)
    ensures Reusable(p.log[base].1) ==> Clean(p)
  {
    assert Responding(env, p, image, [], got, base);
    var r := p.log[base].1;
    var m := env.serialize(r);
    assert got <= Framed(m) by {
      assert got + p.toParent + Unwritten(p.child) == got + (p.toParent + Unwritten(p.child));
    }
    assert Fits(m);
    ReceivingFrame(m, got);
    assert got == Frame(m);
    assert p.toParent == [] && (!p.child.Gone? ==> Unwritten(p.child) == []);
  }
}
