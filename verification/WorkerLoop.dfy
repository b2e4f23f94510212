/** The child process's main loop over its channel (docreader/preprocess_worker.py). */
module WorkerLoop {
  import opened Basics
  import opened Framing
  import opened Channel
  import opened PoolModel
  import opened ChannelSteps

  /** Image processing and response serialization are the child's own business. */
  datatype Work = Worker(process: Text -> Response, serialize: Response -> Text)

  function Answer(work: Work, image: Text): Text {
    work.serialize(work.process(image))
  }

  /** The answers to these images, in order. */
  function Answers(work: Work, images: seq<Text>): (r: seq<Text>)
    ensures |r| == |images|
    ensures forall k :: 0 <= k < |images| ==> r[k] == Answer(work, images[k])
  {
    seq(|images|, k requires 0 <= k < |images| => Answer(work, images[k]))
  }

  lemma AnswersSnoc(work: Work, images: seq<Text>, image: Text)
    ensures Answers(work, images + [image]) == Answers(work, images) + [Answer(work, image)]
  {
  }

  lemma FrameAllSnoc(messages: seq<Text>, m: Text)
    requires AllFit(messages) && Fits(m)
    ensures AllFit(messages + [m]) && FrameAll(messages + [m]) == FrameAll(messages) + Frame(m)
  {
    FrameAllAppend(messages, [m]);
    assert FrameAll([m]) == Frame(m) + FrameAll([m][1..]);
    assert Frame(m) + [] == Frame(m);
  }

  /** The child goes on after each of these images. */
  ghost predicate GoesOnAfter(work: Work, images: seq<Text>) {
    forall k :: 0 <= k < |images| ==> !ChildStops(work.process(images[k]))
  }

  /** What the child has read and written: the images answered completely, and then at most one frame in part. */
  ghost predicate Served(channel: Endpoint, work: Work, images: seq<Text>)
    reads channel
  {
    && channel.Valid()
    && AllFit(images) && AllFit(Answers(work, images))
    && channel.incoming[..channel.taken] == FrameAll(images)
    && channel.outgoing == Frame(READY) + FrameAll(Answers(work, images))
  }

  /** The frame that the child was reading or writing when it stopped is cut short, or refused. */
  ghost predicate ServedUntil(channel: Endpoint, work: Work, images: seq<Text>)
    reads channel
  {
    && channel.Valid() && AllFit(images) && AllFit(Answers(work, images))
    && FrameAll(images) <= channel.incoming[..channel.taken]
    && (channel.outgoing <= Frame(READY)
        || Frame(READY) + FrameAll(Answers(work, images)) <= channel.outgoing)
  }

  /** Why the loop ends: no request in time, a response after which the child leaves, or the channel. */
  datatype Exit = Idle | Finished | ReceiveEnded(received: Received) | SendEnded(result: SendResult)

  ghost predicate ExitExplained(channel: Endpoint, work: Work, served: seq<Text>, exit: Exit)
    reads channel
  {
    match exit
    case Idle => Served(channel, work, served)
    case Finished =>
      Served(channel, work, served) && served != [] && ChildStops(work.process(served[|served| - 1]))
    case ReceiveEnded(r) => !r.Message? && (r.NotReceived? ==> !r.why.Done? && channel.Explains(r.why, None))
    case SendEnded(r) => !r.Sent? && (r.NotSent? ==> !r.why.Done? && channel.Explains(r.why, None))
  }

  // ---- The loop as a run of the child's steps ----

  /** The images with the responses computed for them. */
  function Log(work: Work, images: seq<Text>): (r: seq<(Text, Response)>)
    ensures |r| == |images|
  {
    seq(|images|, k requires 0 <= k < |images| => (images[k], work.process(images[k])))
  }

  lemma LogSnoc(work: Work, images: seq<Text>, image: Text)
    ensures Log(work, images + [image]) == Log(work, images) + [(image, work.process(image))]
  {
  }

  /** The child's worker in the pool is where the loop is, with the same bytes in its pipes. */
  ghost predicate Mirrors(p: Proc, channel: Endpoint)
    reads channel
  {
    channel.Valid() && p.toChild == channel.incoming[channel.taken..] && p.toParent == channel.outgoing
  }

  /** The loop has been left: every image served is in the log, and at most one more was computed. */
  ghost predicate Left(p: Proc, channel: Endpoint, work: Work, served: seq<Text>)
    reads channel
  {
    Mirrors(p, channel) && p.child == Gone && Log(work, served) <= p.log && |p.log| <= |served| + 1
  }

  lemma LeaveNow(env: Env, p: Proc, a: seq<ChildStep>, q: Proc)
    requires ChildRuns(env, p, a, q)
    ensures ChildRuns(env, p, a + [Leave], q.(child := Gone))
  {
    ChildRunsOne(env, q, Leave);
    ChildRunsThen(env, p, a, q, [Leave], q.(child := Gone));
  }

  lemma ThenOne(env: Env, p: Proc, a: seq<ChildStep>, q: Proc, step: ChildStep)
    requires ChildRuns(env, p, a, q) && ChildEnabled(q, step)
    ensures ChildRuns(env, p, a + [step], ChildNext(env, q, step))
  {
    ChildRunsOne(env, q, step);
    ChildRunsThen(env, p, a, q, [step], ChildNext(env, q, step));
  }

  /** The first message, before any image. */
  method Announce(channel: Endpoint, ghost work: Work, ghost env: Env, ghost p: Proc)
    returns (ready: SendResult, ghost p': Proc, ghost steps: seq<ChildStep>)
    requires channel.Valid() && channel.taken == 0 && channel.outgoing == []
    requires Mirrors(p, channel) && p.child == Booting(Framed(READY)) && p.log == []
    modifies channel
    ensures ServedUntil(channel, work, [])
    ensures if ready.Sent? then Served(channel, work, []) else ExitExplained(channel, work, [], SendEnded(ready))
    ensures ChildRuns(env, p, steps, p')
    ensures if ready.Sent? then Mirrors(p', channel) && p'.child == Polling && p'.log == []
            else Left(p', channel, work, [])
  {
    ready, p', steps := ChildSends(env, p, channel, READY);
    assert [] + Frame(READY) == Frame(READY);
    assert channel.incoming[..channel.taken] == [];
    assert Frame(READY) + FrameAll(Answers(work, [])) == Frame(READY);
    assert channel.outgoing[|old(channel.outgoing)|..] == channel.outgoing;
    if ready.Sent? {
      ThenOne(env, p, steps, p', Booted);
      p', steps := ChildNext(env, p', Booted), steps + [Booted];
    } else {
      LeaveNow(env, p, steps, p');
      p', steps := p'.(child := Gone), steps + [Leave];
    }
  }

  /** Computes on an image that has been read completely, and sends the response. */
  method AnswerImage(channel: Endpoint, work: Work, image: Text, ghost env: Env, ghost p: Proc)
    returns (result: SendResult, stops: bool, ghost p': Proc, ghost steps: seq<ChildStep>)
    requires Mirrors(p, channel) && env.serialize == work.serialize
    requires p.child.Reading? && Receiving(p.child.got) == Complete(image)
    modifies channel
    ensures channel.Valid() && channel.taken == old(channel.taken) && |channel.turns| <= |old(channel.turns)|
    ensures old(channel.outgoing) <= channel.outgoing
    ensures stops == ChildStops(work.process(image))
    ensures result.Sent? ==>
              Fits(Answer(work, image)) && channel.outgoing == old(channel.outgoing) + Frame(Answer(work, image))
    ensures result.NotSent? ==> !result.why.Done? && channel.Explains(result.why, None)
    ensures ChildRuns(env, p, steps, p') && Mirrors(p', channel)
    ensures p'.log == p.log + [(image, work.process(image))]
    ensures p'.child == if result.Sent? && !stops then Polling else Gone
  {
    var response := work.process(image);
    stops := ChildStops(response);
    ghost var q := ChildNext(env, p, Compute(response));
    ghost var more: seq<ChildStep>;
    result, p', more := ChildSends(env, q, channel, work.serialize(response));
    ChildRunsOne(env, p, Compute(response));
    ChildRunsThen(env, p, [Compute(response)], q, more, p');
    steps := [Compute(response)] + more;
    Extended(old(channel.outgoing), channel.outgoing);
    if result.Sent? {
      ThenOne(env, p, steps, p', Responded);
      p', steps := ChildNext(env, p', Responded), steps + [Responded];
    } else {
      LeaveNow(env, p, steps, p');
      p', steps := p'.(child := Gone), steps + [Leave];
    }
  }

  lemma Extended(before: Text, after: Text)
    requires before <= after
    ensures before + after[|before|..] == after
  {
  }

  /** Reads the next image and answers it; without an exit the loop continues. */
  method ServeOne(channel: Endpoint, work: Work, images: seq<Text>, ghost env: Env, ghost p: Proc)
    returns (exit: Option<Exit>, served: seq<Text>, ghost p': Proc, ghost steps: seq<ChildStep>)
    requires Served(channel, work, images) && env.serialize == work.serialize
    requires Mirrors(p, channel) && p.child == Polling && p.log == Log(work, images)
    modifies channel
    ensures ServedUntil(channel, work, served) && images <= served && |served| <= |images| + 1
    ensures exit.None? ==> Served(channel, work, served) && |channel.turns| < |old(channel.turns)|
    ensures exit.None? ==> served != images && !ChildStops(work.process(served[|images|]))
    ensures exit.Some? ==> !exit.value.Idle? && ExitExplained(channel, work, served, exit.value)
    ensures exit.Some? ==> (exit.value.Finished? <==> served != images)
    ensures ChildRuns(env, p, steps, p')
    ensures if exit.None? then Mirrors(p', channel) && p'.child == Polling && p'.log == Log(work, served)
            else Left(p', channel, work, served)
  {
    served := images;
    ghost var before := channel.taken;
    var received: Received;
    received, p', steps := ChildReceives(env, p, channel);
    TakenMore(channel.incoming, before, channel.taken);
    if !received.Message? {
      LeaveNow(env, p, steps, p');
      return Some(ReceiveEnded(received)), images, p'.(child := Gone), steps + [Leave];
    }
    var image := received.bytes;
    FrameAllSnoc(images, image);
    ghost var q, sent := p', channel.outgoing;
    var result: SendResult;
    var stops: bool;
    ghost var more: seq<ChildStep>;
    result, stops, p', more := AnswerImage(channel, work, image, env, q);
    ChildRunsThen(env, p, steps, q, more, p');
    steps := steps + more;
    LogSnoc(work, images, image);
    if !result.Sent? {
      return Some(SendEnded(result)), images, p', steps;
    }
    AnswersSnoc(work, images, image);
    FrameAllSnoc(Answers(work, images), Answer(work, image));
    Associate(Frame(READY), FrameAll(Answers(work, images)), Frame(Answer(work, image)));
    served := images + [image];
    exit := if stops then Some(Finished) else None;
  }

  lemma TakenMore(incoming: Text, i: nat, j: nat)
    requires i <= j <= |incoming|
    ensures incoming[..j] == incoming[..i] + incoming[i..j] && incoming[..i] <= incoming[..j]
  {
  }

  /** The loop before a poll, after a run of the child's steps. */
  ghost predicate AtPoll(channel: Endpoint, work: Work, polls: nat -> bool, served: seq<Text>, env: Env, p: Proc,
                         steps: seq<ChildStep>, q: Proc)
    reads channel
  {
    && Served(channel, work, served) && GoesOnAfter(work, served)
    && (forall n :: 0 <= n < |served| ==> polls(n))
    && ChildRuns(env, p, steps, q) && Mirrors(q, channel) && q.child == Polling && q.log == Log(work, served)
  }

  /** The loop once it has ended. */
  ghost predicate Over(channel: Endpoint, work: Work, polls: nat -> bool, served: seq<Text>, exit: Exit, env: Env,
                       p: Proc, steps: seq<ChildStep>, q: Proc)
    reads channel
  {
    && ServedUntil(channel, work, served) && ExitExplained(channel, work, served, exit)
    && (|served| > 0 ==> GoesOnAfter(work, served[..|served| - 1]))
    && (exit.Idle? ==> GoesOnAfter(work, served) && !polls(|served|))
    && (forall n :: 0 <= n < |served| ==> polls(n))
    && ChildRuns(env, p, steps, q) && Left(q, channel, work, served)
  }

  /** One pass of the loop after a poll that found something. */
  method Pass(channel: Endpoint, work: Work, polls: nat -> bool, images: seq<Text>, ghost env: Env, ghost p: Proc,
              ghost before: seq<ChildStep>, ghost q: Proc)
    returns (exit: Option<Exit>, served: seq<Text>, ghost steps: seq<ChildStep>, ghost q': Proc)
    requires AtPoll(channel, work, polls, images, env, p, before, q) && polls(|images|)
    requires env.serialize == work.serialize
    modifies channel
    ensures exit.None? ==>
              AtPoll(channel, work, polls, served, env, p, steps, q') && |channel.turns| < |old(channel.turns)|
    ensures exit.Some? ==> Over(channel, work, polls, served, exit.value, env, p, steps, q')
  {
    ghost var more: seq<ChildStep>;
    exit, served, q', more := ServeOne(channel, work, images, env, q);
    ChildRunsThen(env, p, before, q, more, q');
    steps := before + more;
    OneMoreServed(work, polls, images, served);
  }

  lemma OneMoreServed(work: Work, polls: nat -> bool, images: seq<Text>, served: seq<Text>)
    requires images <= served && |served| <= |images| + 1 && GoesOnAfter(work, images)
    requires polls(|images|) && forall n :: 0 <= n < |images| ==> polls(n)
    ensures forall n :: 0 <= n < |served| ==> polls(n)
    ensures |served| > 0 ==> GoesOnAfter(work, served[..|served| - 1])
    ensures served != images && !ChildStops(work.process(served[|images|])) ==> GoesOnAfter(work, served)
  {
    if served != images {
      assert served[..|served| - 1] == images;
    }
  }

  /**
   * The whole loop. Every answer on the wire is the answer to the image at the same place in what
   * was read; only the last image can have been one after which the child leaves. The loop ends
   * when a poll finds nothing, when such a response was sent, or when the channel fails. Whatever the
   * channel does, the loop is a run of the child's steps in the pool, from its start until it is gone.
   */
  method RunWorker(channel: Endpoint, work: Work, polls: nat -> bool, ghost env: Env, ghost p: Proc)
    returns (served: seq<Text>, exit: Exit, ghost p': Proc, ghost steps: seq<ChildStep>)
    requires channel.Valid() && channel.taken == 0 && channel.outgoing == []
    requires env.serialize == work.serialize
    requires Mirrors(p, channel) && p.child == Booting(Framed(READY)) && p.log == []
    modifies channel
    ensures ServedUntil(channel, work, served)
    ensures |served| > 0 ==> GoesOnAfter(work, served[..|served| - 1])
    ensures ExitExplained(channel, work, served, exit)
    ensures exit.Idle? ==> GoesOnAfter(work, served) && !polls(|served|)
    ensures forall n :: 0 <= n < |served| ==> polls(n)
    ensures ChildRuns(env, p, steps, p') && Left(p', channel, work, served)
  {
    served := [];
    var ready: SendResult;
    ready, p', steps := Announce(channel, work, env, p);
    if !ready.Sent? {
      return [], SendEnded(ready), p', steps;
    }
    while polls(|served|)
      invariant AtPoll(channel, work, polls, served, env, p, steps, p')
      decreases |channel.turns|
    {
      var ended: Option<Exit>;
      ended, served, steps, p' := Pass(channel, work, polls, served, env, p, steps, p');
      if ended.Some? {
        return served, ended.value, p', steps;
      }
    }
    exit := Idle;
    LeaveNow(env, p, steps, p');
    p', steps := p'.(child := Gone), steps + [Leave];
  }
}
