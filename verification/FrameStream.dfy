/** Messages in a row over a channel: what was sent is what successive receives return. */
module FrameStream {
  import opened Basics
  import opened Framing
  import opened Channel

  /** No check can fail before these turns are used up. */
  ghost predicate Unhindered(conditions: nat -> Conditions, turns: seq<Turn>, now: nat, deadline: Option<nat>) {
    deadline.Some? ==>
      now + Elapsed(turns) < deadline.value && forall n :: conditions(n) == Conditions(false, true, false, false)
  }

  /** Nothing fails, and there are turns enough to move this many bytes, one at a time if need be. */
  ghost predicate GoesWell(ch: Endpoint, bytes: nat, turns: seq<Turn>, now: nat, deadline: Option<nat>) {
    Smooth(turns) && Moves(turns) >= bytes && Unhindered(ch.conditions, turns, now, deadline)
  }

  /** In such a run a transfer is done, or would be waiting with all turns used up. */
  lemma NeverStopped(ch: Endpoint, since: Start, why: Transferred, deadline: Option<nat>)
    requires Unhindered(ch.conditions, since.turns, since.now, deadline)
    requires ch.OnTime(since, deadline) && ch.Explains(why, deadline)
    ensures !why.Stopped?
  {
    RanFacts(since.turns, since.now, ch.turns, ch.now);
  }

  // ---- Receiving ----

  lemma {:induction false} FrameAllTake(messages: seq<Text>, n: nat)
    requires AllFit(messages) && n < |messages|
    ensures AllFit(messages[..n]) && AllFit(messages[n + 1..])
    ensures FrameAll(messages) == FrameAll(messages[..n]) + Frame(messages[n]) + FrameAll(messages[n + 1..])
  {
    var a, b := messages[..n], messages[n..];
    assert messages == a + b && b[0] == messages[n] && b[1..] == messages[n + 1..];
    FrameAllAppend(a, b);
    Associate(FrameAll(a), Frame(b[0]), FrameAll(b[1..]));
  }

  lemma FrameAt(stream: Text, at: nat, message: Text, rest: Text)
    requires Fits(message) && at <= |stream| && stream == stream[..at] + Frame(message) + rest
    ensures Frame(message) <= stream[at..] && |stream| - at >= 4 + |message|
    ensures HeaderValue(stream[at..at + 4]) == |message|
  {
    var f := Frame(message);
    assert stream[at..] == f + rest;
    assert stream[at..at + 4] == stream[at..][..4] == f[..4] == Header(|message|);
    HeaderRoundTrip(|message|);
  }

  /** While messages are missing from a stream that has them all, the next frame is coming. */
  lemma NextFrame(ch: Endpoint, sent: seq<Text>, got: seq<Text>)
    requires ch.Valid() && AllFit(sent) && AllFit(got) && ch.incoming == FrameAll(sent)
    requires ch.incoming[..ch.taken] == FrameAll(got) && got <= sent && got != sent
    ensures ch.FrameEnd() <= |ch.incoming|
    ensures Frame(sent[|got|]) <= ch.incoming[ch.taken..]
  {
    var rest := TheRest(sent, got);
    FrameAt(ch.incoming, ch.taken, sent[|got|], rest);
  }

  lemma TheRest(sent: seq<Text>, got: seq<Text>) returns (rest: Text)
    requires AllFit(sent) && AllFit(got) && got <= sent && got != sent
    ensures FrameAll(sent) == FrameAll(got) + Frame(sent[|got|]) + rest
  {
    FrameAllTake(sent, |got|);
    assert sent[..|got|] == got;
    rest := FrameAll(sent[|got| + 1..]);
  }

  /** Since the beginning, turns were used well. */
  ghost predicate SoFar(ch: Endpoint, start: Start, whole: bool)
    reads ch
  {
    && Ran(start.turns, start.now, ch.turns, ch.now)
    && (whole && Smooth(start.turns) ==> ch.taken - start.taken + Moves(ch.turns) >= Moves(start.turns))
  }

  /** One receive: a message more, or the end. */
  method ReceiveNext(ch: Endpoint, deadline: Option<nat>, got: seq<Text>, ghost start: Start, ghost sent: seq<Text>)
    returns (r: Received, more: seq<Text>)
    requires ch.Valid() && AllFit(sent) && ch.incoming <= FrameAll(sent)
    requires AllFit(got) && got <= sent && ch.incoming[..ch.taken] == FrameAll(got)
    requires start.taken == 0 && SoFar(ch, start, ch.incoming == FrameAll(sent))
    modifies ch
    ensures ch.Valid() && AllFit(more) && got <= more <= sent
    ensures r.Message? ==> ch.incoming[..ch.taken] == FrameAll(more) && |ch.turns| < |old(ch.turns)|
    ensures r.Message? ==> SoFar(ch, start, ch.incoming == FrameAll(sent))
    ensures !r.Message? ==>
              (ch.incoming == FrameAll(sent) && GoesWell(ch, |ch.incoming|, start.turns, start.now, deadline) ==>
                 more == sent)
  {
    ghost var since := Start(ch.taken, ch.outgoing, ch.turns, ch.now);
    ghost var until := ch.FrameEnd();
    if got != sent && ch.incoming == FrameAll(sent) {
      NextFrame(ch, sent, got);
    }
    RanFacts(start.turns, start.now, ch.turns, ch.now);
    r := ch.RecvBytes(deadline);
    RanThen(start.turns, start.now, since.turns, since.now, ch.turns, ch.now);
    more := got;
    if r.Message? {
      more := got + [r.bytes];
      Appended(ch.incoming, since.taken, ch.taken);
      MessageAdded(ch.incoming, ch.taken, sent, got, r.bytes);
    } else if got != sent && ch.incoming == FrameAll(sent)
           && GoesWell(ch, |ch.incoming|, start.turns, start.now, deadline) {
      NoReasonToEnd(ch, since, start, until, sent[|got|], r, deadline);
    }
  }

  lemma Appended(s: Text, i: nat, j: nat)
    requires i <= j <= |s|
    ensures s[..j] == s[..i] + s[i..j]
  {
  }

  lemma AllTaken(message: Text, got: Text)
    requires Fits(message) && Frame(message) <= got && WithinFrame(got)
    ensures Receiving(got) == Complete(message)
  {
    NeverBeyondTheFrame(message, got, got);
    ReceivingFrame(message, got);
  }

  /** A receive in the middle of a complete stream, on which nothing fails and turns are left, gives a message. */
  lemma NoReasonToEnd(ch: Endpoint, since: Start, start: Start, until: nat, next: Text, r: Received,
                      deadline: Option<nat>)
    requires ch.Valid() && since.taken <= ch.taken && Fits(next) && Frame(next) <= ch.incoming[since.taken..]
    requires start.taken == 0 && Smooth(start.turns) && Moves(start.turns) >= |ch.incoming|
    requires Smooth(since.turns) && since.taken + Moves(since.turns) >= Moves(start.turns)
    requires Unhindered(ch.conditions, since.turns, since.now, deadline)
    requires until <= |ch.incoming| && ch.OnTime(since, deadline) && ch.KeepsUp(since, false, until)
    requires (r.NotReceived? ==> !r.why.Done? && !r.why.PeerClosed? && !r.why.Failed? && ch.Explains(r.why, deadline))
    requires var got := ch.incoming[since.taken..ch.taken];
             WithinFrame(got) && (r.Oversize? ==> Receiving(got) == TooLarge)
             && (r.NotReceived? && !r.why.Stopped? ==> Receiving(got).NeedMore?)
    ensures r.Message?
  {
    var got := ch.incoming[since.taken..ch.taken];
    NeverBeyondTheFrame(next, got, ch.incoming[since.taken..]);
    if r.NotReceived? {
      NeverStopped(ch, since, r.why, deadline);
      if ch.taken == |ch.incoming| {
        AllTaken(next, got);
      }
    }
  }

  lemma MessageAdded(incoming: Text, taken: nat, sent: seq<Text>, got: seq<Text>, m: Text)
    requires AllFit(sent) && AllFit(got) && Fits(m) && taken <= |incoming| && incoming <= FrameAll(sent)
    requires incoming[..taken] == FrameAll(got) + Frame(m)
    ensures AllFit(got + [m]) && FrameAll(got + [m]) == incoming[..taken] && got + [m] <= sent
  {
    FrameAllAppend(got, [m]);
    assert FrameAll([m]) == Frame(m) + FrameAll([m][1..]) == Frame(m);
    assert incoming[..taken] == FrameAll(got + [m]) + [];
    ReceivedWereSent(sent, got + [m], incoming[..taken], []);
  }

  /**
   * Receives until no message comes. Under every schedule the messages are the first ones sent, in
   * order. All of them arrive when the stream has them all, nothing fails, and there are turns
   * enough.
   */
  method ReceiveAll(ch: Endpoint, deadline: Option<nat>, ghost sent: seq<Text>) returns (got: seq<Text>, end: Received)
    requires ch.Valid() && ch.taken == 0 && AllFit(sent) && ch.incoming <= FrameAll(sent)
    modifies ch
    ensures got <= sent && !end.Message?
    ensures ch.incoming == FrameAll(sent) && GoesWell(ch, |ch.incoming|, old(ch.turns), old(ch.now), deadline) ==>
              got == sent
  {
    ghost var start := Start(0, ch.outgoing, ch.turns, ch.now);
    got := [];
    end := Message([]);
    assert ch.incoming[..0] == FrameAll([]);
    while end.Message?
      invariant ch.Valid() && AllFit(got) && got <= sent
      invariant end.Message? ==> ch.incoming[..ch.taken] == FrameAll(got)
      invariant end.Message? ==> SoFar(ch, start, ch.incoming == FrameAll(sent))
      invariant !end.Message? ==>
                  (ch.incoming == FrameAll(sent) && GoesWell(ch, |ch.incoming|, start.turns, start.now, deadline) ==>
                     got == sent)
      decreases if end.Message? then 1 else 0, |ch.turns|
    {
      end, got := ReceiveNext(ch, deadline, got, start, sent);
    }
  }

  // ---- Sending ----

  /** What is on the wire once n messages are out, and how the turns were used. */
  ghost predicate Out(ch: Endpoint, start: Start, messages: seq<Text>, n: nat)
    reads ch
    requires n <= |messages|
  {
    && AllFit(messages[..n]) && ch.outgoing == start.outgoing + FrameAll(messages[..n])
    && Ran(start.turns, start.now, ch.turns, ch.now)
    && (Smooth(start.turns) ==> |ch.outgoing| - |start.outgoing| + Moves(ch.turns) >= Moves(start.turns))
  }

  /** Why the sending of messages ends early. */
  ghost predicate CutShort(ch: Endpoint, start: Start, messages: seq<Text>, n: nat, end: SendResult,
                           deadline: Option<nat>)
    reads ch
    requires n < |messages|
  {
    && AllFit(messages[..n]) && !end.Sent? && (end.Refused? <==> !Fits(messages[n]))
    && (end.Refused? ==> ch.outgoing == start.outgoing + FrameAll(messages[..n]))
    && (Fits(messages[n]) ==>
          && AllFit(messages[..n + 1])
          && start.outgoing + FrameAll(messages[..n]) <= ch.outgoing <= start.outgoing + FrameAll(messages[..n + 1]))
    && (AllFit(messages) ==> !GoesWell(ch, |FrameAll(messages)|, start.turns, start.now, deadline))
  }

  method SendNext(ch: Endpoint, deadline: Option<nat>, messages: seq<Text>, n: nat, ghost start: Start)
    returns (r: SendResult)
    requires ch.Valid() && n < |messages| && Out(ch, start, messages, n)
    modifies ch
    ensures ch.Valid()
    ensures if r.Sent? then Out(ch, start, messages, n + 1) else CutShort(ch, start, messages, n, r, deadline)
  {
    ghost var before, turns0, now0 := ch.outgoing, ch.turns, ch.now;
    ghost var since := Start(ch.taken, ch.outgoing, ch.turns, ch.now);
    RanFacts(start.turns, start.now, ch.turns, ch.now);
    if Fits(messages[n]) {
      OneMoreOut(start.outgoing, messages, n);
    }
    r := ch.SendBytes(messages[n], deadline);
    if Fits(messages[n]) {
      RanThen(start.turns, start.now, turns0, now0, ch.turns, ch.now);
    }
    if r.NotSent? && AllFit(messages) && GoesWell(ch, |FrameAll(messages)|, start.turns, start.now, deadline) {
      NeverStopped(ch, since, r.why, deadline);
      FrameAllTake(messages, n);
      assert |ch.outgoing| < |before + Frame(messages[n])|;
    }
  }

  lemma OneMoreOut(out: Text, messages: seq<Text>, n: nat)
    requires n < |messages| && AllFit(messages[..n]) && Fits(messages[n])
    ensures AllFit(messages[..n + 1])
    ensures out + FrameAll(messages[..n]) + Frame(messages[n]) == out + FrameAll(messages[..n + 1])
  {
    assert messages[..n + 1] == messages[..n] + [messages[n]];
    FrameAllAppend(messages[..n], [messages[n]]);
    assert FrameAll([messages[n]]) == Frame(messages[n]) + FrameAll([messages[n]][1..]) == Frame(messages[n]);
    Associate(out, FrameAll(messages[..n]), Frame(messages[n]));
  }

  /**
   * Sends the messages until one does not get through. What goes out is the frames of the messages
   * sent and at most the beginning of the next; all go out when they fit, nothing fails, and there
   * are turns enough.
   */
  method SendAll(ch: Endpoint, deadline: Option<nat>, messages: seq<Text>) returns (n: nat, end: SendResult)
    requires ch.Valid()
    modifies ch
    ensures ch.Valid() && n <= |messages|
    ensures var start := Start(old(ch.taken), old(ch.outgoing), old(ch.turns), old(ch.now));
            if n == |messages| then Out(ch, start, messages, n) else CutShort(ch, start, messages, n, end, deadline)
  {
    ghost var start := Start(ch.taken, ch.outgoing, ch.turns, ch.now);
    n, end := 0, Sent;
    assert messages[..0] == [] && start.outgoing + [] == start.outgoing;
    while n < |messages|
      invariant ch.Valid() && n <= |messages| && Out(ch, start, messages, n)
    {
      end := SendNext(ch, deadline, messages, n, start);
      if !end.Sent? {
        return;
      }
      n := n + 1;
    }
  }

  // ---- Both ends ----

  lemma BytesOfFrame(message: Text, rest: Text)
    requires Fits(message) && IsBytes(message) && IsBytes(rest)
    ensures IsBytes(Frame(message) + rest)
  {
    assert IsBytes(Header(|message|));
  }

  lemma {:induction false} FrameAllBytes(messages: seq<Text>)
    requires AllFit(messages) && forall m :: m in messages ==> IsBytes(m)
    ensures IsBytes(FrameAll(messages))
  {
    if messages != [] {
      FrameAllBytes(messages[1..]);
      BytesOfFrame(messages[0], FrameAll(messages[1..]));
    }
  }

  /** How an end of the channel fares: its checks, its turns, its clock and its deadline. */
  datatype Fate = Fate(conditions: nat -> Conditions, turns: seq<Turn>, now: nat, deadline: Option<nat>)

  ghost predicate Favours(fate: Fate, bytes: nat) {
    && Smooth(fate.turns) && Moves(fate.turns) >= bytes
    && Unhindered(fate.conditions, fate.turns, fate.now, fate.deadline)
  }

  /**
   * Round trip: any messages within the limit, sent by one end and received by the other under any
   * two schedules, arrive as the first of them in order; when nothing fails at either end and each
   * has turns enough, exactly these messages arrive.
   */
  method RoundTrip(messages: seq<Text>, sending: Fate, receiving: Fate) returns (got: seq<Text>)
    requires AllFit(messages) && forall m :: m in messages ==> IsBytes(m)
    ensures got <= messages
    ensures Favours(sending, |FrameAll(messages)|) && Favours(receiving, |FrameAll(messages)|) ==> got == messages
  {
    var sender := new Endpoint([], sending.conditions, sending.turns, sending.now);
    var n, end := SendAll(sender, sending.deadline, messages);
    assert messages[..|messages|] == messages;
    OnTheWire(messages, n, sender.outgoing);
    var receiver := new Endpoint(sender.outgoing, receiving.conditions, receiving.turns, receiving.now);
    var last: Received;
    got, last := ReceiveAll(receiver, receiving.deadline, messages);
  }

  lemma OnTheWire(messages: seq<Text>, n: nat, outgoing: Text)
    requires AllFit(messages) && n <= |messages| && forall m :: m in messages ==> IsBytes(m)
    requires if n == |messages| then outgoing == [] + FrameAll(messages[..n])
             else AllFit(messages[..n + 1]) && outgoing <= [] + FrameAll(messages[..n + 1])
    ensures outgoing <= FrameAll(messages) && IsBytes(outgoing)
  {
    FrameAllBytes(messages);
    assert messages[..|messages|] == messages;
    if n < |messages| {
      FrameAllAppend(messages[..n + 1], messages[n + 1..]);
      assert messages == messages[..n + 1] + messages[n + 1..];
      assert [] + FrameAll(messages[..n + 1]) == FrameAll(messages[..n + 1]) <= FrameAll(messages);
    }
  }
}
