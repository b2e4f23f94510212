/** What an endpoint's receives and sends are in the pool's state machine: runs of its transfer steps. */
module ChannelSteps {
  import opened Basics
  import opened Framing
  import opened Channel
  import opened PoolModel

  lemma RunsCons(env: Env, s: State, a: Action, rest: seq<Action>, s': State)
    requires Enabled(env, s, a) && Runs(env, Apply(env, s, a), rest, s')
    ensures Runs(env, s, [a] + rest, s')
  {
    assert ([a] + rest)[1..] == rest;
  }

  lemma SetProcTwice(s: State, w: nat, p: Proc, q: Proc)
    requires w < |s.procs|
    ensures SetProc(SetProc(s, w, p), w, q) == SetProc(s, w, q)
    ensures SetProc(s, w, s.procs[w]) == s
  {
    assert s.procs[w := p][w := q] == s.procs[w := q];
  }

  // ---- Steps of a child ----

  /** These steps of the child lead its worker from p to p'. */
  predicate ChildRuns(env: Env, p: Proc, steps: seq<ChildStep>, p': Proc)
    decreases |steps|
  {
    if steps == [] then p == p'
    else ChildEnabled(p, steps[0]) && ChildRuns(env, ChildNext(env, p, steps[0]), steps[1..], p')
  }

  lemma {:induction false} ChildRunsThen(env: Env, p: Proc, a: seq<ChildStep>, q: Proc, b: seq<ChildStep>, r: Proc)
    requires ChildRuns(env, p, a, q) && ChildRuns(env, q, b, r)
    ensures ChildRuns(env, p, a + b, r)
    decreases |a|
  {
    if a == [] {
      assert a + b == b;
    } else {
      assert (a + b)[1..] == a[1..] + b;
      ChildRunsThen(env, ChildNext(env, p, a[0]), a[1..], q, b, r);
    }
  }

  lemma ChildRunsOne(env: Env, p: Proc, step: ChildStep)
    requires ChildEnabled(p, step)
    ensures ChildRuns(env, p, [step], ChildNext(env, p, step))
  {
    assert [step][1..] == [];
  }

  function WorkOf(w: nat, steps: seq<ChildStep>): (r: seq<Action>)
    ensures |r| == |steps| && forall i :: 0 <= i < |steps| ==> r[i] == Work(w, steps[i])
  {
    seq(|steps|, i requires 0 <= i < |steps| => Work(w, steps[i]))
  }

  /** Steps of a child are steps of the pool that change nothing but its worker. */
  lemma {:induction false} ChildRunsInPool(env: Env, s: State, w: nat, steps: seq<ChildStep>, p': Proc)
    requires w < |s.procs| && ChildRuns(env, s.procs[w], steps, p')
    ensures Runs(env, s, WorkOf(w, steps), SetProc(s, w, p'))
    decreases |steps|
  {
    var p := s.procs[w];
    SetProcTwice(s, w, p, p);
    if steps != [] {
      var q := ChildNext(env, p, steps[0]);
      SetProcTwice(s, w, q, p');
      ChildRunsInPool(env, SetProc(s, w, q), w, steps[1..], p');
      RunsCons(env, s, Work(w, steps[0]), WorkOf(w, steps[1..]), SetProc(s, w, p'));
      assert WorkOf(w, steps) == [Work(w, steps[0])] + WorkOf(w, steps[1..]);
    }
  }

  /** The child's worker after n bytes of the pipe have been read. */
  function AfterReading(p: Proc, n: nat): Proc
    requires p.child.Reading? && n <= |p.toChild|
  {
    p.(child := Reading(p.child.got + p.toChild[..n]), toChild := p.toChild[n..])
  }

  lemma ReadingOn(p: Proc, n: nat, m: nat)
    requires p.child.Reading? && n + m <= |p.toChild|
    ensures AfterReading(AfterReading(p, n), m) == AfterReading(p, n + m) && AfterReading(p, 0) == p
  {
    TwoPieces(p.child.got, p.toChild, n, m);
    assert p.child.got + p.toChild[..0] == p.child.got && p.toChild[0..] == p.toChild;
  }

  lemma TwoPieces(got: Text, available: Text, n: nat, m: nat)
    requires n + m <= |available|
    ensures got + available[..n] + available[n..][..m] == got + available[..n + m]
    ensures available[n..][m..] == available[n + m..]
  {
    assert available[..n] + available[n..][..m] == available[..n + m];
    Associate(got, available[..n], available[n..][..m]);
  }

  /** Pieces that a receiver may take are Read steps of the child. */
  lemma {:induction false} ReadSteps(env: Env, p: Proc, pieces: seq<nat>) returns (steps: seq<ChildStep>)
    requires p.child.Reading? && Sum(pieces) <= |p.toChild| && TakesPieces(p.child.got, p.toChild, pieces)
    ensures |steps| == |pieces| && forall i :: 0 <= i < |pieces| ==> steps[i] == Read(pieces[i])
    ensures ChildRuns(env, p, steps, AfterReading(p, Sum(pieces)))
    decreases |pieces|
  {
    ReadingOn(p, 0, 0);
    if pieces == [] {
      return [];
    }
    var n, more := pieces[0], pieces[1..];
    var rest := ReadSteps(env, AfterReading(p, n), more);
    ReadingOn(p, n, Sum(more));
    steps := [Read(n)] + rest;
    assert steps[1..] == rest;
  }

  /** The child is writing a frame, its ready message or a response. */
  predicate Writes(c: Child) {
    c.Booting? || c.Sending?
  }

  function WithRest(c: Child, rest: Text): Child
    requires Writes(c)
  {
    if c.Booting? then Booting(rest) else Sending(rest, c.exits)
  }

  function WriteStep(c: Child, n: nat): ChildStep {
    if c.Booting? then WriteReady(n) else Respond(n)
  }

  /** The child's worker after n bytes of its frame have been written. */
  function AfterWriting(p: Proc, n: nat): Proc
    requires Writes(p.child) && n <= |p.child.rest|
  {
    p.(child := WithRest(p.child, p.child.rest[n..]), toParent := p.toParent + p.child.rest[..n])
  }

  lemma WritingOn(p: Proc, n: nat, m: nat)
    requires Writes(p.child) && n + m <= |p.child.rest|
    ensures AfterWriting(AfterWriting(p, n), m) == AfterWriting(p, n + m) && AfterWriting(p, 0) == p
  {
    TwoPieces(p.toParent, p.child.rest, n, m);
    assert p.toParent + p.child.rest[..0] == p.toParent && p.child.rest[0..] == p.child.rest;
  }

  /** Pieces that go out are WriteReady or Respond steps of the child. */
  lemma {:induction false} WriteSteps(env: Env, p: Proc, pieces: seq<nat>) returns (steps: seq<ChildStep>)
    requires Writes(p.child) && Positive(pieces) && Sum(pieces) <= |p.child.rest|
    ensures |steps| == |pieces| && forall i :: 0 <= i < |pieces| ==> steps[i] == WriteStep(p.child, pieces[i])
    ensures ChildRuns(env, p, steps, AfterWriting(p, Sum(pieces)))
    decreases |pieces|
  {
    WritingOn(p, 0, 0);
    if pieces == [] {
      return [];
    }
    var n, more := pieces[0], pieces[1..];
    var rest := WriteSteps(env, AfterWriting(p, n), more);
    WritingOn(p, n, Sum(more));
    steps := [WriteStep(p.child, n)] + rest;
    assert steps[1..] == rest;
  }

  /** A receive, and the pieces in which it took its bytes. */
  method Pieces(ch: Endpoint, deadline: Option<nat>) returns (r: Received, ghost pieces: seq<nat>)
    requires ch.Valid()
    modifies ch
    ensures ch.Valid() && ch.taken == old(ch.taken) + Sum(pieces) && ch.outgoing == old(ch.outgoing)
    ensures TakesPieces([], ch.incoming[old(ch.taken)..], pieces)
    ensures |ch.turns| <= |old(ch.turns)| && (r.Message? ==> |ch.turns| < |old(ch.turns)|)
    ensures r.NotReceived? ==> !r.why.Done? && ch.Explains(r.why, deadline)
    ensures var got := ch.incoming[old(ch.taken)..ch.taken];
            r.Message? ==> Fits(r.bytes) && got == Frame(r.bytes) && Receiving(got) == Complete(r.bytes)
  {
    ghost var pieces0 := ch.pieces;
    r := ch.RecvBytes(deadline);
    pieces := ch.pieces[|pieces0|..];
    if r.Message? {
      ReceivingFrame(r.bytes, Frame(r.bytes));
    }
  }

  /** From polling: with nothing in the pipe there is nothing to read, else the bytes are read in pieces. */
  lemma BeginAndRead(env: Env, p: Proc, pieces: seq<nat>, incoming: Text, from: nat)
    returns (p': Proc, steps: seq<ChildStep>)
    requires p.child == Polling && from <= |incoming| && p.toChild == incoming[from..]
    requires Sum(pieces) <= |incoming| - from && TakesPieces([], incoming[from..], pieces)
    ensures ChildRuns(env, p, steps, p')
    ensures var to := from + Sum(pieces);
            p' == p.(child := if p.toChild == [] then Polling else Reading(incoming[from..to]),
                     toChild := incoming[to..])
  {
    Slices(incoming, from, from + Sum(pieces));
    if p.toChild == [] {
      return p, [];
    }
    var q := ChildNext(env, p, Begin);
    ChildRunsOne(env, p, Begin);
    steps := ReadSteps(env, q, pieces);
    p' := AfterReading(q, Sum(pieces));
    ChildRunsThen(env, p, [Begin], q, steps, p');
    steps := [Begin] + steps;
  }

  /** The child receives an image: its endpoint takes bytes exactly as Begin and Read steps do. */
  method ChildReceives(ghost env: Env, ghost p: Proc, ch: Endpoint)
    returns (r: Received, ghost p': Proc, ghost steps: seq<ChildStep>)
    requires ch.Valid() && p.child == Polling && p.toChild == ch.incoming[ch.taken..]
    modifies ch
    ensures ch.Valid() && ch.taken >= old(ch.taken) && ch.outgoing == old(ch.outgoing) && ChildRuns(env, p, steps, p')
    ensures var got := ch.incoming[old(ch.taken)..ch.taken];
            && p' == p.(child := if p.toChild == [] then Polling else Reading(got), toChild := ch.incoming[ch.taken..])
            && (r.Message? ==> Fits(r.bytes) && got == Frame(r.bytes)
                               && p'.child == Reading(got) && Receiving(got) == Complete(r.bytes))
    ensures |ch.turns| <= |old(ch.turns)| && (r.Message? ==> |ch.turns| < |old(ch.turns)|)
    ensures r.NotReceived? ==> !r.why.Done? && ch.Explains(r.why, None)
  {
    ghost var from, pieces := ch.taken, [];
    r, pieces := Pieces(ch, None);
    p', steps := BeginAndRead(env, p, pieces, ch.incoming, from);
  }

  lemma Slices(s: Text, i: nat, j: nat)
    requires i <= j <= |s|
    ensures [] + s[i..][..j - i] == s[i..j] && s[i..][j - i..] == s[j..]
  {
  }

  /**
   * The child sends its ready message or a response: its endpoint puts bytes out exactly as those steps
   * do. A message beyond the limit is refused, and nothing happens.
   */
  method ChildSends(ghost env: Env, ghost p: Proc, ch: Endpoint, data: Text)
    returns (r: SendResult, ghost p': Proc, ghost steps: seq<ChildStep>)
    requires ch.Valid() && (Fits(data) ==> Writes(p.child) && p.child.rest == Frame(data))
    modifies ch
    ensures ch.Valid() && ch.taken == old(ch.taken) && ChildRuns(env, p, steps, p')
    ensures r.Refused? <==> !Fits(data)
    ensures r.Refused? ==> p' == p && ch.outgoing == old(ch.outgoing)
    ensures Fits(data) ==>
              && old(ch.outgoing) <= ch.outgoing <= old(ch.outgoing) + Frame(data)
              && p' == AfterWriting(p, |ch.outgoing| - |old(ch.outgoing)|)
              && p'.toParent == p.toParent + ch.outgoing[|old(ch.outgoing)|..]
    ensures r.Sent? ==> ch.outgoing == old(ch.outgoing) + Frame(data) && p'.child.rest == []
    ensures |ch.turns| <= |old(ch.turns)|
    ensures r.NotSent? ==> !r.why.Done? && ch.Explains(r.why, None)
  {
    ghost var outgoing0, pieces0 := ch.outgoing, ch.pieces;
    r := ch.SendBytes(data, None);
    p', steps := p, [];
    if Fits(data) {
      ghost var pieces := ch.pieces[|pieces0|..];
      PartSent(outgoing0, ch.outgoing, Frame(data));
      steps := WriteSteps(env, p, pieces);
      p' := AfterWriting(p, Sum(pieces));
    }
  }

  lemma PartSent(before: Text, after: Text, frame: Text)
    requires before <= after <= before + frame
    ensures |after| - |before| <= |frame| && frame[..|after| - |before|] == after[|before|..]
  {
    assert after[|before|..] == (before + frame)[|before|..|after|];
  }

  // ---- Steps of a request ----

  /** Thread t exchanges bytes with worker w. */
  predicate Talks(s: State, t: nat, w: nat) {
    HoldsWorker(s, t, w)
  }

  function SetBoth(s: State, t: nat, w: nat, phase: Phase, p: Proc): State
    requires Talks(s, t, w)
  {
    SetProc(SetPhase(s, t, phase), w, p)
  }

  lemma SetBothTwice(s: State, t: nat, w: nat, phase: Phase, p: Proc, phase': Phase, p': Proc)
    requires Talks(s, t, w)
    ensures Talks(SetBoth(s, t, w, phase, p), t, w)
    ensures SetBoth(SetBoth(s, t, w, phase, p), t, w, phase', p') == SetBoth(s, t, w, phase', p')
    ensures SetBoth(s, t, w, PhaseOf(s, t), s.procs[w]) == s
  {
    var s1 := SetBoth(s, t, w, phase, p);
    var th, th' := s1.threads[t], Request(s.threads[t].image, Holding(SlotOf(s, t), phase'));
    assert s.threads[t := th][t := th'] == s.threads[t := th'];
    assert s.procs[w := p][w := p'] == s.procs[w := p'];
    assert s.threads[t := s.threads[t]] == s.threads && s.procs[w := s.procs[w]] == s.procs;
  }

  /** The request is receiving a frame, the ready message or the response. */
  predicate Awaits(phase: Phase) {
    phase.AwaitReady? || phase.AwaitResponse?
  }

  function WithGot(phase: Phase, got: Text): Phase
    requires Awaits(phase)
  {
    if phase.AwaitReady? then AwaitReady(got) else AwaitResponse(got, phase.base)
  }

  function TakeStep(phase: Phase, n: nat): TalkStep {
    if phase.AwaitReady? then TakeReady(n) else TakeResponse(n)
  }

  /** The request after n bytes of the pipe have been taken. */
  function AfterTaking(s: State, t: nat, w: nat, n: nat): State
    requires Talks(s, t, w) && Awaits(PhaseOf(s, t)) && n <= |s.procs[w].toParent|
  {
    var p := s.procs[w];
    SetBoth(s, t, w, WithGot(PhaseOf(s, t), PhaseOf(s, t).got + p.toParent[..n]), p.(toParent := p.toParent[n..]))
  }

  lemma TakingOn(s: State, t: nat, w: nat, n: nat, m: nat)
    requires Talks(s, t, w) && Awaits(PhaseOf(s, t)) && n + m <= |s.procs[w].toParent|
    ensures Talks(AfterTaking(s, t, w, n), t, w)
    ensures AfterTaking(AfterTaking(s, t, w, n), t, w, m) == AfterTaking(s, t, w, n + m)
    ensures AfterTaking(s, t, w, 0) == s
  {
    var phase, p, k := PhaseOf(s, t), s.procs[w], n + m;
    TwoPieces(phase.got, p.toParent, n, m);
    SetBothTwice(s, t, w, WithGot(phase, phase.got + p.toParent[..n]), p.(toParent := p.toParent[n..]),
                 WithGot(phase, phase.got + p.toParent[..k]), p.(toParent := p.toParent[k..]));
    assert phase.got + p.toParent[..0] == phase.got && p.toParent[0..] == p.toParent;
  }

  lemma OneTake(env: Env, s: State, t: nat, w: nat, n: nat)
    requires Talks(s, t, w) && Awaits(PhaseOf(s, t)) && CanTake(PhaseOf(s, t).got, s.procs[w].toParent, n)
    ensures var a := Talk(t, TakeStep(PhaseOf(s, t), n));
            Enabled(env, s, a) && Apply(env, s, a) == AfterTaking(s, t, w, n)
  {
  }

  /** Pieces that a receiver may take are TakeReady or TakeResponse steps of the request. */
  lemma {:induction false} TakeSteps(env: Env, s: State, t: nat, w: nat, pieces: seq<nat>) returns (steps: seq<Action>)
    requires Talks(s, t, w) && Awaits(PhaseOf(s, t)) && Sum(pieces) <= |s.procs[w].toParent|
    requires TakesPieces(PhaseOf(s, t).got, s.procs[w].toParent, pieces)
    ensures |steps| == |pieces|
    ensures forall i :: 0 <= i < |pieces| ==> steps[i] == Talk(t, TakeStep(PhaseOf(s, t), pieces[i]))
    ensures Runs(env, s, steps, AfterTaking(s, t, w, Sum(pieces)))
    decreases |pieces|
  {
    TakingOn(s, t, w, 0, 0);
    if pieces == [] {
      return [];
    }
    var n, more := pieces[0], pieces[1..];
    OneTake(env, s, t, w, n);
    TakingOn(s, t, w, n, Sum(more));
    var rest := TakeSteps(env, AfterTaking(s, t, w, n), t, w, more);
    var a := Talk(t, TakeStep(PhaseOf(s, t), n));
    RunsCons(env, s, a, rest, AfterTaking(s, t, w, Sum(pieces)));
    steps := [a] + rest;
  }

  /** The request after n bytes of its image have been sent. */
  function AfterSending(s: State, t: nat, w: nat, n: nat): State
    requires Talks(s, t, w) && PhaseOf(s, t).SendingImage? && n <= |PhaseOf(s, t).rest|
  {
    var phase, p := PhaseOf(s, t), s.procs[w];
    SetBoth(s, t, w, SendingImage(phase.rest[n..], phase.base), p.(toChild := p.toChild + phase.rest[..n]))
  }

  lemma SendingOn(s: State, t: nat, w: nat, n: nat, m: nat)
    requires Talks(s, t, w) && PhaseOf(s, t).SendingImage? && n + m <= |PhaseOf(s, t).rest|
    ensures Talks(AfterSending(s, t, w, n), t, w)
    ensures AfterSending(AfterSending(s, t, w, n), t, w, m) == AfterSending(s, t, w, n + m)
    ensures AfterSending(s, t, w, 0) == s
  {
    var phase, p, k := PhaseOf(s, t), s.procs[w], n + m;
    TwoPieces(p.toChild, phase.rest, n, m);
    SetBothTwice(s, t, w, SendingImage(phase.rest[n..], phase.base), p.(toChild := p.toChild + phase.rest[..n]),
                 SendingImage(phase.rest[k..], phase.base), p.(toChild := p.toChild + phase.rest[..k]));
    assert p.toChild + phase.rest[..0] == p.toChild && phase.rest[0..] == phase.rest;
  }

  lemma OneSend(env: Env, s: State, t: nat, w: nat, n: nat)
    requires Talks(s, t, w) && PhaseOf(s, t).SendingImage? && 1 <= n <= |PhaseOf(s, t).rest|
    ensures Enabled(env, s, Talk(t, SendSome(n))) && Apply(env, s, Talk(t, SendSome(n))) == AfterSending(s, t, w, n)
  {
  }

  /** Pieces that go out are SendSome steps of the request. */
  lemma {:induction false} SendSteps(env: Env, s: State, t: nat, w: nat, pieces: seq<nat>) returns (steps: seq<Action>)
    requires Talks(s, t, w) && PhaseOf(s, t).SendingImage? && Positive(pieces) && Sum(pieces) <= |PhaseOf(s, t).rest|
    ensures |steps| == |pieces| && forall i :: 0 <= i < |pieces| ==> steps[i] == Talk(t, SendSome(pieces[i]))
    ensures Runs(env, s, steps, AfterSending(s, t, w, Sum(pieces)))
    decreases |pieces|
  {
    SendingOn(s, t, w, 0, 0);
    if pieces == [] {
      return [];
    }
    var n, more := pieces[0], pieces[1..];
    OneSend(env, s, t, w, n);
    SendingOn(s, t, w, n, Sum(more));
    var rest := SendSteps(env, AfterSending(s, t, w, n), t, w, more);
    RunsCons(env, s, Talk(t, SendSome(n)), rest, AfterSending(s, t, w, Sum(pieces)));
    steps := [Talk(t, SendSome(n))] + rest;
  }

  /** A whole receive from a pipe that holds the incoming bytes from there on. */
  lemma TakenFrom(env: Env, s: State, t: nat, w: nat, pieces: seq<nat>, incoming: Text, from: nat)
    returns (s': State, steps: seq<Action>)
    requires Talks(s, t, w) && Awaits(PhaseOf(s, t)) && PhaseOf(s, t).got == []
    requires from <= |incoming| && s.procs[w].toParent == incoming[from..] && Sum(pieces) <= |incoming| - from
    requires TakesPieces([], incoming[from..], pieces)
    ensures var n := Sum(pieces);
            && Runs(env, s, steps, s') && s' == AfterTaking(s, t, w, n) && Talks(s', t, w)
            && PhaseOf(s', t) == WithGot(PhaseOf(s, t), incoming[from..from + n])
            && s'.procs[w].toParent == incoming[from + n..]
  {
    steps := TakeSteps(env, s, t, w, pieces);
    s' := AfterTaking(s, t, w, Sum(pieces));
    Slices(incoming, from, from + Sum(pieces));
  }

  lemma SentFrom(s: State, t: nat, w: nat, n: nat)
    requires Talks(s, t, w) && PhaseOf(s, t).SendingImage? && n <= |PhaseOf(s, t).rest|
    ensures var s' := AfterSending(s, t, w, n);
            && Talks(s', t, w) && PhaseOf(s', t) == SendingImage(PhaseOf(s, t).rest[n..], PhaseOf(s, t).base)
            && s'.procs[w].toChild == s.procs[w].toChild + PhaseOf(s, t).rest[..n]
  {
  }

  /** The request receives the ready message or a response: its endpoint takes bytes exactly as those steps do. */
  method RequestReceives(ghost env: Env, ghost s: State, ghost t: nat, ghost w: nat, ch: Endpoint,
                         deadline: Option<nat>)
    returns (r: Received, ghost s': State, ghost steps: seq<Action>)
    requires ch.Valid() && Talks(s, t, w) && Awaits(PhaseOf(s, t)) && PhaseOf(s, t).got == []
    requires s.procs[w].toParent == ch.incoming[ch.taken..]
    modifies ch
    ensures ch.Valid() && ch.taken >= old(ch.taken) && Runs(env, s, steps, s')
    ensures s' == AfterTaking(s, t, w, ch.taken - old(ch.taken)) && Talks(s', t, w)
    ensures PhaseOf(s', t) == WithGot(PhaseOf(s, t), ch.incoming[old(ch.taken)..ch.taken])
    ensures s'.procs[w].toParent == ch.incoming[ch.taken..]
    ensures r.Message? ==> Receiving(ch.incoming[old(ch.taken)..ch.taken]) == Complete(r.bytes)
  {
    ghost var from, pieces := ch.taken, [];
    r, pieces := Pieces(ch, deadline);
    s', steps := TakenFrom(env, s, t, w, pieces, ch.incoming, from);
  }

  /** The request sends its image: its endpoint puts bytes out exactly as SendSome steps do. */
  method RequestSends(ghost env: Env, ghost s: State, ghost t: nat, ghost w: nat, ch: Endpoint, deadline: Option<nat>,
                      image: Text)
    returns (r: SendResult, ghost s': State, ghost steps: seq<Action>)
    requires ch.Valid() && Fits(image) && Talks(s, t, w) && PhaseOf(s, t).SendingImage?
    requires PhaseOf(s, t).rest == Frame(image)
    modifies ch
    ensures ch.Valid() && old(ch.outgoing) <= ch.outgoing <= old(ch.outgoing) + Frame(image) && Runs(env, s, steps, s')
    ensures s' == AfterSending(s, t, w, |ch.outgoing| - |old(ch.outgoing)|) && Talks(s', t, w)
    ensures s'.procs[w].toChild == s.procs[w].toChild + ch.outgoing[|old(ch.outgoing)|..]
    ensures r.Sent? ==> PhaseOf(s', t).rest == []
  {
    ghost var outgoing0, pieces0 := ch.outgoing, ch.pieces;
    r := ch.SendBytes(image, deadline);
    ghost var pieces := ch.pieces[|pieces0|..];
    steps := SendSteps(env, s, t, w, pieces);
    PartSent(outgoing0, ch.outgoing, Frame(image));
    s' := AfterSending(s, t, w, Sum(pieces));
    SentFrom(s, t, w, Sum(pieces));
  }
}
