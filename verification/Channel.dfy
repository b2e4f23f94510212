/**
 * The supervised byte channel between the service and a preprocessing child
 * (docreader/preprocess.py, _Channel): non-blocking transfers in pieces, with a check before every
 * piece and after the last one.
 */
module Channel {
  import opened Basics
  import opened Framing

  /** How long one select call may wait, in clock ticks. */
  const POLL_TICKS: nat := 50

  datatype Reason = Cancelled | Timeout | WorkerFailed | MemoryLimit

  /** What the checks find besides the clock. */
  datatype Conditions = Conditions(closed: bool, active: bool, exited: bool, overMemory: bool)

  /** The request's checks first, then the worker's. */
  function CheckFails(c: Conditions, now: nat, deadline: nat): Option<Reason> {
    if c.closed then Some(Cancelled)
    else if now >= deadline then Some(Timeout)
    else if !c.active then Some(Cancelled)
    else if c.exited then Some(WorkerFailed)
    else if c.overMemory then Some(MemoryLimit)
    else None
  }

  /** One wait for the socket: nothing in time, a spurious wake-up, a failing call, or a call that moved bytes. */
  datatype Io = TimedOut | WouldBlock | Broken | Moved(size: nat)

  /** An iteration of the transfer loop: what the socket does and how far the clock moves. */
  datatype Turn = Turn(io: Io, elapsed: nat)

  datatype Transferred = Done | Stopped(reason: Reason) | PeerClosed | Failed | Waiting

  datatype Received = Message(bytes: Text) | Oversize | NotReceived(why: Transferred)

  datatype SendResult = Sent | Refused | NotSent(why: Transferred)

  function Min(a: nat, b: nat): nat {
    if a < b then a else b
  }

  predicate ShortTurns(turns: seq<Turn>) {
    forall i :: 0 <= i < |turns| ==> turns[i].elapsed <= POLL_TICKS
  }

  predicate Advancing(turns: seq<Turn>) {
    forall i :: 0 <= i < |turns| ==> turns[i].elapsed > 0
  }

  /** No turn in which the call fails or the peer has closed its end. */
  predicate Smooth(turns: seq<Turn>) {
    forall i :: 0 <= i < |turns| ==> turns[i].io != Broken && turns[i].io != Moved(0)
  }

  /** The time that these turns take. */
  function Elapsed(turns: seq<Turn>): nat {
    if turns == [] then 0 else turns[0].elapsed + Elapsed(turns[1..])
  }

  /** How many of the turns move bytes. */
  function Moves(turns: seq<Turn>): nat {
    if turns == [] then 0 else (if turns[0].io.Moved? then 1 else 0) + Moves(turns[1..])
  }

  lemma {:induction false} AdvancingTakesTime(turns: seq<Turn>)
    ensures Advancing(turns) ==> Elapsed(turns) >= |turns|
  {
    if turns != [] {
      AdvancingTakesTime(turns[1..]);
    }
  }

  /** An endpoint at the beginning of a transfer. */
  datatype Start = Start(taken: nat, outgoing: Text, turns: seq<Turn>, now: nat)

  /** From these turns at this time to those at that time, using the turns up one by one. */
  predicate Ran(turns: seq<Turn>, now: nat, turns': seq<Turn>, now': nat)
    decreases |turns|
  {
    (turns == turns' && now == now') || (turns != [] && Ran(turns[1..], now + turns[0].elapsed, turns', now'))
  }

  lemma {:induction false} RanFacts(turns: seq<Turn>, now: nat, turns': seq<Turn>, now': nat)
    requires Ran(turns, now, turns', now')
    ensures |turns'| <= |turns| && now <= now'
    ensures now + Elapsed(turns) == now' + Elapsed(turns')
    ensures ShortTurns(turns) ==> ShortTurns(turns')
    ensures Smooth(turns) ==> Smooth(turns')
    decreases |turns|
  {
    if turns != turns' || now != now' {
      RanFacts(turns[1..], now + turns[0].elapsed, turns', now');
    }
  }

  lemma {:induction false} RanThen(turns: seq<Turn>, now: nat, turns': seq<Turn>, now': nat, turns'': seq<Turn>,
                                   now'': nat)
    requires Ran(turns, now, turns', now') && Ran(turns', now', turns'', now'')
    ensures Ran(turns, now, turns'', now'')
    decreases |turns|
  {
    if turns != turns' || now != now' {
      RanThen(turns[1..], now + turns[0].elapsed, turns', now', turns'', now'');
    }
  }

  lemma RanOne(turns: seq<Turn>, now: nat, turns': seq<Turn>, now': nat)
    requires Ran(turns, now, turns', now') && turns' != []
    ensures Ran(turns, now, turns'[1..], now' + turns'[0].elapsed)
  {
    assert Ran(turns'[1..], now' + turns'[0].elapsed, turns'[1..], now' + turns'[0].elapsed);
    RanThen(turns, now, turns', now', turns'[1..], now' + turns'[0].elapsed);
  }

  /**
   * One end of the socket pair. `incoming` is everything the peer will ever have written; how much
   * of it is there at any time is up to the turns. The turns are the scheduler's: when they run
   * out the transfer is still waiting.
   */
  class Endpoint {
    const incoming: Text
    const conditions: nat -> Conditions
    var taken: nat
    var outgoing: Text
    var turns: seq<Turn>
    var checks: nat
    var now: nat
    ghost var lastIo: Option<Io>
    // The sizes of all pieces that have been moved.
    ghost var pieces: seq<nat>

    constructor (incoming: Text, conditions: nat -> Conditions, turns: seq<Turn>, now: nat)
      ensures this.incoming == incoming && this.conditions == conditions && this.turns == turns && this.now == now
      ensures taken == 0 && outgoing == [] && checks == 0
    {
      this.incoming, this.conditions, this.turns, this.now := incoming, conditions, turns, now;
      taken, outgoing, checks, lastIo, pieces := 0, [], 0, None, [];
    }

    predicate Valid()
      reads this
    {
      taken <= |incoming| && IsBytes(incoming)
    }

    /** What the latest check found, if it was made now. */
    function LastCheck(deadline: nat): Option<Reason>
      reads this
      requires checks > 0
    {
      CheckFails(conditions(checks - 1), now, deadline)
    }

    /** The end of a transfer is what the latest check, the latest wait or the schedule says. */
    ghost predicate Explains(why: Transferred, deadline: Option<nat>)
      reads this
    {
      match why
      case Done => deadline.Some? ==> checks > 0 && LastCheck(deadline.value) == None
      case Stopped(reason) => deadline.Some? && checks > 0 && LastCheck(deadline.value) == Some(reason)
      case PeerClosed => lastIo == Some(Moved(0))
      case Failed => lastIo == Some(Broken)
      case Waiting => turns == []
    }

    method Check(deadline: Option<nat>) returns (stop: Option<Reason>)
      modifies this`checks
      ensures deadline.None? ==> stop == None && checks == old(checks)
      ensures deadline.Some? ==> checks == old(checks) + 1 && stop == LastCheck(deadline.value)
    {
      stop := None;
      if deadline.Some? {
        stop := CheckFails(conditions(checks), now, deadline.value);
        checks := checks + 1;
      }
    }

    /** Since then the turns were used from the front, and the clock moved as they say. */
    ghost predicate OnTime(since: Start, deadline: Option<nat>)
      reads this
    {
      && Ran(since.turns, since.now, turns, now)
      // With turns of at most one poll, a supervised transfer is never further than a poll beyond its deadline.
      && (deadline.Some? && ShortTurns(since.turns) ==> now == since.now || now < deadline.value + POLL_TICKS)
    }

    /** When nothing fails and enough bytes are to come, every turn that moves bytes has moved at least one. */
    ghost predicate KeepsUp(since: Start, writing: bool, until: nat)
      reads this
    {
      Smooth(since.turns) && (writing || until <= |incoming|) ==>
        (if writing then |outgoing| - |since.outgoing| else taken - since.taken) + Moves(turns) >= Moves(since.turns)
    }

    /** These bytes of the buffer have been moved since then, in order, and nothing else. */
    ghost predicate InOrder(start: Start, buffer: Text, writing: bool, moved: Text)
      reads this
    {
      && taken <= |incoming| && |moved| <= |buffer|
      && (if writing then moved == buffer[..|moved|] && outgoing == start.outgoing + moved && taken == start.taken
          else outgoing == start.outgoing && taken == start.taken + |moved| && moved == incoming[start.taken..taken])
    }

    /** One iteration's wait: the next turn of the schedule. */
    method Wait() returns (io: Io)
      requires Valid() && turns != []
      modifies this`turns, this`now, this`lastIo
      ensures lastIo == Some(io)
      ensures turns == old(turns)[1..] && io == old(turns)[0].io && now == old(now) + old(turns)[0].elapsed
    {
      io := turns[0].io;
      now := now + turns[0].elapsed;
      turns := turns[1..];
      lastIo := Some(io);
    }

    /** The first half of an iteration: check, wait, and see whether bytes can move or the transfer is over. */
    method Await(deadline: Option<nat>, ghost since: Start) returns (end: Option<Transferred>, size: nat)
      requires Valid() && OnTime(since, deadline)
      modifies this`turns, this`checks, this`now, this`lastIo
      ensures Valid() && OnTime(since, deadline)
      ensures end.Some? ==> !end.value.Done? && Explains(end.value, deadline)
      ensures if end.None? || end == Some(PeerClosed) || end == Some(Failed)
              then old(turns) != [] && turns == old(turns)[1..]
              else turns == old(turns)
      ensures end == Some(Waiting) && deadline.Some? ==> now < deadline.value
      ensures end.None? ==>
                old(turns)[0].io in {TimedOut, WouldBlock, Moved(size)} && (size > 0 <==> old(turns)[0].io.Moved?)
      ensures Smooth(since.turns) ==> end != Some(PeerClosed) && end != Some(Failed)
    {
      RanFacts(since.turns, since.now, turns, now);
      end, size := None, 0;
      var stop := Check(deadline);
      if stop.Some? {
        return Some(Stopped(stop.value)), 0;
      }
      if turns == [] {
        return Some(Waiting), 0;
      }
      RanOne(since.turns, since.now, turns, now);
      var io := Wait();
      match io
      case TimedOut =>
      case WouldBlock =>
      case Broken => end := Some(Failed);
      case Moved(n) =>
        size := n;
        if n == 0 {
          end := Some(PeerClosed);
        }
    }

    function MovedPiece(moved: Text, more: Text): seq<nat> {
      if |more| > |moved| then [|more| - |moved|] else []
    }

    /** One send or recv_into: as much of the view as the socket takes or has. */
    method MoveSome(view: Text, size: nat, writing: bool, ghost start: Start, ghost buffer: Text, moved: Text)
      returns (more: Text, rest: Text)
      requires Valid() && InOrder(start, buffer, writing, moved) && view == buffer[|moved|..] && view != [] && size > 0
      modifies this`taken, this`outgoing, this`pieces
      ensures pieces == old(pieces) + MovedPiece(moved, more)
      ensures Valid() && InOrder(start, buffer, writing, more) && moved <= more && rest == buffer[|more|..]
      ensures |outgoing| - |old(outgoing)| == (if writing then |more| - |moved| else 0)
      ensures taken - old(taken) == (if writing then 0 else |more| - |moved|)
      ensures writing || old(taken) < |incoming| ==> |more| > |moved|
    {
      var n := Min(size, |view|);
      if writing {
        outgoing := outgoing + view[..n];
      } else {
        n := Min(n, |incoming| - taken);
      }
      more := moved + if writing then view[..n] else incoming[taken..taken + n];
      rest := view[n..];
      pieces := pieces + MovedPiece(moved, more);
      if !writing {
        taken := taken + n;
      }
    }

    /** An iteration of the loop: more bytes, or how the transfer ends. */
    method Iterate(buffer: Text, writing: bool, deadline: Option<nat>, moved: Text, view: Text,
                   ghost start: Start, ghost since: Start, ghost until: nat)
      returns (end: Option<Transferred>, more: Text, rest: Text)
      requires Valid() && InOrder(start, buffer, writing, moved) && OnTime(since, deadline)
      requires KeepsUp(since, writing, until)
      requires |moved| < |buffer| && view == buffer[|moved|..] && (writing || taken < until)
      modifies this`taken, this`outgoing, this`turns, this`checks, this`now, this`lastIo, this`pieces
      ensures Valid() && InOrder(start, buffer, writing, more) && OnTime(since, deadline)
      ensures KeepsUp(since, writing, until)
      ensures moved <= more && rest == buffer[|more|..] && pieces == old(pieces) + MovedPiece(moved, more)
      ensures if end.None? then |turns| < |old(turns)| else |turns| <= |old(turns)| && more == moved
      ensures end.Some? ==> !end.value.Done? && Explains(end.value, deadline)
      ensures end == Some(Waiting) && deadline.Some? ==> now < deadline.value
      ensures Smooth(since.turns) ==> end != Some(PeerClosed) && end != Some(Failed)
    {
      var size: nat;
      end, size := Await(deadline, since);
      more, rest := moved, view;
      if end.None? && size > 0 {
        more, rest := MoveSome(view, size, writing, start, buffer, moved);
      }
    }

    /**
     * Moves the buffer out of this endpoint, or as many bytes into it. Whatever the turns do, bytes
     * move in order and none is lost, repeated or taken beyond the buffer. The transfer belongs to
     * a message begun at `since`, which reaches at most to `until`.
     */
    method Transfer(buffer: Text, writing: bool, deadline: Option<nat>, ghost since: Start, ghost until: nat)
      returns (r: Transferred, moved: Text, ghost sizes: seq<nat>)
      requires Valid() && OnTime(since, deadline) && KeepsUp(since, writing, until)
      requires (writing || taken + |buffer| <= until)
      modifies this`taken, this`outgoing, this`turns, this`checks, this`now, this`lastIo, this`pieces
      ensures Valid() && InOrder(Start(old(taken), old(outgoing), old(turns), old(now)), buffer, writing, moved)
      ensures OnTime(since, deadline) && KeepsUp(since, writing, until)
      ensures |turns| <= |old(turns)| && (moved != [] ==> |turns| < |old(turns)|)
      ensures if r.Done? then |moved| == |buffer| else r.Stopped? || |moved| < |buffer|
      // The bytes went in pieces of these sizes.
      ensures pieces == old(pieces) + sizes && Positive(sizes) && Sum(sizes) == |moved|
      // It ends only for a reason, and the last check comes after the last byte.
      ensures Explains(r, deadline)
      ensures r.Waiting? && deadline.Some? ==> now < deadline.value
      ensures Smooth(since.turns) ==> !r.PeerClosed? && !r.Failed?
    {
      ghost var start := Start(taken, outgoing, turns, now);
      var view := buffer;
      moved, sizes := [], [];
      while view != []
        invariant Valid() && InOrder(start, buffer, writing, moved) && view == buffer[|moved|..]
        invariant OnTime(since, deadline) && KeepsUp(since, writing, until)
        invariant pieces == old(pieces) + sizes && Positive(sizes) && Sum(sizes) == |moved|
        invariant |turns| <= |start.turns| && (moved != [] ==> |turns| < |start.turns|)
        decreases |turns|
      {
        var end: Option<Transferred>;
        ghost var before := moved;
        end, moved, view := Iterate(buffer, writing, deadline, moved, view, start, since, until);
        sizes := AddPiece(old(pieces), sizes, before, moved);
        if end.Some? {
          return end.value, moved, sizes;
        }
      }
      var stop := Check(deadline);
      r := if stop.Some? then Stopped(stop.value) else Done;
    }

    lemma AddPiece(before: seq<nat>, sizes: seq<nat>, moved: Text, more: Text) returns (sizes': seq<nat>)
      requires Positive(sizes) && Sum(sizes) == |moved| <= |more|
      ensures before + sizes' == before + sizes + MovedPiece(moved, more) && Positive(sizes') && Sum(sizes') == |more|
    {
      sizes' := sizes + MovedPiece(moved, more);
      if |more| > |moved| {
        SumSnoc(sizes, |more| - |moved|);
      } else {
        assert sizes' == sizes;
      }
    }

    /** Where the next frame ends, if all of it is among the bytes that will come; else somewhere beyond them. */
    function FrameEnd(): (end: nat)
      reads this
      requires Valid()
      ensures end >= taken + 4
    {
      if |incoming| - taken < 4 then |incoming| + 4 else taken + 4 + HeaderValue(incoming[taken..taken + 4])
    }

    /** What a whole message's transfers have promised: no more than a poll late, and turns used well. */
    twostate predicate Supervised(why: Transferred, writing: bool, until: nat, deadline: Option<nat>)
      reads this
    {
      && Explains(why, deadline)
      && OnTime(Start(old(taken), old(outgoing), old(turns), old(now)), deadline)
      && KeepsUp(Start(old(taken), old(outgoing), old(turns), old(now)), writing, until)
      && (Smooth(old(turns)) ==> !why.PeerClosed? && !why.Failed?)
      // It does not wait for as long as was left, nor, if every turn moves the clock, for as many turns.
      && (why.Waiting? && deadline.Some? ==>
            && old(now) + Elapsed(old(turns)) < deadline.value
            && (Advancing(old(turns)) ==> old(now) + |old(turns)| < deadline.value))
    }

    /** What a receive that began there has taken: a frame, or nothing beyond it, in pieces it may ask for. */
    ghost predicate TookFrame(from: nat, pieces0: seq<nat>, r: Received)
      reads this
    {
      && from <= taken <= |incoming| && pieces0 <= pieces
      && Sum(pieces[|pieces0|..]) == taken - from && TakesPieces([], incoming[from..], pieces[|pieces0|..])
      && var got := incoming[from..taken];
         && WithinFrame(got)
         && (r.Message? ==> Fits(r.bytes) && got == Frame(r.bytes))
         && (r.Oversize? ==> Receiving(got) == TooLarge)
         && (r.NotReceived? && !r.why.Stopped? ==> Receiving(got).NeedMore?)
    }

    /** A whole message, or nothing beyond its own frame. */
    method RecvBytes(deadline: Option<nat>) returns (r: Received)
      requires Valid()
      modifies this`taken, this`outgoing, this`turns, this`checks, this`now, this`lastIo, this`pieces
      ensures Valid() && outgoing == old(outgoing) && taken >= old(taken)
      ensures |turns| <= |old(turns)| && (r.Message? ==> |turns| < |old(turns)|)
      ensures TookFrame(old(taken), old(pieces), r)
      ensures r.NotReceived? ==> !r.why.Done?
      ensures Supervised(if r.NotReceived? then r.why else Done, false, old(FrameEnd()), deadline)
    {
      ghost var since, until := Start(taken, outgoing, turns, now), FrameEnd();
      var why, header, sizes := Transfer([0, 0, 0, 0], false, deadline, since, until);
      HeaderPieces(incoming[old(taken)..], old(pieces), sizes);
      if !why.Done? {
        UsedUp(since, deadline);
        return NotReceived(why);
      }
      var size := HeaderValue(header);
      if size > MAX_MESSAGE {
        return Oversize;
      }
      r := RecvData(size, deadline, since, until, old(pieces), header, sizes);
      UsedUp(since, deadline);
    }

    /** The second half: as many bytes as the header says. */
    method RecvData(size: nat, deadline: Option<nat>, ghost since: Start, ghost until: nat,
                    ghost pieces0: seq<nat>, ghost header: Text, ghost sizes: seq<nat>)
      returns (r: Received)
      requires Valid() && OnTime(since, deadline) && KeepsUp(since, false, until) && taken + size <= until
      requires taken == since.taken + 4 && header == incoming[since.taken..taken]
      requires size == HeaderValue(header) <= MAX_MESSAGE
      requires pieces == pieces0 + sizes && Sum(sizes) == 4 && TakesPieces([], incoming[since.taken..], sizes)
      modifies this`taken, this`outgoing, this`turns, this`checks, this`now, this`lastIo, this`pieces
      ensures Valid() && outgoing == old(outgoing) && taken >= old(taken) && |turns| <= |old(turns)|
      ensures TookFrame(since.taken, pieces0, r) && !r.Oversize?
      ensures OnTime(since, deadline) && KeepsUp(since, false, until)
      ensures r.NotReceived? ==> !r.why.Done?
      ensures Explains(if r.NotReceived? then r.why else Done, deadline)
      ensures r == NotReceived(Waiting) && deadline.Some? ==> now < deadline.value
      ensures Smooth(since.turns) ==> r != NotReceived(PeerClosed) && r != NotReceived(Failed)
    {
      var why, data, more := Transfer(seq(size, _ => 0), false, deadline, since, until);
      r := if why.Done? then Message(data) else NotReceived(why);
      BothParts(since.taken, header, data, pieces0, sizes, more, r);
    }

    /** A header and data taken one after the other are a frame taken, or part of one. */
    lemma BothParts(from: nat, header: Text, data: Text, pieces0: seq<nat>, a: seq<nat>, b: seq<nat>, r: Received)
      requires Valid() && from + 4 <= taken && header == incoming[from..from + 4] && data == incoming[from + 4..taken]
      requires HeaderValue(header) <= MAX_MESSAGE && |data| <= HeaderValue(header)
      requires pieces == pieces0 + a + b && TakesPieces([], incoming[from..], a) && Sum(a) == 4 && Positive(b)
      requires Sum(b) == |data|
      requires match r
               case Message(m) => m == data && |data| == HeaderValue(header)
               case NotReceived(why) => why.Stopped? || |data| < HeaderValue(header)
               case Oversize => false
      ensures TookFrame(from, pieces0, r)
    {
      Parts(incoming, from, taken);
      DataPieces(incoming[from..], header, pieces0, a, b, HeaderValue(header));
      FrameOfParts(header, data);
      if |data| < HeaderValue(header) {
        MoreToCome(header, data);
      }
    }

    lemma Parts(s: Text, from: nat, to: nat)
      requires from + 4 <= to <= |s|
      ensures s[from..to] == s[from..from + 4] + s[from + 4..to] && s[from..from + 4] <= s[from..]
    {
    }

    lemma MoreToCome(header: Text, data: Text)
      requires |header| == 4 && HeaderValue(header) <= MAX_MESSAGE && |data| < HeaderValue(header)
      ensures Receiving(header + data).NeedMore?
    {
      assert (header + data)[..4] == header;
    }

    lemma HeaderPieces(coming: Text, pieces0: seq<nat>, sizes: seq<nat>)
      requires Positive(sizes) && Sum(sizes) <= 4 && Sum(sizes) <= |coming|
      ensures TakesPieces([], coming, sizes) && (pieces0 + sizes)[|pieces0|..] == sizes
    {
      PiecesOfOne([], coming, sizes);
    }

    lemma DataPieces(coming: Text, header: Text, pieces0: seq<nat>, a: seq<nat>, b: seq<nat>, size: nat)
      requires |header| == 4 && header <= coming && HeaderValue(header) == size <= MAX_MESSAGE
      requires TakesPieces([], coming, a) && Sum(a) == 4 && Positive(b) && Sum(b) <= size && 4 + Sum(b) <= |coming|
      ensures var all := pieces0 + a + b;
              TakesPieces([], coming, all[|pieces0|..]) && Sum(all[|pieces0|..]) == 4 + Sum(b)
    {
      assert (pieces0 + a + b)[|pieces0|..] == a + b;
      assert [] + coming[..4] == header && header[..4] == header;
      PiecesOfOne(header, coming[4..], b);
      PiecesThen([], coming, a, b);
      SumAppend(a, b);
    }

    lemma UsedUp(since: Start, deadline: Option<nat>)
      requires OnTime(since, deadline)
      ensures turns == [] ==> now == since.now + Elapsed(since.turns)
      ensures Advancing(since.turns) ==> Elapsed(since.turns) >= |since.turns|
    {
      RanFacts(since.turns, since.now, turns, now);
      AdvancingTakesTime(since.turns);
    }

    /** What has been sent since then has gone in pieces. */
    ghost predicate SentInPieces(outgoing0: Text, pieces0: seq<nat>)
      reads this
    {
      outgoing0 <= outgoing && pieces0 <= pieces
      && Positive(pieces[|pieces0|..]) && Sum(pieces[|pieces0|..]) == |outgoing| - |outgoing0|
    }

    lemma PiecesOut(outgoing0: Text, pieces0: seq<nat>, outgoing1: Text, pieces1: seq<nat>, sizes: seq<nat>)
      requires outgoing0 <= outgoing1 <= outgoing && pieces0 <= pieces1 && pieces == pieces1 + sizes
      requires Positive(pieces1[|pieces0|..]) && Sum(pieces1[|pieces0|..]) == |outgoing1| - |outgoing0|
      requires Positive(sizes) && Sum(sizes) == |outgoing| - |outgoing1|
      ensures SentInPieces(outgoing0, pieces0)
    {
      assert pieces[|pieces0|..] == pieces1[|pieces0|..] + sizes;
      SumAppend(pieces1[|pieces0|..], sizes);
    }

    /** One of the two parts of a message that is being sent since then. */
    method SendPart(part: Text, deadline: Option<nat>, ghost since: Start, ghost pieces0: seq<nat>)
      returns (why: Transferred)
      requires Valid() && OnTime(since, deadline) && KeepsUp(since, true, 0) && SentInPieces(since.outgoing, pieces0)
      modifies this`taken, this`outgoing, this`turns, this`checks, this`now, this`lastIo, this`pieces
      ensures Valid() && taken == old(taken) && |turns| <= |old(turns)|
      ensures OnTime(since, deadline) && KeepsUp(since, true, 0) && SentInPieces(since.outgoing, pieces0)
      ensures old(outgoing) <= outgoing <= old(outgoing) + part
      ensures if why.Done? then outgoing == old(outgoing) + part
              else why.Stopped? || |outgoing| < |old(outgoing)| + |part|
      ensures Explains(why, deadline)
      ensures why.Waiting? && deadline.Some? ==> now < deadline.value
      ensures Smooth(since.turns) ==> !why.PeerClosed? && !why.Failed?
    {
      ghost var sizes, moved;
      ghost var pieces1 := pieces;
      why, moved, sizes := Transfer(part, true, deadline, since, 0);
      PiecesOut(since.outgoing, pieces0, old(outgoing), pieces1, sizes);
      assert part[..|part|] == part;
    }

    lemma HeaderOut(before: Text, after: Text, data: Text)
      requires Fits(data) && before <= after <= before + Header(|data|)
      ensures after <= before + Frame(data)
      ensures |after| < |before| + 4 ==> after != before + Frame(data)
    {
      Associate(before, Header(|data|), data);
    }

    lemma DataOut(before: Text, after: Text, data: Text)
      requires Fits(data) && before + Header(|data|) <= after <= before + Header(|data|) + data
      ensures before <= after <= before + Frame(data)
      ensures |after| < |before| + 4 + |data| ==> after != before + Frame(data)
      ensures after == before + Header(|data|) + data ==> after == before + Frame(data)
    {
      Associate(before, Header(|data|), data);
    }

    /** A whole frame after what was sent before, or the beginning of one. */
    method SendBytes(data: Text, deadline: Option<nat>) returns (r: SendResult)
      requires Valid()
      modifies this`taken, this`outgoing, this`turns, this`checks, this`now, this`lastIo, this`pieces
      ensures Valid() && taken == old(taken) && |turns| <= |old(turns)|
      ensures r.Refused? <==> !Fits(data)
      ensures r.Refused? ==> outgoing == old(outgoing) && turns == old(turns) && now == old(now)
      ensures !r.Refused? ==> old(outgoing) <= outgoing <= old(outgoing) + Frame(data)
      ensures r.Sent? ==> outgoing == old(outgoing) + Frame(data)
      ensures r.NotSent? ==> !r.why.Done? && (!r.why.Stopped? ==> outgoing != old(outgoing) + Frame(data))
      ensures !r.Refused? ==> Supervised(if r.NotSent? then r.why else Done, true, 0, deadline)
      ensures SentInPieces(old(outgoing), old(pieces))
    {
      if |data| > MAX_MESSAGE {
        return Refused;
      }
      ghost var since := Start(taken, outgoing, turns, now);
      var why := SendPart(Header(|data|), deadline, since, old(pieces));
      HeaderOut(old(outgoing), outgoing, data);
      if why.Done? {
        why := SendPart(data, deadline, since, old(pieces));
        DataOut(old(outgoing), outgoing, data);
      }
      UsedUp(since, deadline);
      r := if why.Done? then Sent else NotSent(why);
    }
  }
}
