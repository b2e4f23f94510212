/** A request's three messages with its worker, under one deadline (docreader/preprocess.py, run). */
module RequestExchange {
  import opened Basics
  import opened Framing
  import opened Channel
  import PoolModel

  datatype Exchanged =
    | Answered(response: Text)
    | NotReady(message: Text)
    | TooLong
    | NoAnswer(why: Transferred)

  function Now(ch: Endpoint): Start
    reads ch
  {
    Start(ch.taken, ch.outgoing, ch.turns, ch.now)
  }

  /** One transfer after another, each on time for the deadline, are on time together. */
  lemma OnTimeThen(ch: Endpoint, start: Start, middle: Start, deadline: nat)
    requires Ran(start.turns, start.now, middle.turns, middle.now)
    requires ShortTurns(start.turns) ==> middle.now == start.now || middle.now < deadline + POLL_TICKS
    requires ch.OnTime(middle, Some(deadline))
    ensures ch.OnTime(start, Some(deadline))
  {
    RanFacts(start.turns, start.now, middle.turns, middle.now);
    RanThen(start.turns, start.now, middle.turns, middle.now, ch.turns, ch.now);
  }

  /** A receive that belongs to an exchange begun at `start`. */
  method Receive(ch: Endpoint, deadline: nat, ghost start: Start) returns (r: Received)
    requires ch.Valid() && ch.OnTime(start, Some(deadline))
    modifies ch
    ensures ch.Valid() && ch.OnTime(start, Some(deadline))
    ensures ch.outgoing == old(ch.outgoing) && ch.taken >= old(ch.taken)
    ensures r.Message? ==>
              Fits(r.bytes) && ch.incoming[old(ch.taken)..ch.taken] == Frame(r.bytes) && ch.now < deadline
    ensures r.NotReceived? ==> ch.Explains(r.why, Some(deadline)) && (r.why.Waiting? ==> ch.now < deadline)
  {
    ghost var middle := Now(ch);
    r := ch.RecvBytes(Some(deadline));
    OnTimeThen(ch, start, middle, deadline);
    RanFacts(middle.turns, middle.now, ch.turns, ch.now);
  }

  /** A send that belongs to it. */
  method Send(ch: Endpoint, data: Text, deadline: nat, ghost start: Start) returns (r: SendResult)
    requires ch.Valid() && ch.OnTime(start, Some(deadline))
    modifies ch
    ensures ch.Valid() && ch.OnTime(start, Some(deadline)) && ch.taken == old(ch.taken)
    ensures r.Sent? ==> Fits(data) && ch.outgoing == old(ch.outgoing) + Frame(data)
    ensures r.NotSent? ==> ch.Explains(r.why, Some(deadline)) && (r.why.Waiting? ==> ch.now < deadline)
  {
    ghost var middle := Now(ch);
    r := ch.SendBytes(data, Some(deadline));
    if !r.Refused? {
      OnTimeThen(ch, start, middle, deadline);
      RanFacts(middle.turns, middle.now, ch.turns, ch.now);
    }
  }

  /**
   * The ready message of a new worker, the image and the response. However the turns go and whoever
   * stalls in the middle of a message, it is over within one poll of the deadline; an answer passed its
   * last check before the deadline.
   */
  method Exchange(ch: Endpoint, ready: bool, image: Text, deadline: nat) returns (r: Exchanged)
    requires ch.Valid()
    modifies ch
    ensures ch.Valid() && old(ch.taken) <= ch.taken
    ensures ShortTurns(old(ch.turns)) ==> ch.now == old(ch.now) || ch.now < deadline + POLL_TICKS
    ensures r == NoAnswer(Waiting) ==> old(ch.now) + Elapsed(old(ch.turns)) < deadline
    ensures r == NoAnswer(Waiting) && Advancing(old(ch.turns)) ==> old(ch.now) + |old(ch.turns)| < deadline
    ensures r.Answered? ==>
              && ch.now < deadline && Fits(image) && Fits(r.response)
              && ch.outgoing == old(ch.outgoing) + Frame(image)
              && ch.incoming[old(ch.taken)..ch.taken]
                 == (if ready then [] else Frame(PoolModel.READY)) + Frame(r.response)
    ensures r.NotReady? ==> !ready && r.message != PoolModel.READY && ch.outgoing == old(ch.outgoing)
    ensures r.NoAnswer? ==> ch.Explains(r.why, Some(deadline))
  {
    ghost var start := Now(ch);
    AdvancingTakesTime(ch.turns);
    ghost var from := ch.taken;
    if !ready {
      var hello := Receive(ch, deadline, start);
      RanFacts(start.turns, start.now, ch.turns, ch.now);
      if !hello.Message? {
        return NoMessage(hello);
      }
      if hello.bytes != PoolModel.READY {
        return NotReady(hello.bytes);
      }
    }
    ghost var middle := ch.taken;
    assert ch.incoming[from..middle] == if ready then [] else Frame(PoolModel.READY);
    var sent := Send(ch, image, deadline, start);
    RanFacts(start.turns, start.now, ch.turns, ch.now);
    if !sent.Sent? {
      return if sent.Refused? then TooLong else NoAnswer(sent.why);
    }
    var answer := Receive(ch, deadline, start);
    RanFacts(start.turns, start.now, ch.turns, ch.now);
    assert ch.incoming[from..ch.taken] == ch.incoming[from..middle] + ch.incoming[middle..ch.taken];
    r := if answer.Message? then Answered(answer.bytes) else NoMessage(answer);
  }

  function NoMessage(r: Received): Exchanged
    requires !r.Message?
  {
    if r.Oversize? then TooLong else NoAnswer(r.why)
  }
}
