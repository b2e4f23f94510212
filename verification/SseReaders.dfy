/**
 * The three Go stream readers. Each loop is proved against `Outcome`, which says what is delivered
 * and returned in terms of the lines of the whole body.
 */
module SseReaders {
  import opened Basics
  import opened SseLines
  import opened SseScanner
  import opened SseFrames

  /** Per-line cap the readers give the scanner. */
  const MAX_LINE: nat := 4 * 1024 * 1024

  const ERROR: Text := [0x65, 0x72, 0x72, 0x6F, 0x72]

  datatype Response = Response(responseType: Text, content: Text, done: bool) {
    predicate Terminal() {
      responseType == ERROR && done
    }
  }

  /** JSON decoding is a partial function on payloads. */
  type Decoder = Text -> Option<Response>

  /** Whether the callback accepts its latest call, given all its calls so far. */
  type Verdict = seq<Response> -> bool

  /** The caller's callback: it sees one response at a time and may fail. */
  class Callback {
    const verdict: Verdict
    var calls: seq<Response>

    constructor (verdict: Verdict)
      ensures this.verdict == verdict && calls == []
    {
      this.verdict := verdict;
      calls := [];
    }

    method Invoke(r: Response) returns (ok: bool)
      modifies this
      ensures calls == old(calls) + [r] && ok == verdict(calls)
    {
      calls := calls + [r];
      ok := verdict(calls);
    }
  }

  datatype Result =
    | Success
    | ParseFailed
    | CallbackFailed
    | StreamError(content: Text)
    | ReadError(err: ScanError)
    | Incomplete

  // ---- What a reader does with a body, in one shot ----

  /** ContinueStream keeps only message events; the other two keep all. */
  predicate Selected(messagesOnly: bool, e: Event) {
    messagesOnly ==> e.kind == MESSAGE
  }

  function Payloads(messagesOnly: bool, events: seq<Event>): seq<Text> {
    if events == [] then []
    else
      (if Selected(messagesOnly, events[0]) then [events[0].data] else [])
      + Payloads(messagesOnly, events[1..])
  }

  /** The payloads handed to JSON decoding if nothing stops the reader. */
  function Handed(messagesOnly: bool, lines: seq<Text>): seq<Text> {
    Payloads(messagesOnly, Events(Blocks(lines)))
  }

  datatype Delivery = Delivery(calls: seq<Response>, stop: Option<Result>)

  /**
   * Decode and call back in order, up to the first decode failure (not called back), callback
   * failure or terminal error response (both called back).
   */
  function Deliver(payloads: seq<Text>, decode: Decoder, verdict: Verdict, calls: seq<Response>): (d: Delivery)
    ensures calls <= d.calls
    decreases |payloads|
  {
    if payloads == [] then Delivery(calls, None)
    else
      match decode(payloads[0])
      case None => Delivery(calls, Some(ParseFailed))
      case Some(r) =>
        var called := calls + [r];
        if !verdict(called) then Delivery(called, Some(CallbackFailed))
        else if r.Terminal() then Delivery(called, Some(StreamError(r.content)))
        else
          var d := Deliver(payloads[1..], decode, verdict, called);
          assert calls <= called;
          d
  }

  /** How the scan over these lines ends. */
  function ScanEnd(lines: seq<Text>, limit: nat, ending: ScanError): ScanError {
    if Scannable(lines, limit) == lines then ending else TokenTooLong
  }

  function AtEnd(end: ScanError, open: seq<Text>): Result {
    if end != EndOfFile then ReadError(end)
    else if Payload(open) == [] then Success
    else Incomplete
  }

  datatype Outcome = Outcome(calls: seq<Response>, result: Result)

  /** Calls and result of a reader over a body with these lines. */
  function OutcomeOf(messagesOnly: bool, lines: seq<Text>, limit: nat, ending: ScanError,
                     decode: Decoder, verdict: Verdict, calls: seq<Response>): Outcome
  {
    var usable := Scannable(lines, limit);
    var d := Deliver(Handed(messagesOnly, usable), decode, verdict, calls);
    Outcome(d.calls, if d.stop.Some? then d.stop.value else AtEnd(ScanEnd(lines, limit, ending), OpenBlock(usable)))
  }

  // ---- One line at a time ----

  /** A reader in the middle of a run: its calls so far, the open block, the lines to come. */
  datatype Progress = Progress(calls: seq<Response>, block: seq<Text>, remaining: seq<Text>)

  /** The outcome of the run from there. */
  function Coming(messagesOnly: bool, p: Progress, ending: ScanError, decode: Decoder, verdict: Verdict): Outcome {
    var usable := Scannable(p.remaining, MAX_LINE);
    var d := Deliver(Handed(messagesOnly, p.block + usable), decode, verdict, p.calls);
    Outcome(d.calls,
            if d.stop.Some? then d.stop.value
            else AtEnd(ScanEnd(p.remaining, MAX_LINE, ending), OpenBlock(p.block + usable)))
  }

  lemma FromTheStart(messagesOnly: bool, lines: seq<Text>, ending: ScanError, decode: Decoder, verdict: Verdict,
                     calls: seq<Response>)
    ensures OutcomeOf(messagesOnly, lines, MAX_LINE, ending, decode, verdict, calls)
         == Coming(messagesOnly, Progress(calls, [], lines), ending, decode, verdict)
  {
    assert [] + Scannable(lines, MAX_LINE) == Scannable(lines, MAX_LINE);
  }

  lemma FirstUsable(lines: seq<Text>, ending: ScanError)
    requires lines != [] && |lines[0]| < MAX_LINE
    ensures Scannable(lines, MAX_LINE) == [lines[0]] + Scannable(lines[1..], MAX_LINE)
    ensures ScanEnd(lines, MAX_LINE, ending) == ScanEnd(lines[1..], MAX_LINE, ending)
  {
    assert lines == [lines[0]] + lines[1..];
  }

  /** A line that is not blank joins the open block. */
  lemma LineRead(messagesOnly: bool, p: Progress, ending: ScanError, decode: Decoder, verdict: Verdict)
    requires p.remaining != [] && |p.remaining[0]| < MAX_LINE && p.remaining[0] != []
    ensures Coming(messagesOnly, p, ending, decode, verdict)
         == Coming(messagesOnly, p.(block := p.block + [p.remaining[0]], remaining := p.remaining[1..]), ending,
                   decode, verdict)
  {
    FirstUsable(p.remaining, ending);
    Associate(p.block, [p.remaining[0]], Scannable(p.remaining[1..], MAX_LINE));
  }

  /** The payload of a finished block, if it is handed on. */
  function HandedBlock(messagesOnly: bool, block: seq<Text>): seq<Text> {
    if Payload(block) == [] || (messagesOnly && EventKind(block) != [] && EventKind(block) != MESSAGE) then []
    else [Payload(block)]
  }

  lemma BlockEnds(messagesOnly: bool, block: seq<Text>, usable: seq<Text>)
    requires NoBlank(block)
    ensures Handed(messagesOnly, block + [[]] + usable)
         == HandedBlock(messagesOnly, block) + Handed(messagesOnly, usable)
    ensures OpenBlock(block + [[]] + usable) == OpenBlock(usable)
  {
    FirstBlankOf(block, usable);
    var blocks := [block] + Blocks(usable);
    assert blocks[1..] == Blocks(usable);
    if Payload(block) != [] {
      var e := Event(KindOrMessage(EventKind(block)), Payload(block));
      var es := [e] + Events(Blocks(usable));
      assert Events(blocks) == es && es[1..] == Events(Blocks(usable));
    } else {
      assert HandedBlock(messagesOnly, block) + Handed(messagesOnly, usable) == Handed(messagesOnly, usable);
      assert Events(blocks) == Events(Blocks(usable));
    }
  }

  lemma {:induction false} DeliverAppend(a: seq<Text>, b: seq<Text>, decode: Decoder, verdict: Verdict,
                                         calls: seq<Response>)
    ensures var d := Deliver(a, decode, verdict, calls);
            Deliver(a + b, decode, verdict, calls)
            == if d.stop.Some? then d else Deliver(b, decode, verdict, d.calls)
    decreases |a|
  {
    if a == [] {
      assert a + b == b;
    } else {
      assert (a + b)[1..] == a[1..] + b;
      match decode(a[0])
      case None =>
      case Some(r) => DeliverAppend(a[1..], b, decode, verdict, calls + [r]);
    }
  }

  /** A blank line delivers the open block and starts another. */
  lemma BlankRead(messagesOnly: bool, p: Progress, ending: ScanError, decode: Decoder, verdict: Verdict)
    requires NoBlank(p.block) && p.remaining != [] && p.remaining[0] == []
    ensures var d := Deliver(HandedBlock(messagesOnly, p.block), decode, verdict, p.calls);
            Coming(messagesOnly, p, ending, decode, verdict)
            == if d.stop.Some? then Outcome(d.calls, d.stop.value)
               else Coming(messagesOnly, Progress(d.calls, [], p.remaining[1..]), ending, decode, verdict)
  {
    var rest := Scannable(p.remaining[1..], MAX_LINE);
    FirstUsable(p.remaining, ending);
    assert p.block + Scannable(p.remaining, MAX_LINE) == p.block + [[]] + rest && [] + rest == rest;
    BlockDelivered(messagesOnly, p.block, rest, decode, verdict, p.calls);
  }

  lemma BlockDelivered(messagesOnly: bool, block: seq<Text>, rest: seq<Text>, decode: Decoder, verdict: Verdict,
                       calls: seq<Response>)
    requires NoBlank(block)
    ensures OpenBlock(block + [[]] + rest) == OpenBlock(rest)
    ensures var d := Deliver(HandedBlock(messagesOnly, block), decode, verdict, calls);
            Deliver(Handed(messagesOnly, block + [[]] + rest), decode, verdict, calls)
            == if d.stop.Some? then d else Deliver(Handed(messagesOnly, rest), decode, verdict, d.calls)
  {
    BlockEnds(messagesOnly, block, rest);
    DeliverAppend(HandedBlock(messagesOnly, block), Handed(messagesOnly, rest), decode, verdict, calls);
  }

  lemma NothingMore(messagesOnly: bool, p: Progress, ending: ScanError, decode: Decoder, verdict: Verdict)
    requires NoBlank(p.block) && !(p.remaining != [] && |p.remaining[0]| < MAX_LINE)
    ensures Coming(messagesOnly, p, ending, decode, verdict)
         == Outcome(p.calls, AtEnd(if p.remaining == [] then ending else TokenTooLong, p.block))
  {
    assert p.block + [] == p.block;
    FirstBlankOf(p.block, []);
  }

  // ---- The loops ----

  /** Decode a payload and call back; `stop` is the result the reader returns at once. */
  method Dispatch(data: Text, decode: Decoder, callback: Callback) returns (stop: Option<Result>)
    modifies callback
    ensures Delivery(callback.calls, stop) == Deliver([data], decode, callback.verdict, old(callback.calls))
  {
    assert Deliver([data][1..], decode, callback.verdict, []).stop == None;
    var decoded := decode(data);
    if decoded.None? {
      return Some(ParseFailed);
    }
    var ok := callback.Invoke(decoded.value);
    if !ok {
      return Some(CallbackFailed);
    }
    if decoded.value.Terminal() {
      return Some(StreamError(decoded.value.content));
    }
    return None;
  }

  /** The scanner's last call, as a loop over it sees it: whether there is a line, and the lines still due. */
  ghost predicate Scanned(scanner: Scanner, reader: Reader, ok: bool, due: seq<Text>)
    reads scanner, scanner.reader, scanner.splitter
  {
    && scanner.Valid() && scanner.reader == reader && scanner.limit == MAX_LINE
    && ok == (due != [] && |due[0]| < MAX_LINE)
    && (ok ==> scanner.err != Some(TokenTooLong) && scanner.text == due[0] && scanner.Remaining() == due[1..])
    && (!ok ==> scanner.err == Some(if due == [] then reader.ending else TokenTooLong))
  }

  /** The end of a block in a loop that delivers every block; `parsed` tells whether a payload was decoded. */
  method BlankLine(dataBuffer: Text, decode: Decoder, callback: Callback, ghost block: seq<Text>)
    returns (stop: Option<Result>, parsed: bool)
    requires dataBuffer == Buffer(DataValues(block))
    modifies callback
    ensures Delivery(callback.calls, stop)
         == Deliver(HandedBlock(false, block), decode, callback.verdict, old(callback.calls))
    ensures parsed == (Payload(block) != [] && decode(Payload(block)).Some?)
  {
    AppendThenTrim(DataValues(block));
    stop, parsed := None, false;
    var data := CompleteData(dataBuffer);
    if data != [] {
      stop := Dispatch(data, decode, callback);
      parsed := decode(data).Some?;
    }
  }

  /** One line in processAgentSSEStream. */
  method AgentLine(line: Text, dataBuffer: Text, decode: Decoder, callback: Callback, ghost p: Progress,
                   ghost ending: ScanError)
    returns (buffer: Text, stop: Option<Result>, ghost block: seq<Text>)
    requires p.remaining != [] && line == p.remaining[0] && |line| < MAX_LINE
    requires NoBlank(p.block) && dataBuffer == Buffer(DataValues(p.block)) && p.calls == callback.calls
    modifies callback
    ensures stop.Some? ==> Coming(false, p, ending, decode, callback.verdict) == Outcome(callback.calls, stop.value)
    ensures stop.None? ==> NoBlank(block) && buffer == Buffer(DataValues(block))
    ensures stop.None? ==>
              Coming(false, p, ending, decode, callback.verdict)
              == Coming(false, Progress(callback.calls, block, p.remaining[1..]), ending, decode, callback.verdict)
  {
    stop := None;
    if line == [] {
      BlankRead(false, p, ending, decode, callback.verdict);
      var parsed: bool;
      stop, parsed := BlankLine(dataBuffer, decode, callback, p.block);
      return [], stop, [];
    }
    LineRead(false, p, ending, decode, callback.verdict);
    BlockGrows(p.block, line);
    buffer, block := dataBuffer, p.block + [line];
    if EVENT + [COLON] <= line {
      assert !IsDataLine(line) by { assert line[0] == EVENT[0]; }
      return;
    }
    if IsDataLine(line) {
      buffer := AppendDataLine(buffer, line);
    }
  }

  /** One line in KnowledgeQAStream: the event type and the message count are only logged. */
  method KnowledgeLine(line: Text, dataBuffer: Text, eventType: Text, messageCount: nat, decode: Decoder,
                       callback: Callback,
                       ghost p: Progress, ghost ending: ScanError)
    returns (buffer: Text, kind: Text, count: nat, stop: Option<Result>, ghost block: seq<Text>)
    requires p.remaining != [] && line == p.remaining[0] && |line| < MAX_LINE
    requires NoBlank(p.block) && dataBuffer == Buffer(DataValues(p.block)) && p.calls == callback.calls
    modifies callback
    ensures stop.Some? ==> Coming(false, p, ending, decode, callback.verdict) == Outcome(callback.calls, stop.value)
    ensures stop.None? ==> NoBlank(block) && buffer == Buffer(DataValues(block))
    ensures stop.None? ==>
              Coming(false, p, ending, decode, callback.verdict)
              == Coming(false, Progress(callback.calls, block, p.remaining[1..]), ending, decode, callback.verdict)
  {
    kind, count, stop := eventType, messageCount, None;
    if line == [] {
      BlankRead(false, p, ending, decode, callback.verdict);
      var parsed: bool;
      stop, parsed := BlankLine(dataBuffer, decode, callback, p.block);
      return [], [], count + (if parsed then 1 else 0), stop, [];
    }
    LineRead(false, p, ending, decode, callback.verdict);
    BlockGrows(p.block, line);
    buffer, block := dataBuffer, p.block + [line];
    if EVENT + [COLON] <= line {
      kind := line[6..];
    }
    if IsDataLine(line) {
      buffer := AppendDataLine(buffer, line);
    }
  }

  /** The end of a block in ContinueStream. */
  method ContinueBlank(dataBuffer: Text, eventType: Text, decode: Decoder, callback: Callback, ghost block: seq<Text>)
    returns (stop: Option<Result>)
    requires dataBuffer == Buffer(DataValues(block)) && eventType == EventKind(block)
    modifies callback
    ensures Delivery(callback.calls, stop)
         == Deliver(HandedBlock(true, block), decode, callback.verdict, old(callback.calls))
  {
    AppendThenTrim(DataValues(block));
    stop := None;
    var data := CompleteData(dataBuffer);
    if data != [] && (eventType == [] || eventType == MESSAGE) {
      stop := Dispatch(data, decode, callback);
    }
  }

  /** One line in ContinueStream: a block counts when its event type is absent, empty or `message`. */
  method ContinueLine(line: Text, dataBuffer: Text, eventType: Text, decode: Decoder, callback: Callback,
                      ghost p: Progress, ghost ending: ScanError)
    returns (buffer: Text, kind: Text, stop: Option<Result>, ghost block: seq<Text>)
    requires p.remaining != [] && line == p.remaining[0] && |line| < MAX_LINE
    requires NoBlank(p.block) && dataBuffer == Buffer(DataValues(p.block)) && p.calls == callback.calls
    requires eventType == EventKind(p.block)
    modifies callback
    ensures stop.Some? ==> Coming(true, p, ending, decode, callback.verdict) == Outcome(callback.calls, stop.value)
    ensures stop.None? ==> NoBlank(block) && buffer == Buffer(DataValues(block)) && kind == EventKind(block)
    ensures stop.None? ==>
              Coming(true, p, ending, decode, callback.verdict)
              == Coming(true, Progress(callback.calls, block, p.remaining[1..]), ending, decode, callback.verdict)
  {
    kind, stop := eventType, None;
    if line == [] {
      BlankRead(true, p, ending, decode, callback.verdict);
      stop := ContinueBlank(dataBuffer, eventType, decode, callback, p.block);
      return [], [], stop, [];
    }
    LineRead(true, p, ending, decode, callback.verdict);
    BlockGrows(p.block, line);
    buffer, block := dataBuffer, p.block + [line];
    if IsEventLine(line) {
      kind := FieldValue(line);
    }
    if IsDataLine(line) {
      buffer := AppendDataLine(buffer, line);
    }
  }

  /** The scanner of all three readers: SSE lines, with the raised cap. */
  method OpenScanner(reader: Reader) returns (scanner: Scanner)
    requires reader.Valid() && reader.pos == 0
    ensures fresh(scanner) && fresh(scanner.splitter)
    ensures scanner.Valid() && scanner.reader == reader && scanner.limit == MAX_LINE && scanner.err == None
    ensures scanner.Remaining() == Lines(reader.body)
  {
    scanner := new Scanner(reader, MAX_LINE);
    scanner.RemainingLines();
  }

  /** After the loop: a read error, or an error for data that no blank line has dispatched. */
  method Finish(err: ScanError, dataBuffer: Text, ghost block: seq<Text>) returns (result: Result)
    requires dataBuffer == Buffer(DataValues(block))
    ensures result == AtEnd(err, block)
  {
    AppendThenTrim(DataValues(block));
    if err != EndOfFile {
      return ReadError(err);
    }
    result := if CompleteData(dataBuffer) == [] then Success else Incomplete;
  }

  /** client/agent.go: every non-empty payload is decoded and delivered. */
  method ProcessAgentSSEStream(reader: Reader, decode: Decoder, callback: Callback) returns (result: Result)
    requires reader.Valid() && reader.pos == 0
    modifies reader, callback
    ensures Outcome(callback.calls, result)
         == OutcomeOf(false, Lines(reader.body), MAX_LINE, reader.ending, decode, callback.verdict, old(callback.calls))
  {
    var scanner := OpenScanner(reader);
    var dataBuffer: Text := [];
    ghost var p := Progress(callback.calls, [], Lines(reader.body));
    FromTheStart(false, p.remaining, reader.ending, decode, callback.verdict, p.calls);
    ghost var final := Coming(false, p, reader.ending, decode, callback.verdict);
    var scanned := scanner.Scan();
    while scanned
      invariant Scanned(scanner, reader, scanned, p.remaining)
      invariant fresh(scanner) && fresh(scanner.splitter)
      invariant p.calls == callback.calls && NoBlank(p.block) && dataBuffer == Buffer(DataValues(p.block))
      invariant final == Coming(false, p, reader.ending, decode, callback.verdict)
      decreases |p.remaining|
    {
      var stop: Option<Result>;
      ghost var block: seq<Text>;
      dataBuffer, stop, block := AgentLine(scanner.text, dataBuffer, decode, callback, p, reader.ending);
      if stop.Some? {
        return stop.value;
      }
      p := Progress(callback.calls, block, p.remaining[1..]);
      scanned := scanner.Scan();
    }
    NothingMore(false, p, reader.ending, decode, callback.verdict);
    result := Finish(scanner.err.value, dataBuffer, p.block);
  }

  /** client/session.go: the same, with the event type kept for the log. */
  method KnowledgeQAStream(reader: Reader, decode: Decoder, callback: Callback) returns (result: Result)
    requires reader.Valid() && reader.pos == 0
    modifies reader, callback
    ensures Outcome(callback.calls, result)
         == OutcomeOf(false, Lines(reader.body), MAX_LINE, reader.ending, decode, callback.verdict, old(callback.calls))
  {
    var scanner := OpenScanner(reader);
    var dataBuffer: Text := [];
    var eventType: Text := [];
    var messageCount := 0;
    ghost var p := Progress(callback.calls, [], Lines(reader.body));
    FromTheStart(false, p.remaining, reader.ending, decode, callback.verdict, p.calls);
    ghost var final := Coming(false, p, reader.ending, decode, callback.verdict);
    var scanned := scanner.Scan();
    while scanned
      invariant Scanned(scanner, reader, scanned, p.remaining)
      invariant fresh(scanner) && fresh(scanner.splitter)
      invariant p.calls == callback.calls && NoBlank(p.block) && dataBuffer == Buffer(DataValues(p.block))
      invariant final == Coming(false, p, reader.ending, decode, callback.verdict)
      decreases |p.remaining|
    {
      var stop: Option<Result>;
      ghost var block: seq<Text>;
      dataBuffer, eventType, messageCount, stop, block :=
        KnowledgeLine(scanner.text, dataBuffer, eventType, messageCount, decode, callback, p, reader.ending);
      if stop.Some? {
        return stop.value;
      }
      p := Progress(callback.calls, block, p.remaining[1..]);
      scanned := scanner.Scan();
    }
    NothingMore(false, p, reader.ending, decode, callback.verdict);
    result := Finish(scanner.err.value, dataBuffer, p.block);
  }

  /** client/session.go: only blocks whose event type is absent, empty or `message` are delivered. */
  method ContinueStream(reader: Reader, decode: Decoder, callback: Callback) returns (result: Result)
    requires reader.Valid() && reader.pos == 0
    modifies reader, callback
    ensures Outcome(callback.calls, result)
         == OutcomeOf(true, Lines(reader.body), MAX_LINE, reader.ending, decode, callback.verdict, old(callback.calls))
  {
    var scanner := OpenScanner(reader);
    var dataBuffer: Text := [];
    var eventType: Text := [];
    ghost var p := Progress(callback.calls, [], Lines(reader.body));
    FromTheStart(true, p.remaining, reader.ending, decode, callback.verdict, p.calls);
    ghost var final := Coming(true, p, reader.ending, decode, callback.verdict);
    var scanned := scanner.Scan();
    while scanned
      invariant Scanned(scanner, reader, scanned, p.remaining)
      invariant fresh(scanner) && fresh(scanner.splitter)
      invariant p.calls == callback.calls && NoBlank(p.block) && dataBuffer == Buffer(DataValues(p.block))
      invariant eventType == EventKind(p.block)
      invariant final == Coming(true, p, reader.ending, decode, callback.verdict)
      decreases |p.remaining|
    {
      var stop: Option<Result>;
      ghost var block: seq<Text>;
      dataBuffer, eventType, stop, block :=
        ContinueLine(scanner.text, dataBuffer, eventType, decode, callback, p, reader.ending);
      if stop.Some? {
        return stop.value;
      }
      p := Progress(callback.calls, block, p.remaining[1..]);
      scanned := scanner.Scan();
    }
    NothingMore(true, p, reader.ending, decode, callback.verdict);
    result := Finish(scanner.err.value, dataBuffer, p.block);
  }
}
