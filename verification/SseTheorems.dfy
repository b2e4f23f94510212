/** Results about whole streams: truncation, round trip, agreement with the standard. */
module SseTheorems {
  import opened Basics
  import opened SseLines
  import opened SseScanner
  import opened SseFrames
  import opened SseReaders

  // ---- Truncation ----

  lemma {:induction false} ScannableOfPrefix(a: seq<Text>, b: seq<Text>, limit: nat)
    requires a <= b
    ensures Scannable(a, limit) <= Scannable(b, limit)
  {
    if a != [] && |a[0]| < limit {
      assert a[1..] <= b[1..];
      ScannableOfPrefix(a[1..], b[1..], limit);
    }
  }

  lemma {:induction false} PayloadsAppend(messagesOnly: bool, a: seq<Event>, b: seq<Event>)
    ensures Payloads(messagesOnly, a + b) == Payloads(messagesOnly, a) + Payloads(messagesOnly, b)
  {
    if a == [] {
      assert a + b == b;
    } else {
      assert (a + b)[1..] == a[1..] + b;
      PayloadsAppend(messagesOnly, a[1..], b);
    }
  }

  /** More lines only add payloads at the end. */
  lemma HandedOfPrefix(messagesOnly: bool, a: seq<Text>, b: seq<Text>)
    requires a <= b
    ensures Handed(messagesOnly, a) <= Handed(messagesOnly, b)
  {
    var more := b[|a|..];
    assert b == a + more;
    BlocksAppend(a, more);
    EventsAppend(Blocks(a), Blocks(OpenBlock(a) + more));
    PayloadsAppend(messagesOnly, Events(Blocks(a)), Events(Blocks(OpenBlock(a) + more)));
  }

  /** A line that is not blank ends no block. */
  lemma OpenTailHandsNothing(messagesOnly: bool, lines: seq<Text>, tail: Text)
    requires tail != []
    ensures Handed(messagesOnly, lines + [tail]) == Handed(messagesOnly, lines)
  {
    BlocksAppend(lines, [tail]);
    FirstBlankOf(OpenBlock(lines) + [tail], []);
    assert Blocks(lines) + [] == Blocks(lines);
  }

  lemma {:induction false} ScannableAppend(a: seq<Text>, b: seq<Text>, limit: nat)
    ensures Scannable(a + b, limit) == if Scannable(a, limit) == a then a + Scannable(b, limit) else Scannable(a, limit)
  {
    if a == [] {
      assert a + b == b;
    } else {
      assert (a + b)[1..] == a[1..] + b && a == [a[0]] + a[1..];
      ScannableAppend(a[1..], b, limit);
      Associate([a[0]], a[1..], Scannable(b, limit));
    }
  }

  lemma {:induction false} AllShort(lines: seq<Text>, limit: nat)
    requires forall l :: l in lines ==> |l| < limit
    ensures Scannable(lines, limit) == lines
  {
    if lines != [] {
      assert lines == [lines[0]] + lines[1..];
      AllShort(lines[1..], limit);
    }
  }

  /** An unterminated tail, delivered as a line or not, hands nothing on. */
  lemma TailHandsNothing(messagesOnly: bool, p: Text, limit: nat)
    ensures Handed(messagesOnly, Scannable(Lines(p), limit)) == Handed(messagesOnly, Scannable(Terminated(p), limit))
  {
    var sure := Terminated(p);
    assert Lines(p) == sure + (if Tail(p) == [] then [] else [Tail(p)]) by { TailFacts(p); }
    if Tail(p) == [] {
      assert sure + [] == sure;
    } else {
      OneMoreScannable(sure, Tail(p), limit);
      OpenTailHandsNothing(messagesOnly, sure, Tail(p));
    }
  }

  lemma OneMoreScannable(lines: seq<Text>, tail: Text, limit: nat)
    ensures Scannable(lines + [tail], limit) == Scannable(lines, limit)
            || (Scannable(lines, limit) == lines && Scannable(lines + [tail], limit) == lines + [tail])
  {
    ScannableAppend(lines, [tail], limit);
    assert [tail][1..] == [] && lines + [] == lines;
  }

  lemma DeliverOfPrefix(a: seq<Text>, b: seq<Text>, decode: Decoder, verdict: Verdict, calls: seq<Response>)
    requires a <= b
    ensures Deliver(a, decode, verdict, calls).calls <= Deliver(b, decode, verdict, calls).calls
  {
    assert b == a + b[|a|..];
    DeliverAppend(a, b[|a|..], decode, verdict, calls);
  }

  /**
   * Cutting a stream anywhere, in the middle of a line or of a CRLF too, gives a prefix of the
   * callback's calls. However the cut stream ends, nothing of it is delivered that the whole one
   * would not have delivered at that place.
   */
  lemma TruncationGivesPrefix(messagesOnly: bool, p: Text, q: Text, limit: nat, end1: ScanError, end2: ScanError,
                              decode: Decoder, verdict: Verdict, calls: seq<Response>)
    ensures OutcomeOf(messagesOnly, Lines(p), limit, end1, decode, verdict, calls).calls
         <= OutcomeOf(messagesOnly, Lines(p + q), limit, end2, decode, verdict, calls).calls
  {
    TerminatedLinesAreFinal(p, q);
    TailHandsNothing(messagesOnly, p, limit);
    ScannableOfPrefix(Terminated(p), Lines(p + q), limit);
    HandedOfPrefix(messagesOnly, Scannable(Terminated(p), limit), Scannable(Lines(p + q), limit));
    DeliverOfPrefix(Handed(messagesOnly, Scannable(Terminated(p), limit)),
                    Handed(messagesOnly, Scannable(Lines(p + q), limit)),
                    decode, verdict, calls);
  }

  /**
   * When nothing stops the reader early, it succeeds exactly on a clean end of a body without
   * over-long lines whose undispatched data is empty.
   */
  lemma SuccessExactly(messagesOnly: bool, body: Text, ending: ScanError, decode: Decoder, verdict: Verdict,
                       calls: seq<Response>)
    ensures var usable := Scannable(Lines(body), MAX_LINE);
            OutcomeOf(messagesOnly, Lines(body), MAX_LINE, ending, decode, verdict, calls).result == Success
            <==> Deliver(Handed(messagesOnly, usable), decode, verdict, calls).stop == None
                 && ending == EndOfFile && (forall l :: l in Lines(body) ==> |l| < MAX_LINE)
                 && CompleteData(Buffer(DataValues(OpenBlock(Lines(body))))) == []
  {
    var lines := Lines(body);
    var usable := Scannable(lines, MAX_LINE);
    AppendThenTrim(DataValues(OpenBlock(lines)));
    StopsAreFailures(Handed(messagesOnly, usable), decode, verdict, calls);
    if forall l :: l in lines ==> |l| < MAX_LINE {
      AllShort(lines, MAX_LINE);
    }
  }

  lemma {:induction false} StopsAreFailures(payloads: seq<Text>, decode: Decoder, verdict: Verdict,
                                            calls: seq<Response>)
    ensures Deliver(payloads, decode, verdict, calls).stop != Some(Success)
    decreases |payloads|
  {
    if payloads != [] && decode(payloads[0]).Some? {
      StopsAreFailures(payloads[1..], decode, verdict, calls + [decode(payloads[0]).value]);
    }
  }

  // ---- Agreement with the standard ----

  /** The payloads among the standard's events with data: all of them, or those of type `message`. */
  lemma HandedByTheStandard(messagesOnly: bool, lines: seq<Text>)
    ensures Handed(messagesOnly, lines)
         == Payloads(messagesOnly, WithData(StdEvents(StdState([], []), WithoutBareData(lines))))
    ensures DATA !in lines ==>
              Handed(messagesOnly, lines) == Payloads(messagesOnly, WithData(StdEvents(StdState([], []), lines)))
  {
    GoAgreesWithStandard(lines);
    if DATA !in lines {
      NoBareData(lines);
    }
  }

  lemma {:induction false} NoBareData(lines: seq<Text>)
    requires DATA !in lines
    ensures WithoutBareData(lines) == lines
  {
    if lines != [] {
      NoBareData(lines[1..]);
    }
  }

  /** The byte order mark in UTF-8. */
  const BOM_BYTES: Text := [0xEF, 0xBB, 0xBF]

  lemma {:induction false} IgnoredFirst(line: Text, block: seq<Text>)
    requires !IsDataLine(line) && !IsEventLine(line)
    ensures Payload([line] + block) == Payload(block) && EventKind([line] + block) == EventKind(block)
  {
    assert ([line] + block)[1..] == block;
    assert DataValues([line] + block) == DataValues(block);
    if block == [] {
      assert [line] + block == [line] && [line][..0] == [];
    } else {
      var n := |block| - 1;
      assert ([line] + block)[..|block|] == [line] + block[..n];
      IgnoredFirst(line, block[..n]);
    }
  }

  /**
   * Deviation from the standard: the Go readers do not strip a byte order mark, so that the first
   * line of a stream that starts with one is lost, whatever it holds.
   */
  lemma BomHidesFirstLine(messagesOnly: bool, line: Text, rest: seq<Text>)
    ensures Handed(messagesOnly, [BOM_BYTES + line] + rest) == Handed(messagesOnly, rest)
  {
    var first := BOM_BYTES + line;
    assert first[0] == 0xEF;
    assert !IsDataLine(first) && !IsEventLine(first);
    var i := FirstBlank(rest);
    var block := rest[..i];
    if i < |rest| {
      assert rest == block + [[]] + rest[i + 1..];
      assert [first] + rest == [first] + block + [[]] + rest[i + 1..];
      IgnoredFirst(first, block);
      BlockEnds(messagesOnly, block, rest[i + 1..]);
      BlockEnds(messagesOnly, [first] + block, rest[i + 1..]);
    } else {
      assert block == rest;
      FirstBlankOf(rest, []);
      FirstBlankOf([first] + rest, []);
    }
  }

  // ---- Round trip ----

  function FirstLf(s: Text): (i: nat)
    ensures i <= |s|
    ensures forall k :: 0 <= k < i ==> s[k] != LF
    ensures i < |s| ==> s[i] == LF
  {
    if s == [] || s[0] == LF then 0 else 1 + FirstLf(s[1..])
  }

  /** A payload cut at its LFs. */
  function SplitLf(s: Text): (r: seq<Text>)
    ensures r != []
    decreases |s|
  {
    var i := FirstLf(s);
    if i < |s| then [s[..i]] + SplitLf(s[i + 1..]) else [s]
  }

  lemma {:induction false} SplitJoin(s: Text)
    ensures Join(SplitLf(s), [LF]) == s
    decreases |s|
  {
    var i := FirstLf(s);
    if i < |s| {
      var rest := SplitLf(s[i + 1..]);
      SplitJoin(s[i + 1..]);
      assert SplitLf(s) == [s[..i]] + rest && ([s[..i]] + rest)[1..] == rest;
      assert s == s[..i] + [LF] + s[i + 1..];
    }
  }

  lemma {:induction false} PiecesAreEolFree(s: Text)
    requires CR !in s
    ensures forall v :: v in SplitLf(s) ==> EolFree(v)
    decreases |s|
  {
    var i := FirstLf(s);
    assert forall k :: 0 <= k < |s| ==> s[k] in s;
    if i < |s| {
      PiecesAreEolFree(s[i + 1..]);
    }
  }

  function DataLine(value: Text): Text {
    DATA + [COLON, SPACE] + value
  }

  function DataLines(values: seq<Text>): seq<Text> {
    if values == [] then [] else [DataLine(values[0])] + DataLines(values[1..])
  }

  function EventLine(kind: Text): Text {
    EVENT + [COLON, SPACE] + kind
  }

  /** The lines of one event, without its blank line; an empty type is left out. */
  function EventLines(e: Event): seq<Text> {
    TypeLines(e.kind) + DataLines(SplitLf(e.data))
  }

  function TypeLines(kind: Text): seq<Text> {
    if kind == [] then [] else [EventLine(kind)]
  }

  function StreamLines(events: seq<Event>): seq<Text> {
    if events == [] then [] else EventLines(events[0]) + [[]] + StreamLines(events[1..])
  }

  /** The events with the default type filled in. */
  function Named(events: seq<Event>): seq<Event> {
    if events == [] then [] else [events[0].(kind := KindOrMessage(events[0].kind))] + Named(events[1..])
  }

  /** An event that can be written: it has data, and no terminator gets into a line. */
  predicate Writable(e: Event) {
    e.data != [] && CR !in e.data && EolFree(e.kind)
  }

  function Uniform(lines: seq<Text>, ending: Ending): (items: seq<Written>)
    ensures LinesWritten(items) == lines
    ensures forall w :: w in items ==> w.line in lines && w.ending == ending
  {
    seq(|lines|, i requires 0 <= i < |lines| => Written(lines[i], ending))
  }

  /** An event stream: `event: ` and `data: ` lines, a blank line after each event, one uniform line ending. */
  function WriteStream(events: seq<Event>, ending: Ending): Text {
    Render(Uniform(StreamLines(events), ending))
  }

  lemma DataLineFacts(v: Text)
    ensures IsDataLine(DataLine(v)) && FieldValue(DataLine(v)) == v && !IsEventLine(DataLine(v))
    ensures EolFree(v) ==> EolFree(DataLine(v))
  {
    var line := DataLine(v);
    assert |DATA| == 4 && line[..5] == DATA + [COLON] && line[0] != EVENT[0];
    PrefixIsFieldName(line, DATA);
    assert line[5..] == [SPACE] + v;
  }

  lemma EventLineFacts(kind: Text)
    ensures IsEventLine(EventLine(kind)) && FieldValue(EventLine(kind)) == kind && !IsDataLine(EventLine(kind))
    ensures EolFree(kind) ==> EolFree(EventLine(kind))
  {
    var line := EventLine(kind);
    assert |EVENT| == 5 && line[..6] == EVENT + [COLON] && line[0] != DATA[0];
    PrefixIsFieldName(line, EVENT);
    assert line[6..] == [SPACE] + kind;
  }

  /** Data lines that follow in a block add their values to it and nothing else. */
  lemma {:induction false} DataLinesFollow(block: seq<Text>, values: seq<Text>)
    ensures DataValues(block + DataLines(values)) == DataValues(block) + values
    ensures EventKind(block + DataLines(values)) == EventKind(block)
    decreases |values|
  {
    if values == [] {
      assert block + DataLines(values) == block;
    } else {
      var line, rest := DataLine(values[0]), DataLines(values[1..]);
      Associate(block, [line], rest);
      DataLinesFollow(block + [line], values[1..]);
      OneDataLine(block, values[0]);
      Associate(DataValues(block), [values[0]], values[1..]);
      assert values == [values[0]] + values[1..];
    }
  }

  lemma OneDataLine(block: seq<Text>, v: Text)
    ensures DataValues(block + [DataLine(v)]) == DataValues(block) + [v]
    ensures EventKind(block + [DataLine(v)]) == EventKind(block)
  {
    DataLineFacts(v);
    BlockGrows(block, DataLine(v));
    DataValuesAppend(block, [DataLine(v)]);
    assert DataValues([DataLine(v)][1..]) == [];
  }

  lemma {:induction false} DataLinesAreLines(values: seq<Text>)
    requires forall v :: v in values ==> EolFree(v)
    ensures forall l :: l in DataLines(values) ==> l != [] && EolFree(l)
  {
    if values != [] {
      DataLineFacts(values[0]);
      DataLinesAreLines(values[1..]);
    }
  }

  lemma TypeLinesFacts(kind: Text)
    ensures DataValues(TypeLines(kind)) == [] && EventKind(TypeLines(kind)) == kind
    ensures EolFree(kind) ==> forall l :: l in TypeLines(kind) ==> l != [] && EolFree(l)
  {
    EventLineFacts(kind);
    BlockGrows([], EventLine(kind));
    assert [] + [EventLine(kind)] == [EventLine(kind)];
  }

  lemma BothAreLines(a: seq<Text>, b: seq<Text>)
    requires forall l :: l in a ==> l != [] && EolFree(l)
    requires forall l :: l in b ==> l != [] && EolFree(l)
    ensures NoBlank(a + b) && forall l :: l in a + b ==> EolFree(l)
  {
    forall k | 0 <= k < |a + b|
      ensures (a + b)[k] != []
    {
      assert (a + b)[k] in a || (a + b)[k] in b;
    }
  }

  lemma EventLinesFacts(e: Event)
    requires Writable(e)
    ensures Payload(EventLines(e)) == e.data && EventKind(EventLines(e)) == e.kind
    ensures NoBlank(EventLines(e)) && forall l :: l in EventLines(e) ==> EolFree(l)
  {
    var values := SplitLf(e.data);
    TypeLinesFacts(e.kind);
    DataLinesFollow(TypeLines(e.kind), values);
    assert [] + values == values;
    SplitJoin(e.data);
    PiecesAreEolFree(e.data);
    DataLinesAreLines(values);
    BothAreLines(TypeLines(e.kind), DataLines(values));
  }

  /** The blocks of a written stream are its events. */
  lemma {:induction false} StreamLinesFacts(events: seq<Event>)
    requires forall e :: e in events ==> Writable(e)
    ensures Events(Blocks(StreamLines(events))) == Named(events)
    ensures OpenBlock(StreamLines(events)) == []
  {
    if events == [] {
      FirstBlankOf([], []);
    } else {
      StreamLinesFacts(events[1..]);
      EventLinesFacts(events[0]);
      FirstBlankOf(EventLines(events[0]), StreamLines(events[1..]));
      OneEvent(EventLines(events[0]), Blocks(StreamLines(events[1..])));
    }
  }

  lemma OneEvent(block: seq<Text>, more: seq<seq<Text>>)
    requires Payload(block) != []
    ensures Events([block] + more) == [Event(KindOrMessage(EventKind(block)), Payload(block))] + Events(more)
  {
    assert ([block] + more)[1..] == more;
  }

  lemma {:induction false} StreamLinesAreLines(events: seq<Event>)
    requires forall e :: e in events ==> Writable(e)
    ensures forall l :: l in StreamLines(events) ==> EolFree(l)
  {
    if events != [] {
      EventLinesFacts(events[0]);
      StreamLinesAreLines(events[1..]);
    }
  }

  /**
   * Round trip: any list of events with non-empty CR-free data, written as an event stream with one
   * uniform line ending and cut into reads in any way, gives exactly these events and leaves nothing
   * undispatched. Their data is handed on, all of it or that of the message events.
   */
  lemma StreamRoundTrip(messagesOnly: bool, events: seq<Event>, ending: Ending)
    requires forall e :: e in events ==> Writable(e)
    ensures Lines(WriteStream(events, ending)) == StreamLines(events)
    ensures Events(Blocks(Lines(WriteStream(events, ending)))) == Named(events)
    ensures Handed(messagesOnly, Lines(WriteStream(events, ending))) == Payloads(messagesOnly, Named(events))
    ensures OpenBlock(Lines(WriteStream(events, ending))) == []
  {
    StreamLinesFacts(events);
    StreamLinesAreLines(events);
    var items := Uniform(StreamLines(events), ending);
    WrittenLinesAreRead(items);
    assert Unambiguous(items);
  }

  /** The readers deliver a written stream's data, in order, and succeed if none of them stops them. */
  lemma WrittenStreamIsDelivered(messagesOnly: bool, events: seq<Event>, ending: Ending, decode: Decoder,
                                 verdict: Verdict,
                                 calls: seq<Response>)
    requires forall e :: e in events ==> Writable(e)
    requires forall l :: l in StreamLines(events) ==> |l| < MAX_LINE
    ensures var d := Deliver(Payloads(messagesOnly, Named(events)), decode, verdict, calls);
            OutcomeOf(messagesOnly, Lines(WriteStream(events, ending)), MAX_LINE, EndOfFile, decode, verdict, calls)
            == Outcome(d.calls, if d.stop.Some? then d.stop.value else Success)
  {
    StreamRoundTrip(messagesOnly, events, ending);
    AllShort(StreamLines(events), MAX_LINE);
  }

  /** Events without a type are handed on by all three readers, each one's data unchanged. */
  lemma {:induction false} UntypedEvents(messagesOnly: bool, events: seq<Event>)
    requires forall e :: e in events ==> e.kind == []
    ensures |Payloads(messagesOnly, Named(events))| == |events|
    ensures forall i :: 0 <= i < |events| ==> Payloads(messagesOnly, Named(events))[i] == events[i].data
  {
    if events != [] {
      UntypedEvents(messagesOnly, events[1..]);
      var rest := Named(events[1..]);
      assert Selected(messagesOnly, Event(MESSAGE, events[0].data));
      assert Named(events) == [Event(MESSAGE, events[0].data)] + rest && Named(events)[1..] == rest;
    }
  }

  /**
   * Why the ending must be uniform: the blank line of an event is lost exactly when it ends in LF
   * and the line before it in CR, for then the two read as one CRLF.
   */
  lemma BlankLineLost(line: Text, e1: Ending, e2: Ending)
    requires EolFree(line)
    ensures Lines(Render([Written(line, e1), Written([], e2)])) == [line, []] <==> !(e1 == Cr && e2 == Lf)
  {
    var items := [Written(line, e1), Written([], e2)];
    WrittenLinesAreRead(items);
    assert LinesWritten(items) == [line, []];
    if !(e1 == Cr && e2 == Lf) {
      assert Unambiguous(items);
    } else {
      assert MergesWith(items[0], items[1]);
    }
  }
}
