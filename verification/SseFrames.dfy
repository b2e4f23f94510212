/**
 * From lines to events: the block structure of an event stream, the payload the Go readers take
 * from a block, and the interpretation of section 9.2.6 of the WHATWG HTML Living Standard.
 */
module SseFrames {
  import opened Basics

  const DATA: Text := [0x64, 0x61, 0x74, 0x61]
  const EVENT: Text := [0x65, 0x76, 0x65, 0x6E, 0x74]
  const MESSAGE: Text := [0x6D, 0x65, 0x73, 0x73, 0x61, 0x67, 0x65]

  // ---- Blocks: the lines between blank lines ----

  function FirstBlank(lines: seq<Text>): (i: nat)
    ensures i <= |lines|
    ensures forall k :: 0 <= k < i ==> lines[k] != []
    ensures i < |lines| ==> lines[i] == []
  {
    if lines == [] || lines[0] == [] then 0 else 1 + FirstBlank(lines[1..])
  }

  /** The blocks that a blank line ends. */
  function Blocks(lines: seq<Text>): seq<seq<Text>>
    decreases |lines|
  {
    var i := FirstBlank(lines);
    if i < |lines| then [lines[..i]] + Blocks(lines[i + 1..]) else []
  }

  /** The lines after the last blank line. */
  function OpenBlock(lines: seq<Text>): seq<Text>
    decreases |lines|
  {
    var i := FirstBlank(lines);
    if i < |lines| then OpenBlock(lines[i + 1..]) else lines
  }

  ghost predicate NoBlank(block: seq<Text>) {
    forall k :: 0 <= k < |block| ==> block[k] != []
  }

  lemma NoBlankSnoc(block: seq<Text>, line: Text)
    requires NoBlank(block) && line != []
    ensures NoBlank(block + [line])
  {
  }

  lemma FirstBlankOf(block: seq<Text>, more: seq<Text>)
    requires NoBlank(block)
    ensures FirstBlank(block) == |block|
    ensures FirstBlank(block + [[]] + more) == |block|
    ensures Blocks(block + [[]] + more) == [block] + Blocks(more)
    ensures OpenBlock(block + [[]] + more) == OpenBlock(more)
    ensures Blocks(block) == [] && OpenBlock(block) == block
  {
    var s := block + [[]] + more;
    assert s[|block|] == [];
    assert forall k :: 0 <= k < |block| ==> s[k] == block[k];
    assert s[..|block|] == block && s[|block| + 1..] == more;
  }

  lemma {:induction false} BlocksAppend(a: seq<Text>, b: seq<Text>)
    ensures Blocks(a + b) == Blocks(a) + Blocks(OpenBlock(a) + b)
    ensures OpenBlock(a + b) == OpenBlock(OpenBlock(a) + b)
    ensures NoBlank(OpenBlock(a))
    decreases |a|
  {
    if FirstBlank(a) < |a| {
      var block, more := a[..FirstBlank(a)], a[FirstBlank(a) + 1..];
      assert a == block + [[]] + more;
      assert a + b == block + [[]] + (more + b);
      FirstBlankOf(block, more);
      FirstBlankOf(block, more + b);
      BlocksAppend(more, b);
      assert Blocks(a + b) == [block] + (Blocks(more) + Blocks(OpenBlock(more) + b));
      assert Blocks(a + b) == [block] + Blocks(more) + Blocks(OpenBlock(more) + b);
    } else {
      FirstBlankOf(a, []);
    }
  }

  // ---- Field syntax ----

  function FirstColon(line: Text): (i: nat)
    ensures i <= |line|
    ensures forall k :: 0 <= k < i ==> line[k] != COLON
    ensures i < |line| ==> line[i] == COLON
  {
    if line == [] || line[0] == COLON then 0 else 1 + FirstColon(line[1..])
  }

  function TrimOneSpace(value: Text): Text {
    if value != [] && value[0] == SPACE then value[1..] else value
  }

  /** Field name: what precedes the first colon, or the whole line. */
  function FieldName(line: Text): Text {
    line[..FirstColon(line)]
  }

  /** Field value: what follows the first colon, less one leading space; empty without a colon. */
  function FieldValue(line: Text): Text {
    if FirstColon(line) == |line| then [] else TrimOneSpace(line[FirstColon(line) + 1..])
  }

  /** A line starts with `name:` exactly when it has a colon and its field name is `name`. */
  lemma PrefixIsFieldName(line: Text, name: Text)
    requires forall k :: 0 <= k < |name| ==> name[k] != COLON
    ensures name + [COLON] <= line <==> FieldName(line) == name && FirstColon(line) < |line|
    ensures name + [COLON] <= line ==> FieldValue(line) == TrimOneSpace(line[|name| + 1..])
    ensures line == name <==> FieldName(line) == name && FirstColon(line) == |line|
  {
    if name + [COLON] <= line {
      assert line[|name|] == COLON;
      assert forall k :: 0 <= k < |name| ==> line[k] == name[k];
      assert FirstColon(line) == |name|;
    }
    if FieldName(line) == name && FirstColon(line) < |line| {
      assert line[..|name| + 1] == name + [COLON];
    }
    if line == name {
      assert FirstColon(line) == |line|;
    }
  }

  // ---- The Go readers' view of a block (client/sse.go) ----

  predicate IsDataLine(line: Text) {
    DATA + [COLON] <= line
  }

  predicate IsEventLine(line: Text) {
    line == EVENT || EVENT + [COLON] <= line
  }

  function AppendDataLine(buffer: Text, line: Text): Text
    requires |line| >= 5
  {
    buffer + TrimOneSpace(line[5..]) + [LF]
  }

  function CompleteData(buffer: Text): Text {
    if buffer != [] && buffer[|buffer| - 1] == LF then buffer[..|buffer| - 1] else buffer
  }

  /** The values of the data lines of a block. */
  function DataValues(block: seq<Text>): seq<Text> {
    if block == [] then []
    else (if IsDataLine(block[0]) then [FieldValue(block[0])] else []) + DataValues(block[1..])
  }

  function Payload(block: seq<Text>): Text {
    Join(DataValues(block), [LF])
  }

  /** The value of the last event field of a block, empty when there is none. */
  function EventKind(block: seq<Text>): Text {
    if block == [] then []
    else
      var last := block[|block| - 1];
      if IsEventLine(last) then FieldValue(last) else EventKind(block[..|block| - 1])
  }

  /** The data buffer that the values have been appended to. */
  function Buffer(values: seq<Text>): Text {
    if values == [] then [] else values[0] + [LF] + Buffer(values[1..])
  }

  /** Appending each value with an LF and trimming one LF is joining the values with LF. */
  lemma {:induction false} AppendThenTrim(values: seq<Text>)
    ensures CompleteData(Buffer(values)) == Join(values, [LF])
    ensures values != [] ==> Buffer(values) == Join(values, [LF]) + [LF]
  {
    if |values| > 1 {
      AppendThenTrim(values[1..]);
      assert Buffer(values) == values[0] + [LF] + Join(values[1..], [LF]) + [LF];
    } else if |values| == 1 {
      assert Buffer(values) == values[0] + [LF];
    }
  }

  lemma {:induction false} BufferSnoc(values: seq<Text>, v: Text)
    ensures Buffer(values + [v]) == Buffer(values) + v + [LF]
  {
    if values != [] {
      assert (values + [v])[1..] == values[1..] + [v];
      BufferSnoc(values[1..], v);
    }
  }

  lemma {:induction false} DataValuesAppend(a: seq<Text>, b: seq<Text>)
    ensures DataValues(a + b) == DataValues(a) + DataValues(b)
  {
    if a == [] {
      assert a + b == b;
    } else {
      assert (a + b)[1..] == a[1..] + b;
      DataValuesAppend(a[1..], b);
    }
  }

  /** One more line in the open block: what it does to the data buffer and to the event type. */
  lemma BlockGrows(block: seq<Text>, line: Text)
    ensures IsDataLine(line) ==> |line| >= 5
    ensures IsDataLine(line) ==> Buffer(DataValues(block + [line])) == AppendDataLine(Buffer(DataValues(block)), line)
    ensures !IsDataLine(line) ==> DataValues(block + [line]) == DataValues(block)
    ensures EventKind(block + [line]) == if IsEventLine(line) then FieldValue(line) else EventKind(block)
  {
    DataValuesAppend(block, [line]);
    PrefixIsFieldName(line, DATA);
    assert (block + [line])[..|block|] == block;
    if IsDataLine(line) {
      assert |DATA| == 4 && DataValues([line][1..]) == [];
      assert DataValues([line]) == [FieldValue(line)];
      BufferSnoc(DataValues(block), FieldValue(line));
    } else {
      assert DataValues([line]) == [] + DataValues([line][1..]);
      assert DataValues(block) + [] == DataValues(block);
    }
  }

  datatype Event = Event(kind: Text, data: Text)

  function KindOrMessage(kind: Text): Text {
    if kind == [] then MESSAGE else kind
  }

  /** The events of the blocks, less those with an empty payload. */
  function Events(blocks: seq<seq<Text>>): seq<Event> {
    if blocks == [] then []
    else
      (if Payload(blocks[0]) == [] then []
       else [Event(KindOrMessage(EventKind(blocks[0])), Payload(blocks[0]))])
      + Events(blocks[1..])
  }

  lemma {:induction false} EventsAppend(a: seq<seq<Text>>, b: seq<seq<Text>>)
    ensures Events(a + b) == Events(a) + Events(b)
  {
    if a == [] {
      assert a + b == b;
    } else {
      assert (a + b)[1..] == a[1..] + b;
      EventsAppend(a[1..], b);
    }
  }

  // ---- The standard's interpretation, one line at a time ----

  /** The two buffers of section 9.2.6. */
  datatype StdState = StdState(data: Text, kind: Text)

  function StdField(st: StdState, line: Text): StdState {
    if FieldName(line) == DATA then st.(data := st.data + FieldValue(line) + [LF])
    else if FieldName(line) == EVENT then st.(kind := FieldValue(line))
    else st
  }

  /** Dispatch on a blank line: nothing for an empty data buffer, else drop its final LF. */
  function StdDispatch(st: StdState): seq<Event> {
    if st.data == [] then [] else [Event(KindOrMessage(st.kind), CompleteData(st.data))]
  }

  function StdEvents(st: StdState, lines: seq<Text>): seq<Event>
    decreases |lines|
  {
    if lines == [] then []
    else if lines[0] == [] then StdDispatch(st) + StdEvents(StdState([], []), lines[1..])
    else StdEvents(StdField(st, lines[0]), lines[1..])
  }

  function WithData(events: seq<Event>): seq<Event> {
    if events == [] then []
    else (if events[0].data == [] then [] else [events[0]]) + WithData(events[1..])
  }

  /** The lines less those that are the bare word `data`. */
  function WithoutBareData(lines: seq<Text>): seq<Text> {
    if lines == [] then []
    else (if lines[0] == DATA then [] else [lines[0]]) + WithoutBareData(lines[1..])
  }

  lemma WithDataOfDispatch(block: seq<Text>, rest: seq<Event>)
    ensures WithData(StdDispatch(StateIn(block)) + rest)
         == Events([block]) + WithData(rest)
  {
    AppendThenTrim(DataValues(block));
    assert Events([block][1..]) == [];
    var d := StdDispatch(StateIn(block));
    if d != [] {
      assert d + rest == [d[0]] + rest && ([d[0]] + rest)[1..] == rest;
    } else {
      assert d + rest == rest;
    }
  }

  /** The standard's buffers inside a block with these lines. */
  function StateIn(block: seq<Text>): StdState {
    StdState(Buffer(DataValues(block)), EventKind(block))
  }

  lemma FieldInBlock(block: seq<Text>, line: Text)
    requires line != DATA
    ensures StdField(StateIn(block), line) == StateIn(block + [line])
  {
    BlockGrows(block, line);
    PrefixIsFieldName(line, DATA);
    PrefixIsFieldName(line, EVENT);
    assert |DATA| == 4 && DATA != EVENT;
  }

  lemma BareDataInBlock(block: seq<Text>)
    ensures StateIn(block + [DATA]) == StateIn(block)
  {
    BlockGrows(block, DATA);
    assert |DATA| == 4 && |EVENT| == 5;
  }

  /** From inside a block: the standard's run and the blocks agree on the events with data. */
  lemma {:induction false} StandardFromBlock(block: seq<Text>, lines: seq<Text>)
    requires NoBlank(block)
    ensures WithData(StdEvents(StateIn(block), WithoutBareData(lines))) == Events(Blocks(block + lines))
    decreases |lines|
  {
    if lines == [] {
      assert block + lines == block;
      FirstBlankOf(block, []);
    } else if lines[0] == [] {
      var rest := WithoutBareData(lines[1..]);
      assert WithoutBareData(lines) == [[]] + rest;
      assert block + lines == block + [[]] + lines[1..];
      FirstBlankOf(block, lines[1..]);
      StandardFromBlock([], lines[1..]);
      assert [] + lines[1..] == lines[1..];
      WithDataOfDispatch(block, StdEvents(StateIn([]), rest));
      EventsAppend([block], Blocks(lines[1..]));
    } else {
      var line, rest := lines[0], lines[1..];
      assert block + [line] + rest == block + lines;
      StandardFromBlock(block + [line], rest);
      if line == DATA {
        BareDataInBlock(block);
        assert WithoutBareData(lines) == WithoutBareData(rest);
      } else {
        assert WithoutBareData(lines) == [line] + WithoutBareData(rest);
        FieldInBlock(block, line);
      }
    }
  }

  /**
   * On every sequence of lines, the events the Go readers see are the standard's events with data
   * once the bare `data` lines, which the Go readers ignore, are taken out.
   */
  lemma GoAgreesWithStandard(lines: seq<Text>)
    ensures Events(Blocks(lines)) == WithData(StdEvents(StdState([], []), WithoutBareData(lines)))
  {
    StandardFromBlock([], lines);
    assert [] + lines == lines;
  }
}
