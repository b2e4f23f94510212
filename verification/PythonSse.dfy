/**
 * The Python event-stream consumer (mcp-server/weknora_mcp_server.py) over decoded lines, and its
 * agreement with the Go readers over the encoded ones.
 */
module PythonSse {
  import opened Basics
  import opened Utf8
  import opened SseFrames

  const BOM: nat := 0xFEFF
  const MAX_EVENT_BYTES: nat := 8 * 1024 * 1024

  const ANSWER: Text := [0x61, 0x6E, 0x73, 0x77, 0x65, 0x72]
  const REFERENCES: Text := [0x72, 0x65, 0x66, 0x65, 0x72, 0x65, 0x6E, 0x63, 0x65, 0x73]
  const ERROR: Text := [0x65, 0x72, 0x72, 0x6F, 0x72]
  const COMPLETE: Text := [0x63, 0x6F, 0x6D, 0x70, 0x6C, 0x65, 0x74, 0x65]

  /** What json.loads makes of a payload; `Unusable` is JSON on which the field accesses raise. */
  datatype Json = Malformed | Unusable | Message(kind: Text, content: Text, references: seq<Text>)

  type Loads = Text -> Json

  datatype Result =
    | Answered(answer: Text, references: seq<Text>, debug: seq<(Text, Text)>)
    | ServerError(content: Text)
    | Oversize
    | EndedEarly
    | Crashed

  predicate AllLinesScalar(lines: seq<Text>) {
    forall k :: 0 <= k < |lines| ==> AllScalar(lines[k])
  }

  function StripBom(line: Text): Text {
    if line != [] && line[0] == BOM then line[1..] else line
  }

  /** The lines as the consumer sees them: one BOM is dropped at the start of the stream. */
  function Seen(lines: seq<Text>): seq<Text> {
    if lines == [] then [] else lines[0 := StripBom(lines[0])]
  }

  // ---- One-shot description ----

  /** The values of a block's data fields, with or without a colon. */
  function Values(block: seq<Text>): seq<Text> {
    if block == [] then []
    else
      var last := block[|block| - 1];
      Values(block[..|block| - 1]) + if FieldName(last) == DATA then [FieldValue(last)] else []
  }

  lemma FieldValueScalar(line: Text)
    requires AllScalar(line)
    ensures AllScalar(FieldValue(line))
  {
  }

  /** UTF-8 bytes of the values, one more for each line. */
  function Bytes(values: seq<Text>): nat {
    if values == [] then 0
    else
      var last := values[|values| - 1];
      Bytes(values[..|values| - 1]) + (if AllScalar(last) then |Encode(last)| else 0) + 1
  }

  /** The consumer's accumulated state. */
  datatype Acc = Acc(answer: Text, references: seq<Text>, debug: seq<(Text, Text)>)

  function Clip(content: Text): Text {
    if |content| <= 80 then content else content[..80]
  }

  function Absorb(acc: Acc, m: Json): Acc
    requires m.Message?
  {
    var noted := acc.(debug := acc.debug + [(m.kind, Clip(m.content))]);
    if m.kind == ANSWER then noted.(answer := acc.answer + m.content)
    else if m.kind == REFERENCES then noted.(references := m.references)
    else noted
  }

  /** What one payload does to the accumulated state, or the result it ends the run with. */
  function Dispatched(acc: Acc, m: Json): (Acc, Option<Result>) {
    match m
    case Malformed => (acc, None)
    case Unusable => (acc, Some(Crashed))
    case Message(kind, content, _) =>
      var a := Absorb(acc, m);
      (a, if kind == ERROR then Some(ServerError(content))
          else if kind == COMPLETE then Some(Answered(a.answer, a.references, a.debug))
          else None)
  }

  /** The result after these finished blocks and then an open one at the end of the stream. */
  function Consume(blocks: seq<seq<Text>>, open: seq<Text>, loads: Loads, limit: nat, acc: Acc): Result
    decreases |blocks|
  {
    if blocks == [] then (if Bytes(Values(open)) > limit then Oversize else EndedEarly)
    else if Bytes(Values(blocks[0])) > limit then Oversize
    else if Values(blocks[0]) == [] then Consume(blocks[1..], open, loads, limit, acc)
    else
      var (a, stop) := Dispatched(acc, loads(Join(Values(blocks[0]), [LF])));
      if stop.Some? then stop.value else Consume(blocks[1..], open, loads, limit, a)
  }

  // ---- The loop ----

  lemma ValuesSnoc(block: seq<Text>, line: Text)
    ensures Values(block + [line]) == Values(block) + if FieldName(line) == DATA then [FieldValue(line)] else []
  {
    assert (block + [line])[..|block|] == block;
  }

  lemma BytesSnoc(values: seq<Text>, v: Text)
    requires AllScalar(v)
    ensures Bytes(values + [v]) == Bytes(values) + |Encode(v)| + 1
  {
    assert (values + [v])[..|values|] == values;
  }

  /** A block that has grown too large stays so, and ends the run. */
  lemma {:induction false} OversizeBlock(block: seq<Text>, rest: seq<Text>, loads: Loads, limit: nat, acc: Acc)
    requires NoBlank(block) && Bytes(Values(block)) > limit
    ensures From(block, rest, loads, limit, acc) == Oversize
    decreases |rest|
  {
    if rest == [] {
      assert block + rest == block;
      FirstBlankOf(block, []);
    } else if rest[0] == [] {
      assert block + rest == block + [[]] + rest[1..];
      FirstBlankOf(block, rest[1..]);
    } else {
      assert block + rest == block + [rest[0]] + rest[1..];
      ValuesSnoc(block, rest[0]);
      var values := Values(block + [rest[0]]);
      if values != Values(block) {
        assert values[..|values| - 1] == Values(block);
      }
      OversizeBlock(block + [rest[0]], rest[1..], loads, limit, acc);
    }
  }

  /** What is still to come, from inside a block. */
  function From(block: seq<Text>, rest: seq<Text>, loads: Loads, limit: nat, acc: Acc): Result {
    Consume(Blocks(block + rest), OpenBlock(block + rest), loads, limit, acc)
  }

  lemma LineTaken(block: seq<Text>, line: Text, rest: seq<Text>, loads: Loads, limit: nat, acc: Acc)
    ensures From(block, [line] + rest, loads, limit, acc) == From(block + [line], rest, loads, limit, acc)
  {
    Associate(block, [line], rest);
  }

  lemma BlankTaken(block: seq<Text>, rest: seq<Text>, loads: Loads, limit: nat, acc: Acc)
    requires NoBlank(block) && Bytes(Values(block)) <= limit
    ensures var taken := From(block, [[]] + rest, loads, limit, acc);
            if Values(block) == [] then taken == From([], rest, loads, limit, acc)
            else
              var (a, stop) := Dispatched(acc, loads(Join(Values(block), [LF])));
              taken == if stop.Some? then stop.value else From([], rest, loads, limit, a)
  {
    Associate(block, [[]], rest);
    FirstBlankOf(block, rest);
    assert [] + rest == rest;
    assert ([block] + Blocks(rest))[1..] == Blocks(rest);
  }

  lemma StreamEnds(block: seq<Text>, loads: Loads, limit: nat, acc: Acc)
    requires NoBlank(block) && Bytes(Values(block)) <= limit
    ensures From(block, [], loads, limit, acc) == EndedEarly
  {
    assert block + [] == block;
    FirstBlankOf(block, []);
  }

  /** The body of the loop once a payload is complete. */
  method Dispatch(payload: Text, loads: Loads, answerChunks: seq<Text>, references: seq<Text>,
                  debugEvents: seq<(Text, Text)>)
    returns (chunks: seq<Text>, refs: seq<Text>, debug: seq<(Text, Text)>, stop: Option<Result>)
    ensures (Acc(Concat(chunks), refs, debug), stop)
         == Dispatched(Acc(Concat(answerChunks), references, debugEvents), loads(payload))
  {
    chunks, refs, debug, stop := answerChunks, references, debugEvents, None;
    var eventData := loads(payload);
    if eventData.Malformed? {
      return;
    }
    if eventData.Unusable? {
      stop := Some(Crashed);
      return;
    }
    debug := debug + [(eventData.kind, Clip(eventData.content))];
    if eventData.kind == ANSWER {
      ConcatSnoc(chunks, eventData.content);
      if eventData.content != [] {
        chunks := chunks + [eventData.content];
      } else {
        assert Concat(chunks) + [] == Concat(chunks);
      }
    } else if eventData.kind == REFERENCES {
      refs := eventData.references;
    } else if eventData.kind == ERROR {
      stop := Some(ServerError(eventData.content));
    } else if eventData.kind == COMPLETE {
      stop := Some(Answered(Concat(chunks), refs, debug));
    }
  }

  /** The body of the loop for a line of a block: data lines are collected and their bytes counted. */
  method TakeLine(line: Text, dataLines: seq<Text>, eventBytes: nat, ghost block: seq<Text>)
    returns (lines: seq<Text>, bytes: nat, ghost taken: seq<Text>)
    requires AllScalar(line) && dataLines == Values(block) && eventBytes == Bytes(dataLines)
    requires NoBlank(block) && line != []
    ensures taken == block + [line] && NoBlank(taken)
    ensures lines == Values(taken) && bytes == Bytes(lines)
  {
    lines, bytes, taken := dataLines, eventBytes, block + [line];
    NoBlankSnoc(block, line);
    ValuesSnoc(block, line);
    if FieldName(line) == DATA {
      var value := FieldValue(line);
      FieldValueScalar(line);
      BytesSnoc(dataLines, value);
      bytes := bytes + |Encode(value)| + 1;
      lines := lines + [value];
    }
  }

  /** The body of the loop for a blank line: a block with data is dispatched. */
  method BlankLine(dataLines: seq<Text>, loads: Loads, answerChunks: seq<Text>, references: seq<Text>,
                   debugEvents: seq<(Text, Text)>,
                   ghost limit: nat, ghost block: seq<Text>, ghost rest: seq<Text>, ghost acc: Acc)
    returns (chunks: seq<Text>, refs: seq<Text>, debug: seq<(Text, Text)>, stop: Option<Result>)
    requires NoBlank(block) && dataLines == Values(block) && Bytes(dataLines) <= limit
    requires acc == Acc(Concat(answerChunks), references, debugEvents)
    ensures From(block, [[]] + rest, loads, limit, acc)
         == if stop.Some? then stop.value else From([], rest, loads, limit, Acc(Concat(chunks), refs, debug))
  {
    BlankTaken(block, rest, loads, limit, acc);
    chunks, refs, debug, stop := answerChunks, references, debugEvents, None;
    if |dataLines| > 0 {
      chunks, refs, debug, stop := Dispatch(Join(dataLines, [LF]), loads, answerChunks, references, debugEvents);
    }
  }

  /** The whole loop, with the size of the event being collected kept under the cap at every line. */
  method ConsumeSseStream(lines: seq<Text>, loads: Loads, limit: nat := MAX_EVENT_BYTES) returns (result: Result)
    requires AllLinesScalar(lines)
    ensures result == Consume(Blocks(Seen(lines)), OpenBlock(Seen(lines)), loads, limit, Acc([], [], []))
  {
    var answerChunks: seq<Text> := [];
    var references: seq<Text> := [];
    var debugEvents: seq<(Text, Text)> := [];
    var dataLines: seq<Text> := [];
    var eventBytes := 0;
    var firstLine := true;
    ghost var block: seq<Text> := [];
    ghost var seen := Seen(lines);
    ghost var acc := Acc([], [], []);
    ghost var final := From([], seen, loads, limit, acc);
    FromStart(seen, loads, limit, acc);
    for i := 0 to |lines|
      invariant firstLine == (i == 0)
      invariant NoBlank(block) && dataLines == Values(block)
      invariant eventBytes == Bytes(dataLines) <= limit
      invariant acc == Acc(Concat(answerChunks), references, debugEvents)
      invariant final == From(block, seen[i..], loads, limit, acc)
    {
      var rawLine := if firstLine then StripBom(lines[i]) else lines[i];
      firstLine := false;
      NextLine(lines, i, rawLine);
      ghost var rest := seen[i + 1..];
      if rawLine != [] {
        LineTaken(block, rawLine, rest, loads, limit, acc);
        dataLines, eventBytes, block := TakeLine(rawLine, dataLines, eventBytes, block);
        if eventBytes > limit {
          OversizeBlock(block, rest, loads, limit, acc);
          return Oversize;
        }
      } else {
        var stop: Option<Result>;
        answerChunks, references, debugEvents, stop :=
          BlankLine(dataLines, loads, answerChunks, references, debugEvents, limit, block, rest, acc);
        if stop.Some? {
          return stop.value;
        }
        dataLines, eventBytes, block := [], 0, [];
        acc := Acc(Concat(answerChunks), references, debugEvents);
      }
    }
    StreamEnds(block, loads, limit, acc);
    assert seen[|lines|..] == [];
    result := EndedEarly;
  }

  lemma NextLine(lines: seq<Text>, i: nat, line: Text)
    requires AllLinesScalar(lines) && i < |lines|
    requires line == if i == 0 then StripBom(lines[i]) else lines[i]
    ensures |Seen(lines)| == |lines| && Seen(lines)[i..] == [line] + Seen(lines)[i + 1..] && AllScalar(line)
  {
    HeadAndRest(Seen(lines), i);
  }

  lemma FromStart(seen: seq<Text>, loads: Loads, limit: nat, acc: Acc)
    ensures From([], seen[0..], loads, limit, acc) == Consume(Blocks(seen), OpenBlock(seen), loads, limit, acc)
    ensures seen[0..] == seen
  {
    assert [] + seen[0..] == seen;
  }
}
