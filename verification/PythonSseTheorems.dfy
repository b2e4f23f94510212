/** When the Python consumer returns normally, with what, and how it agrees with the Go readers. */
module PythonSseTheorems {
  import opened Basics
  import opened Utf8
  import opened SseFrames
  import opened PythonSse
  import SseReaders
  import SseTheorems

  // ---- The normal return ----

  /** The message a finished block of acceptable size carries, if it decodes to one. */
  function MessageOf(block: seq<Text>, loads: Loads): Json {
    if Values(block) == [] then Malformed else loads(Join(Values(block), [LF]))
  }

  /** The block neither ends the stream nor fails it. */
  predicate GoesOn(block: seq<Text>, loads: Loads, limit: nat) {
    && Bytes(Values(block)) <= limit
    && !MessageOf(block, loads).Unusable?
    && (MessageOf(block, loads).Message? ==>
          MessageOf(block, loads).kind != ERROR && MessageOf(block, loads).kind != COMPLETE)
  }

  predicate Completes(block: seq<Text>, loads: Loads, limit: nat) {
    && Bytes(Values(block)) <= limit
    && MessageOf(block, loads).Message? && MessageOf(block, loads).kind == COMPLETE
  }

  function FirstStop(blocks: seq<seq<Text>>, loads: Loads, limit: nat): (i: nat)
    ensures i <= |blocks|
  {
    if blocks == [] || !GoesOn(blocks[0], loads, limit) then 0 else 1 + FirstStop(blocks[1..], loads, limit)
  }

  lemma {:induction false} FirstStopIsFirst(blocks: seq<seq<Text>>, loads: Loads, limit: nat)
    ensures var i := FirstStop(blocks, loads, limit);
            && (forall j :: 0 <= j < i ==> GoesOn(blocks[j], loads, limit))
            && (i < |blocks| ==> !GoesOn(blocks[i], loads, limit))
  {
    if blocks != [] && GoesOn(blocks[0], loads, limit) {
      FirstStopIsFirst(blocks[1..], loads, limit);
    }
  }

  /** The contents of the answer messages, concatenated. */
  function AnswerOf(blocks: seq<seq<Text>>, loads: Loads): Text {
    if blocks == [] then []
    else
      var m := MessageOf(blocks[0], loads);
      (if m.Message? && m.kind == ANSWER then m.content else []) + AnswerOf(blocks[1..], loads)
  }

  /** The references of the last references message. */
  function ReferencesOf(blocks: seq<seq<Text>>, loads: Loads, default: seq<Text>): seq<Text> {
    if blocks == [] then default
    else
      var m := MessageOf(blocks[0], loads);
      ReferencesOf(blocks[1..], loads, if m.Message? && m.kind == REFERENCES then m.references else default)
  }

  /** One block that lets the stream go on. */
  lemma GoingOn(blocks: seq<seq<Text>>, open: seq<Text>, loads: Loads, limit: nat, acc: Acc)
    requires blocks != [] && GoesOn(blocks[0], loads, limit)
    ensures var m := MessageOf(blocks[0], loads);
            var a := Dispatched(acc, m).0;
            && Consume(blocks, open, loads, limit, acc) == Consume(blocks[1..], open, loads, limit, a)
            && a.answer == acc.answer + (if m.Message? && m.kind == ANSWER then m.content else [])
            && a.references == (if m.Message? && m.kind == REFERENCES then m.references else acc.references)
  {
    assert acc.answer + [] == acc.answer;
  }

  lemma AtStop(blocks: seq<seq<Text>>, open: seq<Text>, loads: Loads, limit: nat, acc: Acc)
    requires blocks == [] || !GoesOn(blocks[0], loads, limit)
    ensures var r := Consume(blocks, open, loads, limit, acc);
            && (r.Answered? <==> blocks != [] && Completes(blocks[0], loads, limit))
            && (r.Answered? ==> r.answer == acc.answer && r.references == acc.references)
  {
  }

  /** What lies before the stop, seen from the block before. */
  lemma StopAfterFirst(blocks: seq<seq<Text>>, loads: Loads, limit: nat, acc: Acc)
    requires blocks != [] && GoesOn(blocks[0], loads, limit)
    ensures var i, m := FirstStop(blocks[1..], loads, limit), MessageOf(blocks[0], loads);
            && FirstStop(blocks, loads, limit) == i + 1
            && AnswerOf(blocks[..i + 1], loads)
               == (if m.Message? && m.kind == ANSWER then m.content else []) + AnswerOf(blocks[1..][..i], loads)
            && ReferencesOf(blocks[..i + 1], loads, acc.references)
               == ReferencesOf(blocks[1..][..i], loads,
                               if m.Message? && m.kind == REFERENCES then m.references else acc.references)
  {
    var i := FirstStop(blocks[1..], loads, limit);
    assert blocks[..i + 1][1..] == blocks[1..][..i];
  }

  lemma {:induction false} ConsumedUpToStop(blocks: seq<seq<Text>>, open: seq<Text>, loads: Loads, limit: nat, acc: Acc)
    ensures var i := FirstStop(blocks, loads, limit);
            var r := Consume(blocks, open, loads, limit, acc);
            && (r.Answered? <==> i < |blocks| && Completes(blocks[i], loads, limit))
            && (r.Answered? ==>
                  r.answer == acc.answer + AnswerOf(blocks[..i], loads) &&
                  r.references == ReferencesOf(blocks[..i], loads, acc.references))
    decreases |blocks|
  {
    if blocks != [] && GoesOn(blocks[0], loads, limit) {
      GoingOn(blocks, open, loads, limit, acc);
      StopAfterFirst(blocks, loads, limit, acc);
      var i, m := FirstStop(blocks[1..], loads, limit), MessageOf(blocks[0], loads);
      ConsumedUpToStop(blocks[1..], open, loads, limit, Dispatched(acc, m).0);
      Associate(acc.answer, if m.Message? && m.kind == ANSWER then m.content else [],
                AnswerOf(blocks[1..][..i], loads));
    } else {
      AtStop(blocks, open, loads, limit, acc);
      assert acc.answer + [] == acc.answer;
    }
  }

  /**
   * `FirstStop` is the first block that ends or fails the stream (FirstStopIsFirst).
   * The consumer returns normally if and only if a complete event comes before any error event,
   * unusable event or over-sized block. The answer is then the concatenation of the earlier answer
   * contents and the references are those of the last earlier references event.
   */
  lemma NormalReturnExactly(lines: seq<Text>, loads: Loads, limit: nat)
    ensures var blocks := Blocks(Seen(lines));
            var i := FirstStop(blocks, loads, limit);
            var r := Consume(blocks, OpenBlock(Seen(lines)), loads, limit, Acc([], [], []));
            && (r.Answered? <==> i < |blocks| && Completes(blocks[i], loads, limit))
            && (r.Answered? ==>
                  r.answer == AnswerOf(blocks[..i], loads) && r.references == ReferencesOf(blocks[..i], loads, []))
  {
    ConsumedUpToStop(Blocks(Seen(lines)), OpenBlock(Seen(lines)), loads, limit, Acc([], [], []));
  }

  lemma {:induction false} StopDecides(blocks: seq<seq<Text>>, blocks': seq<seq<Text>>, open: seq<Text>,
                                       open': seq<Text>,
                                       loads: Loads, limit: nat, acc: Acc)
    requires var i := FirstStop(blocks, loads, limit);
             i < |blocks| && i < |blocks'| && blocks[..i + 1] == blocks'[..i + 1]
    ensures Consume(blocks, open, loads, limit, acc) == Consume(blocks', open', loads, limit, acc)
    decreases |blocks|
  {
    assert blocks[0] == blocks[..FirstStop(blocks, loads, limit) + 1][0] == blocks'[0];
    if GoesOn(blocks[0], loads, limit) {
      var i := FirstStop(blocks[1..], loads, limit);
      assert blocks[1..][..i + 1] == blocks[..i + 2][1..] == blocks'[..i + 2][1..] == blocks'[1..][..i + 1];
      StopDecides(blocks[1..], blocks'[1..], open, open', loads, limit, Dispatched(acc, MessageOf(blocks[0], loads)).0);
    }
  }

  /** Once a stop has been reached, for instance a complete event, no later line matters. */
  lemma NothingAfterStopMatters(lines: seq<Text>, more: seq<Text>, loads: Loads, limit: nat, acc: Acc)
    requires FirstStop(Blocks(lines), loads, limit) < |Blocks(lines)|
    ensures Consume(Blocks(lines + more), OpenBlock(lines + more), loads, limit, acc)
         == Consume(Blocks(lines), OpenBlock(lines), loads, limit, acc)
  {
    BlocksAppend(lines, more);
    var i := FirstStop(Blocks(lines), loads, limit);
    assert Blocks(lines + more)[..i + 1] == Blocks(lines)[..i + 1];
    StopDecides(Blocks(lines), Blocks(lines + more), OpenBlock(lines), OpenBlock(lines + more), loads, limit, acc);
  }

  // ---- Agreement with the Go readers ----

  /** The non-empty payloads the consumer hands to JSON decoding if nothing stops it. */
  function PythonHanded(blocks: seq<seq<Text>>): seq<Text> {
    if blocks == [] then []
    else
      var payload := Join(Values(blocks[0]), [LF]);
      (if payload == [] then [] else [payload]) + PythonHanded(blocks[1..])
  }

  lemma {:induction false} PythonHandedAppend(a: seq<seq<Text>>, b: seq<seq<Text>>)
    ensures PythonHanded(a + b) == PythonHanded(a) + PythonHanded(b)
  {
    if a == [] {
      assert a + b == b;
    } else {
      assert (a + b)[1..] == a[1..] + b;
      PythonHandedAppend(a[1..], b);
    }
  }

  lemma ValuesGrow(block: seq<Text>, line: Text, kind: Text)
    ensures StdField(StdState(Buffer(Values(block)), kind), line).data == Buffer(Values(block + [line]))
  {
    ValuesSnoc(block, line);
    if FieldName(line) == DATA {
      BufferSnoc(Values(block), FieldValue(line));
    } else {
      assert Values(block) + [] == Values(block);
    }
  }

  lemma DispatchedData(block: seq<Text>, kind: Text, rest: seq<Event>)
    ensures SseReaders.Payloads(false, WithData(StdDispatch(StdState(Buffer(Values(block)), kind)) + rest))
         == PythonHanded([block]) + SseReaders.Payloads(false, WithData(rest))
  {
    AppendThenTrim(Values(block));
    var d := StdDispatch(StdState(Buffer(Values(block)), kind));
    assert PythonHanded([block][1..]) == [];
    if d == [] {
      assert d + rest == rest;
    } else {
      assert d + rest == [d[0]] + rest && ([d[0]] + rest)[1..] == rest;
      if d[0].data == [] {
        assert WithData(d + rest) == WithData(rest);
      } else {
        assert WithData(d + rest) == [d[0]] + WithData(rest);
        assert ([d[0]] + WithData(rest))[1..] == WithData(rest);
      }
    }
  }

  lemma {:induction false} PythonFromBlock(block: seq<Text>, kind: Text, lines: seq<Text>)
    requires NoBlank(block)
    ensures SseReaders.Payloads(false, WithData(StdEvents(StdState(Buffer(Values(block)), kind), lines)))
         == PythonHanded(Blocks(block + lines))
    decreases |lines|
  {
    if lines == [] {
      assert block + lines == block;
      FirstBlankOf(block, []);
    } else if lines[0] == [] {
      var rest := lines[1..];
      assert block + lines == block + [[]] + rest;
      FirstBlankOf(block, rest);
      PythonFromBlock([], [], rest);
      assert [] + rest == rest;
      DispatchedData(block, kind, StdEvents(StdState([], []), rest));
      PythonHandedAppend([block], Blocks(rest));
    } else {
      var line, rest := lines[0], lines[1..];
      assert block + [line] + rest == block + lines;
      ValuesGrow(block, line, kind);
      NoBlankSnoc(block, line);
      PythonFromBlock(block + [line], StdField(StdState(Buffer(Values(block)), kind), line).kind, rest);
    }
  }

  /** The consumer's non-empty payloads are exactly the data of the standard's events. */
  lemma PythonFollowsTheStandard(lines: seq<Text>)
    ensures PythonHanded(Blocks(lines))
         == SseReaders.Payloads(false, WithData(StdEvents(StdState([], []), lines)))
  {
    PythonFromBlock([], [], lines);
    assert [] + lines == lines;
  }

  function EncodeAll(lines: seq<Text>): (r: seq<Text>)
    requires AllLinesScalar(lines)
    ensures |r| == |lines|
    ensures forall k :: 0 <= k < |lines| ==> r[k] == Encode(lines[k])
  {
    if lines == [] then [] else [Encode(lines[0])] + EncodeAll(lines[1..])
  }

  /** Texts as Go reads them, rune by rune. */
  function DecodeAll(texts: seq<Text>): (r: seq<Text>)
    ensures |r| == |texts|
  {
    if texts == [] then [] else [Runes(texts[0])] + DecodeAll(texts[1..])
  }

  lemma {:induction false} EncodedIsDecoded(texts: seq<Text>)
    requires AllLinesScalar(texts)
    ensures DecodeAll(EncodeAll(texts)) == texts
  {
    if texts != [] {
      EncodeIsRead(texts[0]);
      EncodedIsDecoded(texts[1..]);
      assert EncodeAll(texts)[1..] == EncodeAll(texts[1..]);
    }
  }

  lemma {:induction false} EncodedDataLine(line: Text)
    requires AllScalar(line)
    ensures IsDataLine(Encode(line)) <==> IsDataLine(line)
    ensures IsDataLine(line) ==> AllScalar(FieldValue(line)) && FieldValue(Encode(line)) == Encode(FieldValue(line))
  {
    var prefix := DATA + [COLON];
    AsciiPrefix(line, prefix);
    if prefix <= line {
      PrefixIsFieldName(line, DATA);
      PrefixIsFieldName(Encode(line), DATA);
      FieldValueScalar(line);
      var value := line[|prefix|..];
      assert Encode(line)[|prefix|..] == Encode(value);
      AsciiPrefix(value, [SPACE]);
      assert value != [] && value[0] == SPACE <==> [SPACE] <= value;
      assert Encode(value) != [] && Encode(value)[0] == SPACE <==> [SPACE] <= Encode(value);
    }
  }

  lemma {:induction false} EncodedDataValues(block: seq<Text>)
    requires AllLinesScalar(block)
    ensures AllLinesScalar(DataValues(block))
    ensures DataValues(EncodeAll(block)) == EncodeAll(DataValues(block))
  {
    if block != [] {
      EncodedDataLine(block[0]);
      EncodedDataValues(block[1..]);
      assert EncodeAll(block)[1..] == EncodeAll(block[1..]);
      var vs := DataValues(block[1..]);
      if IsDataLine(block[0]) {
        assert DataValues(block) == [FieldValue(block[0])] + vs;
        assert EncodeAll(DataValues(block)) == [Encode(FieldValue(block[0]))] + EncodeAll(vs);
      } else {
        assert DataValues(block) == vs;
      }
    }
  }

  lemma {:induction false} EncodedJoin(values: seq<Text>)
    requires AllLinesScalar(values)
    ensures AllScalar(Join(values, [LF])) && Encode(Join(values, [LF])) == Join(EncodeAll(values), [LF])
  {
    if |values| > 1 {
      EncodedJoin(values[1..]);
      assert EncodeAll(values)[1..] == EncodeAll(values[1..]);
      EncodeAscii([LF]);
      EncodeAppend(values[0], [LF]);
      EncodeAppend(values[0] + [LF], Join(values[1..], [LF]));
    }
  }

  lemma {:induction false} EncodedAppend(a: seq<Text>, b: seq<Text>)
    requires AllLinesScalar(a) && AllLinesScalar(b)
    ensures AllLinesScalar(a + b) && EncodeAll(a + b) == EncodeAll(a) + EncodeAll(b)
  {
    if a == [] {
      assert a + b == b;
    } else {
      assert (a + b)[1..] == a[1..] + b;
      EncodedAppend(a[1..], b);
      Associate([Encode(a[0])], EncodeAll(a[1..]), EncodeAll(b));
    }
  }

  lemma EncodedHandedBlock(block: seq<Text>)
    requires AllLinesScalar(block)
    ensures AllLinesScalar(SseReaders.HandedBlock(false, block))
    ensures SseReaders.HandedBlock(false, EncodeAll(block)) == EncodeAll(SseReaders.HandedBlock(false, block))
  {
    EncodedDataValues(block);
    EncodedJoin(DataValues(block));
  }

  lemma EncodedBlankLine()
    ensures EncodeAll([[]]) == [[]]
  {
  }

  lemma {:induction false} EncodedPayloads(lines: seq<Text>)
    requires AllLinesScalar(lines)
    ensures AllLinesScalar(SseReaders.Handed(false, lines))
    ensures SseReaders.Handed(false, EncodeAll(lines)) == EncodeAll(SseReaders.Handed(false, lines))
    decreases |lines|
  {
    var i := FirstBlank(lines);
    if i < |lines| {
      var block, rest := lines[..i], lines[i + 1..];
      assert lines == block + [[]] + rest;
      EncodedAppend(block, [[]]);
      EncodedAppend(block + [[]], rest);
      EncodedBlankLine();
      EncodedPayloads(rest);
      EncodedHandedBlock(block);
      SseReaders.BlockEnds(false, block, rest);
      SseReaders.BlockEnds(false, EncodeAll(block), EncodeAll(rest));
      EncodedAppend(SseReaders.HandedBlock(false, block), SseReaders.Handed(false, rest));
    } else {
      FirstBlankOf(lines, []);
      FirstBlankOf(EncodeAll(lines), []);
    }
  }

  /**
   * On any decoded lines, the Go readers hand on, in UTF-8, exactly the payloads the Python consumer
   * hands on for the lines without the bare word `data`: as Go runes, they are the same.
   */
  lemma ReadersAgree(lines: seq<Text>)
    requires AllLinesScalar(lines)
    ensures AllLinesScalar(PythonHanded(Blocks(WithoutBareData(lines))))
    ensures SseReaders.Handed(false, EncodeAll(lines)) == EncodeAll(PythonHanded(Blocks(WithoutBareData(lines))))
    ensures DecodeAll(SseReaders.Handed(false, EncodeAll(lines))) == PythonHanded(Blocks(WithoutBareData(lines)))
    ensures DATA !in lines && (lines == [] || lines[0] == [] || lines[0][0] != BOM) ==>
              Seen(lines) == lines && WithoutBareData(lines) == lines
  {
    EncodedPayloads(lines);
    SseTheorems.HandedByTheStandard(false, lines);
    PythonFollowsTheStandard(WithoutBareData(lines));
    EncodedIsDecoded(PythonHanded(Blocks(WithoutBareData(lines))));
    if DATA !in lines {
      SseTheorems.NoBareData(lines);
    }
  }
}
