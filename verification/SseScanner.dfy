/**
 * The `bufio.Scanner` protocol over the line splitter: split the unconsumed bytes, read more when
 * no token comes back, make a last call at the end of the input, and give up on a line that fills
 * the whole buffer. How the reader cuts the body into pieces is left entirely open.
 */
module SseScanner {
  import opened Basics
  import opened SseLines

  datatype ScanError = EndOfFile | ReadFailed | TokenTooLong

  /** A response body that ends cleanly or with a read error. */
  class Reader {
    const body: Text
    const ending: ScanError
    var pos: nat

    constructor (body: Text, ending: ScanError)
      requires !ending.TokenTooLong?
      ensures this.body == body && this.ending == ending && pos == 0
    {
      this.body := body;
      this.ending := ending;
      pos := 0;
    }

    predicate Valid()
      reads this
    {
      pos <= |body| && !ending.TokenTooLong?
    }

    /** Delivers any non-empty piece that fits, or reports the ending once the body is used up. */
    method Read(free: nat) returns (chunk: Text, err: Option<ScanError>)
      requires Valid() && free > 0
      modifies this
      ensures Valid() && old(pos) + |chunk| == pos && chunk == body[old(pos)..pos] && |chunk| <= free
      ensures err.None? ==> chunk != []
      ensures err.Some? ==> pos == |body| && err.value == ending && |chunk| < free
    {
      if pos == |body| {
        return [], Some(ending);
      }
      var n: nat :| 1 <= n <= free && n <= |body| - pos;
      chunk := body[pos..pos + n];
      pos := pos + n;
      var early: bool := *;
      err := if early && pos == |body| && n < free then Some(ending) else None;
    }
  }

  /** The lines a scanner with this limit delivers: those before the first line that is too long. */
  function Scannable(lines: seq<Text>, limit: nat): (r: seq<Text>)
    ensures r <= lines
    ensures forall l :: l in r ==> |l| < limit
    ensures |r| < |lines| ==> |lines[|r|]| >= limit
  {
    if lines == [] || |lines[0]| >= limit then [] else [lines[0]] + Scannable(lines[1..], limit)
  }

  lemma FirstLineIsLong(start: Text, rest: Text)
    requires start != [] && EolFree(start)
    ensures var lines := LinesFrom(false, start + rest);
            lines != [] && |lines[0]| >= |start|
  {
    var s := start + rest;
    assert forall k :: 0 <= k < |start| ==> s[k] == start[k];
    assert FirstEol(s) >= |start|;
  }

  lemma NoLineYet(before: Text, emitted: seq<Text>, skip: bool, buf: Text)
    requires Yields(false, before, emitted, skip, buf)
    requires NoLine(skip, buf)
    ensures emitted == Terminated(before)
  {
    YieldsAlone(false, before, emitted, skip, buf);
    assert Terminated(SkipLf(skip, buf)) == [];
  }

  /** A split while more is to come. */
  lemma LineOut(body: Text, pos: nat, emitted: seq<Text>, skip: bool, buf: Text, token: Option<Text>, skip': bool,
                buf': Text)
    requires pos <= |body| && Yields(false, body[..pos], emitted, skip, buf)
    requires Cut(skip, buf, false, token, skip', buf')
    ensures Yields(false, body[..pos], emitted + Out(token), skip', buf')
    ensures LinesFrom(skip, buf + body[pos..]) == Out(token) + LinesFrom(skip', buf' + body[pos..])
  {
    YieldsCompose(false, body[..pos], emitted, skip, buf, Out(token), skip', buf');
    assert YieldsBefore(skip, buf, Out(token), skip', buf', body[pos..]);
  }

  /** A split at the end of the input. */
  lemma LastLineOut(body: Text, emitted: seq<Text>, skip: bool, buf: Text, token: Option<Text>, skip': bool, buf': Text)
    requires Lines(body) == emitted + LinesFrom(skip, buf) && Cut(skip, buf, true, token, skip', buf')
    ensures Lines(body) == emitted + Out(token) + LinesFrom(skip', buf')
    ensures body[|body|..] == [] && buf + [] == buf && buf' + [] == buf'
    ensures token.None? ==> LinesFrom(skip', buf') == []
  {
    Associate(emitted, Out(token), LinesFrom(skip', buf'));
  }

  class Scanner {
    const reader: Reader
    const limit: nat
    const splitter: LineSplitter
    var buf: Text
    var err: Option<ScanError>
    var text: Text
    ghost var emitted: seq<Text>
    // For every read: how much of the body was already delivered, and the lines emitted by then.
    ghost var waits: seq<(nat, seq<Text>)>

    ghost predicate Valid()
      reads this, reader, splitter
    {
      && reader.Valid()
      && 0 < limit
      && |buf| <= limit
      && (err.None? ==> Yields(false, reader.body[..reader.pos], emitted, splitter.skipLF, buf))
      && (err.Some? && err.value != TokenTooLong ==>
            err.value == reader.ending && reader.pos == |reader.body| &&
            Lines(reader.body) == emitted + LinesFrom(splitter.skipLF, buf))
      && (err.Some? && err.value != TokenTooLong ==> |buf| < limit)
      && EagerSoFar()
    }

    /** Whenever the scanner waits for more bytes, it has emitted every line already terminated. */
    ghost predicate EagerSoFar()
      reads this
    {
      forall i :: 0 <= i < |waits| ==>
        waits[i].0 <= |reader.body| && waits[i].1 == Terminated(reader.body[..waits[i].0])
    }

    constructor (reader: Reader, limit: nat)
      requires reader.Valid() && reader.pos == 0 && limit > 0
      ensures Valid() && fresh(splitter) && this.reader == reader && this.limit == limit
      ensures emitted == [] && waits == [] && err == None
    {
      this.reader := reader;
      this.limit := limit;
      splitter := new LineSplitter();
      buf, err, text, emitted, waits := [], None, [], [], [];
      new;
      YieldsNothing(false, [], false, []);
      assert reader.body[..reader.pos] == [];
    }

    /** The lines not yet delivered. */
    ghost function Remaining(): seq<Text>
      reads this, reader, splitter
      requires reader.Valid()
    {
      LinesFrom(splitter.skipLF, buf + reader.body[reader.pos..])
    }

    lemma RemainingLines()
      requires Valid() && err != Some(TokenTooLong)
      ensures Lines(reader.body) == emitted + Remaining()
    {
      var rest := reader.body[reader.pos..];
      if err.None? {
        assert YieldsBefore(false, reader.body[..reader.pos], emitted, splitter.skipLF, buf, rest);
        assert reader.body[..reader.pos] + rest == reader.body;
      } else {
        assert buf + rest == buf;
      }
    }

    /** One call of the split function on the buffered bytes. */
    method SplitBuffer() returns (token: Option<Text>)
      requires Valid() && err != Some(TokenTooLong)
      modifies this`buf, this`emitted, splitter
      ensures Valid() && |buf| <= |old(buf)|
      ensures emitted == old(emitted) + Out(token)
      ensures old(Remaining()) == Out(token) + Remaining()
      ensures token.Some? ==> |token.value| < limit
      ensures token.None? ==> NoLine(splitter.skipLF, buf) && (err.Some? ==> Remaining() == [])
    {
      ghost var skip0, buf0 := splitter.skipLF, buf;
      var advance: nat;
      advance, token := splitter.Split(buf, err.Some?);
      buf := buf[advance..];
      emitted := emitted + Out(token);
      if err.None? {
        LineOut(reader.body, reader.pos, old(emitted), skip0, buf0, token, splitter.skipLF, buf);
      } else {
        LastLineOut(reader.body, old(emitted), skip0, buf0, token, splitter.skipLF, buf);
      }
    }

    /** One read into the free space of the buffer. */
    method Refill()
      requires Valid() && err.None? && |buf| < limit && NoLine(splitter.skipLF, buf)
      modifies this`buf, this`err, this`waits, reader
      ensures Valid() && err != Some(TokenTooLong) && Remaining() == old(Remaining())
      ensures err.Some? || reader.pos > old(reader.pos)
      ensures waits == old(waits) + [(old(reader.pos), emitted)]
    {
      ghost var before := reader.body[..reader.pos];
      NoLineYet(before, emitted, splitter.skipLF, buf);
      waits := waits + [(reader.pos, emitted)];
      var chunk, e := reader.Read(limit - |buf|);
      YieldsMoreData(false, before, emitted, splitter.skipLF, buf, chunk);
      assert before + chunk == reader.body[..reader.pos];
      assert buf + old(reader.body[reader.pos..]) == buf + chunk + reader.body[reader.pos..];
      buf := buf + chunk;
      err := e;
      if err.Some? {
        assert reader.body[..reader.pos] == reader.body;
        YieldsAlone(false, reader.body, emitted, splitter.skipLF, buf);
      }
    }

    lemma BufferIsFull()
      requires Valid() && |buf| >= limit && NoLine(splitter.skipLF, buf)
      ensures Remaining() != [] && |Remaining()[0]| >= limit
    {
      FirstLineIsLong(buf, reader.body[reader.pos..]);
    }

    /** One round of the scan loop: split, then stop or read more. */
    method Round() returns (token: Option<Text>, stop: bool)
      requires Valid() && err != Some(TokenTooLong)
      modifies this, reader, splitter
      ensures Valid() && old(waits) <= waits
      ensures emitted == old(emitted) + Out(token) && old(Remaining()) == Out(token) + Remaining()
      ensures token.Some? ==> !stop && |token.value| < limit && err == old(err)
      ensures token.None? ==> stop == (old(err).Some? || err == Some(TokenTooLong))
      ensures stop && old(err).Some? ==> Remaining() == [] && err == old(err)
      ensures stop && old(err).None? ==> Remaining() != [] && |Remaining()[0]| >= limit && err == Some(TokenTooLong)
      ensures !stop && token.None? ==> err.Some? || reader.pos > old(reader.pos)
    {
      token, stop := None, false;
      assert NoLine(splitter.skipLF, []);
      if buf != [] || err.Some? {
        token := SplitBuffer();
        if token.Some? {
          return;
        }
      }
      if err.Some? {
        stop := true;
      } else if |buf| >= limit {
        BufferIsFull();
        err := Some(TokenTooLong);
        stop := true;
      } else {
        Refill();
      }
    }

    /**
     * Advances to the next line. The outcome depends only on the lines of the body and the limit,
     * not on where the reads cut it.
     */
    method Scan() returns (ok: bool)
      requires Valid() && err != Some(TokenTooLong)
      modifies this, reader, splitter
      ensures Valid() && old(waits) <= waits
      ensures ok == (old(Remaining()) != [] && |old(Remaining())[0]| < limit)
      ensures ok ==> err != Some(TokenTooLong) && text == old(Remaining())[0] && Remaining() == old(Remaining())[1..] &&
                     emitted == old(emitted) + [text]
      ensures !ok ==> emitted == old(emitted) &&
                      err == Some(if old(Remaining()) == [] then reader.ending else TokenTooLong)
    {
      ghost var remaining := Remaining();
      ok := false;
      var stop := false;
      while !stop
        invariant Valid() && old(waits) <= waits && emitted == old(emitted) && Remaining() == remaining
        invariant !stop ==> err != Some(TokenTooLong)
        invariant stop ==> !(remaining != [] && |remaining[0]| < limit) &&
                           err == Some(if remaining == [] then reader.ending else TokenTooLong)
        decreases !stop, if err.None? then 1 else 0, |reader.body| - reader.pos
      {
        var token: Option<Text>;
        token, stop := Round();
        if token.Some? {
          assert remaining[0] == token.value && remaining[1..] == Remaining();
          text := token.value;
          return true;
        }
      }
    }
  }
}
