/**
 * Splitting an event stream into lines.
 *
 * `Lines` is the one-shot grammar (CRLF, LF and bare CR each end a line, section 9.2.5 of the
 * WHATWG HTML Living Standard). `LineSplitter` is the incremental split function, which sees the
 * bytes in arbitrary pieces.
 */
module SseLines {
  import opened Basics

  predicate IsEol(u: nat) {
    u == CR || u == LF
  }

  predicate EolFree(s: Text) {
    forall k :: 0 <= k < |s| ==> !IsEol(s[k])
  }

  /** Index of the first CR or LF, or the length of the text. */
  function FirstEol(s: Text): (i: nat)
    ensures i <= |s|
    ensures forall k :: 0 <= k < i ==> !IsEol(s[k])
    ensures i < |s| ==> IsEol(s[i])
  {
    if s == [] || IsEol(s[0]) then 0 else 1 + FirstEol(s[1..])
  }

  /** How many units the line terminator at index i takes: two for CRLF, else one. */
  function EolWidth(s: Text, i: nat): (w: nat)
    requires i < |s|
    ensures i + w <= |s|
  {
    if s[i] == CR && i + 1 < |s| && s[i + 1] == LF then 2 else 1
  }

  /** All lines of a complete stream; an unterminated tail counts when it is not empty. */
  function Lines(s: Text): seq<Text>
    decreases |s|
  {
    var i := FirstEol(s);
    if i < |s| then [s[..i]] + Lines(s[i + EolWidth(s, i)..])
    else if s == [] then []
    else [s]
  }

  /** The lines that the text terminates. */
  function Terminated(s: Text): seq<Text>
    decreases |s|
  {
    var i := FirstEol(s);
    if i < |s| then [s[..i]] + Terminated(s[i + EolWidth(s, i)..]) else []
  }

  /** What follows the last line terminator. */
  function Tail(s: Text): Text
    decreases |s|
  {
    var i := FirstEol(s);
    if i < |s| then Tail(s[i + EolWidth(s, i)..]) else s
  }

  predicate EndsInCr(s: Text) {
    s != [] && s[|s| - 1] == CR
  }

  /** The text that remains to be split when the unit before it was (or was not) a CR. */
  function SkipLf(skip: bool, s: Text): Text {
    if skip && s != [] && s[0] == LF then s[1..] else s
  }

  function LinesFrom(skip: bool, s: Text): seq<Text> {
    Lines(SkipLf(skip, s))
  }

  function TerminatedFrom(skip: bool, s: Text): seq<Text> {
    Terminated(SkipLf(skip, s))
  }

  lemma FirstEolUnique(s: Text, i: nat)
    requires i <= |s| && EolFree(s[..i])
    requires i < |s| ==> IsEol(s[i])
    ensures FirstEol(s) == i
  {
    assert forall k :: 0 <= k < i ==> s[k] == s[..i][k];
  }

  lemma WholeTail(s: Text)
    requires EolFree(s)
    ensures Lines(s) == if s == [] then [] else [s]
  {
  }

  lemma FoundEol(s: Text)
    ensures FirstEol(s) < |s| <==> !EolFree(s)
  {
  }

  /** One line is cut off at the first terminator; a CR leaves an LF after it to be skipped. */
  lemma LineStep(s: Text, i: nat)
    requires i < |s| && EolFree(s[..i]) && IsEol(s[i])
    ensures Lines(s) == [s[..i]] + LinesFrom(s[i] == CR, s[i + 1..])
    ensures Terminated(s) == [s[..i]] + TerminatedFrom(s[i] == CR, s[i + 1..])
    ensures Tail(s) == Tail(SkipLf(s[i] == CR, s[i + 1..]))
  {
    FirstEolUnique(s, i);
    assert s[i + EolWidth(s, i)..] == SkipLf(s[i] == CR, s[i + 1..]);
  }

  lemma {:induction false} TailFacts(s: Text)
    ensures EolFree(Tail(s))
    ensures EndsInCr(s) ==> Tail(s) == []
    ensures Lines(s) == Terminated(s) + (if Tail(s) == [] then [] else [Tail(s)])
    decreases |s|
  {
    var i := FirstEol(s);
    if i < |s| {
      var r := s[i + EolWidth(s, i)..];
      TailFacts(r);
    }
  }

  /** What is left of s once its first line is cut off. */
  function AfterFirst(s: Text): (r: Text)
    requires FirstEol(s) < |s|
    ensures |r| < |s|
  {
    var i := FirstEol(s);
    SkipLf(s[i] == CR, s[i + 1..])
  }

  lemma CutOfMore(p: Text, q: Text, i: nat)
    requires i < |p|
    ensures (p + q)[..i] == p[..i] && (p + q)[i] == p[i] && (p + q)[i + 1..] == p[i + 1..] + q
  {
  }

  lemma SkipLfOfMore(skip: bool, s: Text, q: Text)
    requires s != []
    ensures SkipLf(skip, s + q) == SkipLf(skip, s) + q
  {
    if skip && s[0] == LF {
      assert (s + q)[1..] == s[1..] + q;
    }
  }

  lemma SkipLfKeepsEnd(skip: bool, s: Text)
    requires s != []
    ensures EndsInCr(SkipLf(skip, s)) == EndsInCr(s)
  {
    if skip && s[0] == LF {
      EndOfSuffix(s, 1);
    }
  }

  lemma EndOfSuffix(s: Text, i: nat)
    requires 0 < |s| && i <= |s| && (i == |s| ==> s[i - 1] != CR)
    ensures EndsInCr(s[i..]) == EndsInCr(s)
  {
  }

  lemma AfterFirstAppend(p: Text, q: Text)
    requires FirstEol(p) < |p|
    ensures FirstEol(p + q) == FirstEol(p)
    ensures (p + q)[..FirstEol(p)] == p[..FirstEol(p)]
    ensures FirstEol(p) + 1 < |p| ==> AfterFirst(p + q) == AfterFirst(p) + q
    ensures FirstEol(p) + 1 == |p| ==> AfterFirst(p + q) == SkipLf(EndsInCr(p), q)
  {
    var i := FirstEol(p);
    CutOfMore(p, q, i);
    FirstEolUnique(p + q, i);
    if i + 1 < |p| {
      SkipLfOfMore(p[i] == CR, p[i + 1..], q);
    } else {
      assert p[i + 1..] + q == q;
    }
  }

  /** Lines are cut off one at a time, also when more text follows. */
  lemma FirstLineOfMore(p: Text, q: Text)
    requires FirstEol(p) < |p|
    ensures var x := [p[..FirstEol(p)]];
            if FirstEol(p) + 1 < |p| then
              && Lines(p + q) == x + Lines(AfterFirst(p) + q)
              && Terminated(p + q) == x + Terminated(AfterFirst(p) + q)
            else
              && Lines(p + q) == x + LinesFrom(EndsInCr(p), q)
              && Terminated(p + q) == x + TerminatedFrom(EndsInCr(p), q)
  {
    AfterFirstAppend(p, q);
    FirstOf(p + q);
  }

  /** The first line, and what is left once it is cut off. */
  lemma FirstOf(s: Text)
    requires FirstEol(s) < |s|
    ensures Lines(s) == [s[..FirstEol(s)]] + Lines(AfterFirst(s))
    ensures Terminated(s) == [s[..FirstEol(s)]] + Terminated(AfterFirst(s))
  {
    LineStep(s, FirstEol(s));
  }

  lemma AfterFirstEnds(p: Text, i: nat)
    requires i < |p|
    ensures var r := SkipLf(p[i] == CR, p[i + 1..]);
            if i + 1 < |p| then EndsInCr(r) == EndsInCr(p) else r == []
  {
    if i + 1 < |p| {
      EndOfSuffix(p, i + 1);
      SkipLfKeepsEnd(p[i] == CR, p[i + 1..]);
    }
  }

  lemma FirstLine(p: Text)
    requires FirstEol(p) < |p|
    ensures Terminated(p) == [p[..FirstEol(p)]] + Terminated(AfterFirst(p))
    ensures Tail(p) == Tail(AfterFirst(p))
    ensures if FirstEol(p) + 1 < |p| then EndsInCr(p) == EndsInCr(AfterFirst(p)) else AfterFirst(p) == []
  {
    var i := FirstEol(p);
    assert p[i + EolWidth(p, i)..] == AfterFirst(p);
    AfterFirstEnds(p, i);
  }

  lemma NothingTerminated(p: Text)
    requires FirstEol(p) == |p|
    ensures Terminated(p) == [] && Tail(p) == p && !EndsInCr(p)
  {
  }

  lemma {:induction false} SplitTerminatedAnywhere(p: Text, q: Text)
    ensures Terminated(p + q) == Terminated(p) + TerminatedFrom(EndsInCr(p), Tail(p) + q)
    decreases |p|
  {
    if FirstEol(p) == |p| {
      NothingTerminated(p);
    } else {
      var x, r := [p[..FirstEol(p)]], AfterFirst(p);
      FirstLineOfMore(p, q);
      FirstLine(p);
      if FirstEol(p) + 1 < |p| {
        SplitTerminatedAnywhere(r, q);
        Associate(x, Terminated(r), TerminatedFrom(EndsInCr(p), Tail(p) + q));
      } else {
        NothingTerminated(r);
        assert Tail(p) + q == q;
      }
    }
  }

  /**
   * Splitting may stop after any prefix and resume with the rest: the only memory it needs is
   * the unterminated tail and whether the prefix ended in a CR.
   */
  lemma {:induction false} SplitAnywhere(p: Text, q: Text)
    ensures Lines(p + q) == Terminated(p) + LinesFrom(EndsInCr(p), Tail(p) + q)
    ensures Terminated(p + q) == Terminated(p) + TerminatedFrom(EndsInCr(p), Tail(p) + q)
    decreases |p|
  {
    SplitTerminatedAnywhere(p, q);
    if FirstEol(p) == |p| {
      NothingTerminated(p);
      assert [] + Lines(p + q) == Lines(p + q);
    } else {
      var x, r := [p[..FirstEol(p)]], AfterFirst(p);
      FirstLineOfMore(p, q);
      FirstLine(p);
      if FirstEol(p) + 1 < |p| {
        SplitAnywhere(r, q);
        Associate(x, Terminated(r), LinesFrom(EndsInCr(p), Tail(p) + q));
      } else {
        NothingTerminated(r);
        assert Terminated(p) == x && Tail(p) + q == q;
      }
    }
  }

  /** With `rest` still to come, state `(skip0, data0)` gives `out` and then what `(skip1, data1)` gives. */
  ghost predicate YieldsBefore(skip0: bool, data0: Text, out: seq<Text>, skip1: bool, data1: Text, rest: Text) {
    && LinesFrom(skip0, data0 + rest) == out + LinesFrom(skip1, data1 + rest)
    && TerminatedFrom(skip0, data0 + rest) == out + TerminatedFrom(skip1, data1 + rest)
  }

  /** The same, whatever is still to come. */
  ghost predicate Yields(skip0: bool, data0: Text, out: seq<Text>, skip1: bool, data1: Text) {
    forall rest: Text :: YieldsBefore(skip0, data0, out, skip1, data1, rest)
  }

  lemma YieldsCompose(s0: bool, d0: Text, out: seq<Text>, s1: bool, d1: Text, out': seq<Text>, s2: bool, d2: Text)
    requires Yields(s0, d0, out, s1, d1) && Yields(s1, d1, out', s2, d2)
    ensures Yields(s0, d0, out + out', s2, d2)
  {
    forall rest: Text
      ensures YieldsBefore(s0, d0, out + out', s2, d2, rest)
    {
      assert YieldsBefore(s0, d0, out, s1, d1, rest) && YieldsBefore(s1, d1, out', s2, d2, rest);
      Associate(out, out', LinesFrom(s2, d2 + rest));
      Associate(out, out', TerminatedFrom(s2, d2 + rest));
    }
  }

  lemma YieldsMoreData(s0: bool, d0: Text, out: seq<Text>, s1: bool, d1: Text, chunk: Text)
    requires Yields(s0, d0, out, s1, d1)
    ensures Yields(s0, d0 + chunk, out, s1, d1 + chunk)
  {
    forall rest: Text
      ensures YieldsBefore(s0, d0 + chunk, out, s1, d1 + chunk, rest)
    {
      assert YieldsBefore(s0, d0, out, s1, d1, chunk + rest);
      assert d0 + chunk + rest == d0 + (chunk + rest);
      assert d1 + chunk + rest == d1 + (chunk + rest);
    }
  }

  lemma YieldsNothing(skip0: bool, data0: Text, skip1: bool, data1: Text)
    requires data0 == [] ==> skip0 == skip1 && data1 == []
    requires data0 != [] ==> !skip1 && data1 == SkipLf(skip0, data0)
    ensures Yields(skip0, data0, [], skip1, data1)
  {
    forall rest: Text
      ensures YieldsBefore(skip0, data0, [], skip1, data1, rest)
    {
      assert SkipLf(skip0, data0 + rest) == SkipLf(skip1, data1 + rest);
      assert [] + LinesFrom(skip1, data1 + rest) == LinesFrom(skip1, data1 + rest);
      assert [] + TerminatedFrom(skip1, data1 + rest) == TerminatedFrom(skip1, data1 + rest);
    }
  }

  lemma YieldsLine(data: Text, i: nat)
    requires i < |data| && EolFree(data[..i]) && IsEol(data[i])
    ensures Yields(false, data, [data[..i]], data[i] == CR, data[i + 1..])
  {
    var line, skip, after := data[..i], data[i] == CR, data[i + 1..];
    forall rest: Text
      ensures YieldsBefore(false, data, [line], skip, after, rest)
    {
      assert (data + rest)[..i] == data[..i];
      assert (data + rest)[i + 1..] == data[i + 1..] + rest;
      LineStep(data + rest, i);
    }
  }

  function Out(token: Option<Text>): seq<Text> {
    if token.Some? then [token.value] else []
  }

  /** Nothing can be split off without more text. */
  predicate NoLine(skip: bool, data: Text) {
    EolFree(data) && (data != [] ==> !skip)
  }

  lemma YieldsAlone(s0: bool, d0: Text, out: seq<Text>, s1: bool, d1: Text)
    requires Yields(s0, d0, out, s1, d1)
    ensures LinesFrom(s0, d0) == out + LinesFrom(s1, d1)
    ensures TerminatedFrom(s0, d0) == out + TerminatedFrom(s1, d1)
  {
    assert YieldsBefore(s0, d0, out, s1, d1, []);
    assert d0 + [] == d0 && d1 + [] == d1;
  }

  /**
   * What one call of the split function has to do: a line comes out exactly when the first unit of
   * its terminator is there, or at the end, and every line of the data, and of anything that may
   * follow, is the line that came out or is still to come from what is left.
   */
  ghost predicate Cut(skip: bool, data: Text, atEOF: bool, token: Option<Text>, skip': bool, left: Text) {
    && (token.Some? <==> !EolFree(SkipLf(skip, data)) || (atEOF && SkipLf(skip, data) != []))
    && LinesFrom(skip, data) == Out(token) + LinesFrom(skip', left)
    && (atEOF || Yields(skip, data, Out(token), skip', left))
    && (token.Some? ==> |token.value| <= |data| && (atEOF || |token.value| < |data|))
    && (token.None? ==> NoLine(skip', left) && (atEOF ==> left == []))
  }

  /** A terminator is found: the line before it comes out. */
  lemma CutsLine(skip: bool, data: Text, atEOF: bool, i: nat, left: Text)
    requires i == FirstEol(SkipLf(skip, data)) < |SkipLf(skip, data)| && left == SkipLf(skip, data)[i + 1..]
    ensures Cut(skip, data, atEOF, Some(SkipLf(skip, data)[..i]), SkipLf(skip, data)[i] == CR, left)
  {
    var rest := SkipLf(skip, data);
    FoundEol(rest);
    LineComesOut(skip, data, i);
    YieldsAlone(skip, data, [rest[..i]], rest[i] == CR, left);
  }

  lemma LineComesOut(skip: bool, data: Text, i: nat)
    requires i == FirstEol(SkipLf(skip, data)) < |SkipLf(skip, data)|
    ensures var rest := SkipLf(skip, data);
            Yields(skip, data, [rest[..i]], rest[i] == CR, rest[i + 1..])
  {
    var rest := SkipLf(skip, data);
    YieldsNothing(skip, data, false, rest);
    YieldsLine(rest, i);
    YieldsCompose(skip, data, [], false, rest, [rest[..i]], rest[i] == CR, rest[i + 1..]);
    assert [] + [rest[..i]] == [rest[..i]];
  }

  /** No terminator is found and nothing follows: what is there is the last line. */
  lemma CutsTail(skip: bool, data: Text)
    requires EolFree(SkipLf(skip, data)) && SkipLf(skip, data) != []
    ensures Cut(skip, data, true, Some(SkipLf(skip, data)), false, [])
  {
    WholeTail(SkipLf(skip, data));
  }

  /** No terminator is found: nothing comes out yet. */
  lemma CutsNothing(skip: bool, data: Text, atEOF: bool, left: Text)
    requires EolFree(left) && left == SkipLf(skip, data) && (atEOF ==> left == [])
    ensures Cut(skip, data, atEOF, None, if data == [] then skip else false, left)
  {
    var skip' := if data == [] then skip else false;
    YieldsNothing(skip, data, skip', left);
    YieldsAlone(skip, data, [], skip', left);
  }

  lemma EndOf(skip: bool, data: Text, k: nat)
    requires k <= |SkipLf(skip, data)|
    ensures data[|data| - |SkipLf(skip, data)| + k..] == SkipLf(skip, data)[k..]
  {
  }

  /** The three cases together, with what is left as the end of the data. */
  lemma Advanced(skip: bool, data: Text, atEOF: bool, advance: nat, token: Option<Text>, skip': bool)
    requires var rest := SkipLf(skip, data);
             var i, gone := FirstEol(rest), |data| - |rest|;
             if i < |rest| then advance == gone + i + 1 && token == Some(rest[..i]) && skip' == (rest[i] == CR)
             else if atEOF && rest != [] then advance == |data| && token == Some(rest) && !skip'
             else advance == gone && token == None && skip' == if data == [] then skip else false
    ensures advance <= |data| && Cut(skip, data, atEOF, token, skip', data[advance..])
  {
    var rest := SkipLf(skip, data);
    FoundEol(rest);
    if FirstEol(rest) < |rest| {
      AdvancedLine(skip, data, atEOF, FirstEol(rest), advance);
    } else if atEOF && rest != [] {
      assert data[advance..] == [];
      CutsTail(skip, data);
    } else {
      AdvancedNot(skip, data, atEOF, advance);
    }
  }

  lemma AdvancedLine(skip: bool, data: Text, atEOF: bool, i: nat, advance: nat)
    requires i == FirstEol(SkipLf(skip, data)) < |SkipLf(skip, data)|
    requires advance == |data| - |SkipLf(skip, data)| + i + 1
    ensures Cut(skip, data, atEOF, Some(SkipLf(skip, data)[..i]), SkipLf(skip, data)[i] == CR, data[advance..])
  {
    EndOf(skip, data, i + 1);
    CutsLine(skip, data, atEOF, i, data[advance..]);
  }

  lemma AdvancedNot(skip: bool, data: Text, atEOF: bool, advance: nat)
    requires EolFree(SkipLf(skip, data)) && (atEOF ==> SkipLf(skip, data) == [])
    requires advance == |data| - |SkipLf(skip, data)|
    ensures Cut(skip, data, atEOF, None, if data == [] then skip else false, data[advance..])
  {
    EndOf(skip, data, 0);
    CutsNothing(skip, data, atEOF, data[advance..]);
  }

  /** The closure returned by newSSELineSplitter: its one captured variable is `skipLF`. */
  class LineSplitter {
    var skipLF: bool

    constructor ()
      ensures !skipLF
    {
      skipLF := false;
    }

    /** An LF right after a CR is the rest of a CRLF, even when it arrives in a separate read. */
    method Swallow(data: Text) returns (advance: nat, rest: Text)
      modifies this
      ensures rest == SkipLf(old(skipLF), data) && advance == |data| - |rest|
      ensures skipLF == if data == [] then old(skipLF) else false
    {
      advance, rest := 0, data;
      if skipLF && |rest| > 0 {
        skipLF := false;
        if rest[0] == LF {
          return 1, rest[1..];
        }
      }
    }

    method Split(data: Text, atEOF: bool) returns (advance: nat, token: Option<Text>)
      modifies this
      ensures advance <= |data|
      ensures Cut(old(skipLF), data, atEOF, token, skipLF, data[advance..])
    {
      ghost var skip0 := skipLF;
      var rest: Text;
      advance, rest := Swallow(data);
      var i := FirstEol(rest);
      if i < |rest| {
        skipLF := rest[i] == CR;
        advance, token := advance + i + 1, Some(rest[..i]);
      } else if atEOF && |rest| > 0 {
        advance, token := advance + |rest|, Some(rest);
      } else {
        token := None;
      }
      Advanced(skip0, data, atEOF, advance, token, skipLF);
    }
  }

  /**
   * Eager dispatch: the lines known after a prefix are final whatever follows, a bare CR at the
   * end of the prefix already ends its line, and an LF right after it adds no line.
   */
  lemma TerminatedLinesAreFinal(p: Text, q: Text)
    ensures Terminated(p) <= Terminated(p + q) && Terminated(p) <= Lines(p + q)
    ensures EndsInCr(p) ==> Terminated(p + [LF]) == Terminated(p) == Lines(p)
  {
    SplitAnywhere(p, q);
    if EndsInCr(p) {
      SplitAnywhere(p, [LF]);
      TailFacts(p);
      assert SkipLf(true, Tail(p) + [LF]) == [];
    }
  }

  datatype Ending = Lf | Cr | CrLf {
    function Units(): Text {
      match this
      case Lf => [LF]
      case Cr => [CR]
      case CrLf => [CR, LF]
    }
  }

  /** A line together with the terminator a server wrote after it. */
  datatype Written = Written(line: Text, ending: Ending)

  function Render(items: seq<Written>): Text {
    if items == [] then [] else items[0].line + items[0].ending.Units() + Render(items[1..])
  }

  function LinesWritten(items: seq<Written>): seq<Text> {
    seq(|items|, i requires 0 <= i < |items| => items[i].line)
  }

  /** An empty line ended by LF right after a line ended by CR reads as the rest of a CRLF. */
  predicate MergesWith(prev: Written, next: Written) {
    prev.ending.Cr? && next == Written([], Lf)
  }

  ghost predicate Unambiguous(items: seq<Written>) {
    forall i :: 0 < i < |items| ==> !MergesWith(items[i - 1], items[i])
  }

  /** The lines that survive reading; `skip` tells whether a CR came just before. */
  function Survivors(skip: bool, items: seq<Written>): (r: seq<Text>)
    ensures |r| <= |items|
    decreases |items|
  {
    if items == [] then []
    else if skip && items[0] == Written([], Lf) then Survivors(false, items[1..])
    else [items[0].line] + Survivors(items[0].ending.Cr?, items[1..])
  }

  lemma PartsOf(line: Text, end: Text, more: Text)
    requires end != []
    ensures var s := line + end + more;
            && s[..|line|] == line && s[|line|] == end[0] && s[|line| + 1..] == end[1..] + more
            && s[0] == (if line == [] then end[0] else line[0])
  {
  }

  /** Reading one written line, when nothing is waiting to be swallowed. */
  lemma ReadWritten(skip: bool, w: Written, more: Text)
    requires EolFree(w.line) && !(skip && w == Written([], Lf))
    ensures LinesFrom(skip, w.line + w.ending.Units() + more) == [w.line] + LinesFrom(w.ending.Cr?, more)
  {
    var s := w.line + w.ending.Units() + more;
    var i := |w.line|;
    PartsOf(w.line, w.ending.Units(), more);
    assert SkipLf(skip, s) == s;
    LineStep(s, i);
    if w.ending.CrLf? {
      assert SkipLf(true, s[i + 1..]) == more;
    } else {
      assert s[i + 1..] == more;
    }
  }

  lemma {:induction false} ReadsSurvivors(skip: bool, items: seq<Written>)
    requires forall w :: w in items ==> EolFree(w.line)
    ensures LinesFrom(skip, Render(items)) == Survivors(skip, items)
    decreases |items|
  {
    if items != [] {
      var w, more := items[0], Render(items[1..]);
      ReadsSurvivors(w.ending.Cr?, items[1..]);
      if skip && w == Written([], Lf) {
        assert SkipLf(true, Render(items)) == more;
      } else {
        ReadWritten(skip, w, more);
      }
    }
  }

  lemma {:induction false} AllSurvive(skip: bool, items: seq<Written>)
    ensures Survivors(skip, items) == LinesWritten(items)
            <==> Unambiguous(items) && !(skip && items != [] && items[0] == Written([], Lf))
    ensures |Survivors(skip, items)| == |items| ==> Survivors(skip, items) == LinesWritten(items)
    decreases |items|
  {
    if items != [] {
      var next := items[1..];
      AllSurvive(items[0].ending.Cr?, next);
      assert LinesWritten(items) == [items[0].line] + LinesWritten(next);
      if Unambiguous(items) {
        assert next != [] ==> !MergesWith(items[0], items[1]);
        forall i | 0 < i < |next|
          ensures !MergesWith(next[i - 1], next[i])
        {
          assert !MergesWith(items[i], items[i + 1]);
        }
      }
      if Unambiguous(next) && !(items[0].ending.Cr? && next != [] && next[0] == Written([], Lf)) {
        forall i | 0 < i < |items|
          ensures !MergesWith(items[i - 1], items[i])
        {
          assert i > 1 ==> !MergesWith(next[i - 2], next[i - 1]);
        }
      }
    }
  }

  /**
   * Round trip, with its exact condition: the lines a server wrote, each with an ending of its
   * own choice, are read back unchanged if and only if no empty LF line follows a CR line.
   */
  lemma WrittenLinesAreRead(items: seq<Written>)
    requires forall w :: w in items ==> EolFree(w.line)
    ensures Lines(Render(items)) == LinesWritten(items) <==> Unambiguous(items)
  {
    ReadsSurvivors(false, items);
    AllSurvive(false, items);
  }
}
