/** Length-prefixed frames on a byte stream (docreader/preprocess.py, struct.pack("!I") + payload). */
module Framing {
  import opened Basics

  const MAX_MESSAGE: nat := 20 * 1024 * 1024

  /** Four bytes, most significant first. */
  function Header(n: nat): (h: Text)
    requires n < 0x1_0000_0000
    ensures |h| == 4
  {
    [n / 0x100_0000, n / 0x1_0000 % 0x100, n / 0x100 % 0x100, n % 0x100]
  }

  function HeaderValue(h: Text): nat
    requires |h| == 4
  {
    h[0] * 0x100_0000 + h[1] * 0x1_0000 + h[2] * 0x100 + h[3]
  }

  lemma HeaderRoundTrip(n: nat)
    requires n < 0x1_0000_0000
    ensures HeaderValue(Header(n)) == n
  {
    assert n / 0x100 == n / 0x1_0000 * 0x100 + n / 0x100 % 0x100 by { assert n / 0x1_0000 == n / 0x100 / 0x100; }
    assert n / 0x1_0000 == n / 0x100_0000 * 0x100 + n / 0x1_0000 % 0x100 by {
      assert n / 0x100_0000 == n / 0x1_0000 / 0x100;
    }
  }

  predicate Fits(message: Text) {
    |message| <= MAX_MESSAGE
  }

  function Frame(message: Text): Text
    requires Fits(message)
  {
    Header(|message|) + message
  }

  ghost predicate AllFit(messages: seq<Text>) {
    forall k :: 0 <= k < |messages| ==> Fits(messages[k])
  }

  function FrameAll(messages: seq<Text>): Text
    requires AllFit(messages)
  {
    if messages == [] then [] else Frame(messages[0]) + FrameAll(messages[1..])
  }

  /** What a receiver that has taken these bytes of a frame does next. */
  datatype Progress = NeedMore(count: nat) | TooLarge | Complete(message: Text)

  function Receiving(got: Text): (p: Progress)
    ensures p.NeedMore? ==> p.count > 0
  {
    if |got| < 4 then NeedMore(4 - |got|)
    else
      var size := HeaderValue(got[..4]);
      if size > MAX_MESSAGE then TooLarge
      else if |got| < 4 + size then NeedMore(4 + size - |got|)
      else Complete(got[4..])
  }

  /** Inside a frame the receiver always asks for bytes of that frame only; at its end it has the message. */
  lemma ReceivingFrame(message: Text, got: Text)
    requires Fits(message) && got <= Frame(message)
    ensures got == Frame(message) ==> Receiving(got) == Complete(message)
    ensures got != Frame(message) ==> Receiving(got).NeedMore? && |got| + Receiving(got).count <= |Frame(message)|
  {
    HeaderRoundTrip(|message|);
    var f := Frame(message);
    if |got| >= 4 {
      assert got[..4] == f[..4] == Header(|message|);
      if |got| == |f| {
        assert got == f && f[4..] == message;
      }
    }
  }

  /** These pieces can be taken one after the other: each is part of what the receiver asks for, and is there. */
  predicate TakesPieces(got: Text, available: Text, pieces: seq<nat>)
    decreases |pieces|
  {
    pieces == []
    || (Receiving(got).NeedMore? && 1 <= pieces[0] <= Receiving(got).count && pieces[0] <= |available|
        && TakesPieces(got + available[..pieces[0]], available[pieces[0]..], pieces[1..]))
  }

  function Sum(pieces: seq<nat>): nat {
    if pieces == [] then 0 else pieces[0] + Sum(pieces[1..])
  }

  lemma {:induction false} SumSnoc(pieces: seq<nat>, n: nat)
    ensures Sum(pieces + [n]) == Sum(pieces) + n
  {
    if pieces == [] {
      assert [] + [n] == [n];
    } else {
      assert (pieces + [n])[1..] == pieces[1..] + [n];
      SumSnoc(pieces[1..], n);
    }
  }

  lemma {:induction false} SumAppend(a: seq<nat>, b: seq<nat>)
    ensures Sum(a + b) == Sum(a) + Sum(b)
  {
    if a == [] {
      assert a + b == b;
    } else {
      assert (a + b)[1..] == a[1..] + b;
      SumAppend(a[1..], b);
    }
  }

  predicate Positive(pieces: seq<nat>) {
    forall i :: 0 <= i < |pieces| ==> pieces[i] > 0
  }

  /** Part of what was asked for leaves the rest to be asked for. */
  lemma StillNeeded(got: Text, piece: Text)
    requires Receiving(got).NeedMore? && |piece| < Receiving(got).count
    ensures Receiving(got + piece) == NeedMore(Receiving(got).count - |piece|)
  {
    if |got| >= 4 {
      assert (got + piece)[..4] == got[..4];
    }
  }

  /** Any pieces that together are no more than what is asked for can be taken. */
  lemma {:induction false} PiecesOfOne(got: Text, available: Text, pieces: seq<nat>)
    requires Positive(pieces) && Sum(pieces) <= |available|
    requires pieces != [] ==> Receiving(got).NeedMore? && Sum(pieces) <= Receiving(got).count
    ensures TakesPieces(got, available, pieces)
    decreases |pieces|
  {
    if pieces != [] {
      var n := pieces[0];
      if pieces[1..] != [] {
        assert pieces[1..][0] > 0;
        StillNeeded(got, available[..n]);
      }
      PiecesOfOne(got + available[..n], available[n..], pieces[1..]);
    }
  }

  lemma {:induction false} PiecesThen(got: Text, available: Text, a: seq<nat>, b: seq<nat>)
    requires TakesPieces(got, available, a) && Sum(a) <= |available|
    requires TakesPieces(got + available[..Sum(a)], available[Sum(a)..], b)
    ensures TakesPieces(got, available, a + b)
    decreases |a|
  {
    if a == [] {
      assert a + b == b && got + available[..0] == got && available[0..] == available;
    } else {
      var n := a[0];
      assert (a + b)[1..] == a[1..] + b;
      assert available[..Sum(a)] == available[..n] + available[n..][..Sum(a[1..])];
      assert available[Sum(a)..] == available[n..][Sum(a[1..])..];
      Associate(got, available[..n], available[n..][..Sum(a[1..])]);
      PiecesThen(got + available[..n], available[n..], a[1..], b);
    }
  }

  /** Bytes that could be a frame, or the beginning of one, and no more than that. */
  predicate WithinFrame(got: Text) {
    |got| <= 4 || (HeaderValue(got[..4]) <= MAX_MESSAGE && |got| <= 4 + HeaderValue(got[..4]))
  }

  /** Such bytes never reach beyond the frame that is on its way, nor is that frame refused. */
  lemma NeverBeyondTheFrame(message: Text, got: Text, stream: Text)
    requires Fits(message) && Frame(message) <= stream && got <= stream && WithinFrame(got)
    ensures got <= Frame(message) && Receiving(got) != TooLarge
    ensures forall m :: Fits(m) && got == Frame(m) ==> m == message
  {
    HeaderRoundTrip(|message|);
    var f := Frame(message);
    assert stream[..4] == Header(|message|);
    if |got| > 4 {
      assert got[..4] == stream[..4];
    }
    assert got == stream[..|got|] && f == stream[..|f|];
    forall m | Fits(m) && got == Frame(m)
      ensures m == message
    {
      FramesDiffer(m, stream[|got|..], message, stream[|f|..]);
    }
  }

  /** A header and the bytes after it make a frame when there are as many as it says. */
  lemma FrameOfParts(header: Text, data: Text)
    requires |header| == 4 && HeaderValue(header) <= MAX_MESSAGE && |data| <= HeaderValue(header)
    requires IsBytes(header)
    ensures WithinFrame(header + data)
    ensures |data| == HeaderValue(header) ==> header + data == Frame(data)
  {
    assert (header + data)[..4] == header;
    HeaderUnique(header);
  }

  lemma HeaderUnique(h: Text)
    requires |h| == 4 && IsBytes(h)
    ensures HeaderValue(h) < 0x1_0000_0000 && Header(HeaderValue(h)) == h
  {
    var n := HeaderValue(h);
    assert n % 0x100 == h[3] && n / 0x100 == h[0] * 0x1_0000 + h[1] * 0x100 + h[2];
    assert n / 0x100 % 0x100 == h[2] && n / 0x1_0000 == h[0] * 0x100 + h[1];
  }

  /** A frame is never the beginning of another one: the streams of frames decode uniquely. */
  lemma FramesDiffer(a: Text, restA: Text, b: Text, restB: Text)
    requires Fits(a) && Fits(b) && Frame(a) + restA == Frame(b) + restB
    ensures a == b && restA == restB
  {
    var s := Frame(a) + restA;
    HeaderRoundTrip(|a|);
    HeaderRoundTrip(|b|);
    assert s[..4] == Header(|a|) && s[..4] == Header(|b|);
    assert a == s[4..4 + |a|] && restA == s[4 + |a|..];
    assert b == s[4..4 + |b|] && restB == s[4 + |b|..];
  }

  /**
   * Whatever part of the sender's stream has arrived, complete frames taken from its front are the
   * first messages that were sent.
   */
  lemma {:induction false} ReceivedWereSent(sent: seq<Text>, received: seq<Text>, arrived: Text, rest: Text)
    requires AllFit(sent) && AllFit(received)
    requires arrived <= FrameAll(sent) && arrived == FrameAll(received) + rest
    ensures received <= sent
  {
    if received != [] {
      var a, more := received[0], FrameAll(received[1..]) + rest;
      Associate(Frame(a), FrameAll(received[1..]), rest);
      assert arrived == Frame(a) + more;
      var tail := FrameAll(sent)[|arrived|..];
      assert FrameAll(sent) == arrived + tail == Frame(a) + (more + tail);
      assert sent != [];
      FramesDiffer(a, more + tail, sent[0], FrameAll(sent[1..]));
      ReceivedWereSent(sent[1..], received[1..], more, rest);
      assert received == [a] + received[1..] && sent == [a] + sent[1..];
    }
  }

  lemma {:induction false} FrameAllAppend(a: seq<Text>, b: seq<Text>)
    requires AllFit(a) && AllFit(b)
    ensures AllFit(a + b) && FrameAll(a + b) == FrameAll(a) + FrameAll(b)
  {
    if a == [] {
      assert a + b == b;
    } else {
      assert (a + b)[1..] == a[1..] + b;
      FrameAllAppend(a[1..], b);
      Associate(Frame(a[0]), FrameAll(a[1..]), FrameAll(b));
    }
  }
}
