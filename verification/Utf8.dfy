/** UTF-8 (RFC 3629, section 3): what Python encodes and what Go reads back as runes. */
module Utf8 {
  import opened Basics

  const REPLACEMENT: nat := 0xFFFD

  predicate IsSurrogate(c: nat) {
    0xD800 <= c <= 0xDFFF
  }

  /** A code point that UTF-8 can carry. */
  predicate IsScalar(c: nat) {
    c < 0x110000 && !IsSurrogate(c)
  }

  predicate AllScalar(s: Text) {
    forall k :: 0 <= k < |s| ==> IsScalar(s[k])
  }

  function EncodeOne(c: nat): (b: Text)
    requires IsScalar(c)
    ensures 1 <= |b| <= 4
  {
    if c < 0x80 then [c]
    else if c < 0x800 then [0xC0 + c / 64, 0x80 + c % 64]
    else if c < 0x10000 then [0xE0 + c / 4096, 0x80 + c / 64 % 64, 0x80 + c % 64]
    else [0xF0 + c / 262144, 0x80 + c / 4096 % 64, 0x80 + c / 64 % 64, 0x80 + c % 64]
  }

  function Encode(s: Text): Text
    requires AllScalar(s)
  {
    if s == [] then [] else EncodeOne(s[0]) + Encode(s[1..])
  }

  predicate IsCont(b: nat) {
    0x80 <= b <= 0xBF
  }

  /** Lead bytes of three- and four-byte sequences restrict the byte after them. */
  predicate SecondByteOk(lead: nat, b: nat) {
    && IsCont(b)
    && (lead == 0xE0 ==> b >= 0xA0) && (lead == 0xED ==> b <= 0x9F)
    && (lead == 0xF0 ==> b >= 0x90) && (lead == 0xF4 ==> b <= 0x8F)
  }

  /** Length of the well-formed sequence the bytes start with, 0 if there is none. */
  function RuneLength(s: Text): (n: nat)
    requires s != []
    ensures n <= |s|
  {
    var lead := s[0];
    if lead < 0x80 then 1
    else if 0xC2 <= lead <= 0xDF && |s| >= 2 && IsCont(s[1]) then 2
    else if 0xE0 <= lead <= 0xEF && |s| >= 3 && SecondByteOk(lead, s[1]) && IsCont(s[2]) then 3
    else if 0xF0 <= lead <= 0xF4 && |s| >= 4 && SecondByteOk(lead, s[1]) && IsCont(s[2]) && IsCont(s[3]) then 4
    else 0
  }

  function RuneValue(s: Text, n: nat): nat
    requires s != [] && n == RuneLength(s) && n > 0
  {
    if n == 1 then s[0]
    else if n == 2 then (s[0] - 0xC0) * 64 + (s[1] - 0x80)
    else if n == 3 then (s[0] - 0xE0) * 4096 + (s[1] - 0x80) * 64 + (s[2] - 0x80)
    else (s[0] - 0xF0) * 262144 + (s[1] - 0x80) * 4096 + (s[2] - 0x80) * 64 + (s[3] - 0x80)
  }

  /** The runes of a Go string: an ill-formed byte gives one replacement character. */
  function Runes(s: Text): Text
    decreases |s|
  {
    if s == [] then []
    else
      var n := RuneLength(s);
      if n == 0 then [REPLACEMENT] + Runes(s[1..]) else [RuneValue(s, n)] + Runes(s[n..])
  }

  /** The base-64 digits of a number give it back. */
  lemma Digits64(c: nat)
    ensures c == c / 64 * 64 + c % 64
    ensures c / 64 == c / 4096 * 64 + c / 64 % 64
    ensures c / 4096 == c / 262144 * 64 + c / 4096 % 64
  {
    assert c / 4096 == c / 64 / 64;
    assert c / 262144 == c / 4096 / 64;
  }

  lemma EncodeOneIsRead(c: nat, rest: Text)
    requires IsScalar(c)
    ensures RuneLength(EncodeOne(c) + rest) == |EncodeOne(c)|
    ensures RuneValue(EncodeOne(c) + rest, |EncodeOne(c)|) == c
  {
    if c < 0x80 {
      assert (EncodeOne(c) + rest)[0] == c;
    } else if c < 0x800 {
      TwoAreRead(c, rest);
    } else if c < 0x10000 {
      ThreeAreRead(c, rest);
    } else {
      FourAreRead(c, rest);
    }
  }

  lemma TwoAreRead(c: nat, rest: Text)
    requires 0x80 <= c < 0x800
    ensures RuneLength(EncodeOne(c) + rest) == |EncodeOne(c)| == 2 && RuneValue(EncodeOne(c) + rest, 2) == c
  {
    Digits64(c);
    var s := EncodeOne(c) + rest;
    assert s[0] == 0xC0 + c / 64 && s[1] == 0x80 + c % 64;
  }

  lemma ThreeAreRead(c: nat, rest: Text)
    requires 0x800 <= c < 0x10000 && IsScalar(c)
    ensures RuneLength(EncodeOne(c) + rest) == |EncodeOne(c)| == 3 && RuneValue(EncodeOne(c) + rest, 3) == c
  {
    Digits64(c);
    var s := EncodeOne(c) + rest;
    assert s[0] == 0xE0 + c / 4096 && s[1] == 0x80 + c / 64 % 64 && s[2] == 0x80 + c % 64;
  }

  lemma FourAreRead(c: nat, rest: Text)
    requires 0x10000 <= c && IsScalar(c)
    ensures RuneLength(EncodeOne(c) + rest) == |EncodeOne(c)| == 4 && RuneValue(EncodeOne(c) + rest, 4) == c
  {
    Digits64(c);
    var s := EncodeOne(c) + rest;
    assert s[0] == 0xF0 + c / 262144 && s[1] == 0x80 + c / 4096 % 64;
    assert s[2] == 0x80 + c / 64 % 64 && s[3] == 0x80 + c % 64;
  }

  /** Go reads back exactly the code points that Python encoded. */
  lemma {:induction false} EncodeIsRead(s: Text)
    requires AllScalar(s)
    ensures Runes(Encode(s)) == s
  {
    if s != [] {
      var first, rest := EncodeOne(s[0]), Encode(s[1..]);
      EncodeOneIsRead(s[0], rest);
      assert (first + rest)[|first|..] == rest;
      EncodeIsRead(s[1..]);
    }
  }

  lemma {:induction false} EncodeAppend(a: Text, b: Text)
    requires AllScalar(a) && AllScalar(b)
    ensures AllScalar(a + b) && Encode(a + b) == Encode(a) + Encode(b)
  {
    if a == [] {
      assert a + b == b;
    } else {
      assert (a + b)[1..] == a[1..] + b;
      EncodeAppend(a[1..], b);
    }
  }

  predicate IsAscii(s: Text) {
    forall k :: 0 <= k < |s| ==> s[k] < 0x80
  }

  lemma {:induction false} EncodeAscii(s: Text)
    requires IsAscii(s)
    ensures AllScalar(s) && Encode(s) == s
  {
    if s != [] {
      EncodeAscii(s[1..]);
    }
  }

  /** An encoded text starts with an ASCII text exactly when the text itself does. */
  lemma {:induction false} AsciiPrefix(s: Text, prefix: Text)
    requires AllScalar(s) && IsAscii(prefix)
    ensures prefix <= Encode(s) <==> prefix <= s
    ensures prefix <= s ==> Encode(s)[|prefix|..] == Encode(s[|prefix|..])
  {
    if prefix == [] {
    } else if s == [] {
    } else {
      var first, rest := EncodeOne(s[0]), Encode(s[1..]);
      AsciiPrefix(s[1..], prefix[1..]);
      assert first[0] < 0x80 <==> s[0] < 0x80;
      if s[0] < 0x80 {
        assert Encode(s) == [s[0]] + rest && Encode(s)[1..] == rest;
        if prefix <= Encode(s) {
          assert prefix[1..] <= rest;
          assert prefix == [prefix[0]] + prefix[1..] && s == [s[0]] + s[1..];
        }
        if prefix <= s {
          assert prefix[1..] <= s[1..];
          assert prefix == [prefix[0]] + prefix[1..];
          assert s[|prefix|..] == s[1..][|prefix[1..]|..];
          assert Encode(s)[|prefix|..] == rest[|prefix[1..]|..];
        }
      } else {
        assert Encode(s)[0] == first[0];
      }
    }
  }

  /** to_valid_utf8_text: every surrogate becomes U+FFFD, after which encoding loses nothing. */
  function Sanitize(s: Text): (r: Text)
    ensures |r| == |s|
    ensures forall k :: 0 <= k < |s| ==> r[k] == if IsSurrogate(s[k]) then REPLACEMENT else s[k]
  {
    if s == [] then [] else [if IsSurrogate(s[0]) then REPLACEMENT else s[0]] + Sanitize(s[1..])
  }

  predicate AllCodePoints(s: Text) {
    forall k :: 0 <= k < |s| ==> s[k] < 0x110000
  }

  /** Sanitising commutes with slicing, so that offsets taken before it stay right. */
  lemma {:induction false} SanitizeSlice(s: Text, i: nat, j: nat)
    requires i <= j <= |s|
    ensures Sanitize(s[i..j]) == Sanitize(s)[i..j]
  {
    var a, b := Sanitize(s[i..j]), Sanitize(s)[i..j];
    forall k | 0 <= k < j - i
      ensures a[k] == b[k]
    {
      assert s[i..j][k] == s[i + k];
    }
  }

  lemma {:induction false} SanitizeScalar(s: Text)
    requires AllCodePoints(s)
    ensures AllScalar(Sanitize(s))
  {
  }

  /** What Go's runes are after Python sanitises, encodes and sends a text. */
  function Sent(s: Text): Text
    requires AllCodePoints(s)
  {
    SanitizeScalar(s);
    Encode(Sanitize(s))
  }

  lemma SentIsRead(s: Text)
    requires AllCodePoints(s)
    ensures Runes(Sent(s)) == Sanitize(s)
  {
    SanitizeScalar(s);
    EncodeIsRead(Sanitize(s));
  }
}
