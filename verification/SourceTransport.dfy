/**
 * Sending the assembled text and its units to Go (docreader/main.py): the text travels sanitised
 * and UTF-8 encoded, the unit texts travel the same way inside a JSON string.
 */
module SourceTransport {
  import opened Basics
  import opened Utf8
  import opened SourceUnits

  const QUOTE: nat := 0x22
  const BACKSLASH: nat := 0x5C

  function HexDigit(d: nat): nat
    requires d < 16
  {
    if d < 10 then 0x30 + d else 0x61 + (d - 10)
  }

  function HexValue(c: nat): Option<nat> {
    if 0x30 <= c <= 0x39 then Some(c - 0x30)
    else if 0x61 <= c <= 0x66 then Some(c - 0x61 + 10)
    else if 0x41 <= c <= 0x46 then Some(c - 0x41 + 10)
    else None
  }

  /** The letter of a two-character escape, as json.dumps writes it. */
  function ShortEscape(c: nat): Option<nat> {
    if c == QUOTE then Some(QUOTE)
    else if c == BACKSLASH then Some(BACKSLASH)
    else if c == 0x08 then Some(0x62)
    else if c == 0x0C then Some(0x66)
    else if c == 0x0A then Some(0x6E)
    else if c == 0x0D then Some(0x72)
    else if c == 0x09 then Some(0x74)
    else None
  }

  /** One character inside a JSON string, with ensure_ascii off: only controls, quote and backslash are escaped. */
  function EscapeOne(c: nat): (r: Text)
    ensures r != []
  {
    match ShortEscape(c)
    case Some(letter) => [BACKSLASH, letter]
    case None =>
      if c < 0x20 then [BACKSLASH, 0x75, 0x30, 0x30, HexDigit(c / 16), HexDigit(c % 16)] else [c]
  }

  function Escape(s: Text): Text {
    if s == [] then [] else EscapeOne(s[0]) + Escape(s[1..])
  }

  /** What an escape letter stands for when Go decodes it. */
  function Meaning(letter: nat): Option<nat> {
    if letter == QUOTE || letter == BACKSLASH || letter == 0x2F then Some(letter)
    else if letter == 0x62 then Some(0x08)
    else if letter == 0x66 then Some(0x0C)
    else if letter == 0x6E then Some(0x0A)
    else if letter == 0x72 then Some(0x0D)
    else if letter == 0x74 then Some(0x09)
    else None
  }

  function FourHex(s: Text): Option<nat> {
    if |s| < 4 then None
    else
      match (HexValue(s[0]), HexValue(s[1]), HexValue(s[2]), HexValue(s[3]))
      case (Some(a), Some(b), Some(c), Some(d)) => Some(a * 4096 + b * 256 + c * 16 + d)
      case _ => None
  }

  /** The characters of a JSON string's inside, or nothing when it is malformed. */
  function Unescape(s: Text): Option<Text>
    decreases |s|
  {
    if s == [] then Some([])
    else if s[0] != BACKSLASH then Prepend(s[0], Unescape(s[1..]))
    else if |s| < 2 then None
    else if s[1] == 0x75 then
      match FourHex(s[2..])
      case None => None
      case Some(c) => Prepend(c, Unescape(s[6..]))
    else
      match Meaning(s[1])
      case None => None
      case Some(c) => Prepend(c, Unescape(s[2..]))
  }

  function Prepend(c: nat, r: Option<Text>): Option<Text> {
    match r
    case None => None
    case Some(t) => Some([c] + t)
  }

  lemma EscapeOneIsRead(c: nat, rest: Text)
    ensures Unescape(EscapeOne(c) + rest) == Prepend(c, Unescape(rest))
  {
    var e := EscapeOne(c);
    var s := e + rest;
    if ShortEscape(c).Some? {
      assert s[0] == BACKSLASH && s[1] == ShortEscape(c).value;
      assert Meaning(s[1]) == Some(c);
      assert s[2..] == rest;
    } else if c < 0x20 {
      assert s[0] == BACKSLASH && s[1] == 0x75 && s[6..] == rest;
      var h := s[2..];
      assert h[0] == 0x30 && h[1] == 0x30 && h[2] == HexDigit(c / 16) && h[3] == HexDigit(c % 16);
      assert HexValue(h[0]) == Some(0) && HexValue(h[2]) == Some(c / 16) && HexValue(h[3]) == Some(c % 16);
      assert FourHex(h) == Some(c / 16 * 16 + c % 16);
    } else {
      assert s[0] == c && s[1..] == rest;
    }
  }

  /** A JSON string decodes to the characters it was written from. */
  lemma {:induction false} EscapeIsRead(s: Text)
    ensures Unescape(Escape(s)) == Some(s)
  {
    if s != [] {
      EscapeIsRead(s[1..]);
      EscapeOneIsRead(s[0], Escape(s[1..]));
      assert s == [s[0]] + s[1..];
    }
  }

  lemma {:induction false} SanitizeAppend(a: Text, b: Text)
    ensures Sanitize(a + b) == Sanitize(a) + Sanitize(b)
  {
    if a == [] {
      assert a + b == b;
    } else {
      assert (a + b)[1..] == a[1..] + b;
      SanitizeAppend(a[1..], b);
    }
  }

  lemma SanitizeEscapeOne(c: nat)
    ensures Sanitize(EscapeOne(c)) == EscapeOne(if IsSurrogate(c) then REPLACEMENT else c)
  {
  }

  /** Sanitising a JSON string is the same as writing the JSON string of the sanitised text. */
  lemma {:induction false} SanitizeEscape(s: Text)
    ensures Sanitize(Escape(s)) == Escape(Sanitize(s))
  {
    if s != [] {
      SanitizeEscape(s[1..]);
      SanitizeEscapeOne(s[0]);
      SanitizeAppend(EscapeOne(s[0]), Escape(s[1..]));
      assert Sanitize(s)[1..] == Sanitize(s[1..]);
    }
  }

  lemma {:induction false} EscapeCodePoints(s: Text)
    requires AllCodePoints(s)
    ensures AllCodePoints(Escape(s))
  {
    if s != [] {
      EscapeCodePoints(s[1..]);
    }
  }

  /** The text of a unit as Go decodes it from the JSON string it was sent in. */
  function ReceivedText(text: Text): Option<Text>
    requires AllCodePoints(text)
  {
    EscapeCodePoints(text);
    Unescape(Runes(Sent(Escape(text))))
  }

  lemma ReceivedTextIsSanitized(text: Text)
    requires AllCodePoints(text)
    ensures ReceivedText(text) == Some(Sanitize(text))
  {
    EscapeCodePoints(text);
    SentIsRead(Escape(text));
    SanitizeEscape(text);
    EscapeIsRead(Sanitize(text));
  }

  /**
   * Offsets computed before sanitising stay right after it: for every unit, the runes Go finds in
   * the unit's range of the received document are the text Go received for the unit.
   */
  lemma RangesSurviveTransport(blocks: seq<Block>, u: Unit)
    requires AllCodePoints(Joined(blocks)) && u in Units(blocks)
    ensures u.sourceStart <= u.sourceEnd <= |Runes(Sent(Joined(blocks)))|
    ensures AllCodePoints(u.text)
    ensures ReceivedText(u.text) == Some(Runes(Sent(Joined(blocks)))[u.sourceStart..u.sourceEnd])
  {
    assert Exact(u, Joined(blocks)) by { UnitsExact(blocks); }
    SliceSurvives(Joined(blocks), u.sourceStart, u.sourceEnd);
  }

  lemma SliceSurvives(text: Text, i: nat, j: nat)
    requires AllCodePoints(text) && i <= j <= |text|
    ensures |Runes(Sent(text))| == |text| && AllCodePoints(text[i..j])
    ensures ReceivedText(text[i..j]) == Some(Runes(Sent(text))[i..j])
  {
    SentIsRead(text);
    SanitizeSlice(text, i, j);
    ReceivedTextIsSanitized(text[i..j]);
  }
}
