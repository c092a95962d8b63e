/** `url.QueryEscape` and `url.QueryUnescape`, the encoding every stored document goes through.
    Percent-encoding is as in section 2.1 of RFC 3986, with '+' standing for a space. */
module UrlEscape {
  import opened Common

  const PERCENT: Byte := 0x25
  const PLUS: Byte := 0x2B
  const SPACE: Byte := 0x20

  /** The unreserved characters: letters, digits, '-', '_', '.', '~'. */
  predicate Unreserved(b: Byte) {
    || 0x30 <= b <= 0x39 || 0x41 <= b <= 0x5A || 0x61 <= b <= 0x7A
    || b == 0x2D || b == 0x5F || b == 0x2E || b == 0x7E
  }

  function HexDigit(n: int): Byte
    requires 0 <= n < 16
  {
    if n < 10 then 0x30 + n else 0x41 + n - 10
  }

  /** The value of a hexadecimal digit in either case. */
  function HexValue(b: Byte): Option<int> {
    if 0x30 <= b <= 0x39 then Some(b - 0x30)
    else if 0x41 <= b <= 0x46 then Some(b - 0x41 + 10)
    else if 0x61 <= b <= 0x66 then Some(b - 0x61 + 10)
    else None
  }

  function EscapeByte(b: Byte): (r: Bytes)
    ensures |r| > 0
  {
    if b == SPACE then [PLUS]
    else if Unreserved(b) then [b]
    else [PERCENT, HexDigit(b / 16), HexDigit(b % 16)]
  }

  function QueryEscape(s: Bytes): Bytes {
    if s == [] then [] else EscapeByte(s[0]) + QueryEscape(s[1..])
  }

  /** None stands for the error of a '%' not followed by two hexadecimal digits. */
  function QueryUnescape(s: Bytes): Option<Bytes> {
    if s == [] then Some([])
    else if s[0] == PERCENT then
      if |s| < 3 || HexValue(s[1]) == None || HexValue(s[2]) == None then None
      else Prepend(16 * HexValue(s[1]).value + HexValue(s[2]).value, QueryUnescape(s[3..]))
    else Prepend(if s[0] == PLUS then SPACE else s[0], QueryUnescape(s[1..]))
  }

  function Prepend(b: int, rest: Option<Bytes>): Option<Bytes> {
    if rest == None || !(0 <= b < 256) then None else Some([b as Byte] + rest.value)
  }

  /** Whether a document reads the same stored raw as stored escaped. */
  predicate Plain(s: Bytes) {
    PERCENT !in s && PLUS !in s
  }

  /** Decoding takes one encoded byte off the front. */
  lemma UnescapeFirst(b: Byte, rest: Bytes)
    ensures QueryUnescape(EscapeByte(b) + rest) == Prepend(b, QueryUnescape(rest))
  {
    var e := EscapeByte(b) + rest;
    assert e[|EscapeByte(b)|..] == rest;
    if b != SPACE && !Unreserved(b) {
      assert e[0] == PERCENT && e[1] == HexDigit(b / 16) && e[2] == HexDigit(b % 16);
    }
  }

  /** Decoding undoes encoding, for every byte string. */
  lemma {:induction false} EscapeRoundTrip(s: Bytes)
    ensures QueryUnescape(QueryEscape(s)) == Some(s)
  {
    if s != [] {
      EscapeRoundTrip(s[1..]);
      UnescapeFirst(s[0], QueryEscape(s[1..]));
      assert s == [s[0]] + s[1..];
    }
  }

  /** A decoded string is never longer than its encoding. */
  lemma {:induction false} UnescapeShrinks(s: Bytes)
    ensures QueryUnescape(s).Some? ==> |QueryUnescape(s).value| <= |s|
    ensures QueryUnescape(s).Some? && PERCENT in s ==> |QueryUnescape(s).value| < |s|
  {
    if s != [] {
      if s[0] == PERCENT {
        if |s| >= 3 { UnescapeShrinks(s[3..]); }
      } else {
        UnescapeShrinks(s[1..]);
      }
    }
  }

  /** The exact documents that survive being stored raw and decoded on the way out. */
  lemma {:induction false} RawDocumentSurvives(s: Bytes)
    ensures QueryUnescape(s) == Some(s) <==> Plain(s)
  {
    UnescapeShrinks(s);
    if s != [] && s[0] != PERCENT {
      RawDocumentSurvives(s[1..]);
      UnescapeShrinks(s[1..]);
      assert s == [s[0]] + s[1..];
      if QueryUnescape(s) == Some(s) {
        var r := QueryUnescape(s[1..]);
        assert s[1..] == ([if s[0] == PLUS then SPACE else s[0]] + r.value)[1..] == r.value;
        assert s[0] == if s[0] == PLUS then SPACE else s[0];
      }
    }
  }

  /** Escaped text contains neither a space nor any reserved byte other than '%' and '+'. */
  lemma {:induction false} EscapeAlphabet(s: Bytes)
    ensures forall i :: 0 <= i < |QueryEscape(s)| ==>
      var b := QueryEscape(s)[i]; Unreserved(b) || b == PERCENT || b == PLUS
  {
    if s != [] { EscapeAlphabet(s[1..]); }
  }
}
