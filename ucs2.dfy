/**
  The text codec of the SIM800 "UCS2" character set: four hex digits per
  character (`ucs2_to_uft8` in src/parser.rs).
*/
module Ucs2 {

  import opened Streaming

  /** The 16-bit value of four hex digits. */
  function GroupValue(a: char, b: char, c: char, d: char): (v: nat)
    requires IsHexDigit(a) && IsHexDigit(b) && IsHexDigit(c) && IsHexDigit(d)
    ensures v < 0x1_0000
  {
    HexValue(a) * 0x1000 + HexValue(b) * 0x100 + HexValue(c) * 0x10 + HexValue(d)
  }

  /** Whether a 16-bit value is a Unicode scalar value (not a surrogate). */
  predicate IsScalar(v: nat) {
    v < 0xD800 || (0xE000 <= v < 0x11_0000)
  }

  /** The scalar values are exactly the code points up to 0x10FFFF outside the surrogates. */
  lemma ScalarRange(v: nat)
    ensures IsScalar(v) <==> v <= 0x10_FFFF && !(0xD800 <= v <= 0xDFFF)
  {
  }

  /** Whether the next four characters of `text` form a group of hex digits. */
  predicate HasGroup(text: string) {
    |text| >= 4 && IsHexDigit(text[0]) && IsHexDigit(text[1]) && IsHexDigit(text[2]) && IsHexDigit(text[3])
  }

  /**
    Decodes group after group; a group that is not a scalar value adds
    nothing, and decoding stops at the first place where four hex digits
    do not follow (so a trailing remainder is dropped).
  */
  function Decode(text: string): (r: string)
    ensures |r| <= |text| / 4
    decreases |text|
  {
    if !HasGroup(text) then []
    else
      var v := GroupValue(text[0], text[1], text[2], text[3]);
      var rest := Decode(text[4..]);
      if IsScalar(v) then [v as char] + rest else rest
  }

  /** `ucs2_to_uft8`: the loop of the source, pulling four characters per round. */
  method Ucs2ToUtf8(text: string) returns (result: string)
    ensures result == Decode(text)
  {
    result := [];
    var i := 0;
    while i + 4 <= |text| && HasGroup(text[i..])
      invariant 0 <= i <= |text|
      invariant result + Decode(text[i..]) == Decode(text)
      decreases |text| - i
    {
      var v := GroupValue(text[i], text[i + 1], text[i + 2], text[i + 3]);
      assert text[i..][4..] == text[i + 4..];
      if IsScalar(v) {
        result := result + [v as char];
      }
      i := i + 4;
    }
  }

  /** The hex digit of a value below 16, as the modem writes it (upper case). */
  function HexDigit(n: nat): (c: char)
    requires n < 16
    ensures IsHexDigit(c) && HexValue(c) == n
  {
    if n < 10 then ('0' as int + n) as char else ('A' as int + n - 10) as char
  }

  /** The four hex digits of a character of the Basic Multilingual Plane. */
  function EncodeChar(c: char): (g: string)
    requires c as int < 0x1_0000
    ensures |g| == 4 && HasGroup(g) && GroupValue(g[0], g[1], g[2], g[3]) == c as int
  {
    var v := c as int;
    var q1, d := v / 0x10, v % 0x10;
    var q2, c1 := q1 / 0x10, q1 % 0x10;
    var a, b := q2 / 0x10, q2 % 0x10;
    assert v == ((a * 0x10 + b) * 0x10 + c1) * 0x10 + d;
    [HexDigit(a), HexDigit(b), HexDigit(c1), HexDigit(d)]
  }

  predicate InBmp(text: string) {
    forall k :: 0 <= k < |text| ==> text[k] as int < 0x1_0000
  }

  /** The encoding the modem applies: four hex digits per character. */
  function Encode(text: string): (r: string)
    requires InBmp(text)
    ensures |r| == 4 * |text|
  {
    if text == [] then [] else EncodeChar(text[0]) + Encode(text[1..])
  }

  /**
    Decoding the encoding of a text of the Basic Multilingual Plane gives
    the text back, and a trailing remainder of fewer than four characters
    is dropped without effect.
  */
  lemma {:induction false} DecodeEncode(text: string, remainder: string)
    requires InBmp(text) && |remainder| < 4
    ensures Decode(Encode(text) + remainder) == text
  {
    if text == [] {
      assert Encode(text) + remainder == remainder;
    } else {
      var rest := Encode(text[1..]) + remainder;
      assert Encode(text) + remainder == EncodeChar(text[0]) + rest;
      EncodeCharDecodes(text[0], rest);
      DecodeEncode(text[1..], remainder);
    }
  }

  /** The group of one character decodes to that character, in front of whatever follows. */
  lemma EncodeCharDecodes(c: char, rest: string)
    requires c as int < 0x1_0000
    ensures Decode(EncodeChar(c) + rest) == [c] + Decode(rest)
  {
    var g := EncodeChar(c);
    assert (g + rest)[..4] == g;
    assert (g + rest)[4..] == rest;
    assert IsScalar(c as int);
  }

  /** A group that stands for a surrogate contributes nothing. */
  lemma SurrogateSkipped(group: string, rest: string)
    requires HasGroup(group) && |group| == 4
    requires 0xD800 <= GroupValue(group[0], group[1], group[2], group[3]) < 0xE000
    ensures Decode(group + rest) == Decode(rest)
  {
    assert (group + rest)[4..] == rest;
  }
}
