/** UTF-8 as used by the WHATWG URL Standard: the encoder that turns a string
    into bytes before percent-encoding, and the "UTF-8 decode without BOM"
    decoder (error mode "replacement") of the WHATWG Encoding Standard that
    turns percent-decoded bytes back into a string. */
module Utf8 {

  /** An octet. */
  type Byte = b: int | 0 <= b < 256

  /** U+FFFD REPLACEMENT CHARACTER, emitted for every maximal ill-formed subsequence. */
  const Replacement: char := '�'

  /** The UTF-8 encoding of one Unicode scalar value (RFC 3629, section 3). */
  function EncodeChar(c: char): (bs: seq<Byte>)
    ensures 1 <= |bs| <= 4
    ensures |bs| == 1 <==> c as int < 0x80
    ensures |bs| == 1 ==> bs[0] == c as int
  {
    var n := c as int;
    if n < 0x80 then [n]
    else if n < 0x800 then [0xC0 + n / 64, 0x80 + n % 64]
    else if n < 0x10000 then [0xE0 + n / 4096, 0x80 + (n / 64) % 64, 0x80 + n % 64]
    else [0xF0 + n / 262144, 0x80 + (n / 4096) % 64, 0x80 + (n / 64) % 64, 0x80 + n % 64]
  }

  /** The UTF-8 encoding of a string: the encodings of its characters, in order. */
  function Encode(s: string): (bs: seq<Byte>)
    ensures |bs| >= |s|
  {
    if s == [] then [] else EncodeChar(s[0]) + Encode(s[1..])
  }

  /** The WHATWG UTF-8 decoder in replacement mode, unrolled by lead byte.
      A lead byte fixes how many continuation bytes follow and the range the
      first of them must fall in (which excludes overlong forms, surrogates and
      values above U+10FFFF). On the first byte out of range, or at the end of
      input, one U+FFFD is emitted for the bytes consumed so far and decoding
      resumes AT the offending byte. */
  function Decode(bs: seq<Byte>): (s: string)
    ensures |s| <= |bs|
    decreases |bs|
  {
    if bs == [] then []
    else
      var b0: int := bs[0];
      if b0 < 0x80 then [b0 as char] + Decode(bs[1..])
      else if 0xC2 <= b0 <= 0xDF then
        if 2 <= |bs| && 0x80 <= bs[1] <= 0xBF then
          [((b0 - 0xC0) * 64 + (bs[1] as int - 0x80)) as char] + Decode(bs[2..])
        else [Replacement] + Decode(bs[1..])
      else if 0xE0 <= b0 <= 0xEF then
        var lower := if b0 == 0xE0 then 0xA0 else 0x80;
        var upper := if b0 == 0xED then 0x9F else 0xBF;
        if 2 <= |bs| && lower <= bs[1] <= upper then
          if 3 <= |bs| && 0x80 <= bs[2] <= 0xBF then
            [((b0 - 0xE0) * 4096 + (bs[1] as int - 0x80) * 64 + (bs[2] as int - 0x80)) as char] + Decode(bs[3..])
          else [Replacement] + Decode(bs[2..])
        else [Replacement] + Decode(bs[1..])
      else if 0xF0 <= b0 <= 0xF4 then
        var lower := if b0 == 0xF0 then 0x90 else 0x80;
        var upper := if b0 == 0xF4 then 0x8F else 0xBF;
        if 2 <= |bs| && lower <= bs[1] <= upper then
          if 3 <= |bs| && 0x80 <= bs[2] <= 0xBF then
            if 4 <= |bs| && 0x80 <= bs[3] <= 0xBF then
              [((b0 - 0xF0) * 262144 + (bs[1] as int - 0x80) * 4096 + (bs[2] as int - 0x80) * 64 + (bs[3] as int - 0x80)) as char]
                + Decode(bs[4..])
            else [Replacement] + Decode(bs[3..])
          else [Replacement] + Decode(bs[2..])
        else [Replacement] + Decode(bs[1..])
      else [Replacement] + Decode(bs[1..])
  }

  /** Decoding the encoding of one character consumes exactly its bytes. */
  lemma DecodeEncodeChar(c: char, rest: seq<Byte>)
    ensures Decode(EncodeChar(c) + rest) == [c] + Decode(rest)
  {
    var n := c as int;
    if n < 0x80 {
      assert (EncodeChar(c) + rest)[1..] == rest;
    } else if n < 0x800 {
      DecodeTwoBytes(c, rest);
    } else if n < 0x10000 {
      DecodeThreeBytes(c, rest);
    } else {
      DecodeFourBytes(c, rest);
    }
  }

  lemma DecodeTwoBytes(c: char, rest: seq<Byte>)
    requires 0x80 <= c as int < 0x800
    ensures Decode(EncodeChar(c) + rest) == [c] + Decode(rest)
  {
    var n := c as int;
    var b0, b1 := 0xC0 + n / 64, 0x80 + n % 64;
    var bs := EncodeChar(c) + rest;
    assert bs[0] == b0 && bs[1] == b1 && bs[2..] == rest;
    assert (b0 - 0xC0) * 64 + (b1 - 0x80) == n;
  }

  lemma DecodeThreeBytes(c: char, rest: seq<Byte>)
    requires 0x800 <= c as int < 0x10000
    ensures Decode(EncodeChar(c) + rest) == [c] + Decode(rest)
  {
    var n := c as int;
    var hi, mid, lo := n / 4096, (n / 64) % 64, n % 64;
    assert hi * 4096 + mid * 64 + lo == n;
    assert hi == 0 ==> mid >= 32;
    assert hi == 13 ==> mid < 32;
    var bs := EncodeChar(c) + rest;
    assert bs[0] == 0xE0 + hi && bs[1] == 0x80 + mid && bs[2] == 0x80 + lo && bs[3..] == rest;
  }

  lemma DecodeFourBytes(c: char, rest: seq<Byte>)
    requires 0x10000 <= c as int
    ensures Decode(EncodeChar(c) + rest) == [c] + Decode(rest)
  {
    var n := c as int;
    var top, hi, mid, lo := n / 262144, (n / 4096) % 64, (n / 64) % 64, n % 64;
    FourByteDigits(n);
    var bs := EncodeChar(c) + rest;
    assert bs[0] == 0xF0 + top && bs[1] == 0x80 + hi && bs[2] == 0x80 + mid && bs[3] == 0x80 + lo;
    assert bs[4..] == rest;
  }

  /** The four base-64 digits of a supplementary code point, with the ranges
      the decoder checks for its first continuation byte. */
  lemma FourByteDigits(n: int)
    requires 0x10000 <= n <= 0x10FFFF
    ensures var top, hi, mid, lo := n / 262144, (n / 4096) % 64, (n / 64) % 64, n % 64;
            && top * 262144 + hi * 4096 + mid * 64 + lo == n
            && 0 <= top <= 4
            && (top == 0 ==> hi >= 16)
            && (top == 4 ==> hi < 16)
  {
    var top, hi, mid, lo := n / 262144, (n / 4096) % 64, (n / 64) % 64, n % 64;
    assert top * 262144 + hi * 4096 + mid * 64 + lo == n;
  }

  /** Round trip: decoding the UTF-8 encoding of any string gives the string back. */
  lemma {:induction false} DecodeEncode(s: string)
    ensures Decode(Encode(s)) == s
  {
    if s != [] {
      DecodeEncodeChar(s[0], Encode(s[1..]));
      DecodeEncode(s[1..]);
    }
  }
}
