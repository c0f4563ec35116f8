/** The application/x-www-form-urlencoded format of the WHATWG URL Standard
    (section 5): the serializer behind `URLSearchParams.toString()` and the
    parser behind `new URLSearchParams(string)`. Both work on ordered lists of
    name/value pairs. */
module FormUrlEncoded {
  import Utf8

  /** One name/value pair of a query string or form body. */
  datatype Pair = Pair(name: string, value: string)

  // ---------------------------------------------------------------------
  // Serializer (WHATWG URL Standard, section 5.2)
  // ---------------------------------------------------------------------

  /** The code points that the application/x-www-form-urlencoded percent-encode
      set leaves alone: ASCII alphanumerics and `*`, `-`, `.`, `_`. */
  predicate IsUnescaped(c: char) {
    ('a' <= c <= 'z') || ('A' <= c <= 'Z') || ('0' <= c <= '9') || c == '*' || c == '-' || c == '.' || c == '_'
  }

  /** The characters a serialized component is made of. */
  predicate IsEncodedChar(c: char) {
    IsUnescaped(c) || c == '+' || c == '%'
  }

  predicate IsHexDigit(c: char) {
    ('0' <= c <= '9') || ('A' <= c <= 'F') || ('a' <= c <= 'f')
  }

  /** An ASCII upper hex digit, as the percent-encoder writes it. */
  function HexDigit(n: nat): (c: char)
    requires n < 16
    ensures IsHexDigit(c) && IsUnescaped(c)
  {
    if n < 10 then ('0' as int + n) as char else ('A' as int + n - 10) as char
  }

  /** The value of a hex digit in either case, as the percent-decoder reads it. */
  function HexValue(c: char): (n: nat)
    requires IsHexDigit(c)
    ensures n < 16
  {
    if '0' <= c <= '9' then c as int - '0' as int
    else if 'A' <= c <= 'F' then c as int - 'A' as int + 10
    else c as int - 'a' as int + 10
  }

  /** Reading back a written hex digit gives its value. */
  lemma HexRoundTrip(n: nat)
    requires n < 16
    ensures HexValue(HexDigit(n)) == n
  {
  }

  /** `%XY` for every byte. */
  function PercentEncodeBytes(bs: seq<Utf8.Byte>): (s: string)
    ensures |s| == 3 * |bs|
    ensures forall c | c in s :: IsEncodedChar(c) && c != '+'
  {
    if bs == [] then ""
    else ['%', HexDigit(bs[0] / 16), HexDigit(bs[0] % 16)] + PercentEncodeBytes(bs[1..])
  }

  /** Percent-encoding of one code point with space-as-plus: a space becomes
      `+`, an unescaped code point stays, every other one becomes `%XY` per
      byte of its UTF-8 encoding. */
  function EncodeChar(c: char): (s: string)
    ensures s != [] && forall d | d in s :: IsEncodedChar(d)
  {
    if c == ' ' then "+"
    else if IsUnescaped(c) then [c]
    else PercentEncodeBytes(Utf8.EncodeChar(c))
  }

  /** The urlencoded form of a name or a value. It never contains `&`, `=`,
      `?` or `#`, so it cannot be confused with the separators around it. */
  function Encode(s: string): (r: string)
    ensures forall c | c in r :: IsEncodedChar(c)
    ensures s == [] <==> r == []
  {
    if s == [] then "" else EncodeChar(s[0]) + Encode(s[1..])
  }

  function SerializePair(p: Pair): (s: string) {
    Encode(p.name) + "=" + Encode(p.value)
  }

  /** The serializer: every pair as `name=value`, joined by `&`. */
  function Serialize(ps: seq<Pair>): (s: string)
    ensures ps == [] <==> s == []
    ensures '?' !in s && '#' !in s
  {
    if ps == [] then ""
    else if |ps| == 1 then SerializePair(ps[0])
    else SerializePair(ps[0]) + "&" + Serialize(ps[1..])
  }

  // ---------------------------------------------------------------------
  // Parser (WHATWG URL Standard, section 5.1)
  // ---------------------------------------------------------------------

  /** Index of the first occurrence of `c` in `s`. */
  function IndexOf(s: string, c: char): (i: nat)
    requires c in s
    ensures i < |s| && s[i] == c && c !in s[..i]
  {
    if s[0] == c then 0 else 1 + IndexOf(s[1..], c)
  }

  /** Splitting on a delimiter, as JavaScript's `String.prototype.split` with a
      one-character separator does: always at least one piece, and as many
      pieces as there are delimiters plus one. */
  function Split(s: string, d: char): (parts: seq<string>)
    ensures |parts| >= 1
    ensures forall k | 0 <= k < |parts| :: d !in parts[k]
    decreases |s|
  {
    if d in s then
      var i := IndexOf(s, d);
      [s[..i]] + Split(s[i + 1..], d)
    else [s]
  }

  function PlusToSpace(s: string): (r: string)
    ensures |r| == |s|
    ensures forall k | 0 <= k < |s| :: r[k] == if s[k] == '+' then ' ' else s[k]
  {
    if s == [] then "" else [if s[0] == '+' then ' ' else s[0]] + PlusToSpace(s[1..])
  }

  /** Percent-decoding of the UTF-8 encoding of `s`: `%XY` with two hex digits
      becomes the byte XY, everything else (a stray `%` included) stands for
      its own UTF-8 bytes. */
  function PercentDecode(s: string): (bs: seq<Utf8.Byte>) {
    if s == [] then []
    else if s[0] == '%' && 3 <= |s| && IsHexDigit(s[1]) && IsHexDigit(s[2]) then
      [HexValue(s[1]) * 16 + HexValue(s[2])] + PercentDecode(s[3..])
    else Utf8.EncodeChar(s[0]) + PercentDecode(s[1..])
  }

  /** A name or a value: `+` as space, then percent-decoding, then UTF-8
      decoding without BOM. */
  function DecodeComponent(s: string): (r: string) {
    Utf8.Decode(PercentDecode(PlusToSpace(s)))
  }

  /** One non-empty `&`-separated sequence: split at the first `=`; without
      one, the whole sequence is the name and the value is empty. */
  function ParsePair(bytes: string): (p: Pair) {
    if '=' in bytes then
      var i := IndexOf(bytes, '=');
      Pair(DecodeComponent(bytes[..i]), DecodeComponent(bytes[i + 1..]))
    else Pair(DecodeComponent(bytes), "")
  }

  function ParseSequences(sequences: seq<string>): (ps: seq<Pair>)
    ensures |ps| <= |sequences|
  {
    if sequences == [] then []
    else if sequences[0] == "" then ParseSequences(sequences[1..])
    else [ParsePair(sequences[0])] + ParseSequences(sequences[1..])
  }

  /** The parser: split on `&`, skip empty sequences, parse the rest in order. */
  function Parse(s: string): (ps: seq<Pair>) {
    ParseSequences(Split(s, '&'))
  }

  // ---------------------------------------------------------------------
  // Round trip
  // ---------------------------------------------------------------------

  /** In `a + [d] + b` with no `d` in `a`, the first `d` sits right after `a`. */
  lemma IndexOfAfter(a: string, d: char, b: string)
    requires d !in a
    ensures IndexOf(a + [d] + b, d) == |a|
  {
    assert (a + [d] + b)[|a|] == d;
  }

  /** A prefix free of the delimiter is the first piece. */
  lemma SplitAt(a: string, d: char, b: string)
    requires d !in a
    ensures Split(a + [d] + b, d) == [a] + Split(b, d)
  {
    var s := a + [d] + b;
    IndexOfAfter(a, d, b);
    assert s[..|a|] == a && s[|a| + 1..] == b;
  }

  /** One `%XY` triple decodes to its byte. */
  lemma PercentDecodeTriple(b: Utf8.Byte, rest: string)
    ensures PercentDecode(['%', HexDigit(b / 16), HexDigit(b % 16)] + rest) == [b] + PercentDecode(rest)
  {
    var s := ['%', HexDigit(b / 16), HexDigit(b % 16)] + rest;
    HexRoundTrip(b / 16);
    HexRoundTrip(b % 16);
    assert s[3..] == rest;
  }

  lemma {:induction false} PercentDecodeBytes(bs: seq<Utf8.Byte>, rest: string)
    ensures PercentDecode(PercentEncodeBytes(bs) + rest) == bs + PercentDecode(rest)
  {
    if bs == [] {
      assert PercentEncodeBytes(bs) + rest == rest;
    } else {
      PercentDecodeFirstByte(bs, rest);
      PercentDecodeBytes(bs[1..], rest);
      ConsAppend(bs, PercentDecode(rest));
    }
  }

  /** Putting the head of a non-empty sequence back in front of its tail. */
  lemma ConsAppend<T>(s: seq<T>, t: seq<T>)
    requires s != []
    ensures [s[0]] + (s[1..] + t) == s + t
  {
    assert [s[0]] + s[1..] == s;
  }

  /** The first `%XY` triple of an encoded byte sequence decodes to its first byte. */
  lemma PercentDecodeFirstByte(bs: seq<Utf8.Byte>, rest: string)
    requires bs != []
    ensures PercentDecode(PercentEncodeBytes(bs) + rest) == [bs[0]] + PercentDecode(PercentEncodeBytes(bs[1..]) + rest)
  {
    var tail := PercentEncodeBytes(bs[1..]) + rest;
    assert PercentEncodeBytes(bs) + rest == ['%', HexDigit(bs[0] / 16), HexDigit(bs[0] % 16)] + tail;
    PercentDecodeTriple(bs[0], tail);
  }

  lemma PlusToSpaceAppend(a: string, b: string)
    ensures PlusToSpace(a + b) == PlusToSpace(a) + PlusToSpace(b)
  {
  }

  lemma PlusToSpaceWithoutPlus(s: string)
    requires '+' !in s
    ensures PlusToSpace(s) == s
  {
  }

  /** One encoded code point decodes to the UTF-8 bytes of that code point. */
  lemma PercentDecodeEncodeChar(c: char, rest: string)
    ensures PercentDecode(PlusToSpace(EncodeChar(c)) + rest) == Utf8.EncodeChar(c) + PercentDecode(rest)
  {
    if c == ' ' {
      assert ([' '] + rest)[1..] == rest;
    } else if IsUnescaped(c) {
      assert ([c] + rest)[1..] == rest;
    } else {
      PlusToSpaceWithoutPlus(EncodeChar(c));
      PercentDecodeBytes(Utf8.EncodeChar(c), rest);
    }
  }

  lemma {:induction false} PercentDecodeEncode(s: string)
    ensures PercentDecode(PlusToSpace(Encode(s))) == Utf8.Encode(s)
  {
    if s != [] {
      PlusToSpaceAppend(EncodeChar(s[0]), Encode(s[1..]));
      PercentDecodeEncodeChar(s[0], PlusToSpace(Encode(s[1..])));
      PercentDecodeEncode(s[1..]);
    }
  }

  /** Any name or value survives serialization and parsing unchanged. */
  lemma DecodeEncode(s: string)
    ensures DecodeComponent(Encode(s)) == s
  {
    PercentDecodeEncode(s);
    Utf8.DecodeEncode(s);
  }

  lemma ParseSerializePair(p: Pair)
    ensures SerializePair(p) != ""
    ensures ParsePair(SerializePair(p)) == p
  {
    var a, b := Encode(p.name), Encode(p.value);
    var s := SerializePair(p);
    assert s == a + ['='] + b;
    assert '=' !in a;
    IndexOfAfter(a, '=', b);
    assert s[..|a|] == a && s[|a| + 1..] == b;
    DecodeEncode(p.name);
    DecodeEncode(p.value);
  }

  /** The serialized pairs, one string each. */
  function Pieces(ps: seq<Pair>): (pieces: seq<string>)
    ensures |pieces| == |ps|
  {
    if ps == [] then [] else [SerializePair(ps[0])] + Pieces(ps[1..])
  }

  /** The pieces of a serialized list are the serialized pairs. */
  lemma {:induction false} SplitSerialize(ps: seq<Pair>)
    requires ps != []
    ensures Split(Serialize(ps), '&') == Pieces(ps)
  {
    var first := SerializePair(ps[0]);
    assert '&' !in first by {
      assert first == Encode(ps[0].name) + "=" + Encode(ps[0].value);
    }
    if |ps| == 1 {
    } else {
      SplitAt(first, '&', Serialize(ps[1..]));
      SplitSerialize(ps[1..]);
    }
  }

  lemma {:induction false} ParseSerializedPieces(ps: seq<Pair>)
    ensures ParseSequences(Pieces(ps)) == ps
  {
    if ps != [] {
      ParseSerializePair(ps[0]);
      assert Pieces(ps)[1..] == Pieces(ps[1..]);
      ParseSerializedPieces(ps[1..]);
    }
  }

  /** Round trip: parsing a serialized list gives back the same pairs, in the
      same order, whatever Unicode scalar values the names and values hold. */
  lemma ParseSerialize(ps: seq<Pair>)
    ensures Parse(Serialize(ps)) == ps
  {
    if ps != [] {
      SplitSerialize(ps);
      ParseSerializedPieces(ps);
    }
  }
}
