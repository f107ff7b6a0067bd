/** The byte sizes of the stream reader are the lengths of the UTF-8 encoding of RFC 3629, section 3. */
module Utf8 {
  import opened Sse

  /** The bytes of one character: the lead byte tells how many follow, and each of those carries six bits. */
  function Encode(c: char): (bytes: seq<int>)
    ensures forall b | b in bytes :: 0 <= b < 256
  {
    var p := c as int;
    if p < 0x80 then [p]
    else if p < 0x800 then [0xC0 + p / 64, 0x80 + p % 64]
    else if p < 0x10000 then [0xE0 + p / 4096, 0x80 + p / 64 % 64, 0x80 + p % 64]
    else [0xF0 + p / 262144, 0x80 + p / 4096 % 64, 0x80 + p / 64 % 64, 0x80 + p % 64]
  }

  function EncodeAll(s: string): seq<int> {
    if s == "" then [] else Encode(s[0]) + EncodeAll(s[1..])
  }

  /** How many bytes a sequence with this lead byte has. */
  function Length(lead: int): nat {
    if lead < 0x80 then 1 else if lead < 0xE0 then 2 else if lead < 0xF0 then 3 else 4
  }

  /** The code point of the first character. */
  function DecodeFirst(bytes: seq<int>): int
    requires bytes != [] && Length(bytes[0]) <= |bytes|
  {
    match Length(bytes[0])
    case 1 => bytes[0]
    case 2 => (bytes[0] - 0xC0) * 64 + (bytes[1] - 0x80)
    case 3 => ((bytes[0] - 0xE0) * 64 + (bytes[1] - 0x80)) * 64 + (bytes[2] - 0x80)
    case _ => (((bytes[0] - 0xF0) * 64 + (bytes[1] - 0x80)) * 64 + (bytes[2] - 0x80)) * 64 + (bytes[3] - 0x80)
  }

  function Decode(bytes: seq<int>): seq<int>
    decreases |bytes|
  {
    if bytes == [] || |bytes| < Length(bytes[0]) then []
    else [DecodeFirst(bytes)] + Decode(bytes[Length(bytes[0])..])
  }

  function CodePoints(s: string): seq<int> {
    if s == "" then [] else [s[0] as int] + CodePoints(s[1..])
  }

  lemma FirstComesBack(c: char, rest: seq<int>)
    ensures var bytes := Encode(c) + rest;
            && |Encode(c)| == CharSize(c) == Length(bytes[0]) && |bytes| >= Length(bytes[0])
            && DecodeFirst(bytes) == c as int && bytes[|Encode(c)|..] == rest
  {
    var p, bytes := c as int, Encode(c) + rest;
    assert bytes[0] == Encode(c)[0];
    assert p / 64 / 64 == p / 4096 && p / 4096 / 64 == p / 262144;
  }

  /** A text has as many bytes as its encoding, and the encoding gives the text back. */
  lemma {:induction false} SizeIsEncodedLength(s: string)
    ensures Utf8Size(s) == |EncodeAll(s)|
    ensures Decode(EncodeAll(s)) == CodePoints(s)
  {
    hide Encode, DecodeFirst, CharSize, Length;
    if s != "" {
      SizeIsEncodedLength(s[1..]);
      FirstComesBack(s[0], EncodeAll(s[1..]));
    }
  }
}
