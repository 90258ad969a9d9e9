/**
 * Standard base32 (RFC 4648, section 6), as Go's `base32.StdEncoding` writes
 * it, for inputs made of whole 5-byte groups: such inputs need no padding.
 */
module Base32 {
  import Base64

  type byte = Base64.byte
  type quint = v: int | 0 <= v < 32

  /** The alphabet A-Z 2-7. */
  predicate InAlphabet(c: char) { 'A' <= c <= 'Z' || '2' <= c <= '7' }

  function CharOf(v: quint): (c: char)
    ensures InAlphabet(c)
  {
    if v < 26 then ('A' as int + v) as char else ('2' as int + (v - 26)) as char
  }

  /** Five bytes (40 bits) as eight 5-bit characters, most significant bits first. */
  function EncodeGroup(b0: byte, b1: byte, b2: byte, b3: byte, b4: byte): string
  {
    [CharOf(b0 / 8), CharOf((b0 % 8) * 4 + b1 / 64), CharOf((b1 / 2) % 32),
     CharOf((b1 % 2) * 16 + b2 / 16), CharOf((b2 % 16) * 2 + b3 / 128),
     CharOf((b3 / 4) % 32), CharOf((b3 % 4) * 8 + b4 / 32), CharOf(b4 % 32)]
  }

  /** A non-empty run of whole groups holds a first group and whole groups after it. */
  lemma GroupsLeft(n: nat)
    requires n % 5 == 0 && n > 0
    ensures n >= 5 && (n - 5) % 5 == 0
    ensures (n - 5) / 5 * 8 + 8 == n / 5 * 8 && (n / 5 * 8) % 8 == 0
  {
    var k := n / 5;
    assert n == 5 * k;
    assert (n - 5) / 5 == k - 1;
  }

  /** `EncodeToString` on whole groups: 8 characters per 5 bytes, all from the alphabet. */
  function Encode(b: seq<byte>): (s: string)
    requires |b| % 5 == 0
    ensures |s| == |b| / 5 * 8 && |s| % 8 == 0
    ensures forall i :: 0 <= i < |s| ==> InAlphabet(s[i])
    decreases |b|
  {
    if |b| == 0 then []
    else
      GroupsLeft(|b|);
      EncodeGroup(b[0], b[1], b[2], b[3], b[4]) + Encode(b[5..])
  }

  /** The 5-bit value a character of the alphabet stands for. */
  function ValueOf(c: char): (v: quint)
    requires InAlphabet(c)
    ensures CharOf(v) == c
  {
    if 'A' <= c <= 'Z' then c as int - 'A' as int else c as int - '2' as int + 26
  }

  lemma ValueOfCharOf(v: quint)
    ensures ValueOf(CharOf(v)) == v
  {
  }

  /** Eight characters back to the five bytes they carry. */
  function DecodeGroup(v0: quint, v1: quint, v2: quint, v3: quint, v4: quint, v5: quint, v6: quint, v7: quint): seq<byte>
  {
    [v0 * 8 + v1 / 4, (v1 % 4) * 64 + v2 * 2 + v3 / 16, (v3 % 16) * 16 + v4 / 2,
     (v4 % 2) * 128 + v5 * 4 + v6 / 8, (v6 % 8) * 32 + v7]
  }

  /** The inverse of `Encode` on whole groups of the alphabet. */
  function Decode(s: string): (b: seq<byte>)
    requires |s| % 8 == 0
    requires forall i :: 0 <= i < |s| ==> InAlphabet(s[i])
    ensures |b| == |s| / 8 * 5
    decreases |s|
  {
    if |s| == 0 then []
    else
      DecodeGroup(ValueOf(s[0]), ValueOf(s[1]), ValueOf(s[2]), ValueOf(s[3]),
                  ValueOf(s[4]), ValueOf(s[5]), ValueOf(s[6]), ValueOf(s[7]))
      + Decode(s[8..])
  }

  /** Each byte is rebuilt from the characters its bits were spread over. */
  lemma Byte0(b0: byte, b1: byte)
    ensures (b0 / 8) * 8 + ((b0 % 8) * 4 + b1 / 64) / 4 == b0
  {
    assert ((b0 % 8) * 4 + b1 / 64) / 4 == b0 % 8;
  }

  lemma Byte1(b0: byte, b1: byte, b2: byte)
    ensures (((b0 % 8) * 4 + b1 / 64) % 4) * 64 + ((b1 / 2) % 32) * 2 + ((b1 % 2) * 16 + b2 / 16) / 16 == b1
  {
    assert ((b0 % 8) * 4 + b1 / 64) % 4 == b1 / 64;
    assert ((b1 % 2) * 16 + b2 / 16) / 16 == b1 % 2;
  }

  lemma Byte2(b1: byte, b2: byte, b3: byte)
    ensures (((b1 % 2) * 16 + b2 / 16) % 16) * 16 + ((b2 % 16) * 2 + b3 / 128) / 2 == b2
  {
    assert ((b1 % 2) * 16 + b2 / 16) % 16 == b2 / 16;
    assert ((b2 % 16) * 2 + b3 / 128) / 2 == b2 % 16;
  }

  lemma Byte3(b2: byte, b3: byte, b4: byte)
    ensures (((b2 % 16) * 2 + b3 / 128) % 2) * 128 + ((b3 / 4) % 32) * 4 + ((b3 % 4) * 8 + b4 / 32) / 8 == b3
  {
    assert ((b2 % 16) * 2 + b3 / 128) % 2 == b3 / 128;
    assert ((b3 % 4) * 8 + b4 / 32) / 8 == b3 % 4;
  }

  lemma Byte4(b3: byte, b4: byte)
    ensures (((b3 % 4) * 8 + b4 / 32) % 8) * 32 + b4 % 32 == b4
  {
    assert ((b3 % 4) * 8 + b4 / 32) % 8 == b4 / 32;
  }

  /** The five bytes of a group come back from its eight 5-bit values. */
  lemma DecodeGroupValues(b0: byte, b1: byte, b2: byte, b3: byte, b4: byte)
    ensures DecodeGroup(b0 / 8, (b0 % 8) * 4 + b1 / 64, (b1 / 2) % 32, (b1 % 2) * 16 + b2 / 16,
                        (b2 % 16) * 2 + b3 / 128, (b3 / 4) % 32, (b3 % 4) * 8 + b4 / 32, b4 % 32)
            == [b0, b1, b2, b3, b4]
  {
    Byte0(b0, b1);
    Byte1(b0, b1, b2);
    Byte2(b1, b2, b3);
    Byte3(b2, b3, b4);
    Byte4(b3, b4);
  }

  lemma DecodeEncodeGroup(b0: byte, b1: byte, b2: byte, b3: byte, b4: byte)
    ensures var s := EncodeGroup(b0, b1, b2, b3, b4);
            DecodeGroup(ValueOf(s[0]), ValueOf(s[1]), ValueOf(s[2]), ValueOf(s[3]),
                        ValueOf(s[4]), ValueOf(s[5]), ValueOf(s[6]), ValueOf(s[7])) == [b0, b1, b2, b3, b4]
  {
    var s := EncodeGroup(b0, b1, b2, b3, b4);
    ValueOfCharOf(b0 / 8);
    ValueOfCharOf((b0 % 8) * 4 + b1 / 64);
    ValueOfCharOf((b1 / 2) % 32);
    ValueOfCharOf((b1 % 2) * 16 + b2 / 16);
    ValueOfCharOf((b2 % 16) * 2 + b3 / 128);
    ValueOfCharOf((b3 / 4) % 32);
    ValueOfCharOf((b3 % 4) * 8 + b4 / 32);
    ValueOfCharOf(b4 % 32);
    DecodeGroupValues(b0, b1, b2, b3, b4);
  }

  /** `Decode` takes one group off the front. */
  lemma DecodeCons(g: string, rest: string)
    requires |g| == 8 && |rest| % 8 == 0
    requires forall i :: 0 <= i < |g| ==> InAlphabet(g[i])
    requires forall i :: 0 <= i < |rest| ==> InAlphabet(rest[i])
    ensures |g + rest| % 8 == 0
    ensures Decode(g + rest) ==
              DecodeGroup(ValueOf(g[0]), ValueOf(g[1]), ValueOf(g[2]), ValueOf(g[3]),
                          ValueOf(g[4]), ValueOf(g[5]), ValueOf(g[6]), ValueOf(g[7])) + Decode(rest)
  {
    var s := g + rest;
    assert |s| == |rest| + 8;
    assert s[8..] == rest;
  }

  lemma FirstGroup(b: seq<byte>)
    requires |b| >= 5
    ensures b == [b[0], b[1], b[2], b[3], b[4]] + b[5..]
  {
  }

  /** Round trip: decoding what `Encode` wrote gives the bytes back. */
  lemma {:induction false} DecodeEncode(b: seq<byte>)
    requires |b| % 5 == 0
    ensures Decode(Encode(b)) == b
    decreases |b|
  {
    if |b| > 0 {
      GroupsLeft(|b|);
      var g := EncodeGroup(b[0], b[1], b[2], b[3], b[4]);
      var rest := Encode(b[5..]);
      DecodeCons(g, rest);
      DecodeEncodeGroup(b[0], b[1], b[2], b[3], b[4]);
      DecodeEncode(b[5..]);
      FirstGroup(b);
    }
  }

  /** Distinct byte strings of whole groups have distinct encodings. */
  lemma EncodeInjective(a: seq<byte>, b: seq<byte>)
    requires |a| % 5 == 0 && |b| % 5 == 0
    ensures Encode(a) == Encode(b) <==> a == b
  {
    if Encode(a) == Encode(b) {
      DecodeEncode(a);
      DecodeEncode(b);
    }
  }
}
