/**
 * Standard padded base64 (RFC 4648, section 4), as Go's `base64.StdEncoding`
 * encodes and decodes it: the alphabet A-Z a-z 0-9 + /, `=` padding, carriage
 * returns and line feeds skipped anywhere in the input, non-zero trailing bits
 * of the last quantum accepted and dropped.
 */
module Base64 {
  import opened Wrappers

  type byte = b: int | 0 <= b < 256
  type sextet = v: int | 0 <= v < 64

  const Pad: char := '='

  /** The alphabet character for a 6-bit value. */
  function CharOf(v: sextet): (c: char)
    ensures c != Pad && c != '\n' && c != '\r'
  {
    if v < 26 then ('A' as int + v) as char
    else if v < 52 then ('a' as int + (v - 26)) as char
    else if v < 62 then ('0' as int + (v - 52)) as char
    else if v == 62 then '+'
    else '/'
  }

  /** The 6-bit value of an alphabet character; None for any other character. */
  function ValueOf(c: char): (r: Option<sextet>)
  {
    if 'A' <= c <= 'Z' then Some(c as int - 'A' as int)
    else if 'a' <= c <= 'z' then Some(c as int - 'a' as int + 26)
    else if '0' <= c <= '9' then Some(c as int - '0' as int + 52)
    else if c == '+' then Some(62)
    else if c == '/' then Some(63)
    else None
  }

  lemma ValueOfCharOf(v: sextet)
    ensures ValueOf(CharOf(v)) == Some(v)
  {
  }

  /** Three bytes as four alphabet characters. */
  function EncodeQuantum(b0: byte, b1: byte, b2: byte): string
  {
    [CharOf(b0 / 4), CharOf((b0 % 4) * 16 + b1 / 16), CharOf((b1 % 16) * 4 + b2 / 64), CharOf(b2 % 64)]
  }

  /** `EncodeToString`: every 3 bytes become 4 characters; a final 1 or 2 bytes are padded with `=`. */
  function Encode(b: seq<byte>): (s: string)
    ensures |s| == 4 * ((|b| + 2) / 3)
    ensures forall i :: 0 <= i < |s| ==> s[i] != '\n' && s[i] != '\r'
    decreases |b|
  {
    if |b| == 0 then []
    else if |b| == 1 then [CharOf(b[0] / 4), CharOf((b[0] % 4) * 16), Pad, Pad]
    else if |b| == 2 then [CharOf(b[0] / 4), CharOf((b[0] % 4) * 16 + b[1] / 16), CharOf((b[1] % 16) * 4), Pad]
    else EncodeQuantum(b[0], b[1], b[2]) + Encode(b[3..])
  }

  /** The decoder skips carriage returns and line feeds wherever they occur. */
  function StripNewlines(s: string): (t: string)
    ensures |t| <= |s|
    ensures forall i :: 0 <= i < |t| ==> t[i] != '\n' && t[i] != '\r'
  {
    if s == [] then []
    else if s[0] == '\n' || s[0] == '\r' then StripNewlines(s[1..])
    else [s[0]] + StripNewlines(s[1..])
  }

  /** Decodes whole quanta; padding may appear only in the last one, as `xx==` or `xxx=`. */
  function DecodeQuanta(s: string): Option<seq<byte>>
    requires |s| % 4 == 0
    decreases |s|
  {
    if |s| == 0 then Some([])
    else
      var v0, v1, v2, v3 := ValueOf(s[0]), ValueOf(s[1]), ValueOf(s[2]), ValueOf(s[3]);
      if v0.None? || v1.None? then None
      else if |s| == 4 && s[2] == Pad && s[3] == Pad then
        Some([v0.value * 4 + v1.value / 16])
      else if |s| == 4 && v2.Some? && s[3] == Pad then
        Some([v0.value * 4 + v1.value / 16, (v1.value % 16) * 16 + v2.value / 4])
      else if v2.None? || v3.None? then None
      else
        match DecodeQuanta(s[4..])
        case None => None
        case Some(rest) =>
          Some([v0.value * 4 + v1.value / 16, (v1.value % 16) * 16 + v2.value / 4, (v2.value % 4) * 64 + v3.value] + rest)
  }

  /** `DecodeString`: None is Go's `CorruptInputError`. */
  function Decode(s: string): Option<seq<byte>>
  {
    var t := StripNewlines(s);
    if |t| % 4 != 0 then None else DecodeQuanta(t)
  }

  /** Stripping is the identity on text without carriage returns or line feeds. */
  lemma {:induction false} StripNewlinesIdentity(s: string)
    requires forall i :: 0 <= i < |s| ==> s[i] != '\n' && s[i] != '\r'
    ensures StripNewlines(s) == s
    decreases |s|
  {
    if s != [] {
      StripNewlinesIdentity(s[1..]);
      assert [s[0]] + s[1..] == s;
    }
  }

  lemma QuantumRoundTrip(b0: byte, b1: byte, b2: byte)
    ensures (b0 / 4) * 4 + ((b0 % 4) * 16 + b1 / 16) / 16 == b0
    ensures (((b0 % 4) * 16 + b1 / 16) % 16) * 16 + ((b1 % 16) * 4 + b2 / 64) / 4 == b1
    ensures (((b1 % 16) * 4 + b2 / 64) % 4) * 64 + b2 % 64 == b2
  {
    assert ((b0 % 4) * 16 + b1 / 16) / 16 == b0 % 4;
    assert ((b0 % 4) * 16 + b1 / 16) % 16 == b1 / 16;
    assert ((b1 % 16) * 4 + b2 / 64) / 4 == b1 % 16;
    assert ((b1 % 16) * 4 + b2 / 64) % 4 == b2 / 64;
  }

  lemma DecodeOneByte(b0: byte)
    ensures DecodeQuanta([CharOf(b0 / 4), CharOf((b0 % 4) * 16), Pad, Pad]) == Some([b0])
  {
    var s := [CharOf(b0 / 4), CharOf((b0 % 4) * 16), Pad, Pad];
    ValueOfCharOf(b0 / 4);
    ValueOfCharOf((b0 % 4) * 16);
    assert ValueOf(s[0]) == Some(b0 / 4) && ValueOf(s[1]) == Some((b0 % 4) * 16);
    assert ((b0 % 4) * 16) / 16 == b0 % 4;
  }

  lemma DecodeTwoBytes(b0: byte, b1: byte)
    ensures DecodeQuanta([CharOf(b0 / 4), CharOf((b0 % 4) * 16 + b1 / 16), CharOf((b1 % 16) * 4), Pad]) == Some([b0, b1])
  {
    var s := [CharOf(b0 / 4), CharOf((b0 % 4) * 16 + b1 / 16), CharOf((b1 % 16) * 4), Pad];
    QuantumRoundTrip(b0, b1, 0);
    ValueOfCharOf(b0 / 4);
    ValueOfCharOf((b0 % 4) * 16 + b1 / 16);
    ValueOfCharOf((b1 % 16) * 4);
    assert ValueOf(s[0]) == Some(b0 / 4) && ValueOf(s[1]) == Some((b0 % 4) * 16 + b1 / 16);
    assert ValueOf(s[2]) == Some((b1 % 16) * 4);
    assert s[2] != Pad;
  }

  lemma QuantumOf(s: string, v0: sextet, v1: sextet, v2: sextet, v3: sextet, rest: string)
    requires s == [CharOf(v0), CharOf(v1), CharOf(v2), CharOf(v3)] + rest
    requires |rest| % 4 == 0
    ensures |s| % 4 == 0 && s[4..] == rest
    ensures s[0] == CharOf(v0) && s[1] == CharOf(v1) && s[2] == CharOf(v2) && s[3] == CharOf(v3)
  {
  }

  /** A quantum with four digits and no padding decodes to three bytes followed by the rest. */
  lemma DecodeFullQuantum(s: string, v0: sextet, v1: sextet, v2: sextet, v3: sextet, bytes: seq<byte>, tail: seq<byte>)
    requires |s| >= 4 && |s| % 4 == 0
    requires s[0] == CharOf(v0) && s[1] == CharOf(v1) && s[2] == CharOf(v2) && s[3] == CharOf(v3)
    requires [v0 * 4 + v1 / 16, (v1 % 16) * 16 + v2 / 4, (v2 % 4) * 64 + v3] == bytes
    requires DecodeQuanta(s[4..]) == Some(tail)
    ensures DecodeQuanta(s) == Some(bytes + tail)
  {
    ValueOfCharOf(v0);
    ValueOfCharOf(v1);
    ValueOfCharOf(v2);
    ValueOfCharOf(v3);
  }

  /** The four digits of an encoded quantum, and how decoding recombines them into the three bytes. */
  lemma QuantumDigits(b0: byte, b1: byte, b2: byte) returns (v0: sextet, v1: sextet, v2: sextet, v3: sextet)
    ensures EncodeQuantum(b0, b1, b2) == [CharOf(v0), CharOf(v1), CharOf(v2), CharOf(v3)]
    ensures [v0 * 4 + v1 / 16, (v1 % 16) * 16 + v2 / 4, (v2 % 4) * 64 + v3] == [b0, b1, b2]
  {
    v0, v1, v2, v3 := b0 / 4, (b0 % 4) * 16 + b1 / 16, (b1 % 16) * 4 + b2 / 64, b2 % 64;
    QuantumRoundTrip(b0, b1, b2);
  }

  lemma DecodeQuantumStep(b0: byte, b1: byte, b2: byte, rest: string, tail: seq<byte>)
    requires |rest| % 4 == 0
    requires DecodeQuanta(rest) == Some(tail)
    ensures DecodeQuanta(EncodeQuantum(b0, b1, b2) + rest) == Some([b0, b1, b2] + tail)
  {
    var s := EncodeQuantum(b0, b1, b2) + rest;
    var v0, v1, v2, v3 := QuantumDigits(b0, b1, b2);
    QuantumOf(s, v0, v1, v2, v3, rest);
    DecodeFullQuantum(s, v0, v1, v2, v3, [b0, b1, b2], tail);
  }

  lemma EncodedLengthIsQuanta(b: seq<byte>)
    ensures |Encode(b)| % 4 == 0
  {
    var n := |Encode(b)|;
    var k := (|b| + 2) / 3;
    assert n == 4 * k;
    assert n / 4 == k && n - 4 * (n / 4) == 0;
  }

  lemma DecodeQuantaEncodeOne(b: seq<byte>)
    requires |b| == 1
    ensures DecodeQuanta(Encode(b)) == Some(b)
  {
    assert Encode(b) == [CharOf(b[0] / 4), CharOf((b[0] % 4) * 16), Pad, Pad];
    DecodeOneByte(b[0]);
    assert b == [b[0]];
  }

  lemma DecodeQuantaEncodeTwo(b: seq<byte>)
    requires |b| == 2
    ensures DecodeQuanta(Encode(b)) == Some(b)
  {
    assert Encode(b) == [CharOf(b[0] / 4), CharOf((b[0] % 4) * 16 + b[1] / 16), CharOf((b[1] % 16) * 4), Pad];
    DecodeTwoBytes(b[0], b[1]);
    assert b == [b[0], b[1]];
  }

  lemma DecodeQuantaEncodeStep(b: seq<byte>)
    requires |b| > 2
    requires |Encode(b[3..])| % 4 == 0 && DecodeQuanta(Encode(b[3..])) == Some(b[3..])
    ensures |Encode(b)| % 4 == 0 && DecodeQuanta(Encode(b)) == Some(b)
  {
    EncodedLengthIsQuanta(b);
    var rest := b[3..];
    assert Encode(b) == EncodeQuantum(b[0], b[1], b[2]) + Encode(rest);
    DecodeQuantumStep(b[0], b[1], b[2], Encode(rest), rest);
    assert [b[0], b[1], b[2]] + rest == b;
  }

  lemma {:induction false} DecodeQuantaEncode(b: seq<byte>)
    ensures |Encode(b)| % 4 == 0
    ensures DecodeQuanta(Encode(b)) == Some(b)
    decreases |b|
  {
    EncodedLengthIsQuanta(b);
    if |b| == 1 {
      DecodeQuantaEncodeOne(b);
    } else if |b| == 2 {
      DecodeQuantaEncodeTwo(b);
    } else if |b| > 2 {
      DecodeQuantaEncode(b[3..]);
      DecodeQuantaEncodeStep(b);
    }
  }

  /** Decoding what was encoded gives back the bytes. */
  lemma DecodeEncode(b: seq<byte>)
    ensures Decode(Encode(b)) == Some(b)
  {
    StripNewlinesIdentity(Encode(b));
    DecodeQuantaEncode(b);
  }

  /** Distinct byte strings have distinct encodings. */
  lemma EncodeInjective(a: seq<byte>, b: seq<byte>)
    ensures Encode(a) == Encode(b) ==> a == b
  {
    DecodeEncode(a);
    DecodeEncode(b);
  }
}
