/** The text form of a `net.IP`, as the daemon's JSON answers show it. */
module NetIp {
  import Base64

  type byte = Base64.byte

  /** The 12-byte prefix of an IPv4 address in 16-byte form. */
  const V4InV6Prefix: seq<byte> := [0, 0, 0, 0, 0, 0, 0, 0, 0, 0, 255, 255]

  function DecimalDigit(d: nat): char
    requires d < 10
  {
    (('0' as int) + d) as char
  }

  /** Decimal text of a byte, without leading zeros. */
  function ByteText(b: byte): (s: string)
    ensures 1 <= |s| <= 3
    ensures forall i :: 0 <= i < |s| ==> '0' <= s[i] <= '9'
  {
    if b < 10 then [DecimalDigit(b)]
    else if b < 100 then [DecimalDigit(b / 10), DecimalDigit(b % 10)]
    else [DecimalDigit(b / 100), DecimalDigit(b / 10 % 10), DecimalDigit(b % 10)]
  }

  function HexDigit(d: nat): char
    requires d < 16
  {
    if d < 10 then DecimalDigit(d) else (('a' as int) + d - 10) as char
  }

  /** Lower-case hex of a number, without leading zeros ("0" for zero). */
  function HexText(n: nat): (s: string)
    ensures |s| >= 1
    decreases n
  {
    if n < 16 then [HexDigit(n)] else HexText(n / 16) + [HexDigit(n % 16)]
  }

  /** Colon-separated hex groups of the byte pairs in `b`. */
  function Groups(b: seq<byte>): string
    requires |b| % 2 == 0
    decreases |b|
  {
    if |b| <= 2 then (if |b| == 2 then HexText(b[0] as int * 256 + b[1]) else "")
    else HexText(b[0] as int * 256 + b[1]) + ":" + Groups(b[2..])
  }

  /** Lower-case hex of every byte, two digits each. */
  function HexBytes(b: seq<byte>): string
  {
    if b == [] then "" else [HexDigit(b[0] / 16), HexDigit(b[0] % 16)] + HexBytes(b[1..])
  }

  /**
   * `net.IP.String`: "<nil>" for the empty address, dotted decimal for a
   * 4-byte address or a 16-byte IPv4-in-IPv6 one, colon hex for other
   * 16-byte addresses, and "?" with the hex bytes for any other length.
   */
  function IPString(ip: seq<byte>): (s: string)
    ensures |ip| == 4 ==> s == ByteText(ip[0]) + "." + ByteText(ip[1]) + "." + ByteText(ip[2]) + "." + ByteText(ip[3])
    ensures |ip| == 0 ==> s == "<nil>"
  {
    if |ip| == 0 then "<nil>"
    else if |ip| == 4 then ByteText(ip[0]) + "." + ByteText(ip[1]) + "." + ByteText(ip[2]) + "." + ByteText(ip[3])
    else if |ip| == 16 && ip[..12] == V4InV6Prefix then IPString(ip[12..])
    else if |ip| == 16 then Groups(ip)
    else "?" + HexBytes(ip)
  }

  /** An IPv4 address prints the same in its 4-byte and its 16-byte form. */
  lemma IPv4InIPv6Prints(v4: seq<byte>)
    requires |v4| == 4
    ensures IPString(V4InV6Prefix + v4) == IPString(v4)
  {
    assert (V4InV6Prefix + v4)[..12] == V4InV6Prefix;
    assert (V4InV6Prefix + v4)[12..] == v4;
  }
}
