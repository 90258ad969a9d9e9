/**
 * The pieces of Go's `time` package the server relies on. Instants and
 * durations are integers counting nanoseconds, so `Time.Add`, `Sub`, `After`
 * and `Before` are `+`, `-`, `>` and `<`.
 */
module GoTime {
  import opened Wrappers

  const Second: int := 1_000_000_000
  const Hour: int := 3600 * Second

  /** The largest whole number of seconds `ParseDuration` accepts: (2^63 - 1) / 10^9. */
  const MaxSeconds: nat := 9_223_372_036

  predicate IsDigit(c: char) { '0' <= c <= '9' }

  predicate AllDigits(s: string) { forall i :: 0 <= i < |s| ==> IsDigit(s[i]) }

  /** The value of a run of decimal digits, most significant first. */
  function DigitsValue(s: string): nat
    requires AllDigits(s)
  {
    if s == [] then 0 else DigitsValue(s[..|s| - 1]) * 10 + (s[|s| - 1] as int - '0' as int)
  }

  /** The decimal text of a natural number, without leading zeros. */
  function DecimalText(n: nat): (s: string)
    ensures |s| > 0 && AllDigits(s)
  {
    if n < 10 then [('0' as int + n) as char]
    else DecimalText(n / 10) + [('0' as int + n % 10) as char]
  }

  lemma {:induction false} DigitsValueDecimalText(n: nat)
    ensures DigitsValue(DecimalText(n)) == n
  {
    if n >= 10 {
      var s := DecimalText(n);
      assert s[..|s| - 1] == DecimalText(n / 10);
      DigitsValueDecimalText(n / 10);
    }
  }

  /**
   * `time.ParseDuration(text + "s")`, how every handler reads a duration:
   * an optional sign and decimal digits count whole seconds, and more than
   * `MaxSeconds` overflows. None is the parse error.
   */
  function ParseSeconds(text: string): (r: Option<int>)
    ensures r.Some? ==> r.value % Second == 0
    ensures r.Some? ==> -(MaxSeconds as int) * Second <= r.value <= MaxSeconds * Second
  {
    var signed := |text| > 0 && (text[0] == '-' || text[0] == '+');
    var digits := if signed then text[1..] else text;
    if |digits| == 0 || !AllDigits(digits) then None
    else
      var v := DigitsValue(digits);
      if v > MaxSeconds then None
      else if signed && text[0] == '-' then Some(-(v * Second))
      else Some(v * Second)
  }

  /** `ParseDuration`'s error for the text it was given. */
  function InvalidDurationText(text: string): string
  {
    "time: invalid duration \"" + text + "\""
  }

  /** A plain count of seconds, "90" say, reads as that many seconds. */
  lemma ParseSecondsDecimal(n: nat)
    requires n <= MaxSeconds
    ensures ParseSeconds(DecimalText(n)) == Some(n * Second)
  {
    DigitsValueDecimalText(n);
    assert DecimalText(n)[0] != '-' && DecimalText(n)[0] != '+';
  }

  /** The same count behind a minus sign reads as a negative duration. */
  lemma ParseSecondsNegative(n: nat)
    requires n <= MaxSeconds
    ensures ParseSeconds("-" + DecimalText(n)) == Some(-(n * Second))
  {
    DigitsValueDecimalText(n);
    assert ("-" + DecimalText(n))[1..] == DecimalText(n);
  }

  /** `math.Ceil` of a real: the least integer not below `x`, computed by flooring `-x`. */
  function Ceil(x: real): (r: int)
    ensures r as real >= x && (r - 1) as real < x
  {
    -((-x).Floor)
  }

  /** `a / b` rounded up, computed with integers only. */
  function CeilDiv(a: int, b: int): (r: int)
    requires b > 0
    ensures r * b >= a && (r - 1) * b < a
  {
    var q := (-a) / b;
    assert -a == q * b + (-a) % b;
    -q
  }

  /**
   * A timestamp rendered with a second-precision layout (RFC 1123 or
   * RFC 3339 as Go writes them): all the text keeps is the whole second,
   * in UTC.
   */
  datatype Stamp = Stamp(unixSeconds: int)

  /** `Time.Format` with a second-precision layout: the sub-second part is dropped. */
  function Format(t: int): (s: Stamp)
    ensures s.unixSeconds * Second <= t < s.unixSeconds * Second + Second
  {
    Stamp(t / Second)
  }

  /** `time.Parse` of a well-formed stamp. */
  function Parse(s: Stamp): int
  {
    s.unixSeconds * Second
  }

  /** A formatted instant reads back truncated to its second, never later than it was. */
  lemma ParseFormat(t: int)
    ensures Parse(Format(t)) <= t < Parse(Format(t)) + Second
    ensures Parse(Format(t)) % Second == 0
    ensures t % Second == 0 ==> Parse(Format(t)) == t
  {
  }
}
