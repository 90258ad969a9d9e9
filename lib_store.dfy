/**
 * The LevelDB expiry store of the first generation (lib/store.go): one
 * entry per key, under the key's lower-case hex, holding the expiry as
 * RFC 1123 text (section 5.2.14 of RFC 1123, as Go formats it: whole
 * seconds).
 */
module LibStore {
  import opened Wrappers
  import GoTime
  import PubKey
  import NetIp

  type Key = PubKey.Key

  /** A stored value: an RFC 1123 timestamp, or bytes `time.Parse` rejects. */
  datatype Stored = Text(stamp: GoTime.Stamp) | Garbage

  /** `time.Parse`'s complaint about a value that is not RFC 1123. */
  const BadTimeMessage: string := "parsing time"

  predicate IsLowerHex(c: char) { '0' <= c <= '9' || 'a' <= c <= 'f' }

  /** `keyForPubkey`: `hex.EncodeToString` of the 32 key bytes. */
  function KeyForPubkey(k: Key): (s: string)
    ensures |s| == 64
    ensures forall i :: 0 <= i < |s| ==> IsLowerHex(s[i])
  {
    HexLength(k);
    NetIp.HexBytes(k)
  }

  lemma {:induction false} HexLength(b: seq<NetIp.byte>)
    ensures |NetIp.HexBytes(b)| == 2 * |b|
    ensures forall i :: 0 <= i < |NetIp.HexBytes(b)| ==> IsLowerHex(NetIp.HexBytes(b)[i])
  {
    if b != [] {
      HexLength(b[1..]);
      var h := NetIp.HexBytes(b);
      forall i | 0 <= i < |h|
        ensures IsLowerHex(h[i])
      {
        if i >= 2 {
          assert h[i] == NetIp.HexBytes(b[1..])[i - 2];
        }
      }
    }
  }

  /** The value of a lower-case hex digit. */
  function HexValue(c: char): nat
  {
    if '0' <= c <= '9' then c as int - '0' as int
    else if 'a' <= c <= 'f' then c as int - 'a' as int + 10
    else 0
  }

  /** `hex.DecodeString` on well-formed lower-case hex. */
  function HexDecode(s: string): seq<int>
    decreases |s|
  {
    if |s| < 2 then [] else [HexValue(s[0]) * 16 + HexValue(s[1])] + HexDecode(s[2..])
  }

  /** Decoding the hex text gives the bytes back. */
  lemma {:induction false} HexRoundTrip(b: seq<NetIp.byte>)
    ensures HexDecode(NetIp.HexBytes(b)) == b
  {
    if b != [] {
      var h := NetIp.HexBytes(b);
      HexLength(b[1..]);
      assert h[2..] == NetIp.HexBytes(b[1..]);
      HexRoundTrip(b[1..]);
      assert HexValue(h[0]) == b[0] / 16 && HexValue(h[1]) == b[0] % 16;
    }
  }

  /** Distinct keys have distinct storage keys. */
  lemma KeyForPubkeyInjective(k1: Key, k2: Key)
    ensures KeyForPubkey(k1) == KeyForPubkey(k2) <==> k1 == k2
  {
    HexRoundTrip(k1);
    HexRoundTrip(k2);
  }

  /**
   * `GetExpiry` on a database snapshot: an unknown key's expiry is `now`;
   * a read error (`fault`) or a value that does not parse is an error.
   */
  function ExpiryOf(db: map<string, Stored>, k: Key, now: int, fault: Option<string>): (r: Result<int, string>)
    ensures fault.Some? ==> r == Failure(fault.value)
    ensures fault.None? && KeyForPubkey(k) !in db ==> r == Success(now)
    ensures fault.None? && KeyForPubkey(k) in db ==>
              (r.Success? <==> db[KeyForPubkey(k)].Text?) &&
              (r.Success? ==> r.value == GoTime.Parse(db[KeyForPubkey(k)].stamp) && r.value % GoTime.Second == 0)
  {
    if fault.Some? then Failure(fault.value)
    else if KeyForPubkey(k) !in db then Success(now)
    else match db[KeyForPubkey(k)]
      case Text(stamp) => Success(GoTime.Parse(stamp))
      case Garbage => Failure(BadTimeMessage)
  }

  /** `LevelDBExpiryStore`. */
  class LevelDBExpiryStore {
    var db: map<string, Stored>

    constructor(db: map<string, Stored>)
      ensures this.db == db
    {
      this.db := db;
    }

    /** `GetExpiry`; it writes nothing, not even for an unknown key. */
    method GetExpiry(k: Key, now: int, fault: Option<string>) returns (r: Result<int, string>)
      ensures r == ExpiryOf(db, k, now, fault)
    {
      var key := KeyForPubkey(k);
      if fault.Some? {
        return Failure(fault.value);
      }
      if key !in db {
        return Success(now);
      }
      match db[key] {
        case Text(stamp) => r := Success(GoTime.Parse(stamp));
        case Garbage => r := Failure(BadTimeMessage);
      }
    }

    /**
     * `AddDuration`: read the expiry, add the duration (no clamp to now),
     * write it back as RFC 1123 text and return the untruncated sum. A read
     * or write error leaves the store as it was.
     */
    method AddDuration(k: Key, duration: int, now: int, getFault: Option<string>, putFault: Option<string>)
      returns (r: Result<int, string>)
      modifies this
      ensures ExpiryOf(old(db), k, now, getFault).Failure? ==>
                r == ExpiryOf(old(db), k, now, getFault) && db == old(db)
      ensures ExpiryOf(old(db), k, now, getFault).Success? && putFault.Some? ==>
                r == Failure(putFault.value) && db == old(db)
      ensures ExpiryOf(old(db), k, now, getFault).Success? && putFault.None? ==>
                r == Success(ExpiryOf(old(db), k, now, getFault).value + duration) &&
                db == old(db)[KeyForPubkey(k) := Text(GoTime.Format(r.value))]
    {
      var expiry := GetExpiry(k, now, getFault);
      if expiry.Failure? {
        return expiry;
      }
      var newExpiry := expiry.value + duration;
      if putFault.Some? {
        return Failure(putFault.value);
      }
      db := db[KeyForPubkey(k) := Text(GoTime.Format(newExpiry))];
      r := Success(newExpiry);
    }

    /** `GetTimeLeft`: the expiry minus the clock read afterwards (`later`), negative once lapsed. */
    method GetTimeLeft(k: Key, now: int, later: int, fault: Option<string>) returns (r: Result<int, string>)
      ensures r.Success? <==> ExpiryOf(db, k, now, fault).Success?
      ensures r.Failure? ==> r == ExpiryOf(db, k, now, fault)
      ensures r.Success? ==> r.value + later == ExpiryOf(db, k, now, fault).value
      ensures r.Success? ==> (r.value < 0 <==> ExpiryOf(db, k, now, fault).value < later)
    {
      var expiry := GetExpiry(k, now, fault);
      if expiry.Failure? {
        return expiry;
      }
      r := Success(expiry.value - later);
    }
  }

  /** A stored expiry is used as it is, lapsed or not: `now` plays no part. */
  lemma StoredExpiryIgnoresNow(db: map<string, Stored>, k: Key, now1: int, now2: int)
    requires KeyForPubkey(k) in db
    ensures ExpiryOf(db, k, now1, None) == ExpiryOf(db, k, now2, None)
  {
  }

  /**
   * After `AddDuration` writes `t`, the key reads back as `t` truncated to
   * its second, and every other key reads as before.
   */
  lemma AddThenGet(db: map<string, Stored>, k: Key, t: int, other: Key, now: int)
    ensures var db' := db[KeyForPubkey(k) := Text(GoTime.Format(t))];
            ExpiryOf(db', k, now, None) == Success(GoTime.Parse(GoTime.Format(t))) &&
            t - GoTime.Second < ExpiryOf(db', k, now, None).value <= t &&
            (other != k ==> ExpiryOf(db', other, now, None) == ExpiryOf(db, other, now, None))
  {
    GoTime.ParseFormat(t);
    KeyForPubkeyInjective(k, other);
  }
}
