/**
 * The LevelDB allowance store of the metervpn generation (metervpn/store.go).
 * Entries live under `"pubkey:" + base64(key)`, and each value should be a
 * JSON record holding the expiry as RFC 3339 text and an IP string.
 * metervpn's own key codec is not part of this model; it is taken to be the
 * daemon's (module PubKey).
 */
module MeterVpnStore {
  import opened Wrappers
  import GoTime
  import PubKey

  type Key = PubKey.Key

  const Prefix: string := "pubkey:"

  /** The `Expiry` field of a decoded record: empty, an RFC 3339 instant, or text that does not parse. */
  datatype ExpiryText = NoExpiry | At(stamp: GoTime.Stamp) | Unparseable

  /** `LevelDBPeerRecord`. */
  datatype Record = Record(expiry: ExpiryText, ip: string)

  /**
   * A stored value: a JSON record, a bare RFC 3339 timestamp (what
   * `AddAllowance` writes; not JSON, since it starts with the year's digits
   * followed by '-'), or any other bytes that are not a JSON record.
   */
  datatype Stored = Json(record: Record) | BareTime(stamp: GoTime.Stamp) | Garbage

  /** How a read went wrong: the database's own error, or a value that is not a JSON record. */
  datatype LoadError = DbError(message: string) | NotARecord

  /** The JSON decoder's complaint about a bare timestamp, the usual non-record value. */
  const NotARecordMessage: string := "invalid character '-' after top-level value"

  /** `time.Parse`'s complaint about an `Expiry` field that is not RFC 3339. */
  const BadTimeMessage: string := "parsing time"

  /** A Go result that can also panic on a nil dereference. */
  datatype Outcome<T> = Ok(value: T) | Err(message: string) | Panic

  /** `keyForPubkey`. */
  function KeyForPubkey(k: Key): (s: string)
    ensures |s| == |Prefix| + 44 && s[..|Prefix|] == Prefix
  {
    Prefix + PubKey.MarshalPublicKey(k)
  }

  /** Stripping the 7-character prefix and decoding gives the key back. */
  lemma StripKeyForPubkey(k: Key)
    ensures PubKey.UnmarshalPublicKey(KeyForPubkey(k)[|Prefix|..]) == Success(k)
  {
    assert KeyForPubkey(k)[|Prefix|..] == PubKey.MarshalPublicKey(k);
    PubKey.UnmarshalMarshal(k);
  }

  /** Distinct keys have distinct storage keys. */
  lemma KeyForPubkeyInjective(k1: Key, k2: Key)
    ensures KeyForPubkey(k1) == KeyForPubkey(k2) <==> k1 == k2
  {
    if KeyForPubkey(k1) == KeyForPubkey(k2) {
      assert KeyForPubkey(k1)[|Prefix|..] == PubKey.MarshalPublicKey(k1);
      assert KeyForPubkey(k2)[|Prefix|..] == PubKey.MarshalPublicKey(k2);
      PubKey.MarshalInjective(k1, k2);
    }
  }

  /** `loadOrCreateRecord` on a database snapshot; `fault` is a read error other than not-found. */
  function Load(db: map<string, Stored>, k: Key, fault: Option<string>): (r: Result<Record, LoadError>)
    ensures fault.Some? ==> r == Failure(DbError(fault.value))
    ensures fault.None? && KeyForPubkey(k) !in db ==> r == Success(Record(NoExpiry, ""))
    ensures fault.None? && KeyForPubkey(k) in db ==>
              (r.Success? <==> db[KeyForPubkey(k)].Json?) &&
              (r.Success? ==> r.value == db[KeyForPubkey(k)].record)
  {
    if fault.Some? then Failure(DbError(fault.value))
    else if KeyForPubkey(k) !in db then Success(Record(NoExpiry, ""))
    else match db[KeyForPubkey(k)]
      case Json(record) => Success(record)
      case _ => Failure(NotARecord)
  }

  /** The expiry a loaded record gives: now when empty, the parsed instant, or the parse error. */
  function RecordExpiry(record: Record, now: int): Outcome<int>
  {
    match record.expiry
    case NoExpiry => Ok(now)
    case At(stamp) => Ok(GoTime.Parse(stamp))
    case Unparseable => Err(BadTimeMessage)
  }

  /**
   * `GetExpiry` as written: the record's `Expiry` field is read before the
   * error is checked, so a failed load dereferences a nil record.
   */
  function ExpiryAsWritten(db: map<string, Stored>, k: Key, now: int, fault: Option<string>): Outcome<int>
  {
    match Load(db, k, fault)
    case Failure(_) => Panic
    case Success(record) => RecordExpiry(record, now)
  }

  /** `GetExpiry` with the error checked first. */
  function Expiry(db: map<string, Stored>, k: Key, now: int, fault: Option<string>): (r: Outcome<int>)
    ensures r != Panic
  {
    match Load(db, k, fault)
    case Failure(DbError(message)) => Err(message)
    case Failure(NotARecord) => Err(NotARecordMessage)
    case Success(record) => RecordExpiry(record, now)
  }

  /** The two agree whenever the load succeeds; they differ exactly on a failed load. */
  lemma ExpiryAsWrittenPanicsOnlyOnLoadError(db: map<string, Stored>, k: Key, now: int, fault: Option<string>)
    ensures ExpiryAsWritten(db, k, now, fault) == Panic <==> Load(db, k, fault).Failure?
    ensures Load(db, k, fault).Success? ==> ExpiryAsWritten(db, k, now, fault) == Expiry(db, k, now, fault)
  {
  }

  /** An unknown key's expiry is now. */
  lemma UnknownKeyExpiresNow(db: map<string, Stored>, k: Key, now: int)
    requires KeyForPubkey(k) !in db
    ensures Expiry(db, k, now, None) == Ok(now) && ExpiryAsWritten(db, k, now, None) == Ok(now)
  {
  }

  /** `LevelDBAllowanceStore`: the database as a map from storage key to value. */
  class LevelDBAllowanceStore {
    var db: map<string, Stored>

    constructor(db: map<string, Stored>)
      ensures this.db == db
    {
      this.db := db;
    }

    /** `loadOrCreateRecord`: a missing entry is an empty record and nothing is written. */
    method LoadOrCreateRecord(k: Key, fault: Option<string>) returns (record: Option<Record>, err: Option<LoadError>)
      ensures err.None? <==> Load(db, k, fault).Success?
      ensures err.None? ==> record == Some(Load(db, k, fault).value)
      ensures err.Some? ==> record == None && err.value == Load(db, k, fault).error
    {
      var key := KeyForPubkey(k);
      if fault.Some? {
        return None, Some(DbError(fault.value));
      }
      if key !in db {
        return Some(Record(NoExpiry, "")), None;
      }
      match db[key] {
        case Json(r) => record, err := Some(r), None;
        case _ => record, err := None, Some(NotARecord);
      }
    }

    /** `GetExpiry` as written. */
    method GetExpiryAsWritten(k: Key, now: int, fault: Option<string>) returns (r: Outcome<int>)
      ensures r == ExpiryAsWritten(db, k, now, fault)
    {
      var record, err := LoadOrCreateRecord(k, fault);
      if record.None? {
        // `record.Expiry` on a nil record.
        return Panic;
      }
      r := RecordExpiry(record.value, now);
    }

    /** `GetExpiry` with the error checked before the record is used. */
    method GetExpiry(k: Key, now: int, fault: Option<string>) returns (r: Outcome<int>)
      ensures r == Expiry(db, k, now, fault)
    {
      var record, err := LoadOrCreateRecord(k, fault);
      if err.Some? {
        match err.value {
          case DbError(message) => return Err(message);
          case NotARecord => return Err(NotARecordMessage);
        }
      }
      r := RecordExpiry(record.value, now);
    }

    /**
     * `AddAllowance` as written: the new expiry (expiry read + duration) is
     * returned, and written as bare RFC 3339 text rather than a record.
     */
    method AddAllowanceAsWritten(k: Key, duration: int, now: int, getFault: Option<string>, putFault: Option<string>)
      returns (r: Outcome<int>)
      modifies this
      ensures ExpiryAsWritten(old(db), k, now, getFault).Ok? && putFault.None? ==>
                r == Ok(ExpiryAsWritten(old(db), k, now, getFault).value + duration) &&
                db == old(db)[KeyForPubkey(k) := BareTime(GoTime.Format(r.value))]
      ensures !(ExpiryAsWritten(old(db), k, now, getFault).Ok? && putFault.None?) ==> db == old(db) && !r.Ok?
    {
      var expiry := GetExpiryAsWritten(k, now, getFault);
      if !expiry.Ok? {
        return expiry;
      }
      var newExpiry := expiry.value + duration;
      if putFault.Some? {
        return Err(putFault.value);
      }
      db := db[KeyForPubkey(k) := BareTime(GoTime.Format(newExpiry))];
      r := Ok(newExpiry);
    }

    /** `AddAllowance` writing the record through `saveRecord`, keeping the record's IP. */
    method AddAllowance(k: Key, duration: int, now: int, getFault: Option<string>, putFault: Option<string>)
      returns (r: Outcome<int>)
      modifies this
      ensures Expiry(old(db), k, now, getFault).Ok? && putFault.None? ==>
                r == Ok(Expiry(old(db), k, now, getFault).value + duration) &&
                db == old(db)[KeyForPubkey(k) := Json(Record(At(GoTime.Format(r.value)), Load(old(db), k, getFault).value.ip))]
      ensures !(Expiry(old(db), k, now, getFault).Ok? && putFault.None?) ==> db == old(db) && !r.Ok?
    {
      var record, err := LoadOrCreateRecord(k, getFault);
      if err.Some? {
        match err.value {
          case DbError(message) => return Err(message);
          case NotARecord => return Err(NotARecordMessage);
        }
      }
      var expiry := RecordExpiry(record.value, now);
      if !expiry.Ok? {
        return expiry;
      }
      var newExpiry := expiry.value + duration;
      if putFault.Some? {
        return Err(putFault.value);
      }
      db := db[KeyForPubkey(k) := Json(Record(At(GoTime.Format(newExpiry)), record.value.ip))];
      r := Ok(newExpiry);
    }

    /** `DeletePubkey`: exactly that key's entry goes (deleting a missing entry is not an error). */
    method DeletePubkey(k: Key, fault: Option<string>) returns (err: Option<string>)
      modifies this
      ensures err == fault
      ensures db == if fault.None? then old(db) - {KeyForPubkey(k)} else old(db)
    {
      if fault.Some? {
        return fault;
      }
      db := db - {KeyForPubkey(k)};
      err := None;
    }

    /**
     * `GetAllPubkeys`: every entry under the prefix, stripped and decoded;
     * one that does not decode to a key fails the whole listing. LevelDB
     * visits the entries in key order; here they are visited in some order.
     */
    method GetAllPubkeys() returns (keys: seq<Key>, err: Option<PubKey.UnmarshalError>)
      ensures err.None? <==> AllDecode(db)
      ensures err.Some? ==> keys == []
      ensures err.None? ==> forall k :: k in keys <==> Listed(db, k)
    {
      var remaining := set s | s in db && IsPrefixed(s);
      keys := [];
      while remaining != {}
        invariant remaining <= set s | s in db && IsPrefixed(s)
        invariant forall s :: s in db && IsPrefixed(s) && s !in remaining ==> Decodes(s)
        invariant forall k :: k in keys <==> exists s :: s in db && IsPrefixed(s) && s !in remaining && Decoded(s, k)
        decreases remaining
      {
        var s :| s in remaining;
        var pubkey := PubKey.UnmarshalPublicKey(s[|Prefix|..]);
        if pubkey.Failure? {
          return [], Some(pubkey.error);
        }
        keys := keys + [pubkey.value];
        remaining := remaining - {s};
      }
      err := None;
    }
  }

  predicate IsPrefixed(s: string)
  {
    |s| >= |Prefix| && s[..|Prefix|] == Prefix
  }

  predicate Decodes(s: string)
    requires IsPrefixed(s)
  {
    PubKey.UnmarshalPublicKey(s[|Prefix|..]).Success?
  }

  predicate Decoded(s: string, k: Key)
    requires IsPrefixed(s)
  {
    PubKey.UnmarshalPublicKey(s[|Prefix|..]) == Success(k)
  }

  /** Every entry under the prefix decodes to a key. */
  predicate AllDecode(db: map<string, Stored>)
  {
    forall s :: s in db && IsPrefixed(s) ==> Decodes(s)
  }

  /** Some entry under the prefix decodes to `k`. */
  ghost predicate Listed(db: map<string, Stored>, k: Key)
  {
    exists s :: s in db && IsPrefixed(s) && Decoded(s, k)
  }

  /** Every entry under the prefix was written through `keyForPubkey`. */
  ghost predicate Canonical(db: map<string, Stored>)
  {
    forall s :: s in db && IsPrefixed(s) ==> exists k: Key :: s == KeyForPubkey(k)
  }

  /** Over entries written by `keyForPubkey`, the listing succeeds and returns exactly the keys written. */
  lemma CanonicalListing(db: map<string, Stored>)
    requires Canonical(db)
    ensures AllDecode(db)
    ensures forall k :: Listed(db, k) <==> KeyForPubkey(k) in db
  {
    forall s | s in db && IsPrefixed(s)
      ensures Decodes(s)
    {
      var k: Key :| s == KeyForPubkey(k);
      StripKeyForPubkey(k);
    }
    forall k: Key
      ensures Listed(db, k) <==> KeyForPubkey(k) in db
    {
      if Listed(db, k) {
        var s :| s in db && IsPrefixed(s) && Decoded(s, k);
        var k2: Key :| s == KeyForPubkey(k2);
        StripKeyForPubkey(k2);
      }
      if KeyForPubkey(k) in db {
        StripKeyForPubkey(k);
      }
    }
  }

  /**
   * The mismatch in `AddAllowance` as written: once it has credited a key,
   * `GetExpiry` as written can no longer read that key's entry and panics.
   */
  lemma AllowanceThenExpiryPanics(db: map<string, Stored>, k: Key, t: int, now: int)
    ensures ExpiryAsWritten(db[KeyForPubkey(k) := BareTime(GoTime.Format(t))], k, now, None) == Panic
  {
  }

  /**
   * With the record written through `saveRecord`, the next read returns the
   * new expiry truncated to its second (RFC 3339 as Go formats it keeps no
   * fraction), and the record's IP is kept.
   */
  lemma AllowanceThenExpiryReadsBack(db: map<string, Stored>, k: Key, t: int, ip: string, now: int)
    ensures var db' := db[KeyForPubkey(k) := Json(Record(At(GoTime.Format(t)), ip))];
            Expiry(db', k, now, None) == Ok(GoTime.Parse(GoTime.Format(t))) &&
            Load(db', k, None).value.ip == ip &&
            t - GoTime.Second < Expiry(db', k, now, None).value <= t
  {
    GoTime.ParseFormat(t);
  }
}
