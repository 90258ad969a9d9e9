/**
 * The daemon's account/peer store (daemon/store.go): one row per account,
 * keyed by its account id, with a unique public-key column, and the IPv4
 * allocator that hands out the next address after the highest one stored.
 * Database failures are parameters: `fault` is the error the database
 * reports, if any.
 */
module DaemonStore {
  import opened Wrappers
  import Base64
  import Base32
  import PubKey

  type byte = Base64.byte

  /** Random bytes behind an account id. */
  const AccountIdSize: nat := 10

  /** A row of the peers table. */
  datatype Row = Row(
    accountId: string,
    expiry: int,
    publicKeyB64: Option<string>,
    ipv4: Option<seq<byte>>,
    ipv6: Option<seq<byte>>,
    connected: bool)

  datatype StoreError =
    | PeerNotFound          // ErrPeerNotFound
    | UniqueViolation(column: string)  // the unique index on `column` refused the write
    | Db(message: string)   // any other database error, passed through
    | ExhaustedIPv4         // "exhausted IPv4 space"

  /** The text of a store error, as `err.Error()` gives it. */
  function ErrorText(e: StoreError): (text: string)
    ensures e.Db? ==> text == e.message
    ensures e.UniqueViolation? ==> |text| > |e.column| && text[|text| - |e.column|..] == e.column
  {
    match e
    case PeerNotFound => "peer not found"
    case UniqueViolation(column) => "UNIQUE constraint failed: " + column
    case Db(message) => message
    case ExhaustedIPv4 => "exhausted IPv4 space"
  }

  /** The columns whose unique indexes can refuse a write. */
  const AccountIdColumn := "peers.account_id"
  const KeyColumn := "peers.public_key_b64"

  /** No address column holds a nil (empty) address. */
  predicate NoNilSlots(r: Row)
  {
    r.ipv4 != Some([]) && r.ipv6 != Some([])
  }

  /**
   * The row as the database keeps it: a pointer to a nil `net.IP` is bound
   * as NULL, so an empty address slot reads back as no address.
   */
  function Stored(r: Row): (s: Row)
    ensures NoNilSlots(s)
    ensures s.ipv4.Some? <==> r.ipv4.Some? && r.ipv4.value != []
    ensures s.ipv6.Some? <==> r.ipv6.Some? && r.ipv6.value != []
    ensures s.ipv4.Some? ==> s.ipv4 == r.ipv4
    ensures s.ipv6.Some? ==> s.ipv6 == r.ipv6
    ensures s.(ipv4 := r.ipv4, ipv6 := r.ipv6) == r
  {
    r.(ipv4 := if r.ipv4 == Some([]) then None else r.ipv4,
       ipv6 := if r.ipv6 == Some([]) then None else r.ipv6)
  }

  /** A row without nil addresses is stored as it is. */
  lemma StoredClean(r: Row)
    requires NoNilSlots(r)
    ensures Stored(r) == r
  {
  }

  /** The two address slots `GetNewIPs` fills; the empty sequence is a nil `net.IP`. */
  datatype IPPair = IPPair(v4: seq<byte>, v6: seq<byte>)

  /** The account id minted from `AccountIdSize` random bytes: their standard base32 text. */
  function AccountIdFor(random: seq<byte>): (id: string)
    requires |random| == AccountIdSize
    ensures |id| == 16
    ensures forall i :: 0 <= i < |id| ==> Base32.InAlphabet(id[i])
    ensures Base32.Decode(id) == random
  {
    Base32.DecodeEncode(random);
    Base32.Encode(random)
  }

  /** Two draws of random bytes give the same account id exactly when they are the same bytes. */
  lemma AccountIdInjective(r1: seq<byte>, r2: seq<byte>)
    requires |r1| == AccountIdSize && |r2| == AccountIdSize
    ensures AccountIdFor(r1) == AccountIdFor(r2) <==> r1 == r2
  {
    if AccountIdFor(r1) == AccountIdFor(r2) {
      assert Base32.Decode(AccountIdFor(r1)) == Base32.Decode(AccountIdFor(r2));
    }
  }

  /** The row a new account starts with: zero allowance, no key, no addresses. */
  function NewRow(id: string, now: int): Row
  {
    Row(id, now, None, None, None, false)
  }

  /** No two stored peers claim the same public-key text (the unique index on PublicKeyB64; NULLs never clash). */
  ghost predicate KeysUnique(rows: map<string, Row>)
  {
    forall a, b :: a in rows && b in rows && a != b && rows[a].publicKeyB64.Some? ==>
      rows[a].publicKeyB64 != rows[b].publicKeyB64
  }

  /** Every row sits under its own account id (the unique index on AccountID). */
  ghost predicate IdsMatch(rows: map<string, Row>)
  {
    forall id :: id in rows ==> rows[id].accountId == id
  }

  /** Some other account already holds the key text `r` carries. */
  predicate KeyClaimedByOther(rows: map<string, Row>, r: Row)
  {
    r.publicKeyB64.Some? &&
    exists id :: id in rows && id != r.accountId && rows[id].publicKeyB64 == r.publicKeyB64
  }

  /** A peer loaded from the table; handlers change it in memory and save it back. */
  class Peer {
    var accountId: string
    var expiry: int
    var publicKeyB64: Option<string>
    var ipv4: Option<seq<byte>>
    var ipv6: Option<seq<byte>>
    var connected: bool

    function AsRow(): Row
      reads this
    {
      Row(accountId, expiry, publicKeyB64, ipv4, ipv6, connected)
    }

    constructor (r: Row)
      ensures AsRow() == r
    {
      accountId, expiry, publicKeyB64 := r.accountId, r.expiry, r.publicKeyB64;
      ipv4, ipv6, connected := r.ipv4, r.ipv6, r.connected;
    }

    /** Adds `duration` to the stored expiry as it is, even if it already lies in the past. */
    method AddAllowance(duration: int)
      modifies this
      ensures expiry == old(expiry) + duration
      ensures AsRow() == old(AsRow()).(expiry := old(expiry) + duration)
    {
      expiry := expiry + duration;
    }
  }

  /** `KeyFromBase64`'s two results: the key pointer (None is nil) and the error. */
  datatype KeyLookup = KeyLookup(key: Option<PubKey.Key>, err: Option<KeyError>)

  datatype KeyError =
    | InvalidBase64               // the base64 decoder's error
    | IncorrectKeySize(size: nat) // wgtypes.NewKey: "incorrect key size"

  /**
   * `KeyFromBase64`: decode, then `wgtypes.NewKey`. A decoding error gives a
   * nil key; a wrong length gives the error together with a pointer to the
   * zero key.
   */
  function KeyFromBase64(text: string): (r: KeyLookup)
    ensures r.err.None? <==> PubKey.UnmarshalPublicKey(text).Success?
    ensures r.err.None? ==> r.key == Some(PubKey.UnmarshalPublicKey(text).value)
    ensures r.key.None? <==> Base64.Decode(text).None?
    ensures r.key.None? ==> r.err == Some(InvalidBase64)
    ensures r.err.Some? && r.key.Some? ==>
              r.key == Some(PubKey.ZeroKey) && r.err == Some(IncorrectKeySize(|Base64.Decode(text).value|))
  {
    if Base64.Decode(text).None? then KeyLookup(None, Some(InvalidBase64))
    else if |Base64.Decode(text).value| != PubKey.PublicKeySize then
      KeyLookup(Some(PubKey.ZeroKey), Some(IncorrectKeySize(|Base64.Decode(text).value|)))
    else KeyLookup(Some(Base64.Decode(text).value), None)
  }

  /** A key stored by its canonical text is found again by `KeyFromBase64`. */
  lemma KeyFromBase64Marshal(k: PubKey.Key)
    ensures KeyFromBase64(PubKey.MarshalPublicKey(k)) == KeyLookup(Some(k), None)
  {
    PubKey.UnmarshalMarshal(k);
  }

  function Pow256(k: nat): nat
  {
    if k == 0 then 1 else 256 * Pow256(k - 1)
  }

  /** `ipToBigInt`: the address bytes read as one big-endian integer. */
  function IpToBigInt(ip: seq<byte>): nat
  {
    if ip == [] then 0 else IpToBigInt(ip[..|ip| - 1]) * 256 + ip[|ip| - 1]
  }

  lemma {:induction false} IpToBigIntBound(ip: seq<byte>)
    ensures IpToBigInt(ip) < Pow256(|ip|)
  {
    if ip != [] {
      IpToBigIntBound(ip[..|ip| - 1]);
    }
  }

  /** The integer of a dotted-quad address in its 4-byte form. */
  lemma FourBytes(a: byte, b: byte, c: byte, d: byte)
    ensures IpToBigInt([a, b, c, d]) == a * 0x100_0000 + b * 0x1_0000 + c * 0x100 + d
  {
    assert [a] == [] + [a];
    assert [a, b] == [a] + [b];
    assert [a, b, c] == [a, b] + [c];
    assert [a, b, c, d] == [a, b, c] + [d];
    IpToBigIntAppend([], a);
    IpToBigIntAppend([a], b);
    IpToBigIntAppend([a, b], c);
    IpToBigIntAppend([a, b, c], d);
  }

  /** The 16-byte parse of 10.255.255.254 reads as 0xFFFF_0AFF_FFFE, not as the address 0x0AFF_FFFE. */
  lemma ExhaustionBoundValues()
    ensures IpToBigInt(ExhaustionBound) == 0x0AFF_FFFE
    ensures IpToBigInt(ExhaustionBoundAsParsed) == 0xFFFF_0AFF_FFFE
  {
    ExhaustionBoundValue();
    ExhaustionBoundAsParsedValue();
  }

  lemma ExhaustionBoundValue()
    ensures IpToBigInt(ExhaustionBound) == 0x0AFF_FFFE
  {
    FourBytes(10, 255, 255, 254);
  }

  lemma ExhaustionBoundAsParsedValue()
    ensures IpToBigInt(ExhaustionBoundAsParsed) == 0xFFFF_0AFF_FFFE
  {
    var ip := ExhaustionBoundAsParsed;
    ZerosReadAsZero(ip[..10]);
    Prefix(ip, 10);
    Prefix(ip, 11);
    assert IpToBigInt(ip[..12]) == 0xFFFF;
    Prefix(ip, 12);
    Prefix(ip, 13);
    assert IpToBigInt(ip[..14]) == 0xFFFF0AFF;
    Prefix(ip, 14);
    Prefix(ip, 15);
    assert ip[..16] == ip;
  }

  lemma Prefix(ip: seq<byte>, k: nat)
    requires k < |ip|
    ensures IpToBigInt(ip[..k + 1]) == IpToBigInt(ip[..k]) * 256 + ip[k]
  {
    assert ip[..k + 1] == ip[..k] + [ip[k]];
    IpToBigIntAppend(ip[..k], ip[k]);
  }

  lemma {:induction false} ZerosReadAsZero(z: seq<byte>)
    requires forall i :: 0 <= i < |z| ==> z[i] == 0
    ensures IpToBigInt(z) == 0
  {
    if z != [] {
      ZerosReadAsZero(z[..|z| - 1]);
    }
  }

  /** `big.Int.Bytes`: the minimal big-endian bytes of a natural number. */
  function BigIntBytes(n: nat): (b: seq<byte>)
    ensures IpToBigInt(b) == n
    ensures b != [] ==> b[0] != 0
    decreases n
  {
    if n == 0 then [] else
      IpToBigIntAppend(BigIntBytes(n / 256), n % 256);
      BigIntBytes(n / 256) + [n % 256]
  }

  lemma IpToBigIntAppend(ip: seq<byte>, last: byte)
    ensures IpToBigInt(ip + [last]) == IpToBigInt(ip) * 256 + last
  {
    assert (ip + [last])[..|ip|] == ip;
  }

  /** The first address handed out: `net.ParseIP("10.0.0.2").To4()`. */
  const FirstIPv4: seq<byte> := [10, 0, 0, 2]

  /** The exhaustion bound as the allocator parses it: `net.ParseIP` yields the 16-byte IPv4-in-IPv6 form. */
  const ExhaustionBoundAsParsed: seq<byte> := [0, 0, 0, 0, 0, 0, 0, 0, 0, 0, 255, 255, 10, 255, 255, 254]

  /** The exhaustion bound in the 4-byte form the taken addresses have. */
  const ExhaustionBound: seq<byte> := [10, 255, 255, 254]

  /** The integer values of all taken IPv4 addresses. */
  function IPv4Values(rows: map<string, Row>): set<nat>
  {
    set id | id in rows && rows[id].ipv4.Some? :: IpToBigInt(rows[id].ipv4.value)
  }

  /** A finite set of address values has a highest one. */
  lemma {:induction false} HighestOf(s: set<nat>) returns (m: nat)
    requires s != {}
    ensures m in s && forall x :: x in s ==> x <= m
    decreases s
  {
    var y :| y in s;
    if s == {y} {
      m := y;
    } else {
      var rest := HighestOf(s - {y});
      m := if y <= rest then rest else y;
      assert forall x :: x in s ==> x == y || x in s - {y};
    }
  }

  /** A finite set of address values has a lowest one. */
  lemma {:induction false} LowestOf(s: set<nat>) returns (m: nat)
    requires s != {}
    ensures m in s && forall x :: x in s ==> m <= x
    decreases s
  {
    var y :| y in s;
    if s == {y} {
      m := y;
    } else {
      var rest := LowestOf(s - {y});
      m := if rest <= y then rest else y;
      assert forall x :: x in s ==> x == y || x in s - {y};
    }
  }

  /** An address value lies in the pool the allocator means to use: 10.0.0.2 up to, not including, 10.255.255.254. */
  predicate InPool(v: nat)
  {
    IpToBigInt(FirstIPv4) <= v < IpToBigInt(ExhaustionBound)
  }

  class PeerStore {
    var rows: map<string, Row>

    ghost predicate Valid()
      reads this
    {
      IdsMatch(rows) && KeysUnique(rows) && (forall id :: id in rows ==> NoNilSlots(rows[id]))
    }

    constructor ()
      ensures Valid() && rows == map[]
    {
      rows := map[];
    }

    /**
     * `CreatePeer`: mint an id from the random bytes and insert a fresh row
     * whose expiry is `now`. An id already taken is refused by the unique
     * index and nothing is written.
     */
    method CreatePeer(random: seq<byte>, now: int, fault: Option<string>) returns (p: Peer?, err: Option<StoreError>)
      requires Valid()
      requires |random| == AccountIdSize
      modifies this
      ensures Valid()
      ensures fault.Some? ==> p == null && err == Some(Db(fault.value)) && rows == old(rows)
      ensures fault.None? && AccountIdFor(random) in old(rows) ==>
                p == null && err == Some(UniqueViolation(AccountIdColumn)) && rows == old(rows)
      ensures fault.None? && AccountIdFor(random) !in old(rows) ==>
                err == None && p != null && fresh(p) &&
                p.AsRow() == NewRow(AccountIdFor(random), now) &&
                rows == old(rows)[AccountIdFor(random) := NewRow(AccountIdFor(random), now)]
    {
      var accountId := AccountIdFor(random);
      if fault.Some? {
        return null, Some(Db(fault.value));
      }
      if accountId in rows {
        return null, Some(UniqueViolation(AccountIdColumn));
      }
      p := new Peer(NewRow(accountId, now));
      rows := rows[accountId := p.AsRow()];
      err := None;
    }

    /** `GetPeer`: `PeerNotFound` exactly when no row matches; any other error passes through. */
    method GetPeer(accountId: string, fault: Option<string>) returns (p: Peer?, err: Option<StoreError>)
      ensures err == Some(PeerNotFound) <==> fault.None? && accountId !in rows
      ensures fault.Some? ==> p == null && err == Some(Db(fault.value))
      ensures fault.None? && accountId !in rows ==> p == null
      ensures fault.None? && accountId in rows ==> err == None && p != null && fresh(p) && p.AsRow() == rows[accountId]
    {
      if fault.Some? {
        return null, Some(Db(fault.value));
      }
      if accountId !in rows {
        return null, Some(PeerNotFound);
      }
      p := new Peer(rows[accountId]);
      err := None;
    }

    /** `SavePeer`: write the peer's row; the unique index refuses a key text another account holds. */
    method SavePeer(p: Peer, fault: Option<string>) returns (err: Option<StoreError>)
      requires Valid()
      modifies this
      ensures Valid()
      ensures err == None <==> fault.None? && !KeyClaimedByOther(old(rows), p.AsRow())
      ensures err.Some? ==> err == (if fault.Some? then Some(Db(fault.value)) else Some(UniqueViolation(KeyColumn)))
      ensures rows == if err == None then old(rows)[p.accountId := Stored(p.AsRow())] else old(rows)
    {
      if fault.Some? {
        return Some(Db(fault.value));
      }
      if KeyClaimedByOther(rows, p.AsRow()) {
        return Some(UniqueViolation(KeyColumn));
      }
      rows := rows[p.accountId := Stored(p.AsRow())];
      err := None;
    }

    /**
     * `GetNewIPs` as written: 10.0.0.2 when no address is taken, otherwise
     * the address of the row `Last` returns, plus one. `Last` appends a
     * descending primary-key order after "ipv4 asc" and takes the first row,
     * so that row holds the LOWEST address. The exhaustion test compares
     * against the 16-byte parse of 10.255.255.254, and the new address is
     * already in the result when the error is raised.
     */
    method GetNewIPsAsWritten(fault: Option<string>) returns (ips: IPPair, err: Option<StoreError>)
      ensures ips.v6 == []
      ensures fault.Some? ==> ips.v4 == [] && err == Some(Db(fault.value))
      ensures fault.None? ==> ips.v4 != [] && LowestPlusOne(IPv4Values(rows), ips.v4)
      ensures fault.None? && IPv4Values(rows) == {} ==> err == None
      ensures fault.None? && IPv4Values(rows) != {} ==>
                ips.v4 == BigIntBytes(IpToBigInt(ips.v4)) &&
                (err.Some? <==> IpToBigInt(ips.v4) == IpToBigInt(ExhaustionBoundAsParsed)) &&
                (err.Some? ==> err == Some(ExhaustedIPv4))
    {
      ips := IPPair([], []);
      if fault.Some? {
        return ips, Some(Db(fault.value));
      }
      var taken := IPv4Values(rows);
      if taken == {} {
        return IPPair(FirstIPv4, []), None;
      }
      ghost var lowest := LowestOf(taken);
      var last :| last in taken && forall x :: x in taken ==> last <= x;
      var next := last + 1;
      ips := ips.(v4 := BigIntBytes(next));
      if next == IpToBigInt(ExhaustionBoundAsParsed) {
        return ips, Some(ExhaustedIPv4);
      }
      err := None;
    }

    /**
     * `GetNewIPs` as intended: the highest taken address plus one, with the
     * bound in the 4-byte form the addresses have. The error fires when the
     * next address would be 10.255.255.254, so every address it hands out
     * is above all taken ones and stays in the pool.
     */
    method GetNewIPs(fault: Option<string>) returns (ips: IPPair, err: Option<StoreError>)
      ensures ips.v6 == []
      ensures fault.Some? ==> ips.v4 == [] && err == Some(Db(fault.value))
      ensures fault.None? ==> ips.v4 != [] && HighestPlusOne(IPv4Values(rows), ips.v4)
      ensures fault.None? && IPv4Values(rows) == {} ==> err == None
      ensures fault.None? && IPv4Values(rows) != {} ==>
                ips.v4 == BigIntBytes(IpToBigInt(ips.v4)) &&
                (err.Some? <==> IpToBigInt(ips.v4) == IpToBigInt(ExhaustionBound)) &&
                (err.Some? ==> err == Some(ExhaustedIPv4))
      ensures fault.None? && err.None? && (forall v :: v in IPv4Values(rows) ==> InPool(v)) ==>
                InPool(IpToBigInt(ips.v4))
    {
      ips := IPPair([], []);
      if fault.Some? {
        return ips, Some(Db(fault.value));
      }
      var taken := IPv4Values(rows);
      ExhaustionBoundValue();
      if taken == {} {
        FourBytes(10, 0, 0, 2);
        return IPPair(FirstIPv4, []), None;
      }
      ghost var highest := HighestOf(taken);
      var last :| last in taken && forall x :: x in taken ==> x <= last;
      var next := last + 1;
      ips := ips.(v4 := BigIntBytes(next));
      if next == IpToBigInt(ExhaustionBound) {
        return ips, Some(ExhaustedIPv4);
      }
      err := None;
    }
  }

  /** The address the as-written allocator hands out: 10.0.0.2 when none is taken, else the lowest plus one. */
  ghost predicate LowestPlusOne(taken: set<nat>, v4: seq<byte>)
  {
    (taken == {} ==> v4 == FirstIPv4) &&
    (taken != {} ==> IpToBigInt(v4) - 1 in taken && forall v :: v in taken ==> IpToBigInt(v4) - 1 <= v)
  }

  /** The address the intended allocator hands out: 10.0.0.2 when none is taken, else the highest plus one. */
  ghost predicate HighestPlusOne(taken: set<nat>, v4: seq<byte>)
  {
    (taken == {} ==> v4 == FirstIPv4) &&
    (taken != {} ==> IpToBigInt(v4) - 1 in taken && forall v :: v in taken ==> v < IpToBigInt(v4))
  }

  /** Every stored IPv4 address has at most four bytes, as those the allocator writes below 2^32 do. */
  predicate FourByteAddresses(rows: map<string, Row>)
  {
    forall id :: id in rows && rows[id].ipv4.Some? ==> |rows[id].ipv4.value| <= 4
  }

  /**
   * The as-written exhaustion test can never fire while addresses have at
   * most four bytes: the highest plus one is at most 2^32, far below the
   * 16-byte bound it is compared with.
   */
  lemma ExhaustionCheckNeverFires(rows: map<string, Row>)
    requires FourByteAddresses(rows)
    ensures forall v :: v in IPv4Values(rows) ==> v + 1 != IpToBigInt(ExhaustionBoundAsParsed)
  {
    ExhaustionBoundValues();
    forall v | v in IPv4Values(rows)
      ensures v + 1 != IpToBigInt(ExhaustionBoundAsParsed)
    {
      var id :| id in rows && rows[id].ipv4.Some? && IpToBigInt(rows[id].ipv4.value) == v;
      var ip := rows[id].ipv4.value;
      IpToBigIntBound(ip);
      assert Pow256(4) == 0x1_0000_0000;
      PowMonotone(|ip|, 4);
    }
  }

  lemma {:induction false} PowMonotone(j: nat, k: nat)
    requires j <= k
    ensures Pow256(j) <= Pow256(k)
    decreases k
  {
    if j < k {
      PowMonotone(j, k - 1);
    }
  }

  /**
   * The address the pool should refuse: after 10.255.255.253 the as-written
   * allocator hands out 10.255.255.254 without an error, where the intended
   * bound is exactly that address.
   */
  lemma PoolEndSlipsThrough()
    ensures IpToBigInt([10, 255, 255, 253]) + 1 == IpToBigInt(ExhaustionBound)
    ensures IpToBigInt([10, 255, 255, 253]) + 1 != IpToBigInt(ExhaustionBoundAsParsed)
  {
    ExhaustionBoundValues();
    FourBytes(10, 255, 255, 253);
  }

  /**
   * The as-written allocator hands out taken addresses: with 10.0.0.2 and
   * 10.0.0.3 taken, the lowest plus one is 10.0.0.3 again, and nothing
   * stops a second account from storing it.
   */
  lemma LowestPlusOneIsTaken(n: nat)
    requires var rows := map["A" := Row("A", 0, None, Some([10, 0, 0, 2]), None, false),
                             "B" := Row("B", 0, None, Some([10, 0, 0, 3]), None, false)];
             n - 1 in IPv4Values(rows) && forall v :: v in IPv4Values(rows) ==> n - 1 <= v
    ensures var rows := map["A" := Row("A", 0, None, Some([10, 0, 0, 2]), None, false),
                            "B" := Row("B", 0, None, Some([10, 0, 0, 3]), None, false)];
            n in IPv4Values(rows) && n == IpToBigInt([10, 0, 0, 3])
  {
    var rows := map["A" := Row("A", 0, None, Some([10, 0, 0, 2]), None, false),
                    "B" := Row("B", 0, None, Some([10, 0, 0, 3]), None, false)];
    FourBytes(10, 0, 0, 2);
    FourBytes(10, 0, 0, 3);
    assert IpToBigInt(rows["A"].ipv4.value) in IPv4Values(rows);
    assert IpToBigInt(rows["B"].ipv4.value) in IPv4Values(rows);
    forall v | v in IPv4Values(rows)
      ensures v == 0x0A00_0002 || v == 0x0A00_0003
    {
      var id :| id in rows && rows[id].ipv4.Some? && v == IpToBigInt(rows[id].ipv4.value);
      assert id == "A" || id == "B";
    }
  }
}
