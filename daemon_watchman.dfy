/**
 * The daemon's key-based reconciler (daemon/watchman.go). Each tick lists
 * every stored key, reads its expiry, disconnects a lapsed key and connects
 * an active key the device lacks. The store calls it makes (`GetAllPubkeys`,
 * `GetExpiry`, `GetIPAddress`) are not in the daemon's store interface, so
 * here they are oracles; device writes are the returned command list.
 */
module DaemonWatchman {
  import opened Wrappers
  import PubKey
  import opened WireGuard

  /** How the store answered `GetExpiry` for one key: an error, no expiry, or an instant. */
  datatype ExpiryAnswer = ExpiryError(message: string) | NoExpiry | ExpiresAt(instant: int)

  /** `ConnectPeer`: one allowed IP, the key's address as /128; no command when `GetIPAddress` fails. */
  function ConnectCommand(key: Key, ip: Option<seq<PubKey.byte>>): (c: Option<Command>)
    ensures c.Some? <==> ip.Some?
    ensures c.Some? ==> c.value == Connect(key, [IPNet(ip.value, 128, 128)])
  {
    if ip.None? then None else Some(Connect(key, [IPNet(ip.value, 128, 128)]))
  }

  /**
   * The tick's decision for one listed key. `onDevice` is what the inner
   * search over the device's peers found.
   */
  function Decide(now: int, onDevice: bool, key: Key, expiry: ExpiryAnswer, ip: Option<seq<PubKey.byte>>): Option<Command>
  {
    match expiry
    case ExpiryError(_) => None
    case NoExpiry => None
    case ExpiresAt(t) =>
      if now > t then Some(Disconnect(key))
      else if onDevice then None
      else ConnectCommand(key, ip)
  }

  /** The commands of a tick over `keys`, in listing order; a refused command does not stop it. */
  function Plan(now: int, device: set<Key>, keys: seq<Key>,
                expiryOf: Key -> ExpiryAnswer, ipOf: Key -> Option<seq<PubKey.byte>>): seq<Command>
  {
    if keys == [] then []
    else
      var c := Decide(now, keys[0] in device, keys[0], expiryOf(keys[0]), ipOf(keys[0]));
      (if c.Some? then [c.value] else []) + Plan(now, device, keys[1..], expiryOf, ipOf)
  }

  datatype TickOutcome = DeviceUnavailable | StoreUnavailable | Reconciled(commands: seq<Command>)

  /** The inner search of `Tick`: a peer whose key text equals `pubkey`'s text. */
  method FindPeer(peers: seq<Key>, pubkey: Key) returns (found: bool)
    ensures found <==> pubkey in peers
  {
    var pubkeyStr := PubKey.MarshalPublicKey(pubkey);
    found := false;
    var j := 0;
    while j < |peers|
      invariant 0 <= j <= |peers|
      invariant !found ==> forall m :: 0 <= m < j ==> peers[m] != pubkey
      invariant found ==> pubkey in peers
    {
      PubKey.MarshalInjective(peers[j], pubkey);
      if PubKey.MarshalPublicKey(peers[j]) == pubkeyStr {
        found := true;
        break;
      }
      j := j + 1;
    }
  }

  /** One pass of `Tick`'s loop body: the command (if any) sent for `pubkey`. */
  method VisitKey(now: int, peers: seq<Key>, pubkey: Key,
                  expiryOf: Key -> ExpiryAnswer, ipOf: Key -> Option<seq<PubKey.byte>>)
    returns (c: Option<Command>)
    ensures c == Decide(now, pubkey in (set k | k in peers), pubkey, expiryOf(pubkey), ipOf(pubkey))
  {
    c := None;
    match expiryOf(pubkey) {
      case ExpiresAt(t) =>
        if now > t {
          c := Some(Disconnect(pubkey));
        } else {
          var found := FindPeer(peers, pubkey);
          if !found {
            c := ConnectCommand(pubkey, ipOf(pubkey));
          }
        }
      case _ =>
    }
  }

  /**
   * `Tick`: a device error or a listing error ends it; otherwise each key is
   * decided, and an active key is looked up among the device's peers by
   * comparing key texts.
   */
  method Tick(now: int, device: Result<seq<Key>, string>, listing: Result<seq<Key>, string>,
              expiryOf: Key -> ExpiryAnswer, ipOf: Key -> Option<seq<PubKey.byte>>)
    returns (outcome: TickOutcome)
    ensures device.Failure? ==> outcome == DeviceUnavailable
    ensures device.Success? && listing.Failure? ==> outcome == StoreUnavailable
    ensures device.Success? && listing.Success? ==>
              outcome == Reconciled(Plan(now, (set k | k in device.value), listing.value, expiryOf, ipOf))
  {
    if device.Failure? {
      return DeviceUnavailable;
    }
    if listing.Failure? {
      return StoreUnavailable;
    }
    var peers := device.value;
    ghost var onDevice := set k | k in peers;
    var pubkeys := listing.value;
    var sent: seq<Command> := [];
    var i := 0;
    while i < |pubkeys|
      invariant 0 <= i <= |pubkeys|
      invariant sent + Plan(now, onDevice, pubkeys[i..], expiryOf, ipOf) == Plan(now, onDevice, pubkeys, expiryOf, ipOf)
    {
      var c := VisitKey(now, peers, pubkeys[i], expiryOf, ipOf);
      PlanStep(now, onDevice, pubkeys, expiryOf, ipOf, i);
      var one := if c.Some? then [c.value] else [];
      assert sent + Plan(now, onDevice, pubkeys[i..], expiryOf, ipOf)
          == (sent + one) + Plan(now, onDevice, pubkeys[i + 1..], expiryOf, ipOf);
      sent := sent + one;
      i := i + 1;
    }
    outcome := Reconciled(sent);
  }

  /** `Plan` over a suffix is the decision for its first key followed by the plan of the rest. */
  lemma PlanStep(now: int, device: set<Key>, keys: seq<Key>,
                 expiryOf: Key -> ExpiryAnswer, ipOf: Key -> Option<seq<PubKey.byte>>, i: nat)
    requires i < |keys|
    ensures var c := Decide(now, keys[i] in device, keys[i], expiryOf(keys[i]), ipOf(keys[i]));
            Plan(now, device, keys[i..], expiryOf, ipOf)
              == (if c.Some? then [c.value] else []) + Plan(now, device, keys[i + 1..], expiryOf, ipOf)
  {
    assert keys[i..][0] == keys[i] && keys[i..][1..] == keys[i + 1..];
  }

  /**
   * Per key: a key whose expiry cannot be read, or has none, gets nothing; a
   * lapsed key is disconnected whether or not the device has it; an active
   * key is connected exactly when the device lacks it and its address reads.
   */
  lemma DecideCases(now: int, onDevice: bool, key: Key, expiry: ExpiryAnswer, ip: Option<seq<PubKey.byte>>)
    ensures !expiry.ExpiresAt? ==> Decide(now, onDevice, key, expiry, ip) == None
    ensures expiry.ExpiresAt? && now > expiry.instant ==> Decide(now, onDevice, key, expiry, ip) == Some(Disconnect(key))
    ensures expiry.ExpiresAt? && now <= expiry.instant ==>
              (Decide(now, onDevice, key, expiry, ip).Some? <==> !onDevice && ip.Some?)
    ensures Decide(now, onDevice, key, expiry, ip).Some? ==> Decide(now, onDevice, key, expiry, ip).value.key == key
  {
  }

  /** A lapsed key is disconnected on every tick, whatever the device holds: the removal is not made conditional on presence. */
  lemma {:induction false} LapsedKeyDisconnectedEveryTick(now: int, device: set<Key>, keys: seq<Key>,
                                                          expiryOf: Key -> ExpiryAnswer, ipOf: Key -> Option<seq<PubKey.byte>>, i: nat)
    requires i < |keys| && expiryOf(keys[i]).ExpiresAt? && now > expiryOf(keys[i]).instant
    ensures Disconnect(keys[i]) in Plan(now, device, keys, expiryOf, ipOf)
    decreases i
  {
    if i > 0 {
      assert keys[1..][i - 1] == keys[i];
      LapsedKeyDisconnectedEveryTick(now, device, keys[1..], expiryOf, ipOf, i - 1);
    }
  }

  /** Every command of a tick belongs to a listed key, and an active key on the device never receives one. */
  lemma {:induction false} PlanCommandsFromListing(now: int, device: set<Key>, keys: seq<Key>,
                                                   expiryOf: Key -> ExpiryAnswer, ipOf: Key -> Option<seq<PubKey.byte>>)
    ensures forall c :: c in Plan(now, device, keys, expiryOf, ipOf) ==>
              c.key in keys && expiryOf(c.key).ExpiresAt? &&
              (c.Connect? <==> now <= expiryOf(c.key).instant) &&
              (c.Connect? ==> c.key !in device && ipOf(c.key).Some? && c.allowedIPs == [IPNet(ipOf(c.key).value, 128, 128)])
  {
    if keys != [] {
      PlanCommandsFromListing(now, device, keys[1..], expiryOf, ipOf);
    }
  }
}
