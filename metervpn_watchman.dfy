/**
 * The reconciler of the metervpn generation (metervpn/watchman.go). Unlike
 * the daemon's, it carries on without the device (then it only
 * disconnects), connects with a /32 mask, and deletes a key from the store
 * once the device has removed it.
 */
module MeterVpnWatchman {
  import opened Wrappers
  import PubKey
  import opened WireGuard
  import opened MeterVpnStore

  /**
   * What the outside world answers during one tick: the store's read error
   * for a key, `GetIPAddress` (unfinished in the source, so an oracle), the
   * commands the device refuses, and the store's delete error for a key.
   */
  datatype World = World(
    readFault: Key -> Option<string>,
    ipOf: Key -> Option<seq<PubKey.byte>>,
    refused: set<Command>,
    deleteFault: Key -> Option<string>)

  /** The device commands of a tick, the database after it, and whether it ended in a panic. */
  datatype TickResult = TickResult(commands: seq<Command>, db: map<string, Stored>, crashed: bool)

  /** `DisconnectPeer`: the store entry goes only if the device removed the key and the delete succeeds. */
  function AfterDisconnect(db: map<string, Stored>, k: Key, w: World): map<string, Stored>
  {
    if Disconnect(k) !in w.refused && w.deleteFault(k).None? then db - {KeyForPubkey(k)} else db
  }

  /** What the tick does for one key: at most one command, the database after it, and whether it panicked. */
  datatype Visited = Visited(command: Option<Command>, db: map<string, Stored>, crashed: bool)

  /**
   * One key. An expiry that is not read is dereferenced as nil and panics;
   * a lapsed key is disconnected; an active key is skipped without a
   * device, and connected with its address as /32 when the device lacks it
   * and the address reads.
   */
  function Visit(now: int, device: Option<set<Key>>, db: map<string, Stored>, k: Key, w: World): Visited
  {
    var expiry := Expiry(db, k, now, w.readFault(k));
    if !expiry.Ok? then Visited(None, db, true)
    else if now > expiry.value then Visited(Some(Disconnect(k)), AfterDisconnect(db, k, w), false)
    else if device.None? || k in device.value || w.ipOf(k).None? then Visited(None, db, false)
    else Visited(Some(Connect(k, [IPNet(w.ipOf(k).value, 32, 32)])), db, false)
  }

  function Sent(command: Option<Command>): seq<Command>
  {
    if command.Some? then [command.value] else []
  }

  /** The keys in listing order, each seeing the database as the earlier ones left it; a panic ends the walk. */
  function Walk(now: int, device: Option<set<Key>>, db: map<string, Stored>, keys: seq<Key>, w: World): TickResult
    decreases |keys|
  {
    if keys == [] then TickResult([], db, false)
    else
      var v := Visit(now, device, db, keys[0], w);
      if v.crashed then TickResult([], db, true)
      else
        var rest := Walk(now, device, v.db, keys[1..], w);
        TickResult(Sent(v.command) + rest.commands, rest.db, rest.crashed)
  }

  /** The commands already sent ahead of the rest of a walk. */
  function Resume(sent: seq<Command>, rest: TickResult): TickResult
  {
    TickResult(sent + rest.commands, rest.db, rest.crashed)
  }

  lemma ResumeVisit(sent: seq<Command>, command: Option<Command>, rest: TickResult)
    ensures Resume(sent, TickResult(Sent(command) + rest.commands, rest.db, rest.crashed)) == Resume(sent + Sent(command), rest)
  {
    assert sent + (Sent(command) + rest.commands) == sent + Sent(command) + rest.commands;
  }

  /** The listing a successful `GetAllPubkeys` may return. */
  ghost predicate ListingOf(db: map<string, Stored>, keys: seq<Key>)
  {
    forall k :: k in keys <==> Listed(db, k)
  }

  datatype TickOutcome = StoreUnavailable | Reconciled(result: TickResult)

  function DeviceKeys(device: Option<seq<Key>>): Option<set<Key>>
  {
    if device.None? then None else Some(set k | k in device.value)
  }

  class Watchman {
    const store: LevelDBAllowanceStore

    constructor(store: LevelDBAllowanceStore)
      ensures this.store == store
    {
      this.store := store;
    }

    /**
     * `Tick`: a device error is only reported (`device` is then None); a
     * listing error ends the tick; otherwise the listed keys are walked.
     */
    method Tick(now: int, device: Option<seq<Key>>, w: World) returns (outcome: TickOutcome)
      modifies store
      ensures !AllDecode(old(store.db)) ==> outcome == StoreUnavailable && store.db == old(store.db)
      ensures AllDecode(old(store.db)) ==>
                exists keys :: ListingOf(old(store.db), keys) &&
                  outcome == Reconciled(Walk(now, DeviceKeys(device), old(store.db), keys, w))
      ensures outcome.Reconciled? ==> store.db == outcome.result.db
    {
      var pubkeys, err := store.GetAllPubkeys();
      if err.Some? {
        return StoreUnavailable;
      }
      assert ListingOf(store.db, pubkeys);
      var result := Reconcile(now, device, pubkeys, w);
      outcome := Reconciled(result);
    }

    /** The loop of `Tick` over the listed keys. */
    method Reconcile(now: int, device: Option<seq<Key>>, pubkeys: seq<Key>, w: World) returns (result: TickResult)
      modifies store
      ensures result == Walk(now, DeviceKeys(device), old(store.db), pubkeys, w)
      ensures store.db == result.db
    {
      ghost var target := Walk(now, DeviceKeys(device), store.db, pubkeys, w);
      var sent: seq<Command> := [];
      var i := 0;
      while i < |pubkeys|
        invariant 0 <= i <= |pubkeys|
        invariant Resume(sent, Walk(now, DeviceKeys(device), store.db, pubkeys[i..], w)) == target
      {
        assert pubkeys[i..][0] == pubkeys[i] && pubkeys[i..][1..] == pubkeys[i + 1..];
        var command, crashed := VisitKey(now, device, pubkeys[i], w);
        if crashed {
          return TickResult(sent, store.db, true);
        }
        ResumeVisit(sent, command, Walk(now, DeviceKeys(device), store.db, pubkeys[i + 1..], w));
        sent := sent + Sent(command);
        i := i + 1;
      }
      assert pubkeys[i..] == [];
      assert sent + [] == sent;
      result := TickResult(sent, store.db, false);
    }

    /** The body of `Tick`'s loop for one key, with `ConnectPeer` and `DisconnectPeer`. */
    method VisitKey(now: int, device: Option<seq<Key>>, pubkey: Key, w: World) returns (command: Option<Command>, crashed: bool)
      modifies store
      ensures Visited(command, store.db, crashed) == Visit(now, DeviceKeys(device), old(store.db), pubkey, w)
    {
      var expiry := store.GetExpiry(pubkey, now, w.readFault(pubkey));
      if !expiry.Ok? {
        // `*expiry` on the nil result.
        return None, true;
      }
      crashed := false;
      if now > expiry.value {
        command := Some(Disconnect(pubkey));
        if Disconnect(pubkey) !in w.refused {
          var _ := store.DeletePubkey(pubkey, w.deleteFault(pubkey));
        }
        return;
      }
      command := None;
      if device.None? {
        return;
      }
      var found := Found(device.value, pubkey);
      if !found {
        var ip := w.ipOf(pubkey);
        if ip.Some? {
          command := Some(Connect(pubkey, [IPNet(ip.value, 32, 32)]));
        }
      }
    }
  }

  /** The search of `Tick` for a device peer whose key text is the stored key's text. */
  method Found(peers: seq<Key>, pubkey: Key) returns (found: bool)
    ensures found <==> pubkey in peers
  {
    var pubkeyStr := PubKey.MarshalPublicKey(pubkey);
    found := false;
    var j := 0;
    while j < |peers|
      invariant 0 <= j <= |peers|
      invariant forall m :: 0 <= m < j ==> PubKey.MarshalPublicKey(peers[m]) != pubkeyStr
    {
      if PubKey.MarshalPublicKey(peers[j]) == pubkeyStr {
        PubKey.MarshalInjective(peers[j], pubkey);
        return true;
      }
      j := j + 1;
    }
    forall m | 0 <= m < |peers|
      ensures peers[m] != pubkey
    {
      PubKey.MarshalInjective(peers[m], pubkey);
    }
  }

  /** The store entries a tick's successful removals delete. */
  function Removed(commands: seq<Command>, w: World): set<string>
  {
    set c | c in commands && c.Disconnect? && c !in w.refused && w.deleteFault(c.key).None? :: KeyForPubkey(c.key)
  }

  /**
   * A tick deletes from the store exactly the entries of the keys the device
   * removed and the store then deleted; a refused removal or a failed
   * delete leaves the entry, and nothing else changes.
   */
  lemma {:induction false} WalkDeletesExactlyRemoved(now: int, device: Option<set<Key>>, db: map<string, Stored>,
                                                     keys: seq<Key>, w: World)
    ensures var t := Walk(now, device, db, keys, w);
            t.db == db - Removed(t.commands, w)
    decreases |keys|
  {
    if keys != [] {
      var k := keys[0];
      var v := Visit(now, device, db, k, w);
      if v.crashed {
        assert Removed([], w) == {};
      } else {
        var rest := Walk(now, device, v.db, keys[1..], w);
        WalkDeletesExactlyRemoved(now, device, v.db, keys[1..], w);
        var all := Sent(v.command) + rest.commands;
        if v.command.Some? && v.command.value.Disconnect? {
          if Disconnect(k) !in w.refused && w.deleteFault(k).None? {
            assert Removed(all, w) == {KeyForPubkey(k)} + Removed(rest.commands, w);
          } else {
            assert Removed(all, w) == Removed(rest.commands, w);
          }
        } else {
          assert Removed(all, w) == Removed(rest.commands, w);
        }
      }
    }
  }

  /**
   * Over a store whose entries were written through `keyForPubkey`, a key
   * the tick removed from the device and deleted is absent from the next
   * tick's listing.
   */
  lemma RemovedKeyLeavesListing(now: int, device: Option<set<Key>>, db: map<string, Stored>, keys: seq<Key>, w: World, k: Key)
    requires Canonical(db)
    requires Disconnect(k) in Walk(now, device, db, keys, w).commands
    requires Disconnect(k) !in w.refused && w.deleteFault(k).None?
    ensures !Listed(Walk(now, device, db, keys, w).db, k)
  {
    var t := Walk(now, device, db, keys, w);
    WalkDeletesExactlyRemoved(now, device, db, keys, w);
    assert KeyForPubkey(k) in Removed(t.commands, w);
    assert Canonical(t.db);
    CanonicalListing(t.db);
  }

  /**
   * Without the device, a tick only disconnects; every connect carries the
   * key's address alone, with a /32 mask, and goes to a key the device lacks.
   */
  lemma {:induction false} WalkCommandShapes(now: int, device: Option<set<Key>>, db: map<string, Stored>, keys: seq<Key>, w: World)
    ensures forall c :: c in Walk(now, device, db, keys, w).commands ==>
              c.key in keys &&
              (c.Connect? ==> device.Some? && c.key !in device.value && w.ipOf(c.key).Some? &&
                              c.allowedIPs == [IPNet(w.ipOf(c.key).value, 32, 32)])
    decreases |keys|
  {
    if keys != [] {
      var v := Visit(now, device, db, keys[0], w);
      if !v.crashed {
        WalkCommandShapes(now, device, v.db, keys[1..], w);
      }
    }
  }

  /** A lapsed key is disconnected whether or not the device is readable or holds it. */
  lemma LapsedKeyDisconnected(now: int, device: Option<set<Key>>, db: map<string, Stored>, k: Key, w: World)
    requires Expiry(db, k, now, w.readFault(k)).Ok? && now > Expiry(db, k, now, w.readFault(k)).value
    ensures Visit(now, device, db, k, w).command == Some(Disconnect(k))
    ensures Visit(now, device, db, k, w).db == if Disconnect(k) in w.refused || w.deleteFault(k).Some? then db
                                               else db - {KeyForPubkey(k)}
  {
  }

  /** A key whose expiry cannot be read stops the tick at that key with a panic, the store as it was. */
  lemma UnreadableExpiryPanics(now: int, device: Option<set<Key>>, db: map<string, Stored>, keys: seq<Key>, w: World)
    requires keys != [] && w.readFault(keys[0]).Some?
    ensures Walk(now, device, db, keys, w) == TickResult([], db, true)
  {
  }
}
