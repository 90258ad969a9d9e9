# meter-vpn in Dafny

meter-vpn sells WireGuard access time for Lightning payments. Every account
(or, in the older generations, every public key) has an expiry. A payment
gateway issues invoices. When an invoice settles, the gateway credits the
account. A reconciler ("agent" or "watchman") periodically compares the
WireGuard device's peers with the accounts: it connects the active ones and
disconnects the lapsed ones.

The repository holds three generations of this design. The model keeps
them apart, one Dafny module per source file:

- `daemon/`, the newest generation, is modelled by these modules:
  - `DaemonStore`, the account table and the IPv4 allocator.
  - `PubKey`, the key codec.
  - `Settlement`, the invoice settlement the three gateways share.
  - `VpnMeter`, `ParkingMeter` and `TollBooth`, the three gateways.
  - `VpnAgent` and `DaemonWatchman`, the two reconcilers.
- `metervpn/` is modelled by `MeterVpnStore` and `MeterVpnWatchman`.
- `lib/` is modelled by `LibStore` and `LibTollBooth`.

Helper modules model what the code borrows from Go's standard library:

- `Base64` is Go's `base64.StdEncoding`, the padded alphabet of section 4 of RFC 4648. It is proved to round-trip.
- `Base32` covers the 10-byte account ids.
- `GoTime` covers durations in nanoseconds, `ParseDuration` of a count of seconds, `math.Ceil`, and second-precision timestamps.
- `NetIp` is `net.IP.String`.
- `WireGuard` is the device, seen as a set of keys plus a list of commands.
- `Wrappers` holds Option and Result.

The model abstracts the outside world as follows:

- **Stores.** Each store is a class holding a `map`. Every database error a call can meet is a parameter (`fault`, `getFault`, `putFault`, …) that the caller chooses.
- **Lightning node.** Its invoice subscription is a sequence of deliveries. `AddInvoice` is a parameter (`minted`).
- **Device.** It is a set of keys. The commands a tick sends are the tick's result, and the commands the device refuses are a parameter.
- **Clock.** The clock is a parameter (`now`).
- **Completion channel.** The gateways' completion channel is a ghost sequence `signalled`.
- **Panics.** A nil dereference is an explicit `Crash`/`Panic` outcome.

## Model

| member | source | states |
|---|---|---|
| PubKey.UnmarshalPublicKey | daemon/pubkey.go:12-23 | undecodable base64 is an error with no key; a decoded length other than 32 is "bad public key size"; on success the key is exactly the decoded bytes |
| PubKey.MarshalPublicKey | daemon/pubkey.go:25-27 | the text of a key is always 44 characters |
| PubKey.UnmarshalMarshal | daemon/pubkey.go:12-27 | every 32-byte key survives marshal then unmarshal |
| PubKey.MarshalInjective | daemon/pubkey.go:25-27 | two keys have the same text if and only if they are the same key |
| Base64.Encode | daemon/pubkey.go:26 | the standard encoding of n bytes is 4·⌈n/3⌉ characters and holds no line break |
| Base64.DecodeEncode | daemon/pubkey.go:13 | decoding the standard encoding of any byte string gives that byte string back |
| Base64.EncodeInjective | daemon/pubkey.go:26 | distinct byte strings have distinct encodings |
| Base64.StripNewlinesIdentity | daemon/pubkey.go:13 | the decoder's removal of CR and LF leaves an encoder's output unchanged |
| Base32.Encode | daemon/store.go:52 | whole 5-byte groups encode to 8 characters each, all from the RFC 4648 section 6 alphabet |
| Base32.DecodeEncode | daemon/store.go:52 | the encoding loses no bit: decoding the text group by group gives the bytes back |
| Base32.EncodeInjective | daemon/store.go:52 | two byte strings of whole groups have the same text exactly when they are equal |
| GoTime.ParseSeconds | lib/tollbooth.go:59 | a duration read as "<text>s" is a whole number of seconds, within int64's range |
| GoTime.ParseSecondsDecimal | lib/tollbooth.go:59 | a plain count such as "90" reads as that many seconds |
| GoTime.ParseSecondsNegative | daemon/vpnMeter.go:158 | a count behind a minus sign reads as a negative duration, which the handlers do not refuse |
| GoTime.Ceil | daemon/vpnMeter.go:169-172 | `math.Ceil`: the least integer not below its argument |
| GoTime.CeilDiv | daemon/tollbooth.go:142-145 | integer division rounded up: the least q with q·b ≥ a |
| GoTime.Format | lib/store.go:30 | a second-precision layout keeps the whole second at or below the instant |
| GoTime.ParseFormat | lib/store.go:30-44 | a formatted instant reads back truncated to its second, never later, exact for whole seconds |
| DaemonStore.ErrorText | daemon/store.go:28 | a database error's text is passed through unchanged; a unique-index refusal names the column whose index refused |
| DaemonStore.AccountIdFor | daemon/store.go:49-52 | an account id is the base32 of 10 random bytes: 16 characters of the RFC 4648 alphabet that decode back to exactly those bytes |
| DaemonStore.AccountIdInjective | daemon/store.go:49-52 | two draws give the same account id exactly when they drew the same 10 bytes |
| DaemonStore.Stored | daemon/store.go:23-24 | the row the database keeps: a nil address in either slot is written as NULL and reads back as no address; set slots and all other fields are kept |
| DaemonStore.Peer.constructor | daemon/store.go:16-26 | a loaded `Peer` holds exactly the stored row |
| DaemonStore.Peer.AddAllowance | daemon/store.go:90-92 | expiry becomes old expiry + duration with no clamp to now; no other field changes |
| DaemonStore.KeyFromBase64 | daemon/store.go:94-101 | succeeds exactly when the key codec does and returns its key; undecodable text gives no key and an error; a decodable text of the wrong length gives an error together with a non-nil all-zero key |
| DaemonStore.KeyFromBase64Marshal | daemon/store.go:94-101 | every key's own text is accepted and gives that key back |
| DaemonStore.IpToBigIntBound | daemon/store.go:103-107 | `ipToBigInt` reads the address bytes as a big-endian number below 256^length |
| DaemonStore.BigIntBytes | daemon/store.go:127 | `big.Int.Bytes` is the minimal big-endian form: it reads back as the number and has no leading zero |
| DaemonStore.ExhaustionBoundValues | daemon/store.go:128 | the bound 10.255.255.254 is 0x0AFFFFFE in 4-byte form but 0xFFFF0AFFFFFE in the 16-byte form `net.ParseIP` returns |
| DaemonStore.HighestOf | daemon/store.go:109-133 | a non-empty set of stored addresses has a highest one, from which the intended allocator counts on |
| DaemonStore.LowestOf | daemon/store.go:113-117 | a non-empty set of stored addresses has a lowest one, the row `Last` returns after "ipv4 asc" and its own descending primary-key order |
| DaemonStore.PeerStore.constructor | daemon/store.go:41-43 | a new store is empty and satisfies the uniqueness invariant |
| DaemonStore.PeerStore.CreatePeer | daemon/store.go:49-61 | a new peer gets a 16-character base32 id, expiry = now, and no key or address; a clash with an existing id is refused by the account_id index, and it or a database error leaves the table unchanged |
| DaemonStore.PeerStore.GetPeer | daemon/store.go:63-72 | "peer not found" exactly when no database error occurred and no row has the id; any other error passes through; a found peer is a fresh copy of its row |
| DaemonStore.PeerStore.SavePeer | daemon/store.go:74-76 | the save succeeds exactly when no database error occurs and no other account holds the same key text (the unique indexes of lines 19 and 22, the refusal naming public_key_b64); on success the row is replaced by its stored form, nil addresses as NULL, otherwise the table is unchanged; the uniqueness invariant and the absence of stored nil addresses are kept |
| DaemonStore.PeerStore.GetNewIPsAsWritten | daemon/store.go:109-133 | the allocator as written: 10.0.0.2 for an empty pool; otherwise the minimal bytes of the LOWEST stored address + 1, the row `Last` picks; the IPv6 slot stays nil; a database error passes through; the exhaustion error fires only on equality with the 16-byte bound |
| DaemonStore.PeerStore.GetNewIPs | daemon/store.go:109-133 | the allocator as intended: 10.0.0.2 for an empty pool, otherwise the highest stored address + 1, above every stored one; an error exactly when the next address is 10.255.255.254, and without error the result stays inside 10.0.0.2–10.255.255.253 when the stored addresses do |
| DaemonStore.ExhaustionCheckNeverFires | daemon/store.go:127-131 | no stored address of at most 4 bytes can make the written comparison equal, so the written check never fires |
| DaemonStore.PoolEndSlipsThrough | daemon/store.go:127-131 | from 10.255.255.253 the next address is the intended bound yet differs from the bound as written |
| DaemonStore.LowestPlusOneIsTaken | daemon/store.go:113-127 | with 10.0.0.2 and 10.0.0.3 taken, every answer of the allocator as written is 10.0.0.3, an address already taken |
| Settlement.SettleUnknownIsNoOp | daemon/vpnMeter.go:106-111 | a payment request not in the pending table changes nothing |
| Settlement.SettleRedelivery | daemon/vpnMeter.go:106-122 | a settlement delivered again after it retired its entry changes nothing, so credit and signal happen once |
| Settlement.SettleCredits | daemon/vpnMeter.go:112-122 | a pending request whose account loads and saves adds exactly the pending duration to that account's expiry, touches nothing else, retires the entry and signals once |
| Settlement.SettleLoadFailure | daemon/vpnMeter.go:113-116 | a peer that fails to load leaves the entry in the table and signals nothing |
| Settlement.SettleSaveFailure | daemon/vpnMeter.go:118-122 | a failed save loses the credit, but the entry is still signalled and deleted |
| Settlement.FeedRetriesAfterReceiveError | daemon/parkingMeter.go:110-114 | in the retrying loop a receive error is skipped and reading resumes on the same subscription |
| Settlement.DrainWithoutErrors | daemon/vpnMeter.go:134-144 | without receive errors vpnMeter's inner loop settles exactly what the retrying loop does |
| Settlement.DrainStopsAtReceiveError | daemon/vpnMeter.go:135-140 | vpnMeter's inner loop abandons the subscription at the first receive error; nothing after it is read |
| Settlement.FeedIgnoresUnsettled | daemon/parkingMeter.go:115-123 | deliveries whose invoice is not SETTLED change nothing |
| Settlement.FeedOnlyMovesExpiry | daemon/parkingMeter.go:124-134 | settlement adds or removes no account and changes nothing in an account but its expiry |
| Settlement.FeedSignalsEachRetiredEntryOnce | daemon/vpnMeter.go:106-123 | over any sequence of deliveries, entries leave the table exactly when their completion is signalled, each is signalled once, and no entry is added or altered |
| Settlement.FeedWithoutChannel | daemon/tollbooth.go:61-64 | the tollbooth has no completion channel: settlement never signals |
| Settlement.RunStopsOnSubscribeError | daemon/vpnMeter.go:127-133 | a subscribe error ends the run at once with nothing settled |
| Settlement.InvoiceValue | daemon/vpnMeter.go:169-172 | the invoice value is the least whole satoshi amount not below duration/1h × rate |
| Settlement.LoadPeerFromCookie | daemon/vpnMeter.go:89-104 | a missing cookie is a 500, a database error a 500 with its text, an unknown account a 404, and a known one yields a fresh copy of its row |
| VpnMeter.VPNMeter.constructor | daemon/vpnMeter.go:37-61 | a gateway starts with an empty pending table and nothing signalled |
| VpnMeter.VPNMeter.FulfillPaymentRequest | daemon/vpnMeter.go:106-123 | the table, the accounts and the signals change exactly as settlement of that request prescribes |
| VpnMeter.VPNMeter.Run | daemon/vpnMeter.go:125-146 | the state after a run is that of the run over the subscriptions: each subscription is drained until a receive error, then a 15 s pause and a resubscription; a subscribe error is fatal; the pauses add up to 15 s per restart |
| VpnMeter.VPNMeter.HandleExtensionRequest | daemon/vpnMeter.go:148-192 | cookie and lookup errors answer 500 or 404; for a loaded account a missing body is a 400 and an unparsable duration a 400 with `time.ParseDuration`'s text; an extension past now + 30 days from the stored expiry is refused with the cap message; otherwise the invoice asks for the ceiling price; the request is pending, under the returned request, exactly when `AddInvoice` succeeds; the accounts never change |
| VpnMeter.CapFromStoredExpiry | daemon/vpnMeter.go:163-168 | the cap is measured from the stored expiry even when it has lapsed |
| ParkingMeter.IPv6Text | daemon/parkingMeter.go:285-288 | the IPv6 text is empty unless an address is stored |
| ParkingMeter.ParkingMeter.constructor | daemon/parkingMeter.go:36-60 | a gateway starts with an empty pending table and nothing signalled |
| ParkingMeter.ParkingMeter.Run | daemon/parkingMeter.go:101-136 | a subscribe error is fatal and changes nothing; otherwise the state is that of the retrying settlement loop over all deliveries |
| ParkingMeter.ParkingMeter.Receive | daemon/parkingMeter.go:110-134 | one delivery: as the toll booth's, and a settled request is also signalled on the completion channel |
| ParkingMeter.ParkingMeter.HandleExtensionRequest | daemon/parkingMeter.go:138-170 | cookie and lookup errors answer 500 or 404; for a loaded account a missing body is a 400 and an unparsable duration a 400 with `time.ParseDuration`'s text; no upper cap; the invoice asks for the ceiling price; the request is pending exactly when `AddInvoice` succeeds; the accounts never change |
| ParkingMeter.ParkingMeter.HandleExtensionCompletedRequest | daemon/parkingMeter.go:172-191 | 404 exactly when the request is not pending, already fulfilled ones included; otherwise completed or timed out |
| ParkingMeter.ParkingMeter.HandleSetPubkeyRequest | daemon/parkingMeter.go:245-265 | a missing body or a key `KeyFromBase64` refuses is a 400 and nothing is saved; a database error is a 500 with its text, and a key text another account holds a 500 with the unique-index text on `peers.public_key_b64`; an accepted key text is stored verbatim exactly when no other account holds it and no error occurs; on any failure the accounts are unchanged |
| ParkingMeter.ParkingMeter.HandleIPRequest | daemon/parkingMeter.go:267-293 | an account with an address gets that address back and nothing changes, so the pool does not advance; one without, with no fault and 4-byte stored addresses, gets the as-written allocator's address (the lowest stored one + 1), saved before the answer with its nil IPv6 slot stored as NULL, and an empty "ipv6"; an allocator or save error is a 500 with that error's text and the accounts unchanged |
| ParkingMeter.ParkingMeter.AssignAddresses | daemon/parkingMeter.go:272-282 | the unaddressed branch: allocate, fill both slots, save; each error is a 500 with its text and nothing is saved |
| TollBooth.InvoiceValue250 | daemon/tollbooth.go:142-145 | ⌈duration × 250 / 1 h⌉ computed with integers |
| TollBooth.InvoiceValue250AtRate | daemon/tollbooth.go:21 | the integer price equals the real-valued ceiling price at 250 sat/h |
| TollBooth.PeerToJSON | daemon/tollbooth.go:173-193 | "v4" holds the IPv6 text when an IPv6 slot is stored, else the IPv4 text; "v6" is always empty; the expiry is truncated to its second |
| TollBooth.InMemoryPeerShowsNil | daemon/tollbooth.go:181-183 | a peer held in memory as `HandleIPRequest` leaves it (IPv6 pointer to a nil address) would show "<nil>" as its v4 |
| TollBooth.StoredPeerShowsIPv4 | daemon/tollbooth.go:181-183 | the same peer read back from the store, where the nil slot became NULL, shows its IPv4 text |
| TollBooth.TollBooth.constructor | daemon/tollbooth.go:36-59 | a gateway starts with an empty pending table |
| TollBooth.TollBooth.Run | daemon/tollbooth.go:86-119 | a subscribe error is fatal; otherwise the retrying settlement loop without signals |
| TollBooth.TollBooth.Receive | daemon/tollbooth.go:95-117 | one delivery: only a SETTLED invoice for a pending request credits the account (kept only if the save succeeds) and retires the entry; a failed load leaves the entry |
| TollBooth.TollBooth.HandleExtensionRequest | daemon/tollbooth.go:121-158 | a missing body is a 400; an unknown account is a 500, never a 404; for a found account an unparsable duration is a 400 with `time.ParseDuration`'s text; the pending entry holds the path account id and the duration, under the returned request, exactly when `AddInvoice` succeeds |
| TollBooth.TollBooth.HandleSetConfigRequest | daemon/tollbooth.go:204-212 | answers 400 for a bad body and 200 otherwise, and changes no state |
| NetIp.IPString | daemon/parkingMeter.go:289-291 | "<nil>" for no address, dotted decimal for a 4-byte address |
| NetIp.IPv4InIPv6Prints | daemon/parkingMeter.go:289-291 | an IPv4 address in 16-byte form prints as dotted decimal |
| WireGuard.Accepted | daemon/vpnAgent.go:103-112 | the commands that took effect are those sent and not refused |
| WireGuard.Refused | daemon/vpnAgent.go:103-112 | the commands that failed are those sent and refused |
| WireGuard.ApplyAllAsSets | daemon/vpnAgent.go:73-82 | when no key is both added and removed, the device ends with the removed keys gone and the added keys present |
| VpnAgent.AllowedIPs | daemon/vpnAgent.go:92-102 | IPv4/32 first, then IPv6/128 only when the IPv6 slot is set |
| VpnAgent.Tick | daemon/vpnAgent.go:48-84 | a device error or a store error aborts with no command; otherwise the commands are those of the per-account decisions of `ConnectPeer` as written, in listing order, up to a panic (an active unaddressed account the device lacks panics); the store is only read |
| VpnAgent.DeviceKeys | daemon/vpnAgent.go:57-60 | the lookup table holds exactly the device's peer keys |
| VpnAgent.DecideValidKey | daemon/vpnAgent.go:67-83 | for a valid key: connect exactly when now < expiry, the key is absent and the account has an address; disconnect exactly when now > expiry and the key is present; nothing at now = expiry |
| VpnAgent.SendNamesKey | daemon/vpnAgent.go:86-133 | a command names the key of the account it came from |
| VpnAgent.PlanCollects | daemon/vpnAgent.go:67-83 | a tick without panic (as written or corrected) sends exactly the commands its accounts decided; one failing does not stop the others |
| VpnAgent.PlansAgreeWhenAddressed | daemon/vpnAgent.go:86-114 | when every account has an address, the tick as written and as corrected send the same commands |
| VpnAgent.AcceptedKeysDisjoint | daemon/vpnAgent.go:73-82 | with distinct keys, no key is both connected and disconnected by one tick |
| VpnAgent.SecondDecision | daemon/vpnAgent.go:73-82 | with no key named by two accounts, for a tick that did not panic: after the accepted commands, an account's second decision repeats its command only if the device refused it |
| VpnAgent.SecondTickRepeatsOnlyRefused | daemon/vpnAgent.go:73-82 | with no key named by two accounts, for a first tick that did not panic: with the same now, a second tick (as written or corrected) over the device as the accepted commands left it sends exactly the refused commands, and none when all succeeded |
| VpnAgent.TwoTextsOneKeyFlaps | daemon/store.go:22 | two accounts whose texts differ by a leading line feed both pass the text-level unique index and name one key; with the active one listed first and the lapsed one second, one tick disconnects the key, the next connects it back (not a refused command), and the device returns to where it began |
| VpnAgent.UnaddressedPeerPanics | daemon/vpnAgent.go:94 | an active account with a valid key but no address panics the agent as written, and is skipped as corrected |
| DaemonWatchman.ConnectCommand | daemon/watchman.go:102-120 | one allowed IP with a /128 mask; no command when the address lookup fails |
| DaemonWatchman.FindPeer | daemon/watchman.go:85-91 | the search over the device's peers by key text finds a peer exactly when the key is among them |
| DaemonWatchman.VisitKey | daemon/watchman.go:63-97 | one loop pass sends exactly the per-key decision: nothing for an unreadable or missing expiry, a disconnect when lapsed, a connect when active and absent |
| DaemonWatchman.Tick | daemon/watchman.go:48-100 | a device error or a listing error aborts; otherwise the commands of the per-key decisions in listing order, the device search being a comparison of key texts |
| DaemonWatchman.DecideCases | daemon/watchman.go:65-97 | an unreadable or missing expiry gives nothing; a lapsed key is disconnected whether or not the device holds it; an active key is connected exactly when the device lacks it and its address reads |
| DaemonWatchman.LapsedKeyDisconnectedEveryTick | daemon/watchman.go:74-80 | a lapsed key gets a disconnect on every tick, whatever the device holds |
| DaemonWatchman.PlanCommandsFromListing | daemon/watchman.go:62-100 | every command belongs to a listed key with an expiry; connects go only to active keys the device lacks, with the /128 address |
| MeterVpnStore.KeyForPubkey | metervpn/store.go:34-38 | the storage key is "pubkey:" followed by the 44-character base64 of the key |
| MeterVpnStore.StripKeyForPubkey | metervpn/store.go:99-100 | stripping the 7-character prefix and decoding recovers the key |
| MeterVpnStore.KeyForPubkeyInjective | metervpn/store.go:34-38 | distinct keys have distinct storage keys |
| MeterVpnStore.Load | metervpn/store.go:48-62 | a missing entry is an empty record; a database error or a value that is not a JSON record is an error; otherwise the stored record |
| MeterVpnStore.Expiry | metervpn/store.go:76-89 | `GetExpiry` with the error checked first never panics |
| MeterVpnStore.ExpiryAsWrittenPanicsOnlyOnLoadError | metervpn/store.go:77-83 | as written, `GetExpiry` panics exactly when the load fails, and otherwise agrees with the corrected reading |
| MeterVpnStore.UnknownKeyExpiresNow | metervpn/store.go:76-81 | an unknown key's expiry is now |
| MeterVpnStore.LevelDBAllowanceStore.constructor | metervpn/store.go:26-28 | the store holds the given database |
| MeterVpnStore.LevelDBAllowanceStore.LoadOrCreateRecord | metervpn/store.go:48-62 | answers as `Load` and writes nothing |
| MeterVpnStore.LevelDBAllowanceStore.GetExpiryAsWritten | metervpn/store.go:76-89 | answers as the written reading, a panic on a failed load included |
| MeterVpnStore.LevelDBAllowanceStore.GetExpiry | metervpn/store.go:76-89 | answers as the corrected reading |
| MeterVpnStore.LevelDBAllowanceStore.AddAllowanceAsWritten | metervpn/store.go:64-74 | returns the expiry read + duration and writes it as bare RFC 3339 text; any error leaves the database unchanged |
| MeterVpnStore.LevelDBAllowanceStore.AddAllowance | metervpn/store.go:40-46 | returns the expiry read + duration and writes a JSON record with that expiry, keeping the record's IP; any error leaves the database unchanged |
| MeterVpnStore.LevelDBAllowanceStore.DeletePubkey | metervpn/store.go:91-93 | exactly that key's entry is removed; an error leaves the database unchanged |
| MeterVpnStore.LevelDBAllowanceStore.GetAllPubkeys | metervpn/store.go:95-107 | fails exactly when some prefixed entry does not decode to a key; otherwise returns exactly the keys the prefixed entries decode to |
| MeterVpnStore.CanonicalListing | metervpn/store.go:95-107 | over entries written through `keyForPubkey` the listing succeeds and returns exactly the keys written |
| MeterVpnStore.AllowanceThenExpiryPanics | metervpn/store.go:64-89 | once `AddAllowance` as written has credited a key, `GetExpiry` as written panics on it |
| MeterVpnStore.AllowanceThenExpiryReadsBack | metervpn/store.go:40-46 | with the record written through `saveRecord`, the next read returns the new expiry truncated to its second, with the IP kept |
| MeterVpnWatchman.Watchman.constructor | metervpn/watchman.go:14-18 | the watchman works on the given store |
| MeterVpnWatchman.Watchman.Tick | metervpn/watchman.go:50-93 | a listing error aborts with the store unchanged; a device error does not abort; otherwise the result and the new store are those of the walk over a listing of the stored keys |
| MeterVpnWatchman.Watchman.Reconcile | metervpn/watchman.go:63-92 | the commands, the new store and the panic flag are those of the walk over the keys in order |
| MeterVpnWatchman.Watchman.VisitKey | metervpn/watchman.go:64-129 | one key's command, store change and panic are those of the per-key rule |
| MeterVpnWatchman.Found | metervpn/watchman.go:78-84 | comparing key texts finds a peer exactly when the key is on the device |
| MeterVpnWatchman.WalkDeletesExactlyRemoved | metervpn/watchman.go:115-128 | a tick deletes exactly the entries of keys the device removed and the store then deleted; a refused removal or a failed delete leaves the entry |
| MeterVpnWatchman.RemovedKeyLeavesListing | metervpn/watchman.go:115-128 | over a store written through `keyForPubkey`: a key removed and deleted is absent from the next tick's listing |
| MeterVpnWatchman.WalkCommandShapes | metervpn/watchman.go:74-112 | without the device only disconnects are sent; connects go to keys the device lacks, with one /32 address |
| MeterVpnWatchman.LapsedKeyDisconnected | metervpn/watchman.go:67-72 | a lapsed key is disconnected whether or not the device is readable or holds it, and its entry goes only if the removal and the delete succeed |
| MeterVpnWatchman.UnreadableExpiryPanics | metervpn/watchman.go:64-66 | an expiry that cannot be read panics the tick at that key |
| LibStore.KeyForPubkey | lib/store.go:20-22 | the storage key is 64 lower-case hex characters |
| LibStore.KeyForPubkeyInjective | lib/store.go:20-22 | distinct keys have distinct storage keys |
| LibStore.HexRoundTrip | lib/store.go:21 | the hex text decodes back to the key bytes |
| LibStore.ExpiryOf | lib/store.go:36-49 | an unknown key's expiry is now; read and parse errors are errors; a stored expiry is a whole second |
| LibStore.LevelDBExpiryStore.constructor | lib/store.go:14-16 | the store holds the given database |
| LibStore.LevelDBExpiryStore.GetExpiry | lib/store.go:36-49 | answers as `ExpiryOf` and writes nothing, not even for an unknown key |
| LibStore.LevelDBExpiryStore.AddDuration | lib/store.go:24-34 | stores and returns the expiry read + duration, so an unknown key starts from now; read and write errors propagate with nothing written |
| LibStore.LevelDBExpiryStore.GetTimeLeft | lib/store.go:51-58 | the expiry minus the later clock reading, negative exactly when lapsed; errors propagate |
| LibStore.StoredExpiryIgnoresNow | lib/store.go:25-29 | a stored expiry is extended from its old value, lapsed or not |
| LibStore.AddThenGet | lib/store.go:24-49 | after a write the key reads back truncated to its second, and every other key reads as before |
| LibTollBooth.ExtractPubkey | lib/tollbooth.go:35-46 | decode errors propagate; a decoded length other than 32 is "public key must be 32 bytes"; on success the key is the decoded bytes |
| LibTollBooth.ExtractAgreesWithUnmarshal | lib/tollbooth.go:35-46 | accepts exactly the texts the daemon's codec accepts, with the same key |
| LibTollBooth.ExtractMarshal | lib/tollbooth.go:35-46 | a key's own text extracts to that key |
| LibTollBooth.ValidateExtension | lib/tollbooth.go:49-63 | the request passes exactly when the body binds, the key extracts and the duration parses |
| LibTollBooth.ValidationOrder | lib/tollbooth.go:49-58 | a binding error is reported first, then a key error ahead of a duration error |
| LibTollBooth.TollBooth.constructor | lib/tollbooth.go:14-16 | the handlers work on the given store |
| LibTollBooth.TollBooth.HandleExtensionRequest | lib/tollbooth.go:48-71 | any validation failure is a 400 with the store untouched; then `AddDuration`: its result as RFC 1123, or a 500 with the store untouched |
| LibTollBooth.TollBooth.HandleGetExpiryRequest | lib/tollbooth.go:73-90 | 400 for a bad body or key, 500 for a store error, otherwise the expiry; it cannot write |
| LibTollBooth.SecondsInBody | lib/tollbooth.go:59 | "90" as the duration means 90 seconds |

## Left out

- gRPC and TLS setup with the Lightning node, macaroons, and metervpn/tollbooth.go are foreign calls. The subscription is a sequence of deliveries and `AddInvoice` is a parameter.
- Concurrency and timing are not modelled: goroutines, the pending table shared without a lock, tickers, `time.Sleep`, and the blocking completion send. `HandleExtensionCompletedRequest` takes whether the completion arrived within the minute as a parameter.
- daemon/price.go and the price handlers are float64 arithmetic over an HTTP fetch. The hourly rate is a parameter.
- Bootstrap, routing and templates are not modelled: cmd/metervpn/main.go, cmd/meterd/main.go and main.go.
- lib/watchman.go only fetches the device and logs.
- metervpn/store.go `GetIPAddress` is unfinished (it has no return). The watchmen take address lookups as parameters.
- The daemon's `GetPeersWithKey`, `GetAllPubkeys`, `GetExpiry` and `GetIPAddress` are not in its store interface and not in the source. The reconcilers take their answers as parameters.
- The gorm/SQLite and LevelDB mechanics are not modelled (columns, migrations, iterators). The stores are maps. The `Last` query after "ipv4 asc" orders addresses by their integer value; SQLite compares the stored bytes, which agrees for the 4-byte addresses the allocator writes.
- A gorm struct query with an empty account id has no condition and loads the first row. The model treats an empty cookie like any other unknown id.
- crypto/rand is an oracle: `CreatePeer` takes the 10 random bytes as a parameter.
- The www/ JavaScript is browser presentation.
- `HandleGetPeerRequest` and `HandleCreatePeerRequest` are not modelled. They are thin wrappers over `GetPeer`, `PeerToJSON` and `CreatePeer`.
- vpnMeter's and parkingMeter's copies of `PeerToJSON` are not modelled. They are near-identical, and the tollbooth one is modelled.
- vpnMeter's `HandleSetPubkeyRequest`, `HandleIPRequest` and `HandleExtensionCompletedRequest` repeat parkingMeter's line for line. They are modelled once, in `ParkingMeter`.
- `GetPeers` of daemon/store.go is not used by any modelled operation.
- VpnAgent.SecondTickRepeatsOnlyRefused and VpnAgent.SecondDecision, the agent's idempotence, are proved only for listings in which no key is named by two accounts. The store does not guarantee that: its unique index on `public_key_b64` (daemon/store.go:22) compares texts, while `KeyFromBase64` skips line feeds, so two texts can name one key. VpnAgent.TwoTextsOneKeyFlaps shows the agent then flapping a key on every tick. No corrected store (a unique index on the decoded key) is modelled.
- GoTime.ParseSeconds accepts only an optional sign and decimal digits. Bodies that `time.ParseDuration` accepts once "s" is appended read as errors here: fractions ("1.5"), a trailing unit prefix ("1m" is read by Go as 1 ms, "1u" and "1n" as 1 µs and 1 ns) and leading units ("1h1" is 1h1s).
- Floating point is exact here: `InvoiceValue` is the exact real ceiling, not float64 rounding. int64 overflow of expiries is not modelled.
- NetIp.IPString prints IPv6 addresses as eight uncompressed hex groups, without the "::" shortening. Only the IPv4 and nil forms are stated.
- Timestamps are taken in UTC. With a local zone, RFC 1123 text can parse back at a different instant.
- Base32.Encode covers whole 5-byte groups only, which is all the 10-byte account ids need.
- MeterVpnStore.LevelDBAllowanceStore.GetAllPubkeys visits the entries in an unspecified order, whereas LevelDB visits them in key order. Only the set of keys returned is stated.
- MeterVpnWatchman.Watchman.Tick relates its result to some listing of the stored keys, not to LevelDB's order.
- The error texts of the base64 decoder and of `time.Parse` are abbreviated. They do not carry the byte offset or the quoted input.
- GoTime.InvalidDurationText wraps the text in plain double quotes; `time.ParseDuration` quotes it with Go escaping, so a body holding `"`, `\` or a control character gets a different text.
- A body that fails to bind is answered 400 with the fixed text "invalid JSON body"; gin passes the JSON decoder's own message, which depends on the bytes received and is not modelled.
- A key of the wrong length is answered with "wgtypes: incorrect key size" alone; `wgtypes.NewKey` also appends the length it was given.

## Findings

| source | as written | input that shows it | evidently intended | confidence | as-written member | corrected member |
|---|---|---|---|---|---|---|
| daemon/store.go:128 | the incremented 4-byte address is compared with `ipToBigInt(net.ParseIP("10.255.255.254"))`, i.e. with the 16-byte form 0xFFFF0AFFFFFE | only stored address 10.255.255.253 (the row `Last` returns): the allocator returns 10.255.255.254 without error | refuse once the next address reaches 10.255.255.254, comparing in 4-byte form | high, not executed | DaemonStore.PeerStore.GetNewIPsAsWritten, DaemonStore.ExhaustionCheckNeverFires | DaemonStore.PeerStore.GetNewIPs |
| daemon/store.go:113-117 | `Last` appends `"peers"."id" DESC` to the explicit "ipv4 asc" and keeps the first row, which holds the lowest address | 10.0.0.2 and 10.0.0.3 taken: the next unaddressed account is given 10.0.0.3 again; the ipv4 column has no unique index, so the save succeeds | the highest address plus one (`Order("ipv4 desc").First`, or `Last` without the explicit order) | medium (it rests on gorm v1's `Last` adding its primary-key order after the explicit one), not executed | DaemonStore.PeerStore.GetNewIPsAsWritten, DaemonStore.LowestPlusOneIsTaken | DaemonStore.PeerStore.GetNewIPs |
| daemon/vpnAgent.go:94 | `ConnectPeer` dereferences `peer.IPv4` without a nil check | an account with a valid key, an expiry in the future and no address yet (key set, IP never requested), absent from the device: the agent panics | report an error for that account and continue, as for an invalid key | medium (it depends on `GetPeersWithKey`, which is not part of this model, not filtering on the address), not executed | VpnAgent.DecideWith, VpnAgent.UnaddressedPeerPanics | VpnAgent.Decide, VpnAgent.DecideValidKey |
| metervpn/store.go:70, 78 | `AddAllowance` writes the new expiry as bare RFC 3339 text, which `loadOrCreateRecord` cannot decode as a JSON record; `GetExpiry` reads `record.Expiry` before checking the error | any key after one successful `AddAllowance`: the next `GetExpiry` (and so the watchman's tick) panics | write the record through `saveRecord`, and check the load error first | high, not executed | MeterVpnStore.LevelDBAllowanceStore.AddAllowanceAsWritten, MeterVpnStore.AllowanceThenExpiryPanics | MeterVpnStore.LevelDBAllowanceStore.AddAllowance, MeterVpnStore.AllowanceThenExpiryReadsBack |
