/**
 * The second payment gateway (daemon/parkingMeter.go): no cap on
 * extensions, settlement written inline in a `Run` loop that keeps reading
 * after a receive error, and the account handlers that set the WireGuard
 * key and hand out the tunnel address.
 */
module ParkingMeter {
  import opened Wrappers
  import GoTime
  import DaemonStore
  import NetIp
  import opened Settlement

  /** The request gets as far as asking for an invoice: known account and a parsable duration. */
  predicate ReachesInvoice(rows: map<string, Settlement.Row>, cookie: Option<string>, getFault: Option<string>,
                           body: Option<string>)
  {
    cookie.Some? && getFault.None? && cookie.value in rows && body.Some? &&
    GoTime.ParseSeconds(body.value).Some?
  }

  /** The "ipv6" field of `HandleIPRequest`: empty unless a non-nil address is stored. */
  function IPv6Text(ipv6: Option<seq<NetIp.byte>>): (text: string)
    ensures ipv6.None? || ipv6 == Some([]) ==> text == ""
  {
    if ipv6.Some? && ipv6.value != [] then NetIp.IPString(ipv6.value) else ""
  }

  /** The text of the allocator's exhaustion error. */
  const ExhaustedText := "exhausted IPv4 space"

  class ParkingMeter {
    const store: DaemonStore.PeerStore
    var pendingInvoices: map<string, Pending>
    ghost var signalled: seq<string>

    ghost predicate Valid()
      reads this, store
    {
      store.Valid()
    }

    ghost function State(): MeterState
      reads this, store
    {
      MeterState(store.rows, pendingInvoices, signalled)
    }

    constructor (store: DaemonStore.PeerStore)
      ensures this.store == store && pendingInvoices == map[] && signalled == []
    {
      this.store := store;
      pendingInvoices := map[];
      signalled := [];
    }

    /**
     * `Run`: one subscription; receive errors are logged and reading goes
     * on. `subscribeError` is the error `SubscribeInvoices` returns, which is
     * fatal.
     */
    method Run(subscribeError: Option<string>, deliveries: seq<Delivery>) returns (fatal: Option<string>)
      requires Valid()
      modifies this, store
      ensures Valid()
      ensures fatal == subscribeError
      ensures State() == if subscribeError.Some? then old(State()) else Feed(old(State()), deliveries, true)
    {
      if subscribeError.Some? {
        return subscribeError;
      }
      ghost var target := Feed(State(), deliveries, true);
      var i := 0;
      while i < |deliveries|
        invariant 0 <= i <= |deliveries|
        invariant Valid()
        invariant Feed(State(), deliveries[i..], true) == target
      {
        assert deliveries[i..][1..] == deliveries[i + 1..];
        Receive(deliveries[i]);
        i := i + 1;
      }
      assert deliveries[i..] == [];
      fatal := None;
    }

    /** One delivery in `Run`'s loop: only a SETTLED invoice for a pending request reaches the store. */
    method Receive(d: Delivery)
      requires Valid()
      modifies this, store
      ensures Valid()
      ensures State() == Apply(old(State()), d, true)
    {
      if d.RecvError? || d.state != Settled {
        return;
      }
      var payReq := d.paymentRequest;
      if payReq !in pendingInvoices {
        return;
      }
      var extension := pendingInvoices[payReq];
      var peer, err := store.GetPeer(extension.accountId, d.getFault);
      if err.Some? {
        return;
      }
      peer.AddAllowance(extension.duration);
      DaemonStore.StoredClean(peer.AsRow());
      assert !DaemonStore.KeyClaimedByOther(store.rows, peer.AsRow());
      var saveErr := store.SavePeer(peer, d.saveFault);
      signalled := signalled + [payReq];
      pendingInvoices := pendingInvoices - {payReq};
    }

    /** `HandleExtensionRequest`: as vpnMeter's, without the 30-day cap. */
    method HandleExtensionRequest(cookie: Option<string>, getFault: Option<string>, body: Option<string>,
                                  satsPerHour: real, minted: Result<string, string>)
      returns (resp: Response, value: Option<int>)
      requires Valid()
      modifies this
      ensures Valid() && store.rows == old(store.rows) && signalled == old(signalled)
      ensures cookie.None? ==> resp == ServerError(CookieMissing)
      ensures cookie.Some? && getFault.Some? ==> resp == ServerError(getFault.value)
      ensures cookie.Some? && getFault.None? && cookie.value !in store.rows ==> resp == NotFound
      ensures cookie.Some? && getFault.None? && cookie.value in store.rows && body.None? ==> resp.BadRequest?
      ensures cookie.Some? && getFault.None? && cookie.value in store.rows && body.Some? &&
              GoTime.ParseSeconds(body.value).None? ==>
                resp == BadRequest(GoTime.InvalidDurationText(body.value + "s"))
      ensures ReachesInvoice(store.rows, cookie, getFault, body) ==>
                value == Some(InvoiceValue(GoTime.ParseSeconds(body.value).value, satsPerHour))
      ensures !ReachesInvoice(store.rows, cookie, getFault, body) ==> value == None
      ensures resp.PaymentRequired? <==> ReachesInvoice(store.rows, cookie, getFault, body) && minted.Success?
      ensures resp.PaymentRequired? ==> resp.payReq == minted.value
      ensures ReachesInvoice(store.rows, cookie, getFault, body) && minted.Failure? ==>
                resp == ServerError(minted.error)
      ensures pendingInvoices ==
                if resp.PaymentRequired?
                then old(pendingInvoices)[minted.value :=
                       Pending(cookie.value, GoTime.ParseSeconds(body.value).value)]
                else old(pendingInvoices)
    {
      value := None;
      var peer, failure := LoadPeerFromCookie(store, cookie, getFault);
      if failure.Some? {
        return failure.value, None;
      }
      if body.None? {
        return BadRequest("invalid JSON body"), None;
      }
      var duration := GoTime.ParseSeconds(body.value);
      if duration.None? {
        return BadRequest(GoTime.InvalidDurationText(body.value + "s")), None;
      }
      value := Some(InvoiceValue(duration.value, satsPerHour));
      if minted.Failure? {
        return ServerError(minted.error), value;
      }
      pendingInvoices := pendingInvoices[minted.value := Pending(peer.accountId, duration.value)];
      resp := PaymentRequired(minted.value);
    }

    /**
     * `HandleExtensionCompletedRequest`: 404 unless the payment request is
     * pending; otherwise the answer says whether the completion arrived
     * before the one-minute timer (`completedInTime`).
     */
    method HandleExtensionCompletedRequest(payReq: string, completedInTime: bool) returns (resp: Response)
      ensures payReq !in pendingInvoices <==> resp == NotFound
      ensures payReq in pendingInvoices ==>
                resp == Completion(if completedInTime then "completed" else "timeout")
    {
      if payReq !in pendingInvoices {
        return NotFound;
      }
      resp := Completion(if completedInTime then "completed" else "timeout");
    }

    /**
     * `HandleSetPubkeyRequest`: the key text must pass `KeyFromBase64`; it
     * is then stored verbatim, unless another account already holds it.
     */
    method HandleSetPubkeyRequest(cookie: Option<string>, getFault: Option<string>, body: Option<string>,
                                  saveFault: Option<string>)
      returns (resp: Response)
      requires Valid()
      modifies store
      ensures Valid()
      ensures cookie.None? ==> resp == ServerError(CookieMissing)
      ensures cookie.Some? && getFault.Some? ==> resp == ServerError(getFault.value)
      ensures cookie.Some? && getFault.None? && cookie.value !in old(store.rows) ==> resp == NotFound
      ensures resp == OkNull <==>
                cookie.Some? && getFault.None? && cookie.value in old(store.rows) && body.Some? &&
                DaemonStore.KeyFromBase64(body.value).err.None? && saveFault.None? &&
                !DaemonStore.KeyClaimedByOther(old(store.rows),
                   old(store.rows)[cookie.value].(publicKeyB64 := Some(body.value)))
      ensures resp == OkNull ==>
                store.rows == old(store.rows)[cookie.value := old(store.rows)[cookie.value].(publicKeyB64 := Some(body.value))]
      ensures resp != OkNull ==> store.rows == old(store.rows)
      ensures (cookie.Some? && getFault.None? && cookie.value in old(store.rows) && body.Some? &&
               DaemonStore.KeyFromBase64(body.value).err.Some?) ==> resp.BadRequest?
      ensures cookie.Some? && getFault.None? && cookie.value in old(store.rows) && body.None? ==> resp.BadRequest?
      ensures cookie.Some? && getFault.None? && cookie.value in old(store.rows) && body.Some? &&
              DaemonStore.KeyFromBase64(body.value).err.None? && saveFault.Some? ==>
                resp == ServerError(saveFault.value)
      ensures cookie.Some? && getFault.None? && cookie.value in old(store.rows) && body.Some? &&
              DaemonStore.KeyFromBase64(body.value).err.None? && saveFault.None? &&
              DaemonStore.KeyClaimedByOther(old(store.rows),
                 old(store.rows)[cookie.value].(publicKeyB64 := Some(body.value))) ==>
                resp == ServerError(DaemonStore.ErrorText(DaemonStore.UniqueViolation(DaemonStore.KeyColumn)))
    {
      var peer, failure := LoadPeerFromCookie(store, cookie, getFault);
      if failure.Some? {
        return failure.value;
      }
      if body.None? {
        return BadRequest("invalid JSON body");
      }
      var checked := DaemonStore.KeyFromBase64(body.value);
      if checked.err.Some? {
        return BadRequest(if checked.err.value.InvalidBase64? then "illegal base64 data"
                          else "wgtypes: incorrect key size");
      }
      peer.publicKeyB64 := Some(body.value);
      DaemonStore.StoredClean(peer.AsRow());
      var err := store.SavePeer(peer, saveFault);
      if err.Some? {
        return ServerError(DaemonStore.ErrorText(err.value));
      }
      resp := OkNull;
    }

    /**
     * `HandleIPRequest`: a peer without an IPv4 address gets one from
     * `GetNewIPs` as written (the lowest taken address plus one) and the nil
     * IPv6 slot, which the database stores as NULL; the peer is saved before
     * answering. A peer that has an address gets it back and nothing moves.
     */
    method HandleIPRequest(cookie: Option<string>, getFault: Option<string>, ipFault: Option<string>,
                           saveFault: Option<string>)
      returns (resp: Response)
      requires Valid()
      modifies store
      ensures Valid()
      ensures cookie.None? ==> resp == ServerError(CookieMissing)
      ensures cookie.Some? && getFault.Some? ==> resp == ServerError(getFault.value)
      ensures cookie.Some? && getFault.None? && cookie.value !in old(store.rows) ==> resp == NotFound
      ensures cookie.Some? && getFault.None? && cookie.value in old(store.rows) &&
              old(store.rows)[cookie.value].ipv4.Some? ==>
                store.rows == old(store.rows) &&
                resp == Addresses(NetIp.IPString(old(store.rows)[cookie.value].ipv4.value),
                                  IPv6Text(old(store.rows)[cookie.value].ipv6))
      ensures cookie.Some? && getFault.None? && cookie.value in old(store.rows) &&
              old(store.rows)[cookie.value].ipv4.None? ==>
                (ipFault.Some? ==> resp == ServerError(ipFault.value)) &&
                (ipFault.None? && saveFault.Some? ==>
                   resp == ServerError(saveFault.value) || resp == ServerError(ExhaustedText)) &&
                (ipFault.None? && DaemonStore.FourByteAddresses(old(store.rows)) ==>
                   if saveFault.Some? then resp == ServerError(saveFault.value) else resp.Addresses?)
      ensures resp.Addresses? && cookie.Some? && cookie.value in old(store.rows) &&
              old(store.rows)[cookie.value].ipv4.None? ==>
                cookie.value in store.rows &&
                var row := store.rows[cookie.value];
                store.rows == old(store.rows)[cookie.value := row] &&
                row == old(store.rows)[cookie.value].(ipv4 := row.ipv4, ipv6 := None) &&
                row.ipv4.Some? && resp == Addresses(NetIp.IPString(row.ipv4.value), "") &&
                DaemonStore.LowestPlusOne(DaemonStore.IPv4Values(old(store.rows)), row.ipv4.value)
      ensures !resp.Addresses? ==> store.rows == old(store.rows)
    {
      var peer, failure := LoadPeerFromCookie(store, cookie, getFault);
      if failure.Some? {
        return failure.value;
      }
      if peer.ipv4.None? {
        var refused := AssignAddresses(peer, ipFault, saveFault);
        if refused.Some? {
          return refused.value;
        }
      }
      resp := Addresses(NetIp.IPString(peer.ipv4.value), IPv6Text(peer.ipv6));
    }

    /**
     * The unaddressed branch of `HandleIPRequest`: take the next addresses,
     * put them in both slots and save the peer; an allocator or save error
     * is answered with a 500 carrying its text.
     */
    method AssignAddresses(peer: DaemonStore.Peer, ipFault: Option<string>, saveFault: Option<string>)
      returns (refused: Option<Response>)
      requires store.Valid() && peer.accountId in store.rows
      requires peer.AsRow() == store.rows[peer.accountId] && peer.ipv4.None?
      modifies store, peer
      ensures store.Valid()
      ensures ipFault.Some? ==> refused == Some(ServerError(ipFault.value))
      ensures ipFault.None? && saveFault.Some? ==>
                refused == Some(ServerError(saveFault.value)) || refused == Some(ServerError(ExhaustedText))
      ensures ipFault.None? && DaemonStore.FourByteAddresses(old(store.rows)) ==>
                refused == if saveFault.Some? then Some(ServerError(saveFault.value)) else None
      ensures refused.Some? ==> refused.value.ServerError? && store.rows == old(store.rows)
      ensures refused.None? ==>
                peer.ipv4.Some? && peer.ipv4.value != [] && peer.ipv6 == Some([]) &&
                peer.AsRow() == old(peer.AsRow()).(ipv4 := peer.ipv4, ipv6 := Some([])) &&
                store.rows == old(store.rows)[peer.accountId := DaemonStore.Stored(peer.AsRow())] &&
                DaemonStore.LowestPlusOne(DaemonStore.IPv4Values(old(store.rows)), peer.ipv4.value)
    {
      ghost var before, row := store.rows, peer.AsRow();
      var ips, err := store.GetNewIPsAsWritten(ipFault);
      if ipFault.None? && DaemonStore.FourByteAddresses(before) && DaemonStore.IPv4Values(before) != {} {
        DaemonStore.ExhaustionCheckNeverFires(before);
      }
      if err.Some? {
        return Some(ServerError(DaemonStore.ErrorText(err.value)));
      }
      assert DaemonStore.LowestPlusOne(DaemonStore.IPv4Values(before), ips.v4);
      peer.ipv4 := Some(ips.v4);
      peer.ipv6 := Some(ips.v6);
      assert peer.AsRow() == row.(ipv4 := Some(ips.v4), ipv6 := Some([]));
      assert !DaemonStore.KeyClaimedByOther(before, peer.AsRow());
      var saveErr := store.SavePeer(peer, saveFault);
      if saveErr.Some? {
        return Some(ServerError(DaemonStore.ErrorText(saveErr.value)));
      }
      assert store.rows == before[peer.accountId := DaemonStore.Stored(peer.AsRow())];
      refused := None;
    }
  }
}
