/**
 * The third payment gateway (daemon/tollbooth.go): a fixed price of 250
 * satoshis per hour, the account id taken from the request path, and
 * settlement without a completion channel.
 */
module TollBooth {
  import opened Wrappers
  import GoTime
  import DaemonStore
  import NetIp
  import opened Settlement

  const SatsPerHour: int := 250

  /** `math.Ceil(duration / 1h * 250)`, computed on integers. */
  function InvoiceValue250(duration: int): (sats: int)
    ensures sats * GoTime.Hour >= duration * SatsPerHour
    ensures (sats - 1) * GoTime.Hour < duration * SatsPerHour
  {
    GoTime.CeilDiv(duration * SatsPerHour, GoTime.Hour)
  }

  /** The integer price is the rate-based price of the other gateways at a rate of 250. */
  lemma InvoiceValue250AtRate(duration: int)
    ensures InvoiceValue250(duration) == InvoiceValue(duration, 250.0)
  {
    var n := InvoiceValue250(duration);
    var m := InvoiceValue(duration, 250.0);
    var h := GoTime.Hour as real;
    var x := duration as real / h * 250.0;
    assert x * h == (duration * SatsPerHour) as real;
    assert (n * GoTime.Hour) as real == n as real * h;
    assert ((n - 1) * GoTime.Hour) as real == (n - 1) as real * h;
    assert n as real >= x;
    assert (n - 1) as real < x;
  }

  /** The account as `PeerToJSON` shows it. */
  datatype PeerJson = PeerJson(accountId: string, publicKey: string, v4: string, v6: string, expiryDate: GoTime.Stamp)

  /**
   * `PeerToJSON`: the key text or "", and the expiry at second precision.
   * The "v4" field is overwritten with the IPv6 text whenever an IPv6 slot
   * is set, and "v6" is always empty.
   */
  function PeerToJSON(row: Settlement.Row): (j: PeerJson)
    ensures j.accountId == row.accountId
    ensures j.publicKey == (if row.publicKeyB64.Some? then row.publicKeyB64.value else "")
    ensures j.v6 == ""
    ensures row.ipv6.Some? ==> j.v4 == NetIp.IPString(row.ipv6.value)
    ensures row.ipv6.None? && row.ipv4.Some? ==> j.v4 == NetIp.IPString(row.ipv4.value)
    ensures row.ipv6.None? && row.ipv4.None? ==> j.v4 == ""
    ensures GoTime.Parse(j.expiryDate) <= row.expiry < GoTime.Parse(j.expiryDate) + GoTime.Second
  {
    var publicKey := if row.publicKeyB64.Some? then row.publicKeyB64.value else "";
    var ipv4 := if row.ipv4.Some? then NetIp.IPString(row.ipv4.value) else "";
    var ipv4 := if row.ipv6.Some? then NetIp.IPString(row.ipv6.value) else ipv4;
    PeerJson(row.accountId, publicKey, ipv4, "", GoTime.Format(row.expiry))
  }

  /**
   * A peer as `HandleIPRequest` leaves it in memory (IPv6 slot pointing at a
   * nil address) would show "<nil>" as its v4 address.
   */
  lemma InMemoryPeerShowsNil(row: Settlement.Row)
    requires row.ipv4.Some? && row.ipv6 == Some([])
    ensures PeerToJSON(row).v4 == "<nil>"
  {
  }

  /**
   * `PeerToJSON` only sees peers read back from the store, where the nil
   * IPv6 slot was written as NULL: an account addressed by
   * `HandleIPRequest` shows its IPv4 text.
   */
  lemma StoredPeerShowsIPv4(row: Settlement.Row)
    requires row.ipv4.Some? && row.ipv4.value != [] && row.ipv6 == Some([])
    ensures PeerToJSON(DaemonStore.Stored(row)).v4 == NetIp.IPString(row.ipv4.value)
  {
  }

  /** The request gets as far as asking for an invoice: bound body, account loads, duration parses. */
  predicate ReachesInvoice(rows: map<string, Settlement.Row>, body: Option<string>, accountId: string,
                           getFault: Option<string>)
  {
    body.Some? && getFault.None? && accountId in rows && GoTime.ParseSeconds(body.value).Some?
  }

  class TollBooth {
    const store: DaemonStore.PeerStore
    var pendingInvoices: map<string, Pending>

    ghost predicate Valid()
      reads this, store
    {
      store.Valid()
    }

    /** The settlement state; a toll booth has no completion channel, so nothing is ever signalled. */
    ghost function State(): MeterState
      reads this, store
    {
      MeterState(store.rows, pendingInvoices, [])
    }

    constructor (store: DaemonStore.PeerStore)
      ensures this.store == store && pendingInvoices == map[]
    {
      this.store := store;
      pendingInvoices := map[];
    }

    /** `Run`: one subscription, receive errors logged and skipped, settlement without a signal. */
    method Run(subscribeError: Option<string>, deliveries: seq<Delivery>) returns (fatal: Option<string>)
      requires Valid()
      modifies this, store
      ensures Valid()
      ensures fatal == subscribeError
      ensures State() == if subscribeError.Some? then old(State()) else Feed(old(State()), deliveries, false)
    {
      if subscribeError.Some? {
        return subscribeError;
      }
      ghost var target := Feed(State(), deliveries, false);
      var i := 0;
      while i < |deliveries|
        invariant 0 <= i <= |deliveries|
        invariant Valid()
        invariant Feed(State(), deliveries[i..], false) == target
      {
        assert deliveries[i..][1..] == deliveries[i + 1..];
        Receive(deliveries[i]);
        i := i + 1;
      }
      assert deliveries[i..] == [];
      fatal := None;
    }

    /** One delivery in `Run`'s loop: only a SETTLED invoice for a pending request reaches the store. */
    method Receive(d: Delivery)
      requires Valid()
      modifies this, store
      ensures Valid()
      ensures State() == Apply(old(State()), d, false)
    {
      if d.RecvError? || d.state != Settled {
        return;
      }
      var payReq := d.paymentRequest;
      if payReq !in pendingInvoices {
        return;
      }
      var extension := pendingInvoices[payReq];
      var peer, err := store.GetPeer(extension.accountId, d.getFault);
      if err.Some? {
        return;
      }
      peer.AddAllowance(extension.duration);
      DaemonStore.StoredClean(peer.AsRow());
      assert !DaemonStore.KeyClaimedByOther(store.rows, peer.AsRow());
      var saveErr := store.SavePeer(peer, d.saveFault);
      pendingInvoices := pendingInvoices - {payReq};
    }

    /**
     * `HandleExtensionRequest`: the body is bound before the account is
     * loaded, and every `GetPeer` error, not-found included, is a 500 (the
     * 404 branch after it is never reached).
     */
    method HandleExtensionRequest(body: Option<string>, accountId: string, getFault: Option<string>,
                                  minted: Result<string, string>)
      returns (resp: Response, value: Option<int>)
      requires Valid()
      modifies this
      ensures Valid() && store.rows == old(store.rows)
      ensures body.None? ==> resp.BadRequest?
      ensures body.Some? && getFault.Some? ==> resp == ServerError(getFault.value)
      ensures body.Some? && getFault.None? && accountId !in store.rows ==>
                resp == ServerError(DaemonStore.ErrorText(DaemonStore.PeerNotFound))
      ensures resp != NotFound
      ensures body.Some? && getFault.None? && accountId in store.rows &&
              GoTime.ParseSeconds(body.value).None? ==>
                resp == BadRequest(GoTime.InvalidDurationText(body.value + "s"))
      ensures ReachesInvoice(store.rows, body, accountId, getFault) ==>
                value == Some(InvoiceValue250(GoTime.ParseSeconds(body.value).value))
      ensures !ReachesInvoice(store.rows, body, accountId, getFault) ==> value == None
      ensures resp.PaymentRequired? <==> ReachesInvoice(store.rows, body, accountId, getFault) && minted.Success?
      ensures resp.PaymentRequired? ==> resp.payReq == minted.value
      ensures ReachesInvoice(store.rows, body, accountId, getFault) && minted.Failure? ==>
                resp == ServerError(minted.error)
      ensures pendingInvoices ==
                if resp.PaymentRequired?
                then old(pendingInvoices)[minted.value := Pending(accountId, GoTime.ParseSeconds(body.value).value)]
                else old(pendingInvoices)
    {
      value := None;
      if body.None? {
        return BadRequest("invalid JSON body"), None;
      }
      var peer, err := store.GetPeer(accountId, getFault);
      if err.Some? {
        return ServerError(DaemonStore.ErrorText(err.value)), None;
      }
      if peer == null {
        return NotFound, None;
      }
      var duration := GoTime.ParseSeconds(body.value);
      if duration.None? {
        return BadRequest(GoTime.InvalidDurationText(body.value + "s")), None;
      }
      value := Some(InvoiceValue250(duration.value));
      if minted.Failure? {
        return ServerError(minted.error), value;
      }
      pendingInvoices := pendingInvoices[minted.value := Pending(accountId, duration.value)];
      resp := PaymentRequired(minted.value);
    }

    /** `HandleSetConfigRequest`: validates the body and answers; it writes nothing. */
    method HandleSetConfigRequest(body: Option<string>) returns (resp: Response)
      ensures body.None? <==> resp.BadRequest?
      ensures body.Some? <==> resp == OkEmpty
    {
      if body.None? {
        return BadRequest("invalid JSON body");
      }
      resp := OkEmpty;
    }
  }
}
