/**
 * The first payment gateway (daemon/vpnMeter.go): extension requests are
 * capped at 30 days ahead of now, priced at the tracked hourly rate, and
 * settled by `fulfillPaymentRequest` from a `Run` loop that resubscribes
 * after a receive error.
 */
module VpnMeter {
  import opened Wrappers
  import GoTime
  import DaemonStore
  import opened Settlement

  /** `MaxVpnTime`: one month of 30 days. */
  const MaxVpnTime: int := 24 * 30 * GoTime.Hour

  /** The pause before resubscribing after a receive error. */
  const ResubscribeDelay: int := 15 * GoTime.Second

  /** `fmt` of `MaxVpnTime` in the refusal message. */
  const CapMessage := "cannot have more than 720h0m0s of VPN time"

  /** The extension would carry the stored expiry, lapsed or not, past now plus `MaxVpnTime`. */
  predicate ExceedsCap(expiry: int, duration: int, now: int)
  {
    expiry + duration > now + MaxVpnTime
  }

  /** The request gets as far as asking for an invoice: known account, parsable duration within the cap. */
  predicate ReachesInvoice(rows: map<string, Settlement.Row>, cookie: Option<string>, getFault: Option<string>,
                           body: Option<string>, now: int)
  {
    cookie.Some? && getFault.None? && cookie.value in rows && body.Some? &&
    GoTime.ParseSeconds(body.value).Some? &&
    !ExceedsCap(rows[cookie.value].expiry, GoTime.ParseSeconds(body.value).value, now)
  }

  class VPNMeter {
    const store: DaemonStore.PeerStore
    var pendingInvoices: map<string, Pending>
    ghost var signalled: seq<string>

    ghost predicate Valid()
      reads this, store
    {
      store.Valid()
    }

    ghost function State(): MeterState
      reads this, store
    {
      MeterState(store.rows, pendingInvoices, signalled)
    }

    constructor (store: DaemonStore.PeerStore)
      ensures this.store == store && pendingInvoices == map[] && signalled == []
    {
      this.store := store;
      pendingInvoices := map[];
      signalled := [];
    }

    /** `fulfillPaymentRequest`: settle one payment request, signalling its waiter. */
    method FulfillPaymentRequest(payReq: string, getFault: Option<string>, saveFault: Option<string>)
      requires Valid()
      modifies this, store
      ensures Valid()
      ensures State() == Settle(old(State()), payReq, getFault, saveFault, true)
    {
      if payReq !in pendingInvoices {
        return;
      }
      var extension := pendingInvoices[payReq];
      var peer, err := store.GetPeer(extension.accountId, getFault);
      if err.Some? {
        return;
      }
      peer.AddAllowance(extension.duration);
      DaemonStore.StoredClean(peer.AsRow());
      assert !DaemonStore.KeyClaimedByOther(store.rows, peer.AsRow());
      var saveErr := store.SavePeer(peer, saveFault);
      signalled := signalled + [payReq];
      pendingInvoices := pendingInvoices - {payReq};
    }

    /**
     * `Run`: for each subscription, settle SETTLED invoices until a receive
     * error, pause `ResubscribeDelay` and subscribe again. A subscribe error
     * is fatal. `slept` is the time spent pausing.
     */
    method Run(subscriptions: seq<Subscription>) returns (fatal: Option<string>, slept: int)
      requires Valid()
      modifies this, store
      ensures Valid()
      ensures var r := RunSpec(old(State()), subscriptions);
              State() == r.state && fatal == r.fatal && slept == r.restarts * ResubscribeDelay
    {
      ghost var target := RunSpec(State(), subscriptions);
      slept := 0;
      var i := 0;
      while i < |subscriptions|
        invariant 0 <= i <= |subscriptions|
        invariant Valid()
        invariant var r := RunSpec(State(), subscriptions[i..]);
                  r.state == target.state && r.fatal == target.fatal &&
                  slept + r.restarts * ResubscribeDelay == target.restarts * ResubscribeDelay
      {
        assert subscriptions[i..][1..] == subscriptions[i + 1..];
        match subscriptions[i]
        case SubscribeFailed(message) =>
          return Some(message), slept;
        case Subscribed(deliveries) =>
          ghost var start := State();
          var failed := false;
          var j := 0;
          while j < |deliveries|
            invariant 0 <= j <= |deliveries|
            invariant Valid()
            invariant Drain(State(), deliveries[j..]) == Drain(start, deliveries)
          {
            assert deliveries[j..][1..] == deliveries[j + 1..];
            var d := deliveries[j];
            if d.RecvError? {
              failed := true;
              break;
            }
            if d.state == Settled {
              FulfillPaymentRequest(d.paymentRequest, d.getFault, d.saveFault);
            }
            j := j + 1;
          }
          if !failed {
            assert deliveries[j..] == [];
            return None, slept;
          }
          slept := slept + ResubscribeDelay;
          i := i + 1;
      }
      fatal := None;
    }

    /**
     * `HandleExtensionRequest`. `cookie` is the accountId cookie, `body` the
     * duration field of a well-formed JSON body (None when binding fails),
     * `satsPerHour` the tracked rate and `minted` what `AddInvoice` answers.
     * `value` is the invoice amount asked for, when an invoice is asked for.
     */
    method HandleExtensionRequest(cookie: Option<string>, getFault: Option<string>, body: Option<string>,
                                  now: int, satsPerHour: real, minted: Result<string, string>)
      returns (resp: Response, value: Option<int>)
      requires Valid()
      modifies this
      ensures Valid() && store.rows == old(store.rows) && signalled == old(signalled)
      ensures cookie.None? ==> resp == ServerError(CookieMissing)
      ensures cookie.Some? && getFault.Some? ==> resp == ServerError(getFault.value)
      ensures cookie.Some? && getFault.None? && cookie.value !in store.rows ==> resp == NotFound
      ensures cookie.Some? && getFault.None? && cookie.value in store.rows && body.None? ==> resp.BadRequest?
      ensures cookie.Some? && getFault.None? && cookie.value in store.rows && body.Some? &&
              GoTime.ParseSeconds(body.value).None? ==>
                resp == BadRequest(GoTime.InvalidDurationText(body.value + "s"))
      ensures ReachesInvoice(store.rows, cookie, getFault, body, now) ==>
                value == Some(InvoiceValue(GoTime.ParseSeconds(body.value).value, satsPerHour))
      ensures !ReachesInvoice(store.rows, cookie, getFault, body, now) ==> value == None
      ensures resp.PaymentRequired? <==> ReachesInvoice(store.rows, cookie, getFault, body, now) && minted.Success?
      ensures resp.PaymentRequired? ==> resp.payReq == minted.value
      ensures ReachesInvoice(store.rows, cookie, getFault, body, now) && minted.Failure? ==>
                resp == ServerError(minted.error)
      ensures pendingInvoices ==
                if resp.PaymentRequired?
                then old(pendingInvoices)[minted.value :=
                       Pending(cookie.value, GoTime.ParseSeconds(body.value).value)]
                else old(pendingInvoices)
      ensures cookie.Some? && getFault.None? && cookie.value in store.rows && body.Some? &&
              GoTime.ParseSeconds(body.value).Some? &&
              ExceedsCap(store.rows[cookie.value].expiry, GoTime.ParseSeconds(body.value).value, now) ==>
                resp == BadRequest(CapMessage)
    {
      value := None;
      var peer, failure := LoadPeerFromCookie(store, cookie, getFault);
      if failure.Some? {
        return failure.value, None;
      }
      if body.None? {
        return BadRequest("invalid JSON body"), None;
      }
      var duration := GoTime.ParseSeconds(body.value);
      if duration.None? {
        return BadRequest(GoTime.InvalidDurationText(body.value + "s")), None;
      }
      if ExceedsCap(peer.expiry, duration.value, now) {
        return BadRequest(CapMessage), None;
      }
      value := Some(InvoiceValue(duration.value, satsPerHour));
      if minted.Failure? {
        return ServerError(minted.error), value;
      }
      pendingInvoices := pendingInvoices[minted.value := Pending(peer.accountId, duration.value)];
      resp := PaymentRequired(minted.value);
    }
  }

  /** The cap is measured from the stored expiry: a lapsed account may buy more than 30 days' worth, up to now + 30 days. */
  lemma CapFromStoredExpiry(expiry: int, duration: int, now: int)
    requires expiry <= now
    ensures !ExceedsCap(expiry, duration, now) <==> duration <= now - expiry + MaxVpnTime
  {
  }
}
