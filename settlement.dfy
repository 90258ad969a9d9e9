/**
 * Settlement of Lightning invoices, shared by the three payment gateways of
 * the daemon package (vpnMeter.go, parkingMeter.go, tollbooth.go). Each keeps
 * a table of pending extensions keyed by payment request; a SETTLED invoice
 * for a pending request credits the account and retires the entry.
 *
 * The subscription is a finite sequence of deliveries. Each received invoice
 * carries the outcome the database gives the `GetPeer` and `SavePeer` calls
 * its settlement makes. The completion channel is the ghost `signalled`
 * sequence: each send appends the payment request.
 */
module Settlement {
  import opened Wrappers
  import GoTime
  import DaemonStore

  type Row = DaemonStore.Row

  /** `lnrpc.Invoice_InvoiceState`. */
  datatype InvoiceState = Open | Settled | Canceled | Accepted

  /** One `sub.Recv()` result. */
  datatype Delivery =
    | Received(paymentRequest: string, state: InvoiceState, getFault: Option<string>, saveFault: Option<string>)
    | RecvError(message: string)

  /** A `pendingExtension`, without its channel. */
  datatype Pending = Pending(accountId: string, duration: int)

  /** What settlement reads and writes: the peer rows, the pending table, the completion signals sent. */
  datatype MeterState = MeterState(rows: map<string, Row>, pending: map<string, Pending>, signalled: seq<string>)

  /**
   * Settle one payment request: unknown requests change nothing; a peer
   * that fails to load leaves the entry for a later delivery; otherwise the
   * duration is added to the stored expiry (kept only if the save
   * succeeds), the completion is signalled when the gateway has a channel,
   * and the entry is deleted either way.
   */
  function Settle(s: MeterState, payReq: string, getFault: Option<string>, saveFault: Option<string>, signals: bool): MeterState
  {
    if payReq !in s.pending then s
    else
      var e := s.pending[payReq];
      if getFault.Some? || e.accountId !in s.rows then s
      else
        var credited := s.rows[e.accountId].(expiry := s.rows[e.accountId].expiry + e.duration);
        MeterState(
          if saveFault.Some? then s.rows else s.rows[e.accountId := credited],
          s.pending - {payReq},
          if signals then s.signalled + [payReq] else s.signalled)
  }

  /** One delivery: only SETTLED invoices reach settlement. */
  function Apply(s: MeterState, d: Delivery, signals: bool): MeterState
  {
    if d.Received? && d.state == Settled then Settle(s, d.paymentRequest, d.getFault, d.saveFault, signals) else s
  }

  /** A subscription drained by a loop that logs receive errors and keeps reading (parkingMeter.go, tollbooth.go). */
  function Feed(s: MeterState, ds: seq<Delivery>, signals: bool): MeterState
    decreases |ds|
  {
    if ds == [] then s else Feed(Apply(s, ds[0], signals), ds[1..], signals)
  }

  /** Where a vpnMeter.go subscription stopped: the state, and whether a receive error ended it. */
  datatype Drained = Drained(state: MeterState, failed: bool)

  /** A subscription drained by a loop that abandons it at the first receive error (vpnMeter.go). */
  function Drain(s: MeterState, ds: seq<Delivery>): Drained
    decreases |ds|
  {
    if ds == [] then Drained(s, false)
    else if ds[0].RecvError? then Drained(s, true)
    else Drain(Apply(s, ds[0], true), ds[1..])
  }

  /** One `SubscribeInvoices` call and what it delivers. */
  datatype Subscription = SubscribeFailed(message: string) | Subscribed(deliveries: seq<Delivery>)

  /** The end of vpnMeter's `Run`: the state, the fatal subscribe error if any, how often it restarted. */
  datatype RunResult = RunResult(state: MeterState, fatal: Option<string>, restarts: nat)

  /**
   * vpnMeter's `Run`: subscribe, drain until a receive error, then (after a
   * pause) subscribe again; a subscribe error is fatal. A subscription that
   * ends without an error ends the observed run.
   */
  function RunSpec(s: MeterState, subs: seq<Subscription>): RunResult
    decreases |subs|
  {
    if subs == [] then RunResult(s, None, 0)
    else match subs[0]
      case SubscribeFailed(m) => RunResult(s, Some(m), 0)
      case Subscribed(ds) =>
        var d := Drain(s, ds);
        if !d.failed then RunResult(d.state, None, 0)
        else
          var r := RunSpec(d.state, subs[1..]);
          r.(restarts := r.restarts + 1)
  }

  predicate NoDuplicates(xs: seq<string>)
  {
    forall i, j :: 0 <= i < j < |xs| ==> xs[i] != xs[j]
  }

  /** A payment request that is not pending (never was, or already settled) changes nothing. */
  lemma SettleUnknownIsNoOp(s: MeterState, payReq: string, getFault: Option<string>, saveFault: Option<string>, signals: bool)
    requires payReq !in s.pending
    ensures Settle(s, payReq, getFault, saveFault, signals) == s
  {
  }

  /** Redelivering a settlement that already retired its entry changes nothing, so the credit and the signal happen once. */
  lemma SettleRedelivery(s: MeterState, payReq: string, g1: Option<string>, s1: Option<string>,
                         g2: Option<string>, s2: Option<string>, signals: bool)
    ensures var t := Settle(s, payReq, g1, s1, signals);
            payReq !in t.pending ==> Settle(t, payReq, g2, s2, signals) == t
  {
  }

  /** A pending request whose account loads and saves: the expiry grows by exactly the pending duration, nothing else changes. */
  lemma SettleCredits(s: MeterState, payReq: string, signals: bool)
    requires payReq in s.pending && s.pending[payReq].accountId in s.rows
    ensures var t := Settle(s, payReq, None, None, signals);
            var a := s.pending[payReq].accountId;
            a in t.rows && t.rows[a].expiry == s.rows[a].expiry + s.pending[payReq].duration &&
            t.rows == s.rows[a := s.rows[a].(expiry := t.rows[a].expiry)] &&
            t.pending == s.pending - {payReq} &&
            t.signalled == (if signals then s.signalled + [payReq] else s.signalled)
  {
  }

  /** A peer that fails to load leaves the entry in the table and signals nothing. */
  lemma SettleLoadFailure(s: MeterState, payReq: string, getFault: Option<string>, saveFault: Option<string>, signals: bool)
    requires payReq in s.pending
    requires getFault.Some? || s.pending[payReq].accountId !in s.rows
    ensures Settle(s, payReq, getFault, saveFault, signals) == s
  {
  }

  /** A failed save is only logged: the credit is lost but the entry is still signalled and deleted. */
  lemma SettleSaveFailure(s: MeterState, payReq: string, saveFault: Option<string>, signals: bool)
    requires payReq in s.pending && s.pending[payReq].accountId in s.rows
    requires saveFault.Some?
    ensures var t := Settle(s, payReq, None, saveFault, signals);
            t.rows == s.rows && t.pending == s.pending - {payReq} &&
            t.signalled == (if signals then s.signalled + [payReq] else s.signalled)
  {
  }

  lemma {:induction false} FeedAppend(s: MeterState, a: seq<Delivery>, b: seq<Delivery>, signals: bool)
    ensures Feed(s, a + b, signals) == Feed(Feed(s, a, signals), b, signals)
    decreases |a|
  {
    if a == [] {
      assert a + b == b;
    } else {
      assert (a + b)[0] == a[0];
      assert (a + b)[1..] == a[1..] + b;
      FeedAppend(Apply(s, a[0], signals), a[1..], b, signals);
    }
  }

  /** A receive error in a retrying loop is skipped: reading resumes on the same subscription. */
  lemma FeedRetriesAfterReceiveError(s: MeterState, a: seq<Delivery>, message: string, b: seq<Delivery>, signals: bool)
    ensures Feed(s, a + [RecvError(message)] + b, signals) == Feed(Feed(s, a, signals), b, signals)
  {
    FeedAppend(s, a + [RecvError(message)], b, signals);
    FeedAppend(s, a, [RecvError(message)], signals);
    assert [RecvError(message)][1..] == [];
  }

  /** Without receive errors, vpnMeter's loop settles exactly what the retrying loop does. */
  lemma {:induction false} DrainWithoutErrors(s: MeterState, ds: seq<Delivery>)
    requires forall i :: 0 <= i < |ds| ==> ds[i].Received?
    ensures Drain(s, ds) == Drained(Feed(s, ds, true), false)
    decreases |ds|
  {
    if ds != [] {
      DrainWithoutErrors(Apply(s, ds[0], true), ds[1..]);
    }
  }

  /** vpnMeter's loop abandons the subscription at the first receive error: nothing after it is read. */
  lemma {:induction false} DrainStopsAtReceiveError(s: MeterState, a: seq<Delivery>, message: string, b: seq<Delivery>)
    requires forall i :: 0 <= i < |a| ==> a[i].Received?
    ensures Drain(s, a + [RecvError(message)] + b) == Drained(Feed(s, a, true), true)
    decreases |a|
  {
    if a == [] {
      assert (a + [RecvError(message)] + b)[0] == RecvError(message);
    } else {
      assert (a + [RecvError(message)] + b)[0] == a[0];
      assert (a + [RecvError(message)] + b)[1..] == a[1..] + [RecvError(message)] + b;
      DrainStopsAtReceiveError(Apply(s, a[0], true), a[1..], message, b);
    }
  }

  /** Deliveries without a SETTLED invoice change nothing. */
  lemma {:induction false} FeedIgnoresUnsettled(s: MeterState, ds: seq<Delivery>, signals: bool)
    requires forall i :: 0 <= i < |ds| ==> ds[i].Received? ==> ds[i].state != Settled
    ensures Feed(s, ds, signals) == s
    decreases |ds|
  {
    if ds != [] {
      FeedIgnoresUnsettled(s, ds[1..], signals);
    }
  }

  /** Settlement touches nothing in a row but its expiry, and adds or removes no row. */
  lemma {:induction false} FeedOnlyMovesExpiry(s: MeterState, ds: seq<Delivery>, signals: bool)
    ensures var t := Feed(s, ds, signals);
            t.rows.Keys == s.rows.Keys &&
            forall a :: a in t.rows ==> t.rows[a] == s.rows[a].(expiry := t.rows[a].expiry)
    decreases |ds|
  {
    if ds != [] {
      FeedOnlyMovesExpiry(Apply(s, ds[0], signals), ds[1..], signals);
    }
  }

  /**
   * Over any feed, the entries leave the table exactly when their
   * completion is signalled, each is signalled once, and no entry is added
   * or altered.
   */
  lemma {:induction false} FeedSignalsEachRetiredEntryOnce(s: MeterState, ds: seq<Delivery>)
    ensures var t := Feed(s, ds, true);
            t.pending.Keys <= s.pending.Keys &&
            (forall p :: p in t.pending ==> t.pending[p] == s.pending[p]) &&
            |s.signalled| <= |t.signalled| && t.signalled[..|s.signalled|] == s.signalled &&
            NoDuplicates(t.signalled[|s.signalled|..]) &&
            (forall p :: p in t.signalled[|s.signalled|..] <==> p in s.pending && p !in t.pending)
    decreases |ds|
  {
    if ds == [] {
      assert s.signalled[|s.signalled|..] == [];
    } else {
      var u := Apply(s, ds[0], true);
      var t := Feed(u, ds[1..], true);
      FeedSignalsEachRetiredEntryOnce(u, ds[1..]);
      assert Feed(s, ds, true) == t;
      var x := t.signalled[|u.signalled|..];
      if u == s {
        assert t.signalled[|s.signalled|..] == x;
      } else {
        var p := ds[0].paymentRequest;
        assert p in s.pending && u.pending == s.pending - {p} && u.signalled == s.signalled + [p];
        assert t.signalled[..|s.signalled|] == u.signalled[..|s.signalled|];
        assert t.signalled[|s.signalled|..] == [p] + x;
        assert p !in x;
      }
    }
  }

  /** Without a channel (tollbooth.go) settlement never signals. */
  lemma {:induction false} FeedWithoutChannel(s: MeterState, ds: seq<Delivery>)
    ensures Feed(s, ds, false).signalled == s.signalled
    decreases |ds|
  {
    if ds != [] {
      FeedWithoutChannel(Apply(s, ds[0], false), ds[1..]);
    }
  }

  /** A subscribe error ends the run at once with nothing settled. */
  lemma RunStopsOnSubscribeError(s: MeterState, message: string, rest: seq<Subscription>)
    ensures RunSpec(s, [SubscribeFailed(message)] + rest) == RunResult(s, Some(message), 0)
  {
  }

  /** `math.Ceil(duration / 1h * rate)`: the least whole satoshi amount not below the exact price. */
  function InvoiceValue(duration: int, satsPerHour: real): (sats: int)
    ensures sats as real >= duration as real / GoTime.Hour as real * satsPerHour
    ensures (sats - 1) as real < duration as real / GoTime.Hour as real * satsPerHour
  {
    GoTime.Ceil(duration as real / GoTime.Hour as real * satsPerHour)
  }

  /** An HTTP answer: status code and the part of the body the model keeps. */
  datatype Response =
    | NotFound                           // 404, no body
    | BadRequest(error: string)          // 400 {"error": ...}
    | ServerError(error: string)         // 500 {"error": ...}
    | PaymentRequired(payReq: string)    // 402, the payment request as text
    | Completion(result: string)         // 200 {"result": ...}
    | Addresses(ipv4: string, ipv6: string) // 200 {"ipv4": ..., "ipv6": ...}
    | OkNull                             // 200 null
    | OkEmpty                            // 200, no body

  /** gin's error for a request without the cookie. */
  const CookieMissing := "http: named cookie not present"

  /**
   * `loadPeerFromCookie`: a missing cookie is a server error, an unknown
   * account a 404, any other store error a server error.
   */
  method LoadPeerFromCookie(store: DaemonStore.PeerStore, cookie: Option<string>, fault: Option<string>)
    returns (peer: DaemonStore.Peer?, resp: Option<Response>)
    ensures cookie.None? ==> peer == null && resp == Some(ServerError(CookieMissing))
    ensures cookie.Some? && fault.Some? ==> peer == null && resp == Some(ServerError(fault.value))
    ensures cookie.Some? && fault.None? && cookie.value !in store.rows ==> peer == null && resp == Some(NotFound)
    ensures cookie.Some? && fault.None? && cookie.value in store.rows ==>
              resp == None && peer != null && fresh(peer) && peer.AsRow() == store.rows[cookie.value]
  {
    if cookie.None? {
      return null, Some(ServerError(CookieMissing));
    }
    var err;
    peer, err := store.GetPeer(cookie.value, fault);
    if err == Some(DaemonStore.PeerNotFound) {
      return null, Some(NotFound);
    } else if err.Some? {
      return null, Some(ServerError(DaemonStore.ErrorText(err.value)));
    }
    resp := None;
  }
}
