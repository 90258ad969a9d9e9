/**
 * The HTTP handlers of the first generation (lib/tollbooth.go): extend a
 * key's time, and read a key's expiry. Request bodies arrive already
 * bound; a binding error is its message.
 */
module LibTollBooth {
  import opened Wrappers
  import Base64
  import GoTime
  import PubKey
  import opened LibStore

  const KeySizeMessage: string := "public key must be 32 bytes"

  /** The base64 decoder's own error, whose byte offset is not modelled. */
  const IllegalBase64Message: string := "illegal base64 data"

  datatype ExtractError = IllegalBase64 | WrongSize

  function ExtractErrorText(e: ExtractError): string
  {
    match e
    case IllegalBase64 => IllegalBase64Message
    case WrongSize => KeySizeMessage
  }

  /** `extractPubkey`: decode, insist on 32 bytes, copy. */
  function ExtractPubkey(text: string): (r: Result<Key, ExtractError>)
    ensures r == Failure(IllegalBase64) <==> Base64.Decode(text).None?
    ensures r == Failure(WrongSize) <==> Base64.Decode(text).Some? && |Base64.Decode(text).value| != 32
    ensures r.Success? ==> Base64.Decode(text) == Some(r.value)
  {
    match Base64.Decode(text)
    case None => Failure(IllegalBase64)
    case Some(bytes) => if |bytes| != 32 then Failure(WrongSize) else Success(bytes)
  }

  /** `extractPubkey` accepts exactly the texts the daemon's `UnmarshalPublicKey` accepts, with the same key. */
  lemma ExtractAgreesWithUnmarshal(text: string)
    ensures ExtractPubkey(text).Success? <==> PubKey.UnmarshalPublicKey(text).Success?
    ensures ExtractPubkey(text).Success? ==> ExtractPubkey(text).value == PubKey.UnmarshalPublicKey(text).value
  {
  }

  /** A key's standard base64 text extracts to that key. */
  lemma ExtractMarshal(k: Key)
    ensures ExtractPubkey(PubKey.MarshalPublicKey(k)) == Success(k)
  {
    PubKey.UnmarshalMarshal(k);
  }

  /** The `Extension` request body. */
  datatype Extension = Extension(pubkey: string, duration: string)

  /**
   * The checks `HandleExtensionRequest` makes before it touches the store,
   * in order: the body binds, the key extracts, the duration (read as
   * seconds) parses. The first failure's message is the answer.
   */
  function ValidateExtension(body: Result<Extension, string>): (r: Result<(Key, int), string>)
    ensures r.Success? <==> body.Success? && ExtractPubkey(body.value.pubkey).Success? &&
                            GoTime.ParseSeconds(body.value.duration).Some?
    ensures r.Success? ==> r.value == (ExtractPubkey(body.value.pubkey).value, GoTime.ParseSeconds(body.value.duration).value)
  {
    if body.Failure? then Failure(body.error)
    else
      var key := ExtractPubkey(body.value.pubkey);
      if key.Failure? then Failure(ExtractErrorText(key.error))
      else
        var duration := GoTime.ParseSeconds(body.value.duration);
        if duration.None? then Failure(GoTime.InvalidDurationText(body.value.duration + "s"))
        else Success((key.value, duration.value))
  }

  /** A bad key is reported ahead of a bad duration, and a binding error ahead of both. */
  lemma ValidationOrder(body: Result<Extension, string>)
    ensures body.Failure? ==> ValidateExtension(body) == Failure(body.error)
    ensures body.Success? && ExtractPubkey(body.value.pubkey).Failure? ==>
              ValidateExtension(body) == Failure(ExtractErrorText(ExtractPubkey(body.value.pubkey).error))
  {
  }

  datatype Response =
    | BadRequest(error: string)     // 400
    | ServerError(error: string)    // 500
    | NewExpiry(stamp: GoTime.Stamp)  // 200 {"newExpiry": ...}
    | CurrentExpiry(stamp: GoTime.Stamp)  // 200 {"expiry": ...}

  class TollBooth {
    const store: LevelDBExpiryStore

    constructor(store: LevelDBExpiryStore)
      ensures this.store == store
    {
      this.store := store;
    }

    /**
     * `HandleExtensionRequest`: validate, then `AddDuration`. Any validation
     * failure is a 400 with the store untouched; a store failure is a 500.
     */
    method HandleExtensionRequest(body: Result<Extension, string>, now: int, getFault: Option<string>, putFault: Option<string>)
      returns (resp: Response)
      modifies store
      ensures ValidateExtension(body).Failure? ==>
                resp == BadRequest(ValidateExtension(body).error) && store.db == old(store.db)
      ensures ValidateExtension(body).Success? ==>
                var (k, d) := ValidateExtension(body).value;
                var expiry := ExpiryOf(old(store.db), k, now, getFault);
                if expiry.Success? && putFault.None? then
                  resp == NewExpiry(GoTime.Format(expiry.value + d)) &&
                  store.db == old(store.db)[KeyForPubkey(k) := Text(GoTime.Format(expiry.value + d))]
                else
                  resp.ServerError? && store.db == old(store.db)
    {
      if body.Failure? {
        return BadRequest(body.error);
      }
      var pubkey := ExtractPubkey(body.value.pubkey);
      if pubkey.Failure? {
        return BadRequest(ExtractErrorText(pubkey.error));
      }
      var duration := GoTime.ParseSeconds(body.value.duration);
      if duration.None? {
        return BadRequest(GoTime.InvalidDurationText(body.value.duration + "s"));
      }
      var expiry := store.AddDuration(pubkey.value, duration.value, now, getFault, putFault);
      if expiry.Failure? {
        return ServerError(expiry.error);
      }
      resp := NewExpiry(GoTime.Format(expiry.value));
    }

    /** `HandleGetExpiryRequest`: bind, extract, read; it changes nothing. */
    method HandleGetExpiryRequest(body: Result<string, string>, now: int, fault: Option<string>) returns (resp: Response)
      ensures body.Failure? ==> resp == BadRequest(body.error)
      ensures body.Success? && ExtractPubkey(body.value).Failure? ==>
                resp == BadRequest(ExtractErrorText(ExtractPubkey(body.value).error))
      ensures body.Success? && ExtractPubkey(body.value).Success? ==>
                var expiry := ExpiryOf(store.db, ExtractPubkey(body.value).value, now, fault);
                resp == if expiry.Success? then CurrentExpiry(GoTime.Format(expiry.value)) else ServerError(expiry.error)
    {
      if body.Failure? {
        return BadRequest(body.error);
      }
      var pubkey := ExtractPubkey(body.value);
      if pubkey.Failure? {
        return BadRequest(ExtractErrorText(pubkey.error));
      }
      var expiry := store.GetExpiry(pubkey.value, now, fault);
      if expiry.Failure? {
        return ServerError(expiry.error);
      }
      resp := CurrentExpiry(GoTime.Format(expiry.value));
    }
  }

  /** A plain count of seconds in the body is that many seconds of extension. */
  lemma SecondsInBody(k: Key, n: nat)
    requires n <= GoTime.MaxSeconds
    ensures ValidateExtension(Success(Extension(PubKey.MarshalPublicKey(k), GoTime.DecimalText(n))))
            == Success((k, n * GoTime.Second))
  {
    ExtractMarshal(k);
    GoTime.ParseSecondsDecimal(n);
  }
}
