/**
 * The daemon's public-key codec (daemon/pubkey.go): a WireGuard public key is
 * 32 bytes and travels as its standard padded base64 text.
 */
module PubKey {
  import opened Wrappers
  import Base64

  type byte = Base64.byte

  const PublicKeySize: nat := 32

  /** A fixed-width public key, Go's `[32]byte`. */
  type Key = k: seq<byte> | |k| == PublicKeySize witness [0, 0, 0, 0, 0, 0, 0, 0, 0, 0, 0, 0, 0, 0, 0, 0, 0, 0, 0, 0, 0, 0, 0, 0, 0, 0, 0, 0, 0, 0, 0, 0]

  /** The all-zero key, the value of a `[32]byte` nobody has written to. */
  const ZeroKey: Key := [0, 0, 0, 0, 0, 0, 0, 0, 0, 0, 0, 0, 0, 0, 0, 0, 0, 0, 0, 0, 0, 0, 0, 0, 0, 0, 0, 0, 0, 0, 0, 0]

  datatype UnmarshalError =
    | InvalidBase64     // the base64 decoder's own error
    | BadPublicKeySize  // "bad public key size"

  /** `UnmarshalPublicKey`: decode, check the length, copy into a fresh key. */
  function UnmarshalPublicKey(text: string): (r: Result<Key, UnmarshalError>)
    ensures r == Failure(InvalidBase64) <==> Base64.Decode(text).None?
    ensures r == Failure(BadPublicKeySize) <==>
              Base64.Decode(text).Some? && |Base64.Decode(text).value| != PublicKeySize
    ensures r.Success? ==> Base64.Decode(text) == Some(r.value)
  {
    match Base64.Decode(text)
    case None => Failure(InvalidBase64)
    case Some(bytes) =>
      if |bytes| != PublicKeySize then Failure(BadPublicKeySize)
      else Success(bytes)
  }

  /** `MarshalPublicKey`: the standard padded base64 of the 32 bytes. */
  function MarshalPublicKey(k: Key): (text: string)
    ensures |text| == 44
  {
    Base64.Encode(k)
  }

  /** Every key survives a trip through its text form. */
  lemma UnmarshalMarshal(k: Key)
    ensures UnmarshalPublicKey(MarshalPublicKey(k)) == Success(k)
  {
    Base64.DecodeEncode(k);
  }

  /** Distinct keys have distinct texts, so comparing texts compares keys. */
  lemma MarshalInjective(k1: Key, k2: Key)
    ensures MarshalPublicKey(k1) == MarshalPublicKey(k2) <==> k1 == k2
  {
    Base64.EncodeInjective(k1, k2);
  }
}
