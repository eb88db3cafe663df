/** Public keys as JWKs (section 2 of RFC 8037): publishing a key and rebuilding it. */
module Jwks {
  import opened Options
  import opened Base64Url
  import opened Rfc4648
  import opened Ed25519Keys

  datatype Jwk = Jwk(keyType: string, curve: string, publicKey: string, use: string, algorithm: string,
                     keyId: Option<string>)

  function ForEd25519(kid: string, spki: seq<Byte>): Option<Jwk> {
    match RawPublicKey(spki)
    case None => None
    case Some(raw) => Some(Jwk("OKP", "Ed25519", Encode(raw), "sig", "EdDSA", Some(kid)))
  }

  /** None where the decoder or the key factory throws. */
  function ToPublicKey(jwk: Jwk): (key: Option<seq<Byte>>)
    ensures key.Some? ==> IsSpki(key.value)
  {
    match Decode(jwk.publicKey)
    case None => None
    case Some(raw) => if IsSpki(SPKI_PREFIX + raw) then Some(SPKI_PREFIX + raw) else None
  }

  /** The source's copy of the fixed prefix and the raw key into one buffer. */
  method Spki(raw: array<Byte>) returns (out: array<Byte>)
    ensures fresh(out) && out[..] == SPKI_PREFIX + raw[..]
  {
    var n := |SPKI_PREFIX|;
    out := new Byte[n + raw.Length];
    for i := 0 to n
      invariant forall k :: 0 <= k < i ==> out[k] == SPKI_PREFIX[k]
    {
      out[i] := SPKI_PREFIX[i];
    }
    for i := 0 to raw.Length
      invariant forall k :: 0 <= k < n ==> out[k] == SPKI_PREFIX[k]
      invariant forall k :: 0 <= k < i ==> out[n + k] == raw[k]
    {
      out[n + i] := raw[i];
    }
    assert out[..n] == SPKI_PREFIX;
    assert out[n..] == raw[..];
    assert out[..] == out[..n] + out[n..];
  }

  /** An octet key pair as section 2 of RFC 8037 has it, for signatures, with 43 letters of key. */
  predicate IsSigningKey(jwk: Jwk, kid: string) {
    && jwk.keyType == "OKP" && jwk.curve == "Ed25519" && jwk.use == "sig" && jwk.algorithm == "EdDSA"
    && jwk.keyId == Some(kid) && |jwk.publicKey| == 43
  }

  lemma EncodedKeyLength(raw: seq<Byte>)
    requires |raw| == 32
    ensures |Encode(raw)| == 43
  {
    EncodeIsStandard(raw);
  }

  /** A key survives publication exactly when it is a well-formed Ed25519 encoding. */
  lemma PublishingLosesNothing(kid: string, spki: seq<Byte>)
    ensures IsSpki(spki) <==>
      ForEd25519(kid, spki).Some? && ToPublicKey(ForEd25519(kid, spki).value) == Some(spki)
    ensures ForEd25519(kid, spki).Some? <==> |spki| >= 32
    ensures ForEd25519(kid, spki).Some? ==> IsSigningKey(ForEd25519(kid, spki).value, kid)
  {
    if |spki| >= RAW_PUBLIC_KEY_BYTES {
      var raw := spki[|spki| - RAW_PUBLIC_KEY_BYTES..];
      DecodeEncode(raw);
      EncodedKeyLength(raw);
      PrefixedAgain(spki, raw);
    }
  }

  lemma PrefixedAgain(spki: seq<Byte>, raw: seq<Byte>)
    requires |spki| >= 32 && raw == spki[|spki| - 32..]
    ensures IsSpki(SPKI_PREFIX + raw)
    ensures IsSpki(spki) <==> SPKI_PREFIX + raw == spki
  {
    if IsSpki(spki) {
      assert spki == spki[..12] + spki[12..];
    }
    if SPKI_PREFIX + raw == spki {
      assert spki[..12] == SPKI_PREFIX;
    }
  }

  /** Any JWK whose `x` decodes to 32 bytes becomes the key with those bytes; no other becomes a key. */
  lemma ToPublicKeyExactly(jwk: Jwk, spki: seq<Byte>)
    ensures ToPublicKey(jwk) == Some(spki) <==> IsSpki(spki) && Decode(jwk.publicKey) == Some(spki[12..])
  {
    if Decode(jwk.publicKey).Some? {
      var raw := Decode(jwk.publicKey).value;
      assert (SPKI_PREFIX + raw)[12..] == raw && (SPKI_PREFIX + raw)[..12] == SPKI_PREFIX;
    }
    if IsSpki(spki) {
      assert spki == spki[..12] + spki[12..];
    }
  }
}
