/**
 * Ed25519 as an ideal functionality. A public key is its SubjectPublicKeyInfo encoding (section 4 of
 * RFC 8410); a private key is known only through the public key it belongs to; and a signature is
 * valid exactly when its triple is among those really signed.
 */
module Ed25519Keys {
  import opened Options
  import opened Base64Url

  /** Algorithm identifier and bit-string header of an Ed25519 SubjectPublicKeyInfo. */
  const SPKI_PREFIX: seq<Byte> := [0x30, 0x2a, 0x30, 0x05, 0x06, 0x03, 0x2b, 0x65, 0x70, 0x03, 0x21, 0x00]

  const RAW_PUBLIC_KEY_BYTES := 32

  /** The encodings the JDK key factory accepts and produces: that fixed header, and 32 bytes. */
  predicate IsSpki(key: seq<Byte>) {
    && |key| == 44
    && key[..12] == [0x30, 0x2a, 0x30, 0x05, 0x06, 0x03, 0x2b, 0x65, 0x70, 0x03, 0x21, 0x00]
  }

  datatype PrivateKey = PrivateKey(publicSpki: seq<Byte>)

  datatype Signed = Signed(publicSpki: seq<Byte>, message: seq<Byte>, signature: seq<Byte>)

  /** The trailing 32 bytes; a shorter encoding throws. */
  function RawPublicKey(spki: seq<Byte>): Option<seq<Byte>> {
    if |spki| < RAW_PUBLIC_KEY_BYTES then None else Some(spki[|spki| - RAW_PUBLIC_KEY_BYTES..])
  }
}
