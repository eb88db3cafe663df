/** Compact JWS (section 7.1 of RFC 7515): assembling, splitting, and checking a token. */
module Jws {
  import opened Options
  import opened Text
  import opened Base64Url
  import opened Ed25519Keys
  import Grants

  /** The three JOSE header fields, each of which a parser can leave null. */
  datatype Header = Header(algorithm: Option<string>, typ: Option<string>, keyId: Option<string>)

  datatype Claims = Claims(
    issuer: Option<string>, subject: Option<string>, audience: Option<string>,
    issuedAt: int, notBefore: int, expiresAt: int,
    tokenId: Option<string>, grants: Option<Grants.GrantsClaim>, confirmation: Option<string>)

  function ForKid(kid: string): Header { Header(Some("EdDSA"), Some("JWT"), Some(kid)) }

  /** Reading JSON text: a value, the JSON null, or an error. */
  datatype Parsed<+T> = Value(value: T) | JsonNull | Malformed

  /** A JSON mapping, given by its printer and its parser. */
  datatype Codec<!T> = Codec(write: T -> seq<Byte>, parse: seq<Byte> -> Parsed<T>)

  datatype Codecs = Codecs(header: Codec<Header>, claims: Codec<Claims>)

  /** The hypothesis on the JSON library: parsing inverts printing. */
  ghost predicate Faithful(c: Codecs) {
    && (forall h :: c.header.parse(c.header.write(h)) == Value(h))
    && (forall x :: c.claims.parse(c.claims.write(x)) == Value(x))
  }

  /** `String.getBytes(US_ASCII)`: a character outside ASCII becomes a question mark. */
  function Ascii(s: string): (bytes: seq<Byte>)
    ensures |bytes| == |s|
  {
    seq(|s|, i requires 0 <= i < |s| => if s[i] as int < 128 then s[i] as int else 63)
  }

  datatype Parts = Parts(header: string, payload: string, signature: string)

  function SigningInput(header: string, payload: string): string { header + "." + payload }

  function Compact(parts: Parts): string { SigningInput(parts.header, parts.payload) + "." + parts.signature }

  function HeaderSegment(c: Codecs, h: Header): string { Encode(c.header.write(h)) }

  function PayloadSegment(c: Codecs, x: Claims): string { Encode(c.claims.write(x)) }

  /** The message whose signature a token carries. */
  function Message(c: Codecs, h: Header, x: Claims): seq<Byte> {
    Ascii(SigningInput(HeaderSegment(c, h), PayloadSegment(c, x)))
  }

  /** The token made of a header, claims and the signature over their signing input. */
  function Sign(c: Codecs, h: Header, x: Claims, signature: seq<Byte>): string {
    Compact(Parts(HeaderSegment(c, h), PayloadSegment(c, x), Encode(signature)))
  }

  /** None where the source throws: a null token, or not exactly three segments. */
  function Split(token: Option<string>): Option<Parts> {
    if token == None then None
    else
      var segments := SplitOn(token.value, '.');
      if |segments| != 3 then None else Some(Parts(segments[0], segments[1], segments[2]))
  }

  function ParseHeader(c: Codecs, parts: Parts): Parsed<Header> {
    match Decode(parts.header)
    case None => Malformed
    case Some(json) => c.header.parse(json)
  }

  function ParseClaims(c: Codecs, parts: Parts): Parsed<Claims> {
    match Decode(parts.payload)
    case None => Malformed
    case Some(json) => c.claims.parse(json)
  }

  /** An undecodable signature segment throws past the handler for malformed signatures. */
  datatype SignatureCheck = Genuine | Forged | Undecodable

  function VerifySignature(parts: Parts, publicKey: seq<Byte>, signed: set<Signed>): SignatureCheck {
    match Decode(parts.signature)
    case None => Undecodable
    case Some(signature) =>
      if Signed(publicKey, Ascii(SigningInput(parts.header, parts.payload)), signature) in signed
      then Genuine else Forged
  }

  // ---- Round trip ----

  predicate DotFree(s: string) { '.' !in s }

  lemma SegmentsAreDotFree(bytes: seq<Byte>)
    ensures DotFree(Encode(bytes))
  {
    EncodeAlphabet(bytes);
  }

  lemma CompactIsJoin(parts: Parts)
    ensures Compact(parts) == Join([parts.header, parts.payload, parts.signature], ".")
  {
    var segments := [parts.header, parts.payload, parts.signature];
    assert segments[1..] == [parts.payload, parts.signature];
    assert segments[1..][1..] == [parts.signature];
    assert Join(segments[1..], ".") == parts.payload + "." + parts.signature;
  }

  lemma SplitCompact(parts: Parts)
    requires DotFree(parts.header) && DotFree(parts.payload) && DotFree(parts.signature)
    ensures Split(Some(Compact(parts))) == Some(parts)
  {
    var segments := [parts.header, parts.payload, parts.signature];
    CompactIsJoin(parts);
    SplitJoin(segments, '.');
  }

  /** Whatever is split is put together again from its parts, and no part holds a dot. */
  lemma CompactSplit(token: Option<string>)
    requires Split(token).Some?
    ensures var parts := Split(token).value;
      && token == Some(Compact(parts))
      && DotFree(parts.header) && DotFree(parts.payload) && DotFree(parts.signature)
  {
    JoinSplit(token.value, '.');
    var segments := SplitOn(token.value, '.');
    assert segments == [segments[0], segments[1], segments[2]];
    CompactIsJoin(Split(token).value);
  }

  /** A signed token splits into its three segments, which parse back to what was signed. */
  lemma SignedTokenRoundTrip(c: Codecs, h: Header, x: Claims, signature: seq<Byte>)
    requires Faithful(c)
    ensures var parts := Parts(HeaderSegment(c, h), PayloadSegment(c, x), Encode(signature));
      && Split(Some(Sign(c, h, x, signature))) == Some(parts)
      && ParseHeader(c, parts) == Value(h)
      && ParseClaims(c, parts) == Value(x)
      && Decode(parts.signature) == Some(signature)
  {
    var parts := Parts(HeaderSegment(c, h), PayloadSegment(c, x), Encode(signature));
    SegmentsAreDotFree(c.header.write(h));
    SegmentsAreDotFree(c.claims.write(x));
    SegmentsAreDotFree(signature);
    SplitCompact(parts);
    DecodeEncode(c.header.write(h));
    DecodeEncode(c.claims.write(x));
    DecodeEncode(signature);
  }

  /**
   * A token's text: the encoded header, which names the algorithm, the type and the key, the encoded
   * claims, and the encoded signature, with dots between; signed are the character codes of the text
   * up to the second dot.
   */
  lemma SignedTokenShape(c: Codecs, kid: string, x: Claims, signature: seq<Byte>)
    ensures var header := Encode(c.header.write(Header(Some("EdDSA"), Some("JWT"), Some(kid))));
      var input := header + "." + Encode(c.claims.write(x));
      && Sign(c, ForKid(kid), x, signature) == input + "." + Encode(signature)
      && |Message(c, ForKid(kid), x)| == |input|
      && forall i :: 0 <= i < |input| ==> Message(c, ForKid(kid), x)[i] == input[i] as int
  {
    EncodeAlphabet(c.header.write(ForKid(kid)));
    EncodeAlphabet(c.claims.write(x));
    var input := SigningInput(HeaderSegment(c, ForKid(kid)), PayloadSegment(c, x));
    forall i | 0 <= i < |input| ensures input[i] as int < 128 {
      assert InAlphabet(input[i]) || input[i] == '.';
    }
  }

  // ---- The signed bytes determine both segments ----

  /** Every character survives the conversion to ASCII and none is the replacement character. */
  predicate PlainAscii(s: string) { forall i :: 0 <= i < |s| ==> s[i] as int < 128 && s[i] != '?' }

  lemma AsciiDetermines(s: string, t: string)
    requires Ascii(s) == Ascii(t) && PlainAscii(t)
    ensures s == t
  {
    assert |s| == |Ascii(s)| == |t|;
    forall i | 0 <= i < |s| ensures s[i] == t[i] {
      assert Ascii(s)[i] == Ascii(t)[i];
    }
  }

  /** The conversion is lossy: a character outside ASCII and a question mark have the same byte. */
  lemma AsciiCollapses(s: string, i: nat)
    requires i < |s| && s[i] as int >= 128
    ensures Ascii(s) == Ascii(s[i := '?']) && s != s[i := '?']
  {
    assert s[i := '?'][i] != s[i];
  }

  lemma SigningInputInjective(h: string, p: string, h': string, p': string)
    requires DotFree(h) && DotFree(h') && SigningInput(h, p) == SigningInput(h', p')
    ensures h == h' && p == p'
  {
    var s := SigningInput(h, p);
    SplitPiece(h, p, '.');
    SplitPiece(h', p', '.');
    assert h == SplitOn(s, '.')[0] == h';
    assert p == s[|h| + 1..] == p';
  }

  /** A split token over the bytes of an issued one has the issued header and payload segments. */
  lemma MessageDeterminesSegments(c: Codecs, h: Header, x: Claims, header: string, payload: string)
    requires DotFree(header)
    requires Ascii(SigningInput(header, payload)) == Message(c, h, x)
    ensures header == HeaderSegment(c, h) && payload == PayloadSegment(c, x)
  {
    EncodeAlphabet(c.header.write(h));
    EncodeAlphabet(c.claims.write(x));
    var issued := SigningInput(HeaderSegment(c, h), PayloadSegment(c, x));
    assert PlainAscii(issued) by {
      forall ch | InAlphabet(ch) ensures ch as int < 128 && ch != '?' {}
    }
    AsciiDetermines(SigningInput(header, payload), issued);
    SegmentsAreDotFree(c.header.write(h));
    SigningInputInjective(header, payload, HeaderSegment(c, h), PayloadSegment(c, x));
  }
}
