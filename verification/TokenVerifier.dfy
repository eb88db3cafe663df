/** Offline verification of a token against published keys and a denylist. */
module TokenVerifier {
  import opened Options
  import opened Base64Url
  import opened Ed25519Keys
  import opened Jws
  import opened Jwks

  datatype FailureReason =
    BAD_FORMAT | UNKNOWN_KID | BAD_SIGNATURE | EXPIRED | NOT_YET_VALID | WRONG_ISSUER | WRONG_AUDIENCE | REVOKED

  /** A result, or an exception the source lets through. */
  datatype Outcome = Success(claims: Claims) | Failure(reason: FailureReason) | Throws

  /** What a verifier knows: its expectations (null means no check) and its leeway in seconds. */
  datatype Verifier = Verifier(codecs: Codecs, issuer: Option<string>, audience: Option<string>, leeway: int)

  /** The first key with this id. */
  function FindJwk(jwks: seq<Jwk>, kid: string): Option<Jwk> {
    if jwks == [] then None
    else if jwks[0].keyId == Some(kid) then Some(jwks[0])
    else FindJwk(jwks[1..], kid)
  }

  function CheckClaims(v: Verifier, x: Claims, now: int, denylist: Option<set<string>>): Outcome {
    if v.issuer.Some? && v.issuer != x.issuer then Failure(WRONG_ISSUER)
    else if v.audience.Some? && v.audience != x.audience then Failure(WRONG_AUDIENCE)
    else if now + v.leeway < x.notBefore then Failure(NOT_YET_VALID)
    else if now - v.leeway >= x.expiresAt then Failure(EXPIRED)
    else if denylist.Some? && x.tokenId.Some? && x.tokenId.value in denylist.value then Failure(REVOKED)
    else Success(x)
  }

  function Verify(v: Verifier, token: Option<string>, jwks: seq<Jwk>, now: int,
                  denylist: Option<set<string>>, signed: set<Signed>): Outcome
  {
    match Split(token)
    case None => Failure(BAD_FORMAT)
    case Some(parts) =>
      match ParseHeader(v.codecs, parts)
      case Malformed => Failure(BAD_FORMAT)
      case JsonNull => Throws
      case Value(header) =>
        if header.keyId == None then Failure(UNKNOWN_KID)
        else
          match FindJwk(jwks, header.keyId.value)
          case None => Failure(UNKNOWN_KID)
          case Some(jwk) =>
            match ToPublicKey(jwk)
            case None => Throws
            case Some(key) =>
              match VerifySignature(parts, key, signed)
              case Undecodable => Throws
              case Forged => Failure(BAD_SIGNATURE)
              case Genuine =>
                match ParseClaims(v.codecs, parts)
                case Malformed => Failure(BAD_FORMAT)
                case JsonNull => Throws
                case Value(x) => CheckClaims(v, x, now, denylist)
  }

  // ---- What an outcome says ----

  /** Header and signature of a token are in order: its key is published and really signed it. */
  ghost predicate SignedByPublished(v: Verifier, parts: Parts, jwks: seq<Jwk>, signed: set<Signed>) {
    exists kid, jwk, key, signature ::
      && ParseHeader(v.codecs, parts).Value? && ParseHeader(v.codecs, parts).value.keyId == Some(kid)
      && FindJwk(jwks, kid) == Some(jwk) && ToPublicKey(jwk) == Some(key)
      && Decode(parts.signature) == Some(signature)
      && Signed(key, Ascii(SigningInput(parts.header, parts.payload)), signature) in signed
  }

  /** Claim data decides an outcome only once the signature over it is known to be genuine. */
  lemma SignatureComesFirst(v: Verifier, token: Option<string>, jwks: seq<Jwk>, now: int,
                            denylist: Option<set<string>>, signed: set<Signed>)
    ensures var r := Verify(v, token, jwks, now, denylist, signed);
      r.Success? || (r.Failure? && r.reason in {WRONG_ISSUER, WRONG_AUDIENCE, NOT_YET_VALID, EXPIRED, REVOKED})
      ==> Split(token).Some? && SignedByPublished(v, Split(token).value, jwks, signed)
  {
    if Split(token).Some? {
      var parts := Split(token).value;
      var h := ParseHeader(v.codecs, parts);
      if h.Value? && h.value.keyId.Some? && FindJwk(jwks, h.value.keyId.value).Some?
        && Decode(parts.signature).Some?
      {
        var kid := h.value.keyId.value;
        var jwk := FindJwk(jwks, kid).value;
        var key, signature := ToPublicKey(jwk), Decode(parts.signature).value;
        if key.Some? {
          assert Signed(key.value, Ascii(SigningInput(parts.header, parts.payload)), signature) in signed ==>
            SignedByPublished(v, parts, jwks, signed);
        }
      }
    }
  }

  /** The issuer, audience and time window a token must meet, in closed form. */
  predicate InForce(v: Verifier, x: Claims, now: int) {
    && (v.issuer.Some? ==> x.issuer == v.issuer) && (v.audience.Some? ==> x.audience == v.audience)
    && x.notBefore - v.leeway <= now < x.expiresAt + v.leeway
  }

  predicate OnDenylist(x: Claims, denylist: Option<set<string>>) {
    denylist.Some? && x.tokenId.Some? && x.tokenId.value in denylist.value
  }

  /** A token is accepted exactly when a published key signed it and its claims are in force and not denied. */
  lemma SuccessExactly(v: Verifier, token: Option<string>, jwks: seq<Jwk>, now: int,
                       denylist: Option<set<string>>, signed: set<Signed>, x: Claims)
    ensures Verify(v, token, jwks, now, denylist, signed) == Success(x) <==>
      && Split(token).Some? && SignedByPublished(v, Split(token).value, jwks, signed)
      && ParseClaims(v.codecs, Split(token).value) == Value(x)
      && InForce(v, x, now) && !OnDenylist(x, denylist)
  {
    if Verify(v, token, jwks, now, denylist, signed) == Success(x) {
      SignatureComesFirst(v, token, jwks, now, denylist, signed);
    }
  }

  /** The header is read and names a key. */
  predicate NamesKey(v: Verifier, parts: Parts) {
    ParseHeader(v.codecs, parts).Value? && ParseHeader(v.codecs, parts).value.keyId.Some?
  }

  /** The header is read, and no published key has its key id, if it has one at all. */
  ghost predicate NamesNoPublishedKey(v: Verifier, parts: Parts, jwks: seq<Jwk>) {
    var header := ParseHeader(v.codecs, parts);
    && header.Value?
    && (header.value.keyId == None || forall i :: 0 <= i < |jwks| ==> jwks[i].keyId != header.value.keyId)
  }

  /** The first published key of the id in the header is one, and the signature decodes. */
  ghost predicate SignatureChecked(v: Verifier, parts: Parts, jwks: seq<Jwk>) {
    && NamesKey(v, parts) && Decode(parts.signature).Some?
    && exists i :: 0 <= i < |jwks| && IsFirst(jwks, i, ParseHeader(v.codecs, parts).value.keyId)
                   && ToPublicKey(jwks[i]).Some?
  }

  ghost predicate IsFirst(jwks: seq<Jwk>, i: nat, kid: Option<string>)
    requires i < |jwks|
  {
    jwks[i].keyId == kid && forall j :: 0 <= j < i ==> jwks[j].keyId != kid
  }

  /** A genuine signature over claims that are read. */
  ghost predicate ClaimsRead(v: Verifier, parts: Parts, jwks: seq<Jwk>, signed: set<Signed>) {
    SignedByPublished(v, parts, jwks, signed) && ParseClaims(v.codecs, parts).Value?
  }

  /** Not three segments, a header that cannot be read, or a genuine signature over such claims. */
  lemma BadFormatExactly(v: Verifier, token: Option<string>, jwks: seq<Jwk>, now: int,
                         denylist: Option<set<string>>, signed: set<Signed>)
    ensures Verify(v, token, jwks, now, denylist, signed) == Failure(BAD_FORMAT) <==>
      || Split(token) == None
      || ParseHeader(v.codecs, Split(token).value) == Malformed
      || (SignedByPublished(v, Split(token).value, jwks, signed)
          && ParseClaims(v.codecs, Split(token).value) == Malformed)
  {
    if Split(token).Some? {
      SignedExactly(v, Split(token).value, jwks, signed);
    }
  }

  /** A header that names no key, or none that is published. */
  lemma UnknownKidExactly(v: Verifier, token: Option<string>, jwks: seq<Jwk>, now: int,
                          denylist: Option<set<string>>, signed: set<Signed>)
    ensures Verify(v, token, jwks, now, denylist, signed) == Failure(UNKNOWN_KID) <==>
      Split(token).Some? && NamesNoPublishedKey(v, Split(token).value, jwks)
  {
    if Split(token).Some? && NamesKey(v, Split(token).value) {
      FindJwkFinds(jwks, ParseHeader(v.codecs, Split(token).value).value.keyId.value);
    }
  }

  /** A published key and a signature, which that key did not make over these segments. */
  lemma BadSignatureExactly(v: Verifier, token: Option<string>, jwks: seq<Jwk>, now: int,
                            denylist: Option<set<string>>, signed: set<Signed>)
    ensures Verify(v, token, jwks, now, denylist, signed) == Failure(BAD_SIGNATURE) <==>
      && Split(token).Some? && SignatureChecked(v, Split(token).value, jwks)
      && !SignedByPublished(v, Split(token).value, jwks, signed)
  {
    if Split(token).Some? {
      SignedExactly(v, Split(token).value, jwks, signed);
      CheckedExactly(v, Split(token).value, jwks);
    }
  }

  /** The key the verifier finds, by search and by description. */
  lemma CheckedExactly(v: Verifier, parts: Parts, jwks: seq<Jwk>)
    ensures SignatureChecked(v, parts, jwks) <==>
      && NamesKey(v, parts) && Decode(parts.signature).Some?
      && var jwk := FindJwk(jwks, ParseHeader(v.codecs, parts).value.keyId.value);
         jwk.Some? && ToPublicKey(jwk.value).Some?
  {
    if NamesKey(v, parts) {
      var kid := ParseHeader(v.codecs, parts).value.keyId.value;
      if FindJwk(jwks, kid).Some? {
        var n := FirstOf(jwks, kid);
      }
      forall i | 0 <= i < |jwks| && IsFirst(jwks, i, Some(kid)) ensures FindJwk(jwks, kid) == Some(jwks[i]) {
        FindJwkFirst(jwks, i, kid);
      }
    }
  }

  lemma {:induction false} FirstOf(jwks: seq<Jwk>, kid: string) returns (n: nat)
    requires FindJwk(jwks, kid).Some?
    ensures n < |jwks| && IsFirst(jwks, n, Some(kid)) && FindJwk(jwks, kid) == Some(jwks[n])
  {
    if jwks[0].keyId == Some(kid) {
      n := 0;
    } else {
      n := FirstOf(jwks[1..], kid);
      n := n + 1;
    }
  }

  /** A genuine signature, as the verifier comes to see it. */
  lemma SignedExactly(v: Verifier, parts: Parts, jwks: seq<Jwk>, signed: set<Signed>)
    ensures SignedByPublished(v, parts, jwks, signed) <==>
      && NamesKey(v, parts)
      && var jwk := FindJwk(jwks, ParseHeader(v.codecs, parts).value.keyId.value);
         jwk.Some? && ToPublicKey(jwk.value).Some?
         && VerifySignature(parts, ToPublicKey(jwk.value).value, signed) == Genuine
  {
  }

  /** The refusals on the claims, and acceptance: the first condition that fails decides. */
  lemma LateReasonsExactly(v: Verifier, token: Option<string>, jwks: seq<Jwk>, now: int,
                           denylist: Option<set<string>>, signed: set<Signed>)
    ensures var r := Verify(v, token, jwks, now, denylist, signed);
      var read := Split(token).Some? && ClaimsRead(v, Split(token).value, jwks, signed);
      && (r.Success? || (r.Failure? && r.reason in {WRONG_ISSUER, WRONG_AUDIENCE, NOT_YET_VALID, EXPIRED, REVOKED})
          <==> read)
      && (read ==> var x := ParseClaims(v.codecs, Split(token).value).value; Decided(v, x, now, denylist, r))
  {
    if Split(token).Some? {
      var parts := Split(token).value;
      SignedExactly(v, parts, jwks, signed);
      if ParseClaims(v.codecs, parts).Value? {
        ClaimsDecide(v, ParseClaims(v.codecs, parts).value, now, denylist);
      }
    }
  }

  lemma ClaimsDecide(v: Verifier, x: Claims, now: int, denylist: Option<set<string>>)
    ensures var r := CheckClaims(v, x, now, denylist);
      && Decided(v, x, now, denylist, r)
      && (r.Success? || (r.Failure? && r.reason in {WRONG_ISSUER, WRONG_AUDIENCE, NOT_YET_VALID, EXPIRED, REVOKED}))
  {
  }

  /** What each answer on claims that were read says about them. */
  predicate Decided(v: Verifier, x: Claims, now: int, denylist: Option<set<string>>, r: Outcome) {
    var issuer := v.issuer.Some? ==> x.issuer == v.issuer;
    var audience := v.audience.Some? ==> x.audience == v.audience;
    && (r == Failure(WRONG_ISSUER) <==> !issuer)
    && (r == Failure(WRONG_AUDIENCE) <==> issuer && !audience)
    && (r == Failure(NOT_YET_VALID) <==> issuer && audience && now < x.notBefore - v.leeway)
    && (r == Failure(EXPIRED) <==>
          issuer && audience && x.notBefore - v.leeway <= now && x.expiresAt + v.leeway <= now)
    && (r == Failure(REVOKED) <==> InForce(v, x, now) && OnDenylist(x, denylist))
    && (r == Success(x) <==> InForce(v, x, now) && !OnDenylist(x, denylist))
  }

  // ---- Verification is not total ----

  /** What makes the source throw instead of answering. */
  predicate Unreadable(v: Verifier, parts: Parts, jwks: seq<Jwk>, signed: set<Signed>) {
    var header := ParseHeader(v.codecs, parts);
    || header == JsonNull
    || (header.Value? && header.value.keyId.Some?
        && var jwk := FindJwk(jwks, header.value.keyId.value);
           jwk.Some? && var key := ToPublicKey(jwk.value);
           || key == None
           || Decode(parts.signature) == None
           || (VerifySignature(parts, key.value, signed) == Genuine && ParseClaims(v.codecs, parts) == JsonNull))
  }

  lemma ThrowsExactly(v: Verifier, token: Option<string>, jwks: seq<Jwk>, now: int,
                      denylist: Option<set<string>>, signed: set<Signed>)
    ensures Verify(v, token, jwks, now, denylist, signed) == Throws <==>
      Split(token).Some? && Unreadable(v, Split(token).value, jwks, signed)
  {
  }

  /** Under a published key id, any signature segment that is not base64url throws; one letter will do. */
  lemma UndecodableSignatureThrows(v: Verifier, h: Header, payload: string, signature: string, jwks: seq<Jwk>,
                                   now: int, denylist: Option<set<string>>, signed: set<Signed>)
    requires Faithful(v.codecs) && h.keyId.Some? && FindJwk(jwks, h.keyId.value).Some?
    requires DotFree(payload) && DotFree(signature) && Decode(signature) == None
    ensures var token := Compact(Parts(HeaderSegment(v.codecs, h), payload, signature));
      Verify(v, Some(token), jwks, now, denylist, signed) == Throws
    ensures Decode("A") == None
  {
    SegmentsAreDotFree(v.codecs.header.write(h));
    SplitCompact(Parts(HeaderSegment(v.codecs, h), payload, signature));
    DecodeEncode(v.codecs.header.write(h));
  }

  lemma {:induction false} FindJwkFirst(jwks: seq<Jwk>, i: nat, kid: string)
    requires i < |jwks| && jwks[i].keyId == Some(kid)
    requires forall j :: 0 <= j < i ==> jwks[j].keyId != Some(kid)
    ensures FindJwk(jwks, kid) == Some(jwks[i])
  {
    if i > 0 {
      FindJwkFirst(jwks[1..], i - 1, kid);
    }
  }

  lemma {:induction false} FindJwkFinds(jwks: seq<Jwk>, kid: string)
    ensures FindJwk(jwks, kid).Some? <==> exists i :: 0 <= i < |jwks| && jwks[i].keyId == Some(kid)
    ensures FindJwk(jwks, kid).Some? ==> FindJwk(jwks, kid).value in jwks && FindJwk(jwks, kid).value.keyId == Some(kid)
  {
    if jwks != [] {
      FindJwkFinds(jwks[1..], kid);
      if jwks[0].keyId != Some(kid) && exists i :: 0 <= i < |jwks| && jwks[i].keyId == Some(kid) {
        var i :| 0 <= i < |jwks| && jwks[i].keyId == Some(kid);
        assert jwks[1..][i - 1].keyId == Some(kid);
      }
    }
  }
}
