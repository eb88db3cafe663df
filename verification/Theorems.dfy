/** What holds over every run of the identity provider and of the verifiers that trust it. */
module Theorems {
  import opened Options
  import opened Base64Url
  import opened Ed25519Keys
  import opened Persistence
  import opened Jws
  import opened Jwks
  import opened TokenVerifier
  import Grants
  import LinkedMap
  import SigningKeys
  import KeyMachine
  import KeyTheorems
  import Revocations
  import Clients
  import Audits
  import opened System
  import opened SystemInvariant
  import opened Requests
  import opened Calls

  /** A verifier configured for this identity provider. */
  function VerifierOf(c: Config, leeway: nat): Verifier {
    Verifier(c.codecs, Some(c.issuer), Some(c.audience), leeway)
  }

  /** The key set a verifier fetches in this state; nothing while the key service is busy. */
  function FetchedJwks(c: Config, s: Sys): seq<Jwk> {
    if IsIdle(s.keys) then JwksFor(KeyMachine.ServedKeys(s.keys, s.now, c.retention)) else []
  }

  function JwksFor(served: seq<SigningKeys.KeyRecord>): seq<Jwk> {
    var jwks := SigningKeys.Published(served);
    if jwks.Some? then jwks.value else []
  }

  // ---- Every live token finds its key ----

  /**
   * A token issued by step i, a key set fetched at step j, and a verification at step k by a clock
   * at most `skew` seconds off, inside the token's window, with no denylist against the token.
   */
  ghost predicate Presented(c: Config, leeway: nat, skew: nat, trace: seq<Action>, i: nat, j: nat, k: nat,
                            t: IssuedToken, clock: int, denylist: Option<set<string>>)
  {
    && Legal(c, trace) && i <= j <= k <= |trace|
    && t in At(c, trace, i).issued
    && IsIdle(At(c, trace, j).keys)
    && At(c, trace, k).now - skew <= clock <= At(c, trace, k).now + skew
    && t.claims.notBefore - leeway <= clock < t.claims.expiresAt + leeway
    && (denylist.Some? ==> t.claims.tokenId.Some? ==> t.claims.tokenId.value !in denylist.value)
  }

  /** What the verifier answers for this token. */
  ghost function Answer(c: Config, leeway: nat, trace: seq<Action>, j: nat, k: nat, token: Option<string>,
                        clock: int, denylist: Option<set<string>>): Outcome
    requires j <= |trace| && k <= |trace|
  {
    Verify(VerifierOf(c, leeway), token, FetchedJwks(c, At(c, trace, j)), clock, denylist, At(c, trace, k).signed)
  }

  /** No live token is ever left with an unpublished key. */
  ghost predicate OverlapSafe(c: Config, leeway: nat, skew: nat) {
    forall trace: seq<Action>, i: nat, j: nat, k: nat, t: IssuedToken, clock: int, denylist: Option<set<string>>
      {:trigger Presented(c, leeway, skew, trace, i, j, k, t, clock, denylist)} ::
      Presented(c, leeway, skew, trace, i, j, k, t, clock, denylist) ==>
        Answer(c, leeway, trace, j, k, Some(TokenText(c, t)), clock, denylist) == Success(t.claims)
  }

  /** No two keys of the set share this id. */
  ghost predicate OnlyOne(jwks: seq<Jwk>, kid: string) {
    forall i, j :: 0 <= i < j < |jwks| && jwks[i].keyId == Some(kid) ==> jwks[j].keyId != Some(kid)
  }

  /** A key not retired before `since` is found, and found once, in any set fetched by `since + retention`. */
  lemma FetchedKeyIsFound(c: Config, s: Sys, key: nat, kid: string, spki: seq<Byte>, since: int)
    requires KeyMachine.Inv(s.keys, s.now, c.retention) && IsIdle(s.keys)
    requires KeyTheorems.HeldSince(s.keys, key, kid, spki, since) && s.now - c.retention <= since
    ensures var jwk := FindJwk(FetchedJwks(c, s), kid); jwk.Some? && ToPublicKey(jwk.value) == Some(spki)
    ensures OnlyOne(FetchedJwks(c, s), kid)
  {
    var records, served := s.keys.committed.records, KeyMachine.ServedKeys(s.keys, s.now, c.retention);
    KeyTheorems.ServedIsRetained(s.keys, s.now, c.retention);
    KeyTheorems.RetainedIsPublished(served, records, s.now, s.now - c.retention);
    ServedIdsDiffer(records, served, s.now, s.now - c.retention);
    FindServed(records, served, JwksFor(served), s.now - c.retention, key);
    OnlyOnePublished(served, JwksFor(served), kid);
  }

  ghost predicate IdsDiffer(keys: seq<SigningKeys.KeyRecord>) {
    forall i, j :: 0 <= i < j < |keys| ==> keys[i].kid != keys[j].kid
  }

  lemma ServedIdsDiffer(records: seq<SigningKeys.KeyRecord>, served: seq<SigningKeys.KeyRecord>, now: int, cutoff: int)
    requires KeyMachine.Ordered(records, now) && KeyMachine.Retained(served, records, cutoff)
    ensures IdsDiffer(served)
  {
    var d := |records| - |served|;
    forall i, j | 0 <= i < j < |served| ensures served[i].kid != served[j].kid {
      assert served[i] == records[d + i] && served[j] == records[d + j];
      assert KeyMachine.Precedes(records[d + i], records[d + j]);
    }
  }

  lemma FindServed(records: seq<SigningKeys.KeyRecord>, served: seq<SigningKeys.KeyRecord>, jwks: seq<Jwk>,
                   cutoff: int, key: nat)
    requires KeyMachine.Retained(served, records, cutoff) && IdsDiffer(served)
    requires SigningKeys.PublishesAll(jwks, served)
    requires key < |records| && !SigningKeys.Expired(records[key], cutoff)
    ensures var jwk := FindJwk(jwks, records[key].kid);
      jwk.Some? && ToPublicKey(jwk.value) == Some(records[key].publicSpki)
  {
    var d := |records| - |served|;
    assert key >= d && served[key - d] == records[key];
    FindPublished(served, jwks, key - d);
  }

  lemma OnlyOnePublished(served: seq<SigningKeys.KeyRecord>, jwks: seq<Jwk>, kid: string)
    requires SigningKeys.PublishesAll(jwks, served) && IdsDiffer(served)
    ensures OnlyOne(jwks, kid)
  {
    forall i, j | 0 <= i < j < |jwks| && jwks[i].keyId == Some(kid) ensures jwks[j].keyId != Some(kid) {
      assert SigningKeys.Publishes(jwks[i], served[i]) && SigningKeys.Publishes(jwks[j], served[j]);
    }
  }

  lemma FindPublished(served: seq<SigningKeys.KeyRecord>, jwks: seq<Jwk>, n: nat)
    requires SigningKeys.PublishesAll(jwks, served) && n < |served|
    requires forall i :: 0 <= i < n ==> served[i].kid != served[n].kid
    ensures FindJwk(jwks, served[n].kid) == Some(jwks[n]) && ToPublicKey(jwks[n]) == Some(served[n].publicSpki)
  {
    assert SigningKeys.Publishes(jwks[n], served[n]);
    forall i | 0 <= i < n ensures jwks[i].keyId != Some(served[n].kid) {
      assert SigningKeys.Publishes(jwks[i], served[i]);
    }
    FindJwkFirst(jwks, n, served[n].kid);
  }

  /** An issued token whose key is found passes every check but the claims' own. */
  lemma IssuedTokenReachesClaims(c: Config, v: Verifier, t: IssuedToken, jwks: seq<Jwk>, clock: int,
                                 denylist: Option<set<string>>, signed: set<Signed>)
    requires Faithful(c.codecs) && v.codecs == c.codecs
    requires FindJwk(jwks, t.kid).Some? && ToPublicKey(FindJwk(jwks, t.kid).value) == Some(t.publicSpki)
    requires TokenSigned(c, t) in signed
    ensures Verify(v, Some(TokenText(c, t)), jwks, clock, denylist, signed) == CheckClaims(v, t.claims, clock, denylist)
  {
    SignedTokenRoundTrip(c.codecs, ForKid(t.kid), t.claims, t.signature);
  }

  lemma RetentionCoversTokens(c: Config, leeway: nat, skew: nat, trace: seq<Action>, i: nat, j: nat, k: nat,
                              t: IssuedToken, clock: int, denylist: Option<set<string>>)
    requires Faithful(c.codecs) && c.retention >= c.ttl + leeway + skew - 1
    requires Presented(c, leeway, skew, trace, i, j, k, t, clock, denylist)
    ensures Answer(c, leeway, trace, j, k, Some(TokenText(c, t)), clock, denylist) == Success(t.claims)
  {
    var s, s' := At(c, trace, j), At(c, trace, k);
    InvAt(c, trace, j);
    RunGrows(c, trace, i, j);
    RunGrows(c, trace, j, k);
    assert t in s.issued;
    assert TokenOk(c, s.keys, s.signed, s.now, t);
    FetchedKeyIsFound(c, s, t.key, t.kid, t.publicSpki, t.claims.issuedAt);
    IssuedTokenReachesClaims(c, VerifierOf(c, leeway), t, FetchedJwks(c, s), clock, denylist, s'.signed);
  }

  // ---- Authenticity ----

  /** The key a fetched set holds under an id is one the service committed. */
  lemma FetchedKeyIsCommitted(c: Config, s: Sys, kid: string)
    requires KeyMachine.Inv(s.keys, s.now, c.retention) && IsIdle(s.keys)
    requires FindJwk(FetchedJwks(c, s), kid).Some?
    ensures var key := ToPublicKey(FindJwk(FetchedJwks(c, s), kid).value);
      key.Some? && Uses(s.keys.committed.records, key.value)
  {
    var records, served := s.keys.committed.records, KeyMachine.ServedKeys(s.keys, s.now, c.retention);
    KeyTheorems.ServedIsRetained(s.keys, s.now, c.retention);
    KeyTheorems.RetainedIsPublished(served, records, s.now, s.now - c.retention);
    FoundIsServed(records, served, JwksFor(served), s.now - c.retention, kid);
  }

  lemma FoundIsServed(records: seq<SigningKeys.KeyRecord>, served: seq<SigningKeys.KeyRecord>, jwks: seq<Jwk>,
                      cutoff: int, kid: string)
    requires KeyMachine.Retained(served, records, cutoff) && SigningKeys.PublishesAll(jwks, served)
    requires FindJwk(jwks, kid).Some?
    ensures var key := ToPublicKey(FindJwk(jwks, kid).value); key.Some? && Uses(records, key.value)
  {
    FindJwkFinds(jwks, kid);
    var m :| 0 <= m < |jwks| && jwks[m] == FindJwk(jwks, kid).value;
    assert SigningKeys.Publishes(jwks[m], served[m]);
    assert served[m] == records[|records| - |served| + m];
  }

  /** The token carries the header and payload an issue step produced, whatever its signature text. */
  ghost predicate IsIssued(c: Config, token: Option<string>, claims: Claims, t: IssuedToken) {
    && Split(token).Some?
    && Split(token).value.header == HeaderSegment(c.codecs, ForKid(t.kid))
    && Split(token).value.payload == PayloadSegment(c.codecs, t.claims)
    && claims == t.claims
  }

  lemma AcceptedIsIssued(c: Config, leeway: nat, trace: seq<Action>, j: nat, k: nat, token: Option<string>,
                         clock: int, denylist: Option<set<string>>)
    requires Faithful(c.codecs) && Legal(c, trace) && j <= k <= |trace| && IsIdle(At(c, trace, j).keys)
    ensures var r := Answer(c, leeway, trace, j, k, token, clock, denylist);
      r.Success? ==> exists t :: t in At(c, trace, k).issued && IsIssued(c, token, r.claims, t)
  {
    var r := Answer(c, leeway, trace, j, k, token, clock, denylist);
    if r.Success? {
      var jwks, signed := FetchedJwks(c, At(c, trace, j)), At(c, trace, k).signed;
      SuccessExactly(VerifierOf(c, leeway), token, jwks, clock, denylist, signed, r.claims);
      var t := SignedIsIssued(c, leeway, trace, j, k, Split(token).value);
      MessageIsIssued(c, token, r.claims, t);
    }
  }

  /** A text over the message of an issued token, read as these claims, carries that token's segments. */
  lemma MessageIsIssued(c: Config, token: Option<string>, x: Claims, t: IssuedToken)
    requires Faithful(c.codecs) && Split(token).Some? && ParseClaims(c.codecs, Split(token).value) == Value(x)
    requires var parts := Split(token).value;
      Ascii(SigningInput(parts.header, parts.payload)) == Message(c.codecs, ForKid(t.kid), t.claims)
    ensures IsIssued(c, token, x, t)
  {
    var parts := Split(token).value;
    CompactSplit(token);
    MessageDeterminesSegments(c.codecs, ForKid(t.kid), t.claims, parts.header, parts.payload);
    DecodeEncode(c.codecs.claims.write(t.claims));
  }

  /** Parts signed under a fetched key carry the message of an issued token. */
  lemma SignedIsIssued(c: Config, leeway: nat, trace: seq<Action>, j: nat, k: nat, parts: Parts)
    returns (t: IssuedToken)
    requires Legal(c, trace) && j <= k <= |trace| && IsIdle(At(c, trace, j).keys)
    requires SignedByPublished(VerifierOf(c, leeway), parts, FetchedJwks(c, At(c, trace, j)), At(c, trace, k).signed)
    ensures t in At(c, trace, k).issued
    ensures Ascii(SigningInput(parts.header, parts.payload)) == Message(c.codecs, ForKid(t.kid), t.claims)
  {
    var s, s' := At(c, trace, j), At(c, trace, k);
    var kid, jwk, spki, signature :|
      && ParseHeader(c.codecs, parts).Value? && ParseHeader(c.codecs, parts).value.keyId == Some(kid)
      && FindJwk(FetchedJwks(c, s), kid) == Some(jwk) && ToPublicKey(jwk) == Some(spki)
      && Decode(parts.signature) == Some(signature)
      && Signed(spki, Ascii(SigningInput(parts.header, parts.payload)), signature) in s'.signed;
    KeysInvAt(c, trace, j);
    FetchedKeyIsCommitted(c, s, kid);
    RunGrows(c, trace, j, k);
    UsesLater(s.keys.committed.records, s'.keys.committed.records, spki);
    t := GenuineIsIssued(c, trace, k, parts, spki, signature);
  }

  /** A genuine signature under a committed key is over the message of an issued token. */
  lemma GenuineIsIssued(c: Config, trace: seq<Action>, k: nat, parts: Parts, spki: seq<Byte>, signature: seq<Byte>)
    returns (t: IssuedToken)
    requires Legal(c, trace) && k <= |trace| && Uses(At(c, trace, k).keys.committed.records, spki)
    requires Signed(spki, Ascii(SigningInput(parts.header, parts.payload)), signature) in At(c, trace, k).signed
    ensures t in At(c, trace, k).issued
    ensures Ascii(SigningInput(parts.header, parts.payload)) == Message(c.codecs, ForKid(t.kid), t.claims)
  {
    var s := At(c, trace, k);
    InvAt(c, trace, k);
    assert SignedOk(c, s.keys, s.signed, s.issued);
    var genuine := Signed(spki, Ascii(SigningInput(parts.header, parts.payload)), signature);
    assert ServiceKey(s.keys, spki);
    t :| t in s.issued && genuine == TokenSigned(c, t);
  }

  lemma UsesLater(a: seq<SigningKeys.KeyRecord>, b: seq<SigningKeys.KeyRecord>, spki: seq<Byte>)
    requires KeyTheorems.Evolves(a, b) && Uses(a, spki)
    ensures Uses(b, spki)
  {
    var i :| 0 <= i < |a| && a[i].publicSpki == spki;
    assert b[i].publicSpki == spki;
  }

  /** At this step the registry held this client with this authorization and the secret presented there. */
  ghost predicate GrantedAt(c: Config, trace: seq<Action>, m: nat, client: Clients.ClientRecord) {
    && m < |trace| && trace[m].Issue? && trace[m].step.Authenticate?
    && var creds := At(c, trace, m).clients.committed;
       && client.clientId == trace[m].step.id && client.clientId in creds
       && creds[client.clientId] == Clients.Credential(trace[m].step.secret, client.authorization)
  }

  /**
   * These claims and segments are those of token t. One request made it, with no crash and no other
   * request of the thread in between: it authenticated its client, read the clock, got the signer, and
   * signed, all before state n; and t carries the grants its client had at that authentication.
   */
  ghost predicate TracedTo(c: Config, trace: seq<Action>, k: nat, token: Option<string>, x: Claims,
                           t: IssuedToken, q: Steps, n: nat)
  {
    && IsIssued(c, token, x, t)
    && n <= k && Reached(c, trace, q, n, Issued(t))
    && GrantedAt(c, trace, q.authenticate, t.client)
    && x.subject == Some(t.client.clientId)
    && x.grants.Some? && Grants.AuthorizationOf(x.grants.value) == Grants.Ok(t.client.authorization)
  }

  /**
   * A token that verifies was issued by this provider with exactly these claims, and its grants are
   * those its subject held when the request for it authenticated, whatever became of the client since.
   */
  lemma AcceptedTokensAreAuthentic(c: Config, leeway: nat, trace: seq<Action>, j: nat, k: nat,
                                   token: Option<string>, clock: int, denylist: Option<set<string>>)
    requires Faithful(c.codecs) && Legal(c, trace) && j <= k <= |trace| && IsIdle(At(c, trace, j).keys)
    ensures var r := Answer(c, leeway, trace, j, k, token, clock, denylist);
      r.Success? ==> exists t, q, n :: TracedTo(c, trace, k, token, r.claims, t, q, n)
  {
    var r := Answer(c, leeway, trace, j, k, token, clock, denylist);
    if r.Success? {
      AcceptedIsIssued(c, leeway, trace, j, k, token, clock, denylist);
      var t :| t in At(c, trace, k).issued && IsIssued(c, token, r.claims, t);
      var q, n := TokenHistory(c, trace, k, t);
      SignedIsGranted(c, trace, q, n, t);
      assert TracedTo(c, trace, k, token, r.claims, t, q, n);
    }
  }

  /** A signed token carries what the registry held of its client when its own request authenticated. */
  lemma SignedIsGranted(c: Config, trace: seq<Action>, q: Steps, n: nat, t: IssuedToken)
    requires Legal(c, trace) && Reached(c, trace, q, n, Issued(t))
    ensures GrantedAt(c, trace, q.authenticate, t.client)
    ensures t.claims.subject == Some(t.client.clientId)
    ensures t.claims.grants.Some?
    ensures Grants.AuthorizationOf(t.claims.grants.value) == Grants.Ok(t.client.authorization)
  {
    Grants.SpellsExactly(t.claims.grants.value, t.client.authorization);
    var m := q.authenticate;
    InvAt(c, trace, m);
    Clients.AuthenticationRefinesCredentials(At(c, trace, m).clients, trace[m].step.id, trace[m].step.secret);
  }

  // ---- Revoked tokens stay rejected ----

  /** The ids on a denylist polled in this state. */
  ghost function Denylist(s: Sys): set<string> {
    if IsIdle(s.revs) then set e | e in Revocations.Prune(s.revs.proc.mem, s.now) :: e.key else {}
  }

  lemma {:induction false} KeysOf<V>(m: seq<LinkedMap.Entry<V>>, key: string)
    ensures LinkedMap.Get(m, key).Some? <==> key in set e | e in m :: e.key
  {
    LinkedMap.GetAbsent(m, key);
    if LinkedMap.Get(m, key).Some? {
      var i :| 0 <= i < |m| && m[i].key == key;
      assert m[i] in m;
    }
    if key in set e | e in m :: e.key {
      var e :| e in m && e.key == key;
      var i :| 0 <= i < |m| && m[i] == e;
    }
  }

  /**
   * The revoke of this id at step m has returned by state i, and up to a poll at step p no revoke
   * lowers its horizon.
   */
  ghost predicate StillRevoked(c: Config, trace: seq<Action>, m: nat, i: nat, p: nat, jti: string, horizon: int) {
    RevokeReturned(c, trace, m, i, jti, horizon) && i <= p <= |trace| && NotLowered(trace, m, p, jti, horizon)
  }

  /**
   * After a revoke up to exp + leeway + skew - 1 or later, a verifier polling at step p and verifying
   * at step k never accepts a token of a revoked id, across polls, prunes, crashes and restarts.
   */
  lemma RevokedStaysRejected(c: Config, leeway: nat, skew: nat, trace: seq<Action>, m: nat, i: nat, p: nat, k: nat,
                             jti: string, horizon: int, token: Option<string>, jwks: seq<Jwk>, clock: int)
    requires StillRevoked(c, trace, m, i, p, jti, horizon) && p <= k <= |trace| && IsIdle(At(c, trace, p).revs)
    requires At(c, trace, k).now - skew <= clock
    ensures var r := Verify(VerifierOf(c, leeway), token, jwks, clock, Some(Denylist(At(c, trace, p))),
                            At(c, trace, k).signed);
      r.Success? && r.claims.tokenId == Some(jti) ==> r.claims.expiresAt + leeway + skew - 1 > horizon
  {
    var denylist, signed := Denylist(At(c, trace, p)), At(c, trace, k).signed;
    RevokedIsListed(c, trace, m, i, p, jti, horizon);
    RunGrows(c, trace, p, k);
    AcceptedIsInForce(VerifierOf(c, leeway), token, jwks, clock, denylist, signed);
  }

  lemma RevokedIsListed(c: Config, trace: seq<Action>, m: nat, i: nat, p: nat, jti: string, horizon: int)
    requires StillRevoked(c, trace, m, i, p, jti, horizon) && IsIdle(At(c, trace, p).revs)
    ensures At(c, trace, p).now <= horizon ==> jti in Denylist(At(c, trace, p))
  {
    var s := At(c, trace, p);
    RevokeLasts(c, trace, m, i, p, jti, horizon);
    InvAt(c, trace, p);
    Revocations.DenylistRefinesLatest(s.revs, jti, s.now);
    KeysOf(Revocations.Prune(s.revs.proc.mem, s.now), jti);
  }

  lemma AcceptedIsInForce(v: Verifier, token: Option<string>, jwks: seq<Jwk>, clock: int,
                          denylist: set<string>, signed: set<Signed>)
    ensures var r := Verify(v, token, jwks, clock, Some(denylist), signed);
      r.Success? ==> InForce(v, r.claims, clock) && !OnDenylist(r.claims, Some(denylist))
  {
  }

  // ---- Audit before response ----

  /** A token handed to a client is its own request's, and has that request's entry in the durable log. */
  lemma AuditedBeforeResponse(c: Config, trace: seq<Action>, i: nat, r: Response)
    requires Legal(c, trace) && i <= |trace| && r in At(c, trace, i).responses
    ensures LiveWhole(At(c, trace, i).audit.files)
    ensures LoggedAt(Audits.DurableLog(At(c, trace, i).audit), r.position, r.token)
    ensures exists m: nat, q :: m < i && Answers(c, trace, m, q, r)
  {
    InvAt(c, trace, i);
    var m, q := ResponseHistory(c, trace, i, r);
  }

  lemma EntriesNameIssuedTokens(c: Config, trace: seq<Action>, i: nat, n: nat)
    requires Legal(c, trace) && i <= |trace|
    ensures LiveWhole(At(c, trace, i).audit.files)
    ensures var log := Audits.DurableLog(At(c, trace, i).audit);
      n < |log| && log[n].event == "token.issued" ==>
        exists t :: t in At(c, trace, i).issued && LoggedAt(log, n, t)
  {
    InvAt(c, trace, i);
  }

  /** Across steps, crashes and restarts the durable log is only appended to, in order of time. */
  lemma AuditLogOnlyAppends(c: Config, trace: seq<Action>, i: nat, j: nat)
    requires Legal(c, trace) && i <= j <= |trace|
    ensures LiveWhole(At(c, trace, i).audit.files) && LiveWhole(At(c, trace, j).audit.files)
    ensures Audits.DurableLog(At(c, trace, i).audit) <= Audits.DurableLog(At(c, trace, j).audit)
    ensures Audits.Timely(Audits.DurableLog(At(c, trace, j).audit), At(c, trace, j).now)
  {
    InvAt(c, trace, i);
    InvAt(c, trace, j);
    RunGrows(c, trace, i, j);
  }

  // ---- Write before use ----

  lemma {:induction false} HeldLater(c: Config, trace: seq<Action>, m: nat, i: nat,
                                     key: nat, kid: string, spki: seq<Byte>, since: int)
    requires Legal(c, trace) && m <= i <= |trace| && since <= At(c, trace, m).now
    requires KeyTheorems.HeldSince(At(c, trace, m).keys, key, kid, spki, since)
    ensures KeyTheorems.HeldSince(At(c, trace, i).keys, key, kid, spki, since)
    decreases i
  {
    if m < i {
      HeldLater(c, trace, m, i - 1, key, kid, spki, since);
      RunGrows(c, trace, m, i - 1);
      HeldOneMore(c, trace, i - 1, key, kid, spki, since);
    }
  }

  lemma HeldOneMore(c: Config, trace: seq<Action>, i: nat, key: nat, kid: string, spki: seq<Byte>, since: int)
    requires Legal(c, trace) && i < |trace| && since <= At(c, trace, i).now
    requires KeyTheorems.HeldSince(At(c, trace, i).keys, key, kid, spki, since)
    ensures KeyTheorems.HeldSince(At(c, trace, i + 1).keys, key, kid, spki, since)
  {
    KeysInvAt(c, trace, i);
    StepAt(c, trace, i);
    HeldStep(c, At(c, trace, i), trace[i], key, kid, spki, since);
  }

  lemma HeldStep(c: Config, s: Sys, a: Action, key: nat, kid: string, spki: seq<Byte>, since: int)
    requires KeyMachine.Inv(s.keys, s.now, c.retention) && Enabled(s, a) && since <= s.now
    requires KeyTheorems.HeldSince(s.keys, key, kid, spki, since)
    ensures KeyTheorems.HeldSince(Apply(c, s, a).keys, key, kid, spki, since)
  {
    if a.KeyStep? {
      KeyTheorems.StepKeepsHeld(s.keys, a.key, s.now, c.retention, key, kid, spki, since);
    } else if !a.Crash? {
      assert Apply(c, s, a).keys == s.keys;
    }
  }

  /**
   * A key handed out at step m is in the file at every later step, a crash between any two steps of
   * a save included, until it has been retired longer than the retention.
   */
  lemma WriteBeforeUse(c: Config, trace: seq<Action>, m: nat, i: nat)
    requires Legal(c, trace) && m <= i <= |trace|
    requires IsIdle(At(c, trace, m).keys) && CurrentSigner(At(c, trace, m).keys).Some?
    ensures var files := At(c, trace, i).keys.files;
      && files.live.Some? && files.live.value.Whole?
      && exists r: SigningKeys.KeyRecord ::
           && r.kid == CurrentSigner(At(c, trace, m).keys).value.kid
           && r in At(c, trace, i).keys.committed.records
           && (r.retiredAt.Some? ==> r.retiredAt.value >= At(c, trace, m).now)
           && (r in files.live.value.doc.keys || SigningKeys.Expired(r, At(c, trace, i).now - c.retention))
  {
    var s, s' := At(c, trace, m), At(c, trace, i);
    KeysInvAt(c, trace, m);
    KeysInvAt(c, trace, i);
    KeyTheorems.SignerIsLast(s.keys, s.now, c.retention, s.now);
    var last, key := KeyMachine.Last(s.keys.committed.records), |s.keys.committed.records| - 1;
    HeldLater(c, trace, m, i, key, last.kid, last.publicSpki, s.now);
    KeyTheorems.HandedOutIsDurable(s'.keys, s'.now, c.retention, key, last.kid, last.publicSpki, s.now);
    assert s'.keys.committed.records[key] in s'.keys.committed.records;
  }

  // ---- The services at every reachable state ----

  /** Served keys: the whole history, minus what expired; as many as recent rotations, plus one. */
  lemma ReachableKeys(c: Config, trace: seq<Action>, i: nat)
    requires Legal(c, trace) && i <= |trace| && IsIdle(At(c, trace, i).keys)
    ensures KeyTheorems.ServesHistory(At(c, trace, i).keys, At(c, trace, i).now, c.retention)
  {
    KeysInvAt(c, trace, i);
    KeyTheorems.IdleServesHistory(At(c, trace, i).keys, At(c, trace, i).now, c.retention);
  }

  /** Denylist and registry answer as their histories say; all four live files are whole. */
  lemma ReachableAnswers(c: Config, trace: seq<Action>, i: nat, jti: string, id: string, secret: string)
    requires Legal(c, trace) && i <= |trace|
    ensures var s := At(c, trace, i);
      && LiveWhole(s.keys.files) && LiveWhole(s.revs.files) && LiveWhole(s.clients.files) && LiveWhole(s.audit.files)
      && (IsIdle(s.revs) ==>
            (Revocations.IsRevoked(s.revs, jti, s.now) <==> Revocations.Denied(s.revs.committed, jti, s.now)))
      && (IsIdle(s.clients) ==>
            var r := Clients.Authenticate(s.clients.proc.mem, Some(id), secret);
            && (r.Some? <==> id in s.clients.committed && s.clients.committed[id].secret == secret)
            && (r.Some? ==> r.value.clientId == id && r.value.authorization == s.clients.committed[id].authorization))
  {
    var s := At(c, trace, i);
    InvAt(c, trace, i);
    if IsIdle(s.revs) {
      Revocations.DenylistRefinesLatest(s.revs, jti, s.now);
    }
    if IsIdle(s.clients) {
      Clients.AuthenticationRefinesCredentials(s.clients, id, secret);
    }
  }
}
