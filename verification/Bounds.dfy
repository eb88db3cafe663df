/** The exact conditions under which the provider's two promises hold, over all runs. */
module Bounds {
  import opened Options
  import opened Ed25519Keys
  import opened Persistence
  import opened Jws
  import opened Jwks
  import opened TokenVerifier
  import SigningKeys
  import KeyMachine
  import KeyTheorems
  import Revocations
  import opened System
  import opened SystemInvariant
  import opened Calls
  import opened Theorems
  import opened Witnesses

  function Min(a: int, b: int): int { if a < b then a else b }

  lemma WholeRun(c: Config, trace: seq<Action>, s: Sys)
    requires Run(c, trace) == Some(s)
    ensures At(c, trace, |trace|) == s
  {
    assert trace[..|trace|] == trace;
  }

  /** A retention one second shorter than the bound leaves some live token with an unpublished key. */
  lemma ShortRetentionLosesTokens(c: Config, leeway: nat, skew: nat)
    requires Faithful(c.codecs) && c.ttl >= 1 && 0 <= c.retention < c.ttl + leeway + skew - 1
    ensures !OverlapSafe(c, leeway, skew)
  {
    var trace, s, t := OutlivedKey(c);
    WholeRun(c, trace, s);
    var n, clock := |trace|, s.now - Min(skew, s.now);
    SignedTokenRoundTrip(c.codecs, ForKid(t.kid), t.claims, t.signature);
    PairIsSpki(1);
    SigningKeys.PublishedAt([SigningKeys.NewKey("k2", Pair(1), 0)]);
    var jwks := FetchedJwks(c, s);
    assert SigningKeys.Publishes(jwks[0], SigningKeys.NewKey("k2", Pair(1), 0));
    FindJwkFinds(jwks, "k1");
    assert "k1"[1] != "k2"[1];
    assert Presented(c, leeway, skew, trace, n, n, n, t, clock, None);
    assert Answer(c, leeway, trace, n, n, Some(TokenText(c, t)), clock, None) == Failure(UNKNOWN_KID);
  }

  /** No live token is ever left with an unpublished key, exactly when the retention covers ttl, leeway and skew. */
  lemma OverlapBound(c: Config, leeway: nat, skew: nat)
    requires Faithful(c.codecs) && c.ttl >= 1 && c.retention >= 0
    ensures OverlapSafe(c, leeway, skew) <==> c.retention >= c.ttl + leeway + skew - 1
  {
    if c.retention >= c.ttl + leeway + skew - 1 {
      forall trace: seq<Action>, i: nat, j: nat, k: nat, t: IssuedToken, clock: int, denylist: Option<set<string>>
        | Presented(c, leeway, skew, trace, i, j, k, t, clock, denylist)
        ensures Answer(c, leeway, trace, j, k, Some(TokenText(c, t)), clock, denylist) == Success(t.claims)
      {
        RetentionCoversTokens(c, leeway, skew, trace, i, j, k, t, clock, denylist);
      }
    } else {
      ShortRetentionLosesTokens(c, leeway, skew);
    }
  }

  // ---- The server's configuration ----

  const DEFAULT_TOKEN_TTL_SECONDS := 300

  /** The lifetime `resolve` settles on; None where it throws. */
  function ResolveTtl(seconds: Option<int>): (ttl: Option<int>)
    ensures seconds == None ==> ttl == Some(300)
    ensures seconds.Some? ==> (ttl == seconds <==> seconds.value >= 1) && (ttl == None <==> seconds.value < 1)
  {
    var ttl := if seconds.Some? then seconds.value else DEFAULT_TOKEN_TTL_SECONDS;
    if ttl < 1 then None else Some(ttl)
  }

  function RetiredKeyRetention(ttl: int): int { ttl * 2 }

  /** Every configuration the server accepts is overlap-safe exactly for leeway plus skew up to ttl + 1. */
  lemma ServerRetentionBound(c: Config, seconds: Option<int>, leeway: nat, skew: nat)
    requires Faithful(c.codecs) && ResolveTtl(seconds) == Some(c.ttl) && c.retention == RetiredKeyRetention(c.ttl)
    ensures OverlapSafe(c, leeway, skew) <==> leeway + skew <= c.ttl + 1
  {
    OverlapBound(c, leeway, skew);
  }

  /** The documented condition, a retention above the ttl, suffices only for leeway plus skew up to two. */
  lemma DocumentedRetentionBound(c: Config, leeway: nat, skew: nat)
    requires Faithful(c.codecs) && c.ttl >= 1 && c.retention == c.ttl + 1
    ensures OverlapSafe(c, leeway, skew) <==> leeway + skew <= 2
  {
    OverlapBound(c, leeway, skew);
  }

  // ---- Revocation horizons ----

  /**
   * The token's id revoked up to this horizon at step m, the call returned by state i, the horizon
   * not lowered up to the poll; a key set from step j, a denylist from step p, verified at step k.
   */
  ghost predicate RevokedTo(c: Config, skew: nat, horizon: int, trace: seq<Action>, m: nat, i: nat, j: nat, p: nat,
                            k: nat, t: IssuedToken, clock: int)
  {
    && t.claims.tokenId.Some? && StillRevoked(c, trace, m, i, p, t.claims.tokenId.value, horizon)
    && t in At(c, trace, m).issued
    && j <= k && p <= k <= |trace| && IsIdle(At(c, trace, p).revs)
    && At(c, trace, k).now - skew <= clock <= At(c, trace, k).now + skew
  }

  /** The verifier's answer to the token in that situation. */
  ghost predicate Accepted(c: Config, leeway: nat, trace: seq<Action>, j: nat, p: nat, k: nat,
                           t: IssuedToken, clock: int)
    requires j <= |trace| && p <= |trace| && k <= |trace|
  {
    Answer(c, leeway, trace, j, k, Some(TokenText(c, t)), clock, Some(Denylist(At(c, trace, p)))).Success?
  }

  /** Revoked up to `margin` seconds past the token's expiry. */
  ghost predicate RevokedPast(c: Config, skew: nat, margin: int, trace: seq<Action>, m: nat, i: nat, j: nat, p: nat,
                              k: nat, t: IssuedToken, clock: int)
  {
    RevokedTo(c, skew, t.claims.expiresAt + margin, trace, m, i, j, p, k, t, clock)
  }

  /** No token revoked up to `margin` seconds after its expiry (or before, if negative) is accepted again. */
  ghost predicate HorizonSafe(c: Config, leeway: nat, skew: nat, margin: int) {
    forall trace: seq<Action>, m: nat, i: nat, j: nat, p: nat, k: nat, t: IssuedToken, clock: int
      {:trigger RevokedPast(c, skew, margin, trace, m, i, j, p, k, t, clock)} ::
      RevokedPast(c, skew, margin, trace, m, i, j, p, k, t, clock) ==>
        !Accepted(c, leeway, trace, j, p, k, t, clock)
  }

  lemma FarHorizonHolds(c: Config, leeway: nat, skew: nat, horizon: int, trace: seq<Action>,
                        m: nat, i: nat, j: nat, p: nat, k: nat, t: IssuedToken, clock: int)
    requires Faithful(c.codecs) && horizon - t.claims.expiresAt >= leeway + skew - 1
    requires RevokedTo(c, skew, horizon, trace, m, i, j, p, k, t, clock)
    ensures !Accepted(c, leeway, trace, j, p, k, t, clock)
  {
    AcceptedTextClaims(c, VerifierOf(c, leeway), t, FetchedJwks(c, At(c, trace, j)), clock,
                       Some(Denylist(At(c, trace, p))), At(c, trace, k).signed);
    RevokedStaysRejected(c, leeway, skew, trace, m, i, p, k, t.claims.tokenId.value, horizon,
                         Some(TokenText(c, t)), FetchedJwks(c, At(c, trace, j)), clock);
  }

  /**
   * A nearer horizon, given `delay` seconds after the token's issue while it can still be accepted, is
   * outlived by the token.
   */
  lemma NearHorizonFails(c: Config, leeway: nat, skew: nat, delay: nat, horizon: int)
    returns (trace: seq<Action>, m: nat, t: IssuedToken, clock: int)
    requires Faithful(c.codecs) && c.ttl >= 1 && delay < c.ttl + leeway + skew
    requires horizon - c.ttl < leeway + skew - 1
    ensures m < |trace| && RevokedTo(c, skew, horizon, trace, m, m + 6, |trace|, |trace|, |trace|, t, clock)
    ensures Accepted(c, leeway, trace, |trace|, |trace|, |trace|, t, clock)
    ensures trace[m] == RevStep(Revocations.Record("jti", horizon, None)) && At(c, trace, m).now == delay
    ensures t.claims == BuildClaims(c, t.client, 0, "jti")
  {
    var s;
    trace, m, s, t := OutlivedRevocation(c, delay, horizon);
    WholeRun(c, trace, s);
    clock := s.now - Min(skew, s.now);
    ActiveKeyIsFound(c, trace, s);
    IssuedTokenReachesClaims(c, VerifierOf(c, leeway), t, FetchedJwks(c, s), clock, Some(Denylist(s)), s.signed);
    NothingDenied(s);
  }

  /** Revoking keeps a token out exactly when its horizon is at least leeway + skew - 1 past the expiry. */
  lemma HorizonBound(c: Config, leeway: nat, skew: nat, margin: int)
    requires Faithful(c.codecs) && c.ttl >= 1
    ensures HorizonSafe(c, leeway, skew, margin) <==> margin >= leeway + skew - 1
  {
    if margin >= leeway + skew - 1 {
      forall trace: seq<Action>, m: nat, i: nat, j: nat, p: nat, k: nat, t: IssuedToken, clock: int
        | RevokedPast(c, skew, margin, trace, m, i, j, p, k, t, clock)
        ensures !Accepted(c, leeway, trace, j, p, k, t, clock)
      {
        FarHorizonHolds(c, leeway, skew, t.claims.expiresAt + margin, trace, m, i, j, p, k, t, clock);
      }
    } else {
      var trace, m, t, clock := NearHorizonFails(c, leeway, skew, 0, c.ttl + margin);
      var n := |trace|;
      assert RevokedPast(c, skew, margin, trace, m, m + 6, n, n, n, t, clock);
    }
  }

  /** Forgetting a revocation once the token has expired is harmless only for leeway plus skew up to one. */
  lemma DocumentedHorizonBound(c: Config, leeway: nat, skew: nat)
    requires Faithful(c.codecs) && c.ttl >= 1
    ensures HorizonSafe(c, leeway, skew, 0) <==> leeway + skew <= 1
  {
    HorizonBound(c, leeway, skew, 0);
  }

  lemma IssuedExpiry(c: Config, trace: seq<Action>, i: nat, t: IssuedToken)
    requires Legal(c, trace) && i <= |trace| && t in At(c, trace, i).issued
    ensures t.claims.expiresAt == t.claims.issuedAt + c.ttl
  {
    InvAt(c, trace, i);
    assert ClaimsOk(c, t.client, t.claims, At(c, trace, i).now);
  }

  /** A verifier that accepts a token's text accepts the token's own claims. */
  lemma AcceptedTextClaims(c: Config, v: Verifier, t: IssuedToken, jwks: seq<Jwk>, clock: int,
                           denylist: Option<set<string>>, signed: set<Signed>)
    requires Faithful(c.codecs) && v.codecs == c.codecs
    ensures var r := Verify(v, Some(TokenText(c, t)), jwks, clock, denylist, signed);
      r.Success? ==> r.claims == t.claims
  {
    SignedTokenRoundTrip(c.codecs, ForKid(t.kid), t.claims, t.signature);
  }

  lemma NothingDenied(s: Sys)
    requires IsIdle(s.revs) && Revocations.Prune(s.revs.proc.mem, s.now) == []
    ensures Denylist(s) == {}
  {
  }

  lemma ActiveKeyIsFound(c: Config, trace: seq<Action>, s: Sys)
    requires Run(c, trace) == Some(s) && FirstKeyActive(s.keys)
    ensures var jwk := FindJwk(FetchedJwks(c, s), "k1");
      jwk.Some? && ToPublicKey(jwk.value) == Some(Pair(0).publicSpki)
  {
    WholeRun(c, trace, s);
    KeysInvAt(c, trace, |trace|);
    var since := s.now + Abs(c.retention);
    FirstKeyIsHeld(s.keys, since);
    FetchedKeyIsFound(c, s, 0, "k1", Pair(0).publicSpki, since);
  }

  lemma FirstKeyIsHeld(keys: KeyMachine.KeyState, since: int)
    requires FirstKeyActive(keys)
    ensures KeyTheorems.HeldSince(keys, 0, "k1", Pair(0).publicSpki, since)
  {
  }

  function Abs(n: int): int { if n < 0 then -n else n }

  // ---- The handler's default horizon ----

  /**
   * The token revoked by the handler without an expiry in the request: it read the clock at state h,
   * `delay` seconds after the token's issue, and went on to the revoke at step m.
   */
  ghost predicate RevokedByDefault(c: Config, skew: nat, delay: nat, trace: seq<Action>, h: nat, m: nat, i: nat,
                                   j: nat, p: nat, k: nat, t: IssuedToken, clock: int)
  {
    && h <= m < |trace| && StaysUp(trace, h, m)
    && t in At(c, trace, h).issued && At(c, trace, h).now == t.claims.issuedAt + delay
    && RevokedTo(c, skew, At(c, trace, h).now + c.ttl, trace, m, i, j, p, k, t, clock)
  }

  ghost predicate DefaultHorizonSafe(c: Config, leeway: nat, skew: nat, delay: nat) {
    forall trace: seq<Action>, h: nat, m: nat, i: nat, j: nat, p: nat, k: nat, t: IssuedToken, clock: int
      {:trigger RevokedByDefault(c, skew, delay, trace, h, m, i, j, p, k, t, clock)} ::
      RevokedByDefault(c, skew, delay, trace, h, m, i, j, p, k, t, clock) ==>
        !Accepted(c, leeway, trace, j, p, k, t, clock)
  }

  lemma LateDefaultRevokeHolds(c: Config, leeway: nat, skew: nat, delay: nat, trace: seq<Action>, h: nat, m: nat,
                               i: nat, j: nat, p: nat, k: nat, t: IssuedToken, clock: int)
    requires Faithful(c.codecs) && delay >= leeway + skew - 1
    requires RevokedByDefault(c, skew, delay, trace, h, m, i, j, p, k, t, clock)
    ensures !Accepted(c, leeway, trace, j, p, k, t, clock)
  {
    IssuedExpiry(c, trace, h, t);
    FarHorizonHolds(c, leeway, skew, At(c, trace, h).now + c.ttl, trace, m, i, j, p, k, t, clock);
  }

  /** A default revoke any earlier is forgotten while the token still verifies. */
  lemma EarlyDefaultRevokeFails(c: Config, leeway: nat, skew: nat, delay: nat)
    requires Faithful(c.codecs) && c.ttl >= 1 && delay < leeway + skew - 1
    ensures !DefaultHorizonSafe(c, leeway, skew, delay)
  {
    var trace, m, t, clock := NearHorizonFails(c, leeway, skew, delay, delay + c.ttl);
    var n := |trace|;
    assert RevokedByDefault(c, skew, delay, trace, m, m, m + 6, n, n, n, t, clock);
  }

  /** The default horizon keeps a revoked token out exactly when the revoke came late enough after its issue. */
  lemma DefaultHorizonBound(c: Config, leeway: nat, skew: nat, delay: nat)
    requires Faithful(c.codecs) && c.ttl >= 1
    ensures DefaultHorizonSafe(c, leeway, skew, delay) <==> delay >= leeway + skew - 1
  {
    if delay >= leeway + skew - 1 {
      forall trace: seq<Action>, h: nat, m: nat, i: nat, j: nat, p: nat, k: nat, t: IssuedToken, clock: int
        | RevokedByDefault(c, skew, delay, trace, h, m, i, j, p, k, t, clock)
        ensures !Accepted(c, leeway, trace, j, p, k, t, clock)
      {
        LateDefaultRevokeHolds(c, leeway, skew, delay, trace, h, m, i, j, p, k, t, clock);
      }
    } else {
      EarlyDefaultRevokeFails(c, leeway, skew, delay);
    }
  }
}
