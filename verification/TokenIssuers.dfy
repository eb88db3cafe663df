/** `TokenIssuer.issue` as one undisturbed call, and the metadata it answers with beside the token. */
module TokenIssuers {
  import opened Options
  import opened Text
  import opened Base64Url
  import opened Jws
  import Grants
  import SigningKeys
  import opened SigningKeyServices
  import Clients
  import System

  datatype TokenResponse = TokenResponse(accessToken: string, tokenType: string, expiresIn: int, scope: string,
                                         jti: string, expiresAt: int)

  class TokenIssuer {
    const config: System.Config
    const signingKeys: SigningKeyService

    constructor (config: System.Config, signingKeys: SigningKeyService)
      ensures this.config == config && this.signingKeys == signingKeys
    {
      this.config, this.signingKeys := config, signingKeys;
    }

    /**
     * The clock is read before the signer is asked for. The answer's scope lists the grants the token
     * carries, and its expiry is the token's own; None where there is no active key.
     */
    method IssueFor(client: Clients.ClientRecord, now: int, jti: string, signature: seq<Byte>)
      returns (r: Option<TokenResponse>)
      ensures var signer := SigningKeys.FindActive(signingKeys.keys, signingKeys.activeKid);
        && (r.Some? <==> signer.Some?)
        && (r.Some? ==> IsResponse(r.value, client, signer.value.kid, now, jti, signature))
    {
      var grants := Grants.From(client.authorization);
      var claims := Claims(Some(config.issuer), Some(client.clientId), Some(config.audience), now, now,
                           now + config.ttl, Some(jti), Some(grants), None);
      var signer := signingKeys.CurrentSigner();
      if signer == None {
        return None;
      }
      Grants.ClaimSpells(client.authorization);
      var scope := Grants.ScopeOf(client.authorization);
      var text := Sign(config.codecs, ForKid(signer.value.kid), claims, signature);
      r := Some(TokenResponse(text, "Bearer", config.ttl, scope, jti, now + config.ttl));
      assert Carries(r.value, client, signer.value.kid, now, jti, signature, claims);
    }

    /** The answer to this client under this key: a token of this call's claims, and what goes with it. */
    ghost predicate IsResponse(r: TokenResponse, client: Clients.ClientRecord, kid: string, now: int, jti: string,
                               signature: seq<Byte>)
    {
      exists x :: Carries(r, client, kid, now, jti, signature, x)
    }

    /** These claims are the call's, the token is theirs, and the metadata beside it speaks of them. */
    ghost predicate Carries(r: TokenResponse, client: Clients.ClientRecord, kid: string, now: int, jti: string,
                            signature: seq<Byte>, x: Claims)
    {
      && System.AreClaims(config, client, now, jti, x)
      && r.accessToken == Sign(config.codecs, ForKid(kid), x, signature)
      && r.tokenType == "Bearer" && r.expiresIn == config.ttl && r.jti == jti && r.expiresAt == x.expiresAt
      && exists words :: r.scope == Join(words, " ") && Grants.Lists(words, client.authorization)
    }
  }
}
