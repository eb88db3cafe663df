/** The token and revoke handlers as undisturbed calls: the services in order, and the answer. */
module ApiHandlers {
  import opened Options
  import opened Text
  import opened Base64Url
  import opened JsonStores
  import LinkedMap
  import SigningKeys
  import opened Revocations
  import opened RevocationServices
  import Clients
  import opened ClientServices
  import opened Audits
  import opened TokenIssuers

  /** The body of a granted token request, the answer to bad credentials, or any other error. */
  datatype TokenAnswer =
    | Granted(accessToken: string, tokenType: string, expiresIn: int, scope: string)
    | InvalidClient
    | TokenError

  datatype RevokeAnswer = Created(revocation: Revocation) | BadRequest | RevokeError

  class ApiHandlers {
    const clients: ClientService
    const tokenIssuer: TokenIssuer
    const revocations: RevocationService
    const audit: AuditService

    constructor (clients: ClientService, tokenIssuer: TokenIssuer, revocations: RevocationService, audit: AuditService)
      ensures this.clients == clients && this.tokenIssuer == tokenIssuer
      ensures this.revocations == revocations && this.audit == audit
    {
      this.clients, this.tokenIssuer, this.revocations, this.audit := clients, tokenIssuer, revocations, audit;
    }

    /** The enabled client that these credentials are those of. */
    ghost function Shown(id: Option<string>, secret: Option<string>): Option<Clients.ClientRecord>
      reads this, clients
    {
      var known := if id.Some? && secret.Some? then LinkedMap.Get(clients.clients, id.value) else None;
      if known.Some? && known.value.enabled && known.value.secretHash == Clients.IdealHash(secret.value) then known
      else None
    }

    /** A body that carries this call's own token and what goes with it. */
    ghost predicate Answers(r: TokenAnswer, client: Clients.ClientRecord, signer: SigningKeys.KeyRecord,
                            now: int, jti: string, signature: seq<Byte>)
    {
      exists body ::
        && tokenIssuer.IsResponse(body, client, signer.kid, now, jti, signature)
        && r == Granted(body.accessToken, body.tokenType, body.expiresIn, body.scope)
    }

    /**
     * Authenticate, issue, record, answer. The entry is saved before the answer is given; without it
     * there is none.
     */
    method Token(id: Option<string>, secret: Option<string>, now: int, jti: string, signature: seq<Byte>,
                 recorded: int, io: Io) returns (r: TokenAnswer)
      modifies audit, audit.store
      ensures var client, keys := Shown(id, secret), tokenIssuer.signingKeys;
        var signer := SigningKeys.FindActive(keys.keys, keys.activeKid);
        if client == None || signer == None then
          && r == (if client == None then InvalidClient else TokenError)
          && audit.entries == old(audit.entries) && audit.store.files == old(audit.store.files)
        else
          && audit.entries == old(audit.entries)
               + [AuditEntry(recorded, "token.issued", Some(client.value.clientId), Some("jti=" + jti))]
          && audit.store.files == AfterSave(old(audit.store.files), audit.entries, io)
          && if io.Works? then Answers(r, client.value, signer.value, now, jti, signature) else r == TokenError
    {
      if id == None || secret == None {
        return InvalidClient;
      }
      var authenticated := clients.AuthenticateClient(id, secret.value);
      if authenticated == None {
        return InvalidClient;
      }
      var client := authenticated.value;
      var issued := tokenIssuer.IssueFor(client, now, jti, signature);
      if issued == None {
        return TokenError;
      }
      var body := issued.value;
      var ok := audit.Record("token.issued", Some(client.clientId), Some("jti=" + body.jti), recorded, io);
      if !ok {
        return TokenError;
      }
      r := Granted(body.accessToken, body.tokenType, body.expiresIn, body.scope);
    }

    /**
     * The horizon is the one in the request, or else one token lifetime from the clock read here; the
     * service then reads the clock again.
     */
    method RevokeToken(jti: Option<string>, expiresAt: Option<int>, reason: Option<string>, now: int,
                       revokedAt: int, pruned: int, recorded: int, io: Io, auditIo: Io) returns (r: RevokeAnswer)
      modifies revocations, revocations.store, audit, audit.store
      ensures jti == None || IsBlank(jti.value) ==>
        && r == BadRequest && revocations.byJti == old(revocations.byJti) && audit.entries == old(audit.entries)
        && revocations.store.files == old(revocations.store.files)
        && audit.store.files == old(audit.store.files)
      ensures jti.Some? && !IsBlank(jti.value) ==>
        var horizon := if expiresAt.Some? then expiresAt.value else now + tokenIssuer.config.ttl;
        var revocation := Revocation(jti.value, revokedAt, horizon, reason);
        && revocations.byJti == Prune(LinkedMap.Put(old(revocations.byJti), jti.value, revocation), pruned)
        && revocations.store.files
             == AfterSave(old(revocations.store.files), LinkedMap.Values(revocations.byJti), io)
        && audit.entries == old(audit.entries)
             + (if io.Works? then [AuditEntry(recorded, "token.revoked", None, Some("jti=" + jti.value))] else [])
        && audit.store.files
             == (if io.Works? then AfterSave(old(audit.store.files), audit.entries, auditIo)
                 else old(audit.store.files))
        && r == if io.Works? && auditIo.Works? then Created(revocation) else RevokeError
    {
      if jti == None || IsBlank(jti.value) {
        return BadRequest;
      }
      var horizon := if expiresAt.Some? then expiresAt.value else now + tokenIssuer.config.ttl;
      var revoked := revocations.Revoke(jti, horizon, reason, revokedAt, pruned, io);
      if !revoked.Recorded? {
        return RevokeError;
      }
      var ok := audit.Record("token.revoked", None, Some("jti=" + revoked.revocation.jti), recorded, auditIo);
      r := if ok then Created(revoked.revocation) else RevokeError;
    }
  }
}
