/**
 * The whole identity provider as one machine: four services over their files, request threads in the
 * middle of issuing, a clock, and everyone who signs. Any step may follow any other that is enabled;
 * a crash may follow every one of them.
 */
module System {
  import opened Options
  import opened Base64Url
  import opened Ed25519Keys
  import opened Persistence
  import opened Jws
  import Grants
  import SigningKeys
  import KeyMachine
  import Revocations
  import Clients
  import Audits

  datatype Config = Config(codecs: Codecs, issuer: string, audience: string, ttl: int, retention: int)

  /** A token that was signed, with the client record it was issued for and its key's place in the history. */
  datatype IssuedToken = IssuedToken(client: Clients.ClientRecord, claims: Claims, kid: string, key: nat,
                                     publicSpki: seq<Byte>, signature: seq<Byte>)

  /** How far one call of the token handler has come. */
  datatype Thread =
    | Authenticated(client: Clients.ClientRecord)
    | Claimed(client: Clients.ClientRecord, claims: Claims)
    | Ready(client: Clients.ClientRecord, claims: Claims, kid: string, key: nat, publicSpki: seq<Byte>)
    | Issued(token: IssuedToken)
    | Auditing(token: IssuedToken, position: nat)
    | Audited(token: IssuedToken, position: nat)

  /** The answer a thread gave: the text in its body, the token it is, and the place of its log entry. */
  datatype Response = Response(thread: nat, accessToken: string, token: IssuedToken, position: nat)

  datatype Sys = Sys(
    now: int,
    keys: KeyMachine.KeyState,
    revs: Revocations.RevocationState,
    clients: Clients.ClientState,
    audit: Audits.AuditState,
    threads: map<nat, Thread>,
    issued: set<IssuedToken>,
    responses: seq<Response>,
    signed: set<Signed>)

  const INITIAL := Sys(0, KeyMachine.NO_KEY_STATE, Revocations.NO_REVOCATION_STATE,
                       Clients.NO_CLIENT_STATE, Audits.NO_AUDIT_STATE, map[], {}, [], {})

  /** The steps of `ApiHandlers.token` and, inside it, of `TokenIssuer.issue`. */
  datatype IssueStep =
    | Authenticate(id: string, secret: string)
    | ReadClock(jti: string)
    | GetSigner
    | SignToken(signature: seq<Byte>)
    | RecordAudit
    | ReturnFromAudit
    | Respond

  datatype Action =
    | Tick(seconds: nat)
    | KeyStep(key: KeyMachine.KeyAction)
    | RevStep(rev: Revocations.RevAction)
    | ClientStep(client: Clients.ClientAction)
    | AuditStep(audit: Audits.AuditAction)
    | Issue(thread: nat, step: IssueStep)
    | ForeignSign(foreign: Signed)
    | Crash

  const TOKEN_ISSUED := "token.issued"

  function JtiDetail(jti: string): string { "jti=" + jti }

  function BuildClaims(c: Config, client: Clients.ClientRecord, now: int, jti: string): Claims {
    Claims(Some(c.issuer), Some(client.clientId), Some(c.audience), now, now, now + c.ttl, Some(jti),
           Some(Grants.ClaimOf(client.authorization)), None)
  }

  /** The claims of a token for this client with this id, the clock being read now, field by field. */
  ghost predicate AreClaims(c: Config, client: Clients.ClientRecord, now: int, jti: string, x: Claims) {
    && x.issuer == Some(c.issuer) && x.audience == Some(c.audience) && x.subject == Some(client.clientId)
    && x.issuedAt == now && x.notBefore == now && x.expiresAt == now + c.ttl
    && x.tokenId == Some(jti) && x.confirmation == None
    && x.grants.Some? && Grants.Spells(x.grants.value, client.authorization)
  }

  function TokenMessage(c: Config, t: IssuedToken): seq<Byte> { Message(c.codecs, ForKid(t.kid), t.claims) }

  function TokenText(c: Config, t: IssuedToken): string { Sign(c.codecs, ForKid(t.kid), t.claims, t.signature) }

  function TokenSigned(c: Config, t: IssuedToken): Signed { Signed(t.publicSpki, TokenMessage(c, t), t.signature) }

  predicate Uses(records: seq<SigningKeys.KeyRecord>, spki: seq<Byte>) {
    exists i :: 0 <= i < |records| && records[i].publicSpki == spki
  }

  /** A key of the service: committed, or about to be. */
  predicate ServiceKey(keys: KeyMachine.KeyState, spki: seq<Byte>) {
    Uses(keys.committed.records, spki) || (keys.proc.Up? && Uses(keys.proc.pending.records, spki))
  }

  predicate SomeoneSignedWith(signed: set<Signed>, spki: seq<Byte>) {
    exists t :: t in signed && t.publicSpki == spki
  }

  /** The record of the current signer, where there is one. */
  function CurrentSigner(keys: KeyMachine.KeyState): Option<SigningKeys.KeyRecord>
    requires IsIdle(keys)
  {
    SigningKeys.FindActive(keys.proc.mem.keys, keys.proc.mem.activeKid)
  }

  predicate IssueEnabled(s: Sys, thread: nat, step: IssueStep) {
    if step.Authenticate? then
      && thread !in s.threads && IsIdle(s.clients)
      && Clients.Authenticate(s.clients.proc.mem, Some(step.id), step.secret).Some?
    else thread in s.threads && var t := s.threads[thread];
      match step
      case ReadClock(_) => t.Authenticated?
      case GetSigner => t.Claimed? && IsIdle(s.keys) && CurrentSigner(s.keys).Some?
      case SignToken(_) => t.Ready?
      case RecordAudit =>
        t.Issued? && t.token.claims.tokenId.Some?
        && Audits.Enabled(s.audit, Audits.Append(TOKEN_ISSUED, Some(""), Some("")))
      // The call returns once its save is done: the lock is free, or another call has taken it since.
      case ReturnFromAudit =>
        t.Auditing? && s.audit.proc.Up? && (IsIdle(s.audit) || |s.audit.proc.mem| > t.position + 1)
      case Respond => t.Audited?
      case _ => false
  }

  function IssueApply(c: Config, s: Sys, thread: nat, step: IssueStep): Sys
    requires IssueEnabled(s, thread, step)
  {
    match step
    case Authenticate(id, secret) =>
      s.(threads := s.threads[thread :=
        Authenticated(Clients.Authenticate(s.clients.proc.mem, Some(id), secret).value)])
    case ReadClock(jti) =>
      var client := s.threads[thread].client;
      s.(threads := s.threads[thread := Claimed(client, BuildClaims(c, client, s.now, jti))])
    case GetSigner =>
      var t, signer := s.threads[thread], CurrentSigner(s.keys).value;
      var place := |s.keys.proc.pending.records| - 1;
      s.(threads := s.threads[thread :=
        Ready(t.client, t.claims, signer.kid, if place < 0 then 0 else place, signer.privateKey.publicSpki)])
    case SignToken(signature) =>
      var t := s.threads[thread];
      var token := IssuedToken(t.client, t.claims, t.kid, t.key, t.publicSpki, signature);
      s.(threads := s.threads[thread := Issued(token)],
         issued := s.issued + {token}, signed := s.signed + {TokenSigned(c, token)})
    case RecordAudit =>
      var token := s.threads[thread].token;
      var append := Audits.Append(TOKEN_ISSUED, Some(token.client.clientId),
                                  Some(JtiDetail(token.claims.tokenId.value)));
      s.(threads := s.threads[thread := Auditing(token, |s.audit.proc.mem|)],
         audit := Audits.Apply(s.audit, append, s.now))
    case ReturnFromAudit =>
      var t := s.threads[thread];
      s.(threads := s.threads[thread := Audited(t.token, t.position)])
    case Respond =>
      var t := s.threads[thread];
      var response := Response(thread, TokenText(c, t.token), t.token, t.position);
      s.(threads := s.threads - {thread}, responses := s.responses + [response])
  }

  /** Keys are unforgeable: a foreign signer never holds a service key, nor a new key a foreign one. */
  predicate Enabled(s: Sys, a: Action) {
    match a
    case Tick(_) => true
    case KeyStep(k) =>
      KeyMachine.Enabled(s.keys, k) && (k.Generate? ==> !SomeoneSignedWith(s.signed, k.pair.publicSpki))
    case RevStep(r) => Revocations.Enabled(s.revs, r)
    case ClientStep(cl) => Clients.Enabled(s.clients, cl)
    case AuditStep(x) => Audits.Enabled(s.audit, x) && (x.Append? ==> x.event != TOKEN_ISSUED)
    case Issue(thread, step) => IssueEnabled(s, thread, step)
    case ForeignSign(t) => !ServiceKey(s.keys, t.publicSpki)
    case Crash => true
  }

  function Apply(c: Config, s: Sys, a: Action): Sys
    requires Enabled(s, a)
  {
    match a
    case Tick(seconds) => s.(now := s.now + seconds)
    case KeyStep(k) => s.(keys := KeyMachine.Apply(s.keys, k, s.now, c.retention))
    case RevStep(r) => s.(revs := Revocations.Apply(s.revs, r, s.now))
    case ClientStep(cl) => s.(clients := Clients.Apply(s.clients, cl, s.now))
    case AuditStep(x) => s.(audit := Audits.Apply(s.audit, x, s.now))
    case Issue(thread, step) => IssueApply(c, s, thread, step)
    case ForeignSign(t) => s.(signed := s.signed + {t})
    case Crash =>
      s.(keys := Crashed(s.keys), revs := Crashed(s.revs), clients := Crashed(s.clients),
         audit := Crashed(s.audit), threads := map[])
  }

  // ---- Runs ----

  /** The state a run of these steps ends in; None when some step was not enabled. */
  function Run(c: Config, trace: seq<Action>): Option<Sys> {
    if trace == [] then Some(INITIAL)
    else
      var n := |trace| - 1;
      match Run(c, trace[..n])
      case None => None
      case Some(s) => if Enabled(s, trace[n]) then Some(Apply(c, s, trace[n])) else None
  }

  predicate Legal(c: Config, trace: seq<Action>) { Run(c, trace).Some? }

  /** The state of a legal run after its first `i` steps. */
  function At(c: Config, trace: seq<Action>, i: nat): Sys
    requires i <= |trace|
  {
    var r := Run(c, trace[..i]);
    if r.Some? then r.value else INITIAL
  }

  lemma {:induction false} PrefixLegal(c: Config, trace: seq<Action>, i: nat)
    requires Legal(c, trace) && i <= |trace|
    ensures Legal(c, trace[..i])
    decreases |trace|
  {
    if i == |trace| {
      assert trace[..i] == trace;
    } else {
      var n := |trace| - 1;
      assert trace[..n][..i] == trace[..i];
      PrefixLegal(c, trace[..n], i);
    }
  }

  /** Each step of a legal run is enabled where it is taken, and leads to the next state. */
  lemma StepAt(c: Config, trace: seq<Action>, i: nat)
    requires Legal(c, trace) && i < |trace|
    ensures Enabled(At(c, trace, i), trace[i]) && At(c, trace, i + 1) == Apply(c, At(c, trace, i), trace[i])
  {
    PrefixLegal(c, trace, i);
    PrefixLegal(c, trace, i + 1);
    assert trace[..i + 1][..i] == trace[..i];
  }
}
