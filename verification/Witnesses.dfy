/** Runs built step by step, used to show that the bounds of the theorems cannot be lowered. */
module Witnesses {
  import opened Options
  import opened Base64Url
  import opened Ed25519Keys
  import opened JsonStores
  import opened Persistence
  import opened Jws
  import Grants
  import LinkedMap
  import SigningKeys
  import KeyMachine
  import Revocations
  import Clients
  import Audits
  import opened System
  import opened Calls

  /** One more enabled step. */
  lemma Take(c: Config, trace: seq<Action>, s: Sys, a: Action) returns (trace': seq<Action>, s': Sys)
    requires Run(c, trace) == Some(s) && Enabled(s, a)
    ensures trace' == trace + [a] && s' == Apply(c, s, a) && Run(c, trace') == Some(s')
  {
    trace', s' := trace + [a], Apply(c, s, a);
    assert trace'[..|trace|] == trace;
  }

  /** The four steps of a save of the keys. */
  lemma SaveKeys(c: Config, trace: seq<Action>, s: Sys) returns (trace': seq<Action>, s': Sys)
    requires Run(c, trace) == Some(s) && IsSaving(s.keys) && s.keys.proc.stage.phase == NeedTemp
    ensures trace <= trace' && Run(c, trace') == Some(s')
    ensures s' == s.(keys := s.keys.(files := s.keys.files.(live := Some(Whole(s.keys.proc.mem))),
                                     proc := s.keys.proc.(stage := Idle), committed := s.keys.proc.pending))
  {
    var doc := s.keys.proc.mem;
    var s1, s2, s3, s4 := SaveSteps(s.keys, doc);
    trace', s' := SaveKey(c, trace, s, s1);
    trace', s' := SaveKey(c, trace', s', s2);
    trace', s' := SaveKey(c, trace', s', s3);
    trace', s' := SaveKey(c, trace', s', s4);
  }

  lemma SaveKey(c: Config, trace: seq<Action>, s: Sys, next: KeyMachine.KeyState)
    returns (trace': seq<Action>, s': Sys)
    requires Run(c, trace) == Some(s) && IsSaving(s.keys) && SaveStepTo(s.keys, s.keys.proc.mem, next)
    ensures trace <= trace' && Run(c, trace') == Some(s') && s' == s.(keys := next)
  {
    trace', s' := Take(c, trace, s, KeyStep(KeyMachine.Save));
  }

  lemma SaveClients(c: Config, trace: seq<Action>, s: Sys) returns (trace': seq<Action>, s': Sys)
    requires Run(c, trace) == Some(s) && IsSaving(s.clients) && s.clients.proc.stage.phase == NeedTemp
    ensures trace <= trace' && Run(c, trace') == Some(s') && s' == s.(clients := s'.clients)
    ensures IsIdle(s'.clients) && s'.clients.proc.mem == s.clients.proc.mem
  {
    var doc := LinkedMap.Values(s.clients.proc.mem);
    var s1, s2, s3, s4 := SaveSteps(s.clients, doc);
    trace', s' := SaveClient(c, trace, s, s1);
    trace', s' := SaveClient(c, trace', s', s2);
    trace', s' := SaveClient(c, trace', s', s3);
    trace', s' := SaveClient(c, trace', s', s4);
  }

  lemma SaveClient(c: Config, trace: seq<Action>, s: Sys, next: Clients.ClientState)
    returns (trace': seq<Action>, s': Sys)
    requires Run(c, trace) == Some(s) && IsSaving(s.clients)
    requires SaveStepTo(s.clients, LinkedMap.Values(s.clients.proc.mem), next)
    ensures trace <= trace' && Run(c, trace') == Some(s') && s' == s.(clients := next)
  {
    trace', s' := Take(c, trace, s, ClientStep(Clients.Save));
  }

  const SAVE_REVOCATION := RevStep(Revocations.Save)

  lemma SaveRevocations(c: Config, trace: seq<Action>, s: Sys) returns (trace': seq<Action>, s': Sys)
    requires Run(c, trace) == Some(s) && IsSaving(s.revs) && s.revs.proc.stage.phase == NeedTemp
    ensures trace' == trace + [SAVE_REVOCATION, SAVE_REVOCATION, SAVE_REVOCATION, SAVE_REVOCATION]
    ensures Run(c, trace') == Some(s') && s' == s.(revs := s'.revs)
    ensures IsIdle(s'.revs) && s'.revs.proc.mem == s.revs.proc.mem && s'.revs.committed == s.revs.proc.pending
  {
    var doc := LinkedMap.Values(s.revs.proc.mem);
    var s1, s2, s3, s4 := SaveSteps(s.revs, doc);
    trace', s' := SaveRevocation(c, trace, s, s1);
    trace', s' := SaveRevocation(c, trace', s', s2);
    trace', s' := SaveRevocation(c, trace', s', s3);
    trace', s' := SaveRevocation(c, trace', s', s4);
  }

  lemma SaveRevocation(c: Config, trace: seq<Action>, s: Sys, next: Revocations.RevocationState)
    returns (trace': seq<Action>, s': Sys)
    requires Run(c, trace) == Some(s) && IsSaving(s.revs)
    requires SaveStepTo(s.revs, LinkedMap.Values(s.revs.proc.mem), next)
    ensures trace' == trace + [SAVE_REVOCATION] && Run(c, trace') == Some(s') && s' == s.(revs := next)
  {
    trace', s' := Take(c, trace, s, SAVE_REVOCATION);
  }

  /** A well-formed public key for each byte value. */
  function Pair(b: Byte): PrivateKey { PrivateKey(SPKI_PREFIX + seq(RAW_PUBLIC_KEY_BYTES, _ => b)) }

  lemma PairIsSpki(b: Byte)
    ensures IsSpki(Pair(b).publicSpki) && Pair(b).publicSpki[|SPKI_PREFIX|] == b
  {
  }

  const FIRST_KEY := SigningKeys.NewKey("k1", Pair(0), 0)

  /** A service that made its first key at time zero and is at rest. */
  ghost predicate FirstKeyActive(keys: KeyMachine.KeyState) {
    && IsIdle(keys)
    && keys.committed == KeyMachine.History([FIRST_KEY], []) == keys.proc.pending
    && keys.proc.mem == SigningKeys.KeyDoc(Some("k1"), [FIRST_KEY])
  }

  lemma BootKeys(c: Config) returns (trace: seq<Action>, s: Sys)
    ensures Run(c, trace) == Some(s) && s == INITIAL.(keys := s.keys) && FirstKeyActive(s.keys)
  {
    trace, s := [], INITIAL;
    trace, s := Take(c, trace, s, KeyStep(KeyMachine.Boot));
    PairIsSpki(0);
    trace, s := Take(c, trace, s, KeyStep(KeyMachine.Generate("k1", Pair(0))));
    trace, s := SaveKeys(c, trace, s);
  }

  /** A registered client in a service at rest. */
  lemma RegisterClient(c: Config, trace: seq<Action>, s: Sys) returns (trace': seq<Action>, s': Sys)
    requires Run(c, trace) == Some(s) && s.clients == Clients.NO_CLIENT_STATE
    ensures Run(c, trace') == Some(s') && s' == s.(clients := s'.clients) && IsIdle(s'.clients)
    ensures Clients.Authenticate(s'.clients.proc.mem, Some("id"), "secret").Some?
  {
    trace', s' := Take(c, trace, s, ClientStep(Clients.Boot));
    trace', s' := Take(c, trace', s', ClientStep(Clients.Register("id", "secret", None, None)));
    trace', s' := SaveClients(c, trace', s');
  }

  /** The first token, issued at time zero under the first key. */
  ghost predicate FirstToken(c: Config, s: Sys, t: IssuedToken) {
    && s.now == 0 && FirstKeyActive(s.keys)
    && s.revs == Revocations.NO_REVOCATION_STATE
    && s.issued == {t} && s.signed == {TokenSigned(c, t)}
    && t.kid == "k1" && t.publicSpki == Pair(0).publicSpki && t.key == 0
    && t.claims == BuildClaims(c, t.client, 0, "jti")
  }

  lemma IssueToken(c: Config, trace: seq<Action>, s: Sys) returns (trace': seq<Action>, s': Sys, t: IssuedToken)
    requires Run(c, trace) == Some(s) && s == INITIAL.(keys := s.keys, clients := s.clients)
    requires FirstKeyActive(s.keys) && IsIdle(s.clients)
    requires Clients.Authenticate(s.clients.proc.mem, Some("id"), "secret").Some?
    ensures Run(c, trace') == Some(s') && FirstToken(c, s', t)
  {
    trace', s' := Take(c, trace, s, Issue(0, Authenticate("id", "secret")));
    trace', s' := Take(c, trace', s', Issue(0, ReadClock("jti")));
    assert CurrentSigner(s'.keys) == Some(FIRST_KEY);
    trace', s' := Take(c, trace', s', Issue(0, GetSigner));
    trace', s' := Take(c, trace', s', Issue(0, SignToken([])));
    t := s'.threads[0].token;
  }

  /** A run from the very start that issues one token at time zero. */
  lemma IssuedAtZero(c: Config) returns (trace: seq<Action>, s: Sys, t: IssuedToken)
    ensures Run(c, trace) == Some(s) && FirstToken(c, s, t)
  {
    trace, s := BootKeys(c);
    trace, s := RegisterClient(c, trace, s);
    trace, s, t := IssueToken(c, trace, s);
  }

  /** That run, a rotation in the same second, and a wait of one second more than the retention. */
  lemma OutlivedKey(c: Config) returns (trace: seq<Action>, s: Sys, t: IssuedToken)
    requires c.retention >= 0
    ensures Run(c, trace) == Some(s) && t in s.issued && s.now == c.retention + 1
    ensures t.kid == "k1" && t.claims == BuildClaims(c, t.client, 0, "jti")
    ensures IsIdle(s.keys)
    ensures KeyMachine.ServedKeys(s.keys, s.now, c.retention) == [SigningKeys.NewKey("k2", Pair(1), 0)]
  {
    trace, s, t := IssuedAtZero(c);
    trace, s := Rotate(c, trace, s, t);
    trace, s := Take(c, trace, s, Tick(c.retention + 1));
    var retired, second := SigningKeys.Retire(FIRST_KEY, 0), SigningKeys.NewKey("k2", Pair(1), 0);
    assert s.keys.proc.mem.keys == [retired] + [second];
    SigningKeys.PruneAppend([retired], [second], 1);
    assert SigningKeys.Prune([retired], 1) == SigningKeys.Prune([], 1) == [];
    assert SigningKeys.Prune([second], 1) == [second] + SigningKeys.Prune([], 1);
  }

  lemma Rotate(c: Config, trace: seq<Action>, s: Sys, t: IssuedToken) returns (trace': seq<Action>, s': Sys)
    requires c.retention >= 0 && Run(c, trace) == Some(s) && FirstToken(c, s, t)
    ensures Run(c, trace') == Some(s') && s' == s.(keys := s'.keys) && IsIdle(s'.keys)
    ensures s'.keys.proc.mem.keys == [SigningKeys.Retire(FIRST_KEY, 0), SigningKeys.NewKey("k2", Pair(1), 0)]
  {
    var retired, second := SigningKeys.Retire(FIRST_KEY, 0), SigningKeys.NewKey("k2", Pair(1), 0);
    trace', s' := Take(c, trace, s, KeyStep(KeyMachine.BeginRotation));
    assert s'.keys.proc.mem.keys == [retired] == s'.keys.proc.pending.records;
    PairIsSpki(0);
    PairIsSpki(1);
    trace', s' := Take(c, trace', s', KeyStep(KeyMachine.Generate("k2", Pair(1))));
    assert s'.keys.proc.mem.keys == [retired, second];
    SigningKeys.PruneFresh([retired, second], -c.retention);
    trace', s' := Take(c, trace', s', KeyStep(KeyMachine.PruneRetired));
    trace', s' := SaveKeys(c, trace', s');
  }

  // ---- A whole request ----

  lemma SaveAudit(c: Config, trace: seq<Action>, s: Sys) returns (trace': seq<Action>, s': Sys)
    requires Run(c, trace) == Some(s) && IsSaving(s.audit) && s.audit.proc.stage.phase == NeedTemp
    ensures trace <= trace' && Run(c, trace') == Some(s') && s' == s.(audit := s'.audit)
    ensures IsIdle(s'.audit) && s'.audit.proc.mem == s.audit.proc.mem
    ensures s'.audit.files.live == Some(Whole(s'.audit.proc.mem))
  {
    var s1, s2, s3, s4 := SaveSteps(s.audit, s.audit.proc.mem);
    trace', s' := SaveEntries(c, trace, s, s1);
    trace', s' := SaveEntries(c, trace', s', s2);
    trace', s' := SaveEntries(c, trace', s', s3);
    trace', s' := SaveEntries(c, trace', s', s4);
  }

  lemma SaveEntries(c: Config, trace: seq<Action>, s: Sys, next: Audits.AuditState)
    returns (trace': seq<Action>, s': Sys)
    requires Run(c, trace) == Some(s) && IsSaving(s.audit) && SaveStepTo(s.audit, s.audit.proc.mem, next)
    ensures trace <= trace' && Run(c, trace') == Some(s') && s' == s.(audit := next)
  {
    trace', s' := Take(c, trace, s, AuditStep(Audits.Save));
  }

  /** The services a request needs are at rest, and it can be served. */
  ghost predicate CanServe(s: Sys, thread: nat, id: string, secret: string) {
    && thread !in s.threads && IsIdle(s.clients) && IsIdle(s.keys) && IsIdle(s.audit)
    && Clients.Authenticate(s.clients.proc.mem, Some(id), secret).Some? && CurrentSigner(s.keys).Some?
  }

  /** The log entry of a token with this id for this client. */
  function EntryFor(client: Clients.ClientRecord, now: int, jti: string): Audits.AuditEntry {
    Audits.AuditEntry(now, "token.issued", Some(client.clientId), Some("jti=" + jti))
  }

  /**
   * From any state of any run in which it can be served, a request goes through to its answer. Without
   * interference that is what the handler does: the token of this client, its entry in the file.
   */
  lemma UndisturbedRequest(c: Config, trace: seq<Action>, s: Sys, thread: nat, id: string, secret: string,
                           jti: string, signature: seq<Byte>)
    returns (trace': seq<Action>, s': Sys, r: Response)
    requires Run(c, trace) == Some(s) && CanServe(s, thread, id, secret)
    ensures trace <= trace' && Run(c, trace') == Some(s') && s'.responses == s.responses + [r]
    ensures var client, signer :=
        Clients.Authenticate(s.clients.proc.mem, Some(id), secret).value, CurrentSigner(s.keys).value;
      && AreClaims(c, client, s.now, jti, r.token.claims)
      && r.thread == thread && r.accessToken == Sign(c.codecs, ForKid(signer.kid), r.token.claims, signature)
      && s'.audit.proc.Up? && s'.audit.proc.mem == s.audit.proc.mem + [EntryFor(client, s.now, jti)]
      && s'.audit.files.live == Some(Whole(s'.audit.proc.mem))
    ensures s'.threads == s.threads && s'.clients == s.clients && s'.keys == s.keys && s'.revs == s.revs
  {
    var token;
    trace', s', token := AuthenticateAndSign(c, trace, s, thread, id, secret, jti, signature);
    trace', s' := RecordAndAnswer(c, trace', s', thread);
    r := s'.responses[|s.responses|];
  }

  lemma AuthenticateAndSign(c: Config, trace: seq<Action>, s: Sys, thread: nat, id: string, secret: string,
                            jti: string, signature: seq<Byte>)
    returns (trace': seq<Action>, s': Sys, token: IssuedToken)
    requires Run(c, trace) == Some(s) && CanServe(s, thread, id, secret)
    ensures trace <= trace' && Run(c, trace') == Some(s')
    ensures s' == s.(threads := s.threads[thread := Issued(token)], issued := s'.issued, signed := s'.signed)
    ensures var client, signer :=
        Clients.Authenticate(s.clients.proc.mem, Some(id), secret).value, CurrentSigner(s.keys).value;
      && AreClaims(c, client, s.now, jti, token.claims)
      && token.client == client && token.kid == signer.kid && token.signature == signature
  {
    Grants.ClaimSpells(Clients.Authenticate(s.clients.proc.mem, Some(id), secret).value.authorization);
    trace', s' := Take(c, trace, s, Issue(thread, Authenticate(id, secret)));
    trace', s' := Take(c, trace', s', Issue(thread, ReadClock(jti)));
    trace', s' := Take(c, trace', s', Issue(thread, GetSigner));
    trace', s' := Take(c, trace', s', Issue(thread, SignToken(signature)));
    token := s'.threads[thread].token;
  }

  lemma RecordAndAnswer(c: Config, trace: seq<Action>, s: Sys, thread: nat) returns (trace': seq<Action>, s': Sys)
    requires Run(c, trace) == Some(s) && IsIdle(s.audit) && thread in s.threads && s.threads[thread].Issued?
    requires s.threads[thread].token.claims.tokenId.Some?
    ensures trace <= trace' && Run(c, trace') == Some(s')
    ensures var token := s.threads[thread].token;
      && s' == s.(audit := s'.audit, threads := s.threads - {thread}, responses := s'.responses)
      && s'.responses == s.responses + [Response(thread, TokenText(c, token), token, |s.audit.proc.mem|)]
      && s'.audit.proc.Up?
      && s'.audit.proc.mem
           == s.audit.proc.mem + [EntryFor(token.client, s.now, token.claims.tokenId.value)]
      && s'.audit.files.live == Some(Whole(s'.audit.proc.mem))
  {
    trace', s' := Take(c, trace, s, Issue(thread, RecordAudit));
    trace', s' := SaveAudit(c, trace', s');
    trace', s' := Take(c, trace', s', Issue(thread, ReturnFromAudit));
    trace', s' := Take(c, trace', s', Issue(thread, Respond));
  }

  lemma PrefixAt(c: Config, trace: seq<Action>, more: seq<Action>, s: Sys)
    requires Run(c, trace) == Some(s)
    ensures At(c, trace + more, |trace|) == s
  {
    assert (trace + more)[..|trace|] == trace;
  }

  /** The steps of a revoke without interference. */
  function RevokeSteps(horizon: int): seq<Action> {
    [RevStep(Revocations.Record("jti", horizon, None)), RevStep(Revocations.PruneRecorded),
     SAVE_REVOCATION, SAVE_REVOCATION, SAVE_REVOCATION, SAVE_REVOCATION]
  }

  /**
   * The same first run, then: from step h on, `delay` seconds after its issue, the token revoked up
   * to this horizon, and a wait until one second past it.
   */
  lemma OutlivedRevocation(c: Config, delay: nat, horizon: int)
    returns (trace: seq<Action>, h: nat, s: Sys, t: IssuedToken)
    ensures Run(c, trace) == Some(s) && h + 7 == |trace|
    ensures RevokeReturned(c, trace, h, h + 6, "jti", horizon) && NotLowered(trace, h, |trace|, "jti", horizon)
    ensures trace[h] == RevStep(Revocations.Record("jti", horizon, None))
    ensures At(c, trace, h).now == delay && t in At(c, trace, h).issued
    ensures s.now == (if horizon < delay then delay else horizon + 1) && FirstKeyActive(s.keys) && IsIdle(s.revs)
    ensures Revocations.Prune(s.revs.proc.mem, s.now) == []
    ensures t in s.issued && TokenSigned(c, t) in s.signed
    ensures t.kid == "k1" && t.publicSpki == Pair(0).publicSpki && t.claims == BuildClaims(c, t.client, 0, "jti")
  {
    trace, s, t := IssuedAtZero(c);
    trace, s := Take(c, trace, s, RevStep(Revocations.Boot));
    trace, s := Take(c, trace, s, Tick(delay));
    var start, before := trace, s;
    h := |start|;
    trace, s := Revoke(c, trace, s, horizon);
    var wait := Tick(if horizon < delay then 0 else horizon + 1 - delay);
    PrefixAt(c, start, RevokeSteps(horizon) + [wait], before);
    PrefixAt(c, trace, [wait], s);
    trace, s := Take(c, trace, s, wait);
    assert trace == start + (RevokeSteps(horizon) + [wait]);
  }

  lemma Revoke(c: Config, trace: seq<Action>, s: Sys, horizon: int) returns (trace': seq<Action>, s': Sys)
    requires Run(c, trace) == Some(s) && IsIdle(s.revs) && s.revs.proc.mem == []
    ensures trace' == trace + RevokeSteps(horizon) && Run(c, trace') == Some(s') && s' == s.(revs := s'.revs)
    ensures IsIdle(s'.revs)
    ensures forall later :: later > horizon && later >= s.now ==> Revocations.Prune(s'.revs.proc.mem, later) == []
  {
    assert "jti"[0] == 'j';
    trace', s' := Take(c, trace, s, RevStep(Revocations.Record("jti", horizon, None)));
    var r := Revocations.Revocation("jti", s.now, horizon, None);
    assert s'.revs.proc.mem == [LinkedMap.Entry("jti", r)];
    PruneOne(r, s.now);
    trace', s' := Take(c, trace', s', RevStep(Revocations.PruneRecorded));
    forall later | later > horizon && later >= s.now ensures Revocations.Prune(s'.revs.proc.mem, later) == [] {
      PruneOne(r, later);
    }
    trace', s' := SaveRevocations(c, trace', s');
  }

  lemma PruneOne(r: Revocations.Revocation, now: int)
    ensures var m := [LinkedMap.Entry("jti", r)];
      Revocations.Prune(m, now) == if r.expiresAt >= now then m else []
  {
    var m := [LinkedMap.Entry("jti", r)];
    assert LinkedMap.Keep(m[1..], Revocations.Alive(now)) == [];
  }
}
