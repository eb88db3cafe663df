/** The inductive invariant of the whole machine, and what only grows along a run. */
module SystemInvariant {
  import opened Options
  import opened Base64Url
  import opened Ed25519Keys
  import opened Persistence
  import opened Jws
  import SigningKeys
  import KeyMachine
  import KeyTheorems
  import Revocations
  import Clients
  import Audits
  import opened System

  /** The claims are those `issue` builds for this client from a clock read not after `now`. */
  ghost predicate ClaimsOk(c: Config, client: Clients.ClientRecord, x: Claims, now: int) {
    && x.tokenId.Some?
    && x == BuildClaims(c, client, x.issuedAt, x.tokenId.value)
    && x.issuedAt <= now
  }

  /** The log entry at this place tells of this token. */
  ghost predicate LoggedAt(log: seq<Audits.AuditEntry>, i: nat, t: IssuedToken) {
    && i < |log| && t.claims.tokenId.Some?
    && log[i].event == "token.issued" && log[i].clientId == Some(t.client.clientId)
    && log[i].detail == Some("jti=" + t.claims.tokenId.value)
  }

  ghost predicate TokenOk(c: Config, keys: KeyMachine.KeyState, signed: set<Signed>, now: int, t: IssuedToken) {
    && ClaimsOk(c, t.client, t.claims, now)
    && KeyTheorems.HeldSince(keys, t.key, t.kid, t.publicSpki, t.claims.issuedAt)
    && TokenSigned(c, t) in signed
  }

  ghost predicate ThreadOk(c: Config, keys: KeyMachine.KeyState, audit: Audits.AuditState,
                           issued: set<IssuedToken>, now: int, t: Thread)
  {
    match t
    case Authenticated(_) => true
    case Claimed(client, x) => ClaimsOk(c, client, x, now)
    case Ready(client, x, kid, key, spki) =>
      ClaimsOk(c, client, x, now) && KeyTheorems.HeldSince(keys, key, kid, spki, x.issuedAt)
    case Issued(token) => token in issued && ClaimsOk(c, token.client, token.claims, now)
    case Auditing(token, i) => token in issued && audit.proc.Up? && LoggedAt(audit.proc.mem, i, token)
    case Audited(token, i) => token in issued && LoggedAt(audit.committed, i, token)
  }

  /** Only the service signs with its keys, and only tokens it issues. */
  ghost predicate SignedOk(c: Config, keys: KeyMachine.KeyState, signed: set<Signed>, issued: set<IssuedToken>) {
    forall t {:trigger t in signed} :: t in signed && ServiceKey(keys, t.publicSpki) ==>
      exists token :: token in issued && t == TokenSigned(c, token)
  }

  /** Every issuance entry of a log tells of an issued token. */
  ghost predicate LogOk(log: seq<Audits.AuditEntry>, issued: set<IssuedToken>) {
    forall i {:trigger log[i]} :: 0 <= i < |log| && log[i].event == TOKEN_ISSUED ==>
      exists token :: token in issued && LoggedAt(log, i, token)
  }

  ghost predicate AuditOk(audit: Audits.AuditState, issued: set<IssuedToken>, responses: seq<Response>) {
    && LogOk(audit.committed, issued)
    && (audit.proc.Up? ==> LogOk(audit.proc.mem, issued))
    && forall r :: r in responses ==> r.token in issued && LoggedAt(audit.committed, r.position, r.token)
  }

  ghost predicate ThreadsOk(c: Config, s: Sys) {
    forall i :: i in s.threads ==> ThreadOk(c, s.keys, s.audit, s.issued, s.now, s.threads[i])
  }

  ghost predicate TokensOk(c: Config, s: Sys) {
    forall t :: t in s.issued ==> TokenOk(c, s.keys, s.signed, s.now, t)
  }

  ghost predicate ServicesOk(c: Config, s: Sys) {
    && KeyMachine.Inv(s.keys, s.now, c.retention)
    && Revocations.Inv(s.revs, s.now)
    && Clients.Inv(s.clients)
    && Audits.Inv(s.audit, s.now)
  }

  ghost predicate Inv(c: Config, s: Sys) {
    && ServicesOk(c, s)
    && ThreadsOk(c, s)
    && TokensOk(c, s)
    && SignedOk(c, s.keys, s.signed, s.issued)
    && AuditOk(s.audit, s.issued, s.responses)
  }

  // ---- Each step keeps the invariant ----

  lemma TickKeepsInv(c: Config, s: Sys, seconds: nat)
    requires Inv(c, s)
    ensures Inv(c, Apply(c, s, Tick(seconds)))
  {
    var later := s.now + seconds;
    KeyMachine.TickKeepsInv(s.keys, s.now, later, c.retention);
    Revocations.TickKeepsInv(s.revs, s.now, later);
    forall i | i in s.threads ensures ThreadOk(c, s.keys, s.audit, s.issued, later, s.threads[i]) {
      ThreadLater(c, s.keys, s.audit, s.issued, s.now, later, s.threads[i]);
    }
  }

  lemma ThreadLater(c: Config, keys: KeyMachine.KeyState, audit: Audits.AuditState,
                    issued: set<IssuedToken>, now: int, later: int, t: Thread)
    requires ThreadOk(c, keys, audit, issued, now, t) && now <= later
    ensures ThreadOk(c, keys, audit, issued, later, t)
  {
  }

  lemma KeyStepKeepsHeld(c: Config, s: Sys, k: KeyMachine.KeyAction)
    requires Inv(c, s) && Enabled(s, KeyStep(k))
    ensures var s' := Apply(c, s, KeyStep(k)); ThreadsOk(c, s') && TokensOk(c, s')
  {
    var s' := Apply(c, s, KeyStep(k));
    forall t | t in s.issued ensures TokenOk(c, s'.keys, s'.signed, s'.now, t) {
      KeyTheorems.StepKeepsHeld(s.keys, k, s.now, c.retention, t.key, t.kid, t.publicSpki, t.claims.issuedAt);
    }
    forall i | i in s.threads ensures ThreadOk(c, s'.keys, s'.audit, s'.issued, s'.now, s'.threads[i]) {
      var t := s.threads[i];
      if t.Ready? {
        KeyTheorems.StepKeepsHeld(s.keys, k, s.now, c.retention, t.key, t.kid, t.publicSpki, t.claims.issuedAt);
      }
    }
  }

  /** The only key that becomes the service's is a generated one, which nobody signed with before. */
  lemma NewServiceKeys(s: Sys, k: KeyMachine.KeyAction, now: int, retention: int, spki: seq<Byte>)
    requires KeyMachine.Inv(s.keys, now, retention) && KeyMachine.Enabled(s.keys, k)
    requires ServiceKey(KeyMachine.Apply(s.keys, k, now, retention), spki)
    ensures ServiceKey(s.keys, spki) || (k.Generate? && spki == k.pair.publicSpki)
  {
    if k.Generate? {
      UsesAppended(s.keys.proc.pending.records, SigningKeys.NewKey(k.kid, k.pair, now), spki);
    } else if k.BeginRotation? {
      UsesRetired(s.keys.proc.pending.records, now, spki);
    }
  }

  lemma UsesAppended(records: seq<SigningKeys.KeyRecord>, r: SigningKeys.KeyRecord, spki: seq<Byte>)
    ensures Uses(records + [r], spki) ==> Uses(records, spki) || spki == r.publicSpki
  {
  }

  lemma UsesRetired(records: seq<SigningKeys.KeyRecord>, time: int, spki: seq<Byte>)
    ensures Uses(SigningKeys.RetireActive(records, time), spki) ==> Uses(records, spki)
  {
    if Uses(SigningKeys.RetireActive(records, time), spki) {
      var i :| 0 <= i < |records| && SigningKeys.RetireActive(records, time)[i].publicSpki == spki;
      assert records[i].publicSpki == spki;
    }
  }

  lemma KeyStepKeepsInv(c: Config, s: Sys, k: KeyMachine.KeyAction)
    requires Inv(c, s) && Enabled(s, KeyStep(k))
    ensures Inv(c, Apply(c, s, KeyStep(k)))
  {
    var s' := Apply(c, s, KeyStep(k));
    KeyMachine.StepKeepsInv(s.keys, k, s.now, c.retention);
    KeyStepKeepsHeld(c, s, k);
    forall t | t in s.signed && ServiceKey(s'.keys, t.publicSpki) ensures ServiceKey(s.keys, t.publicSpki) {
      NewServiceKeys(s, k, s.now, c.retention, t.publicSpki);
    }
  }

  lemma RevStepKeepsInv(c: Config, s: Sys, r: Revocations.RevAction)
    requires Inv(c, s) && Enabled(s, RevStep(r))
    ensures Inv(c, Apply(c, s, RevStep(r)))
  {
    Revocations.StepKeepsInv(s.revs, r, s.now);
  }

  lemma ClientStepKeepsInv(c: Config, s: Sys, cl: Clients.ClientAction)
    requires Inv(c, s) && Enabled(s, ClientStep(cl))
    ensures Inv(c, Apply(c, s, ClientStep(cl)))
  {
    Clients.StepKeepsInv(s.clients, cl, s.now);
  }

  /** Whatever the audit log does, entries already in it stay where they are. */
  lemma AuditKeepsEntries(audit: Audits.AuditState, a: Audits.AuditAction, now: int)
    requires Audits.Inv(audit, now) && Audits.Enabled(audit, a)
    ensures var audit' := Audits.Apply(audit, a, now);
      && audit.committed <= audit'.committed
      && (audit.proc.Up? ==> audit'.proc.Up? && audit.proc.mem <= audit'.proc.mem)
  {
  }

  lemma ThreadKeepsOk(c: Config, keys: KeyMachine.KeyState, audit: Audits.AuditState,
                      audit': Audits.AuditState, issued: set<IssuedToken>, now: int, t: Thread)
    requires ThreadOk(c, keys, audit, issued, now, t)
    requires audit.committed <= audit'.committed
    requires audit.proc.Up? ==> audit'.proc.Up? && audit.proc.mem <= audit'.proc.mem
    ensures ThreadOk(c, keys, audit', issued, now, t)
  {
  }

  lemma AuditKeepsOk(audit: Audits.AuditState, a: Audits.AuditAction, now: int,
                     issued: set<IssuedToken>, responses: seq<Response>)
    requires Audits.Inv(audit, now) && Audits.Enabled(audit, a) && AuditOk(audit, issued, responses)
    requires a.Append? && a.event == TOKEN_ISSUED ==>
      exists token :: token in issued && LoggedAt(Audits.Apply(audit, a, now).proc.mem, |audit.proc.mem|, token)
    ensures AuditOk(Audits.Apply(audit, a, now), issued, responses)
  {
    AuditKeepsEntries(audit, a, now);
    if a.Append? {
      LogGrows(audit.proc.mem, Audits.Apply(audit, a, now).proc.mem, issued, issued);
    }
  }

  lemma AuditStepKeepsInv(c: Config, s: Sys, x: Audits.AuditAction)
    requires Inv(c, s) && Enabled(s, AuditStep(x))
    ensures Inv(c, Apply(c, s, AuditStep(x)))
  {
    var s' := Apply(c, s, AuditStep(x));
    Audits.StepKeepsInv(s.audit, x, s.now);
    AuditKeepsEntries(s.audit, x, s.now);
    AuditKeepsOk(s.audit, x, s.now, s.issued, s.responses);
    forall i | i in s.threads ensures ThreadOk(c, s'.keys, s'.audit, s'.issued, s'.now, s'.threads[i]) {
      ThreadKeepsOk(c, s.keys, s.audit, s'.audit, s.issued, s.now, s.threads[i]);
    }
  }

  lemma LogGrows(log: seq<Audits.AuditEntry>, log': seq<Audits.AuditEntry>,
                 issued: set<IssuedToken>, issued': set<IssuedToken>)
    requires LogOk(log, issued) && issued <= issued' && log <= log' && |log'| <= |log| + 1
    requires |log'| == |log| + 1 && log'[|log|].event == TOKEN_ISSUED ==>
      exists token :: token in issued' && LoggedAt(log', |log|, token)
    ensures LogOk(log', issued')
  {
    forall i | 0 <= i < |log'| && log'[i].event == TOKEN_ISSUED
      ensures exists token :: token in issued' && LoggedAt(log', i, token)
    {
      if i < |log| {
        assert log[i] == log'[i];
        var token :| token in issued && LoggedAt(log, i, token);
        assert LoggedAt(log', i, token);
      }
    }
  }

  lemma ForeignSignKeepsInv(c: Config, s: Sys, t: Signed)
    requires Inv(c, s) && Enabled(s, ForeignSign(t))
    ensures Inv(c, Apply(c, s, ForeignSign(t)))
  {
  }

  lemma CrashKeepsInv(c: Config, s: Sys)
    requires Inv(c, s)
    ensures Inv(c, Apply(c, s, Crash))
  {
  }

  lemma SignKeepsInv(c: Config, s: Sys, thread: nat, signature: seq<Byte>)
    requires Inv(c, s) && Enabled(s, Issue(thread, SignToken(signature)))
    ensures Inv(c, Apply(c, s, Issue(thread, SignToken(signature))))
  {
    var s' := Apply(c, s, Issue(thread, SignToken(signature)));
    var token := s'.threads[thread].token;
    assert ThreadOk(c, s.keys, s.audit, s.issued, s.now, s.threads[thread]);
    forall i | i in s.threads && i != thread ensures ThreadOk(c, s.keys, s.audit, s'.issued, s.now, s.threads[i]) {
      ThreadMoreIssued(c, s.keys, s.audit, s.issued, s'.issued, s.now, s.threads[i]);
    }
    ThreadsSet(c, s, s', thread, Issued(token));
    SignKeepsSigned(c, s.keys, s.signed, s.issued, token);
    SignKeepsAudit(s.audit, s.issued, s'.issued, s.responses);
  }

  lemma ThreadMoreIssued(c: Config, keys: KeyMachine.KeyState, audit: Audits.AuditState,
                         issued: set<IssuedToken>, issued': set<IssuedToken>, now: int, t: Thread)
    requires ThreadOk(c, keys, audit, issued, now, t) && issued <= issued'
    ensures ThreadOk(c, keys, audit, issued', now, t)
  {
  }

  lemma SignKeepsSigned(c: Config, keys: KeyMachine.KeyState, signed: set<Signed>, issued: set<IssuedToken>,
                        token: IssuedToken)
    requires SignedOk(c, keys, signed, issued)
    ensures SignedOk(c, keys, signed + {TokenSigned(c, token)}, issued + {token})
  {
    forall t | t in signed + {TokenSigned(c, token)} && ServiceKey(keys, t.publicSpki)
      ensures exists tok :: tok in issued + {token} && t == TokenSigned(c, tok)
    {
      if t in signed {
        var tok :| tok in issued && t == TokenSigned(c, tok);
        assert tok in issued + {token};
      } else {
        assert token in issued + {token};
      }
    }
  }

  lemma SignKeepsAudit(audit: Audits.AuditState, issued: set<IssuedToken>, issued': set<IssuedToken>,
                       responses: seq<Response>)
    requires AuditOk(audit, issued, responses) && issued <= issued'
    ensures AuditOk(audit, issued', responses)
  {
    LogGrows(audit.committed, audit.committed, issued, issued');
    if audit.proc.Up? {
      LogGrows(audit.proc.mem, audit.proc.mem, issued, issued');
    }
  }

  /** Appending the entry of an issued token. */
  lemma AppendLogsToken(audit: Audits.AuditState, token: IssuedToken, now: int,
                        issued: set<IssuedToken>, responses: seq<Response>)
    requires Audits.Inv(audit, now) && IsIdle(audit) && AuditOk(audit, issued, responses)
    requires token in issued && token.claims.tokenId.Some?
    ensures var append := Audits.Append(TOKEN_ISSUED, Some(token.client.clientId),
                                        Some(JtiDetail(token.claims.tokenId.value)));
      var audit' := Audits.Apply(audit, append, now);
      && Audits.Inv(audit', now) && AuditOk(audit', issued, responses)
      && audit.committed <= audit'.committed && audit'.proc.Up? && audit.proc.mem <= audit'.proc.mem
      && LoggedAt(audit'.proc.mem, |audit.proc.mem|, token)
  {
    var append := Audits.Append(TOKEN_ISSUED, Some(token.client.clientId),
                                Some(JtiDetail(token.claims.tokenId.value)));
    Audits.StepKeepsInv(audit, append, now);
    AuditKeepsEntries(audit, append, now);
    AuditKeepsOk(audit, append, now, issued, responses);
  }

  lemma RecordKeepsInv(c: Config, s: Sys, thread: nat)
    requires Inv(c, s) && Enabled(s, Issue(thread, RecordAudit))
    ensures Inv(c, Apply(c, s, Issue(thread, RecordAudit)))
  {
    var token := s.threads[thread].token;
    assert ThreadOk(c, s.keys, s.audit, s.issued, s.now, s.threads[thread]);
    AppendLogsToken(s.audit, token, s.now, s.issued, s.responses);
    RecordKeepsThreads(c, s, thread);
  }

  lemma RecordKeepsThreads(c: Config, s: Sys, thread: nat)
    requires Inv(c, s) && Enabled(s, Issue(thread, RecordAudit))
    ensures ThreadsOk(c, Apply(c, s, Issue(thread, RecordAudit)))
  {
    var s' := Apply(c, s, Issue(thread, RecordAudit));
    var token := s.threads[thread].token;
    assert ThreadOk(c, s.keys, s.audit, s.issued, s.now, s.threads[thread]);
    AppendLogsToken(s.audit, token, s.now, s.issued, s.responses);
    OtherThreadsKeepOk(c, s, s'.audit, thread);
    ThreadsSet(c, s, s', thread, Auditing(token, |s.audit.proc.mem|));
  }

  /** Changing one thread to a good one keeps them all good. */
  lemma ThreadsSet(c: Config, s: Sys, s': Sys, thread: nat, t: Thread)
    requires s'.threads == s.threads[thread := t]
    requires ThreadOk(c, s'.keys, s'.audit, s'.issued, s'.now, t)
    requires forall i :: i in s.threads && i != thread ==>
      ThreadOk(c, s'.keys, s'.audit, s'.issued, s'.now, s.threads[i])
    ensures ThreadsOk(c, s')
  {
  }

  lemma OtherThreadsKeepOk(c: Config, s: Sys, audit': Audits.AuditState, thread: nat)
    requires ThreadsOk(c, s)
    requires s.audit.committed <= audit'.committed
    requires s.audit.proc.Up? ==> audit'.proc.Up? && s.audit.proc.mem <= audit'.proc.mem
    ensures forall i :: i in s.threads && i != thread ==>
      ThreadOk(c, s.keys, audit', s.issued, s.now, s.threads[i])
  {
    forall i | i in s.threads && i != thread ensures ThreadOk(c, s.keys, audit', s.issued, s.now, s.threads[i]) {
      ThreadKeepsOk(c, s.keys, s.audit, audit', s.issued, s.now, s.threads[i]);
    }
  }

  /** When the audit call returns, its entry is durable, though others may already be writing. */
  lemma ReturnKeepsInv(c: Config, s: Sys, thread: nat)
    requires Inv(c, s) && Enabled(s, Issue(thread, ReturnFromAudit))
    ensures Inv(c, Apply(c, s, Issue(thread, ReturnFromAudit)))
  {
    var s' := Apply(c, s, Issue(thread, ReturnFromAudit));
    assert ThreadOk(c, s.keys, s.audit, s.issued, s.now, s.threads[thread]);
    ThreadsSet(c, s, s', thread, s'.threads[thread]);
  }

  lemma GetSignerKeepsInv(c: Config, s: Sys, thread: nat)
    requires Inv(c, s) && Enabled(s, Issue(thread, GetSigner))
    ensures Inv(c, Apply(c, s, Issue(thread, GetSigner)))
  {
    var s' := Apply(c, s, Issue(thread, GetSigner));
    var t := s.threads[thread];
    assert ThreadOk(c, s.keys, s.audit, s.issued, s.now, t);
    KeyTheorems.SignerIsLast(s.keys, s.now, c.retention, t.claims.issuedAt);
    forall i | i in s'.threads ensures ThreadOk(c, s'.keys, s'.audit, s'.issued, s'.now, s'.threads[i]) {
      assert i != thread ==> ThreadOk(c, s.keys, s.audit, s.issued, s.now, s.threads[i]);
    }
  }

  lemma OtherIssueStepKeepsInv(c: Config, s: Sys, thread: nat, step: IssueStep)
    requires Inv(c, s) && Enabled(s, Issue(thread, step))
    requires step.Authenticate? || step.ReadClock? || step.Respond?
    ensures Inv(c, Apply(c, s, Issue(thread, step)))
  {
    var s' := Apply(c, s, Issue(thread, step));
    forall i | i in s'.threads ensures ThreadOk(c, s'.keys, s'.audit, s'.issued, s'.now, s'.threads[i]) {
      assert i != thread ==> ThreadOk(c, s.keys, s.audit, s.issued, s.now, s.threads[i]);
    }
    if step.Respond? {
      assert ThreadOk(c, s.keys, s.audit, s.issued, s.now, s.threads[thread]);
    }
  }

  /** Every step of the machine keeps the invariant. */
  lemma StepKeepsInv(c: Config, s: Sys, a: Action)
    requires Inv(c, s) && Enabled(s, a)
    ensures Inv(c, Apply(c, s, a))
  {
    match a
    case Tick(seconds) => TickKeepsInv(c, s, seconds);
    case KeyStep(k) => KeyStepKeepsInv(c, s, k);
    case RevStep(r) => RevStepKeepsInv(c, s, r);
    case ClientStep(cl) => ClientStepKeepsInv(c, s, cl);
    case AuditStep(x) => AuditStepKeepsInv(c, s, x);
    case ForeignSign(t) => ForeignSignKeepsInv(c, s, t);
    case Crash => CrashKeepsInv(c, s);
    case Issue(thread, step) =>
      match step {
        case SignToken(signature) => SignKeepsInv(c, s, thread, signature);
        case RecordAudit => RecordKeepsInv(c, s, thread);
        case ReturnFromAudit => ReturnKeepsInv(c, s, thread);
        case GetSigner => GetSignerKeepsInv(c, s, thread);
        case _ => OtherIssueStepKeepsInv(c, s, thread, step);
      }
  }

  /** The invariant holds at the end of every legal run. */
  lemma {:induction false} RunKeepsInv(c: Config, trace: seq<Action>)
    requires Legal(c, trace)
    ensures Inv(c, Run(c, trace).value)
  {
    if trace != [] {
      var n := |trace| - 1;
      RunKeepsInv(c, trace[..n]);
      StepKeepsInv(c, Run(c, trace[..n]).value, trace[n]);
    }
  }

  lemma InvAt(c: Config, trace: seq<Action>, i: nat)
    requires Legal(c, trace) && i <= |trace|
    ensures Inv(c, At(c, trace, i))
  {
    PrefixLegal(c, trace, i);
    RunKeepsInv(c, trace[..i]);
  }

  /** The key service's part of it. */
  lemma KeysInvAt(c: Config, trace: seq<Action>, i: nat)
    requires Legal(c, trace) && i <= |trace|
    ensures KeyMachine.Inv(At(c, trace, i).keys, At(c, trace, i).now, c.retention)
  {
    InvAt(c, trace, i);
  }

  // ---- What only grows ----

  ghost predicate Grows(s: Sys, s': Sys) {
    && s.now <= s'.now && s.issued <= s'.issued && s.signed <= s'.signed && s.responses <= s'.responses
    && KeyTheorems.Evolves(s.keys.committed.records, s'.keys.committed.records)
    && s.audit.committed <= s'.audit.committed
  }

  lemma StepGrows(c: Config, s: Sys, a: Action)
    requires Inv(c, s) && Enabled(s, a)
    ensures Grows(s, Apply(c, s, a))
  {
    if a.KeyStep? {
      KeyTheorems.StepEvolves(s.keys, a.key, s.now, c.retention);
    } else if a.AuditStep? {
      AuditKeepsEntries(s.audit, a.audit, s.now);
    } else if a.Issue? {
      IssueStepGrows(c, s, a.thread, a.step);
    }
  }

  lemma IssueStepGrows(c: Config, s: Sys, thread: nat, step: IssueStep)
    requires Enabled(s, Issue(thread, step))
    ensures Grows(s, Apply(c, s, Issue(thread, step)))
  {
  }

  /** Time, issued tokens, signatures, key history and durable log only grow along a run. */
  lemma {:induction false} RunGrows(c: Config, trace: seq<Action>, i: nat, j: nat)
    requires Legal(c, trace) && i <= j <= |trace|
    ensures Grows(At(c, trace, i), At(c, trace, j))
    decreases j
  {
    if i < j {
      RunGrows(c, trace, i, j - 1);
      InvAt(c, trace, j - 1);
      StepAt(c, trace, j - 1);
      StepGrows(c, At(c, trace, j - 1), trace[j - 1]);
      GrowsOn(At(c, trace, i), At(c, trace, j - 1), At(c, trace, j));
    }
  }

  lemma GrowsOn(s: Sys, s': Sys, s'': Sys)
    requires Grows(s, s') && Grows(s', s'')
    ensures Grows(s, s'')
  {
  }
}
