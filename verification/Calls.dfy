/**
 * What a call of the denylist or the registry that has returned leaves behind, in runs where
 * anything else goes on beside it and after it.
 */
module Calls {
  import opened Options
  import opened Persistence
  import Revocations
  import Clients
  import opened System
  import opened SystemInvariant

  /** The process runs from before step m to state i. */
  ghost predicate StaysUp(trace: seq<Action>, m: nat, i: nat)
    requires i <= |trace|
  {
    forall l {:trigger trace[l]} :: m <= l < i ==> trace[l] != Crash
  }

  // ---- A revoke ----

  /** Step m is a revoke of this id up to this horizon, and by state i, without a crash, it has returned. */
  ghost predicate RevokeReturned(c: Config, trace: seq<Action>, m: nat, i: nat, jti: string, horizon: int) {
    && Legal(c, trace) && m < i <= |trace|
    && trace[m].RevStep? && trace[m].rev.Record? && trace[m].rev.jti == jti && trace[m].rev.expiresAt == horizon
    && StaysUp(trace, m, i) && IsIdle(At(c, trace, i).revs)
  }

  /** No step after m and before p is a revoke of this id with a nearer horizon. */
  ghost predicate NotLowered(trace: seq<Action>, m: nat, p: nat, jti: string, horizon: int)
    requires p <= |trace|
  {
    forall l {:trigger trace[l]} :: m < l < p && trace[l].RevStep? ==> !Revocations.Lowers(trace[l].rev, jti, horizon)
  }

  /** The call at step m has its horizon pending until it commits it. */
  lemma {:induction false} RevokeIsPending(c: Config, trace: seq<Action>, m: nat, i: nat, jti: string, horizon: int)
    requires Legal(c, trace) && m < i <= |trace|
    requires trace[m].RevStep? && trace[m].rev.Record? && trace[m].rev.jti == jti && trace[m].rev.expiresAt == horizon
    requires StaysUp(trace, m, i) && NotLowered(trace, m, i, jti, horizon)
    ensures Revocations.Pending(At(c, trace, i).revs, jti, horizon)
    decreases i
  {
    StepAt(c, trace, i - 1);
    if m < i - 1 {
      RevokeIsPending(c, trace, m, i - 1, jti, horizon);
      var s, a := At(c, trace, i - 1), trace[i - 1];
      assert a != Crash;
      if a.RevStep? {
        Revocations.StepKeepsPending(s.revs, a.rev, s.now, jti, horizon);
      }
    }
  }

  /** Once it has returned, memory and file hold an entry that reaches at least so far, whatever else ran. */
  lemma {:induction false} RevokeLasts(c: Config, trace: seq<Action>, m: nat, i: nat, p: nat, jti: string, horizon: int)
    requires RevokeReturned(c, trace, m, i, jti, horizon) && i <= p <= |trace|
    requires NotLowered(trace, m, p, jti, horizon)
    ensures Revocations.RevokedUntil(At(c, trace, p).revs, jti, horizon)
    decreases p
  {
    if i == p {
      RevokeIsPending(c, trace, m, i, jti, horizon);
      InvAt(c, trace, i);
    } else {
      RevokeLasts(c, trace, m, i, p - 1, jti, horizon);
      StepAt(c, trace, p - 1);
      var s, a := At(c, trace, p - 1), trace[p - 1];
      if a.RevStep? {
        Revocations.StepKeepsRevoked(s.revs, a.rev, s.now, jti, horizon);
      }
    }
  }

  /** No step after m and before p revokes this id. */
  ghost predicate NotRevoked(trace: seq<Action>, m: int, p: nat, jti: string)
    requires p <= |trace|
  {
    forall l: nat {:trigger trace[l]} :: m < l < p && trace[l].RevStep? ==> !Revocations.Revokes(trace[l].rev, jti)
  }

  lemma {:induction false} HorizonIsPending(c: Config, trace: seq<Action>, m: nat, i: nat, jti: string, horizon: int)
    requires Legal(c, trace) && m < i <= |trace|
    requires trace[m].RevStep? && trace[m].rev.Record? && trace[m].rev.jti == jti && trace[m].rev.expiresAt == horizon
    requires StaysUp(trace, m, i) && NotRevoked(trace, m, i, jti)
    ensures var proc := At(c, trace, i).revs.proc;
      proc.Up? && Revocations.HorizonOf(proc.pending, jti) == Some(horizon)
    decreases i
  {
    StepAt(c, trace, i - 1);
    if m < i - 1 {
      HorizonIsPending(c, trace, m, i - 1, jti, horizon);
      var s, a := At(c, trace, i - 1), trace[i - 1];
      assert a != Crash;
      if a.RevStep? {
        Revocations.StepKeepsOthers(s.revs, a.rev, s.now, jti);
      }
    }
  }

  /** What memory and file show of an id stays until it is revoked again. */
  lemma {:induction false} ShownStays(c: Config, trace: seq<Action>, i: nat, p: nat, jti: string, horizon: Option<int>)
    requires Legal(c, trace) && i <= p <= |trace| && Revocations.Shows(At(c, trace, i).revs, jti, horizon)
    requires NotRevoked(trace, i as int - 1, p, jti)
    ensures Revocations.Shows(At(c, trace, p).revs, jti, horizon)
    decreases p
  {
    if i < p {
      ShownStays(c, trace, i, p - 1, jti, horizon);
      StepAt(c, trace, p - 1);
      var s, a := At(c, trace, p - 1), trace[p - 1];
      if a.RevStep? {
        Revocations.StepKeepsOthers(s.revs, a.rev, s.now, jti);
      }
    }
  }

  /** Until its next revoke, the last returned one decides whether an id is denied, across restarts. */
  lemma LastRevokeDecides(c: Config, trace: seq<Action>, m: nat, i: nat, p: nat, jti: string, horizon: int)
    requires RevokeReturned(c, trace, m, i, jti, horizon) && i <= p <= |trace| && NotRevoked(trace, m, p, jti)
    requires IsIdle(At(c, trace, p).revs)
    ensures var s := At(c, trace, p); Revocations.IsRevoked(s.revs, jti, s.now) <==> horizon >= s.now
  {
    HorizonIsPending(c, trace, m, i, jti, horizon);
    InvAt(c, trace, i);
    ShownStays(c, trace, i, p, jti, Some(horizon));
    InvAt(c, trace, p);
    Revocations.DenylistRefinesLatest(At(c, trace, p).revs, jti, At(c, trace, p).now);
  }

  /** An id never revoked is never denied. */
  lemma NeverRevokedNeverDenied(c: Config, trace: seq<Action>, p: nat, jti: string)
    requires Legal(c, trace) && p <= |trace| && NotRevoked(trace, -1, p, jti)
    requires IsIdle(At(c, trace, p).revs)
    ensures !Revocations.IsRevoked(At(c, trace, p).revs, jti, At(c, trace, p).now)
  {
    assert At(c, trace, 0) == INITIAL;
    ShownStays(c, trace, 0, p, jti, None);
    InvAt(c, trace, p);
    Revocations.DenylistRefinesLatest(At(c, trace, p).revs, jti, At(c, trace, p).now);
  }

  // ---- A change of the registry ----

  /** Step m changes this client in the registry, and by state i, without a crash, it has returned. */
  ghost predicate ChangeReturned(c: Config, trace: seq<Action>, m: nat, i: nat, id: string) {
    && Legal(c, trace) && m < i <= |trace|
    && trace[m].ClientStep? && Clients.Changes(trace[m].client, id)
    && StaysUp(trace, m, i) && IsIdle(At(c, trace, i).clients)
  }

  ghost predicate NotChanged(trace: seq<Action>, m: nat, p: nat, id: string)
    requires p <= |trace|
  {
    forall l {:trigger trace[l]} :: m < l < p && trace[l].ClientStep? ==> !Clients.Changes(trace[l].client, id)
  }

  /** What the registry is to hold of this client after the step at m. */
  ghost function ChangedTo(c: Config, trace: seq<Action>, m: nat, id: string): Option<Clients.Credential>
    requires m < |trace|
  {
    var proc := At(c, trace, m + 1).clients.proc;
    if proc.Up? then Clients.CredentialOf(proc.pending, id) else None
  }

  lemma {:induction false} ChangeIsPending(c: Config, trace: seq<Action>, m: nat, i: nat, id: string)
    requires Legal(c, trace) && m < i <= |trace|
    requires trace[m].ClientStep? && Clients.Changes(trace[m].client, id)
    requires StaysUp(trace, m, i) && NotChanged(trace, m, i, id)
    ensures var proc := At(c, trace, i).clients.proc;
      proc.Up? && Clients.CredentialOf(proc.pending, id) == ChangedTo(c, trace, m, id)
    decreases i
  {
    StepAt(c, trace, i - 1);
    if m < i - 1 {
      ChangeIsPending(c, trace, m, i - 1, id);
      var s, a := At(c, trace, i - 1), trace[i - 1];
      assert a != Crash;
      if a.ClientStep? {
        Clients.StepKeepsOthers(s.clients, a.client, s.now, id);
      }
    }
  }

  lemma {:induction false} ChangeLasts(c: Config, trace: seq<Action>, m: nat, i: nat, p: nat, id: string)
    requires ChangeReturned(c, trace, m, i, id) && i <= p <= |trace| && NotChanged(trace, m, p, id)
    ensures Clients.Holds(At(c, trace, p).clients, id, ChangedTo(c, trace, m, id))
    decreases p
  {
    if i == p {
      ChangeIsPending(c, trace, m, i, id);
      InvAt(c, trace, i);
    } else {
      ChangeLasts(c, trace, m, i, p - 1, id);
      StepAt(c, trace, p - 1);
      var s, a := At(c, trace, p - 1), trace[p - 1];
      if a.ClientStep? {
        Clients.StepKeepsOthers(s.clients, a.client, s.now, id);
      }
    }
  }

  /** What a change of this client means for who authenticates afterwards, and with which grants. */
  ghost predicate Decides(c: Config, trace: seq<Action>, m: nat, id: string, secret: string,
                          r: Option<Clients.ClientRecord>)
    requires Legal(c, trace) && m < |trace| && trace[m].ClientStep?
  {
    match trace[m].client
    case Register(_, registered, _, a) =>
      && (r.Some? <==> secret == registered)
      && (r.Some? ==> Clients.Given(r.value.authorization, a))
    case RemoveClient(_) => r == None
    case SetAuthorization(_, a) =>
      && (r.Some? <==> IsIdle(At(c, trace, m).clients)
                       && Clients.Authenticate(At(c, trace, m).clients.proc.mem, Some(id), secret).Some?)
      && (r.Some? ==> Clients.Given(r.value.authorization, a))
    case _ => false
  }

  /**
   * Until the next change of a client, across crashes and restarts, its last returned one decides:
   * a registered client authenticates with exactly its secret, a removed one with none, and one that
   * was given an authorization exactly as before, with the new grants.
   */
  lemma LastChangeDecides(c: Config, trace: seq<Action>, m: nat, i: nat, p: nat, id: string, secret: string)
    requires ChangeReturned(c, trace, m, i, id) && i <= p <= |trace| && NotChanged(trace, m, p, id)
    requires IsIdle(At(c, trace, p).clients)
    ensures Decides(c, trace, m, id, secret,
                    Clients.Authenticate(At(c, trace, p).clients.proc.mem, Some(id), secret))
  {
    ChangeLasts(c, trace, m, i, p, id);
    InvAt(c, trace, p);
    Clients.AuthenticationRefinesCredentials(At(c, trace, p).clients, id, secret);
    StepAt(c, trace, m);
    InvAt(c, trace, m);
    if trace[m].client.SetAuthorization? {
      Clients.AuthenticationRefinesCredentials(At(c, trace, m).clients, id, secret);
    }
  }

  // ---- Every client was registered ----

  predicate Registers(a: Action, id: string, secret: string) {
    a.ClientStep? && a.client.Register? && a.client.id == id && a.client.secret == secret
  }

  ghost predicate RegisteredBefore(trace: seq<Action>, i: nat, id: string, secret: string)
    requires i <= |trace|
  {
    exists m :: 0 <= m < i && Registers(trace[m], id, secret)
  }

  /** A secret in the registry, committed or about to be, is one its client was registered with. */
  lemma {:induction false} SecretWasRegistered(c: Config, trace: seq<Action>, i: nat, id: string, secret: string)
    requires Legal(c, trace) && i <= |trace| && Clients.Knows(At(c, trace, i).clients, id, secret)
    ensures RegisteredBefore(trace, i, id, secret)
    decreases i
  {
    if i == 0 {
      assert false;
    }
    StepAt(c, trace, i - 1);
    InvAt(c, trace, i - 1);
    SecretsComeFrom(c, At(c, trace, i - 1), trace[i - 1], id, secret);
    if !Registers(trace[i - 1], id, secret) {
      SecretWasRegistered(c, trace, i - 1, id, secret);
    }
  }

  lemma SecretsComeFrom(c: Config, s: Sys, a: Action, id: string, secret: string)
    requires Clients.Inv(s.clients) && Enabled(s, a) && Clients.Knows(Apply(c, s, a).clients, id, secret)
    ensures Clients.Knows(s.clients, id, secret) || Registers(a, id, secret)
  {
    if a.ClientStep? {
      Clients.SecretsComeFrom(s.clients, a.client, s.now, id, secret);
    }
  }

  /** Nobody authenticates with anything but the secret of a registration. */
  lemma AuthenticatedWasRegistered(c: Config, trace: seq<Action>, p: nat, id: string, secret: string)
    requires Legal(c, trace) && p <= |trace| && IsIdle(At(c, trace, p).clients)
    requires Clients.Authenticate(At(c, trace, p).clients.proc.mem, Some(id), secret).Some?
    ensures RegisteredBefore(trace, p, id, secret)
  {
    InvAt(c, trace, p);
    Clients.AuthenticationRefinesCredentials(At(c, trace, p).clients, id, secret);
    SecretWasRegistered(c, trace, p, id, secret);
  }
}
