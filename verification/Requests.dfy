/** Where threads and tokens come from: the steps of one and the same request. */
module Requests {
  import opened Options
  import opened Base64Url
  import opened Persistence
  import opened Jws
  import Grants
  import Clients
  import opened System

  function ClientOf(t: Thread): Clients.ClientRecord {
    match t
    case Authenticated(client) => client
    case Claimed(client, _) => client
    case Ready(client, _, _, _, _) => client
    case Issued(token) => token.client
    case Auditing(token, _) => token.client
    case Audited(token, _) => token.client
  }

  function ClaimsOf(t: Thread): Option<Claims> {
    match t
    case Authenticated(_) => None
    case Claimed(_, x) => Some(x)
    case Ready(_, x, _, _, _) => Some(x)
    case Issued(token) => Some(token.claims)
    case Auditing(token, _) => Some(token.claims)
    case Audited(token, _) => Some(token.claims)
  }

  /** The key a request was handed: its id and its public half. */
  datatype Handed = Handed(kid: string, publicSpki: seq<Byte>)

  function KeyOf(t: Thread): Option<Handed> {
    match t
    case Authenticated(_) => None
    case Claimed(_, _) => None
    case Ready(_, _, kid, _, publicSpki) => Some(Handed(kid, publicSpki))
    case Issued(token) => Some(Handed(token.kid, token.publicSpki))
    case Auditing(token, _) => Some(Handed(token.kid, token.publicSpki))
    case Audited(token, _) => Some(Handed(token.kid, token.publicSpki))
  }

  function TokenOf(t: Thread): Option<IssuedToken> {
    match t
    case Issued(token) => Some(token)
    case Auditing(token, _) => Some(token)
    case Audited(token, _) => Some(token)
    case _ => None
  }

  /** The place of a thread's entry in the log. */
  function PositionOf(t: Thread): Option<nat> {
    match t
    case Auditing(_, position) => Some(position)
    case Audited(_, position) => Some(position)
    case _ => None
  }

  // ---- The steps of one request ----

  predicate Begins(a: Action, thread: nat) { a.Issue? && a.thread == thread && a.step.Authenticate? }

  /** From step m to state i this thread has served one request: no crash, and no other one begun. */
  ghost predicate SameRequest(trace: seq<Action>, thread: nat, m: nat, i: nat)
    requires i <= |trace|
  {
    forall l {:trigger trace[l]} :: m < l < i ==> trace[l] != Crash && !Begins(trace[l], thread)
  }

  /** Step m is this thread's authentication, and the registry answered with this record. */
  ghost predicate AuthenticatesAt(c: Config, trace: seq<Action>, m: nat, thread: nat, client: Clients.ClientRecord) {
    && m < |trace| && Begins(trace[m], thread)
    && var s := At(c, trace, m);
       && IsIdle(s.clients)
       && Clients.Authenticate(s.clients.proc.mem, Some(trace[m].step.id), trace[m].step.secret) == Some(client)
  }

  /** Step r is this thread's clock read and draws this id, and these are the claims made then. */
  ghost predicate ReadsClockAt(c: Config, trace: seq<Action>, r: nat, thread: nat,
                               client: Clients.ClientRecord, x: Claims)
  {
    && r < |trace| && trace[r].Issue? && trace[r].thread == thread && trace[r].step.ReadClock?
    && AreClaims(c, client, At(c, trace, r).now, trace[r].step.jti, x)
  }

  /** At step g the key service handed this thread its current signer, which is this key. */
  ghost predicate GetsSignerAt(c: Config, trace: seq<Action>, g: nat, thread: nat, key: Handed) {
    && g < |trace| && trace[g] == Issue(thread, GetSigner)
    && var keys := At(c, trace, g).keys;
       && IsIdle(keys) && CurrentSigner(keys).Some?
       && key == Handed(CurrentSigner(keys).value.kid, CurrentSigner(keys).value.privateKey.publicSpki)
  }

  /** At step w the audit log took this thread's entry at this place. */
  ghost predicate RecordsAt(c: Config, trace: seq<Action>, w: nat, thread: nat, position: nat) {
    && w < |trace| && trace[w] == Issue(thread, RecordAudit)
    && var proc := At(c, trace, w).audit.proc; proc.Up? && position == |proc.mem|
  }

  /** The places in a run of the steps of a request by one thread. */
  datatype Steps = Steps(thread: nat, authenticate: nat, readClock: nat, getSigner: nat, sign: nat, record: nat)

  /** In state i the thread stands where these steps of one request have brought it. */
  ghost predicate Reached(c: Config, trace: seq<Action>, q: Steps, i: nat, t: Thread) {
    && q.authenticate < i <= |trace|
    && SameRequest(trace, q.thread, q.authenticate, i)
    && AuthenticatesAt(c, trace, q.authenticate, q.thread, ClientOf(t))
    && ClaimsReached(c, trace, q, i, t) && KeyReached(c, trace, q, i, t) && TokenReached(c, trace, q, i, t)
  }

  ghost predicate ClaimsReached(c: Config, trace: seq<Action>, q: Steps, i: nat, t: Thread) {
    ClaimsOf(t).Some? ==>
      && q.authenticate < q.readClock < i
      && ReadsClockAt(c, trace, q.readClock, q.thread, ClientOf(t), ClaimsOf(t).value)
  }

  ghost predicate KeyReached(c: Config, trace: seq<Action>, q: Steps, i: nat, t: Thread) {
    KeyOf(t).Some? ==>
      q.readClock < q.getSigner < i && GetsSignerAt(c, trace, q.getSigner, q.thread, KeyOf(t).value)
  }

  ghost predicate TokenReached(c: Config, trace: seq<Action>, q: Steps, i: nat, t: Thread)
    requires i <= |trace|
  {
    && (TokenOf(t).Some? ==>
          q.getSigner < q.sign < i && trace[q.sign] == Issue(q.thread, SignToken(TokenOf(t).value.signature)))
    && (PositionOf(t).Some? ==>
          q.sign < q.record < i && RecordsAt(c, trace, q.record, q.thread, PositionOf(t).value))
  }

  /** Every thread stands where the steps of its own request have brought it. */
  lemma {:induction false} RequestHistory(c: Config, trace: seq<Action>, i: nat, thread: nat) returns (q: Steps)
    requires Legal(c, trace) && i <= |trace| && thread in At(c, trace, i).threads
    ensures q.thread == thread && Reached(c, trace, q, i, At(c, trace, i).threads[thread])
    decreases i
  {
    if i == 0 {
      assert false;
    }
    StepAt(c, trace, i - 1);
    var s, a := At(c, trace, i - 1), trace[i - 1];
    if Begins(a, thread) {
      q := Steps(thread, i - 1, 0, 0, 0, 0);
    } else {
      ThreadGoesOn(c, s, a, thread);
      q := RequestHistory(c, trace, i - 1, thread);
      ReachedGoesOn(c, trace, q, i - 1, s.threads[thread], At(c, trace, i).threads[thread]);
      q := Noted(q, a, i - 1);
    }
  }

  /** The steps so far, with this one at place i if it is one of the thread's own that counts. */
  function Noted(q: Steps, a: Action, i: nat): Steps {
    if !a.Issue? || a.thread != q.thread then q
    else
      match a.step
      case ReadClock(_) => q.(readClock := i)
      case GetSigner => q.(getSigner := i)
      case SignToken(_) => q.(sign := i)
      case RecordAudit => q.(record := i)
      case _ => q
  }

  ghost predicate Own(a: Action, thread: nat) { a.Issue? && a.thread == thread }

  /** What one step can do to a thread it does not begin: only the thread's own steps bring it on. */
  ghost predicate GoesOn(c: Config, s: Sys, a: Action, thread: nat, t: Thread, t': Thread) {
    && a != Crash && !Begins(a, thread) && ClientOf(t') == ClientOf(t)
    && if Own(a, thread) && a.step.ReadClock? then
         t'.Claimed? && AreClaims(c, ClientOf(t), s.now, a.step.jti, t'.claims)
       else if Own(a, thread) && a.step.GetSigner? then
         && ClaimsOf(t).Some? && ClaimsOf(t') == ClaimsOf(t) && t'.Ready?
         && IsIdle(s.keys) && CurrentSigner(s.keys).Some?
         && KeyOf(t') == Some(Handed(CurrentSigner(s.keys).value.kid,
                                     CurrentSigner(s.keys).value.privateKey.publicSpki))
       else
         && ClaimsOf(t') == ClaimsOf(t) && KeyOf(t') == KeyOf(t)
         && if Own(a, thread) && a.step.SignToken? then
              t.Ready? && t'.Issued? && t'.token.signature == a.step.signature
            else if Own(a, thread) && a.step.RecordAudit? then
              t.Issued? && s.audit.proc.Up? && t' == Auditing(t.token, |s.audit.proc.mem|)
            else TokenOf(t') == TokenOf(t) && PositionOf(t') == PositionOf(t)
  }

  lemma ThreadGoesOn(c: Config, s: Sys, a: Action, thread: nat)
    requires Enabled(s, a) && thread in Apply(c, s, a).threads && !Begins(a, thread)
    ensures thread in s.threads && GoesOn(c, s, a, thread, s.threads[thread], Apply(c, s, a).threads[thread])
  {
    if thread in s.threads && s.threads[thread].Authenticated? {
      Grants.ClaimSpells(s.threads[thread].client.authorization);
    }
  }

  lemma ReachedGoesOn(c: Config, trace: seq<Action>, q: Steps, i: nat, t: Thread, t': Thread)
    requires i < |trace| && Reached(c, trace, q, i, t)
    requires GoesOn(c, At(c, trace, i), trace[i], q.thread, t, t')
    ensures Reached(c, trace, Noted(q, trace[i], i), i + 1, t')
  {
    var a := trace[i];
    if Own(a, q.thread) && a.step.ReadClock? {
      ClaimsRead(c, trace, q, i, t');
    } else if Own(a, q.thread) && a.step.GetSigner? {
      KeyHanded(c, trace, q, i, t, t');
    } else {
      TokenGoesOn(c, trace, q, i, t, t');
    }
  }

  lemma ClaimsRead(c: Config, trace: seq<Action>, q: Steps, i: nat, t': Thread)
    requires q.authenticate < i < |trace| && Own(trace[i], q.thread) && trace[i].step.ReadClock? && t'.Claimed?
    requires AreClaims(c, ClientOf(t'), At(c, trace, i).now, trace[i].step.jti, t'.claims)
    ensures ClaimsReached(c, trace, q.(readClock := i), i + 1, t')
  {
  }

  lemma KeyHanded(c: Config, trace: seq<Action>, q: Steps, i: nat, t: Thread, t': Thread)
    requires i < |trace| && Own(trace[i], q.thread) && trace[i].step.GetSigner? && t'.Ready?
    requires ClaimsReached(c, trace, q, i, t)
    requires GoesOn(c, At(c, trace, i), trace[i], q.thread, t, t')
    ensures ClaimsReached(c, trace, q.(getSigner := i), i + 1, t')
    ensures KeyReached(c, trace, q.(getSigner := i), i + 1, t')
  {
  }

  lemma TokenGoesOn(c: Config, trace: seq<Action>, q: Steps, i: nat, t: Thread, t': Thread)
    requires i < |trace| && TokenReached(c, trace, q, i, t)
    requires KeyReached(c, trace, q, i, t) && ClaimsReached(c, trace, q, i, t)
    requires !(Own(trace[i], q.thread) && (trace[i].step.ReadClock? || trace[i].step.GetSigner?))
    requires GoesOn(c, At(c, trace, i), trace[i], q.thread, t, t')
    ensures var q' := Noted(q, trace[i], i);
      && ClaimsReached(c, trace, q', i + 1, t') && KeyReached(c, trace, q', i + 1, t')
      && TokenReached(c, trace, q', i + 1, t')
  {
  }

  // ---- The request that made a token ----

  /** Every issued token was signed by a request, with what that request's own steps had got it. */
  lemma {:induction false} TokenHistory(c: Config, trace: seq<Action>, i: nat, t: IssuedToken)
    returns (q: Steps, n: nat)
    requires Legal(c, trace) && i <= |trace| && t in At(c, trace, i).issued
    ensures n <= i && Reached(c, trace, q, n, Issued(t))
    decreases i
  {
    if i == 0 {
      assert false;
    }
    StepAt(c, trace, i - 1);
    var s, a := At(c, trace, i - 1), trace[i - 1];
    if t in s.issued {
      q, n := TokenHistory(c, trace, i - 1, t);
    } else {
      NewTokenHasThread(c, s, a, t);
      q := RequestHistory(c, trace, i, a.thread);
      n := i;
    }
  }

  lemma NewTokenHasThread(c: Config, s: Sys, a: Action, t: IssuedToken)
    requires Enabled(s, a) && t in Apply(c, s, a).issued && t !in s.issued
    ensures a.Issue? && a.thread in Apply(c, s, a).threads && Apply(c, s, a).threads[a.thread] == Issued(t)
  {
  }

  // ---- The request a response answers ----

  /** Step m gave this answer: the thread's own, with the token and log entry its request's steps made. */
  ghost predicate Answers(c: Config, trace: seq<Action>, m: nat, q: Steps, r: Response) {
    && m < |trace| && trace[m] == Issue(r.thread, Respond) && q.thread == r.thread
    && Reached(c, trace, q, m, Audited(r.token, r.position))
    && r.accessToken == Sign(c.codecs, ForKid(r.token.kid), r.token.claims, r.token.signature)
  }

  /** Responding answers once, and answers the thread's own request. */
  lemma RespondAnswersOwnRequest(c: Config, trace: seq<Action>, m: nat, thread: nat) returns (q: Steps, r: Response)
    requires Legal(c, trace) && m < |trace| && trace[m] == Issue(thread, Respond)
    ensures At(c, trace, m + 1).responses == At(c, trace, m).responses + [r]
    ensures r.thread == thread && Answers(c, trace, m, q, r)
  {
    StepAt(c, trace, m);
    var s := At(c, trace, m);
    q := RequestHistory(c, trace, m, thread);
    r := At(c, trace, m + 1).responses[|s.responses|];
  }

  /** Answers stay, and nothing else answers. */
  lemma OnlyRespondAnswers(c: Config, s: Sys, a: Action)
    requires Enabled(s, a)
    ensures s.responses <= Apply(c, s, a).responses
    ensures |Apply(c, s, a).responses| == |s.responses| + if a.Issue? && a.step.Respond? then 1 else 0
  {
  }

  /** Every answer given so far was given by a thread to its own request. */
  lemma {:induction false} ResponseHistory(c: Config, trace: seq<Action>, i: nat, r: Response)
    returns (m: nat, q: Steps)
    requires Legal(c, trace) && i <= |trace| && r in At(c, trace, i).responses
    ensures m < i && Answers(c, trace, m, q, r)
    decreases i
  {
    if i == 0 {
      assert false;
    }
    StepAt(c, trace, i - 1);
    if r in At(c, trace, i - 1).responses {
      m, q := ResponseHistory(c, trace, i - 1, r);
    } else {
      NewResponseHasThread(c, At(c, trace, i - 1), trace[i - 1], r);
      var given;
      q, given := RespondAnswersOwnRequest(c, trace, i - 1, trace[i - 1].thread);
      m := i - 1;
    }
  }

  lemma NewResponseHasThread(c: Config, s: Sys, a: Action, r: Response)
    requires Enabled(s, a) && r in Apply(c, s, a).responses && r !in s.responses
    ensures a == Issue(r.thread, Respond) && Apply(c, s, a).responses == s.responses + [r]
  {
  }
}
