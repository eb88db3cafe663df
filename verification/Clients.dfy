/** The client registry: its records, and the service as a machine over its file. */
module Clients {
  import opened Options
  import opened Grants
  import opened JsonStores
  import opened Persistence
  import opened LinkedMap

  /** An ideal password hash: it verifies exactly the secret it was made from. */
  datatype SecretHash = IdealHash(secret: string) | DummyHash

  predicate VerifySecret(secret: string, hash: SecretHash) { hash == IdealHash(secret) }

  datatype ClientRecord = ClientRecord(clientId: string, displayName: Option<string>, secretHash: SecretHash,
                                       authorization: Authorization, enabled: bool, createdAt: int)

  function IdOf(r: ClientRecord): string { r.clientId }

  function OrNone(a: Option<Authorization>): Authorization { if a.Some? then a.value else NO_GRANTS }

  /** What a client may do that was given this authorization, or none. */
  predicate Given(held: Authorization, a: Option<Authorization>) {
    match a
    case None => !held.controlPlane && held.grants == []
    case Some(given) => held == given
  }

  /** The specification: the secret and the current authorization of every client not removed. */
  datatype Credential = Credential(secret: string, authorization: Authorization)
  type Credentials = map<string, Credential>

  datatype Work = NoWork

  type ClientState = Service<seq<ClientRecord>, seq<Entry<ClientRecord>>, Credentials, Work>

  const NO_CLIENT_STATE: ClientState := Service(Files(None, []), Down, map[])

  datatype ClientAction =
    | Boot
    | Register(id: string, secret: string, displayName: Option<string>, authorization: Option<Authorization>)
    | RemoveClient(id: string)
    | SetAuthorization(id: string, authorization: Option<Authorization>)
    | Save

  /** Removing or updating an unknown client changes and saves nothing, so it is not a step. */
  predicate Enabled(sv: ClientState, a: ClientAction) {
    match a
    case Boot => sv.proc.Down? && LiveWhole(sv.files)
    case Register(_, _, _, _) => IsIdle(sv)
    case RemoveClient(id) => IsIdle(sv) && Get(sv.proc.mem, id).Some?
    case SetAuthorization(id, _) => IsIdle(sv) && Get(sv.proc.mem, id).Some?
    case Save => IsSaving(sv) && Ready(sv.files, sv.proc.stage.phase)
  }

  function NewClient(id: string, secret: string, displayName: Option<string>,
                     authorization: Option<Authorization>, now: int): ClientRecord
  {
    ClientRecord(id, displayName, IdealHash(secret), OrNone(authorization), true, now)
  }

  /** The record a registration leaves, field by field. */
  predicate Registered(r: ClientRecord, id: string, secret: string, displayName: Option<string>,
                       authorization: Option<Authorization>, now: int)
  {
    && r.clientId == id && r.displayName == displayName && r.secretHash == IdealHash(secret)
    && Given(r.authorization, authorization) && r.enabled && r.createdAt == now
  }

  /** The record an update of the authorization leaves: the old one in every other field. */
  predicate Updated(r: ClientRecord, before: ClientRecord, authorization: Option<Authorization>) {
    && r.clientId == before.clientId && r.displayName == before.displayName && r.secretHash == before.secretHash
    && Given(r.authorization, authorization) && r.enabled == before.enabled && r.createdAt == before.createdAt
  }

  function Apply(sv: ClientState, a: ClientAction, now: int): ClientState
    requires Enabled(sv, a)
  {
    match a
    case Boot =>
      var loaded := if sv.files.live.Some? then Load(sv.files.live.value.doc, IdOf) else [];
      sv.(proc := Up(loaded, sv.committed, Idle))
    case Register(id, secret, displayName, authorization) =>
      sv.(proc := Up(Put(sv.proc.mem, id, NewClient(id, secret, displayName, authorization, now)),
                     sv.proc.pending[id := Credential(secret, OrNone(authorization))], Saving(NeedTemp)))
    case RemoveClient(id) =>
      sv.(proc := Up(Remove(sv.proc.mem, id), sv.proc.pending - {id}, Saving(NeedTemp)))
    case SetAuthorization(id, authorization) =>
      var updated := Get(sv.proc.mem, id).value.(authorization := OrNone(authorization));
      var secret := if id in sv.proc.pending then sv.proc.pending[id].secret else "";
      sv.(proc := Up(Put(sv.proc.mem, id, updated),
                     sv.proc.pending[id := Credential(secret, OrNone(authorization))], Saving(NeedTemp)))
    case Save => SaveStep(sv, Values(sv.proc.mem))
  }

  /** `authenticate`: the record, when the client exists, is enabled, and the secret matches. */
  function Authenticate(m: seq<Entry<ClientRecord>>, id: Option<string>, secret: string): Option<ClientRecord> {
    var record := if id == None then None else Get(m, id.value);
    if record.Some? && record.value.enabled && VerifySecret(secret, record.value.secretHash)
    then record else None
  }

  // ---- Memory and file refine the credential history ----

  predicate Matches(r: ClientRecord, c: Credential) {
    r.enabled && r.secretHash == IdealHash(c.secret) && r.authorization == c.authorization
  }

  ghost predicate Refines(m: seq<Entry<ClientRecord>>, creds: Credentials) {
    && Valid(m, IdOf)
    && forall id {:trigger Get(m, id)} ::
         && (Get(m, id).Some? <==> id in creds)
         && (Get(m, id).Some? ==> Matches(Get(m, id).value, creds[id]))
  }

  function Reloaded(files: Files<seq<ClientRecord>>): seq<Entry<ClientRecord>>
    requires LiveWhole(files)
  {
    if files.live.Some? then Load(files.live.value.doc, IdOf) else []
  }

  ghost predicate Inv(sv: ClientState) {
    && LiveWhole(sv.files)
    && Refines(Reloaded(sv.files), sv.committed)
    && (sv.proc.Up? ==>
          && !sv.proc.stage.Working?
          && Refines(sv.proc.mem, sv.proc.pending)
          && (sv.proc.stage.Saving? ==> SaveInv(sv.files, sv.proc.stage.phase, Values(sv.proc.mem)))
          && (sv.proc.stage == Idle || sv.proc.stage == Saving(NeedDelete) ==>
                sv.proc.pending == sv.committed && sv.proc.mem == Reloaded(sv.files)))
  }

  lemma PutRefines(m: seq<Entry<ClientRecord>>, creds: Credentials, r: ClientRecord, c: Credential)
    requires Refines(m, creds) && Matches(r, c)
    ensures Refines(Put(m, r.clientId, r), creds[r.clientId := c])
  {
    PutValid(m, IdOf, r.clientId, r);
    forall id { GetPut(m, r.clientId, r, id); }
  }

  lemma RemoveRefines(m: seq<Entry<ClientRecord>>, creds: Credentials, removed: string)
    requires Refines(m, creds)
    ensures Refines(Remove(m, removed), creds - {removed})
  {
    forall id { RemoveKeys(m, IdOf, removed, id); }
    RemoveValid(m, IdOf, removed);
  }

  lemma StepKeepsInv(sv: ClientState, a: ClientAction, now: int)
    requires Inv(sv) && Enabled(sv, a)
    ensures Inv(Apply(sv, a, now))
  {
    match a
    case Boot =>
    case Register(id, secret, displayName, authorization) =>
      PutRefines(sv.proc.mem, sv.proc.pending, NewClient(id, secret, displayName, authorization, now),
                 Credential(secret, OrNone(authorization)));
    case RemoveClient(id) => RemoveRefines(sv.proc.mem, sv.proc.pending, id);
    case SetAuthorization(id, authorization) =>
      GetValue(sv.proc.mem, IdOf, id);
      PutRefines(sv.proc.mem, sv.proc.pending, Get(sv.proc.mem, id).value.(authorization := OrNone(authorization)),
                 Credential(sv.proc.pending[id].secret, OrNone(authorization)));
    case Save =>
      SaveIsAtomic(sv.files, sv.proc.stage.phase, Values(sv.proc.mem));
      LoadValues(sv.proc.mem, IdOf);
  }

  /**
   * A client authenticates exactly with the secret of its registration, unless it was removed since,
   * and its record carries the authorization last given to it.
   */
  lemma AuthenticationRefinesCredentials(sv: ClientState, id: string, secret: string)
    requires Inv(sv) && IsIdle(sv)
    ensures var r := Authenticate(sv.proc.mem, Some(id), secret);
      && (r.Some? <==> id in sv.committed && sv.committed[id].secret == secret)
      && (r.Some? ==> r.value.clientId == id && r.value.authorization == sv.committed[id].authorization)
  {
    if Get(sv.proc.mem, id).Some? {
      GetValue(sv.proc.mem, IdOf, id);
    }
  }

  /** A crash and a restart while no call is saving change nothing, not even the order of the clients. */
  lemma RestartChangesNothing(sv: ClientState, now: int)
    requires Inv(sv) && IsIdle(sv)
    ensures Enabled(Crashed(sv), Boot) && Apply(Crashed(sv), Boot, now) == sv
  {
  }

  /** A disabled client does not authenticate, and an enabled one does with its secret only. */
  lemma AuthenticateExactly(m: seq<Entry<ClientRecord>>, id: Option<string>, secret: string, r: ClientRecord)
    ensures Authenticate(m, id, secret) == Some(r) <==>
      id.Some? && Get(m, id.value) == Some(r) && r.enabled && r.secretHash == IdealHash(secret)
  {
  }

  // ---- A change stays ----

  /** The steps that change what the registry holds of this client. */
  predicate Changes(a: ClientAction, id: string) {
    match a
    case Register(other, _, _, _) => other == id
    case RemoveClient(other) => other == id
    case SetAuthorization(other, _) => other == id
    case _ => false
  }

  function CredentialOf(creds: Credentials, id: string): Option<Credential> {
    if id in creds then Some(creds[id]) else None
  }

  /** File and memory agree that this is what the registry holds of the client. */
  ghost predicate Holds(sv: ClientState, id: string, held: Option<Credential>) {
    && CredentialOf(sv.committed, id) == held
    && (sv.proc.Up? ==> CredentialOf(sv.proc.pending, id) == held)
  }

  /** Other steps leave it alone, in memory's history and in the file's. */
  lemma StepKeepsOthers(sv: ClientState, a: ClientAction, now: int, id: string)
    requires Enabled(sv, a) && !Changes(a, id)
    ensures var sv' := Apply(sv, a, now);
      && (sv.proc.Up? ==> sv'.proc.Up? && CredentialOf(sv'.proc.pending, id) == CredentialOf(sv.proc.pending, id))
      && forall held :: Holds(sv, id, held) ==> Holds(sv', id, held)
  {
  }

  /** This client's secret is among these credentials. */
  predicate HasSecret(creds: Credentials, id: string, secret: string) {
    id in creds && creds[id].secret == secret
  }

  /** The registry has, or is about to have, this secret for the client. */
  predicate Knows(sv: ClientState, id: string, secret: string) {
    HasSecret(sv.committed, id, secret) || (sv.proc.Up? && HasSecret(sv.proc.pending, id, secret))
  }

  /** No step gives a client a secret but its registration. */
  lemma SecretsComeFrom(sv: ClientState, a: ClientAction, now: int, id: string, secret: string)
    requires Inv(sv) && Enabled(sv, a) && Knows(Apply(sv, a, now), id, secret)
    ensures Knows(sv, id, secret) || (a.Register? && a.id == id && a.secret == secret)
  {
  }

  /** Run without interference, a change of the registry leaves what the sequential method leaves. */
  lemma UndisturbedChange(sv: ClientState, a: ClientAction, now: int)
    requires IsIdle(sv) && (a.Register? || a.RemoveClient? || a.SetAuthorization?)
    requires !a.Register? ==> Get(sv.proc.mem, a.id).Some?
    ensures Enabled(sv, a)
    ensures
      var s1 := Apply(sv, a, now);
      && IsSaving(s1) && s1.proc.stage.phase == NeedTemp
      && var s := Saved(s1, Values(s1.proc.mem));
      && IsIdle(s) && s.files == sv.files.(live := Some(Whole(Values(s.proc.mem)))) && s.committed == s1.proc.pending
      && match a
         case Register(id, secret, displayName, authorization) =>
           exists r ::
             s.proc.mem == Put(sv.proc.mem, id, r) && Registered(r, id, secret, displayName, authorization, now)
         case RemoveClient(id) => s.proc.mem == Remove(sv.proc.mem, id)
         case SetAuthorization(id, authorization) =>
           exists r ::
             s.proc.mem == Put(sv.proc.mem, id, r) && Updated(r, Get(sv.proc.mem, id).value, authorization)
         case _ => false
  {
    if a.Register? {
      assert Registered(NewClient(a.id, a.secret, a.displayName, a.authorization, now), a.id, a.secret,
                        a.displayName, a.authorization, now);
    } else if a.SetAuthorization? {
      var before := Get(sv.proc.mem, a.id).value;
      assert Updated(before.(authorization := OrNone(a.authorization)), before, a.authorization);
    }
    var s1 := Apply(sv, a, now);
    SavedIsCommitted(s1, Values(s1.proc.mem));
  }
}
