/** The revocation denylist: its records, and the service as a machine over its file. */
module Revocations {
  import opened Options
  import opened Text
  import opened JsonStores
  import opened Persistence
  import opened LinkedMap

  datatype Revocation = Revocation(jti: string, revokedAt: int, expiresAt: int, reason: Option<string>)

  function JtiOf(r: Revocation): string { r.jti }

  /** What a prune at this time keeps. */
  function Alive(now: int): Revocation -> bool { (r: Revocation) => r.expiresAt >= now }

  function Prune(m: seq<Entry<Revocation>>, now: int): seq<Entry<Revocation>> { Keep(m, Alive(now)) }

  /** The specification: the horizon given with the last accepted revoke of each id. */
  type Latest = map<string, int>

  ghost predicate Denied(latest: Latest, jti: string, now: int) { jti in latest && latest[jti] >= now }

  datatype Work = NeedsPrune

  type RevocationState = Service<seq<Revocation>, seq<Entry<Revocation>>, Latest, Work>

  const NO_REVOCATION_STATE: RevocationState := Service(Files(None, []), Down, map[])

  datatype RevAction =
    | Boot                                                      // construct the service over its file
    | Record(jti: string, expiresAt: int, reason: Option<string>) // revoke: read the clock, put
    | PruneRecorded                                             // revoke: read the clock, prune
    | Save                                                      // one step of persist
    | Read                                                      // isRevoked or activeDenylist

  predicate Enabled(sv: RevocationState, a: RevAction) {
    match a
    case Boot => sv.proc.Down? && LiveWhole(sv.files)
    case Record(jti, _, _) => IsIdle(sv) && !IsBlank(jti)
    case PruneRecorded => sv.proc.Up? && sv.proc.stage.Working?
    case Save => IsSaving(sv) && Ready(sv.files, sv.proc.stage.phase)
    case Read => IsIdle(sv)
  }

  function Apply(sv: RevocationState, a: RevAction, now: int): RevocationState
    requires Enabled(sv, a)
  {
    match a
    case Boot =>
      var loaded := if sv.files.live.Some? then Load(sv.files.live.value.doc, JtiOf) else [];
      sv.(proc := Up(loaded, sv.committed, Idle))
    case Record(jti, expiresAt, reason) =>
      var p := sv.proc;
      sv.(proc := Up(Put(p.mem, jti, Revocation(jti, now, expiresAt, reason)), p.pending[jti := expiresAt],
                     Working(NeedsPrune)))
    case PruneRecorded =>
      sv.(proc := sv.proc.(mem := Prune(sv.proc.mem, now), stage := Saving(NeedTemp)))
    case Save => SaveStep(sv, Values(sv.proc.mem))
    case Read => sv.(proc := sv.proc.(mem := Prune(sv.proc.mem, now)))
  }

  /** What `isRevoked` answers, and what a polled list holds. */
  predicate IsRevoked(sv: RevocationState, jti: string, now: int)
    requires IsIdle(sv)
  {
    Get(Prune(sv.proc.mem, now), jti).Some?
  }

  // ---- Memory and file refine the specification ----

  /** Entries agree with the specification; only what is past its horizon may be missing. */
  ghost predicate Refines(m: seq<Entry<Revocation>>, latest: Latest, now: int) {
    && Valid(m, JtiOf)
    && forall jti {:trigger Get(m, jti)} ::
         && (Get(m, jti).Some? ==> jti in latest && latest[jti] == Get(m, jti).value.expiresAt)
         && (jti in latest && latest[jti] >= now ==> Get(m, jti).Some?)
  }

  ghost predicate Inv(sv: RevocationState, now: int) {
    && (match sv.files.live
        case None => sv.committed == map[]
        case Some(Torn) => false
        case Some(Whole(doc)) => Refines(Load(doc, JtiOf), sv.committed, now))
    && (sv.proc.Up? ==>
          && Refines(sv.proc.mem, sv.proc.pending, now)
          && (sv.proc.stage.Saving? ==> SaveInv(sv.files, sv.proc.stage.phase, Values(sv.proc.mem)))
          && (sv.proc.stage == Idle || sv.proc.stage == Saving(NeedDelete) ==> sv.proc.pending == sv.committed))
  }

  lemma PutRefines(m: seq<Entry<Revocation>>, latest: Latest, r: Revocation, now: int)
    requires Refines(m, latest, now)
    ensures Refines(Put(m, r.jti, r), latest[r.jti := r.expiresAt], now)
  {
    PutValid(m, JtiOf, r.jti, r);
    forall jti { GetPut(m, r.jti, r, jti); }
  }

  lemma PruneRefines(m: seq<Entry<Revocation>>, latest: Latest, now: int)
    requires Refines(m, latest, now)
    ensures Refines(Prune(m, now), latest, now)
    ensures forall jti {:trigger Get(Prune(m, now), jti)} :: Get(Prune(m, now), jti).Some? <==> Denied(latest, jti, now)
  {
    KeepValid(m, JtiOf, Alive(now));
    forall jti
      ensures Get(Prune(m, now), jti)
           == if Get(m, jti).Some? && Get(m, jti).value.expiresAt >= now then Get(m, jti) else None
    {
      KeepKeys(m, JtiOf, Alive(now), jti);
    }
  }

  lemma TickKeepsInv(sv: RevocationState, now: int, later: int)
    requires Inv(sv, now) && now <= later
    ensures Inv(sv, later)
  {
  }

  lemma StepKeepsInv(sv: RevocationState, a: RevAction, now: int)
    requires Inv(sv, now) && Enabled(sv, a)
    ensures Inv(Apply(sv, a, now), now)
  {
    match a
    case Boot =>
    case Record(jti, expiresAt, reason) =>
      PutRefines(sv.proc.mem, sv.proc.pending, Revocation(jti, now, expiresAt, reason), now);
    case PruneRecorded => PruneRefines(sv.proc.mem, sv.proc.pending, now);
    case Save =>
      SaveIsAtomic(sv.files, sv.proc.stage.phase, Values(sv.proc.mem));
      LoadValues(sv.proc.mem, JtiOf);
    case Read => PruneRefines(sv.proc.mem, sv.proc.pending, now);
  }

  /**
   * However reads, prunes and restarts interleave, an id is denied exactly when the last accepted
   * revoke of it has not passed its horizon.
   */
  lemma DenylistRefinesLatest(sv: RevocationState, jti: string, now: int)
    requires Inv(sv, now) && IsIdle(sv)
    ensures IsRevoked(sv, jti, now) <==> Denied(sv.committed, jti, now)
  {
    PruneRefines(sv.proc.mem, sv.proc.pending, now);
  }

  /** A read prunes memory and touches nothing else; a start loads the file. */
  lemma UndisturbedRead(sv: RevocationState, now: int)
    ensures IsIdle(sv) ==> Enabled(sv, Read)
    ensures IsIdle(sv) ==> var s := Apply(sv, Read, now);
      && IsIdle(s) && s.proc.mem == Prune(sv.proc.mem, now) && s.proc.pending == sv.proc.pending
      && s.files == sv.files && s.committed == sv.committed
    ensures sv.proc.Down? && LiveWhole(sv.files) ==> Enabled(sv, Boot)
    ensures sv.proc.Down? && LiveWhole(sv.files) ==> var s := Apply(sv, Boot, now);
      && IsIdle(s) && s.files == sv.files && s.committed == sv.committed
      && s.proc.mem == if sv.files.live.Some? then Load(sv.files.live.value.doc, JtiOf) else []
  {
  }

  /** Run without interference, the machine's revoke leaves what the sequential method leaves. */
  lemma UndisturbedRevoke(sv: RevocationState, jti: string, expiresAt: int, reason: Option<string>,
                          now: int, later: int)
    requires IsIdle(sv) && !IsBlank(jti)
    ensures Enabled(sv, Record(jti, expiresAt, reason))
    ensures
      var s1 := Apply(sv, Record(jti, expiresAt, reason), now);
      && Enabled(s1, PruneRecorded)
      && var s2 := Apply(s1, PruneRecorded, later);
      && IsSaving(s2) && s2.proc.stage.phase == NeedTemp
      && var s := Saved(s2, Values(s2.proc.mem));
      && IsIdle(s) && s.proc.mem == Prune(Put(sv.proc.mem, jti, Revocation(jti, now, expiresAt, reason)), later)
      && s.files == sv.files.(live := Some(Whole(Values(s.proc.mem))))
      && s.committed == sv.proc.pending[jti := expiresAt]
  {
    var s2 := Apply(Apply(sv, Record(jti, expiresAt, reason), now), PruneRecorded, later);
    SavedIsCommitted(s2, Values(s2.proc.mem));
  }

  // ---- A revocation stays ----

  /** The last accepted revoke of this id, and one in the making, reach at least this far. */
  ghost predicate RevokedUntil(sv: RevocationState, jti: string, horizon: int) {
    && jti in sv.committed && sv.committed[jti] >= horizon
    && (sv.proc.Up? ==> Pending(sv, jti, horizon))
  }

  predicate Revokes(a: RevAction, jti: string) { a.Record? && a.jti == jti }

  function HorizonOf(latest: Latest, jti: string): Option<int> {
    if jti in latest then Some(latest[jti]) else None
  }

  /** File and memory agree that this is the horizon last recorded for the id. */
  ghost predicate Shows(sv: RevocationState, jti: string, horizon: Option<int>) {
    && HorizonOf(sv.committed, jti) == horizon
    && (sv.proc.Up? ==> HorizonOf(sv.proc.pending, jti) == horizon)
  }

  /** Steps that are no revoke of this id leave it alone, in memory's history and in the file's. */
  lemma StepKeepsOthers(sv: RevocationState, a: RevAction, now: int, jti: string)
    requires Enabled(sv, a) && !Revokes(a, jti)
    ensures var sv' := Apply(sv, a, now);
      && (sv.proc.Up? ==> sv'.proc.Up? && HorizonOf(sv'.proc.pending, jti) == HorizonOf(sv.proc.pending, jti))
      && forall horizon :: Shows(sv, jti, horizon) ==> Shows(sv', jti, horizon)
  {
  }

  /** Memory's history reaches at least this far. */
  ghost predicate Pending(sv: RevocationState, jti: string, horizon: int) {
    sv.proc.Up? && jti in sv.proc.pending && sv.proc.pending[jti] >= horizon
  }

  lemma StepKeepsPending(sv: RevocationState, a: RevAction, now: int, jti: string, horizon: int)
    requires Enabled(sv, a) && Pending(sv, jti, horizon) && !Lowers(a, jti, horizon)
    ensures Pending(Apply(sv, a, now), jti, horizon)
  {
  }

  /** Only a later revoke of the same id with a nearer horizon takes a revocation back. */
  predicate Lowers(a: RevAction, jti: string, horizon: int) {
    a.Record? && a.jti == jti && a.expiresAt < horizon
  }

  lemma StepKeepsRevoked(sv: RevocationState, a: RevAction, now: int, jti: string, horizon: int)
    requires Enabled(sv, a) && RevokedUntil(sv, jti, horizon) && !Lowers(a, jti, horizon)
    ensures RevokedUntil(Apply(sv, a, now), jti, horizon)
  {
  }
}
