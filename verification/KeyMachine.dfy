/** The signing-key service as a machine: lock, clock reads, save steps, crashes and restarts. */
module KeyMachine {
  import opened Options
  import opened Ed25519Keys
  import opened JsonStores
  import opened Persistence
  import opened SigningKeys

  /** Every key ever committed, in creation order, and the clock reads its rotations retired at. */
  datatype History = History(records: seq<KeyRecord>, rotations: seq<int>)

  /** What a call still has to do before it saves. */
  datatype Work = BootNeedsKey | RotateNeedsKey | RotateNeedsPrune

  type KeyState = Service<KeyDoc, KeyDoc, History, Work>

  const NO_KEY_STATE: KeyState := Service(Files(None, []), Down, History([], []))

  datatype KeyAction =
    | Boot                                    // construct the service over its file
    | BeginRotation                           // rotate: read the clock, retire the active key
    | Generate(kid: string, pair: PrivateKey) // generateActive: read the clock, append the new key
    | PruneRetired                            // rotate: read the clock, prune
    | Save                                    // one step of persist
    | ServeJwks                               // jwkSet: read the clock, prune, publish

  /** Generated ids are fresh and generated keys are well-formed: hypotheses on the random source. */
  predicate Enabled(sv: KeyState, a: KeyAction) {
    match a
    case Boot => sv.proc.Down? && LiveWhole(sv.files)
    case BeginRotation => IsIdle(sv)
    case Generate(kid, pair) =>
      && sv.proc.Up? && sv.proc.stage.Working? && sv.proc.stage.work != RotateNeedsPrune
      && IsSpki(pair.publicSpki) && !KnownKid(sv.proc.pending.records, kid)
    case PruneRetired => sv.proc.Up? && sv.proc.stage == Working(RotateNeedsPrune)
    case Save => IsSaving(sv) && Ready(sv.files, sv.proc.stage.phase)
    case ServeJwks => IsIdle(sv)
  }

  function Loaded(files: Files<KeyDoc>): KeyDoc
    requires LiveWhole(files)
  {
    if files.live.Some? then files.live.value.doc else NO_KEYS
  }

  function Apply(sv: KeyState, a: KeyAction, now: int, retention: int): KeyState
    requires Enabled(sv, a)
  {
    match a
    case Boot =>
      var doc := Loaded(sv.files);
      var stage := if FindActive(doc.keys, doc.activeKid) == None then Working(BootNeedsKey) else Idle;
      sv.(proc := Up(doc, sv.committed, stage))
    case BeginRotation =>
      var p := sv.proc;
      sv.(proc := Up(p.mem.(keys := RetireActive(p.mem.keys, now)),
                     History(RetireActive(p.pending.records, now), p.pending.rotations + [now]),
                     Working(RotateNeedsKey)))
    case Generate(kid, pair) =>
      var p := sv.proc;
      sv.(proc := Up(GenerateActive(p.mem, kid, pair, now),
                     p.pending.(records := p.pending.records + [NewKey(kid, pair, now)]),
                     if p.stage.work == BootNeedsKey then Saving(NeedTemp) else Working(RotateNeedsPrune)))
    case PruneRetired =>
      var p := sv.proc;
      sv.(proc := p.(mem := p.mem.(keys := Prune(p.mem.keys, now - retention)), stage := Saving(NeedTemp)))
    case Save => SaveStep(sv, sv.proc.mem)
    case ServeJwks =>
      sv.(proc := sv.proc.(mem := sv.proc.mem.(keys := Prune(sv.proc.mem.keys, now - retention))))
  }

  /** The keys `jwkSet` answers with, before they are put in JWK form. */
  function ServedKeys(sv: KeyState, now: int, retention: int): seq<KeyRecord>
    requires IsIdle(sv)
  {
    Prune(sv.proc.mem.keys, now - retention)
  }

  // ---- The shape of a key history ----

  ghost predicate RecordOk(r: KeyRecord, now: int) {
    && r.createdAt <= now
    && (r.active <==> r.retiredAt.None?)
    && (r.retiredAt.Some? ==> r.createdAt <= r.retiredAt.value <= now)
    && IsSpki(r.publicSpki) && r.privateKey == PrivateKey(r.publicSpki)
  }

  /** Another id, and retired by the time the other was created. */
  ghost predicate Precedes(a: KeyRecord, b: KeyRecord) {
    a.kid != b.kid && a.retiredAt.Some? && a.retiredAt.value <= b.createdAt
  }

  /** Distinct ids, and each key retired before the next was created. */
  ghost predicate Ordered(records: seq<KeyRecord>, now: int) {
    && (forall i {:trigger RecordOk(records[i], now)} :: 0 <= i < |records| ==> RecordOk(records[i], now))
    && forall i, j {:trigger Precedes(records[i], records[j])} ::
         0 <= i < j < |records| ==> Precedes(records[i], records[j])
  }

  function Last(records: seq<KeyRecord>): KeyRecord
    requires records != []
  {
    records[|records| - 1]
  }

  /** The one active key is the last; the others were retired by the recorded rotations. */
  ghost predicate HistoryOk(h: History, now: int) {
    && Ordered(h.records, now)
    && (h.records != [] ==> Last(h.records).active)
    && |h.rotations| == (if h.records == [] then 0 else |h.records| - 1)
    && forall i :: 0 <= i < |h.rotations| ==> h.records[i].retiredAt == Some(h.rotations[i])
  }

  /** `keys` is what is left of `records` after dropping a prefix, all of it expired. */
  ghost predicate Retained(keys: seq<KeyRecord>, records: seq<KeyRecord>, cutoff: int) {
    && |keys| <= |records|
    && keys == records[|records| - |keys|..]
    && forall i {:trigger Expired(records[i], cutoff)} :: 0 <= i < |records| - |keys| ==> Expired(records[i], cutoff)
  }

  ghost predicate DocOk(doc: KeyDoc, records: seq<KeyRecord>, cutoff: int) {
    && doc.keys != [] && Retained(doc.keys, records, cutoff)
    && doc.activeKid == Some(Last(records).kid)
  }

  /** A rotation under way has retired the committed active key at its first clock read. */
  ghost predicate Retiring(c: History, p: History, now: int) {
    && c.records != []
    && |p.rotations| == |c.rotations| + 1
    && var time := p.rotations[|c.rotations|];
       && p == History(RetireActive(c.records, time), c.rotations + [time])
       && Last(c.records).createdAt <= time <= now
  }

  /** A first key, or a rotation that has created its new key. */
  ghost predicate Extended(c: History, p: History, now: int) {
    && HistoryOk(p, now)
    && |p.records| == |c.records| + 1
    && if c.records == [] then p.rotations == []
       else
         && |p.rotations| == |c.rotations| + 1
         && var time := p.rotations[|c.rotations|];
            && p.rotations == c.rotations + [time]
            && p.records[..|c.records|] == RetireActive(c.records, time)
  }

  ghost predicate LiveInv(sv: KeyState, cutoff: int) {
    match sv.files.live
    case None => sv.committed.records == []
    case Some(Torn) => false
    case Some(Whole(doc)) => sv.committed.records != [] && DocOk(doc, sv.committed.records, cutoff)
  }

  ghost predicate ProcInv(sv: KeyState, now: int, cutoff: int) {
    sv.proc.Up? ==>
      var c, p, mem := sv.committed, sv.proc.pending, sv.proc.mem;
      match sv.proc.stage
      case Idle => p == c && c.records != [] && DocOk(mem, c.records, cutoff)
      case Working(BootNeedsKey) => p == c && c.records == [] && mem == NO_KEYS
      case Working(RotateNeedsKey) =>
        Retiring(c, p, now) && mem.keys != [] && Retained(mem.keys, p.records, cutoff)
      case Working(RotateNeedsPrune) => Extended(c, p, now) && DocOk(mem, p.records, cutoff)
      case Saving(phase) =>
        && SaveInv(sv.files, phase, mem)
        && DocOk(mem, p.records, cutoff)
        && if phase == NeedDelete then p == c && c.records != [] else Extended(c, p, now)
  }

  ghost predicate Inv(sv: KeyState, now: int, retention: int) {
    && HistoryOk(sv.committed, now)
    && LiveInv(sv, now - retention)
    && ProcInv(sv, now, now - retention)
  }

  // ---- Pruning drops a prefix ----

  lemma ExpiredEarlier(records: seq<KeyRecord>, now: int, i: nat, j: nat, cutoff: int)
    requires Ordered(records, now) && i < j < |records|
    ensures Expired(records[j], cutoff) ==> Expired(records[i], cutoff)
  {
    assert RecordOk(records[i], now) && RecordOk(records[j], now) && Precedes(records[i], records[j]);
  }

  /** Dropping more by a later clock: the result is a suffix of the history, and all of it that is fresh. */
  lemma {:induction false} PruneRetains(keys: seq<KeyRecord>, records: seq<KeyRecord>, now: int, cutoff: int)
    requires Ordered(records, now) && Retained(keys, records, cutoff)
    ensures Retained(Prune(keys, cutoff), records, cutoff)
    ensures Prune(keys, cutoff) == Prune(records, cutoff)
    decreases |keys|
  {
    if keys != [] && Expired(keys[0], cutoff) {
      RetainedTail(keys, records, cutoff);
      PruneRetains(keys[1..], records, now, cutoff);
    } else {
      FreshSuffix(keys, records, now, cutoff);
      PruneFresh(keys, cutoff);
      var dropped := SplitRetained(keys, records, cutoff);
      PruneExpiredPrefix(dropped, keys, cutoff);
    }
  }

  lemma RetainedTail(keys: seq<KeyRecord>, records: seq<KeyRecord>, cutoff: int)
    requires keys != [] && Retained(keys, records, cutoff) && Expired(keys[0], cutoff)
    ensures Retained(keys[1..], records, cutoff)
  {
    var d := |records| - |keys|;
    assert keys[0] == records[d];
    assert keys[1..] == records[d + 1..];
  }

  lemma FreshSuffix(keys: seq<KeyRecord>, records: seq<KeyRecord>, now: int, cutoff: int)
    requires Ordered(records, now) && Retained(keys, records, cutoff)
    requires keys == [] || !Expired(keys[0], cutoff)
    ensures forall i :: 0 <= i < |keys| ==> !Expired(keys[i], cutoff)
  {
    var d := |records| - |keys|;
    forall i | 0 <= i < |keys| ensures !Expired(keys[i], cutoff) {
      assert keys[0] == records[d] && keys[i] == records[d + i];
      if i > 0 {
        ExpiredEarlier(records, now, d, d + i, cutoff);
      }
    }
  }

  lemma SplitRetained(keys: seq<KeyRecord>, records: seq<KeyRecord>, cutoff: int) returns (dropped: seq<KeyRecord>)
    requires Retained(keys, records, cutoff)
    ensures records == dropped + keys && forall i :: 0 <= i < |dropped| ==> Expired(dropped[i], cutoff)
  {
    var d := |records| - |keys|;
    dropped := records[..d];
    forall i | 0 <= i < d ensures Expired(dropped[i], cutoff) {
      assert Expired(records[i], cutoff);
    }
    assert records == records[..d] + records[d..];
  }

  lemma PruneExpiredPrefix(dropped: seq<KeyRecord>, keys: seq<KeyRecord>, cutoff: int)
    requires forall i :: 0 <= i < |dropped| ==> Expired(dropped[i], cutoff)
    ensures Prune(dropped + keys, cutoff) == Prune(keys, cutoff)
  {
    PruneExpired(dropped, cutoff);
    PruneAppend(dropped, keys, cutoff);
  }

  /** The active key survives every prune. */
  lemma PruneKeepsLast(keys: seq<KeyRecord>, records: seq<KeyRecord>, now: int, cutoff: int)
    requires Ordered(records, now) && keys != [] && Retained(keys, records, cutoff)
    requires Last(records).active
    ensures Prune(keys, cutoff) != []
  {
    PruneMembers(keys, cutoff, Last(records));
    assert Last(keys) == Last(records);
  }

  lemma ActiveIsLast(doc: KeyDoc, records: seq<KeyRecord>, now: int, cutoff: int)
    requires Ordered(records, now) && records != [] && Last(records).active && DocOk(doc, records, cutoff)
    ensures FindActive(doc.keys, doc.activeKid) == Some(Last(records))
  {
    var n := |doc.keys| - 1;
    forall i | 0 <= i < n ensures !doc.keys[..n][i].active {
      var k := |records| - |doc.keys| + i;
      assert doc.keys[i] == records[k];
      assert RecordOk(records[k], now) && Precedes(records[k], Last(records));
    }
    NoneActive(doc.keys[..n]);
    FindActiveAppend(doc.keys[..n], [doc.keys[n]], doc.activeKid);
    assert doc.keys == doc.keys[..n] + [doc.keys[n]];
  }

  // ---- Each step keeps the invariant ----

  lemma OrderedLater(records: seq<KeyRecord>, now: int, later: int)
    requires Ordered(records, now) && now <= later
    ensures Ordered(records, later)
  {
    forall i | 0 <= i < |records| ensures RecordOk(records[i], later) {
      assert RecordOk(records[i], now);
    }
  }

  lemma HistoryLater(h: History, now: int, later: int)
    requires HistoryOk(h, now) && now <= later
    ensures HistoryOk(h, later)
  {
    OrderedLater(h.records, now, later);
  }

  lemma ExtendedLater(c: History, p: History, now: int, later: int)
    requires now <= later
    ensures Extended(c, p, now) ==> Extended(c, p, later)
  {
    if Extended(c, p, now) {
      HistoryLater(p, now, later);
    }
  }

  /** What expired stays expired. */
  lemma RetainedLater(keys: seq<KeyRecord>, records: seq<KeyRecord>, cutoff: int, later: int)
    requires cutoff <= later
    ensures Retained(keys, records, cutoff) ==> Retained(keys, records, later)
  {
    if Retained(keys, records, cutoff) {
      forall i | 0 <= i < |records| - |keys| ensures Expired(records[i], later) {
        assert Expired(records[i], cutoff);
      }
    }
  }

  lemma LiveLater(sv: KeyState, cutoff: int, later: int)
    requires LiveInv(sv, cutoff) && cutoff <= later
    ensures LiveInv(sv, later)
  {
    if sv.files.live.Some? {
      RetainedLater(sv.files.live.value.doc.keys, sv.committed.records, cutoff, later);
    }
  }

  lemma ProcLater(sv: KeyState, now: int, later: int, retention: int)
    requires ProcInv(sv, now, now - retention) && now <= later
    ensures ProcInv(sv, later, later - retention)
  {
    if sv.proc.Up? {
      ExtendedLater(sv.committed, sv.proc.pending, now, later);
      RetainedLater(sv.proc.mem.keys, sv.proc.pending.records, now - retention, later - retention);
    }
  }

  lemma TickKeepsInv(sv: KeyState, now: int, later: int, retention: int)
    requires Inv(sv, now, retention) && now <= later
    ensures Inv(sv, later, retention)
  {
    HistoryLater(sv.committed, now, later);
    LiveLater(sv, now - retention, later - retention);
    ProcLater(sv, now, later, retention);
  }

  /** Pruning keeps a document in order. */
  lemma PruneKeepsDoc(doc: KeyDoc, records: seq<KeyRecord>, now: int, cutoff: int)
    requires Ordered(records, now) && DocOk(doc, records, cutoff) && Last(records).active
    ensures DocOk(doc.(keys := Prune(doc.keys, cutoff)), records, cutoff)
  {
    PruneRetains(doc.keys, records, now, cutoff);
    PruneKeepsLast(doc.keys, records, now, cutoff);
  }

  lemma BootKeepsInv(sv: KeyState, now: int, retention: int)
    requires Inv(sv, now, retention) && Enabled(sv, Boot)
    ensures Inv(Apply(sv, Boot, now, retention), now, retention)
  {
    if sv.files.live.Some? {
      ActiveIsLast(sv.files.live.value.doc, sv.committed.records, now, now - retention);
    }
  }

  lemma RetireKeepsInv(sv: KeyState, now: int, retention: int)
    requires Inv(sv, now, retention) && Enabled(sv, BeginRotation)
    ensures Inv(Apply(sv, BeginRotation, now, retention), now, retention)
  {
    var sv' := Apply(sv, BeginRotation, now, retention);
    var keys, records := sv.proc.mem.keys, sv.committed.records;
    assert RecordOk(Last(records), now);
    assert sv'.proc.pending.rotations[|sv.committed.rotations|] == now;
    RetireRetains(keys, records, now, now - retention);
  }

  /** Retiring touches no expired key, so it keeps a suffix a suffix. */
  lemma RetireRetains(keys: seq<KeyRecord>, records: seq<KeyRecord>, time: int, cutoff: int)
    requires Retained(keys, records, cutoff)
    ensures Retained(RetireActive(keys, time), RetireActive(records, time), cutoff)
  {
    var d := |records| - |keys|;
    var keys', records' := RetireActive(keys, time), RetireActive(records, time);
    forall i | 0 <= i < |keys| ensures keys'[i] == records'[d..][i] {
      assert keys[i] == records[d + i];
    }
    assert keys' == records'[d..];
    forall i | 0 <= i < d ensures Expired(records'[i], cutoff) {
      assert Expired(records[i], cutoff);
    }
  }

  lemma GenerateFirst(sv: KeyState, kid: string, pair: PrivateKey, now: int, retention: int)
    requires Inv(sv, now, retention) && Enabled(sv, Generate(kid, pair))
    requires sv.proc.stage == Working(BootNeedsKey)
    ensures Inv(Apply(sv, Generate(kid, pair), now, retention), now, retention)
  {
  }

  lemma RetiredThenNew(c: History, p: History, kid: string, pair: PrivateKey, now: int)
    requires HistoryOk(c, now) && Retiring(c, p, now)
    requires IsSpki(pair.publicSpki) && !KnownKid(p.records, kid)
    ensures Extended(c, p.(records := p.records + [NewKey(kid, pair, now)]), now)
  {
    var q := p.(records := p.records + [NewKey(kid, pair, now)]);
    var n := |c.records|;
    forall i | 0 <= i < |q.records| ensures RecordOk(q.records[i], now) {
      assert i < n ==> RecordOk(c.records[i], now);
    }
    forall i, j | 0 <= i < j < |q.records| ensures Precedes(q.records[i], q.records[j]) {
      assert RecordOk(c.records[i], now);
      if j < n {
        assert Precedes(c.records[i], c.records[j]);
      } else {
        assert p.records[i].kid == q.records[i].kid;
        assert i < n - 1 ==> Precedes(c.records[i], c.records[n - 1]);
      }
    }
    forall i | 0 <= i < |q.rotations| ensures q.records[i].retiredAt == Some(q.rotations[i]) {
      assert RecordOk(c.records[i], now);
      if i < n - 1 {
        assert c.records[i].retiredAt == Some(c.rotations[i]);
      }
    }
    assert q.records[..n] == p.records;
  }

  lemma GenerateNext(sv: KeyState, kid: string, pair: PrivateKey, now: int, retention: int)
    requires Inv(sv, now, retention) && Enabled(sv, Generate(kid, pair))
    requires sv.proc.stage == Working(RotateNeedsKey)
    ensures Inv(Apply(sv, Generate(kid, pair), now, retention), now, retention)
  {
    var sv' := Apply(sv, Generate(kid, pair), now, retention);
    RetiredThenNew(sv.committed, sv.proc.pending, kid, pair, now);
    var keys, records := sv.proc.mem.keys, sv.proc.pending.records;
    var d := |records| - |keys|;
    assert sv'.proc.mem.keys == sv'.proc.pending.records[d..];
  }

  lemma PruneKeepsInv(sv: KeyState, now: int, retention: int)
    requires Inv(sv, now, retention) && Enabled(sv, PruneRetired)
    ensures Inv(Apply(sv, PruneRetired, now, retention), now, retention)
  {
    PruneKeepsDoc(sv.proc.mem, sv.proc.pending.records, now, now - retention);
  }

  lemma SaveKeepsInv(sv: KeyState, now: int, retention: int)
    requires Inv(sv, now, retention) && Enabled(sv, Save)
    ensures Inv(Apply(sv, Save, now, retention), now, retention)
  {
    if sv.proc.stage.phase == NeedMove {
      MoveKeepsInv(sv, now, retention);
    } else {
      OtherSaveKeepsInv(sv, now, retention);
    }
  }

  lemma MoveKeepsInv(sv: KeyState, now: int, retention: int)
    requires Inv(sv, now, retention) && Enabled(sv, Save) && sv.proc.stage.phase == NeedMove
    ensures Inv(Apply(sv, Save, now, retention), now, retention)
  {
    var sv' := Apply(sv, Save, now, retention);
    SaveIsAtomic(sv.files, NeedMove, sv.proc.mem);
    assert sv'.files.live == Some(Whole(sv.proc.mem)) && sv'.committed == sv.proc.pending;
    assert HistoryOk(sv'.committed, now);
    assert LiveInv(sv', now - retention);
  }

  lemma OtherSaveKeepsInv(sv: KeyState, now: int, retention: int)
    requires Inv(sv, now, retention) && Enabled(sv, Save) && sv.proc.stage.phase != NeedMove
    ensures Inv(Apply(sv, Save, now, retention), now, retention)
  {
    var sv' := Apply(sv, Save, now, retention);
    SaveIsAtomic(sv.files, sv.proc.stage.phase, sv.proc.mem);
    assert sv'.files.live == sv.files.live && sv'.committed == sv.committed;
    assert LiveInv(sv', now - retention);
  }

  lemma ServeKeepsInv(sv: KeyState, now: int, retention: int)
    requires Inv(sv, now, retention) && Enabled(sv, ServeJwks)
    ensures Inv(Apply(sv, ServeJwks, now, retention), now, retention)
  {
    PruneKeepsDoc(sv.proc.mem, sv.committed.records, now, now - retention);
  }

  /** Every step of the key service, at any clock reading, keeps the invariant. */
  lemma StepKeepsInv(sv: KeyState, a: KeyAction, now: int, retention: int)
    requires Inv(sv, now, retention) && Enabled(sv, a)
    ensures Inv(Apply(sv, a, now, retention), now, retention)
  {
    match a
    case Boot => BootKeepsInv(sv, now, retention);
    case BeginRotation => RetireKeepsInv(sv, now, retention);
    case Generate(kid, pair) =>
      if sv.proc.stage.work == BootNeedsKey {
        GenerateFirst(sv, kid, pair, now, retention);
      } else {
        GenerateNext(sv, kid, pair, now, retention);
      }
    case PruneRetired => PruneKeepsInv(sv, now, retention);
    case Save => SaveKeepsInv(sv, now, retention);
    case ServeJwks => ServeKeepsInv(sv, now, retention);
  }
}
