/** What the key machine's invariant means to a caller, a verifier and a restart. */
module KeyTheorems {
  import opened Options
  import opened Base64Url
  import opened Ed25519Keys
  import opened JsonStores
  import opened Persistence
  import opened SigningKeys
  import opened KeyMachine

  // ---- Lazy pruning is eager pruning ----

  /**
   * Whatever reads pruned memory, and whatever a restart brought back, the keys served now are the
   * whole creation history without the expired ones. Serving from the file would answer the same.
   */
  lemma LazyPruningIsEager(sv: KeyState, now: int, retention: int)
    requires Inv(sv, now, retention) && IsIdle(sv)
    ensures ServedKeys(sv, now, retention) == Prune(sv.committed.records, now - retention)
    ensures sv.files.live.Some? && sv.files.live.value.Whole?
    ensures Prune(sv.files.live.value.doc.keys, now - retention) == ServedKeys(sv, now, retention)
  {
    PruneRetains(sv.proc.mem.keys, sv.committed.records, now, now - retention);
    FileServesTheSame(sv, now, retention);
  }

  lemma LiveDocOk(sv: KeyState, now: int, retention: int)
    requires LiveInv(sv, now - retention) && sv.committed.records != []
    ensures sv.files.live.Some? && sv.files.live.value.Whole?
    ensures DocOk(sv.files.live.value.doc, sv.committed.records, now - retention)
  {
  }

  lemma FileServesTheSame(sv: KeyState, now: int, retention: int)
    requires Ordered(sv.committed.records, now) && LiveInv(sv, now - retention) && sv.committed.records != []
    ensures sv.files.live.Some? && sv.files.live.value.Whole?
    ensures Prune(sv.files.live.value.doc.keys, now - retention) == Prune(sv.committed.records, now - retention)
  {
    LiveDocOk(sv, now, retention);
    PruneRetains(sv.files.live.value.doc.keys, sv.committed.records, now, now - retention);
  }

  /** What is served is a suffix of the history, whose keys are in order. */
  lemma ServedIsRetained(sv: KeyState, now: int, retention: int)
    requires Inv(sv, now, retention) && IsIdle(sv)
    ensures Ordered(sv.committed.records, now)
    ensures Retained(ServedKeys(sv, now, retention), sv.committed.records, now - retention)
  {
    PruneRetains(sv.proc.mem.keys, sv.committed.records, now, now - retention);
  }

  /** All of it can be published. */
  lemma RetainedIsPublished(keys: seq<KeyRecord>, records: seq<KeyRecord>, now: int, cutoff: int)
    requires Ordered(records, now) && Retained(keys, records, cutoff)
    ensures Published(keys).Some? && PublishesAll(Published(keys).value, keys)
  {
    forall i | 0 <= i < |keys| ensures IsSpki(keys[i].publicSpki) {
      assert RecordOk(records[|records| - |keys| + i], now);
    }
    PublishedAt(keys);
  }

  // ---- How many keys are served ----

  function CountIn(times: seq<int>, lo: int, hi: int): nat {
    if times == [] then 0
    else CountIn(times[..|times| - 1], lo, hi) + if lo <= times[|times| - 1] <= hi then 1 else 0
  }

  lemma {:induction false} CountUnexpired(h: History, now: int, cutoff: int, n: nat)
    requires HistoryOk(h, now) && n <= |h.rotations|
    ensures |Prune(h.records[..n], cutoff)| == CountIn(h.rotations[..n], cutoff, now)
  {
    if n > 0 {
      CountUnexpired(h, now, cutoff, n - 1);
      PruneAppend(h.records[..n - 1], [h.records[n - 1]], cutoff);
      assert h.records[..n] == h.records[..n - 1] + [h.records[n - 1]];
      assert h.rotations[..n][..n - 1] == h.rotations[..n - 1];
      assert RecordOk(h.records[n - 1], now);
      assert Prune([h.records[n - 1]], cutoff)
          == if Expired(h.records[n - 1], cutoff) then [] else [h.records[n - 1]];
    }
  }

  /** The active key, and one per completed rotation that retired within the retention period. */
  lemma ServedKeyCount(sv: KeyState, now: int, retention: int)
    requires Inv(sv, now, retention) && IsIdle(sv)
    ensures |ServedKeys(sv, now, retention)|
         == 1 + CountIn(sv.committed.rotations, now - retention, now)
  {
    LazyPruningIsEager(sv, now, retention);
    UnexpiredCount(sv.committed, now, now - retention);
  }

  lemma UnexpiredCount(h: History, now: int, cutoff: int)
    requires HistoryOk(h, now) && h.records != []
    ensures |Prune(h.records, cutoff)| == 1 + CountIn(h.rotations, cutoff, now)
  {
    var n := |h.rotations|;
    CountUnexpired(h, now, cutoff, n);
    PruneAppend(h.records[..n], [h.records[n]], cutoff);
    assert h.records == h.records[..n] + [h.records[n]];
    assert h.rotations[..n] == h.rotations;
    assert Prune([h.records[n]], cutoff) == [h.records[n]];
  }

  // ---- The shape of every document ----

  /** Distinct ids; one active key, the last, named by `activeKid`; retirements in order. */
  ghost predicate WellShaped(doc: KeyDoc) {
    && doc.keys != [] && Last(doc.keys).active && doc.activeKid == Some(Last(doc.keys).kid)
    && ActiveCount(doc.keys) == 1
    && (forall i, j :: 0 <= i < j < |doc.keys| ==> doc.keys[i].kid != doc.keys[j].kid)
    && forall i, j :: 0 <= i < j < |doc.keys| ==>
         && doc.keys[i].retiredAt.Some?
         && doc.keys[i].retiredAt.value <= doc.keys[j].createdAt
         && (doc.keys[j].retiredAt.Some? ==> doc.keys[i].retiredAt.value <= doc.keys[j].retiredAt.value)
  }

  lemma DocIsWellShaped(doc: KeyDoc, records: seq<KeyRecord>, now: int, cutoff: int)
    requires Ordered(records, now) && records != [] && Last(records).active && DocOk(doc, records, cutoff)
    ensures WellShaped(doc)
  {
    var d, n := |records| - |doc.keys|, |doc.keys| - 1;
    forall i, j | 0 <= i < j < |doc.keys|
      ensures doc.keys[i].kid != doc.keys[j].kid && doc.keys[i].retiredAt.Some?
      ensures doc.keys[i].retiredAt.value <= doc.keys[j].createdAt
      ensures doc.keys[j].retiredAt.Some? ==> doc.keys[i].retiredAt.value <= doc.keys[j].retiredAt.value
      ensures !doc.keys[i].active
    {
      assert doc.keys[i] == records[d + i] && doc.keys[j] == records[d + j];
      assert RecordOk(records[d + i], now) && RecordOk(records[d + j], now);
      assert Precedes(records[d + i], records[d + j]);
    }
    NoneActive(doc.keys[..n]);
    ActiveCountAppend(doc.keys[..n], [doc.keys[n]]);
    assert doc.keys == doc.keys[..n] + [doc.keys[n]];
  }

  /** Memory and file have this shape whenever the lock is free. */
  lemma KeysAreWellShaped(sv: KeyState, now: int, retention: int)
    requires Inv(sv, now, retention)
    ensures sv.files.live.Some? ==> sv.files.live.value.Whole? && WellShaped(sv.files.live.value.doc)
    ensures IsIdle(sv) ==> WellShaped(sv.proc.mem)
  {
    if sv.files.live.Some? {
      DocIsWellShaped(sv.files.live.value.doc, sv.committed.records, now, now - retention);
    }
    if IsIdle(sv) {
      DocIsWellShaped(sv.proc.mem, sv.committed.records, now, now - retention);
    }
  }

  /** Memory and answers are what the history says: the fresh keys, their number, and their shape. */
  ghost predicate ServesHistory(sv: KeyState, now: int, retention: int) {
    && IsIdle(sv)
    && ServedKeys(sv, now, retention) == Prune(sv.committed.records, now - retention)
    && |ServedKeys(sv, now, retention)| == 1 + CountIn(sv.committed.rotations, now - retention, now)
    && WellShaped(sv.proc.mem)
  }

  lemma IdleServesHistory(sv: KeyState, now: int, retention: int)
    requires Inv(sv, now, retention) && IsIdle(sv)
    ensures ServesHistory(sv, now, retention)
  {
    LazyPruningIsEager(sv, now, retention);
    ServedKeyCount(sv, now, retention);
    KeysAreWellShaped(sv, now, retention);
  }

  // ---- The history only grows ----

  /** Later histories keep every key at its place, and every retirement once made. */
  ghost predicate Evolves(a: seq<KeyRecord>, b: seq<KeyRecord>) {
    && |a| <= |b|
    && forall i :: 0 <= i < |a| ==>
         && b[i].kid == a[i].kid && b[i].publicSpki == a[i].publicSpki && b[i].createdAt == a[i].createdAt
         && (a[i].retiredAt.Some? ==> b[i].retiredAt == a[i].retiredAt)
  }

  lemma StepEvolves(sv: KeyState, a: KeyAction, now: int, retention: int)
    requires Inv(sv, now, retention) && Enabled(sv, a)
    ensures Evolves(sv.committed.records, Apply(sv, a, now, retention).committed.records)
  {
    if a.Save? && sv.proc.stage.phase == NeedMove && sv.committed.records != [] {
      var c, p := sv.committed.records, sv.proc.pending.records;
      forall i | 0 <= i < |c|
        ensures p[i].kid == c[i].kid && p[i].publicSpki == c[i].publicSpki && p[i].createdAt == c[i].createdAt
        ensures c[i].retiredAt.Some? ==> p[i].retiredAt == c[i].retiredAt
      {
        assert RecordOk(c[i], now);
        assert p[..|c|][i] == p[i];
      }
    }
  }

  // ---- A key handed out stays usable ----

  /** The key at place `i` is this one, and is not retired before `since`. */
  ghost predicate Holds(records: seq<KeyRecord>, i: nat, kid: string, spki: seq<Byte>, since: int) {
    && i < |records| && records[i].kid == kid && records[i].publicSpki == spki
    && (records[i].retiredAt.Some? ==> since <= records[i].retiredAt.value)
  }

  /** The file's history holds the key, and so does the history memory is about to commit. */
  ghost predicate HeldSince(sv: KeyState, i: nat, kid: string, spki: seq<Byte>, since: int) {
    && Holds(sv.committed.records, i, kid, spki, since)
    && (sv.proc.Up? ==> Holds(sv.proc.pending.records, i, kid, spki, since))
  }

  /** `currentSigner` hands out the last key of the history, which is not retired. */
  lemma SignerIsLast(sv: KeyState, now: int, retention: int, since: int)
    requires Inv(sv, now, retention) && IsIdle(sv)
    ensures var r := FindActive(sv.proc.mem.keys, sv.proc.mem.activeKid);
      && r == Some(Last(sv.committed.records)) && r.value.privateKey == PrivateKey(r.value.publicSpki)
    ensures var last := Last(sv.committed.records);
      HeldSince(sv, |sv.committed.records| - 1, last.kid, last.publicSpki, since)
  {
    ActiveIsLast(sv.proc.mem, sv.committed.records, now, now - retention);
    assert RecordOk(Last(sv.committed.records), now);
  }

  /** No later rotation, crash or restart retires a key before a moment that has already come. */
  lemma StepKeepsHeld(sv: KeyState, a: KeyAction, now: int, retention: int,
                      i: nat, kid: string, spki: seq<Byte>, since: int)
    requires Inv(sv, now, retention) && Enabled(sv, a)
    requires HeldSince(sv, i, kid, spki, since) && since <= now
    ensures HeldSince(Apply(sv, a, now, retention), i, kid, spki, since)
  {
  }

  /** Write before use: a key that was handed out is in the file, unless it expired. */
  lemma HandedOutIsDurable(sv: KeyState, now: int, retention: int, i: nat, kid: string, spki: seq<Byte>, since: int)
    requires Inv(sv, now, retention) && HeldSince(sv, i, kid, spki, since)
    ensures sv.files.live.Some? && sv.files.live.value.Whole?
    ensures sv.committed.records[i] in sv.files.live.value.doc.keys
         || Expired(sv.committed.records[i], now - retention)
  {
    var doc, records := sv.files.live.value.doc, sv.committed.records;
    var d := |records| - |doc.keys|;
    if i >= d {
      assert doc.keys[i - d] == records[i];
    }
  }

  /** A key held since `since` is served for as long as nothing retired then could expire. */
  lemma HeldIsServed(sv: KeyState, now: int, retention: int, i: nat, kid: string, spki: seq<Byte>, since: int)
    requires Inv(sv, now, retention) && IsIdle(sv) && HeldSince(sv, i, kid, spki, since)
    requires now - retention <= since
    ensures sv.committed.records[i] in ServedKeys(sv, now, retention)
  {
    LazyPruningIsEager(sv, now, retention);
    PruneMembers(sv.committed.records, now - retention, sv.committed.records[i]);
  }

  // ---- Undisturbed, the machine does what the service's constructor and method do ----

  /** Serving the key set prunes memory by the cutoff and touches nothing else. */
  lemma UndisturbedServe(sv: KeyState, now: int, retention: int)
    requires IsIdle(sv)
    ensures Enabled(sv, ServeJwks)
    ensures var s := Apply(sv, ServeJwks, now, retention);
      && IsIdle(s) && s.proc.mem == KeyDoc(sv.proc.mem.activeKid, Prune(sv.proc.mem.keys, now - retention))
      && s.proc.pending == sv.proc.pending && s.files == sv.files && s.committed == sv.committed
      && s.proc.mem.keys == ServedKeys(sv, now, retention)
  {
  }

  /** Construction without interference; with a signer in the file there is nothing to create or save. */
  lemma UndisturbedBoot(sv: KeyState, kid: string, pair: PrivateKey, retention: int, booted: int, created: int)
    requires sv.proc.Down? && LiveWhole(sv.files)
    requires IsSpki(pair.publicSpki) && !KnownKid(sv.committed.records, kid)
    ensures Enabled(sv, Boot)
    ensures
      var s1, loaded := Apply(sv, Boot, booted, retention), Loaded(sv.files);
      if FindActive(loaded.keys, loaded.activeKid).Some? then
        IsIdle(s1) && s1.proc.mem == Started(loaded, kid, pair, created) && s1.files == sv.files
      else
        && Enabled(s1, Generate(kid, pair))
        && var s2 := Apply(s1, Generate(kid, pair), created, retention);
        && IsSaving(s2) && s2.proc.stage.phase == NeedTemp
        && var s := Saved(s2, s2.proc.mem);
        && IsIdle(s) && s.proc.mem == Started(loaded, kid, pair, created)
        && s.files == sv.files.(live := Some(Whole(s.proc.mem)))
        && s.committed.records == sv.committed.records + [NewKey(kid, pair, created)]
  {
    var s1, loaded := Apply(sv, Boot, booted, retention), Loaded(sv.files);
    if FindActive(loaded.keys, loaded.activeKid) == None {
      var s2 := Apply(s1, Generate(kid, pair), created, retention);
      SavedIsCommitted(s2, s2.proc.mem);
    }
  }

  /** Run without interference, the machine's rotation leaves what the sequential method leaves. */
  lemma UndisturbedRotation(sv: KeyState, kid: string, pair: PrivateKey, retention: int,
                            retired: int, created: int, pruned: int)
    requires IsIdle(sv) && IsSpki(pair.publicSpki) && !KnownKid(sv.proc.pending.records, kid)
    ensures Enabled(sv, BeginRotation)
    ensures
      var s1 := Apply(sv, BeginRotation, retired, retention);
      && Enabled(s1, Generate(kid, pair))
      && var s2 := Apply(s1, Generate(kid, pair), created, retention);
      && Enabled(s2, PruneRetired)
      && var s3 := Apply(s2, PruneRetired, pruned, retention);
      && IsSaving(s3) && s3.proc.stage.phase == NeedTemp
      && var s := Saved(s3, s3.proc.mem);
      && IsIdle(s) && s.proc.mem == Rotated(sv.proc.mem, kid, pair, retention, retired, created, pruned)
      && s.files == sv.files.(live := Some(Whole(s.proc.mem)))
      && s.committed.rotations == sv.proc.pending.rotations + [retired]
  {
    var s1 := Apply(sv, BeginRotation, retired, retention);
    forall i | 0 <= i < |s1.proc.pending.records| ensures s1.proc.pending.records[i].kid != kid {
      assert s1.proc.pending.records[i].kid == sv.proc.pending.records[i].kid;
    }
    var s2 := Apply(s1, Generate(kid, pair), created, retention);
    var s3 := Apply(s2, PruneRetired, pruned, retention);
    SavedIsCommitted(s3, s3.proc.mem);
  }
}
