/** The persisted signing keys and what one step of the key service does to them. */
module SigningKeys {
  import opened Options
  import opened Base64Url
  import opened Ed25519Keys
  import opened Jwks
  import opened JsonStores

  datatype KeyRecord = KeyRecord(kid: string, privateKey: PrivateKey, publicSpki: seq<Byte>, active: bool,
                                 createdAt: int, retiredAt: Option<int>)

  datatype KeyDoc = KeyDoc(activeKid: Option<string>, keys: seq<KeyRecord>)

  const NO_KEYS := KeyDoc(None, [])

  /** `SigningKeyRecord.retiredAt(when)`. */
  function Retire(key: KeyRecord, time: int): KeyRecord { key.(active := false, retiredAt := Some(time)) }

  /** The active keys retired at a time; `rotate` rebuilds the list this way. */
  function RetireActive(keys: seq<KeyRecord>, time: int): (r: seq<KeyRecord>)
    ensures |r| == |keys|
  {
    seq(|keys|, i requires 0 <= i < |keys| => if keys[i].active then Retire(keys[i], time) else keys[i])
  }

  function NewKey(kid: string, pair: PrivateKey, now: int): KeyRecord {
    KeyRecord(kid, pair, pair.publicSpki, true, now, None)
  }

  function GenerateActive(doc: KeyDoc, kid: string, pair: PrivateKey, now: int): KeyDoc {
    KeyDoc(Some(kid), doc.keys + [NewKey(kid, pair, now)])
  }

  /** Retired before the cutoff. */
  predicate Expired(key: KeyRecord, cutoff: int) {
    !key.active && key.retiredAt.Some? && key.retiredAt.value < cutoff
  }

  function Prune(keys: seq<KeyRecord>, cutoff: int): seq<KeyRecord> {
    if keys == [] then []
    else (if Expired(keys[0], cutoff) then [] else [keys[0]]) + Prune(keys[1..], cutoff)
  }

  function FindActive(keys: seq<KeyRecord>, activeKid: Option<string>): Option<KeyRecord> {
    if keys == [] then None
    else if keys[0].active && Some(keys[0].kid) == activeKid then Some(keys[0])
    else FindActive(keys[1..], activeKid)
  }

  predicate KnownKid(keys: seq<KeyRecord>, kid: string) {
    exists i :: 0 <= i < |keys| && keys[i].kid == kid
  }

  /** The published form of a record; None where decoding its public key throws. */
  function PublishedKey(key: KeyRecord): Option<Jwk> {
    if IsSpki(key.publicSpki) then ForEd25519(key.kid, key.publicSpki) else None
  }

  function Published(keys: seq<KeyRecord>): Option<seq<Jwk>> {
    if keys == [] then Some([])
    else
      var n := |keys| - 1;
      match Published(keys[..n])
      case None => None
      case Some(jwks) =>
        match PublishedKey(keys[n])
        case None => None
        case Some(jwk) => Some(jwks + [jwk])
  }

  // ---- Whole operations ----

  /** The service's memory after construction. */
  function Started(loaded: KeyDoc, kid: string, pair: PrivateKey, now: int): KeyDoc {
    if FindActive(loaded.keys, loaded.activeKid) == None then GenerateActive(loaded, kid, pair, now) else loaded
  }

  /** The service's memory after a rotation that read the clock at `retired`, `created` and `pruned`. */
  function Rotated(doc: KeyDoc, kid: string, pair: PrivateKey, retention: int,
                   retired: int, created: int, pruned: int): KeyDoc
  {
    var generated := GenerateActive(doc.(keys := RetireActive(doc.keys, retired)), kid, pair, created);
    generated.(keys := Prune(generated.keys, pruned - retention))
  }

  function ActiveCount(keys: seq<KeyRecord>): nat {
    if keys == [] then 0 else (if keys[0].active then 1 else 0) + ActiveCount(keys[1..])
  }

  // ---- Facts about the pieces ----

  lemma {:induction false} PruneAppend(a: seq<KeyRecord>, b: seq<KeyRecord>, cutoff: int)
    ensures Prune(a + b, cutoff) == Prune(a, cutoff) + Prune(b, cutoff)
  {
    if a == [] {
      assert a + b == b;
    } else {
      PruneAppend(a[1..], b, cutoff);
      assert (a + b)[0] == a[0] && (a + b)[1..] == a[1..] + b;
      var head := if Expired(a[0], cutoff) then [] else [a[0]];
      assert head + (Prune(a[1..], cutoff) + Prune(b, cutoff)) == (head + Prune(a[1..], cutoff)) + Prune(b, cutoff);
    }
  }

  lemma {:induction false} PruneExpired(keys: seq<KeyRecord>, cutoff: int)
    requires forall i :: 0 <= i < |keys| ==> Expired(keys[i], cutoff)
    ensures Prune(keys, cutoff) == []
  {
    if keys != [] {
      PruneExpired(keys[1..], cutoff);
    }
  }

  lemma {:induction false} PruneFresh(keys: seq<KeyRecord>, cutoff: int)
    requires forall i :: 0 <= i < |keys| ==> !Expired(keys[i], cutoff)
    ensures Prune(keys, cutoff) == keys
  {
    if keys != [] {
      PruneFresh(keys[1..], cutoff);
    }
  }

  /** Pruning keeps exactly the records that are not expired. */
  lemma {:induction false} PruneMembers(keys: seq<KeyRecord>, cutoff: int, key: KeyRecord)
    ensures key in Prune(keys, cutoff) <==> key in keys && !Expired(key, cutoff)
  {
    if keys != [] {
      PruneMembers(keys[1..], cutoff, key);
      assert keys == [keys[0]] + keys[1..];
    }
  }

  lemma {:induction false} NoneActive(keys: seq<KeyRecord>)
    requires forall i :: 0 <= i < |keys| ==> !keys[i].active
    ensures ActiveCount(keys) == 0
    ensures forall kid :: FindActive(keys, kid) == None
  {
    if keys != [] {
      NoneActive(keys[1..]);
    }
  }

  lemma {:induction false} ActiveCountAppend(a: seq<KeyRecord>, b: seq<KeyRecord>)
    ensures ActiveCount(a + b) == ActiveCount(a) + ActiveCount(b)
  {
    if a == [] {
      assert a + b == b;
    } else {
      ActiveCountAppend(a[1..], b);
      assert (a + b)[1..] == a[1..] + b;
    }
  }

  lemma {:induction false} FindActiveAppend(a: seq<KeyRecord>, b: seq<KeyRecord>, kid: Option<string>)
    ensures FindActive(a + b, kid) == if FindActive(a, kid).Some? then FindActive(a, kid) else FindActive(b, kid)
  {
    if a == [] {
      assert a + b == b;
    } else {
      FindActiveAppend(a[1..], b, kid);
      assert (a + b)[1..] == a[1..] + b;
    }
  }

  // ---- Recovery from any document ----

  /** However many stale records a document flags active or however its active kid dangles, there is a signer. */
  lemma StartedHasSigner(loaded: KeyDoc, kid: string, pair: PrivateKey, now: int)
    ensures var doc := Started(loaded, kid, pair, now); FindActive(doc.keys, doc.activeKid).Some?
  {
    FindActiveAppend(loaded.keys, [NewKey(kid, pair, now)], Some(kid));
  }

  /** From any document at all, one rotation leaves one active key: the new one, last in the list. */
  lemma RotatedHasOneActiveKey(doc: KeyDoc, kid: string, pair: PrivateKey, retention: int,
                               retired: int, created: int, pruned: int)
    ensures var r := Rotated(doc, kid, pair, retention, retired, created, pruned);
      && ActiveCount(r.keys) == 1
      && r.keys != [] && r.keys[|r.keys| - 1] == NewKey(kid, pair, created)
      && FindActive(r.keys, r.activeKid) == Some(NewKey(kid, pair, created))
  {
    var before, added := RetireActive(doc.keys, retired), NewKey(kid, pair, created);
    var cutoff := pruned - retention;
    PruneAppend(before, [added], cutoff);
    var kept := Prune(before, cutoff);
    assert Prune([added], cutoff) == [added];
    forall i | 0 <= i < |kept| ensures !kept[i].active {
      PruneMembers(before, cutoff, kept[i]);
    }
    NoneActive(kept);
    ActiveCountAppend(kept, [added]);
    FindActiveAppend(kept, [added], Some(kid));
  }

  /** There is a whole live document, and it has no key of this id. */
  predicate UnknownToFile(files: Files<KeyDoc>, kid: string) {
    files.live.Some? && files.live.value.Whole? && !KnownKid(files.live.value.doc.keys, kid)
  }

  /**
   * After a rotation there is a signer, and its key is in the live document exactly when the save
   * worked: one that throws leaves memory handing out a key no restart would find.
   */
  lemma SignerIsSavedExactly(files: Files<KeyDoc>, doc: KeyDoc, kid: string, pair: PrivateKey, retention: int,
                             retired: int, created: int, pruned: int, io: Io)
    requires UnknownToFile(files, kid)
    ensures var r := Rotated(doc, kid, pair, retention, retired, created, pruned);
      var signer, after := FindActive(r.keys, r.activeKid), AfterSave(files, r, io);
      && signer.Some? && after.live.Some? && after.live.value.Whole?
      && (KnownKid(after.live.value.doc.keys, signer.value.kid) <==> io.Works?)
  {
    RotatedHasOneActiveKey(doc, kid, pair, retention, retired, created, pruned);
    var keys := Rotated(doc, kid, pair, retention, retired, created, pruned).keys;
    assert keys[|keys| - 1].kid == kid;
  }

  /**
   * Construction leaves exactly one active key exactly when the file has one active record and it is
   * the signer, or has none at all.
   */
  lemma StartedHasOneActiveKey(loaded: KeyDoc, kid: string, pair: PrivateKey, now: int)
    ensures ActiveCount(Started(loaded, kid, pair, now).keys) == 1 <==>
      ActiveCount(loaded.keys) == if FindActive(loaded.keys, loaded.activeKid).Some? then 1 else 0
  {
    ActiveCountAppend(loaded.keys, [NewKey(kid, pair, now)]);
  }

  /** So a recovered document may keep stale active records beside the new one until it is rotated. */
  lemma StartedMayHaveManyActiveKeys(stale: KeyRecord, dangling: string, kid: string, pair: PrivateKey, now: int)
    requires stale.active && stale.kid != dangling
    ensures ActiveCount(Started(KeyDoc(Some(dangling), [stale]), kid, pair, now).keys) == 2
  {
    assert FindActive([stale], Some(dangling)) == FindActive([], Some(dangling)) == None;
    ActiveCountAppend([stale], [NewKey(kid, pair, now)]);
  }

  // ---- Publication ----

  /** A JWK that stands for a record: its id, and a public key that is the record's. */
  predicate Publishes(jwk: Jwk, key: KeyRecord) {
    jwk.keyId == Some(key.kid) && ToPublicKey(jwk) == Some(key.publicSpki)
  }

  lemma PublishedKeyWorks(key: KeyRecord)
    requires IsSpki(key.publicSpki)
    ensures PublishedKey(key).Some? && Publishes(PublishedKey(key).value, key)
  {
    PublishingLosesNothing(key.kid, key.publicSpki);
  }

  ghost predicate PublishesAll(jwks: seq<Jwk>, keys: seq<KeyRecord>) {
    |jwks| == |keys| && forall i :: 0 <= i < |keys| ==> Publishes(jwks[i], keys[i])
  }

  lemma PublishesSnoc(jwks: seq<Jwk>, keys: seq<KeyRecord>, jwk: Jwk, key: KeyRecord)
    requires PublishesAll(jwks, keys) && Publishes(jwk, key)
    ensures PublishesAll(jwks + [jwk], keys + [key])
  {
  }

  lemma {:induction false} PublishedAt(keys: seq<KeyRecord>)
    requires forall i :: 0 <= i < |keys| ==> IsSpki(keys[i].publicSpki)
    ensures Published(keys).Some? && PublishesAll(Published(keys).value, keys)
  {
    if keys != [] {
      var n := |keys| - 1;
      PublishedAt(keys[..n]);
      PublishedKeyWorks(keys[n]);
      PublishesSnoc(Published(keys[..n]).value, keys[..n], PublishedKey(keys[n]).value, keys[n]);
      assert keys == keys[..n] + [keys[n]];
    }
  }
}
