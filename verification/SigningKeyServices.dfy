/**
 * The signing-key service as the object it is: a list of records and an active id, changed in place
 * under one lock and saved whole. Clock reads, the fresh id and the new pair are parameters.
 */
module SigningKeyServices {
  import opened Options
  import opened Ed25519Keys
  import opened Jwks
  import opened JsonStores
  import opened SigningKeys

  datatype Signer = Signer(kid: string, privateKey: PrivateKey)

  class SigningKeyService {
    const store: JsonStore<KeyDoc>
    const retention: int
    var keys: seq<KeyRecord>
    var activeKid: Option<string>

    function Doc(): KeyDoc
      reads this
    {
      KeyDoc(activeKid, keys)
    }

    /** Load the file if there is one; mint and persist a first key when it names no signer. */
    constructor (store: JsonStore<KeyDoc>, retention: int, kid: string, pair: PrivateKey, now: int)
      requires store.files.live.Some? ==> store.files.live.value.Whole?
      modifies store
      ensures this.store == store && this.retention == retention
      ensures var loaded := if old(store.files.live).Some? then old(store.files.live).value.doc else NO_KEYS;
        && Doc() == Started(loaded, kid, pair, now)
        && store.files == if FindActive(loaded.keys, loaded.activeKid) == None
                          then old(store.files).(live := Some(Whole(Doc()))) else old(store.files)
    {
      this.store, this.retention := store, retention;
      keys, activeKid := [], None;
      new;
      var present := store.Exists();
      if present {
        var loaded := store.Load();
        keys := keys + loaded.value.keys;
        assert keys == loaded.value.keys;
        activeKid := loaded.value.activeKid;
      }
      var active := FindActiveKey();
      if activeKid == None || active == None {
        if activeKid == None {
          NoKidNoSigner(keys);
        }
        GenerateActiveKey(kid, pair, now);
        var _, _ := store.Save(Doc(), Works);
      }
    }

    method FindActiveKey() returns (active: Option<KeyRecord>)
      ensures active == FindActive(keys, activeKid)
    {
      for i := 0 to |keys|
        invariant FindActive(keys, activeKid) == FindActive(keys[i..], activeKid)
      {
        if keys[i].active && Some(keys[i].kid) == activeKid {
          return Some(keys[i]);
        }
      }
      active := None;
    }

    method GenerateActiveKey(kid: string, pair: PrivateKey, now: int)
      modifies this
      ensures Doc() == GenerateActive(old(Doc()), kid, pair, now)
    {
      keys := keys + [NewKey(kid, pair, now)];
      activeKid := Some(kid);
    }

    /** None where the source throws: there is no active key. */
    method CurrentSigner() returns (signer: Option<Signer>)
      ensures signer == var active := FindActive(keys, activeKid);
        if active.Some? then Some(Signer(active.value.kid, active.value.privateKey)) else None
    {
      var active := FindActiveKey();
      if active == None {
        return None;
      }
      signer := Some(Signer(active.value.kid, active.value.privateKey));
    }

    /** Prune memory, not the file, and publish what is left; None where a stored key is unreadable. */
    method JwkSet(now: int) returns (jwks: Option<seq<Jwk>>)
      modifies this
      ensures keys == Prune(old(keys), now - retention) && activeKid == old(activeKid)
      ensures jwks == Published(keys)
    {
      keys := Prune(keys, now - retention);
      var published: seq<Jwk> := [];
      for i := 0 to |keys|
        invariant keys == Prune(old(keys), now - retention) && activeKid == old(activeKid)
        invariant Published(keys[..i]) == Some(published)
      {
        assert keys[..i + 1][..i] == keys[..i];
        var jwk := PublishedKey(keys[i]);
        if jwk == None {
          PublishedFails(keys, i + 1);
          return None;
        }
        published := published + [jwk.value];
      }
      assert keys[..|keys|] == keys;
      jwks := Some(published);
    }

    /**
     * Retire, create, prune, save. When the save throws, memory has already changed while the file
     * has not: with a new id, the signer in memory is then a key the file does not hold.
     */
    method Rotate(kid: string, pair: PrivateKey, retired: int, created: int, pruned: int, io: Io)
      returns (newKid: Option<string>)
      modifies this, store
      ensures Doc() == Rotated(old(Doc()), kid, pair, retention, retired, created, pruned)
      ensures store.files == AfterSave(old(store.files), Doc(), io)
      ensures newKid == if io.Works? then Some(kid) else None
      ensures UnknownToFile(old(store.files), kid) ==>
        var live, signer := store.files.live.value.doc, FindActive(keys, activeKid);
        signer.Some? && (KnownKid(live.keys, signer.value.kid) <==> io.Works?)
    {
      var updated: seq<KeyRecord> := [];
      for i := 0 to |keys|
        invariant keys == old(keys) && activeKid == old(activeKid) && store.files == old(store.files)
        invariant updated == RetireActive(keys, retired)[..i]
      {
        updated := updated + [if keys[i].active then Retire(keys[i], retired) else keys[i]];
      }
      assert updated == RetireActive(keys, retired);
      keys := updated;
      GenerateActiveKey(kid, pair, created);
      keys := Prune(keys, pruned - retention);
      var ok, _ := store.Save(Doc(), io);
      newKid := if ok then activeKid else None;
      if UnknownToFile(old(store.files), kid) {
        SignerIsSavedExactly(old(store.files), old(Doc()), kid, pair, retention, retired, created, pruned, io);
      }
    }
  }

  lemma {:induction false} NoKidNoSigner(keys: seq<KeyRecord>)
    ensures FindActive(keys, None) == None
  {
    if keys != [] {
      NoKidNoSigner(keys[1..]);
    }
  }

  lemma {:induction false} PublishedFails(keys: seq<KeyRecord>, n: nat)
    requires n <= |keys| && Published(keys[..n]) == None
    ensures Published(keys) == None
    decreases |keys|
  {
    if n == |keys| {
      assert keys[..n] == keys;
    } else {
      var last := |keys| - 1;
      assert keys[..last][..n] == keys[..n];
      PublishedFails(keys[..last], n);
    }
  }
}
