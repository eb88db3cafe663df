/** The client registry as the object it is: a linked map, changed in place and saved on every change. */
module ClientServices {
  import opened Options
  import opened Grants
  import opened JsonStores
  import opened LinkedMap
  import opened Clients

  class ClientService {
    const store: JsonStore<seq<ClientRecord>>
    var clients: seq<Entry<ClientRecord>>

    constructor (store: JsonStore<seq<ClientRecord>>)
      requires store.files.live.Some? ==> store.files.live.value.Whole?
      ensures this.store == store
      ensures clients == if store.files.live.Some? then Load(store.files.live.value.doc, IdOf) else []
    {
      this.store, clients := store, [];
      new;
      var present := store.Exists();
      if present {
        var loaded := store.Load();
        var list := loaded.value;
        for i := 0 to |list|
          invariant clients == Load(list[..i], IdOf)
        {
          assert list[..i + 1][..i] == list[..i];
          clients := Put(clients, list[i].clientId, list[i]);
        }
        assert list[..|list|] == list;
      }
    }

    /** None where the save throws. */
    method Register(id: string, secret: string, displayName: Option<string>, authorization: Option<Authorization>,
                    now: int, io: Io) returns (r: Option<ClientRecord>)
      modifies this, store
      ensures var stored := Get(clients, id);
        && stored.Some? && Registered(stored.value, id, secret, displayName, authorization, now)
        && clients == Put(old(clients), id, stored.value)
        && r == (if io.Works? then stored else None)
      ensures store.files == AfterSave(old(store.files), Values(clients), io)
    {
      var record := NewClient(id, secret, displayName, authorization, now);
      GetPut(clients, id, record, id);
      clients := Put(clients, id, record);
      var ok, _ := store.Save(Values(clients), io);
      r := if ok then Some(record) else None;
    }

    /** Whether a client was removed; None where the save throws. An unknown id saves nothing. */
    method RemoveClient(id: string, io: Io) returns (removed: Option<bool>)
      modifies this, store
      ensures clients == Remove(old(clients), id)
      ensures Get(old(clients), id) == None ==> removed == Some(false) && store.files == old(store.files)
      ensures Get(old(clients), id).Some? ==>
        && removed == (if io.Works? then Some(true) else None)
        && store.files == AfterSave(old(store.files), Values(clients), io)
    {
      var present := Get(clients, id).Some?;
      if !present {
        RemoveAbsent(clients, id);
        return Some(false);
      }
      clients := Remove(clients, id);
      var ok, _ := store.Save(Values(clients), io);
      removed := if ok then Some(true) else None;
    }

    /** The inner option is the source's empty answer for an unknown client; None is a save that throws. */
    method SetAuthorization(id: string, authorization: Option<Authorization>, io: Io)
      returns (r: Option<Option<ClientRecord>>)
      modifies this, store
      ensures Get(old(clients), id) == None ==>
        r == Some(None) && clients == old(clients) && store.files == old(store.files)
      ensures Get(old(clients), id).Some? ==>
        var updated := Get(clients, id);
        && updated.Some? && Updated(updated.value, Get(old(clients), id).value, authorization)
        && clients == Put(old(clients), id, updated.value)
        && r == (if io.Works? then Some(updated) else None)
        && store.files == AfterSave(old(store.files), Values(clients), io)
    {
      var existing := Get(clients, id);
      if existing == None {
        return Some(None);
      }
      var updated := existing.value.(authorization := OrNone(authorization));
      GetPut(clients, id, updated, id);
      clients := Put(clients, id, updated);
      var ok, _ := store.Save(Values(clients), io);
      r := if ok then Some(Some(updated)) else None;
    }

    /** An unknown client still costs a verification, against a hash nothing matches. */
    method AuthenticateClient(id: Option<string>, secret: string) returns (r: Option<ClientRecord>)
      ensures r == Authenticate(clients, id, secret)
      ensures var known := if id.Some? then Get(clients, id.value) else None;
        r == if known.Some? && known.value.enabled && known.value.secretHash == IdealHash(secret) then known else None
    {
      var record := if id == None then None else Get(clients, id.value);
      if record == None {
        var never := VerifySecret(secret, DummyHash);
        assert !never;
        return None;
      }
      var ok := record.value.enabled && VerifySecret(secret, record.value.secretHash);
      r := if ok then record else None;
    }
  }

  lemma {:induction false} RemoveAbsent<V>(m: seq<Entry<V>>, key: string)
    requires Get(m, key) == None
    ensures Remove(m, key) == m
  {
    if m != [] {
      RemoveAbsent(m[1..], key);
    }
  }
}
