/** The revocation service as the object it is: a linked map pruned on every read and saved on every revoke. */
module RevocationServices {
  import opened Options
  import opened Text
  import opened JsonStores
  import opened LinkedMap
  import opened Revocations

  datatype Revoked = Recorded(revocation: Revocation) | BlankJti | SaveFailed

  class RevocationService {
    const store: JsonStore<seq<Revocation>>
    var byJti: seq<Entry<Revocation>>

    constructor (store: JsonStore<seq<Revocation>>)
      requires store.files.live.Some? ==> store.files.live.value.Whole?
      ensures this.store == store
      ensures byJti == if store.files.live.Some? then Load(store.files.live.value.doc, JtiOf) else []
    {
      this.store, byJti := store, [];
      new;
      var present := store.Exists();
      if present {
        var loaded := store.Load();
        var list := loaded.value;
        for i := 0 to |list|
          invariant byJti == Load(list[..i], JtiOf)
        {
          assert list[..i + 1][..i] == list[..i];
          byJti := Put(byJti, list[i].jti, list[i]);
        }
        assert list[..|list|] == list;
      }
    }

    /** A blank id is refused before anything changes; a save that throws leaves memory ahead of the file. */
    method Revoke(jti: Option<string>, expiresAt: int, reason: Option<string>, now: int, later: int, io: Io)
      returns (r: Revoked)
      modifies this, store
      ensures jti == None || IsBlank(jti.value) ==>
        r == BlankJti && byJti == old(byJti) && store.files == old(store.files)
      ensures jti.Some? && !IsBlank(jti.value) ==>
        var revocation := Revocation(jti.value, now, expiresAt, reason);
        && byJti == Prune(Put(old(byJti), jti.value, revocation), later)
        && r == (if io.Works? then Recorded(revocation) else SaveFailed)
        && store.files == AfterSave(old(store.files), Values(byJti), io)
    {
      if jti == None || IsBlank(jti.value) {
        return BlankJti;
      }
      var revocation := Revocation(jti.value, now, expiresAt, reason);
      byJti := Put(byJti, jti.value, revocation);
      byJti := Prune(byJti, later);
      var ok, _ := store.Save(Values(byJti), io);
      r := if ok then Recorded(revocation) else SaveFailed;
    }

    method IsRevokedNow(jti: Option<string>, now: int) returns (revoked: bool)
      modifies this
      ensures byJti == Prune(old(byJti), now)
      ensures revoked == (jti.Some? && Get(byJti, jti.value).Some?)
    {
      byJti := Prune(byJti, now);
      revoked := jti.Some? && Get(byJti, jti.value).Some?;
    }

    method ActiveDenylist(now: int) returns (denylist: seq<Revocation>)
      modifies this
      ensures byJti == Prune(old(byJti), now) && denylist == Values(byJti)
    {
      byJti := Prune(byJti, now);
      denylist := Values(byJti);
    }
  }
}
