/** The audit log: its entries, the service as a machine over its file, and the service as an object. */
module Audits {
  import opened Options
  import opened JsonStores
  import opened Persistence

  datatype AuditEntry = AuditEntry(at: int, event: string, clientId: Option<string>, detail: Option<string>)

  datatype Work = NoWork

  type AuditState = Service<seq<AuditEntry>, seq<AuditEntry>, seq<AuditEntry>, Work>

  const NO_AUDIT_STATE: AuditState := Service(Files(None, []), Down, [])

  datatype AuditAction =
    | Boot
    | Append(event: string, clientId: Option<string>, detail: Option<string>)
    | Save

  predicate Enabled(sv: AuditState, a: AuditAction) {
    match a
    case Boot => sv.proc.Down? && LiveWhole(sv.files)
    case Append(_, _, _) => IsIdle(sv)
    case Save => IsSaving(sv) && Ready(sv.files, sv.proc.stage.phase)
  }

  function Apply(sv: AuditState, a: AuditAction, now: int): AuditState
    requires Enabled(sv, a)
  {
    match a
    case Boot =>
      var loaded := if sv.files.live.Some? then sv.files.live.value.doc else [];
      sv.(proc := Up(loaded, sv.committed, Idle))
    case Append(event, clientId, detail) =>
      var log := sv.proc.mem + [AuditEntry(now, event, clientId, detail)];
      sv.(proc := Up(log, log, Saving(NeedTemp)))
    case Save => SaveStep(sv, sv.proc.mem)
  }

  // ---- The durable log ----

  function DurableLog(sv: AuditState): seq<AuditEntry>
    requires LiveWhole(sv.files)
  {
    if sv.files.live.Some? then sv.files.live.value.doc else []
  }

  /** Timestamps never decrease along a log, nor pass the clock. */
  ghost predicate Timely(log: seq<AuditEntry>, now: int) {
    && (forall i :: 0 <= i < |log| ==> log[i].at <= now)
    && forall i, j :: 0 <= i < j < |log| ==> log[i].at <= log[j].at
  }

  ghost predicate Inv(sv: AuditState, now: int) {
    && LiveWhole(sv.files)
    && sv.committed == DurableLog(sv)
    && Timely(sv.committed, now)
    && (sv.proc.Up? ==>
          && !sv.proc.stage.Working?
          && sv.proc.pending == sv.proc.mem
          && Timely(sv.proc.mem, now)
          && (sv.proc.stage.Saving? ==> SaveInv(sv.files, sv.proc.stage.phase, sv.proc.mem))
          && if sv.proc.stage == Idle || sv.proc.stage == Saving(NeedDelete) then sv.proc.mem == sv.committed
             else sv.proc.mem != [] && sv.committed == sv.proc.mem[..|sv.proc.mem| - 1])
  }

  lemma StepKeepsInv(sv: AuditState, a: AuditAction, now: int)
    requires Inv(sv, now) && Enabled(sv, a)
    ensures Inv(Apply(sv, a, now), now)
    ensures DurableLog(sv) <= DurableLog(Apply(sv, a, now))
  {
    if a.Save? {
      SaveIsAtomic(sv.files, sv.proc.stage.phase, sv.proc.mem);
    }
  }

  /** Run without interference, an append leaves what the sequential method leaves. */
  lemma UndisturbedAppend(sv: AuditState, event: string, clientId: Option<string>, detail: Option<string>, now: int)
    requires IsIdle(sv)
    ensures Enabled(sv, Append(event, clientId, detail))
    ensures
      var s1 := Apply(sv, Append(event, clientId, detail), now);
      && IsSaving(s1) && s1.proc.stage.phase == NeedTemp
      && var s := Saved(s1, s1.proc.mem);
      && IsIdle(s) && s.proc.mem == sv.proc.mem + [AuditEntry(now, event, clientId, detail)]
      && s.files == sv.files.(live := Some(Whole(s.proc.mem))) && s.committed == s.proc.mem
  {
    var s1 := Apply(sv, Append(event, clientId, detail), now);
    SavedIsCommitted(s1, s1.proc.mem);
  }

  class AuditService {
    const store: JsonStore<seq<AuditEntry>>
    var entries: seq<AuditEntry>

    constructor (store: JsonStore<seq<AuditEntry>>)
      requires store.files.live.Some? ==> store.files.live.value.Whole?
      ensures this.store == store
      ensures entries == if store.files.live.Some? then store.files.live.value.doc else []
    {
      this.store, entries := store, [];
      new;
      var present := store.Exists();
      if present {
        var loaded := store.Load();
        entries := loaded.value;
      }
    }

    /** Append in memory, then rewrite the file; a save that throws leaves the file as it was. */
    method Record(event: string, clientId: Option<string>, detail: Option<string>, now: int, io: Io)
      returns (ok: bool)
      modifies this, store
      ensures entries == old(entries) + [AuditEntry(now, event, clientId, detail)]
      ensures ok == io.Works?
      ensures store.files == AfterSave(old(store.files), entries, io)
    {
      entries := entries + [AuditEntry(now, event, clientId, detail)];
      var saved, _ := store.Save(entries, io);
      ok := saved;
    }

    method List() returns (log: seq<AuditEntry>)
      ensures log == entries
    {
      log := entries;
    }
  }
}
