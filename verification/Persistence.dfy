/**
 * The shape all four services share: memory guarded by one lock, persisted whole after each change.
 * A call that changes memory holds the lock until its save returns; a crash loses memory, keeps files.
 */
module Persistence {
  import opened Options
  import opened JsonStores

  /** Lock free, or held by a call doing its own work, or by one that is saving. */
  datatype Stage<+W> = Idle | Working(work: W) | Saving(phase: Phase)

  /** `pending` is the service's history as its memory has it; `committed` as its file has it. */
  datatype Proc<+M, +H, +W> = Down | Up(mem: M, pending: H, stage: Stage<W>)

  datatype Service<+D, +M, +H, +W> = Service(files: Files<D>, proc: Proc<M, H, W>, committed: H)

  predicate IsIdle<D, M, H, W>(sv: Service<D, M, H, W>) { sv.proc.Up? && sv.proc.stage.Idle? }

  predicate IsSaving<D, M, H, W>(sv: Service<D, M, H, W>) { sv.proc.Up? && sv.proc.stage.Saving? }

  function Crashed<D, M, H, W>(sv: Service<D, M, H, W>): Service<D, M, H, W> { sv.(proc := Down) }

  /** One step of the save under way; the move is where memory's history becomes the file's. */
  function SaveStep<D, M, H, W>(sv: Service<D, M, H, W>, doc: D): Service<D, M, H, W>
    requires IsSaving(sv) && Ready(sv.files, sv.proc.stage.phase)
  {
    var phase := sv.proc.stage.phase;
    sv.(files := MicroStep(sv.files, phase, doc),
        proc := sv.proc.(stage := if phase == NeedDelete then Idle else Saving(NextPhase(phase))),
        committed := if phase == NeedMove then sv.proc.pending else sv.committed)
  }

  /** All four steps, without a crash. */
  function Saved<D, M, H, W>(sv: Service<D, M, H, W>, doc: D): Service<D, M, H, W>
    requires IsSaving(sv) && sv.proc.stage.phase == NeedTemp
  {
    SaveStep(SaveStep(SaveStep(SaveStep(sv, doc), doc), doc), doc)
  }

  /** An undisturbed save does what the store's method does, commits, and frees the lock. */
  lemma SavedIsCommitted<D, M, H, W>(sv: Service<D, M, H, W>, doc: D)
    requires IsSaving(sv) && sv.proc.stage.phase == NeedTemp
    ensures Saved(sv, doc) == sv.(files := sv.files.(live := Some(Whole(doc))),
                                  proc := sv.proc.(stage := Idle), committed := sv.proc.pending)
  {
  }

  /** The save under way can go on, and this is where its next step leads. */
  ghost predicate SaveStepTo<D, M, H, W>(sv: Service<D, M, H, W>, doc: D, next: Service<D, M, H, W>)
  {
    IsSaving(sv) && Ready(sv.files, sv.proc.stage.phase) && next == SaveStep(sv, doc)
  }

  /** The four states an undisturbed save passes through. */
  lemma SaveSteps<D, M, H, W>(sv: Service<D, M, H, W>, doc: D)
    returns (s1: Service<D, M, H, W>, s2: Service<D, M, H, W>, s3: Service<D, M, H, W>, s4: Service<D, M, H, W>)
    requires IsSaving(sv) && sv.proc.stage.phase == NeedTemp
    ensures SaveStepTo(sv, doc, s1) && SaveStepTo(s1, doc, s2) && SaveStepTo(s2, doc, s3) && SaveStepTo(s3, doc, s4)
    ensures s1.proc.mem == s2.proc.mem == s3.proc.mem == sv.proc.mem
    ensures s4 == sv.(files := sv.files.(live := Some(Whole(doc))), proc := sv.proc.(stage := Idle),
                      committed := sv.proc.pending)
  {
    s1 := SaveStep(sv, doc);
    s2 := SaveStep(s1, doc);
    s3 := SaveStep(s2, doc);
    s4 := SaveStep(s3, doc);
    SavedIsCommitted(sv, doc);
  }

  /** The live path never holds half a document. */
  predicate LiveWhole<D>(f: Files<D>) { f.live.Some? ==> f.live.value.Whole? }
}
