/**
 * One durable document: written to a temporary file beside its path, then moved into place in one
 * atomic step. A crash can fall between any two of the steps below.
 */
module JsonStores {
  import opened Options

  /** What a file holds: a complete document, or text that is not one. */
  datatype Content<+D> = Torn | Whole(doc: D)

  /** The live path, and the temporary files beside it, the newest last. */
  datatype Files<+D> = Files(live: Option<Content<D>>, temps: seq<Content<D>>)

  /** The steps of one `save`. A file being written stays Torn until the write is complete. */
  datatype Phase = NeedTemp | NeedWrite | NeedMove | NeedDelete

  predicate Ready<D>(f: Files<D>, phase: Phase) {
    phase == NeedWrite || phase == NeedMove ==> f.temps != []
  }

  function MicroStep<D>(f: Files<D>, phase: Phase, doc: D): Files<D>
    requires Ready(f, phase)
  {
    match phase
    case NeedTemp => f.(temps := f.temps + [Torn])
    case NeedWrite => f.(temps := f.temps[..|f.temps| - 1] + [Whole(doc)])
    case NeedMove => Files(Some(f.temps[|f.temps| - 1]), f.temps[..|f.temps| - 1])
    case NeedDelete => f
  }

  function NextPhase(phase: Phase): Phase {
    match phase
    case NeedTemp => NeedWrite
    case NeedWrite => NeedMove
    case _ => NeedDelete
  }

  /** A save of `doc` has got this far: once written, the newest temporary file is the document. */
  predicate SaveInv<D(==)>(f: Files<D>, phase: Phase, doc: D) {
    && Ready(f, phase)
    && (phase == NeedMove ==> f.temps[|f.temps| - 1] == Whole(doc))
    && (phase == NeedDelete ==> f.live == Some(Whole(doc)))
  }

  /** The live path changes only at the move, and then to the whole new document. */
  lemma SaveIsAtomic<D>(f: Files<D>, phase: Phase, doc: D)
    requires SaveInv(f, phase, doc)
    ensures SaveInv(MicroStep(f, phase, doc), NextPhase(phase), doc)
    ensures MicroStep(f, phase, doc).live == if phase == NeedMove then Some(Whole(doc)) else f.live
  {
  }

  /** Where the file system refuses to go on. */
  datatype Io = Works | CannotCreate | CannotWrite | CannotMove

  /** The files after a save: the new document in place, or everything as it was. */
  function AfterSave<D>(f: Files<D>, doc: D, io: Io): Files<D> {
    if io.Works? then f.(live := Some(Whole(doc))) else f
  }

  ghost predicate IsOldOrNew<D>(f: Files<D>, before: Option<Content<D>>, doc: D) {
    f.live == before || f.live == Some(Whole(doc))
  }

  ghost predicate AllOldOrNew<D>(seen: seq<Files<D>>, before: Option<Content<D>>, doc: D) {
    forall i :: 0 <= i < |seen| ==> IsOldOrNew(seen[i], before, doc)
  }

  class JsonStore<D(==)> {
    var files: Files<D>

    constructor (files: Files<D>)
      ensures this.files == files
    {
      this.files := files;
    }

    method Exists() returns (present: bool)
      ensures present == files.live.Some?
    {
      present := files.live.Some?;
    }

    /** None where reading throws: no file, or text that is not a document. */
    method Load() returns (doc: Option<D>)
      ensures doc == if files.live.Some? && files.live.value.Whole? then Some(files.live.value.doc) else None
    {
      if files.live.Some? && files.live.value.Whole? {
        doc := Some(files.live.value.doc);
      } else {
        doc := None;
      }
    }

    /**
     * A save that works leaves exactly the new document and no temporary file of its own; one that
     * throws leaves everything as it was. `seen` is every state a crash could freeze: the live
     * path holds the whole old document or the whole new one in each of them.
     */
    method Save(document: D, io: Io) returns (ok: bool, ghost seen: seq<Files<D>>)
      modifies this
      ensures ok == io.Works?
      ensures files == AfterSave(old(files), document, io)
      ensures seen != [] && seen[0] == old(files) && seen[|seen| - 1] == files
      ensures AllOldOrNew(seen, old(files.live), document)
    {
      ok, seen := false, [files];
      if io == CannotCreate {
        return;
      }
      files := MicroStep(files, NeedTemp, document);
      seen := seen + [files];
      if io != CannotWrite {
        files := MicroStep(files, NeedWrite, document);
        seen := seen + [files];
        if io != CannotMove {
          files := MicroStep(files, NeedMove, document);
          ok := true;
        }
      }
      if !ok {
        files := files.(temps := files.temps[..|files.temps| - 1]);
        assert files.temps == old(files.temps);
      }
      seen := seen + [files];
    }
  }
}
