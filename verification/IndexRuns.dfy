/** Runs of the indexer: after any operations the store holds, for every project and path, the chunks that file was
    last indexed with, as an index built from nothing would hold them. */
module IndexRuns {
  import opened Wrappers
  import opened Collections
  import opened ChunkIndex

  // One call, with the contents of the disk when it is made.
  datatype Operation =
    | IndexFile(project: string, path: string, disk: Disk)
    | RemoveFile(project: string, path: string)
    | Reindex(project: string, changed: seq<string>, removed: seq<string>, disk: Disk)

  function Applied(setup: Setup, s: Store, op: Operation): Outcome {
    match op
    case IndexFile(project, path, disk) => IndexedFile(setup, s, project, disk, path)
    case RemoveFile(project, path) => Outcome(Removed(s, File(project, path)), None)
    case Reindex(project, changed, removed, disk) => Reindexed(setup, s, project, disk, changed, removed)
  }

  // The store after a run; a call that fails leaves what it has done, and the run goes on.
  function Run(setup: Setup, s: Store, ops: seq<Operation>): Store {
    if ops == [] then s
    else Applied(setup, Run(setup, s, ops[..|ops| - 1]), ops[|ops| - 1]).store
  }

  predicate SlashesOnly(op: Operation) {
    match op
    case IndexFile(_, path, _) => HasSlashesOnly(path)
    case RemoveFile(_, path) => HasSlashesOnly(path)
    case Reindex(_, changed, removed, _) => forall p :: p in changed + removed ==> HasSlashesOnly(p)
  }

  // A file came to hold these chunks.
  datatype Touch = Touch(file: File, chunks: seq<Chunk>)

  function Chunks(setup: Setup, disk: Disk, path: string): Option<seq<Chunk>> {
    if path in disk then setup.chunk(path, disk) else None
  }

  // An unreadable or unchunkable file keeps its chunks; one whose chunks cannot be embedded loses them.
  function FileTouches(setup: Setup, project: string, disk: Disk, path: string): seq<Touch> {
    var chunks := Chunks(setup, disk, path);
    if chunks.None? then []
    else [Touch(File(project, path), if Storable(setup, chunks.value) then chunks.value else [])]
  }

  predicate Indexable(setup: Setup, disk: Disk, path: string) {
    Chunks(setup, disk, path).Some? && Storable(setup, Chunks(setup, disk, path).value)
  }

  // The changed files are taken in order up to the first that fails.
  function ChangedTouches(setup: Setup, project: string, disk: Disk, changed: seq<string>): seq<Touch> {
    if changed == [] then []
    else
      FileTouches(setup, project, disk, changed[0])
      + if Indexable(setup, disk, changed[0]) then ChangedTouches(setup, project, disk, changed[1..]) else []
  }

  function RemovedTouches(project: string, removed: seq<string>): seq<Touch> {
    seq(|removed|, i requires 0 <= i < |removed| => Touch(File(project, removed[i]), []))
  }

  function Touches(setup: Setup, op: Operation): seq<Touch> {
    match op
    case IndexFile(project, path, disk) => FileTouches(setup, project, disk, path)
    case RemoveFile(project, path) => [Touch(File(project, path), [])]
    case Reindex(project, changed, removed, disk) =>
      ChangedTouches(setup, project, disk, changed)
      + if forall p :: p in changed ==> Indexable(setup, disk, p) then RemovedTouches(project, removed) else []
  }

  function AllTouches(setup: Setup, ops: seq<Operation>): seq<Touch> {
    if ops == [] then [] else AllTouches(setup, ops[..|ops| - 1]) + Touches(setup, ops[|ops| - 1])
  }

  // The chunks a file was last given.
  function Last(touches: seq<Touch>, file: File): seq<Chunk> {
    if touches == [] then []
    else
      var last := touches[|touches| - 1];
      if last.file == file then last.chunks else Last(touches[..|touches| - 1], file)
  }

  // Every shelf holds for every file exactly the points of the chunks it was last given, in order and once each.
  ghost predicate Represents(setup: Setup, s: Store, touches: seq<Touch>) {
    forall shelf: Shelf, file: File :: Held(s, shelf, file) == Expected(setup, Last(touches, file), file, shelf)
  }

  lemma LastAppend(touches: seq<Touch>, touch: Touch, file: File)
    ensures Last(touches + [touch], file) == if touch.file == file then touch.chunks else Last(touches, file)
  {
    assert (touches + [touch])[..|touches|] == touches;
  }

  lemma RemovedRepresents(setup: Setup, s: Store, touches: seq<Touch>, file: File)
    requires Represents(setup, s, touches)
    ensures Represents(setup, Removed(s, file), touches + [Touch(file, [])])
  {
    hide Removed, Held;
    forall shelf: Shelf, other: File
      ensures Held(Removed(s, file), shelf, other)
        == Expected(setup, Last(touches + [Touch(file, [])], other), other, shelf)
    {
      RemovedHeld(s, file, shelf, other);
      LastAppend(touches, Touch(file, []), other);
    }
  }

  lemma UpsertedRepresents(setup: Setup, s: Store, touches: seq<Touch>, file: File, chunks: seq<Chunk>)
    requires Represents(setup, s, touches) && chunks != []
    ensures var after := Upserted(setup, Removed(s, file), file, chunks[0].kind, chunks);
      Represents(setup, after.store, touches + [Touch(file, if Storable(setup, chunks) then chunks else [])])
  {
    var touch := Touch(file, if Storable(setup, chunks) then chunks else []);
    var after := Upserted(setup, Removed(s, file), file, chunks[0].kind, chunks);
    hide Removed, Held, Upserted;
    forall shelf: Shelf, other: File
      ensures Held(after.store, shelf, other) == Expected(setup, Last(touches + [touch], other), other, shelf)
    {
      RemovedHeld(s, file, shelf, other);
      UpsertedHeld(setup, Removed(s, file), file, chunks, shelf, other);
      LastAppend(touches, touch, other);
    }
  }

  // Whether a call to `index_file` succeeds does not depend on the store.
  lemma FileSucceedsIff(setup: Setup, s: Store, project: string, disk: Disk, path: string)
    ensures IndexedFile(setup, s, project, disk, path).error.None? <==> Indexable(setup, disk, path)
  {
    var chunks := Chunks(setup, disk, path);
    if chunks.Some? && chunks.value != [] {
      var file := File(project, Slashed(path));
      UpsertedOn(setup, Removed(s, file), file, chunks.value, Shelf(Code, true));
      hide Removed, Upserted;
    }
  }

  lemma FileRepresents(setup: Setup, s: Store, touches: seq<Touch>, project: string, disk: Disk, path: string)
    requires Represents(setup, s, touches) && HasSlashesOnly(path)
    ensures var after := IndexedFile(setup, s, project, disk, path);
      Represents(setup, after.store, touches + FileTouches(setup, project, disk, path))
  {
    SlashedIff(path);
    var chunks := Chunks(setup, disk, path);
    if chunks.None? {
      assert touches + [] == touches;
    } else if chunks.value == [] {
      RemovedRepresents(setup, s, touches, File(project, path));
    } else {
      UpsertedRepresents(setup, s, touches, File(project, path), chunks.value);
    }
  }

  lemma {:induction false} ChangedSucceedsIff(setup: Setup, s: Store, project: string, disk: Disk, changed: seq<string>)
    ensures ReindexedChanged(setup, s, project, disk, changed).error.None?
      <==> forall p :: p in changed ==> Indexable(setup, disk, p)
    decreases |changed|
  {
    if changed != [] {
      FileSucceedsIff(setup, s, project, disk, changed[0]);
      hide IndexedFile, Indexable;
      ChangedSucceedsIff(setup, IndexedFile(setup, s, project, disk, changed[0]).store, project, disk, changed[1..]);
      assert forall p :: p in changed <==> p == changed[0] || p in changed[1..];
    }
  }

  lemma {:induction false} ChangedRepresents(setup: Setup, s: Store, touches: seq<Touch>, project: string, disk: Disk,
      changed: seq<string>)
    requires Represents(setup, s, touches) && forall p :: p in changed ==> HasSlashesOnly(p)
    ensures Represents(setup, ReindexedChanged(setup, s, project, disk, changed).store,
      touches + ChangedTouches(setup, project, disk, changed))
    decreases |changed|
  {
    if changed == [] {
      assert touches + [] == touches;
    } else {
      FileRepresents(setup, s, touches, project, disk, changed[0]);
      FileSucceedsIff(setup, s, project, disk, changed[0]);
      hide Represents, IndexedFile, FileTouches, Indexable, HasSlashesOnly;
      var once := IndexedFile(setup, s, project, disk, changed[0]);
      var first := FileTouches(setup, project, disk, changed[0]);
      var rest := ChangedTouches(setup, project, disk, changed[1..]);
      Regroup(touches, first, rest);
      if Indexable(setup, disk, changed[0]) {
        ChangedRepresents(setup, once.store, touches + first, project, disk, changed[1..]);
      }
    }
  }

  lemma {:induction false} RemovedAllRepresents(setup: Setup, s: Store, touches: seq<Touch>, project: string,
      removed: seq<string>)
    requires Represents(setup, s, touches)
    ensures Represents(setup, RemovedAll(s, project, removed), touches + RemovedTouches(project, removed))
    decreases |removed|
  {
    if removed == [] {
      assert touches + RemovedTouches(project, removed) == touches;
    } else {
      var touch := Touch(File(project, removed[0]), []);
      RemovedRepresents(setup, s, touches, touch.file);
      RemovedAllRepresents(setup, Removed(s, touch.file), touches + [touch], project, removed[1..]);
      assert touches + RemovedTouches(project, removed)
          == (touches + [touch]) + RemovedTouches(project, removed[1..]);
    }
  }

  lemma ReindexRepresents(setup: Setup, s: Store, touches: seq<Touch>, op: Operation)
    requires Represents(setup, s, touches) && SlashesOnly(op) && op.Reindex?
    ensures Represents(setup, Applied(setup, s, op).store, touches + Touches(setup, op))
  {
    ChangedRepresents(setup, s, touches, op.project, op.disk, op.changed);
    ChangedSucceedsIff(setup, s, op.project, op.disk, op.changed);
    hide Represents, ReindexedChanged, ChangedTouches, RemovedTouches, Indexable;
    var first := ReindexedChanged(setup, s, op.project, op.disk, op.changed);
    var changed := ChangedTouches(setup, op.project, op.disk, op.changed);
    Regroup(touches, changed, RemovedTouches(op.project, op.removed));
    if first.error.None? {
      RemovedAllRepresents(setup, first.store, touches + changed, op.project, op.removed);
    }
  }

  lemma AppliedRepresents(setup: Setup, s: Store, touches: seq<Touch>, op: Operation)
    requires Represents(setup, s, touches) && SlashesOnly(op)
    ensures Represents(setup, Applied(setup, s, op).store, touches + Touches(setup, op))
  {
    hide Represents;
    match op
    case IndexFile(project, path, disk) => FileRepresents(setup, s, touches, project, disk, path);
    case RemoveFile(project, path) => RemovedRepresents(setup, s, touches, File(project, path));
    case Reindex(_, _, _, _) => ReindexRepresents(setup, s, touches, op);
  }

  // After any run, failing calls included.
  lemma {:induction false} RunRepresents(setup: Setup, ops: seq<Operation>)
    requires forall op :: op in ops ==> SlashesOnly(op)
    ensures Represents(setup, Run(setup, Store(map[], map[]), ops), AllTouches(setup, ops))
  {
    if ops != [] {
      var front := ops[..|ops| - 1];
      RunRepresents(setup, front);
      AppliedRepresents(setup, Run(setup, Store(map[], map[]), front), AllTouches(setup, front), ops[|ops| - 1]);
    }
  }
}
