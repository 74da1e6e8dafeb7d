/** When the index kept up to date file by file agrees with one built by `index` from nothing, and when `index`,
    `index_file` and `remove_file` leave a file's chunks stale or doubled. */
module IndexRebuild {
  import opened ChunkIndex
  import opened IndexRuns

  function ChunksOn(setup: Setup, disk: Disk, path: string): seq<Chunk> {
    if Chunks(setup, disk, path).Some? then Chunks(setup, disk, path).value else []
  }

  predicate Distinct(files: seq<string>) {
    forall i, j :: 0 <= i < j < |files| ==> files[i] != files[j]
  }

  // The paths a project walk yields: each once, with slashes.
  predicate Walkable(files: seq<string>) {
    Distinct(files) && forall p :: p in files ==> HasSlashesOnly(p)
  }

  lemma WalkedHeld(setup: Setup, s: Store, project: string, disk: Disk, path: string, shelf: Shelf, other: File)
    requires HasSlashesOnly(path) && Walked(setup, s, project, disk, path).error.None?
    ensures Held(Walked(setup, s, project, disk, path).store, shelf, other)
      == Held(s, shelf, other)
        + if other == File(project, path) then Expected(setup, ChunksOn(setup, disk, path), other, shelf) else []
  {
    SlashedIff(path);
    var chunks := ChunksOn(setup, disk, path);
    if chunks != [] {
      UpsertedHeld(setup, s, File(project, path), chunks, shelf, other);
    }
  }

  // `index` adds to what is held the chunks of every file it walks.
  lemma {:induction false} WalkedAllHeld(setup: Setup, s: Store, project: string, disk: Disk, files: seq<string>,
      shelf: Shelf, other: File)
    requires Walkable(files) && WalkedAll(setup, s, project, disk, files).error.None?
    ensures Held(WalkedAll(setup, s, project, disk, files).store, shelf, other)
      == Held(s, shelf, other)
        + if other.project == project && other.path in files
          then Expected(setup, ChunksOn(setup, disk, other.path), other, shelf) else []
    decreases |files|
  {
    if files != [] {
      var first, rest := files[0], files[1..];
      assert files == [first] + rest && first !in rest;
      WalkedHeld(setup, s, project, disk, first, shelf, other);
      hide Held, Walked, Expected, ChunksOn;
      WalkedAllHeld(setup, Walked(setup, s, project, disk, first).store, project, disk, rest, shelf, other);
    }
  }

  function OfProject(points: seq<Point>, project: string): seq<Point> {
    if points == [] then []
    else if points[0].file.project == project then [points[0]] + OfProject(points[1..], project)
    else OfProject(points[1..], project)
  }

  lemma {:induction false} OfCounts(points: seq<Point>, project: string, x: Point)
    ensures multiset(OfProject(points, project))[x]
      == if x.file.project == project then multiset(Of(points, x.file))[x] else 0
  {
    if points != [] {
      OfCounts(points[1..], project, x);
      assert points == [points[0]] + points[1..];
      assert multiset([points[0]] + OfProject(points[1..], project))
          == multiset{points[0]} + multiset(OfProject(points[1..], project));
      assert multiset([points[0]] + Of(points[1..], x.file)) == multiset{points[0]} + multiset(Of(points[1..], x.file));
    }
  }

  // Two collections that hold the same for every file of a project hold the same points of the project.
  lemma SameFilesSamePoints(a: seq<Point>, b: seq<Point>, project: string)
    requires forall path: string :: Of(a, File(project, path)) == Of(b, File(project, path))
    ensures multiset(OfProject(a, project)) == multiset(OfProject(b, project))
  {
    forall x: Point
      ensures multiset(OfProject(a, project))[x] == multiset(OfProject(b, project))[x]
    {
      OfCounts(a, project, x);
      OfCounts(b, project, x);
      if x.file.project == project {
        assert x.file == File(project, x.file.path);
      }
    }
  }

  ghost predicate InStep(setup: Setup, touches: seq<Touch>, project: string, disk: Disk, files: seq<string>) {
    forall path: string ::
      Last(touches, File(project, path)) == (if path in files then ChunksOn(setup, disk, path) else [])
  }

  // After a run that leaves every file of the tree last indexed with its final contents and every other file removed,
  // each collection holds for the project the points `index` puts into an empty store: the same for each file, in the
  // same order, and so the same as a whole.
  lemma RebuildAgrees(setup: Setup, ops: seq<Operation>, project: string, disk: Disk, files: seq<string>, shelf: Shelf)
    requires forall op :: op in ops ==> SlashesOnly(op)
    requires Walkable(files) && WalkedAll(setup, Store(map[], map[]), project, disk, files).error.None?
    requires InStep(setup, AllTouches(setup, ops), project, disk, files)
    ensures var kept := Run(setup, Store(map[], map[]), ops);
      var built := WalkedAll(setup, Store(map[], map[]), project, disk, files).store;
      && (forall path: string :: Held(kept, shelf, File(project, path)) == Held(built, shelf, File(project, path)))
      && multiset(OfProject(On(kept, shelf), project)) == multiset(OfProject(On(built, shelf), project))
  {
    RunRepresents(setup, ops);
    var empty := Store(map[], map[]);
    var kept, built := Run(setup, empty, ops), WalkedAll(setup, empty, project, disk, files).store;
    forall path: string
      ensures Held(kept, shelf, File(project, path)) == Held(built, shelf, File(project, path))
    {
      var file := File(project, path);
      assert Held(empty, shelf, file) == [];
      WalkedAllHeld(setup, empty, project, disk, files, shelf, file);
      hide Held, WalkedAll, Run, AllTouches, ChunksOn;
      assert Held(kept, shelf, file) == Expected(setup, Last(AllTouches(setup, ops), file), file, shelf);
    }
    SameFilesSamePoints(On(kept, shelf), On(built, shelf), project);
  }

  // --- agreement says that every file is up to date ---

  ghost predicate AllStorable(setup: Setup, touches: seq<Touch>) {
    forall i :: 0 <= i < |touches| ==> Storable(setup, touches[i].chunks)
  }

  lemma {:induction false} LastStorable(setup: Setup, touches: seq<Touch>, file: File)
    requires AllStorable(setup, touches)
    ensures Storable(setup, Last(touches, file))
  {
    if touches != [] {
      LastStorable(setup, touches[..|touches| - 1], file);
    }
  }

  lemma {:induction false} ChangedTouchesStorable(setup: Setup, project: string, disk: Disk, changed: seq<string>)
    ensures AllStorable(setup, ChangedTouches(setup, project, disk, changed))
  {
    if changed != [] {
      ChangedTouchesStorable(setup, project, disk, changed[1..]);
    }
  }

  lemma {:induction false} TouchesStorable(setup: Setup, ops: seq<Operation>)
    ensures AllStorable(setup, AllTouches(setup, ops))
  {
    if ops != [] {
      TouchesStorable(setup, ops[..|ops| - 1]);
      var op := ops[|ops| - 1];
      if op.Reindex? {
        ChangedTouchesStorable(setup, op.project, op.disk, op.changed);
      }
      assert AllStorable(setup, Touches(setup, op));
    }
  }

  lemma {:induction false} WalkedStorable(setup: Setup, s: Store, project: string, disk: Disk, files: seq<string>, path: string)
    requires WalkedAll(setup, s, project, disk, files).error.None? && path in files
    ensures Storable(setup, ChunksOn(setup, disk, path))
    decreases |files|
  {
    var first := files[0];
    if path == first {
      var chunks := ChunksOn(setup, disk, first);
      if chunks != [] {
        UpsertedOn(setup, s, File(project, Slashed(first)), chunks, Shelf(Code, true));
      }
    } else {
      WalkedStorable(setup, Walked(setup, s, project, disk, first).store, project, disk, files[1..], path);
    }
  }

  // What the shelves hold for a file tells its chunks.
  lemma ExpectedTells(setup: Setup, a: seq<Chunk>, b: seq<Chunk>, file: File)
    requires Storable(setup, a) && Storable(setup, b)
    requires forall shelf: Shelf :: Expected(setup, a, file, shelf) == Expected(setup, b, file, shelf)
    ensures a == b
  {
    if a != [] {
      SameChunks(setup, a, b, file);
    } else if b != [] {
      SameChunks(setup, b, a, file);
    }
  }

  lemma SameChunks(setup: Setup, a: seq<Chunk>, b: seq<Chunk>, file: File)
    requires Storable(setup, a) && Storable(setup, b) && a != []
    requires forall shelf: Shelf :: Expected(setup, a, file, shelf) == Expected(setup, b, file, shelf)
    ensures a == b
  {
    var shelf := Shelf(a[0].kind, UsesSparse(setup));
    var points := Expected(setup, a, file, shelf);
    assert points == Expected(setup, b, file, shelf) && |points| == |a|;
    assert |b| == |a|;
    assert forall i :: 0 <= i < |a| ==> points[i].chunk == a[i] && points[i].chunk == b[i];
  }

  ghost predicate AgreesWith(kept: Store, built: Store, project: string) {
    forall shelf: Shelf, path: string :: Held(kept, shelf, File(project, path)) == Held(built, shelf, File(project, path))
  }

  // The store kept by a run agrees with one built from nothing if and only if every file of the tree was last given the
  // chunks it has in the final tree, and every other file none.
  lemma RebuildAgreesIff(setup: Setup, ops: seq<Operation>, project: string, disk: Disk, files: seq<string>)
    requires forall op :: op in ops ==> SlashesOnly(op)
    requires Walkable(files) && WalkedAll(setup, Store(map[], map[]), project, disk, files).error.None?
    ensures AgreesWith(Run(setup, Store(map[], map[]), ops),
        WalkedAll(setup, Store(map[], map[]), project, disk, files).store, project)
      <==> InStep(setup, AllTouches(setup, ops), project, disk, files)
  {
    var empty := Store(map[], map[]);
    var kept, built := Run(setup, empty, ops), WalkedAll(setup, empty, project, disk, files).store;
    if InStep(setup, AllTouches(setup, ops), project, disk, files) {
      forall shelf: Shelf, path: string
        ensures Held(kept, shelf, File(project, path)) == Held(built, shelf, File(project, path))
      {
        RebuildAgrees(setup, ops, project, disk, files, shelf);
      }
    }
    if AgreesWith(kept, built, project) {
      forall path: string
        ensures Last(AllTouches(setup, ops), File(project, path)) == (if path in files then ChunksOn(setup, disk, path) else [])
      {
        AgreeingChunks(setup, ops, project, disk, files, path);
      }
    }
  }

  lemma AgreeingChunks(setup: Setup, ops: seq<Operation>, project: string, disk: Disk, files: seq<string>, path: string)
    requires forall op :: op in ops ==> SlashesOnly(op)
    requires Walkable(files) && WalkedAll(setup, Store(map[], map[]), project, disk, files).error.None?
    requires AgreesWith(Run(setup, Store(map[], map[]), ops),
               WalkedAll(setup, Store(map[], map[]), project, disk, files).store, project)
    ensures Last(AllTouches(setup, ops), File(project, path)) == if path in files then ChunksOn(setup, disk, path) else []
  {
    var empty, file := Store(map[], map[]), File(project, path);
    var last := Last(AllTouches(setup, ops), file);
    var chunks := if path in files then ChunksOn(setup, disk, path) else [];
    RunRepresents(setup, ops);
    TouchesStorable(setup, ops);
    LastStorable(setup, AllTouches(setup, ops), file);
    if path in files {
      WalkedStorable(setup, empty, project, disk, files, path);
    }
    forall shelf: Shelf
      ensures Expected(setup, last, file, shelf) == Expected(setup, chunks, file, shelf)
    {
      assert Held(empty, shelf, file) == [];
      WalkedAllHeld(setup, empty, project, disk, files, shelf, file);
      hide Held, WalkedAll, Run, AllTouches, ChunksOn, Last;
      assert Held(Run(setup, empty, ops), shelf, file) == Expected(setup, last, file, shelf);
    }
    ExpectedTells(setup, last, chunks, file);
  }

  ghost predicate HoldsNothing(s: Store, file: File) {
    forall shelf: Shelf :: Held(s, shelf, file) == []
  }

  ghost predicate HoldsExactly(setup: Setup, s: Store, file: File, chunks: seq<Chunk>) {
    forall shelf: Shelf :: Held(s, shelf, file) == Expected(setup, chunks, file, shelf)
  }

  // `index` deletes nothing, so a file it walks ends up with its chunks once if and only if none were held before.
  lemma IndexExactIff(setup: Setup, s: Store, project: string, disk: Disk, files: seq<string>, path: string)
    requires Walkable(files) && WalkedAll(setup, s, project, disk, files).error.None? && path in files
    ensures HoldsExactly(setup, WalkedAll(setup, s, project, disk, files).store, File(project, path),
        ChunksOn(setup, disk, path))
      <==> HoldsNothing(s, File(project, path))
  {
    var file := File(project, path);
    var after := WalkedAll(setup, s, project, disk, files).store;
    var chunks := ChunksOn(setup, disk, path);
    forall shelf: Shelf
      ensures Held(after, shelf, file) == Expected(setup, chunks, file, shelf) <==> Held(s, shelf, file) == []
    {
      WalkedAllHeld(setup, s, project, disk, files, shelf, file);
      hide Held, Expected, WalkedAll, ChunksOn;
      var before, added := Held(s, shelf, file), Expected(setup, chunks, file, shelf);
      assert |before + added| == |before| + |added|;
    }
  }

  // A file indexed under a path with a backslash is kept under the path with slashes, but a file without chunks is
  // removed under the path as given: its old chunks stay if and only if there were any and the path has a backslash.
  lemma IndexFileExactIff(setup: Setup, s: Store, project: string, disk: Disk, path: string)
    requires Indexable(setup, disk, path)
    ensures HoldsExactly(setup, IndexedFile(setup, s, project, disk, path).store, File(project, Slashed(path)),
        ChunksOn(setup, disk, path))
      <==> HasSlashesOnly(path) || ChunksOn(setup, disk, path) != [] || HoldsNothing(s, File(project, Slashed(path)))
  {
    SlashedIff(path);
    var file := File(project, Slashed(path));
    var chunks := ChunksOn(setup, disk, path);
    var after := IndexedFile(setup, s, project, disk, path).store;
    forall shelf: Shelf
      ensures Held(after, shelf, file)
        == if HasSlashesOnly(path) || chunks != [] then Expected(setup, chunks, file, shelf) else Held(s, shelf, file)
    {
      RemovedHeld(s, File(project, path), shelf, file);
      if chunks != [] {
        RemovedHeld(s, file, shelf, file);
        UpsertedHeld(setup, Removed(s, file), file, chunks, shelf, file);
      }
    }
    hide Held, IndexedFile;
    if chunks == [] {
      assert forall shelf: Shelf :: Expected(setup, chunks, file, shelf) == [];
    }
  }

  // `remove_file` takes back what `index_file` with the same path stored if and only if there was nothing to store or
  // the path has no backslash.
  lemma RemoveUndoesIndexIff(setup: Setup, s: Store, project: string, disk: Disk, path: string)
    requires Indexable(setup, disk, path) && HoldsNothing(s, File(project, Slashed(path)))
    ensures HoldsNothing(Removed(IndexedFile(setup, s, project, disk, path).store, File(project, path)),
        File(project, Slashed(path)))
      <==> HasSlashesOnly(path) || ChunksOn(setup, disk, path) == []
  {
    SlashedIff(path);
    var file := File(project, Slashed(path));
    var chunks := ChunksOn(setup, disk, path);
    var after := IndexedFile(setup, s, project, disk, path).store;
    IndexFileExactIff(setup, s, project, disk, path);
    hide IndexedFile, Removed, Held;
    forall shelf: Shelf
      ensures Held(Removed(after, File(project, path)), shelf, file)
        == if HasSlashesOnly(path) then [] else Expected(setup, chunks, file, shelf)
    {
      RemovedHeld(after, File(project, path), shelf, file);
    }
    if chunks != [] {
      var shelf := Shelf(chunks[0].kind, UsesSparse(setup));
      assert |Expected(setup, chunks, file, shelf)| == |chunks|;
    }
  }
}
