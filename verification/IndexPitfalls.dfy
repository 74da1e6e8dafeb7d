/** Inputs on which the index goes out of step: a project indexed twice, a path with a backslash, and a file whose chunks
    depend on another. */
module IndexPitfalls {
  import opened Wrappers
  import opened ChunkIndex
  import opened IndexRuns
  import opened IndexRebuild

  // A file that is not empty has one chunk.
  function OneChunk(path: string, disk: Disk): Option<seq<Chunk>> {
    Some(if path in disk && disk[path] != [] then [Chunk(path, Code, "")] else [])
  }

  function PlainSetup(): Setup {
    Setup(OneChunk, text => Some([]), None, NoSparse)
  }

  const EMPTY: Store := Store(map[], map[])

  lemma PlainStorable(chunks: seq<Chunk>)
    ensures Storable(PlainSetup(), chunks)
  {
  }

  // `index` twice: the file is held twice.
  lemma IndexedTwice()
    ensures var disk := map["a" := [1]];
            var once := WalkedAll(PlainSetup(), EMPTY, "p", disk, ["a"]);
            var twice := WalkedAll(PlainSetup(), once.store, "p", disk, ["a"]);
            && once.error.None? && twice.error.None?
            && |Held(once.store, Shelf(Code, false), File("p", "a"))| == 1
            && |Held(twice.store, Shelf(Code, false), File("p", "a"))| == 2
  {
    var setup, disk, file := PlainSetup(), map["a" := [1]], File("p", "a");
    var chunks := [Chunk("a", Code, "")];
    assert ChunksOn(setup, disk, "a") == chunks;
    PlainStorable(chunks);
    OneWalked(EMPTY, disk);
    var once := WalkedAll(setup, EMPTY, "p", disk, ["a"]).store;
    OneWalked(once, disk);
    assert |Expected(setup, chunks, file, Shelf(Code, false))| == 1;
    WalkedAllHeld(setup, EMPTY, "p", disk, ["a"], Shelf(Code, false), file);
    WalkedAllHeld(setup, once, "p", disk, ["a"], Shelf(Code, false), file);
    hide WalkedAll, Expected;
  }

  lemma OneWalked(s: Store, disk: Disk)
    requires disk == map["a" := [1]]
    ensures WalkedAll(PlainSetup(), s, "p", disk, ["a"]).error.None? && Walkable(["a"])
  {
    var setup, chunks := PlainSetup(), [Chunk("a", Code, "")];
    SlashedIff("a");
    PlainStorable(chunks);
    UpsertedOn(setup, s, File("p", Slashed("a")), chunks, Shelf(Code, false));
    assert ["a"][1..] == [];
  }

  // `a\\b` indexed and removed under that path: its chunk stays under `a/b`.
  lemma RemovedWithBackslash()
    ensures var disk := map["a\\b" := [1]];
            var indexed := IndexedFile(PlainSetup(), EMPTY, "p", disk, "a\\b");
            && indexed.error.None?
            && !HoldsNothing(Removed(indexed.store, File("p", "a\\b")), File("p", Slashed("a\\b")))
  {
    var setup, path := PlainSetup(), "a\\b";
    var disk := map[path := [1]];
    assert path[1] == '\\';
    PlainStorable(ChunksOn(setup, disk, path));
    FileSucceedsIff(setup, EMPTY, "p", disk, path);
    RemoveUndoesIndexIff(setup, EMPTY, "p", disk, path);
  }

  // `a\\b` emptied and indexed again: the chunk it had stays.
  lemma EmptiedWithBackslash()
    ensures var indexed := IndexedFile(PlainSetup(), EMPTY, "p", map["a\\b" := [1]], "a\\b");
            var again := IndexedFile(PlainSetup(), indexed.store, "p", map["a\\b" := []], "a\\b");
            again.error.None? && !HoldsNothing(again.store, File("p", Slashed("a\\b")))
  {
    var setup, path := PlainSetup(), "a\\b";
    var full: Disk, emptied: Disk := map[path := [1]], map[path := []];
    var file := File("p", Slashed(path));
    assert path[1] == '\\';
    var chunks := ChunksOn(setup, full, path);
    PlainStorable(chunks);
    PlainStorable([]);
    var indexed := IndexedFile(setup, EMPTY, "p", full, path).store;
    IndexFileExactIff(setup, EMPTY, "p", full, path);
    var shelf := Shelf(Code, false);
    assert |Held(indexed, shelf, file)| == |Expected(setup, chunks, file, shelf)| == 1;
    RemovedHeld(indexed, File("p", path), shelf, file);
    assert ChunksOn(setup, emptied, path) == [];
    assert file.path != path by {
      SlashedIff(path);
    }
    assert Held(IndexedFile(setup, indexed, "p", emptied, path).store, shelf, file) == Held(indexed, shelf, file);
  }

  // The chunk of `a` names `b` once there is one.
  function Related(path: string, disk: Disk): Option<seq<Chunk>> {
    Some([Chunk(path, Code, if path == "a" && "b" in disk then "b" else "")])
  }

  // `a` and then `b` are indexed as they are added: the chunk of `a` does not name `b`, as it does after a rebuild.
  lemma StaleNeighbour()
    ensures var setup := Setup(Related, text => Some([]), None, NoSparse);
            var disk := map["a" := [1], "b" := [1]];
            var ops := [IndexFile("p", "a", map["a" := [1]]), IndexFile("p", "b", disk)];
            !InStep(setup, AllTouches(setup, ops), "p", disk, ["a", "b"])
  {
    var setup := Setup(Related, text => Some([]), None, NoSparse);
    var first: Disk, disk: Disk := map["a" := [1]], map["a" := [1], "b" := [1]];
    var ops := [IndexFile("p", "a", first), IndexFile("p", "b", disk)];
    assert ops[..1] == [ops[0]] && ops[..1][..0] == [];
    var stale := Touch(File("p", "a"), [Chunk("a", Code, "")]);
    var other := Touch(File("p", "b"), [Chunk("b", Code, "")]);
    assert Touches(setup, ops[0]) == [stale] && Touches(setup, ops[1]) == [other];
    assert AllTouches(setup, ops[..1]) == [] + [stale];
    assert AllTouches(setup, ops) == [stale] + [other];
    LastAppend([stale], other, stale.file);
    LastAppend([], stale, stale.file);
    assert [] + [stale] == [stale];
    assert Last(AllTouches(setup, ops), File("p", "a")) == stale.chunks;
    assert ChunksOn(setup, disk, "a") == [Chunk("a", Code, "b")];
    assert "a" in ["a", "b"];
  }
}
