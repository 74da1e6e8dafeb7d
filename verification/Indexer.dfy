/** `ProjectIndexer` of crates/crytex-core/src/indexer.rs and the vector store of its tests, proved against ChunkIndex. */
module Indexers {
  import opened Wrappers
  import opened ChunkIndex

  datatype StoreResult = Done | MissingCollection | Unsupported

  datatype IndexStats = IndexStats(filesIndexed: nat, chunksIndexed: nat)

  datatype Report = Report(changedFiles: nat, removedFiles: nat)

  class VectorStore {
    const support: Support
    var collections: map<Kind, seq<Point>>
    var sparseCollections: map<Kind, seq<Point>>

    constructor (support: Support)
      ensures this.support == support && State() == Store(map[], map[])
    {
      this.support := support;
      collections, sparseCollections := map[], map[];
    }

    function State(): Store
      reads this
    {
      Store(collections, sparseCollections)
    }

    method CreateCollection(kind: Kind)
      modifies this
      ensures State() == old(State()).(dense := Created(old(collections), kind))
    {
      if kind !in collections {
        collections := collections[kind := []];
      }
    }

    method Upsert(kind: Kind, points: seq<Point>)
      modifies this
      ensures State() == old(State()).(dense := Extended(old(collections), kind, points))
    {
      if kind !in collections {
        collections := collections[kind := []];
      }
      collections := collections[kind := collections[kind] + points];
    }

    method CreateSparseCollection(kind: Kind) returns (r: StoreResult)
      modifies this
      ensures r == if support.NoSparse? then Unsupported else Done
      ensures State() == if r.Done? then old(State()).(sparse := Created(old(sparseCollections), kind)) else old(State())
    {
      if support.NoSparse? {
        return Unsupported;
      }
      if kind !in sparseCollections {
        sparseCollections := sparseCollections[kind := []];
      }
      r := Done;
    }

    method UpsertWithSparse(kind: Kind, points: seq<Point>) returns (r: StoreResult)
      modifies this
      ensures r == if support.Sparse? then Done else Unsupported
      ensures State()
        == if r.Done? then old(State()).(sparse := Extended(old(sparseCollections), kind, points)) else old(State())
    {
      if !support.Sparse? {
        return Unsupported;
      }
      if kind !in sparseCollections {
        sparseCollections := sparseCollections[kind := []];
      }
      sparseCollections := sparseCollections[kind := sparseCollections[kind] + points];
      r := Done;
    }

    method DeleteByFilter(kind: Kind, file: File) returns (r: StoreResult)
      modifies this
      ensures r == if kind !in old(collections) && kind !in old(sparseCollections) then MissingCollection else Done
      ensures State() == Deleted(old(State()), kind, file)
    {
      if kind !in collections && kind !in sparseCollections {
        return MissingCollection;
      }
      if kind in collections {
        collections := collections[kind := Others(collections[kind], file)];
      }
      if kind in sparseCollections {
        sparseCollections := sparseCollections[kind := Others(sparseCollections[kind], file)];
      }
      r := Done;
    }
  }

  // The files `index` counts, and their chunks.
  function Tally(setup: Setup, disk: Disk, files: seq<string>): IndexStats {
    if files == [] then IndexStats(0, 0)
    else
      var rest := Tally(setup, disk, files[1..]);
      var chunks := if files[0] in disk then setup.chunk(files[0], disk) else None;
      if chunks.None? || chunks.value == [] then rest
      else IndexStats(1 + rest.filesIndexed, |chunks.value| + rest.chunksIndexed)
  }

  class ProjectIndexer {
    const chunk: Chunker
    const embedder: Embedder
    const sparseEmbedder: Option<Embedder>
    const store: VectorStore

    constructor (chunk: Chunker, embedder: Embedder,
        sparseEmbedder: Option<Embedder>, store: VectorStore)
      ensures this.store == store && GetSetup() == Setup(chunk, embedder, sparseEmbedder, store.support)
    {
      this.chunk, this.embedder, this.sparseEmbedder, this.store := chunk, embedder, sparseEmbedder, store;
    }

    function GetSetup(): Setup {
      Setup(chunk, embedder, sparseEmbedder, store.support)
    }

    // The index after the call, together with how the call ended.
    function Ended<T>(r: Result<T, Error>): Outcome
      reads store
    {
      Outcome(store.State(), if r.Ok? then None else Some(r.error))
    }

    static method EmbedAll(embed: Embedder, chunks: seq<Chunk>) returns (r: Option<seq<Vector>>)
      ensures r == Embedded(embed, chunks)
    {
      var vectors: seq<Vector> := [];
      for i := 0 to |chunks|
        invariant |vectors| == i
        invariant forall k :: 0 <= k < i ==> embed(chunks[k].text) == Some(vectors[k])
      {
        var vector := embed(chunks[i].text);
        if vector.None? {
          assert chunks[i] in chunks;
          return None;
        }
        vectors := vectors + [vector.value];
      }
      assert forall c :: c in chunks ==> embed(c.text).Some?;
      assert vectors == Embedded(embed, chunks).value;
      r := Some(vectors);
    }

    method RemoveFile(project: string, path: string)
      modifies store
      ensures store.State() == Removed(old(store.State()), File(project, path))
    {
      // A missing collection is not an error here.
      var code := store.DeleteByFilter(Code, File(project, path));
      var doc := store.DeleteByFilter(Doc, File(project, path));
    }

    method UpsertChunks(project: string, path: string, kind: Kind, chunks: seq<Chunk>) returns (r: Result<(), Error>)
      modifies store
      ensures Ended(r) == Upserted(GetSetup(), old(store.State()), File(project, path), kind, chunks)
    {
      if chunks == [] {
        return Ok(());
      }
      var file := File(project, path);
      var vectors := EmbedAll(embedder, chunks);
      if vectors.None? {
        return Err(Embedding);
      }
      if sparseEmbedder.Some? {
        var created := store.CreateSparseCollection(kind);
        if created.Done? {
          var weights := EmbedAll(sparseEmbedder.value, chunks);
          if weights.None? {
            return Err(Embedding);
          }
          var upserted := store.UpsertWithSparse(kind, SparsePoints(file, chunks, vectors.value, weights.value));
          if upserted.Done? {
            return Ok(());
          }
        }
      }
      store.CreateCollection(kind);
      store.Upsert(kind, DensePoints(file, chunks, vectors.value));
      r := Ok(());
    }

    method IndexFile(project: string, disk: Disk, path: string) returns (r: Result<IndexStats, Error>)
      modifies store
      ensures Ended(r) == IndexedFile(GetSetup(), old(store.State()), project, disk, path)
      ensures r.Ok? ==> r.value == if chunk(path, disk) == Some([]) then IndexStats(0, 0)
        else IndexStats(1, 1)
    {
      if path !in disk {
        return Err(Io);
      }
      var normalized := Slashed(path);
      var chunks := chunk(path, disk);
      if chunks.None? {
        return Err(Chunking);
      }
      if chunks.value == [] {
        RemoveFile(project, path);
        return Ok(IndexStats(0, 0));
      }
      RemoveFile(project, normalized);
      var upserted := UpsertChunks(project, normalized, chunks.value[0].kind, chunks.value);
      if upserted.Err? {
        return Err(upserted.error);
      }
      r := Ok(IndexStats(1, 1));
    }

    method IncrementalReindex(project: string, disk: Disk, changed: seq<string>, removed: seq<string>)
      returns (r: Result<Report, Error>)
      modifies store
      ensures Ended(r) == Reindexed(GetSetup(), old(store.State()), project, disk, changed, removed)
      ensures r.Ok? ==> r.value == Report(|changed|, |removed|)
    {
      hide IndexedFile, Removed;
      ghost var setup, before := GetSetup(), store.State();
      for i := 0 to |changed|
        invariant ReindexedChanged(setup, before, project, disk, changed)
          == ReindexedChanged(setup, store.State(), project, disk, changed[i..])
      {
        assert changed[i..][1..] == changed[i + 1..];
        var indexed := IndexFile(project, disk, changed[i]);
        if indexed.Err? {
          return Err(indexed.error);
        }
      }
      ghost var after := store.State();
      for i := 0 to |removed|
        invariant RemovedAll(after, project, removed) == RemovedAll(store.State(), project, removed[i..])
      {
        assert removed[i..][1..] == removed[i + 1..];
        RemoveFile(project, removed[i]);
      }
      r := Ok(Report(|changed|, |removed|));
    }

    // `files` are the paths the project walk yields.
    method Index(project: string, disk: Disk, files: seq<string>) returns (r: Result<IndexStats, Error>)
      modifies store
      ensures Ended(r) == WalkedAll(GetSetup(), old(store.State()), project, disk, files)
      ensures r.Ok? ==> r.value == Tally(GetSetup(), disk, files)
    {
      hide Upserted;
      ghost var setup, before := GetSetup(), store.State();
      var filesIndexed: nat, chunksIndexed: nat := 0, 0;
      for i := 0 to |files|
        invariant WalkedAll(setup, before, project, disk, files)
          == WalkedAll(setup, store.State(), project, disk, files[i..])
        invariant Tally(setup, disk, files) == IndexStats(filesIndexed + Tally(setup, disk, files[i..]).filesIndexed,
          chunksIndexed + Tally(setup, disk, files[i..]).chunksIndexed)
      {
        assert files[i..][1..] == files[i + 1..];
        var path := files[i];
        if path in disk {
          var relative := Slashed(path);
          var chunks := chunk(path, disk);
          if chunks.None? {
            return Err(Chunking);
          }
          if chunks.value != [] {
            var upserted := UpsertChunks(project, relative, chunks.value[0].kind, chunks.value);
            if upserted.Err? {
              return Err(upserted.error);
            }
            filesIndexed, chunksIndexed := filesIndexed + 1, chunksIndexed + |chunks.value|;
          }
        }
      }
      r := Ok(IndexStats(filesIndexed, chunksIndexed));
    }
  }
}
