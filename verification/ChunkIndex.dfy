/** What the operations of crates/crytex-core/src/indexer.rs do to a vector store, and what the store then holds.
    The chunker and the embedders are functions of what they are given. */
module ChunkIndex {
  import opened Wrappers
  import opened Utf8

  datatype Kind = Code | Doc

  datatype Chunk = Chunk(id: string, kind: Kind, text: string)

  datatype File = File(project: string, path: string)

  type Vector = seq<real>

  // A stored vector; the sparse weights are present in sparse collections only.
  datatype Point = Point(file: File, chunk: Chunk, vector: Vector, weights: Option<Vector>)

  // The collections "code_chunks" and "doc_chunks", named by the kind of their chunks.
  datatype Store = Store(dense: map<Kind, seq<Point>>, sparse: map<Kind, seq<Point>>)

  // Which of `create_sparse_collection` and `upsert_with_sparse` the store supports.
  datatype Support = NoSparse | CreateOnly | Sparse

  type Embedder = string -> Option<Vector>

  type Disk = map<string, Bytes>

  // The chunks of a file, named by the path as given, among all files of the project: a chunk may also tell of symbols
  // elsewhere. None is an error.
  type Chunker = (string, Disk) -> Option<seq<Chunk>>

  datatype Setup = Setup(chunk: Chunker, embed: Embedder,
    sparseEmbed: Option<Embedder>, support: Support)

  datatype Error = Io | Chunking | Embedding

  datatype Outcome = Outcome(store: Store, error: Option<Error>)

  // The path with every backslash turned into a slash.
  function Slashed(path: string): (r: string)
    ensures |r| == |path|
    ensures forall i :: 0 <= i < |r| ==> r[i] == if path[i] == '\\' then '/' else path[i]
  {
    seq(|path|, i requires 0 <= i < |path| => if path[i] == '\\' then '/' else path[i])
  }

  predicate HasSlashesOnly(path: string) {
    '\\' !in path
  }

  lemma SlashedIff(path: string)
    ensures Slashed(path) == path <==> HasSlashesOnly(path)
    ensures HasSlashesOnly(Slashed(path))
  {
    if i :| 0 <= i < |path| && path[i] == '\\' {
      assert Slashed(path)[i] != path[i];
    }
  }

  // --- the store ---

  function Of(points: seq<Point>, file: File): (r: seq<Point>)
    ensures forall p :: p in r <==> p in points && p.file == file
  {
    if points == [] then []
    else if points[0].file == file then [points[0]] + Of(points[1..], file)
    else Of(points[1..], file)
  }

  // The points that the filter of `remove_file` lets stay.
  function Others(points: seq<Point>, file: File): (r: seq<Point>)
    ensures forall p :: p in r <==> p in points && p.file != file
  {
    if points == [] then []
    else if points[0].file != file then [points[0]] + Others(points[1..], file)
    else Others(points[1..], file)
  }

  function Retained(collections: map<Kind, seq<Point>>, kind: Kind, file: File): map<Kind, seq<Point>> {
    if kind in collections then collections[kind := Others(collections[kind], file)] else collections
  }

  function Created(collections: map<Kind, seq<Point>>, kind: Kind): map<Kind, seq<Point>> {
    if kind in collections then collections else collections[kind := []]
  }

  function Extended(collections: map<Kind, seq<Point>>, kind: Kind, points: seq<Point>): map<Kind, seq<Point>> {
    collections[kind := Created(collections, kind)[kind] + points]
  }

  function Deleted(s: Store, kind: Kind, file: File): Store {
    Store(Retained(s.dense, kind, file), Retained(s.sparse, kind, file))
  }

  // --- the indexer ---

  function Removed(s: Store, file: File): Store {
    Deleted(Deleted(s, Code, file), Doc, file)
  }

  // The vectors of all chunks; None when some chunk has none.
  function Embedded(embed: Embedder, chunks: seq<Chunk>): (r: Option<seq<Vector>>)
    ensures r.Some? <==> forall c :: c in chunks ==> embed(c.text).Some?
    ensures r.Some? ==> |r.value| == |chunks|
    ensures r.Some? ==> forall i :: 0 <= i < |chunks| ==> embed(chunks[i].text) == Some(r.value[i])
  {
    if chunks == [] then Some([])
    else
      var first := embed(chunks[0].text);
      if first.None? then None
      else
        var rest := Embedded(embed, chunks[1..]);
        if rest.None? then None else Some([first.value] + rest.value)
  }

  function DensePoints(file: File, chunks: seq<Chunk>, vectors: seq<Vector>): (r: seq<Point>)
    requires |vectors| == |chunks|
    ensures |r| == |chunks| && forall p :: p in r ==> p.file == file
  {
    seq(|chunks|, i requires 0 <= i < |chunks| => Point(file, chunks[i], vectors[i], None))
  }

  function SparsePoints(file: File, chunks: seq<Chunk>, vectors: seq<Vector>, weights: seq<Vector>): (r: seq<Point>)
    requires |weights| == |vectors| == |chunks|
    ensures |r| == |chunks| && forall p :: p in r ==> p.file == file
  {
    seq(|chunks|, i requires 0 <= i < |chunks| => Point(file, chunks[i], vectors[i], Some(weights[i])))
  }

  function DenseUpserted(s: Store, kind: Kind, points: seq<Point>): Store {
    s.(dense := Extended(Created(s.dense, kind), kind, points))
  }

  function Upserted(setup: Setup, s: Store, file: File, kind: Kind, chunks: seq<Chunk>): Outcome {
    if chunks == [] then Outcome(s, None)
    else
      var vectors := Embedded(setup.embed, chunks);
      if vectors.None? then Outcome(s, Some(Embedding))
      else if setup.sparseEmbed.None? || setup.support.NoSparse? then
        Outcome(DenseUpserted(s, kind, DensePoints(file, chunks, vectors.value)), None)
      else
        var created := s.(sparse := Created(s.sparse, kind));
        var weights := Embedded(setup.sparseEmbed.value, chunks);
        if weights.None? then Outcome(created, Some(Embedding))
        else if setup.support.Sparse? then
          var points := SparsePoints(file, chunks, vectors.value, weights.value);
          Outcome(created.(sparse := Extended(created.sparse, kind, points)), None)
        else
          Outcome(DenseUpserted(created, kind, DensePoints(file, chunks, vectors.value)), None)
  }

  function IndexedFile(setup: Setup, s: Store, project: string, disk: Disk, path: string): Outcome {
    if path !in disk then Outcome(s, Some(Io))
    else
      var chunks := setup.chunk(path, disk);
      if chunks.None? then Outcome(s, Some(Chunking))
      else if chunks.value == [] then Outcome(Removed(s, File(project, path)), None)
      else
        var file := File(project, Slashed(path));
        Upserted(setup, Removed(s, file), file, chunks.value[0].kind, chunks.value)
  }

  function ReindexedChanged(setup: Setup, s: Store, project: string, disk: Disk, changed: seq<string>): Outcome
    decreases |changed|
  {
    if changed == [] then Outcome(s, None)
    else
      var first := IndexedFile(setup, s, project, disk, changed[0]);
      if first.error.Some? then first else ReindexedChanged(setup, first.store, project, disk, changed[1..])
  }

  function RemovedAll(s: Store, project: string, removed: seq<string>): Store
    decreases |removed|
  {
    if removed == [] then s else RemovedAll(Removed(s, File(project, removed[0])), project, removed[1..])
  }

  function Reindexed(setup: Setup, s: Store, project: string, disk: Disk, changed: seq<string>, removed: seq<string>)
    : Outcome
  {
    var first := ReindexedChanged(setup, s, project, disk, changed);
    if first.error.Some? then first else Outcome(RemovedAll(first.store, project, removed), None)
  }

  // One round of `index`: an unreadable file is passed over, and nothing is deleted first.
  function Walked(setup: Setup, s: Store, project: string, disk: Disk, path: string): Outcome {
    if path !in disk then Outcome(s, None)
    else
      var chunks := setup.chunk(path, disk);
      if chunks.None? then Outcome(s, Some(Chunking))
      else if chunks.value == [] then Outcome(s, None)
      else Upserted(setup, s, File(project, Slashed(path)), chunks.value[0].kind, chunks.value)
  }

  function WalkedAll(setup: Setup, s: Store, project: string, disk: Disk, files: seq<string>): Outcome
    decreases |files|
  {
    if files == [] then Outcome(s, None)
    else
      var first := Walked(setup, s, project, disk, files[0]);
      if first.error.Some? then first else WalkedAll(setup, first.store, project, disk, files[1..])
  }

  // --- what the store should hold ---

  // A collection of the store.
  datatype Shelf = Shelf(kind: Kind, sparse: bool)

  function On(s: Store, shelf: Shelf): seq<Point> {
    var collections := if shelf.sparse then s.sparse else s.dense;
    if shelf.kind in collections then collections[shelf.kind] else []
  }

  function Held(s: Store, shelf: Shelf, file: File): seq<Point> {
    Of(On(s, shelf), file)
  }

  predicate UsesSparse(setup: Setup) {
    setup.sparseEmbed.Some? && setup.support.Sparse?
  }

  // Every embedder `upsert_chunks` asks has an answer for every chunk.
  predicate Storable(setup: Setup, chunks: seq<Chunk>) {
    && Embedded(setup.embed, chunks).Some?
    && (setup.sparseEmbed.Some? && !setup.support.NoSparse? ==> Embedded(setup.sparseEmbed.value, chunks).Some?)
  }

  // The points of the chunks of a file on a shelf: all of them on the shelf of the first chunk's kind, each once.
  function Expected(setup: Setup, chunks: seq<Chunk>, file: File, shelf: Shelf): (r: seq<Point>)
    ensures forall p :: p in r ==> p.file == file
  {
    if chunks == [] || shelf != Shelf(chunks[0].kind, UsesSparse(setup)) || !Storable(setup, chunks) then []
    else if shelf.sparse then
      SparsePoints(file, chunks, Embedded(setup.embed, chunks).value, Embedded(setup.sparseEmbed.value, chunks).value)
    else
      DensePoints(file, chunks, Embedded(setup.embed, chunks).value)
  }

  lemma {:induction false} OfConcat(a: seq<Point>, b: seq<Point>, file: File)
    ensures Of(a + b, file) == Of(a, file) + Of(b, file)
  {
    if a == [] {
      assert a + b == b;
    } else {
      assert (a + b)[1..] == a[1..] + b;
      OfConcat(a[1..], b, file);
    }
  }

  lemma {:induction false} OfOthers(points: seq<Point>, file: File, other: File)
    ensures Of(Others(points, file), other) == if other == file then [] else Of(points, other)
  {
    if points != [] {
      OfOthers(points[1..], file, other);
      var rest := Others(points[1..], file);
      if points[0].file != file {
        assert ([points[0]] + rest)[1..] == rest;
      }
    }
  }

  lemma {:induction false} OfOwn(points: seq<Point>, file: File, other: File)
    requires forall p :: p in points ==> p.file == file
    ensures Of(points, other) == if other == file then points else []
  {
    if points != [] {
      assert points[0] in points;
      OfOwn(points[1..], file, other);
    }
  }

  lemma RemovedHeld(s: Store, file: File, shelf: Shelf, other: File)
    ensures Held(Removed(s, file), shelf, other) == if other == file then [] else Held(s, shelf, other)
  {
    var points := On(s, shelf);
    OfOthers(points, file, other);
    OfOthers(Others(points, file), file, other);
    hide Of, Others;
    var once := Deleted(s, Code, file);
    if shelf.kind == Code {
      assert On(once, shelf) == Others(points, file) || On(once, shelf) == points == [];
      assert On(Removed(s, file), shelf) == On(once, shelf);
    } else {
      assert On(once, shelf) == points;
      assert On(Removed(s, file), shelf) == Others(points, file) || On(Removed(s, file), shelf) == points == [];
    }
    assert Of([], other) == [] by { OfOwn([], file, other); }
  }

  lemma UpsertedOn(setup: Setup, s: Store, file: File, chunks: seq<Chunk>, shelf: Shelf)
    requires chunks != []
    ensures var after := Upserted(setup, s, file, chunks[0].kind, chunks);
      && after.error == (if Storable(setup, chunks) then None else Some(Embedding))
      && On(after.store, shelf) == On(s, shelf) + Expected(setup, chunks, file, shelf)
  {
    hide Embedded, DensePoints, SparsePoints;
  }

  lemma UpsertedHeld(setup: Setup, s: Store, file: File, chunks: seq<Chunk>, shelf: Shelf, other: File)
    requires chunks != []
    ensures Held(Upserted(setup, s, file, chunks[0].kind, chunks).store, shelf, other)
      == Held(s, shelf, other) + if other == file then Expected(setup, chunks, file, shelf) else []
  {
    var added := Expected(setup, chunks, file, shelf);
    UpsertedOn(setup, s, file, chunks, shelf);
    OfConcat(On(s, shelf), added, other);
    OfOwn(added, file, other);
  }
}
