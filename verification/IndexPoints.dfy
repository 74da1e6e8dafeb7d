/** What a stored point consists of: every chunk with the vectors of its own text, through whole runs; and how many points
    `index` adds. */
module IndexPoints {
  import opened Wrappers
  import opened ChunkIndex
  import opened IndexRuns
  import IndexRebuild
  import opened Indexers

  // The i-th point is the i-th chunk of the file, with what the embedders answer for that chunk's text.
  ghost predicate AreChunks(setup: Setup, points: seq<Point>, file: File, chunks: seq<Chunk>, sparse: bool) {
    |points| == |chunks| && forall i :: 0 <= i < |chunks| ==> IsChunk(setup, points[i], file, chunks[i], sparse)
  }

  ghost predicate IsChunk(setup: Setup, p: Point, file: File, chunk: Chunk, sparse: bool) {
    && p.file == file && p.chunk == chunk && setup.embed(chunk.text) == Some(p.vector)
    && if sparse then setup.sparseEmbed.Some? && p.weights.Some? && setup.sparseEmbed.value(chunk.text) == p.weights
       else p.weights == None
  }

  // The dense embedder answers for every chunk, and so does the sparse one if there is one and the store can create
  // sparse collections.
  ghost predicate AllEmbed(setup: Setup, chunks: seq<Chunk>) {
    forall i :: 0 <= i < |chunks| ==>
      setup.embed(chunks[i].text).Some? &&
      (setup.sparseEmbed.Some? && setup.support != NoSparse ==> setup.sparseEmbed.value(chunks[i].text).Some?)
  }

  // The shelf for chunks of a kind: sparse if there is a sparse embedder and the store takes sparse points.
  ghost predicate Receives(setup: Setup, kind: Kind, shelf: Shelf) {
    shelf.kind == kind && (shelf.sparse <==> setup.sparseEmbed.Some? && setup.support == Sparse)
  }

  lemma ExpectedAreChunks(setup: Setup, chunks: seq<Chunk>, file: File, shelf: Shelf)
    requires chunks != []
    ensures Storable(setup, chunks) <==> AllEmbed(setup, chunks)
    ensures Storable(setup, chunks) && Receives(setup, chunks[0].kind, shelf) ==>
              AreChunks(setup, Expected(setup, chunks, file, shelf), file, chunks, shelf.sparse)
    ensures !Storable(setup, chunks) || !Receives(setup, chunks[0].kind, shelf) ==> Expected(setup, chunks, file, shelf) == []
  {
    assert forall i :: 0 <= i < |chunks| ==> chunks[i] in chunks;
  }

  // Storing chunks keeps all points there are. It adds each chunk, in order and with its own vectors, to the one shelf that
  // receives them, and nothing anywhere if some embedder has no answer.
  lemma UpsertedPoints(setup: Setup, s: Store, file: File, chunks: seq<Chunk>, shelf: Shelf)
    requires chunks != []
    ensures var after := Upserted(setup, s, file, chunks[0].kind, chunks);
      var was, now := On(s, shelf), On(after.store, shelf);
      && (after.error == if AllEmbed(setup, chunks) then None else Some(Embedding))
      && was <= now
      && (after.error.None? && Receives(setup, chunks[0].kind, shelf) ==>
            AreChunks(setup, now[|was|..], file, chunks, shelf.sparse))
      && (after.error.Some? || !Receives(setup, chunks[0].kind, shelf) ==> now == was)
  {
    UpsertedOn(setup, s, file, chunks, shelf);
    ExpectedAreChunks(setup, chunks, file, shelf);
    hide Expected, Storable, AreChunks, AllEmbed, Upserted, On;
  }

  // After any run, failing calls included, the chunks a file was last given lie on the one shelf that receives them, each
  // once, in order and with its own vectors; no other shelf holds anything of the file.
  lemma RunHolds(setup: Setup, ops: seq<Operation>, file: File, shelf: Shelf)
    requires forall op :: op in ops ==> SlashesOnly(op)
    ensures var last, held := Last(AllTouches(setup, ops), file), Held(Run(setup, Store(map[], map[]), ops), shelf, file);
      && (last != [] && Receives(setup, last[0].kind, shelf) ==> AreChunks(setup, held, file, last, shelf.sparse))
      && (last == [] || !Receives(setup, last[0].kind, shelf) ==> held == [])
  {
    var last := Last(AllTouches(setup, ops), file);
    RunRepresents(setup, ops);
    IndexRebuild.TouchesStorable(setup, ops);
    IndexRebuild.LastStorable(setup, AllTouches(setup, ops), file);
    assert Held(Run(setup, Store(map[], map[]), ops), shelf, file) == Expected(setup, last, file, shelf);
    assert last == [] ==> Expected(setup, last, file, shelf) == [];
    hide Held, Run, AllTouches, Last, Expected, Storable, AreChunks, Receives;
    if last != [] {
      ExpectedAreChunks(setup, last, file, shelf);
    }
  }

  // --- how much `index` adds ---

  function Size(s: Store): nat {
    |On(s, Shelf(Code, false))| + |On(s, Shelf(Code, true))| + |On(s, Shelf(Doc, false))| + |On(s, Shelf(Doc, true))|
  }

  lemma UpsertedSize(setup: Setup, s: Store, file: File, chunks: seq<Chunk>)
    requires chunks != [] && AllEmbed(setup, chunks)
    ensures Size(Upserted(setup, s, file, chunks[0].kind, chunks).store) == Size(s) + |chunks|
  {
    UpsertedPoints(setup, s, file, chunks, Shelf(Code, false));
    UpsertedPoints(setup, s, file, chunks, Shelf(Code, true));
    UpsertedPoints(setup, s, file, chunks, Shelf(Doc, false));
    UpsertedPoints(setup, s, file, chunks, Shelf(Doc, true));
    hide Upserted, AllEmbed, On;
  }

  // The number of chunks that `index` reports is the number of points it has added.
  lemma {:induction false} IndexAddsReported(setup: Setup, s: Store, project: string, disk: Disk, files: seq<string>)
    requires WalkedAll(setup, s, project, disk, files).error.None?
    ensures Size(WalkedAll(setup, s, project, disk, files).store) == Size(s) + Tally(setup, disk, files).chunksIndexed
    decreases |files|
  {
    if files != [] {
      var path := files[0];
      var chunks := if path in disk then setup.chunk(path, disk) else None;
      if chunks.Some? && chunks.value != [] {
        UpsertedPoints(setup, s, File(project, Slashed(path)), chunks.value, Shelf(Code, false));
        UpsertedSize(setup, s, File(project, Slashed(path)), chunks.value);
      }
      hide Upserted, Size, AllEmbed;
      IndexAddsReported(setup, Walked(setup, s, project, disk, path).store, project, disk, files[1..]);
    }
  }

  // The report counts a file if it can be read and has chunks, and adds up over the files walked.
  lemma TallyOfOne(setup: Setup, disk: Disk, path: string)
    ensures var chunks := if path in disk then setup.chunk(path, disk) else None;
      Tally(setup, disk, [path]) == match chunks {
        case None => IndexStats(0, 0)
        case Some(c) => IndexStats(if c == [] then 0 else 1, |c|)
      }
  {
    assert Tally(setup, disk, []) == IndexStats(0, 0);
  }

  lemma {:induction false} TalliesAdd(setup: Setup, disk: Disk, a: seq<string>, b: seq<string>)
    ensures var r, s, t := Tally(setup, disk, a), Tally(setup, disk, b), Tally(setup, disk, a + b);
      t.filesIndexed == r.filesIndexed + s.filesIndexed && t.chunksIndexed == r.chunksIndexed + s.chunksIndexed
  {
    if a == [] {
      assert a + b == b;
    } else {
      assert (a + b)[1..] == a[1..] + b;
      TalliesAdd(setup, disk, a[1..], b);
    }
  }
}
