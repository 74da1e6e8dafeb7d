/** What the chunks of a document hold, window by window. */
module DocChunks {
  import opened Utf8
  import opened DocWindows

  // In bytes: a window is at most 1203 long, and all but the last at least 1200; it shares 160 to 163 with the next.
  lemma WindowSizes(s: Bytes, ws: seq<Window>, i: nat)
    requires Covers(s, ws) && i < |ws|
    ensures ws[i].end - ws[i].start <= 1203 && (i == |ws| - 1 <==> ws[i].end == |s|)
    ensures i < |ws| - 1 ==> ws[i].end - ws[i].start >= 1200 && 160 <= ws[i].end - ws[i + 1].start <= 163
  {
    if i < |ws| - 1 {
      assert Overlaps(s, ws[i], ws[i + 1]);
    }
  }

  function NewlinesBefore(s: Bytes, i: nat): set<nat> {
    set k | 0 <= k < |s| && k < i && s[k] == 0x0A
  }

  lemma {:induction false} CountNewlines(s: Bytes, i: nat)
    requires i <= |s|
    ensures LineAt(s, i) == 1 + |NewlinesBefore(s, i)|
  {
    if i == 0 {
      assert s[..0] == [] && NewlinesBefore(s, 0) == {};
    } else {
      CountNewlines(s, i - 1);
      assert s[..i][..i - 1] == s[..i - 1];
      assert NewlinesBefore(s, i) == NewlinesBefore(s, i - 1) + if s[i - 1] == 0x0A then {i - 1} else {};
    }
  }

  // A chunk has the trimmed text of its window, the line its window starts on, and the line its window ends on or, if that
  // is less, the given number of lines, which counts as 1 when it is 0.
  ghost predicate IsChunkOf(s: Bytes, w: Window, trim: Bytes -> Bytes, lines: nat, index: nat, chunk: Chunk)
    requires w.start <= w.end <= |s|
  {
    var end := 1 + |NewlinesBefore(s, w.end)|;
    && chunk.index == index && chunk.text == trim(s[w.start..w.end])
    && chunk.startLine == 1 + |NewlinesBefore(s, w.start)|
    && chunk.endLine == if end <= 1 || end <= lines then end else if lines <= 1 then 1 else lines
  }

  // The chunks are those of the windows numbered `from`: the ones that are not blank, in order.
  ghost predicate AreChunks(s: Bytes, ws: seq<Window>, trim: Bytes -> Bytes, lines: nat, chunks: seq<Chunk>, from: seq<nat>)
    requires forall i :: 0 <= i < |ws| ==> ws[i].start <= ws[i].end <= |s|
  {
    && |from| == |chunks|
    && (forall j, k :: 0 <= j < k < |from| ==> from[j] < from[k])
    && (forall i :: i in from <==> 0 <= i < |ws| && trim(s[ws[i].start..ws[i].end]) != [])
    && forall j :: 0 <= j < |chunks| ==> from[j] < |ws| && IsChunkOf(s, ws[from[j]], trim, lines, j, chunks[j])
  }

  lemma {:induction false} ChunksAre(s: Bytes, ws: seq<Window>, trim: Bytes -> Bytes, lines: nat) returns (from: seq<nat>)
    requires forall i :: 0 <= i < |ws| ==> ws[i].start <= ws[i].end <= |s|
    ensures AreChunks(s, ws, trim, lines, ChunksOf(s, ws, trim, lines), from)
  {
    from := [];
    if ws != [] {
      from := ChunksAre(s, ws[..|ws| - 1], trim, lines);
      from := OneMoreWindow(s, ws, trim, lines, from);
    }
  }

  lemma OneMoreWindow(s: Bytes, ws: seq<Window>, trim: Bytes -> Bytes, lines: nat, before: seq<nat>) returns (from: seq<nat>)
    requires ws != [] && forall i :: 0 <= i < |ws| ==> ws[i].start <= ws[i].end <= |s|
    requires AreChunks(s, ws[..|ws| - 1], trim, lines, ChunksOf(s, ws[..|ws| - 1], trim, lines), before)
    ensures AreChunks(s, ws, trim, lines, ChunksOf(s, ws, trim, lines), from)
  {
    var n := |ws| - 1;
    var chunks, text := ChunksOf(s, ws[..n], trim, lines), trim(s[ws[n].start..ws[n].end]);
    assert ChunksOf(s, ws, trim, lines) == if text == [] then chunks else chunks + [ChunkOf(s, ws[n], |chunks|, text, lines)];
    hide ChunksOf;
    if text == [] {
      from := before;
      BlankWindow(s, ws, trim, lines, chunks, before);
    } else {
      from := before + [n];
      CountNewlines(s, ws[n].start);
      CountNewlines(s, ws[n].end);
      NextChunk(s, ws, trim, lines, chunks, before, ChunkOf(s, ws[n], |chunks|, text, lines));
    }
  }

  lemma BlankWindow(s: Bytes, ws: seq<Window>, trim: Bytes -> Bytes, lines: nat, chunks: seq<Chunk>, from: seq<nat>)
    requires ws != [] && forall i :: 0 <= i < |ws| ==> ws[i].start <= ws[i].end <= |s|
    requires AreChunks(s, ws[..|ws| - 1], trim, lines, chunks, from)
    requires trim(s[ws[|ws| - 1].start..ws[|ws| - 1].end]) == []
    ensures AreChunks(s, ws, trim, lines, chunks, from)
  {
    hide IsChunkOf;
  }

  lemma NextChunk(s: Bytes, ws: seq<Window>, trim: Bytes -> Bytes, lines: nat, chunks: seq<Chunk>, from: seq<nat>, chunk: Chunk)
    requires ws != [] && forall i :: 0 <= i < |ws| ==> ws[i].start <= ws[i].end <= |s|
    requires AreChunks(s, ws[..|ws| - 1], trim, lines, chunks, from)
    requires trim(s[ws[|ws| - 1].start..ws[|ws| - 1].end]) != []
    requires IsChunkOf(s, ws[|ws| - 1], trim, lines, |chunks|, chunk)
    ensures AreChunks(s, ws, trim, lines, chunks + [chunk], from + [|ws| - 1])
  {
    hide IsChunkOf;
  }

  // `chunk_doc_text` gives one chunk for every window that is not blank, and nothing else.
  lemma ChunkingIs(s: Bytes, trim: Bytes -> Bytes, lines: nat, chunks: seq<Chunk>)
    requires IsChunking(s, trim, lines, chunks)
    ensures exists ws, from :: Covers(s, ws) && AreChunks(s, ws, trim, lines, chunks, from)
  {
    var ws :| Covers(s, ws) && chunks == ChunksOf(s, ws, trim, lines);
    var from := ChunksAre(s, ws, trim, lines);
  }
}
