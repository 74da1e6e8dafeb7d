/** Overlapping windows over a UTF-8 document: `chunk_doc_text` of crates/crytex-doc/src/lib.rs. */
module DocWindows {
  import opened Utf8

  const MAX_WINDOW: nat := 1200
  const OVERLAP: nat := 160

  // No character of the text is cut at i.
  predicate IsBoundary(s: Bytes, i: nat) {
    i == 0 || i == |s| || (i < |s| && !IsContinuation(s[i]))
  }

  // ----- character boundaries of well-formed text -----

  lemma CharBytes(s: Bytes)
    requires s != [] && StartsChar(s)
    ensures !IsContinuation(s[0]) && forall i :: 1 <= i < PrefixLen(s) ==> IsContinuation(s[i])
  {
  }

  lemma BoundaryAfterChar(s: Bytes, j: nat)
    requires s != [] && Valid(s) && j <= |s| - PrefixLen(s)
    ensures IsBoundary(s, PrefixLen(s) + j) <==> IsBoundary(s[PrefixLen(s)..], j)
  {
    var n := PrefixLen(s);
    if j == 0 && n < |s| {
      CharBytes(s[n..]);
    }
  }

  // From any position, a boundary lies at most three bytes ahead and at most three bytes back.
  lemma {:induction false} BoundaryNear(s: Bytes, i: nat) returns (back: nat, ahead: nat)
    requires Valid(s) && i <= |s|
    ensures back <= i <= back + 3 && IsBoundary(s, back)
    ensures i <= ahead <= i + 3 && ahead <= |s| && IsBoundary(s, ahead)
    decreases |s|
  {
    if i == 0 {
      back, ahead := 0, 0;
    } else {
      var n := PrefixLen(s);
      if i < n {
        back, ahead := 0, n;
        BoundaryAfterChar(s, 0);
      } else {
        back, ahead := BoundaryNear(s[n..], i - n);
        BoundaryAfterChar(s, back);
        BoundaryAfterChar(s, ahead);
        back, ahead := n + back, n + ahead;
      }
    }
  }

  // Cutting at a boundary leaves two well-formed texts.
  lemma {:induction false} BoundaryCuts(s: Bytes, i: nat)
    requires Valid(s) && i <= |s| && IsBoundary(s, i)
    ensures Valid(s[..i]) && Valid(s[i..])
    decreases |s|
  {
    if i > 0 {
      var n := PrefixLen(s);
      CharBytes(s);
      assert i >= n;
      BoundaryAfterChar(s, i - n);
      BoundaryCuts(s[n..], i - n);
      assert s[n..][..i - n] == s[n..i] && s[n..][i - n..] == s[i..];
      assert s[..i][n..] == s[n..i];
      assert StartsChar(s[..i]) && PrefixLen(s[..i]) == n;
    }
  }

  method NextCharBoundary(s: Bytes, from: nat) returns (index: nat)
    requires from <= |s|
    ensures from <= index <= |s| && IsBoundary(s, index) && forall j :: from <= j < index ==> !IsBoundary(s, j)
  {
    index := from;
    while index < |s| && !IsBoundary(s, index)
      invariant from <= index <= |s| && forall j :: from <= j < index ==> !IsBoundary(s, j)
    {
      index := index + 1;
    }
  }

  method PreviousCharBoundary(s: Bytes, from: nat) returns (index: nat)
    requires from <= |s|
    ensures index <= from && IsBoundary(s, index) && forall j :: index < j <= from ==> !IsBoundary(s, j)
  {
    index := from;
    while index > 0 && !IsBoundary(s, index)
      invariant index <= from && forall j :: index < j <= from ==> !IsBoundary(s, j)
    {
      index := index - 1;
    }
  }

  // ----- windows -----

  datatype Window = Window(start: nat, end: nat)

  // Where a window would end if characters were bytes.
  function Limit(s: Bytes, start: nat): nat {
    if start + MAX_WINDOW < |s| then start + MAX_WINDOW else |s|
  }

  // A window ends at the first character boundary from its limit on.
  ghost predicate IsWindow(s: Bytes, w: Window) {
    && w.start < w.end <= |s| && IsBoundary(s, w.start) && IsBoundary(s, w.end)
    && w.end - w.start <= MAX_WINDOW + 3 && (w.end < |s| ==> w.end - w.start >= MAX_WINDOW)
    && Limit(s, w.start) <= w.end && forall j :: Limit(s, w.start) <= j < w.end ==> !IsBoundary(s, j)
  }

  // `v` follows `w`, sharing 160 to 163 bytes with it: as few as boundaries allow.
  ghost predicate Overlaps(s: Bytes, w: Window, v: Window) {
    && w.end < v.end && OVERLAP <= w.end - v.start <= OVERLAP + 3
    && forall j :: v.start < j <= w.end - OVERLAP ==> !IsBoundary(s, j)
  }

  // The windows start at the start, follow each other, and only the last one may end at the end.
  ghost predicate Windowing(s: Bytes, ws: seq<Window>) {
    && (forall i :: 0 <= i < |ws| ==> IsWindow(s, ws[i]))
    && (ws != [] ==> ws[0].start == 0)
    && (forall i :: 0 <= i < |ws| - 1 ==> ws[i].end < |s| && Overlaps(s, ws[i], ws[i + 1]))
  }

  ghost predicate Covers(s: Bytes, ws: seq<Window>) {
    Windowing(s, ws) && if s == [] then ws == [] else ws != [] && ws[|ws| - 1].end == |s|
  }

  // ----- chunks -----

  datatype Chunk = Chunk(index: nat, text: Bytes, startLine: nat, endLine: nat)

  function Newlines(s: Bytes): nat {
    if s == [] then 0 else (if s[|s| - 1] == 0x0A then 1 else 0) + Newlines(s[..|s| - 1])
  }

  function LineAt(s: Bytes, i: nat): nat {
    Newlines(s[..if i < |s| then i else |s|]) + 1
  }

  function AtLeastOne(n: nat): nat {
    if n < 1 then 1 else n
  }

  function ChunkOf(s: Bytes, w: Window, index: nat, text: Bytes, lines: nat): Chunk {
    var endLine := LineAt(s, w.end);
    Chunk(index, text, LineAt(s, w.start), if endLine < AtLeastOne(lines) then endLine else AtLeastOne(lines))
  }

  // The chunks of the windows whose trimmed text is not empty, numbered in order. `trim` is opaque.
  function ChunksOf(s: Bytes, ws: seq<Window>, trim: Bytes -> Bytes, lines: nat): seq<Chunk>
    requires forall i :: 0 <= i < |ws| ==> ws[i].start <= ws[i].end <= |s|
  {
    if ws == [] then []
    else
      var before, w := ChunksOf(s, ws[..|ws| - 1], trim, lines), ws[|ws| - 1];
      var text := trim(s[w.start..w.end]);
      if text == [] then before else before + [ChunkOf(s, w, |before|, text, lines)]
  }

  // One round: the window ends within three bytes of its limit, and the next one starts further on.
  lemma RoundAdvances(s: Bytes, start: nat, end: nat)
    requires Valid(s) && start < |s| && end <= |s| && IsBoundary(s, end)
    requires Limit(s, start) <= end && forall j :: Limit(s, start) <= j < end ==> !IsBoundary(s, j)
    ensures start < end <= start + MAX_WINDOW + 3 && (end < |s| ==> end >= start + MAX_WINDOW)
  {
    var _, ahead := BoundaryNear(s, Limit(s, start));
    assert IsBoundary(s, ahead);
  }

  lemma StepBack(s: Bytes, end: nat, start: nat)
    requires Valid(s) && OVERLAP <= end <= |s| && start <= end - OVERLAP
    requires forall j :: start < j <= end - OVERLAP ==> !IsBoundary(s, j)
    ensures end - start <= OVERLAP + 3
  {
    var back, _ := BoundaryNear(s, end - OVERLAP);
    assert IsBoundary(s, back);
  }

  // The loop can go on at `start`.
  ghost predicate Resumes(s: Bytes, ws: seq<Window>, start: nat) {
    && Windowing(s, ws) && IsBoundary(s, start) && start <= |s|
    && (ws == [] ==> start == 0)
    && (ws != [] ==> var last := ws[|ws| - 1];
                     && last.start < start && last.end < |s| && OVERLAP <= last.end - start <= OVERLAP + 3
                     && forall j :: start < j <= last.end - OVERLAP ==> !IsBoundary(s, j))
  }

  lemma AddWindow(s: Bytes, ws: seq<Window>, start: nat, end: nat)
    requires Resumes(s, ws, start) && IsWindow(s, Window(start, end))
    ensures Windowing(s, ws + [Window(start, end)])
  {
    var ws' := ws + [Window(start, end)];
    forall i | 0 <= i < |ws'| - 1
      ensures ws'[i].end < |s| && Overlaps(s, ws'[i], ws'[i + 1])
    {
      if i < |ws| - 1 {
        assert Overlaps(s, ws[i], ws[i + 1]);
      }
    }
  }

  lemma AddChunk(s: Bytes, ws: seq<Window>, w: Window, trim: Bytes -> Bytes, lines: nat)
    requires (forall i :: 0 <= i < |ws| ==> ws[i].start <= ws[i].end <= |s|) && w.start <= w.end <= |s|
    ensures var before, text := ChunksOf(s, ws, trim, lines), trim(s[w.start..w.end]);
            ChunksOf(s, ws + [w], trim, lines) ==
            if text == [] then before else before + [ChunkOf(s, w, |before|, text, lines)]
  {
    assert (ws + [w])[..|ws|] == ws;
  }

  // A round adds one window and its chunk; at the end of the text the windows cover it.
  lemma RoundAdds(s: Bytes, ws: seq<Window>, start: nat, end: nat, trim: Bytes -> Bytes, lines: nat)
    requires Valid(s) && Resumes(s, ws, start) && start < |s| && end <= |s| && IsBoundary(s, end)
    requires Limit(s, start) <= end && forall j :: Limit(s, start) <= j < end ==> !IsBoundary(s, j)
    ensures var ws', before, text := ws + [Window(start, end)], ChunksOf(s, ws, trim, lines), trim(s[start..end]);
            && start < end && Windowing(s, ws') && (end == |s| ==> Covers(s, ws'))
            && ChunksOf(s, ws', trim, lines) ==
               if text == [] then before else before + [ChunkOf(s, Window(start, end), |before|, text, lines)]
  {
    RoundAdvances(s, start, end);
    AddWindow(s, ws, start, end);
    AddChunk(s, ws, Window(start, end), trim, lines);
    hide ChunksOf, ChunkOf, IsBoundary;
  }

  // If text is left, the loop can go on at the boundary it steps back to.
  lemma RoundResumes(s: Bytes, ws: seq<Window>, start: nat)
    requires Valid(s) && Windowing(s, ws) && ws != [] && ws[|ws| - 1].end < |s|
    requires var end := ws[|ws| - 1].end;
             && start <= end - OVERLAP && IsBoundary(s, start)
             && forall j :: start < j <= end - OVERLAP ==> !IsBoundary(s, j)
    ensures Resumes(s, ws, start) && start > ws[|ws| - 1].start
  {
    StepBack(s, ws[|ws| - 1].end, start);
    hide IsBoundary;
  }

  // The chunks of windows that cover the text.
  ghost predicate IsChunking(s: Bytes, trim: Bytes -> Bytes, lines: nat, chunks: seq<Chunk>) {
    exists ws :: Covers(s, ws) && chunks == ChunksOf(s, ws, trim, lines)
  }

  method ChunkDocText(source: Bytes, trim: Bytes -> Bytes, lines: nat) returns (chunks: seq<Chunk>)
    requires Valid(source)
    ensures IsChunking(source, trim, lines, chunks)
  {
    chunks := [];
    ghost var windows: seq<Window> := [];
    var start, index := 0, 0;
    while start < |source|
      invariant Resumes(source, windows, start)
      invariant chunks == ChunksOf(source, windows, trim, lines) && index == |chunks|
      decreases |source| - start
    {
      var end := NextCharBoundary(source, Limit(source, start));
      RoundAdds(source, windows, start, end, trim, lines);
      hide Windowing, IsBoundary, ChunksOf, ChunkOf, Covers, Valid;
      var text := trim(source[start..end]);
      if text != [] {
        chunks := chunks + [ChunkOf(source, Window(start, end), index, text, lines)];
        index := index + 1;
      }
      windows := windows + [Window(start, end)];
      if end == |source| {
        break;
      }
      start := PreviousCharBoundary(source, if end < OVERLAP then 0 else end - OVERLAP);
      RoundResumes(source, windows, start);
    }
  }

  // ----- what covering windows give -----

  // Every window is well-formed text of its own, and so is the overlap with the next one.
  lemma WindowsAreText(s: Bytes, ws: seq<Window>, i: nat)
    requires Valid(s) && Covers(s, ws) && i < |ws|
    ensures Valid(s[ws[i].start..ws[i].end])
    ensures i + 1 < |ws| ==> Valid(s[ws[i + 1].start..ws[i].end])
  {
    SliceIsText(s, ws[i].start, ws[i].end);
    if i + 1 < |ws| {
      assert Overlaps(s, ws[i], ws[i + 1]);
      SliceIsText(s, ws[i + 1].start, ws[i].end);
    }
  }

  lemma SliceIsText(s: Bytes, from: nat, to: nat)
    requires Valid(s) && from <= to <= |s| && IsBoundary(s, from) && IsBoundary(s, to)
    ensures Valid(s[from..to])
  {
    BoundaryCuts(s, to);
    assert from < to ==> s[..to][from] == s[from];
    BoundaryCuts(s[..to], from);
    assert s[..to][from..] == s[from..to];
  }

  // Windows of the text, each starting within the one before and ending no earlier.
  predicate CanJoin(s: Bytes, ws: seq<Window>) {
    && (forall i :: 0 <= i < |ws| ==> ws[i].start <= ws[i].end <= |s|)
    && (forall i :: 0 <= i < |ws| - 1 ==> ws[i + 1].start <= ws[i].end <= ws[i + 1].end)
  }

  // The first window, then each later one without the part it shares with the one before.
  function Rejoined(s: Bytes, ws: seq<Window>): Bytes
    requires CanJoin(s, ws)
  {
    if ws == [] then []
    else
      var w := ws[|ws| - 1];
      var text := s[w.start..w.end];
      if |ws| == 1 then text
      else Rejoined(s, ws[..|ws| - 1]) + text[ws[|ws| - 2].end - w.start..]
  }

  lemma SlicesJoin(s: Bytes, from: nat, mid: nat, to: nat)
    requires from <= mid <= to <= |s|
    ensures s[..mid] + s[from..to][mid - from..] == s[..to]
  {
    assert s[from..to][mid - from..] == s[mid..to];
  }

  lemma WindowsJoin(s: Bytes, ws: seq<Window>)
    requires Windowing(s, ws)
    ensures CanJoin(s, ws)
  {
    forall i | 0 <= i < |ws| - 1
      ensures ws[i + 1].start <= ws[i].end <= ws[i + 1].end
    {
      assert Overlaps(s, ws[i], ws[i + 1]);
    }
  }

  lemma {:induction false} RejoinedPrefix(s: Bytes, ws: seq<Window>)
    requires ws != [] && ws[0].start == 0 && CanJoin(s, ws)
    ensures Rejoined(s, ws) == s[..ws[|ws| - 1].end]
    decreases |ws|
  {
    if |ws| > 1 {
      var w, v := ws[|ws| - 2], ws[|ws| - 1];
      assert v == ws[|ws| - 2 + 1];
      RejoinedPrefix(s, ws[..|ws| - 1]);
      SlicesJoin(s, v.start, w.end, v.end);
    }
  }

  // Rejoining the windows without their overlaps gives back the text.
  lemma RejoiningRestores(s: Bytes, ws: seq<Window>)
    requires Covers(s, ws)
    ensures CanJoin(s, ws) && Rejoined(s, ws) == s
  {
    WindowsJoin(s, ws);
    if s != [] {
      RejoinedPrefix(s, ws);
    }
  }

  // Every byte lies in some window.
  lemma {:induction false} EveryByteCovered(s: Bytes, ws: seq<Window>, k: nat) returns (i: nat)
    requires Windowing(s, ws) && ws != [] && k < ws[|ws| - 1].end
    ensures i < |ws| && ws[i].start <= k < ws[i].end
    decreases |ws|
  {
    var n := |ws| - 1;
    if ws[n].start <= k {
      i := n;
    } else {
      assert n > 0 && Overlaps(s, ws[n - 1], ws[n - 1 + 1]);
      i := EveryByteCovered(s, ws[..n], k);
    }
  }

  // Windows advance by at least 1037 bytes, so there are few of them.
  lemma {:induction false} StartsAdvance(s: Bytes, ws: seq<Window>)
    requires Windowing(s, ws) && ws != []
    ensures ws[|ws| - 1].start >= (MAX_WINDOW - OVERLAP - 3) * (|ws| - 1)
    decreases |ws|
  {
    if |ws| > 1 {
      assert Overlaps(s, ws[|ws| - 2], ws[|ws| - 2 + 1]);
      StartsAdvance(s, ws[..|ws| - 1]);
    }
  }

  lemma FewWindows(s: Bytes, ws: seq<Window>)
    requires Covers(s, ws)
    ensures |ws| <= 1 + |s| / 1037
  {
    if s != [] {
      StartsAdvance(s, ws);
    }
  }

  // The text determines the windows.
  lemma {:induction false} WindowsAgree(s: Bytes, a: seq<Window>, b: seq<Window>, i: nat)
    requires Covers(s, a) && Covers(s, b) && i < |a| && i < |b|
    ensures a[i] == b[i]
  {
    if i > 0 {
      WindowsAgree(s, a, b, i - 1);
      assert Overlaps(s, a[i - 1], a[i - 1 + 1]) && Overlaps(s, b[i - 1], b[i - 1 + 1]);
      assert IsBoundary(s, a[i].start) && IsBoundary(s, b[i].start);
    }
    assert a[i].start == b[i].start;
    assert IsBoundary(s, a[i].end) && IsBoundary(s, b[i].end);
  }

  lemma WindowsDetermined(s: Bytes, a: seq<Window>, b: seq<Window>)
    requires Covers(s, a) && Covers(s, b)
    ensures a == b
  {
    forall i | 0 <= i < |a| && i < |b|
      ensures a[i] == b[i]
    {
      WindowsAgree(s, a, b, i);
    }
  }

  lemma ChunksDetermined(s: Bytes, trim: Bytes -> Bytes, lines: nat, a: seq<Chunk>, b: seq<Chunk>)
    requires IsChunking(s, trim, lines, a) && IsChunking(s, trim, lines, b)
    ensures a == b
  {
    var v :| Covers(s, v) && a == ChunksOf(s, v, trim, lines);
    var w :| Covers(s, w) && b == ChunksOf(s, w, trim, lines);
    WindowsDetermined(s, v, w);
  }

  // ----- lines -----

  lemma {:induction false} NewlinesGrow(s: Bytes, i: nat, j: nat)
    requires i <= j <= |s|
    ensures Newlines(s[..i]) <= Newlines(s[..j])
    decreases j
  {
    if i < j {
      NewlinesGrow(s, i, j - 1);
      assert s[..j][..j - 1] == s[..j - 1];
    }
  }

  // The line span of a chunk is in order exactly when its window starts within the stated number of lines.
  lemma LinesInOrderIff(s: Bytes, w: Window, index: nat, text: Bytes, lines: nat)
    requires w.start <= w.end <= |s|
    ensures var c := ChunkOf(s, w, index, text, lines);
            c.startLine <= c.endLine <==> LineAt(s, w.start) <= AtLeastOne(lines)
  {
    NewlinesGrow(s, w.start, w.end);
  }

  // The text of an HTML page with a single source line, whose line break is written `&#10;`.
  function BrokenLine(n: nat): Bytes {
    [0x61, 0x0A] + seq(n, i => 0x61)
  }

  lemma {:induction false} OneNewline(n: nat)
    ensures Newlines(BrokenLine(n)) == 1
  {
    var s := BrokenLine(n);
    if n == 0 {
      assert s == [0x61, 0x0A] && s[..1] == [0x61] && s[..1][..0] == [];
      assert Newlines(s[..1]) == 0;
    } else {
      assert s[..|s| - 1] == BrokenLine(n - 1);
      OneNewline(n - 1);
    }
  }

  lemma BrokenLineWindows()
    ensures Covers(BrokenLine(1300), [Window(0, 1200), Window(1040, 1302)])
  {
    var s, w, v := BrokenLine(1300), Window(0, 1200), Window(1040, 1302);
    assert forall i :: 0 <= i < |s| ==> IsBoundary(s, i);
    assert IsWindow(s, w) && IsWindow(s, v) && Overlaps(s, w, v);
  }

  // Its second chunk starts on line 2 and ends on line 1.
  lemma LinesOutOfOrder(trim: Bytes -> Bytes, chunks: seq<Chunk>)
    requires IsChunking(BrokenLine(1300), trim, 1, chunks)
    requires trim(BrokenLine(1300)[0..1200]) != [] && trim(BrokenLine(1300)[1040..1302]) != []
    ensures |chunks| == 2 && chunks[1].startLine == 2 && chunks[1].endLine == 1
  {
    var s, w, v := BrokenLine(1300), Window(0, 1200), Window(1040, 1302);
    BrokenLineWindows();
    var ws :| Covers(s, ws) && chunks == ChunksOf(s, ws, trim, 1);
    WindowsDetermined(s, ws, [w, v]);
    OneNewline(1038);
    assert s[..1040] == BrokenLine(1038);
    assert LineAt(s, 1040) == 2;
    hide Covers, LineAt;
    AddChunk(s, [], w, trim, 1);
    AddChunk(s, [w], v, trim, 1);
    assert [] + [w] == [w] && [w] + [v] == [w, v];
  }
}
