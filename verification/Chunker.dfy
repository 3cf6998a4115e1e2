/** Splitting a text into overlapping chunks at white space. */
module Chunker {
  import opened Collections
  import opened Text

  /** `text.rfind(c, start, end)` */
  function LastIndex(s: string, c: char, start: nat, end: nat): (r: int)
    requires end <= |s|
    ensures r == -1 || (start <= r < end && s[r] == c)
    ensures forall k :: Max(r + 1, start) <= k < end ==> s[k] != c
    decreases end
  {
    if end <= start then -1
    else if s[end - 1] == c then end - 1
    else LastIndex(s, c, start, end - 1)
  }

  predicate StandsAt(text: string, chunk: string, i: nat) {
    i + |chunk| <= |text| && text[i..i + |chunk|] == chunk
  }

  /** The chunk stands somewhere in the text and position `p` lies in it. */
  ghost predicate Covers(text: string, chunk: string, p: nat) {
    exists i: nat :: StandsAt(text, chunk, i) && i <= p < i + |chunk|
  }

  ghost predicate Covered(text: string, chunks: seq<string>, p: nat) {
    exists k :: 0 <= k < |chunks| && Covers(text, chunks[k], p)
  }

  ghost predicate Substring(chunk: string, text: string) {
    exists i: nat :: StandsAt(text, chunk, i)
  }

  /** The trimmed window is a piece of the text and still covers every visible character. */
  lemma StripCovers(text: string, start: nat, end: nat)
    requires start <= end <= |text|
    ensures var piece := Strip(text[start..end]);
            && Substring(piece, text)
            && forall p :: start <= p < end && !IsSpace(text[p]) ==> piece != "" && Covers(text, piece, p)
  {
    var w := text[start..end];
    StripLeftKeeps(w);
    var l := StripLeft(w);
    StripRightKeeps(l);
    var piece := Strip(w);
    var i := start + |w| - |l|;
    assert StandsAt(text, piece, i);
    forall p | start <= p < end && !IsSpace(text[p]) ensures piece != "" && Covers(text, piece, p) {
      assert w[p - start] == text[p];
      assert p - start >= |w| - |l|;
      assert l[p - i] == text[p];
      assert i <= p < i + |piece| <= |text|;
    }
  }

  lemma {:induction false} StripLeftKeeps(s: string)
    ensures |StripLeft(s)| <= |s| && StripLeft(s) == s[|s| - |StripLeft(s)|..]
    ensures forall k :: 0 <= k < |s| - |StripLeft(s)| ==> IsSpace(s[k])
    decreases |s|
  {
    if s != "" && IsSpace(s[0]) {
      StripLeftKeeps(s[1..]);
      forall k | 0 <= k < |s| - |StripLeft(s)| ensures IsSpace(s[k]) {
        if k > 0 { assert s[1..][k - 1] == s[k]; }
      }
    }
  }

  lemma {:induction false} StripRightKeeps(s: string)
    ensures StripRight(s) <= s
    ensures forall k :: |StripRight(s)| <= k < |s| ==> IsSpace(s[k])
    decreases |s|
  {
    if s != "" && IsSpace(s[|s| - 1]) { StripRightKeeps(s[..|s| - 1]); }
  }

  /** A non-empty trimmed piece of the text, of at most `maxChars` characters. */
  ghost predicate Piece(text: string, chunk: string, maxChars: nat) {
    chunk != "" && |chunk| <= maxChars && Trimmed(chunk) && Substring(chunk, text)
  }

  /** Every chunk is such a piece, and together they cover the visible characters before `upTo`. */
  ghost predicate Chunked(text: string, chunks: seq<string>, maxChars: nat, upTo: nat) {
    && (forall k :: 0 <= k < |chunks| ==> Piece(text, chunks[k], maxChars))
    && (forall p :: 0 <= p < upTo && p < |text| && !IsSpace(text[p]) ==> Covered(text, chunks, p))
  }

  /** The chunks with the next piece behind them; an empty piece is not kept. */
  function Appended(chunks: seq<string>, piece: string): seq<string> {
    if piece != "" then chunks + [piece] else chunks
  }

  lemma CoveredGrows(text: string, chunks: seq<string>, piece: string, p: nat)
    requires Covered(text, chunks, p) || (piece != "" && Covers(text, piece, p))
    ensures Covered(text, Appended(chunks, piece), p)
  {
    var after := Appended(chunks, piece);
    if Covered(text, chunks, p) {
      var k :| 0 <= k < |chunks| && Covers(text, chunks[k], p);
      assert after[k] == chunks[k];
    } else {
      assert after[|chunks|] == piece;
    }
  }

  lemma StripIsPiece(text: string, start: nat, end: nat, maxChars: nat)
    requires start <= end <= |text| && end - start <= maxChars
    ensures var piece := Strip(text[start..end]);
            piece != "" ==> Piece(text, piece, maxChars)
  {
    var w := text[start..end];
    StripCovers(text, start, end);
    StripTrims(w);
    StripLeftKeeps(w);
    StripRightKeeps(StripLeft(w));
  }

  lemma ChunkAdded(text: string, chunks: seq<string>, maxChars: nat, start: nat, end: nat)
    requires Chunked(text, chunks, maxChars, start) && start <= end <= |text| && end - start <= maxChars
    ensures Chunked(text, Appended(chunks, Strip(text[start..end])), maxChars, end)
  {
    var piece := Strip(text[start..end]);
    var after := Appended(chunks, piece);
    StripIsPiece(text, start, end, maxChars);
    StripCovers(text, start, end);
    forall p: nat | p < end && !IsSpace(text[p]) ensures Covered(text, after, p) {
      CoveredGrows(text, chunks, piece, p);
    }
  }

  lemma ChunkedLess(text: string, chunks: seq<string>, maxChars: nat, a: nat, b: nat)
    requires Chunked(text, chunks, maxChars, b) && a <= b
    ensures Chunked(text, chunks, maxChars, a)
  {}

  // ---------------------------------------------------------------- how many there are

  /** How far the window start moves at least, per round. */
  function Stride(maxChars: nat, overlap: nat): int {
    maxChars / 2 + 1 - overlap
  }

  /** `count` rounds of at least `stride` each fit before `start`. */
  predicate Within(count: nat, stride: int, start: nat) {
    stride >= 1 ==> count * stride <= start
  }

  lemma WithinStep(count: nat, after: nat, stride: int, start: nat, next: nat)
    requires Within(count, stride, start) && after <= count + 1 && next >= start + stride
    ensures Within(after, stride, next)
  {
    if stride >= 1 {
      assert (count + 1) * stride == count * stride + stride;
      assert after * stride <= (count + 1) * stride;
    }
  }

  lemma WithinCounts(count: nat, stride: int, start: nat, length: nat)
    requires Within(count, stride, start) && start < length && stride >= 1
    ensures count <= (length - 1) / stride
  {
    var q := (length - 1) / stride;
    assert length - 1 < (q + 1) * stride;
    Cancel(count, q + 1, stride);
  }

  lemma Cancel(a: nat, b: nat, d: int)
    requires d >= 1 && a * d < b * d
    ensures a < b
  {
    assert (b - a) * d > 0;
  }

  // ---------------------------------------------------------------- the windows

  predicate Blank(c: char) {
    c == ' ' || c == '\n'
  }

  /** The last blank of a full window, or -1. */
  function Boundary(text: string, start: nat, end: nat): (r: int)
    requires end <= |text|
    ensures r == -1 || (start <= r < end && Blank(text[r]))
    ensures forall k :: Max(r + 1, start) <= k < end ==> !Blank(text[k])
  {
    Max(LastIndex(text, '\n', start, end), LastIndex(text, ' ', start, end))
  }

  predicate NoBlank(text: string, from: int, to: int)
    requires 0 <= from && to <= |text|
  {
    forall k :: from <= k < to ==> !Blank(text[k])
  }

  /** Where the window starting at `start` ends: at the text's end if that is near enough; else at
      the last blank in its second half; else at its full width. */
  predicate EndsAt(text: string, start: nat, maxChars: nat, end: nat) {
    if start + maxChars >= |text| then end == |text|
    else
      || (end == start + maxChars && NoBlank(text, start + maxChars / 2 + 1, end))
      || (start + maxChars / 2 < end < start + maxChars && Blank(text[end]) && NoBlank(text, end + 1, start + maxChars))
  }

  method WindowEnd(text: string, start: nat, maxChars: nat) returns (end: nat)
    requires start < |text|
    ensures EndsAt(text, start, maxChars, end)
    ensures start <= end <= |text| && end - start <= maxChars
    ensures maxChars >= 1 ==> end == |text| || end - start >= maxChars / 2 + 1
  {
    end := Min(|text|, start + maxChars);
    if end < |text| {
      var boundary := Boundary(text, start, end);
      if boundary > start + maxChars / 2 {
        end := boundary;
      }
    }
  }

  datatype Window = Window(start: nat, end: nat)

  function NextStart(w: Window, overlap: nat): nat {
    Max(w.end - overlap, w.start + 1)
  }

  /** The windows lie one behind the other, each reaching back over the one before it by the
      overlap, and only the last one reaches the end. */
  predicate AreWindows(text: string, ws: seq<Window>, maxChars: nat, overlap: nat) {
    && (ws != [] ==> ws[0].start == 0)
    && (forall i :: 0 <= i < |ws| ==> ws[i].start < |text| && EndsAt(text, ws[i].start, maxChars, ws[i].end))
    && (forall i :: 0 <= i < |ws| - 1 ==> ws[i].end < |text| && ws[i + 1].start == NextStart(ws[i], overlap))
  }

  /** The trimmed windows, without the empty ones. */
  function Pieces(text: string, ws: seq<Window>): seq<string> {
    if ws == [] then []
    else
      var w := ws[|ws| - 1];
      var before := Pieces(text, ws[..|ws| - 1]);
      if w.start <= w.end <= |text| then Appended(before, Strip(text[w.start..w.end])) else before
  }

  lemma WindowAdded(text: string, ws: seq<Window>, maxChars: nat, overlap: nat, start: nat, end: nat)
    requires AreWindows(text, ws, maxChars, overlap) && start < |text| && EndsAt(text, start, maxChars, end)
    requires if ws == [] then start == 0 else ws[|ws| - 1].end < |text| && start == NextStart(ws[|ws| - 1], overlap)
    ensures AreWindows(text, ws + [Window(start, end)], maxChars, overlap)
  {
    var more := ws + [Window(start, end)];
    forall i | 0 <= i < |more| ensures more[i].start < |text| && EndsAt(text, more[i].start, maxChars, more[i].end) {
      assert i < |ws| ==> more[i] == ws[i];
    }
  }

  lemma PieceAdded(text: string, ws: seq<Window>, w: Window)
    requires w.start <= w.end <= |text|
    ensures Pieces(text, ws + [w]) == Appended(Pieces(text, ws), Strip(text[w.start..w.end]))
  {
    assert (ws + [w])[..|ws|] == ws;
  }

  /** `chunk_text`: the trimmed windows; no visible character is left out, every chunk is within
      the limit, and there are not many of them. */
  method ChunkText(raw: string, maxChars: nat, overlap: nat) returns (chunks: seq<string>, ghost ws: seq<Window>)
    ensures Strip(raw) == "" ==> chunks == []
    ensures 0 < |Strip(raw)| <= maxChars ==> chunks == [Strip(raw)]
    ensures |Strip(raw)| > maxChars ==>
              AreWindows(Strip(raw), ws, maxChars, overlap) && chunks == Pieces(Strip(raw), ws)
    ensures maxChars >= 1 ==> Chunked(Strip(raw), chunks, maxChars, |Strip(raw)|)
    ensures maxChars >= 1 && Stride(maxChars, overlap) >= 1 && Strip(raw) != "" ==>
              |chunks| <= 1 + (|Strip(raw)| - 1) / Stride(maxChars, overlap)
  {
    var text := Strip(raw);
    if text == "" {
      return [], [];
    }
    if |text| <= maxChars {
      StripIsTrimmed(raw);
      WholeTextIsChunk(text, maxChars);
      if Stride(maxChars, overlap) >= 1 {
        WithinCounts(0, Stride(maxChars, overlap), 0, |text|);
      }
      return [text], [];
    }
    chunks, ws := Windows(text, maxChars, overlap);
  }

  lemma StripIsTrimmed(raw: string)
    ensures Trimmed(Strip(raw))
  {
    StripTrims(raw);
  }

  lemma WholeTextIsChunk(text: string, maxChars: nat)
    requires 0 < |text| <= maxChars && Trimmed(text)
    ensures Chunked(text, [text], maxChars, |text|)
  {
    assert StandsAt(text, text, 0);
    forall p: nat | p < |text| ensures Covered(text, [text], p) {
      assert Covers(text, [text][0], p);
    }
  }

  /** Everything before `start` is covered, by few enough chunks. */
  ghost predicate Progress(text: string, chunks: seq<string>, maxChars: nat, overlap: nat, start: nat) {
    maxChars >= 1 ==>
      start < |text| && Chunked(text, chunks, maxChars, start) && Within(|chunks|, Stride(maxChars, overlap), start)
  }

  lemma Advances(text: string, chunks: seq<string>, maxChars: nat, overlap: nat, start: nat, end: nat)
    requires start < |text| && Progress(text, chunks, maxChars, overlap, start)
    requires start <= end < |text| && end - start <= maxChars && (maxChars >= 1 ==> end - start >= maxChars / 2 + 1)
    ensures Progress(text, Appended(chunks, Strip(text[start..end])), maxChars, overlap, Max(end - overlap, start + 1))
  {
    if maxChars >= 1 {
      var next, more := Max(end - overlap, start + 1), Appended(chunks, Strip(text[start..end]));
      ChunkAdded(text, chunks, maxChars, start, end);
      ChunkedLess(text, more, maxChars, next, end);
      WithinStep(|chunks|, |more|, Stride(maxChars, overlap), start, next);
    }
  }

  lemma Finishes(text: string, chunks: seq<string>, maxChars: nat, overlap: nat, start: nat)
    requires start < |text| && |text| - start <= maxChars && Progress(text, chunks, maxChars, overlap, start)
    ensures var all := Appended(chunks, Strip(text[start..|text|]));
            && (maxChars >= 1 ==> Chunked(text, all, maxChars, |text|))
            && (maxChars >= 1 && Stride(maxChars, overlap) >= 1 ==>
                  |all| <= 1 + (|text| - 1) / Stride(maxChars, overlap))
  {
    if maxChars >= 1 {
      ChunkAdded(text, chunks, maxChars, start, |text|);
      if Stride(maxChars, overlap) >= 1 {
        WithinCounts(|chunks|, Stride(maxChars, overlap), start, |text|);
      }
    }
  }

  /** The loop over the windows of a text longer than one chunk. */
  method Windows(text: string, maxChars: nat, overlap: nat) returns (chunks: seq<string>, ghost ws: seq<Window>)
    requires |text| > maxChars
    ensures AreWindows(text, ws, maxChars, overlap) && chunks == Pieces(text, ws)
    ensures maxChars >= 1 ==> Chunked(text, chunks, maxChars, |text|)
    ensures maxChars >= 1 && Stride(maxChars, overlap) >= 1 ==>
              |chunks| <= 1 + (|text| - 1) / Stride(maxChars, overlap)
  {
    chunks, ws := [], [];
    var start, length := 0, |text|;
    while start < length
      invariant 0 <= start <= length
      invariant AreWindows(text, ws, maxChars, overlap) && chunks == Pieces(text, ws)
      invariant if ws == [] then start == 0 else ws[|ws| - 1].end < length && start == NextStart(ws[|ws| - 1], overlap)
      invariant Progress(text, chunks, maxChars, overlap, start)
      decreases length - start
    {
      var end := WindowEnd(text, start, maxChars);
      var piece := Strip(text[start..end]);
      WindowAdded(text, ws, maxChars, overlap, start, end);
      PieceAdded(text, ws, Window(start, end));
      ws := ws + [Window(start, end)];
      if end >= length {
        Finishes(text, chunks, maxChars, overlap, start);
        chunks := Appended(chunks, piece);
        break;
      }
      Advances(text, chunks, maxChars, overlap, start, end);
      chunks := Appended(chunks, piece);
      start := Max(end - overlap, start + 1);
    }
  }
}
