/** The character-window text chunker: overlapping windows of at most
    `maxChunkSize` characters, cut preferably after a newline, then after a
    sentence ender followed by whitespace, then before a space, each window
    trimmed and dropped when nothing is left. */
module TextChunking {
  import opened Wrappers
  import opened Strings

  /** `ChunkingOptions`. The service never validates them. */
  datatype ChunkingOptions = ChunkingOptions(maxChunkSize: int, overlap: int)

  /** The defaults: 2000 characters, 200 of them repeated between neighbours. */
  const DefaultOptions := ChunkingOptions(2000, 200)

  /** `TextChunk`: the chunk's text, its zero-based position among the chunks and
      the window `[startOffset, endOffset)` of the original text it was cut from. */
  datatype TextChunk = TextChunk(text: string, index: int, startOffset: int, endOffset: int)

  /** A window `[start, end)` of the text the scan visits. */
  datatype Window = Window(start: int, end: int)

  /** The argument exception for empty or whitespace-only text. */
  datatype ChunkError = BlankText

  // ---------------------------------------------------------------- break points

  predicate IsSentenceEnder(c: char) {
    c == '.' || c == '?' || c == '!'
  }

  /** A sentence ender at `i` that is followed by whitespace. */
  predicate SentenceBreakAt(text: string, i: int)
    requires 0 <= i < |text|
  {
    IsSentenceEnder(text[i]) && i + 1 < |text| && IsWhiteSpace(text[i + 1])
  }

  /** `s.LastIndexOf(c, startIndex, count)`: the last occurrence of `c` among the
      `count` positions that end at `startIndex`, or -1. */
  function LastIndexOf(s: string, c: char, startIndex: int, count: int): (r: int)
    requires 0 <= count <= startIndex + 1 && startIndex < |s|
    ensures r == -1 || (startIndex - count < r <= startIndex && s[r] == c)
    decreases count
  {
    if count == 0 then -1
    else if s[startIndex] == c then startIndex
    else LastIndexOf(s, c, startIndex - 1, count - 1)
  }

  /** What `LastIndexOf` finds is the last `c` of its range; -1 means there is none. */
  lemma {:induction false} LastIndexOfIsLast(s: string, c: char, startIndex: int, count: int)
    requires 0 <= count <= startIndex + 1 && startIndex < |s|
    ensures LastIndexOf(s, c, startIndex, count) == -1 ==>
      forall j :: startIndex - count < j <= startIndex ==> s[j] != c
    ensures LastIndexOf(s, c, startIndex, count) != -1 ==>
      forall j :: LastIndexOf(s, c, startIndex, count) < j <= startIndex ==> s[j] != c
    decreases count
  {
    if count > 0 && s[startIndex] != c {
      LastIndexOfIsLast(s, c, startIndex - 1, count - 1);
    }
  }

  /** The backward `for` loop over `[lo, i]` looking for a sentence break: the last
      one, or -1. */
  function LastSentenceBreak(text: string, lo: nat, i: int): (r: int)
    requires -1 <= i < |text|
    ensures r == -1 || (lo <= r <= i && SentenceBreakAt(text, r))
    decreases i + 1
  {
    if i < lo then -1
    else if SentenceBreakAt(text, i) then i
    else LastSentenceBreak(text, lo, i - 1)
  }

  /** What `LastSentenceBreak` finds is the last sentence break of `[lo, i]`; -1
      means there is none. */
  lemma {:induction false} LastSentenceBreakIsLast(text: string, lo: nat, i: int)
    requires -1 <= i < |text|
    ensures LastSentenceBreak(text, lo, i) == -1 ==>
      forall j :: lo <= j <= i ==> !SentenceBreakAt(text, j)
    ensures LastSentenceBreak(text, lo, i) != -1 ==>
      forall j :: LastSentenceBreak(text, lo, i) < j <= i ==> !SentenceBreakAt(text, j)
    decreases i + 1
  {
    if lo <= i && !SentenceBreakAt(text, i) {
      LastSentenceBreakIsLast(text, lo, i - 1);
    }
  }

  /** `c` occurs in `(lo, hi]`. */
  predicate OccursAfter(text: string, c: char, lo: int, hi: int)
    requires 0 <= lo && hi < |text|
  {
    exists j :: lo < j <= hi && text[j] == c
  }

  /** `p` holds the last `c` of `[p, hi]`. */
  predicate LastOccurrence(text: string, c: char, p: int, hi: int)
    requires 0 <= p && hi < |text|
  {
    p <= hi && text[p] == c && forall j :: p < j <= hi ==> text[j] != c
  }

  /** A sentence break lies in `[lo, hi]`. */
  predicate SentenceBreakIn(text: string, lo: int, hi: int)
    requires 0 <= lo && hi < |text|
  {
    exists j :: lo <= j <= hi && SentenceBreakAt(text, j)
  }

  /** `p` is the last sentence break of `[p, hi]`. */
  predicate LastSentenceBreakAt(text: string, p: int, hi: int)
    requires 0 <= p && hi < |text|
  {
    p <= hi && SentenceBreakAt(text, p) && forall j :: p < j <= hi ==> !SentenceBreakAt(text, j)
  }

  /** `FindSentenceBoundary`: the length of the window at `start`, searched for a
      break only in its back half `[start + maxLength/2, start + maxLength - 1]`.
      A newline strictly after the half-way position wins and stays in the window;
      otherwise a sentence ender at or after it, also kept; otherwise a space
      strictly after it, which is cut off; otherwise the full `maxLength`. */
  function FindSentenceBoundary(text: string, start: nat, maxLength: int): (r: int)
    requires 1 <= maxLength && start + maxLength < |text|
    ensures maxLength / 2 < r <= maxLength
  {
    var searchStart := start + maxLength / 2;
    var newlinePos := LastIndexOf(text, '\n', start + maxLength - 1, maxLength - (searchStart - start));
    if newlinePos > searchStart then newlinePos - start + 1
    else
      var ender := LastSentenceBreak(text, searchStart, start + maxLength - 1);
      if ender >= 0 then ender - start + 1
      else
        var spacePos := LastIndexOf(text, ' ', start + maxLength - 1, maxLength - (searchStart - start));
        if spacePos > searchStart then spacePos - start
        else maxLength
  }

  /** The break `FindSentenceBoundary` picks, in the back half `[lo, hi]` of the
      window at `start` (`lo = start + maxLength/2`, `hi = start + maxLength - 1`)
      for the window length `r`: the last newline after `lo`, kept; failing that the
      last sentence break from `lo` on, its ender kept; failing that the last space
      after `lo`, cut off; failing all three, the full window. */
  predicate BoundaryChosen(text: string, start: nat, maxLength: int, r: int)
    requires 1 <= maxLength && start + maxLength < |text|
    requires maxLength / 2 < r <= maxLength
  {
    var lo, hi := start + maxLength / 2, start + maxLength - 1;
    && (OccursAfter(text, '\n', lo, hi) ==>
          lo < start + r - 1 && LastOccurrence(text, '\n', start + r - 1, hi))
    && (!OccursAfter(text, '\n', lo, hi) && SentenceBreakIn(text, lo, hi) ==>
          LastSentenceBreakAt(text, start + r - 1, hi))
    && (!OccursAfter(text, '\n', lo, hi) && !SentenceBreakIn(text, lo, hi) && OccursAfter(text, ' ', lo, hi) ==>
          lo < start + r && LastOccurrence(text, ' ', start + r, hi))
    && (!OccursAfter(text, '\n', lo, hi) && !SentenceBreakIn(text, lo, hi) && !OccursAfter(text, ' ', lo, hi) ==>
          r == maxLength)
  }

  /** `FindSentenceBoundary` prefers a newline to a sentence break to a space to a
      hard cut, and takes the last one of the kind it settles on. */
  lemma BoundaryPriority(text: string, start: nat, maxLength: int)
    requires 1 <= maxLength && start + maxLength < |text|
    ensures BoundaryChosen(text, start, maxLength, FindSentenceBoundary(text, start, maxLength))
  {
    var lo, hi := start + maxLength / 2, start + maxLength - 1;
    var count := maxLength - (lo - start);
    var newlinePos := LastIndexOf(text, '\n', hi, count);
    LastIndexOfIsLast(text, '\n', hi, count);
    if newlinePos <= lo {
      assert !OccursAfter(text, '\n', lo, hi);
      var ender := LastSentenceBreak(text, lo, hi);
      LastSentenceBreakIsLast(text, lo, hi);
      if ender < 0 {
        assert !SentenceBreakIn(text, lo, hi);
        var spacePos := LastIndexOf(text, ' ', hi, count);
        LastIndexOfIsLast(text, ' ', hi, count);
        if spacePos <= lo {
          assert !OccursAfter(text, ' ', lo, hi);
        }
      }
    }
  }

  // ---------------------------------------------------------------- the loop

  /** The length of the window at `start`: the rest of the text when it fits, a
      sentence-aware cut of a full window otherwise. */
  function WindowLength(text: string, maxChunkSize: int, start: nat): (r: int)
    requires 1 <= maxChunkSize && start < |text|
    ensures 1 <= r <= maxChunkSize && start + r <= |text|
    ensures start + maxChunkSize >= |text| ==> start + r == |text|
    ensures start + maxChunkSize < |text| ==> maxChunkSize / 2 < r
  {
    var length := if maxChunkSize < |text| - start then maxChunkSize else |text| - start;
    if start + length < |text| then FindSentenceBoundary(text, start, length) else length
  }

  /** How far `start` moves after a window of `length` characters: back by the
      overlap, but always forward. */
  function Advance(length: int, overlap: int): (r: int)
    requires length >= 1
    ensures r >= 1
    ensures overlap >= 0 ==> r <= length
    ensures length - overlap >= 1 ==> r == length - overlap
  {
    var advance := length - overlap;
    if advance < 1 then length else advance
  }

  /** Every window from `start` on is at least one character long, which is what
      makes the loop end. */
  predicate CutsForward(n: int, cut: int -> int, start: int) {
    forall s :: start <= s < n ==> 1 <= cut(s)
  }

  /** Every window from `start` on is between one and `maxChunkSize` characters long
      and ends inside the `n` characters. */
  predicate CutsWithin(n: int, cut: int -> int, start: int, maxChunkSize: int) {
    forall s :: start <= s < n ==> 1 <= cut(s) <= maxChunkSize && s + cut(s) <= n
  }

  /** The windows `[s, s + cut(s))` the `while (start < text.Length)` loop visits
      over `n` characters from `start` on. Which windows are visited depends neither
      on their text nor on which of them become chunks, so the loop is modelled as
      this scan followed by `Emit`, with the cut and the trimming as parameters. */
  function Scan(n: int, cut: int -> int, overlap: int, start: int): (w: seq<Window>)
    requires CutsForward(n, cut, start)
    ensures |w| == 0 <==> start >= n
    decreases n - start
  {
    if start >= n then []
    else
      var length := cut(start);
      [Window(start, start + length)] + Scan(n, cut, overlap, start + Advance(length, overlap))
  }

  /** The cut `Chunk` makes at each position of `text`. */
  function CutOf(text: string, maxChunkSize: int): int -> int
    requires maxChunkSize >= 1
  {
    s => if 0 <= s < |text| then WindowLength(text, maxChunkSize, s) else 1
  }

  /** `Chunk`'s cuts stay inside the text and are at most `maxChunkSize` long. */
  lemma CutOfWithin(text: string, maxChunkSize: int)
    requires maxChunkSize >= 1
    ensures CutsWithin(|text|, CutOf(text, maxChunkSize), 0, maxChunkSize)
  {
    var cut := CutOf(text, maxChunkSize);
    forall s | 0 <= s < |text| ensures 1 <= cut(s) <= maxChunkSize && s + cut(s) <= |text| {
      assert cut(s) == WindowLength(text, maxChunkSize, s);
    }
  }

  /** The windows `Chunk` visits over `text`. */
  function Windows(text: string, opts: ChunkingOptions): seq<Window>
    requires opts.maxChunkSize >= 1
  {
    CutOfWithin(text, opts.maxChunkSize);
    Scan(|text|, CutOf(text, opts.maxChunkSize), opts.overlap, 0)
  }

  /** The text `Chunk` keeps of a window of `text`: the window trimmed. */
  function TrimOf(text: string): Window -> string {
    (w: Window) => if 0 <= w.start <= w.end <= |text| then Trim(text[w.start..w.end]) else ""
  }

  /** The chunks the loop adds for the windows `ws`: the trimmed text of each window,
      dropped when nothing is left, the others numbered from `index` on. */
  function Emit(ws: seq<Window>, trim: Window -> string, index: int): (r: seq<TextChunk>)
    ensures |r| <= |ws|
  {
    if |ws| == 0 then []
    else
      var t := trim(ws[0]);
      if |t| > 0 then [TextChunk(t, index, ws[0].start, ws[0].end)] + Emit(ws[1..], trim, index + 1)
      else Emit(ws[1..], trim, index)
  }

  /** Chunks numbered consecutively from `index`. */
  predicate NumberedFrom(cs: seq<TextChunk>, index: int) {
    forall k :: 0 <= k < |cs| ==> cs[k].index == index + k
  }

  /** `TextChunker.Chunk`. Blank text is an error; text that fits is returned as one
      chunk exactly as given, untrimmed; longer text is cut into windows, and the
      windows that are not blank become the chunks, numbered from 0. */
  function Chunk(text: string, opts: ChunkingOptions): (r: Result<seq<TextChunk>, ChunkError>)
    requires opts.maxChunkSize >= 1
    ensures r.Failure? <==> IsBlank(text)
    ensures r.Success? && |text| <= opts.maxChunkSize ==> r.value == [TextChunk(text, 0, 0, |text|)]
    ensures r.Success? ==> NumberedFrom(r.value, 0)
  {
    if IsBlank(text) then Failure(BlankText)
    else if |text| <= opts.maxChunkSize then Success([TextChunk(text, 0, 0, |text|)])
    else
      EmitNumbered(Windows(text, opts), TrimOf(text), 0);
      Success(Emit(Windows(text, opts), TrimOf(text), 0))
  }

  // ---------------------------------------------------------------- the scan

  /** Window starts strictly increase. */
  predicate WindowsAscend(w: seq<Window>) {
    forall i, j :: 0 <= i < j < |w| ==> w[i].start < w[j].start
  }

  /** Every window is non-empty, starts at `lo` or later, ends by `hi` and spans at
      most `maxChunkSize` characters. */
  predicate WindowsWithin(w: seq<Window>, lo: int, hi: int, maxChunkSize: int) {
    forall k :: 0 <= k < |w| ==>
      lo <= w[k].start < w[k].end <= hi && w[k].end - w[k].start <= maxChunkSize
  }

  /** Every window starts at `lo` or later. */
  predicate StartsFrom(w: seq<Window>, lo: int) {
    forall k :: 0 <= k < |w| ==> lo <= w[k].start
  }

  /** Some window contains position `p`. */
  predicate WindowCovers(w: seq<Window>, p: int) {
    exists k :: 0 <= k < |w| && w[k].start <= p < w[k].end
  }

  /** Each window ends `d` characters after the next one starts. */
  predicate OverlapBy(w: seq<Window>, d: int) {
    forall k :: 0 <= k < |w| - 1 ==> w[k].end - w[k + 1].start == d
  }

  /** The windows start at `start` and the last one ends at `end`. */
  predicate Spans(w: seq<Window>, start: int, end: int) {
    |w| > 0 ==> w[0].start == start && w[|w| - 1].end == end
  }

  /** Windows cut within bounds stay within them. */
  lemma {:induction false} ScanWithin(n: int, cut: int -> int, overlap: int, start: int, maxChunkSize: int)
    requires CutsWithin(n, cut, start, maxChunkSize)
    ensures WindowsWithin(Scan(n, cut, overlap, start), start, n, maxChunkSize)
    decreases n - start
  {
    if start < n {
      var next := start + Advance(cut(start), overlap);
      ScanWithin(n, cut, overlap, next, maxChunkSize);
      var w := Scan(n, cut, overlap, start);
      var rest := Scan(n, cut, overlap, next);
      assert w[0] == Window(start, start + cut(start));
      forall k | 1 <= k < |w| ensures start <= w[k].start {
        assert w[k] == rest[k - 1];
      }
    }
  }

  /** No window starts before `start`. */
  lemma {:induction false} ScanStartsFrom(n: int, cut: int -> int, overlap: int, start: int)
    requires CutsForward(n, cut, start)
    ensures StartsFrom(Scan(n, cut, overlap, start), start)
    decreases n - start
  {
    if start < n {
      var next := start + Advance(cut(start), overlap);
      ScanStartsFrom(n, cut, overlap, next);
      var w := Scan(n, cut, overlap, start);
      var rest := Scan(n, cut, overlap, next);
      forall k | 1 <= k < |w| ensures start <= w[k].start {
        assert w[k] == rest[k - 1];
      }
    }
  }

  /** The scan always moves forward: window starts strictly increase. */
  lemma {:induction false} ScanAscends(n: int, cut: int -> int, overlap: int, start: int)
    requires CutsForward(n, cut, start)
    ensures WindowsAscend(Scan(n, cut, overlap, start))
    decreases n - start
  {
    if start < n {
      var next := start + Advance(cut(start), overlap);
      ScanAscends(n, cut, overlap, next);
      ScanStartsFrom(n, cut, overlap, next);
      var w := Scan(n, cut, overlap, start);
      var rest := Scan(n, cut, overlap, next);
      forall i, j | 0 <= i < j < |w| ensures w[i].start < w[j].start {
        assert w[j] == rest[j - 1];
        if i > 0 {
          assert w[i] == rest[i - 1];
        }
      }
    }
  }

  /** With a non-negative overlap the scan leaves no gap: every position from
      `start` on lies in some window. */
  lemma {:induction false} ScanCovers(n: int, cut: int -> int, overlap: int, start: int, p: int)
    requires CutsForward(n, cut, start) && overlap >= 0
    requires start <= p < n
    ensures WindowCovers(Scan(n, cut, overlap, start), p)
    decreases n - start
  {
    var w := Scan(n, cut, overlap, start);
    var next := start + Advance(cut(start), overlap);
    if p < start + cut(start) {
      assert w[0].start <= p < w[0].end;
    } else {
      ScanCovers(n, cut, overlap, next, p);
      var rest := Scan(n, cut, overlap, next);
      var k :| 0 <= k < |rest| && rest[k].start <= p < rest[k].end;
      assert w[k + 1] == rest[k];
    }
  }

  /** The windows a text that offers no break point gets: every window is a hard cut
      of `min(maxChunkSize, n - start)`. */
  function HardCutWindows(n: int, maxChunkSize: int, overlap: int, start: int): seq<Window>
    requires maxChunkSize >= 1
    decreases n - start
  {
    if start >= n then []
    else
      var length := if maxChunkSize < n - start then maxChunkSize else n - start;
      [Window(start, start + length)] + HardCutWindows(n, maxChunkSize, overlap, start + Advance(length, overlap))
  }

  /** A scan whose every cut is a hard cut visits the hard-cut windows. */
  lemma {:induction false} ScanHardCut(n: int, cut: int -> int, maxChunkSize: int, overlap: int, start: int)
    requires maxChunkSize >= 1
    requires forall s :: start <= s < n ==> cut(s) == (if maxChunkSize < n - s then maxChunkSize else n - s)
    ensures Scan(n, cut, overlap, start) == HardCutWindows(n, maxChunkSize, overlap, start)
    decreases n - start
  {
    if start < n {
      ScanHardCut(n, cut, maxChunkSize, overlap, start + Advance(cut(start), overlap));
    }
  }

  // ---------------------------------------------------------------- emitting

  /** Chunk starts strictly increase. */
  predicate ChunksAscend(cs: seq<TextChunk>) {
    forall i, j :: 0 <= i < j < |cs| ==> cs[i].startOffset < cs[j].startOffset
  }

  /** `c` is what the window `w` gives: its offsets and its trimmed text, which is
      not empty. */
  predicate KeptFrom(w: Window, trim: Window -> string, c: TextChunk) {
    c.startOffset == w.start && c.endOffset == w.end && c.text == trim(w) && |c.text| > 0
  }

  /** Every chunk in `r` is what one of the windows `ws` gives. */
  predicate FromWindows(ws: seq<Window>, trim: Window -> string, r: seq<TextChunk>) {
    forall k :: 0 <= k < |r| ==> exists j :: 0 <= j < |ws| && KeptFrom(ws[j], trim, r[k])
  }

  /** Some chunk was cut from the window `[s, e)`. */
  predicate HasChunkAt(cs: seq<TextChunk>, s: int, e: int) {
    exists k :: 0 <= k < |cs| && cs[k].startOffset == s && cs[k].endOffset == e
  }

  /** `r` is one chunk per window, in order, numbered from `index`. */
  predicate OnePerWindow(ws: seq<Window>, trim: Window -> string, r: seq<TextChunk>, index: int) {
    |r| == |ws| && forall k :: 0 <= k < |r| ==> r[k] == TextChunk(trim(ws[k]), index + k, ws[k].start, ws[k].end)
  }

  /** Emitted chunks are numbered consecutively: a dropped window takes no number. */
  lemma {:induction false} EmitNumbered(ws: seq<Window>, trim: Window -> string, index: int)
    ensures NumberedFrom(Emit(ws, trim, index), index)
    decreases |ws|
  {
    if |ws| > 0 {
      var index' := if |trim(ws[0])| > 0 then index + 1 else index;
      EmitNumbered(ws[1..], trim, index');
      var r := Emit(ws, trim, index);
      var rest := Emit(ws[1..], trim, index');
      if |trim(ws[0])| > 0 {
        forall k | 1 <= k < |r| ensures r[k].index == index + k {
          assert r[k] == rest[k - 1];
        }
      }
    }
  }

  /** Every emitted chunk is what one of the windows gives. */
  lemma {:induction false} EmitFromWindows(ws: seq<Window>, trim: Window -> string, index: int)
    ensures FromWindows(ws, trim, Emit(ws, trim, index))
    decreases |ws|
  {
    if |ws| > 0 {
      var keep := |trim(ws[0])| > 0;
      var index' := if keep then index + 1 else index;
      EmitFromWindows(ws[1..], trim, index');
      var r := Emit(ws, trim, index);
      var rest := Emit(ws[1..], trim, index');
      forall k | 0 <= k < |r| ensures exists j :: 0 <= j < |ws| && KeptFrom(ws[j], trim, r[k]) {
        if keep && k == 0 {
          assert KeptFrom(ws[0], trim, r[0]);
        } else {
          var k' := if keep then k - 1 else k;
          assert r[k] == rest[k'];
          var j :| 0 <= j < |ws[1..]| && KeptFrom(ws[1..][j], trim, rest[k']);
          assert ws[1..][j] == ws[j + 1];
        }
      }
    }
  }

  /** Every window whose trimmed text is not empty gives a chunk. */
  lemma {:induction false} EmitKeeps(ws: seq<Window>, trim: Window -> string, index: int, j: int)
    requires 0 <= j < |ws| && |trim(ws[j])| > 0
    ensures HasChunkAt(Emit(ws, trim, index), ws[j].start, ws[j].end)
    decreases |ws|
  {
    var r := Emit(ws, trim, index);
    var index' := if |trim(ws[0])| > 0 then index + 1 else index;
    var rest := Emit(ws[1..], trim, index');
    if j == 0 {
      assert r[0].startOffset == ws[0].start && r[0].endOffset == ws[0].end;
    } else {
      assert ws[1..][j - 1] == ws[j];
      EmitKeeps(ws[1..], trim, index', j - 1);
      var k :| 0 <= k < |rest| && rest[k].startOffset == ws[j].start && rest[k].endOffset == ws[j].end;
      if |trim(ws[0])| > 0 {
        assert r[k + 1] == rest[k];
      } else {
        assert r[k] == rest[k];
      }
    }
  }

  /** Emitting keeps the order of the windows. */
  lemma {:induction false} EmitAscends(ws: seq<Window>, trim: Window -> string, index: int)
    requires WindowsAscend(ws)
    ensures ChunksAscend(Emit(ws, trim, index))
    decreases |ws|
  {
    if |ws| > 0 {
      var keep := |trim(ws[0])| > 0;
      var index' := if keep then index + 1 else index;
      EmitAscends(ws[1..], trim, index');
      if keep {
        var r := Emit(ws, trim, index);
        var rest := Emit(ws[1..], trim, index');
        EmitFromWindows(ws[1..], trim, index');
        forall i, j | 0 <= i < j < |r| ensures r[i].startOffset < r[j].startOffset {
          assert r[j] == rest[j - 1];
          if i > 0 {
            assert r[i] == rest[i - 1];
          } else {
            var m :| 0 <= m < |ws[1..]| && KeptFrom(ws[1..][m], trim, rest[j - 1]);
            assert ws[1..][m] == ws[m + 1];
          }
        }
      }
    }
  }

  /** When no window trims to nothing, every window gives a chunk, in order. */
  lemma {:induction false} EmitEach(ws: seq<Window>, trim: Window -> string, index: int)
    requires forall k :: 0 <= k < |ws| ==> |trim(ws[k])| > 0
    ensures OnePerWindow(ws, trim, Emit(ws, trim, index), index)
    decreases |ws|
  {
    if |ws| > 0 {
      EmitEach(ws[1..], trim, index + 1);
      var r := Emit(ws, trim, index);
      var rest := Emit(ws[1..], trim, index + 1);
      assert |trim(ws[0])| > 0;
      forall k | 1 <= k < |r| ensures r[k] == TextChunk(trim(ws[k]), index + k, ws[k].start, ws[k].end) {
        assert r[k] == rest[k - 1] && ws[k] == ws[1..][k - 1];
      }
    }
  }

  // ---------------------------------------------------------------- what the chunks are

  /** What a chunk of `text` is: a window of at most `maxChunkSize` characters and
      at most `maxChunkSize` characters of text, not empty; the window's trimmed
      text when the text was scanned, the text itself when it fits in one chunk. */
  predicate Accurate(text: string, opts: ChunkingOptions, c: TextChunk) {
    && 0 <= c.startOffset < c.endOffset <= |text|
    && c.endOffset - c.startOffset <= opts.maxChunkSize
    && 1 <= |c.text| <= opts.maxChunkSize
    && c.text == (if |text| <= opts.maxChunkSize then text else Trim(text[c.startOffset..c.endOffset]))
  }

  /** The windows `Chunk` visits lie in the text and span at most `maxChunkSize`
      characters. */
  lemma WindowsInText(text: string, opts: ChunkingOptions)
    requires opts.maxChunkSize >= 1
    ensures WindowsWithin(Windows(text, opts), 0, |text|, opts.maxChunkSize)
  {
    CutOfWithin(text, opts.maxChunkSize);
    ScanWithin(|text|, CutOf(text, opts.maxChunkSize), opts.overlap, 0, opts.maxChunkSize);
  }

  /** Every chunk of accepted text is accurate. */
  lemma ChunkWellFormed(text: string, opts: ChunkingOptions)
    requires opts.maxChunkSize >= 1 && !IsBlank(text)
    ensures forall k :: 0 <= k < |Chunk(text, opts).value| ==> Accurate(text, opts, Chunk(text, opts).value[k])
  {
    var cs := Chunk(text, opts).value;
    if |text| > opts.maxChunkSize {
      var w := Windows(text, opts);
      WindowsInText(text, opts);
      EmitFromWindows(w, TrimOf(text), 0);
      forall k | 0 <= k < |cs| ensures Accurate(text, opts, cs[k]) {
        var j :| 0 <= j < |w| && KeptFrom(w[j], TrimOf(text), cs[k]);
        assert TrimOf(text)(w[j]) == Trim(text[w[j].start..w[j].end]);
      }
    } else {
      assert |text| > 0;
    }
  }

  /** Later chunks start later in the text. */
  lemma ChunkStartsIncrease(text: string, opts: ChunkingOptions)
    requires opts.maxChunkSize >= 1 && !IsBlank(text)
    ensures ChunksAscend(Chunk(text, opts).value)
  {
    if |text| > opts.maxChunkSize {
      CutOfWithin(text, opts.maxChunkSize);
      ScanAscends(|text|, CutOf(text, opts.maxChunkSize), opts.overlap, 0);
      EmitAscends(Windows(text, opts), TrimOf(text), 0);
    }
  }

  /** For text longer than one chunk, a window of the text is the window of some
      chunk exactly when the scan visits it and it is not blank: blank windows are
      dropped and take no number, and nothing else is dropped. */
  lemma ChunksAreNonBlankWindows(text: string, opts: ChunkingOptions, s: int, e: int)
    requires opts.maxChunkSize >= 1 && |text| > opts.maxChunkSize && !IsBlank(text)
    requires 0 <= s <= e <= |text|
    ensures HasChunkAt(Chunk(text, opts).value, s, e)
        <==> Window(s, e) in Windows(text, opts) && !IsBlank(text[s..e])
  {
    var cs := Chunk(text, opts).value;
    var w := Windows(text, opts);
    var trim := TrimOf(text);
    assert trim(Window(s, e)) == Trim(text[s..e]);
    if k :| 0 <= k < |cs| && cs[k].startOffset == s && cs[k].endOffset == e {
      EmitFromWindows(w, trim, 0);
      var j :| 0 <= j < |w| && KeptFrom(w[j], trim, cs[k]);
      assert w[j] == Window(s, e);
    }
    if Window(s, e) in w && !IsBlank(text[s..e]) {
      var j :| 0 <= j < |w| && w[j] == Window(s, e);
      EmitKeeps(w, trim, 0, j);
    }
  }

  /** With a non-negative overlap, every non-whitespace character of accepted text
      lies in the window of some chunk; in particular there is at least one chunk. */
  lemma ChunkCovers(text: string, opts: ChunkingOptions, p: int)
    requires opts.maxChunkSize >= 1 && opts.overlap >= 0
    requires 0 <= p < |text| && !IsWhiteSpace(text[p])
    ensures Chunk(text, opts).Success?
    ensures ChunkCovering(Chunk(text, opts).value, p)
  {
    assert !IsBlank(text);
    var cs := Chunk(text, opts).value;
    if |text| > opts.maxChunkSize {
      var w := Windows(text, opts);
      CutOfWithin(text, opts.maxChunkSize);
      ScanCovers(|text|, CutOf(text, opts.maxChunkSize), opts.overlap, 0, p);
      WindowsInText(text, opts);
      var j :| 0 <= j < |w| && w[j].start <= p < w[j].end;
      var window := text[w[j].start..w[j].end];
      assert window[p - w[j].start] == text[p];
      assert TrimOf(text)(w[j]) == Trim(window);
      EmitKeeps(w, TrimOf(text), 0, j);
    } else {
      assert cs[0].startOffset <= p < cs[0].endOffset;
    }
  }

  /** Some chunk's window contains position `p`. */
  predicate ChunkCovering(cs: seq<TextChunk>, p: int) {
    exists k :: 0 <= k < |cs| && cs[k].startOffset <= p < cs[k].endOffset
  }

  // ---------------------------------------------------------------- text without whitespace

  /** Text without whitespace has no newline, no sentence break and no space, so
      every cut is a hard cut. */
  lemma BoundaryWithoutWhiteSpace(text: string, start: nat, maxLength: int)
    requires NoWhiteSpace(text)
    requires 1 <= maxLength && start + maxLength < |text|
    ensures FindSentenceBoundary(text, start, maxLength) == maxLength
  {
    var lo, hi := start + maxLength / 2, start + maxLength - 1;
    assert !SentenceBreakIn(text, lo, hi) by {
      forall j | lo <= j <= hi ensures !SentenceBreakAt(text, j) {
        assert !IsWhiteSpace(text[j + 1]);
      }
    }
  }

  /** On text without whitespace the windows are the hard-cut windows. */
  lemma WindowsWithoutWhiteSpace(text: string, opts: ChunkingOptions)
    requires NoWhiteSpace(text) && opts.maxChunkSize >= 1
    ensures Windows(text, opts) == HardCutWindows(|text|, opts.maxChunkSize, opts.overlap, 0)
  {
    var max := opts.maxChunkSize;
    var cut := CutOf(text, max);
    forall s | 0 <= s < |text| ensures cut(s) == (if max < |text| - s then max else |text| - s) {
      var length := if max < |text| - s then max else |text| - s;
      if s + length < |text| {
        BoundaryWithoutWhiteSpace(text, s, length);
      }
      assert cut(s) == WindowLength(text, max, s);
    }
    ScanHardCut(|text|, cut, max, opts.overlap, 0);
  }

  /** `r` is one chunk per window, each window's text verbatim, numbered from `index`. */
  predicate Verbatim(text: string, ws: seq<Window>, r: seq<TextChunk>, index: int) {
    && |r| == |ws|
    && forall k :: 0 <= k < |r| ==>
         0 <= ws[k].start <= ws[k].end <= |text| && r[k] == TextChunk(text[ws[k].start..ws[k].end], index + k, ws[k].start, ws[k].end)
  }

  /** Trimming a window of text without whitespace keeps it as it is. */
  lemma TrimOfWithoutWhiteSpace(text: string, w: Window)
    requires NoWhiteSpace(text) && 0 <= w.start <= w.end <= |text|
    ensures TrimOf(text)(w) == text[w.start..w.end]
  {
    var window := text[w.start..w.end];
    assert NoWhiteSpace(window) by {
      forall i | 0 <= i < |window| ensures !IsWhiteSpace(window[i]) {
        assert window[i] == text[w.start + i];
      }
    }
    TrimNoWhiteSpace(window);
  }

  /** Windows whose trimmed text is their text, not empty, are emitted verbatim. */
  lemma EmitVerbatim(text: string, ws: seq<Window>, trim: Window -> string, index: int)
    requires forall k :: 0 <= k < |ws| ==> 0 <= ws[k].start < ws[k].end <= |text| && trim(ws[k]) == text[ws[k].start..ws[k].end]
    ensures Verbatim(text, ws, Emit(ws, trim, index), index)
  {
    EmitEach(ws, trim, index);
  }

  /** The chunks of text without whitespace that is longer than one chunk: one per
      hard-cut window, with the window's text verbatim, numbered from 0. */
  lemma ChunksWithoutWhiteSpace(text: string, opts: ChunkingOptions)
    requires NoWhiteSpace(text) && 1 <= opts.maxChunkSize < |text|
    ensures Chunk(text, opts).Success?
    ensures Verbatim(text, HardCutWindows(|text|, opts.maxChunkSize, opts.overlap, 0), Chunk(text, opts).value, 0)
  {
    assert !IsBlank(text) by { assert !IsWhiteSpace(text[0]); }
    var w := Windows(text, opts);
    WindowsWithoutWhiteSpace(text, opts);
    WindowsInText(text, opts);
    forall k | 0 <= k < |w| ensures TrimOf(text)(w[k]) == text[w[k].start..w[k].end] {
      TrimOfWithoutWhiteSpace(text, w[k]);
    }
    EmitVerbatim(text, w, TrimOf(text), 0);
  }

  /** With `0 <= overlap < maxChunkSize`, neighbouring hard-cut windows share exactly
      `overlap` characters, the trailing ones included. */
  lemma {:induction false} HardCutOverlap(n: int, maxChunkSize: int, overlap: int, start: int)
    requires 0 <= overlap < maxChunkSize
    ensures OverlapBy(HardCutWindows(n, maxChunkSize, overlap, start), overlap)
    decreases n - start
  {
    if start < n {
      var length := if maxChunkSize < n - start then maxChunkSize else n - start;
      var next := start + Advance(length, overlap);
      HardCutOverlap(n, maxChunkSize, overlap, next);
      var w := HardCutWindows(n, maxChunkSize, overlap, start);
      var rest := HardCutWindows(n, maxChunkSize, overlap, next);
      assert w == [Window(start, start + length)] + rest;
      forall k | 0 <= k < |w| - 1 ensures w[k].end - w[k + 1].start == overlap {
        if k == 0 {
          assert |rest| > 0 && w[1] == rest[0];
          assert rest[0].start == next && next < n;
          assert length - overlap >= 1;
          assert w[0] == Window(start, start + length);
        } else {
          assert w[k] == rest[k - 1] && w[k + 1] == rest[k];
        }
      }
    }
  }

  /** With no overlap, or an overlap the guard overrides (`overlap >= maxChunkSize`),
      there are `ceil((n - start) / maxChunkSize)` hard-cut windows. */
  lemma {:induction false} HardCutCount(n: int, maxChunkSize: int, overlap: int, start: int)
    requires maxChunkSize >= 1 && (overlap == 0 || overlap >= maxChunkSize)
    ensures |HardCutWindows(n, maxChunkSize, overlap, start)| == CeilDiv(n - start, maxChunkSize)
    decreases n - start
  {
    if start < n {
      var length := if maxChunkSize < n - start then maxChunkSize else n - start;
      HardCutCount(n, maxChunkSize, overlap, start + length);
    }
  }

  /** Without effective overlap the hard-cut windows run from `start` to `n`. */
  lemma {:induction false} HardCutSpans(n: int, maxChunkSize: int, overlap: int, start: int)
    requires maxChunkSize >= 1 && (overlap == 0 || overlap >= maxChunkSize)
    ensures Spans(HardCutWindows(n, maxChunkSize, overlap, start), start, n)
    decreases n - start
  {
    if start < n {
      var length := if maxChunkSize < n - start then maxChunkSize else n - start;
      var next := start + length;
      HardCutSpans(n, maxChunkSize, overlap, next);
      var rest := HardCutWindows(n, maxChunkSize, overlap, next);
      if |rest| == 0 {
        assert next >= n;
      }
    }
  }

  /** Without effective overlap each hard-cut window starts where the previous one
      ends. */
  lemma {:induction false} HardCutContiguous(n: int, maxChunkSize: int, overlap: int, start: int)
    requires maxChunkSize >= 1 && (overlap == 0 || overlap >= maxChunkSize)
    ensures OverlapBy(HardCutWindows(n, maxChunkSize, overlap, start), 0)
    decreases n - start
  {
    if start < n {
      var length := if maxChunkSize < n - start then maxChunkSize else n - start;
      var next := start + length;
      HardCutContiguous(n, maxChunkSize, overlap, next);
      HardCutSpans(n, maxChunkSize, overlap, next);
      var w := HardCutWindows(n, maxChunkSize, overlap, start);
      var rest := HardCutWindows(n, maxChunkSize, overlap, next);
      forall k | 0 <= k < |w| - 1 ensures w[k].end - w[k + 1].start == 0 {
        if k > 0 {
          assert w[k] == rest[k - 1] && w[k + 1] == rest[k];
        }
      }
    }
  }

  /** `ceil(x / m)` for positive `m`, counted in steps of `m`. */
  function CeilDiv(x: int, m: int): nat
    requires m >= 1
    decreases x
  {
    if x <= 0 then 0 else 1 + CeilDiv(x - m, m)
  }

  /** `CeilDiv(x, m)` is the least count of `m`-steps that reaches `x`. */
  lemma {:induction false} CeilDivBounds(x: int, m: int)
    requires m >= 1
    ensures x <= CeilDiv(x, m) * m
    ensures CeilDiv(x, m) > 0 ==> (CeilDiv(x, m) - 1) * m < x
    decreases x
  {
    if x > 0 {
      CeilDivBounds(x - m, m);
      var q := CeilDiv(x - m, m);
      assert CeilDiv(x, m) * m == q * m + m;
    }
  }

  /** Neighbouring chunks of text without whitespace repeat exactly `overlap`
      characters: the last `overlap` characters of one chunk begin the next. */
  lemma ChunksRepeatOverlap(text: string, opts: ChunkingOptions, k: int)
    requires NoWhiteSpace(text) && 0 <= opts.overlap < opts.maxChunkSize < |text|
    requires Chunk(text, opts).Success? && 0 <= k < |Chunk(text, opts).value| - 1
    ensures Repeats(Chunk(text, opts).value, k, opts.overlap)
  {
    var n, max, o := |text|, opts.maxChunkSize, opts.overlap;
    ChunksWithoutWhiteSpace(text, opts);
    HardCutOverlap(n, max, o, 0);
    HardCutOverlapLength(n, max, o, 0, k);
    HardCutBeyondOverlap(n, max, o, 0, k);
    VerbatimRepeat(text, HardCutWindows(n, max, o, 0), Chunk(text, opts).value, k, o);
  }

  /** Chunk `k` ends `d` characters after chunk `k + 1` starts, and those `d`
      characters end the one and begin the other. */
  predicate Repeats(cs: seq<TextChunk>, k: int, d: int)
    requires 0 <= k < |cs| - 1
  {
    && cs[k].endOffset - cs[k + 1].startOffset == d
    && 0 <= d <= |cs[k].text|
    && d <= |cs[k + 1].text|
    && cs[k].text[|cs[k].text| - d..] == cs[k + 1].text[..d]
  }

  /** Verbatim chunks of windows that overlap by `d` repeat those `d` characters. */
  lemma VerbatimRepeat(text: string, w: seq<Window>, cs: seq<TextChunk>, k: int, d: int)
    requires Verbatim(text, w, cs, 0) && 0 <= k < |cs| - 1 && 0 <= d
    requires w[k].end - w[k + 1].start == d
    requires d <= w[k].end - w[k].start && d <= w[k + 1].end - w[k + 1].start
    ensures Repeats(cs, k, d)
  {
    var a, b := cs[k].text, cs[k + 1].text;
    assert a[|a| - d..] == text[w[k + 1].start..w[k].end];
    assert b[..d] == text[w[k + 1].start..w[k].end];
  }

  /** A hard-cut window after the first one is at least `overlap` characters long. */
  lemma {:induction false} HardCutOverlapLength(n: int, maxChunkSize: int, overlap: int, start: int, k: int)
    requires 0 <= overlap < maxChunkSize
    requires 0 <= k < |HardCutWindows(n, maxChunkSize, overlap, start)| - 1
    ensures HardCutWindows(n, maxChunkSize, overlap, start)[k + 1].end
          - HardCutWindows(n, maxChunkSize, overlap, start)[k + 1].start >= overlap
    decreases n - start
  {
    var length := if maxChunkSize < n - start then maxChunkSize else n - start;
    var next := start + Advance(length, overlap);
    var w := HardCutWindows(n, maxChunkSize, overlap, start);
    var rest := HardCutWindows(n, maxChunkSize, overlap, next);
    assert w == [Window(start, start + length)] + rest;
    if k == 0 {
      assert rest[0] == Window(next, next + (if maxChunkSize < n - next then maxChunkSize else n - next));
      assert next == start + length - overlap;
    } else {
      HardCutOverlapLength(n, maxChunkSize, overlap, next, k - 1);
    }
  }

  /** A hard-cut window followed by another is longer than the overlap: a window no
      longer than the overlap is not moved back and is the last. */
  lemma {:induction false} HardCutBeyondOverlap(n: int, maxChunkSize: int, overlap: int, start: int, k: int)
    requires 0 <= overlap < maxChunkSize
    requires 0 <= k < |HardCutWindows(n, maxChunkSize, overlap, start)| - 1
    ensures HardCutWindows(n, maxChunkSize, overlap, start)[k].end
          - HardCutWindows(n, maxChunkSize, overlap, start)[k].start > overlap
    decreases n - start
  {
    var length := if maxChunkSize < n - start then maxChunkSize else n - start;
    var next := start + Advance(length, overlap);
    var w := HardCutWindows(n, maxChunkSize, overlap, start);
    var rest := HardCutWindows(n, maxChunkSize, overlap, next);
    assert w == [Window(start, start + length)] + rest;
    if k == 0 {
      assert |rest| > 0;
    } else {
      HardCutBeyondOverlap(n, maxChunkSize, overlap, next, k - 1);
    }
  }

  /** With no overlap, or an overlap the guard overrides, text without whitespace
      gets `ceil(|text| / maxChunkSize)` chunks. */
  lemma ChunkCountWithoutOverlap(text: string, opts: ChunkingOptions)
    requires NoWhiteSpace(text) && |text| > 0 && opts.maxChunkSize >= 1
    requires opts.overlap == 0 || opts.overlap >= opts.maxChunkSize
    ensures Chunk(text, opts).Success?
    ensures |Chunk(text, opts).value| == CeilDiv(|text|, opts.maxChunkSize)
  {
    assert !IsBlank(text) by { assert !IsWhiteSpace(text[0]); }
    if |text| > opts.maxChunkSize {
      ChunksWithoutWhiteSpace(text, opts);
      HardCutCount(|text|, opts.maxChunkSize, opts.overlap, 0);
    } else {
      assert CeilDiv(|text| - opts.maxChunkSize, opts.maxChunkSize) == 0;
    }
  }

  /** With no overlap, or an overlap the guard overrides, the chunks of text without
      whitespace put back together give the text. */
  lemma ChunksTileWithoutOverlap(text: string, opts: ChunkingOptions)
    requires NoWhiteSpace(text) && |text| > 0 && opts.maxChunkSize >= 1
    requires opts.overlap == 0 || opts.overlap >= opts.maxChunkSize
    ensures Chunk(text, opts).Success?
    ensures Concat(Chunk(text, opts).value) == text
  {
    assert !IsBlank(text) by { assert !IsWhiteSpace(text[0]); }
    var cs := Chunk(text, opts).value;
    if |text| <= opts.maxChunkSize {
      assert Concat(cs) == text + Concat([]);
    } else {
      var w := HardCutWindows(|text|, opts.maxChunkSize, opts.overlap, 0);
      ChunksWithoutWhiteSpace(text, opts);
      HardCutSpans(|text|, opts.maxChunkSize, opts.overlap, 0);
      HardCutContiguous(|text|, opts.maxChunkSize, opts.overlap, 0);
      ConcatWindows(text, cs, w, 0);
      assert cs[0..] == cs;
    }
  }

  /** The chunk texts, one after the other. */
  function Concat(cs: seq<TextChunk>): string {
    if |cs| == 0 then "" else cs[0].text + Concat(cs[1..])
  }

  /** Verbatim chunks of contiguous windows that end at the end of the text put back
      together give the text from the first window on. */
  lemma {:induction false} ConcatWindows(text: string, cs: seq<TextChunk>, w: seq<Window>, k: nat)
    requires Verbatim(text, w, cs, 0) && k < |w|
    requires OverlapBy(w, 0) && Spans(w, 0, |text|)
    ensures Concat(cs[k..]) == text[w[k].start..]
    decreases |w| - k
  {
    if k == |w| - 1 {
      assert cs[k..] == [cs[k]];
      assert Concat(cs[k..]) == cs[k].text + Concat([]);
    } else {
      ConcatWindows(text, cs, w, k + 1);
      assert cs[k..][1..] == cs[k + 1..];
      assert w[k].end == w[k + 1].start;
      assert text[w[k].start..] == text[w[k].start..w[k].end] + text[w[k + 1].start..];
    }
  }

  // ---------------------------------------------------------------- worked examples

  /** 250 characters, at most 100 per chunk, no overlap: three chunks of 100, 100 and 50. */
  lemma ExampleNoOverlap()
    ensures HardCutWindows(250, 100, 0, 0) == [Window(0, 100), Window(100, 200), Window(200, 250)]
  {
  }

  /** The same text with an overlap of 20 gives four windows: once a window reaches
      the end of the text the scan still moves back by the overlap, so the last
      window `[230, 250)` lies inside the one before it. */
  lemma ExampleTrailingWindow()
    ensures HardCutWindows(250, 100, 20, 0) == [Window(0, 100), Window(80, 180), Window(160, 250), Window(230, 250)]
  {
  }

  /** An overlap larger than a chunk is overridden by the forward-progress guard. */
  lemma ExampleOverlapBeyondChunk()
    ensures HardCutWindows(200, 50, 60, 0) == [Window(0, 50), Window(50, 100), Window(100, 150), Window(150, 200)]
  {
  }

  /** With a positive overlap, text longer than one chunk always ends in a chunk that
      lies inside the previous one: the window that reaches the end is longer than
      the overlap, so the scan moves back by the overlap and cuts `[n - overlap, n)`
      once more. */
  lemma TrailingChunkInsidePrevious(text: string, opts: ChunkingOptions)
    requires NoWhiteSpace(text) && 0 < opts.overlap < opts.maxChunkSize < |text|
    ensures Chunk(text, opts).Success?
    ensures var cs := Chunk(text, opts).value;
      && |cs| >= 2
      && cs[|cs| - 2].endOffset == cs[|cs| - 1].endOffset == |text|
      && cs[|cs| - 1].startOffset == |text| - opts.overlap
  {
    ChunksWithoutWhiteSpace(text, opts);
    HardCutTrailing(|text|, opts.maxChunkSize, opts.overlap, 0);
  }

  lemma {:induction false} HardCutTrailing(n: int, maxChunkSize: int, overlap: int, start: int)
    requires 0 < overlap < maxChunkSize && start + maxChunkSize < n
    ensures var w := HardCutWindows(n, maxChunkSize, overlap, start);
      |w| >= 2 && w[|w| - 2].end == w[|w| - 1].end == n && w[|w| - 1].start == n - overlap
    decreases n - start
  {
    var next := start + maxChunkSize - overlap;
    var w := HardCutWindows(n, maxChunkSize, overlap, start);
    var rest := HardCutWindows(n, maxChunkSize, overlap, next);
    assert w == [Window(start, start + maxChunkSize)] + rest;
    if next + maxChunkSize < n {
      HardCutTrailing(n, maxChunkSize, overlap, next);
    } else {
      var last := n - overlap;
      var tail := HardCutWindows(n, maxChunkSize, overlap, last);
      assert rest == [Window(next, n)] + tail;
      assert tail == [Window(last, n)] + HardCutWindows(n, maxChunkSize, overlap, n);
    }
  }
}
