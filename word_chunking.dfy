/**
 * Plain-text ingestion: `ingest_text` (the text stripped) and `chunk_text`, the
 * overlapping word windows that every ingested text is cut into before it is embedded.
 */
module WordChunking {
  import opened PyStr

  const DefaultChunkSize := 600
  const DefaultOverlap := 120

  /** `ingest_text`: the text without surrounding whitespace. */
  function IngestText(text: string): (r: string)
    ensures Stripped(r) && |r| <= |text|
    ensures r == [] <==> AllSpace(text)
    ensures exists a :: 0 <= a && a + |r| <= |text| && r == text[a..a + |r|] && AllSpace(text[..a]) && AllSpace(text[a + |r|..])
  {
    StripSlice(text);
    Strip(text)
  }

  /** The distance between window starts: `max(1, chunk_size - overlap)`. */
  function Stride(chunkSize: int, overlap: int): (step: nat)
    ensures step >= 1
    ensures step >= chunkSize - overlap
    ensures step == 1 || step == chunkSize - overlap
  {
    if chunkSize - overlap < 1 then 1 else chunkSize - overlap
  }

  /** Every word of a `split()` result is non-empty and holds no whitespace. */
  predicate Words(words: seq<string>) {
    forall i :: 0 <= i < |words| ==> words[i] != [] && NoSpace(words[i])
  }

  /** A chunk is kept when it is non-empty. */
  function Emit(chunk: string): (kept: seq<string>)
    ensures kept == [] <==> chunk == []
  {
    if chunk != [] then [chunk] else []
  }

  /**
   * The chunks a `for start in range(start, n, step)` loop keeps when the chunk at each
   * start is `chunkAt(start)` and empty chunks are dropped.
   */
  function Emitted(chunkAt: nat -> string, n: nat, start: nat, step: nat): seq<string>
    requires step >= 1
    decreases n - start
  {
    if start >= n then [] else Emit(chunkAt(start)) + Emitted(chunkAt, n, start + step, step)
  }

  /** The chunk at word `start`: `" ".join(words[start:start + size])`. */
  function WindowOf(words: seq<string>, size: int): nat -> string {
    start => Join(PySlice(words, start, start + size), " ")
  }

  /** The words `chunk_text` works on: the stripped text split on whitespace. */
  function Cleaned(text: string): (words: seq<string>)
    ensures words == [] <==> AllSpace(text)
  {
    Split(Strip(text))
  }

  /** `chunk_text(text, chunk_size, overlap)`. */
  function WordChunks(text: string, chunkSize: int, overlap: int): seq<string>
  {
    var words := Cleaned(text);
    if words == [] then [] else Emitted(WindowOf(words, chunkSize), |words|, 0, Stride(chunkSize, overlap))
  }

  /** `chunk_text`: blank text gives no chunks, otherwise the windows of its words. */
  method ChunkText(text: string, chunkSize: int, overlap: int) returns (chunks: seq<string>)
    ensures chunks == WordChunks(text, chunkSize, overlap)
  {
    var cleaned := Split(Strip(text));
    chunks := [];
    if cleaned == [] {
      return;
    }
    var step := if chunkSize - overlap < 1 then 1 else chunkSize - overlap;
    chunks := ChunkWindows(cleaned, step, chunkSize);
  }

  /** The `for start in range(0, len(cleaned), step)` loop of `chunk_text`. */
  method ChunkWindows(cleaned: seq<string>, step: nat, chunkSize: int) returns (chunks: seq<string>)
    requires step >= 1
    ensures chunks == Emitted(WindowOf(cleaned, chunkSize), |cleaned|, 0, step)
  {
    var chunkAt := WindowOf(cleaned, chunkSize);
    chunks := [];
    var start := 0;
    while start < |cleaned|
      invariant chunks + Emitted(chunkAt, |cleaned|, start, step) == Emitted(chunkAt, |cleaned|, 0, step)
      decreases |cleaned| - start
    {
      var chunk := chunkAt(start);
      LoopStep(chunkAt, |cleaned|, start, step, chunks);
      if chunk != [] {
        chunks := chunks + [chunk];
      }
      start := start + step;
    }
  }

  /** One turn of the loop keeps the kept chunks a prefix of all chunks. */
  lemma LoopStep(chunkAt: nat -> string, n: nat, start: nat, step: nat, acc: seq<string>)
    requires step >= 1 && start < n
    requires acc + Emitted(chunkAt, n, start, step) == Emitted(chunkAt, n, 0, step)
    ensures var chunk, later, all := chunkAt(start), Emitted(chunkAt, n, start + step, step), Emitted(chunkAt, n, 0, step);
      (chunk != [] ==> acc + [chunk] + later == all) && (chunk == [] ==> acc + later == all)
  {
    var chunk, later := chunkAt(start), Emitted(chunkAt, n, start + step, step);
    assert Emitted(chunkAt, n, start, step) == Emit(chunk) + later;
    if chunk != [] {
      assert acc + [chunk] + later == acc + ([chunk] + later);
    } else {
      assert Emit(chunk) + later == later;
    }
  }

  // ---------------------------------------------------------------------------
  // The shape of the range loop, for any chunk function
  // ---------------------------------------------------------------------------

  /** The start of the `k`-th window after `start`, counted step by step. */
  function Offset(start: nat, k: nat, step: nat): nat
    decreases k
  {
    if k == 0 then start else Offset(start + step, k - 1, step)
  }

  lemma MulSucc(a: int, c: int)
    ensures (a + 1) * c == a * c + c
  {
  }

  lemma MulNonneg(a: nat, b: nat)
    ensures a * b >= 0
  {
  }

  /** `a <= b` scales by a non-negative factor. */
  lemma {:induction false} MulLe(a: nat, b: nat, c: nat)
    requires a <= b
    ensures a * c <= b * c
    decreases b - a
  {
    if a < b {
      MulLe(a, b - 1, c);
      MulSucc(b - 1, c);
    }
  }

  lemma {:induction false} OffsetIsProduct(start: nat, k: nat, step: nat)
    ensures Offset(start, k, step) == start + k * step
    decreases k
  {
    if k > 0 {
      OffsetIsProduct(start + step, k - 1, step);
      MulSucc(k - 1, step);
    }
  }

  /** No chunk is dropped: every start below `n` gives a non-empty chunk. */
  predicate NoneEmpty(chunkAt: nat -> string, n: nat) {
    forall i: nat :: i < n ==> chunkAt(i) != []
  }

  /** When no chunk is dropped, the loop keeps just enough chunks to pass `n`. */
  lemma {:induction false} EmittedCount(chunkAt: nat -> string, n: nat, start: nat, step: nat)
    requires step >= 1 && start < n && NoneEmpty(chunkAt, n)
    ensures var c := |Emitted(chunkAt, n, start, step)|;
      c >= 1 && Offset(start, c - 1, step) < n <= Offset(start, c, step)
    decreases n - start
  {
    var rest := Emitted(chunkAt, n, start + step, step);
    assert chunkAt(start) != [];
    assert |Emitted(chunkAt, n, start, step)| == 1 + |rest|;
    if start + step < n {
      EmittedCount(chunkAt, n, start + step, step);
      assert Offset(start, |rest|, step) == Offset(start + step, |rest| - 1, step);
      assert Offset(start, |rest| + 1, step) == Offset(start + step, |rest|, step);
    } else {
      assert rest == [];
      assert Offset(start, 1, step) == start + step;
    }
  }

  /** When no chunk is dropped, kept chunk `k` is the chunk at the `k`-th start. */
  lemma {:induction false} EmittedAt(chunkAt: nat -> string, n: nat, start: nat, step: nat, k: nat)
    requires step >= 1 && start < n && NoneEmpty(chunkAt, n)
    requires k < |Emitted(chunkAt, n, start, step)|
    ensures Emitted(chunkAt, n, start, step)[k] == chunkAt(Offset(start, k, step))
    decreases k
  {
    var r, rest := Emitted(chunkAt, n, start, step), Emitted(chunkAt, n, start + step, step);
    assert chunkAt(start) != [];
    assert r == [chunkAt(start)] + rest;
    if k > 0 {
      assert r[k] == rest[k - 1];
      EmittedAt(chunkAt, n, start + step, step, k - 1);
    }
  }

  /** The count bounds as products: `(c - 1) * step < n <= c * step`, from word 0. */
  lemma {:induction false} EmittedBounds(chunkAt: nat -> string, n: nat, step: nat)
    requires step >= 1 && 0 < n && NoneEmpty(chunkAt, n)
    ensures var c := |Emitted(chunkAt, n, 0, step)|;
      c >= 1 && (c - 1) * step < n <= c * step
  {
    var c := |Emitted(chunkAt, n, 0, step)|;
    EmittedCount(chunkAt, n, 0, step);
    OffsetIsProduct(0, c - 1, step);
    OffsetIsProduct(0, c, step);
  }

  /** Kept chunk `k` as a product: the chunk at `k * step`, which lies below `n`. */
  lemma {:induction false} EmittedAtProduct(chunkAt: nat -> string, n: nat, step: nat, k: nat)
    requires step >= 1 && 0 < n && NoneEmpty(chunkAt, n)
    requires k < |Emitted(chunkAt, n, 0, step)|
    ensures 0 <= k * step < n && Emitted(chunkAt, n, 0, step)[k] == chunkAt(k * step)
  {
    MulNonneg(k, step);
    EmittedBounds(chunkAt, n, step);
    MulLe(k, |Emitted(chunkAt, n, 0, step)| - 1, step);
    EmittedAt(chunkAt, n, 0, step, k);
    OffsetIsProduct(0, k, step);
  }

  /** `c` is `ceil(n / step)` when `(c - 1) * step < n <= c * step`. */
  lemma {:induction false} CeilDiv(n: nat, step: nat, c: nat)
    requires step >= 1 && (c - 1) * step < n <= c * step
    ensures c == (n + step - 1) / step
  {
    var q := (n + step - 1) / step;
    assert q * step + (n + step - 1) % step == n + step - 1;
    if q < c {
      MulLe(q + 1, c, step);
      MulSucc(q, step);
    } else if q > c {
      MulLe(c + 1, q, step);
      MulSucc(c, step);
    }
  }

  // ---------------------------------------------------------------------------
  // Word windows
  // ---------------------------------------------------------------------------

  lemma CleanedWords(text: string)
    ensures Words(Cleaned(text))
  {
    SplitWords(Strip(text));
  }

  /** A window that starts inside the word list is non-empty and splits back into its words. */
  lemma {:induction false} WindowWords(words: seq<string>, start: nat, size: int)
    requires size >= 1 && Words(words) && start < |words|
    ensures var w, chunk := words[start..Min(start + size, |words|)], WindowOf(words, size)(start);
      1 <= |w| <= size && chunk == Join(w, " ") && chunk != [] && Split(chunk) == w
  {
    var w := PySlice(words, start, start + size);
    assert WindowOf(words, size)(start) == Join(w, " ");
    assert w == words[start..Min(start + size, |words|)];
    assert forall i :: 0 <= i < |w| ==> w[i] == words[start + i];
    JoinEmpty(w, " ");
    SplitJoin(w);
  }

  /** No word window is dropped when `chunk_size >= 1`. */
  lemma WindowsKept(words: seq<string>, size: int)
    requires size >= 1 && Words(words)
    ensures NoneEmpty(WindowOf(words, size), |words|)
  {
    forall i: nat | i < |words|
      ensures WindowOf(words, size)(i) != []
    {
      WindowWords(words, i, size);
    }
  }

  // ---------------------------------------------------------------------------
  // The windows of a word list
  // ---------------------------------------------------------------------------

  /** The windows the range loop keeps for a word list. */
  function Windows(words: seq<string>, size: int, step: nat): seq<string>
    requires step >= 1
  {
    Emitted(WindowOf(words, size), |words|, 0, step)
  }

  /** Window `k` covers the words from `k * step`: joined, and split back. */
  lemma {:induction false} WindowAt(words: seq<string>, size: int, step: nat, k: nat)
    requires size >= 1 && step >= 1 && Words(words) && k < |Windows(words, size, step)|
    ensures 0 <= k * step < |words|
    ensures var chunk, w := Windows(words, size, step)[k], words[k * step..Min(k * step + size, |words|)];
      chunk == Join(w, " ") && Split(chunk) == w && 1 <= |w| <= size
  {
    WindowsKept(words, size);
    EmittedAtProduct(WindowOf(words, size), |words|, step, k);
    WindowWords(words, k * step, size);
  }

  /** The words of window `k`, without the join. */
  lemma {:induction false} WindowSpan(words: seq<string>, size: int, step: nat, k: nat)
    requires size >= 1 && step >= 1 && Words(words) && k < |Windows(words, size, step)|
    ensures 0 <= k * step < |words|
    ensures Split(Windows(words, size, step)[k]) == words[k * step..Min(k * step + size, |words|)]
  {
    WindowAt(words, size, step, k);
  }

  /** There are `ceil(n / step)` windows of a non-empty word list. */
  lemma {:induction false} WindowCount(words: seq<string>, size: int, step: nat)
    requires size >= 1 && step >= 1 && Words(words) && words != []
    ensures var n, c := |words|, |Windows(words, size, step)|;
      c >= 1 && c == (n + step - 1) / step && (c - 1) * step < n <= c * step
  {
    WindowsKept(words, size);
    EmittedBounds(WindowOf(words, size), |words|, step);
    CeilDiv(|words|, step, |Windows(words, size, step)|);
  }

  lemma {:induction false} WindowsInOrder(words: seq<string>, size: int, step: nat, j: nat, k: nat)
    requires size >= 1 && step >= 1 && Words(words) && j < k < |Windows(words, size, step)|
    ensures j * step < k * step < |words|
  {
    WindowSpan(words, size, step, k);
    MulLe(j + 1, k, step);
    MulSucc(j, step);
  }

  lemma {:induction false} WindowCovers(words: seq<string>, size: int, step: nat, i: nat)
    requires 1 <= step <= size && Words(words) && i < |words|
    ensures i / step < |Windows(words, size, step)| && words[i] in Split(Windows(words, size, step)[i / step])
  {
    WindowCount(words, size, step);
    CoverIndex(i, |words|, step, |Windows(words, size, step)|);
    var k := i / step;
    WindowSpan(words, size, step, k);
    CoveredAt(words, k * step, Min(k * step + size, |words|), i);
  }

  lemma {:induction false} WindowsFirstLast(words: seq<string>, size: int, step: nat)
    requires 1 <= step <= size && Words(words) && words != []
    ensures var c := |Windows(words, size, step)|;
      c >= 1 && Split(Windows(words, size, step)[0]) == words[..Min(size, |words|)] &&
      var last := Split(Windows(words, size, step)[c - 1]);
      1 <= |last| <= |words| && last == words[|words| - |last|..]
  {
    var c := |Windows(words, size, step)|;
    WindowCount(words, size, step);
    WindowSpan(words, size, step, 0);
    PrefixWindow(words, size);
    WindowSpan(words, size, step, c - 1);
    LastReaches(|words|, step, c, size);
    SuffixWindow(words, (c - 1) * step, size);
  }

  lemma {:induction false} WindowsOverlap(words: seq<string>, size: int, overlap: int, k: nat)
    requires 0 <= overlap < size && Words(words)
    requires k + 1 < |Windows(words, size, size - overlap)|
    requires k * (size - overlap) + size <= |words|
    ensures var step, chunks := size - overlap, Windows(words, size, size - overlap);
      |Split(chunks[k])| == size && overlap <= |Split(chunks[k + 1])| &&
      Split(chunks[k])[step..] == Split(chunks[k + 1])[..overlap]
  {
    var step := size - overlap;
    WindowSpan(words, size, step, k);
    WindowSpan(words, size, step, k + 1);
    MulSucc(k, step);
    OverlapSlices(words, k * step, step, size, overlap);
  }

  /** Word `i` falls in window `i / step` when `c` windows pass `n`. */
  lemma CoverIndex(i: nat, n: nat, step: nat, c: nat)
    requires step >= 1 && i < n <= c * step
    ensures var k := i / step; k < c && 0 <= k * step <= i < k * step + step
  {
    var k := i / step;
    assert k * step + i % step == i;
    if k >= c {
      MulLe(c, k, step);
    }
  }

  lemma CoveredAt(words: seq<string>, lo: nat, hi: nat, i: nat)
    requires lo <= i < hi <= |words|
    ensures words[i] in words[lo..hi]
  {
    assert words[lo..hi][i - lo] == words[i];
  }

  /** With `step <= size` the last window reaches past word `n`. */
  lemma LastReaches(n: nat, step: nat, c: nat, size: int)
    requires 1 <= step <= size && c >= 1 && n <= c * step
    ensures (c - 1) * step + size >= n
  {
    MulSucc(c - 1, step);
  }

  lemma PrefixWindow<T>(words: seq<T>, size: int)
    requires size >= 1
    ensures words[0..Min(0 + size, |words|)] == words[..Min(size, |words|)]
  {
  }

  /** A window that reaches the end is a suffix. */
  lemma SuffixWindow<T>(words: seq<T>, lo: int, size: int)
    requires 0 <= lo < |words| <= lo + size
    ensures var last := words[lo..Min(lo + size, |words|)];
      1 <= |last| <= |words| && last == words[|words| - |last|..]
  {
  }

  /** Two windows `step` apart share `overlap = size - step` words. */
  lemma OverlapSlices<T>(words: seq<T>, lo: int, step: int, size: int, overlap: int)
    requires 0 <= lo && 0 <= overlap < size && step == size - overlap && lo + size <= |words|
    ensures var w, v := words[lo..Min(lo + size, |words|)], words[lo + step..Min(lo + step + size, |words|)];
      |w| == size && overlap <= |v| && w[step..] == v[..overlap]
  {
    var w, v := words[lo..Min(lo + size, |words|)], words[lo + step..Min(lo + step + size, |words|)];
    assert forall j :: 0 <= j < overlap ==> w[step..][j] == words[lo + step + j] == v[..overlap][j];
  }

  // ---------------------------------------------------------------------------
  // Properties of `chunk_text`
  // ---------------------------------------------------------------------------

  /** The chunks of a non-blank text are the windows of its words. */
  lemma ChunksAreWindows(text: string, chunkSize: int, overlap: int)
    requires !AllSpace(text)
    ensures Words(Cleaned(text))
    ensures WordChunks(text, chunkSize, overlap) == Windows(Cleaned(text), chunkSize, Stride(chunkSize, overlap))
  {
    CleanedWords(text);
  }

  /** `chunk_text` yields no chunks exactly for blank text (for `chunk_size >= 1`). */
  lemma {:induction false} NoChunksIffBlank(text: string, chunkSize: int, overlap: int)
    requires chunkSize >= 1
    ensures WordChunks(text, chunkSize, overlap) == [] <==> AllSpace(text)
  {
    if !AllSpace(text) {
      ChunksAreWindows(text, chunkSize, overlap);
      WindowCount(Cleaned(text), chunkSize, Stride(chunkSize, overlap));
    }
  }

  /** The number of chunks is `ceil(words / stride)`: the windows just pass the last word. */
  lemma {:induction false} ChunkCount(text: string, chunkSize: int, overlap: int)
    requires chunkSize >= 1
    ensures var n, step, c := |Cleaned(text)|, Stride(chunkSize, overlap), |WordChunks(text, chunkSize, overlap)|;
      c == (n + step - 1) / step && (n > 0 ==> (c - 1) * step < n <= c * step)
  {
    if !AllSpace(text) {
      ChunksAreWindows(text, chunkSize, overlap);
      WindowCount(Cleaned(text), chunkSize, Stride(chunkSize, overlap));
    }
  }

  /**
   * Chunk `k` starts at word `k * stride`: it is the next (at most) `chunk_size` words,
   * joined by single spaces, and splitting it gives them back.
   */
  lemma {:induction false} ChunkWords(text: string, chunkSize: int, overlap: int, k: nat)
    requires chunkSize >= 1 && k < |WordChunks(text, chunkSize, overlap)|
    ensures 0 <= k * Stride(chunkSize, overlap) < |Cleaned(text)|
    ensures var words, lo, chunk := Cleaned(text), k * Stride(chunkSize, overlap), WordChunks(text, chunkSize, overlap)[k];
      chunk == Join(words[lo..Min(lo + chunkSize, |words|)], " ") &&
      Split(chunk) == words[lo..Min(lo + chunkSize, |words|)] &&
      1 <= |Split(chunk)| <= chunkSize
  {
    var words, step := Cleaned(text), Stride(chunkSize, overlap);
    ChunksAreWindows(text, chunkSize, overlap);
    WindowAt(words, chunkSize, step, k);
    assert WordChunks(text, chunkSize, overlap)[k] == Windows(words, chunkSize, step)[k];
  }

  /** Chunks appear in document order: a later chunk starts at a later word. */
  lemma {:induction false} ChunksInOrder(text: string, chunkSize: int, overlap: int, j: nat, k: nat)
    requires chunkSize >= 1 && j < k < |WordChunks(text, chunkSize, overlap)|
    ensures var step := Stride(chunkSize, overlap); j * step < k * step < |Cleaned(text)|
  {
    ChunksAreWindows(text, chunkSize, overlap);
    WindowsInOrder(Cleaned(text), chunkSize, Stride(chunkSize, overlap), j, k);
  }

  /** With `0 <= overlap < chunk_size` word `i` lies in chunk `i / stride`. */
  lemma {:induction false} EveryWordCovered(text: string, chunkSize: int, overlap: int, i: nat)
    requires 0 <= overlap < chunkSize && i < |Cleaned(text)|
    ensures var step, chunks := Stride(chunkSize, overlap), WordChunks(text, chunkSize, overlap);
      i / step < |chunks| && Cleaned(text)[i] in Split(chunks[i / step])
  {
    ChunksAreWindows(text, chunkSize, overlap);
    WindowCovers(Cleaned(text), chunkSize, Stride(chunkSize, overlap), i);
  }

  /**
   * With `0 <= overlap < chunk_size` the first chunk starts at the first word and the
   * last chunk runs to the final word.
   */
  lemma {:induction false} FirstAndLastChunk(text: string, chunkSize: int, overlap: int)
    requires 0 <= overlap < chunkSize && !AllSpace(text)
    ensures var words, c := Cleaned(text), |WordChunks(text, chunkSize, overlap)|;
      c >= 1 && Split(WordChunks(text, chunkSize, overlap)[0]) == words[..Min(chunkSize, |words|)] &&
      var last := Split(WordChunks(text, chunkSize, overlap)[c - 1]);
      1 <= |last| <= |words| && last == words[|words| - |last|..]
  {
    ChunksAreWindows(text, chunkSize, overlap);
    WindowsFirstLast(Cleaned(text), chunkSize, Stride(chunkSize, overlap));
  }

  /**
   * With `0 <= overlap < chunk_size`, a full chunk shares its last `overlap` words with
   * the first `overlap` words of the next chunk.
   */
  lemma {:induction false} ConsecutiveChunksOverlap(text: string, chunkSize: int, overlap: int, k: nat)
    requires 0 <= overlap < chunkSize
    requires k + 1 < |WordChunks(text, chunkSize, overlap)|
    requires k * Stride(chunkSize, overlap) + chunkSize <= |Cleaned(text)|
    ensures var step, chunks := Stride(chunkSize, overlap), WordChunks(text, chunkSize, overlap);
      |Split(chunks[k])| == chunkSize && overlap <= |Split(chunks[k + 1])| &&
      Split(chunks[k])[step..] == Split(chunks[k + 1])[..overlap]
  {
    ChunksAreWindows(text, chunkSize, overlap);
    WindowsOverlap(Cleaned(text), chunkSize, overlap, k);
  }

  /** With stride equal to the window size the windows partition the words. */
  lemma {:induction false} JoinWindows(words: seq<string>, start: nat, size: int)
    requires size >= 1 && Words(words) && start < |words|
    ensures Join(Emitted(WindowOf(words, size), |words|, start, size), " ") == Join(words[start..], " ")
    decreases |words| - start
  {
    if start + size < |words| {
      JoinWindows(words, start + size, size);
      JoinWindowsStep(words, start, size);
    } else {
      var f := WindowOf(words, size);
      WindowWords(words, start, size);
      assert Emitted(f, |words|, start + size, size) == [];
      assert Emitted(f, |words|, start, size) == [f(start)];
      assert words[start..] == words[start..Min(start + size, |words|)];
    }
  }

  /** One full window followed by the rest joins as the words from `start` do. */
  lemma JoinWindowsStep(words: seq<string>, start: nat, size: int)
    requires size >= 1 && Words(words) && start + size < |words|
    requires Join(Emitted(WindowOf(words, size), |words|, start + size, size), " ") == Join(words[start + size..], " ")
    ensures Join(Emitted(WindowOf(words, size), |words|, start, size), " ") == Join(words[start..], " ")
  {
    var f := WindowOf(words, size);
    WindowWords(words, start, size);
    var window, later := words[start..start + size], words[start + size..];
    var rest := Emitted(f, |words|, start + size, size);
    assert Emitted(f, |words|, start, size) == [f(start)] + rest;
    WindowsKept(words, size);
    EmittedCount(f, |words|, start + size, size);
    JoinAppend([f(start)], rest, " ");
    SliceConcat(words, start, start + size);
    JoinAppend(window, later, " ");
  }

  /** `s[lo:]` is `s[lo:mid] + s[mid:]`. */
  lemma SliceConcat<T>(s: seq<T>, lo: int, mid: int)
    requires 0 <= lo <= mid <= |s|
    ensures s[lo..] == s[lo..mid] + s[mid..]
  {
  }

  /** Round trip: with `overlap == 0`, `" ".join(chunks) == " ".join(text.split())`. */
  lemma {:induction false} ChunksRejoin(text: string, chunkSize: int)
    requires chunkSize >= 1
    ensures Join(WordChunks(text, chunkSize, 0), " ") == Join(Split(text), " ")
  {
    SplitStrip(text);
    var words := Cleaned(text);
    if words != [] {
      CleanedWords(text);
      JoinWindows(words, 0, chunkSize);
      assert words[0..] == words;
    }
  }
}
