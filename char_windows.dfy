/**
 * Fixed-size character windows, as the upload handlers cut extracted text: the slices
 * `text[i:i+size]` for `i in range(0, len(text), step)`, optionally stripped with the
 * empty ones dropped.
 */
module CharWindows {
  import opened PyStr

  /** The slices `text[i:i+size]` for the offsets `start, start + step, ...` below `len(text)`. */
  function WindowsFrom(text: string, size: nat, step: nat, start: nat): (windows: seq<string>)
    requires step >= 1
    ensures start >= |text| <==> windows == []
    ensures forall k :: 0 <= k < |windows| ==> |windows[k]| <= size
    decreases |text| - start
  {
    if start >= |text| then []
    else [text[start..Min(start + size, |text|)]] + WindowsFrom(text, size, step, start + step)
  }

  /** The windows of the whole text. */
  function Windows(text: string, size: nat, step: nat): seq<string>
    requires step >= 1
  {
    WindowsFrom(text, size, step, 0)
  }

  /**
   * There are `ceil((len(text) - start) / step)` windows from `start` on: the last one
   * starts less than `step` characters before the end.
   */
  lemma {:induction false} WindowCount(text: string, size: nat, step: nat, start: nat)
    requires step >= 1 && start <= |text|
    ensures var count := |WindowsFrom(text, size, step, start)|;
      (count - 1) * step < |text| - start <= count * step
    decreases |text| - start
  {
    if start < |text| {
      var rest := WindowsFrom(text, size, step, start + step);
      if start + step <= |text| {
        WindowCount(text, size, step, start + step);
        assert (|rest| + 1) * step == |rest| * step + step;
        assert |rest| * step == (|rest| - 1) * step + step;
      } else {
        assert rest == [];
      }
    }
  }

  /** Window `k` from `start` on is the slice at offset `start + k * step`. */
  lemma {:induction false} WindowAt(text: string, size: nat, step: nat, start: nat, k: nat)
    requires step >= 1 && k < |WindowsFrom(text, size, step, start)|
    ensures start + k * step < |text|
    ensures WindowsFrom(text, size, step, start)[k] == text[start + k * step..Min(start + k * step + size, |text|)]
    decreases k
  {
    if k > 0 {
      var ws, rest := WindowsFrom(text, size, step, start), WindowsFrom(text, size, step, start + step);
      assert ws[k] == rest[k - 1];
      WindowAt(text, size, step, start + step, k - 1);
      assert start + step + (k - 1) * step == start + k * step;
    }
  }

  /** Rejoined, windows of `step` characters give back the text from `start` on. */
  lemma {:induction false} WindowsConcat(text: string, step: nat, start: nat)
    requires step >= 1 && start <= |text|
    ensures Concat(WindowsFrom(text, step, step, start)) == text[start..]
    decreases |text| - start
  {
    if start < |text| {
      var ws := WindowsFrom(text, step, step, start);
      var end := Min(start + step, |text|);
      WindowsConcat(text, step, end);
      if end == |text| {
        assert WindowsFrom(text, step, step, start + step) == [];
      }
      ConcatCons(text[start..end], WindowsFrom(text, step, step, start + step));
      assert text[start..end] + text[end..] == text[start..];
    }
  }

  /** Every window but the last holds exactly `step` characters. */
  predicate FullButLast(windows: seq<string>, step: nat) {
    forall k :: 0 <= k < |windows| - 1 ==> |windows[k]| == step
  }

  /** Windows of `step` characters hold exactly `step` characters, except possibly the last. */
  lemma {:induction false} WindowsFull(text: string, step: nat, start: nat)
    requires step >= 1
    ensures FullButLast(WindowsFrom(text, step, step, start), step)
    decreases |text| - start
  {
    if start < |text| {
      WindowsFull(text, step, start + step);
      var ws, rest := WindowsFrom(text, step, step, start), WindowsFrom(text, step, step, start + step);
      if rest != [] {
        assert |ws[0]| == step && ws == [ws[0]] + rest;
        forall k | 1 <= k < |ws| - 1 ensures |ws[k]| == step {
          assert ws[k] == rest[k - 1] && k - 1 < |rest| - 1;
        }
      }
    }
  }

  /** `"".join(parts)`. */
  function Concat(parts: seq<string>): (s: string)
    ensures |s| == 0 <==> forall i :: 0 <= i < |parts| ==> parts[i] == []
  {
    if parts == [] then [] else parts[0] + Concat(parts[1..])
  }

  lemma ConcatCons(part: string, rest: seq<string>)
    ensures Concat([part] + rest) == part + Concat(rest)
  {
    assert ([part] + rest)[1..] == rest;
  }

  /**
   * The chunks of the windows from `start` on: each window stripped, the empty ones
   * dropped, in order.
   */
  function StrippedFrom(text: string, size: nat, step: nat, start: nat): (chunks: seq<string>)
    requires step >= 1
    ensures |chunks| <= |WindowsFrom(text, size, step, start)|
    ensures forall k :: 0 <= k < |chunks| ==> chunks[k] != [] && Stripped(chunks[k]) && |chunks[k]| <= size
    decreases |text| - start
  {
    if start >= |text| then []
    else
      var chunk := Strip(text[start..Min(start + size, |text|)]);
      (if chunk != [] then [chunk] else []) + StrippedFrom(text, size, step, start + step)
  }

  /** The stripped chunks of the whole text. */
  function StrippedChunks(text: string, size: nat, step: nat): seq<string>
    requires step >= 1
  {
    StrippedFrom(text, size, step, 0)
  }

  /**
   * The stripped chunks are exactly the stripped windows that are not empty, in window order:
   * dropping nothing else and reordering nothing.
   */
  lemma {:induction false} StrippedAreWindows(text: string, size: nat, step: nat, start: nat)
    requires step >= 1
    ensures StrippedFrom(text, size, step, start) == NonEmpty(StripAll(WindowsFrom(text, size, step, start)))
    decreases |text| - start
  {
    if start < |text| {
      StrippedAreWindows(text, size, step, start + step);
      var w := text[start..Min(start + size, |text|)];
      var rest := WindowsFrom(text, size, step, start + step);
      assert ([w] + rest)[1..] == rest;
    }
  }

  /** Each part stripped. */
  function StripAll(parts: seq<string>): (r: seq<string>)
    ensures |r| == |parts|
    ensures forall i :: 0 <= i < |parts| ==> r[i] == Strip(parts[i])
  {
    if parts == [] then [] else [Strip(parts[0])] + StripAll(parts[1..])
  }

  /** The parts that are not empty, in order. */
  function NonEmpty(parts: seq<string>): (r: seq<string>)
    ensures |r| <= |parts|
    ensures forall i :: 0 <= i < |r| ==> r[i] != [] && r[i] in parts
  {
    if parts == [] then [] else (if parts[0] != [] then [parts[0]] else []) + NonEmpty(parts[1..])
  }

  /** Text that is all whitespace gives no stripped chunks. */
  lemma {:induction false} BlankHasNoChunks(text: string, size: nat, step: nat, start: nat)
    requires step >= 1 && AllSpace(text)
    ensures StrippedFrom(text, size, step, start) == []
    decreases |text| - start
  {
    if start < |text| {
      BlankHasNoChunks(text, size, step, start + step);
      var w := text[start..Min(start + size, |text|)];
      assert forall i :: 0 <= i < |w| ==> w[i] == text[start + i];
    }
  }

  /** When windows overlap or touch, text with a non-space character gives at least one chunk. */
  lemma StrippedNotEmpty(text: string, size: nat, step: nat)
    requires 1 <= step <= size && !AllSpace(text)
    ensures StrippedChunks(text, size, step) != []
  {
    var j :| 0 <= j < |text| && !IsSpace(text[j]);
    ChunkCovers(text, size, step, 0, j);
  }

  lemma {:induction false} ChunkCovers(text: string, size: nat, step: nat, start: nat, j: nat)
    requires 1 <= step <= size && start <= j < |text| && !IsSpace(text[j])
    ensures StrippedFrom(text, size, step, start) != []
    decreases |text| - start
  {
    if j < start + size {
      WindowNotBlank(text, size, start, j);
    } else {
      ChunkCovers(text, size, step, start + step, j);
    }
  }

  /** A window holding a non-space character strips to something. */
  lemma WindowNotBlank(text: string, size: nat, start: nat, j: nat)
    requires start <= j < |text| && j < start + size && !IsSpace(text[j])
    ensures Strip(text[start..Min(start + size, |text|)]) != []
  {
    var w := text[start..Min(start + size, |text|)];
    assert w[j - start] == text[j];
  }

  /** The chunk of the window at `start`, if it is not empty. */
  function ChunkAt(text: string, size: nat, start: nat): seq<string>
    requires start < |text|
  {
    var chunk := Strip(text[start..Min(start + size, |text|)]);
    if chunk != [] then [chunk] else []
  }

  /** One more window taken: the chunks so far, plus its chunk, plus those of the rest. */
  lemma StrippedStep(text: string, size: nat, step: nat, start: nat, done: seq<string>)
    requires step >= 1 && start < |text|
    ensures done + StrippedFrom(text, size, step, start)
         == (done + ChunkAt(text, size, start)) + StrippedFrom(text, size, step, start + step)
  {
  }
}
