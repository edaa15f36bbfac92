/** Fixed-window chunking with overlap. */
module Chunking {
  import opened Collections
  import opened Text

  datatype Chunked = Chunks(chunks: seq<string>) | BadChunkSize | BadOverlap

  /** The windows of `text` from `start` on, each `size` wide, `step` apart, until one reaches the end. */
  function Windows(text: string, size: nat, step: nat, start: nat): seq<string>
    requires 0 < step <= size && start < |text|
    decreases |text| - start
  {
    var window := text[start..Min(start + size, |text|)];
    if start + size >= |text| then [window]
    else [window] + Windows(text, size, step, start + step)
  }

  /** What the chunks say when read in sequence: the first, then each other one without its overlap. */
  function Reassemble(chunks: seq<string>, overlap: nat): string {
    if chunks == [] then ""
    else
      var n := |chunks| - 1;
      if n == 0 then chunks[0]
      else Reassemble(chunks[..n], overlap) + if overlap <= |chunks[n]| then chunks[n][overlap..] else ""
  }

  /** The chunks of a text, for a positive size and an overlap below it. */
  function ChunksOf(text: string, size: nat, overlap: nat): seq<string>
    requires overlap < size
  {
    var normalized := Strip(text);
    if normalized == "" then []
    else if |normalized| <= size then [normalized]
    else Windows(normalized, size, size - overlap, 0)
  }

  /** Only blank text has no chunks. */
  lemma NoChunksIff(text: string, size: nat, overlap: nat)
    requires overlap < size
    ensures ChunksOf(text, size, overlap) == [] <==> AllSpace(text)
  {
    BlankIff(text);
  }

  method ChunkText(text: string, size: int, overlap: int) returns (result: Chunked)
    ensures size <= 0 ==> result == BadChunkSize
    ensures size > 0 && !(0 <= overlap < size) ==> result == BadOverlap
    ensures size > 0 && 0 <= overlap < size ==> result == Chunks(ChunksOf(text, size, overlap))
    ensures result.Chunks? ==>
              && Reassemble(result.chunks, overlap) == Strip(text)
              && (forall i | 0 <= i < |result.chunks| :: |result.chunks[i]| <= size)
              && (forall i | 0 < i < |result.chunks| :: |result.chunks[i]| > overlap)
  {
    if size <= 0 {
      return BadChunkSize;
    }
    if !(0 <= overlap < size) {
      return BadOverlap;
    }
    var normalized := Strip(text);
    if normalized == "" {
      return Chunks([]);
    }
    if |normalized| <= size {
      return Chunks([normalized]);
    }
    ChunksLoseNothing(normalized, size, overlap);
    var chunks := SlideWindow(normalized, size, overlap);
    return Chunks(chunks);
  }

  method SlideWindow(normalized: string, size: nat, overlap: nat) returns (chunks: seq<string>)
    requires overlap < size < |normalized|
    ensures chunks == Windows(normalized, size, size - overlap, 0)
  {
    var step := size - overlap;
    chunks := [];
    var start := 0;
    var length := |normalized|;
    while start < length
      invariant 0 <= start < length
      invariant Windows(normalized, size, step, 0) == chunks + Windows(normalized, size, step, start)
      decreases length - start
    {
      chunks := chunks + [normalized[start..Min(start + size, length)]];
      if start + size >= length {
        break;
      }
      start := start + step;
    }
  }

  // ----- nothing is lost -----

  /** Where the `i`-th window starts. */
  function Start(i: nat, step: nat): nat {
    if i == 0 then 0 else Start(i - 1, step) + step
  }

  lemma {:induction false} WindowAt(text: string, size: nat, overlap: nat, start: nat, i: nat)
    requires overlap < size && start < |text| && (start > 0 ==> start + overlap < |text|)
    requires i < |Windows(text, size, size - overlap, start)|
    ensures var windows := Windows(text, size, size - overlap, start);
            var at := start + Start(i, size - overlap);
            && at < |text| && windows[i] == text[at..Min(at + size, |text|)]
            && (i < |windows| - 1 <==> at + size < |text|)
            && (i > 0 ==> at + overlap < |text|)
    decreases i
  {
    if i > 0 {
      WindowAt(text, size, overlap, start + (size - overlap), i - 1);
    }
  }

  /** Reading the first `n` windows in sequence gives the text up to the end of the last of them. */
  lemma {:induction false} ReadsBackTo(text: string, size: nat, overlap: nat, n: nat)
    requires overlap < size < |text|
    requires 0 < n <= |Windows(text, size, size - overlap, 0)|
    ensures Reassemble(Windows(text, size, size - overlap, 0)[..n], overlap) ==
            text[..Min(Start(n - 1, size - overlap) + size, |text|)]
  {
    var windows := Windows(text, size, size - overlap, 0);
    var at := Start(n - 1, size - overlap);
    WindowAt(text, size, overlap, 0, n - 1);
    if n > 1 {
      WindowAt(text, size, overlap, 0, n - 2);
      ReadsBackTo(text, size, overlap, n - 1);
      assert at + overlap == Start(n - 2, size - overlap) + size;
      ReadOneMore(text, windows, overlap, n, at, Min(at + size, |text|));
    } else {
      assert windows[..n] == [windows[0]];
    }
  }

  lemma ReadOneMore(text: string, windows: seq<string>, overlap: nat, n: nat, at: nat, end: nat)
    requires 1 < n <= |windows| && at + overlap < end <= |text|
    requires windows[n - 1] == text[at..end]
    requires Reassemble(windows[..n - 1], overlap) == text[..at + overlap]
    ensures Reassemble(windows[..n], overlap) == text[..end]
  {
    assert windows[..n][..n - 1] == windows[..n - 1];
    assert text[at..end][overlap..] == text[at + overlap..end];
  }

  /** The chunks of a text longer than one window: reading them in sequence gives the text back, each
      is at most one window long, and each later one adds at least one character. */
  lemma ChunksLoseNothing(text: string, size: nat, overlap: nat)
    requires overlap < size < |text|
    ensures var chunks := Windows(text, size, size - overlap, 0);
            && Reassemble(chunks, overlap) == text
            && (forall i | 0 <= i < |chunks| :: |chunks[i]| <= size)
            && (forall i | 0 < i < |chunks| :: |chunks[i]| > overlap)
  {
    var chunks := Windows(text, size, size - overlap, 0);
    var n := |chunks|;
    ReadsBackTo(text, size, overlap, n);
    WindowAt(text, size, overlap, 0, n - 1);
    assert chunks[..n] == chunks;
    forall i | 0 <= i < n ensures |chunks[i]| <= size && (i > 0 ==> |chunks[i]| > overlap) {
      WindowAt(text, size, overlap, 0, i);
    }
  }

  /** The number of chunks is ceil((length - overlap) / (size - overlap)): the least count whose
      steps cover the rest. */
  lemma {:induction false} ChunkCount(text: string, size: nat, overlap: nat, start: nat)
    requires overlap < size && start + overlap < |text|
    ensures var count := |Windows(text, size, size - overlap, start)|;
            var rest := |text| - start - overlap;
            (count - 1) * (size - overlap) < rest <= count * (size - overlap)
    decreases |text| - start
  {
    var step := size - overlap;
    if start + size < |text| {
      ChunkCount(text, size, overlap, start + step);
      var fewer := |Windows(text, size, step, start + step)|;
      assert (fewer + 1) * step == fewer * step + step;
      assert fewer * step == (fewer - 1) * step + step;
    }
  }
}
