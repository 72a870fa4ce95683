/** `split_into_chunks` of scripts/clean_and_split.py: a sliding token window
    with overlap whose end is snapped back to a sentence boundary when one lies
    in the last 30% of the window's text. */
module Chunking {
  import opened Text
  import opened Tokenizers

  const MaxTokensPerChunk: int := 1500
  const OverlapTokens: int := 200

  /** The document fields every chunk record carries. */
  datatype Metadata = Metadata(
    title: string, source: string, pdfUrl: string, doi: string,
    year: Option<int>, country: string, authors: seq<string>)

  /** One emitted chunk. `startToken` and `endToken` are absent (None) in the
      record of a document that needed no split. */
  datatype ChunkRecord = ChunkRecord(
    chunkId: string, title: string, source: string, pdfUrl: string, doi: string,
    year: Option<int>, country: string, authors: seq<string>,
    chunkText: string, chunkTokens: int, totalTokens: int,
    startToken: Option<int>, endToken: Option<int>, isFullText: bool)

  /** The window cut at one start offset: its (unstripped) text, the length of
      the token list the record counts, its end offset, and whether the end was
      snapped to a sentence boundary. */
  datatype Window = Window(text: string, tokenCount: nat, end: int, snapped: bool)

  function Min(a: int, b: int): int { if a <= b then a else b }

  function Max(a: int, b: int): int { if a >= b then a else b }

  /** A sentence end followed by a space starts at `k` in `text`. */
  predicate BoundaryAt(text: string, k: int) {
    OccursAt(text, ". ", k) || OccursAt(text, "? ", k) || OccursAt(text, "! ", k)
  }

  /** The last start of a sentence boundary at or before `j`, or -1. */
  function LastBoundaryUpTo(text: string, j: int): int
    decreases j + 1
  {
    if j < 0 then -1 else if BoundaryAt(text, j) then j else LastBoundaryUpTo(text, j - 1)
  }

  /** The start of the last sentence boundary in `text`, or -1. */
  function LastSentenceEnd(text: string): int {
    LastBoundaryUpTo(text, |text| - 2)
  }

  lemma {:induction false} LastBoundaryUpToSpec(text: string, j: int)
    ensures var r := LastBoundaryUpTo(text, j);
      && (r == -1 || (r <= j && BoundaryAt(text, r)))
      && (forall k :: r < k <= j ==> !BoundaryAt(text, k))
    decreases j + 1
  {
    if j >= 0 && !BoundaryAt(text, j) {
      LastBoundaryUpToSpec(text, j - 1);
    }
  }

  /** The result is -1 or the start of the last sentence boundary. */
  lemma LastSentenceEndSpec(text: string)
    ensures var r := LastSentenceEnd(text);
      && (r == -1 || BoundaryAt(text, r))
      && (forall k :: r < k ==> !BoundaryAt(text, k))
  {
    LastBoundaryUpToSpec(text, |text| - 2);
  }

  /** The scan finds what `max(text.rfind(". "), text.rfind("? "),
      text.rfind("! "))` finds. */
  lemma LastSentenceEndIsMaxRFind(text: string)
    ensures LastSentenceEnd(text) == Max(Max(RFind(text, ". "), RFind(text, "? ")), RFind(text, "! "))
  {
    var r := LastSentenceEnd(text);
    var m := Max(Max(RFind(text, ". "), RFind(text, "? ")), RFind(text, "! "));
    LastSentenceEndSpec(text);
    assert m == -1 || BoundaryAt(text, m);
    assert forall k :: m < k ==> !BoundaryAt(text, k);
  }

  /** Where Python's slice `tokens[i:end]` stops on a list of length `n`: a
      negative end counts back from the length (and stops at the front once it
      passes it), an end beyond the length is clamped to it. */
  function SliceEnd(end: int, n: nat): (e: nat)
    ensures e <= n
  {
    if end < 0 then Max(0, n + end) else Min(end, n)
  }

  /** `tokens[i:end]` for `0 <= i`: the items from `i` up to `SliceEnd`, or the
      empty list when that end is not after the start. */
  function Slice(tokens: seq<int>, i: nat, end: int): (s: seq<int>)
    requires i <= |tokens|
    ensures |s| == Max(0, SliceEnd(end, |tokens|) - i)
    ensures s == tokens[i..i + |s|]
  {
    var e := SliceEnd(end, |tokens|);
    if e <= i then [] else tokens[i..e]
  }

  /** A negative budget makes the first window every token but the last
      `-maxTokens` ones, as `tokens[0:-1]` does. */
  lemma NegativeEndCountsFromBack(tokens: seq<int>, end: int)
    requires end < 0 && |tokens| + end > 0
    ensures Slice(tokens, 0, end) == tokens[..|tokens| + end]
  {
  }

  /** One pass of the loop body at start offset `i`. Without a snap the end is
      `i + max_tokens` even where the slice is shorter; with a snap the text is
      cut right after the terminal character and re-encoded, and the end is `i`
      plus the re-encoded length. The 0.7 threshold is the integer test
      `10 * last > 7 * len`. */
  function WindowAt(tk: Tokenizer, tokens: seq<int>, i: nat, maxTokens: int): (w: Window)
    requires i <= |tokens|
    ensures w.snapped ==> w.end == i + w.tokenCount
    ensures !w.snapped ==> w.end == i + maxTokens
  {
    var end := i + maxTokens;
    var slice := Slice(tokens, i, end);
    var text := tk.decode(slice);
    var last := LastSentenceEnd(text);
    LastSentenceEndSpec(text);
    if 10 * last > 7 * |text| then
      var snapped := text[..last + 1];
      var n := |tk.encode(snapped)|;
      Window(snapped, n, i + n, true)
    else
      Window(text, |slice|, end, false)
  }

  /** The window's text is the decoded slice, unless it snaps; it snaps exactly
      when the last sentence boundary starts beyond 70% of that text, and then
      it is the decoded slice cut right after the terminal character of that
      boundary, counted by re-encoding it. */
  lemma WindowShape(tk: Tokenizer, tokens: seq<int>, i: nat, maxTokens: int)
    requires i <= |tokens|
    ensures var w := WindowAt(tk, tokens, i, maxTokens);
      var full := tk.decode(Slice(tokens, i, i + maxTokens));
      && (w.snapped <==> 10 * LastSentenceEnd(full) > 7 * |full|)
      && (!w.snapped ==> w.text == full && w.tokenCount == |Slice(tokens, i, i + maxTokens)|)
      && (w.snapped ==> && 2 <= |w.text| < |full| && w.text <= full
                        && w.text[|w.text| - 1] in ".?!" && full[|w.text|] == ' '
                        && w.tokenCount == tk.Count(w.text))
      && (w.snapped ==> forall k :: |w.text| <= k ==> !BoundaryAt(full, k))
  {
    var full := tk.decode(Slice(tokens, i, i + maxTokens));
    LastSentenceEndSpec(full);
  }

  /** The termination obligation of the split loop, which has no guard of its
      own, followed along the start offsets the loop actually reaches: from
      start `i` the next start `end - overlap` either reaches the end of the
      text or lies strictly further on, and the obligation holds again there.
      It fails when some reached start is followed by one at or before it. */
  predicate ProgressFrom(tk: Tokenizer, tokens: seq<int>, maxTokens: int, overlap: int, i: nat)
    decreases |tokens| - i
  {
    i < |tokens| ==>
      var next := WindowAt(tk, tokens, i, maxTokens).end - overlap;
      next >= |tokens| || (i < next && ProgressFrom(tk, tokens, maxTokens, overlap, next))
  }

  /** What the tokenizer must satisfy for snapped chunks to stay within the
      budget: re-encoding a prefix of decoded tokens gives no more tokens. */
  ghost predicate PrefixReencodesShorter(tk: Tokenizer) {
    forall ts: seq<int>, n: nat :: n <= |tk.decode(ts)| ==> |tk.encode(tk.decode(ts)[..n])| <= |ts|
  }

  /** One pass of the loop: the start offset and the window cut there. */
  datatype Cut = Cut(start: nat, w: Window)

  /** The cuts the loop makes from start offset `i` on: each next start is the
      previous end minus the overlap, until that reaches the end of the text. */
  function CutsFrom(tk: Tokenizer, tokens: seq<int>, maxTokens: int, overlap: int, i: nat): (cuts: seq<Cut>)
    requires i < |tokens| && ProgressFrom(tk, tokens, maxTokens, overlap, i)
    ensures |cuts| >= 1 && cuts[0].start == i
    decreases |tokens| - i
  {
    var w := WindowAt(tk, tokens, i, maxTokens);
    var next := w.end - overlap;
    if next >= |tokens| then [Cut(i, w)] else [Cut(i, w)] + CutsFrom(tk, tokens, maxTokens, overlap, next)
  }

  /** The record of cut `c` with sequence number `id`. */
  function SplitRecord(meta: Metadata, c: Cut, id: nat, total: nat): ChunkRecord {
    ChunkRecord(meta.source + "_" + Decimal(id), Take(meta.title, 200), meta.source, meta.pdfUrl,
      meta.doi, meta.year, meta.country, meta.authors, Strip(c.w.text), c.w.tokenCount, total,
      Some(c.start), Some(c.w.end), false)
  }

  /** The records of a run of cuts, numbered from 0. */
  function Records(meta: Metadata, cuts: seq<Cut>, total: nat): (cs: seq<ChunkRecord>)
    ensures |cs| == |cuts|
    ensures forall k :: 0 <= k < |cuts| ==> cs[k] == SplitRecord(meta, cuts[k], k, total)
  {
    seq(|cuts|, k requires 0 <= k < |cuts| => SplitRecord(meta, cuts[k], k, total))
  }

  /** The one record of a document whose tokens fit the budget. */
  function FullTextRecord(meta: Metadata, text: string, n: nat): ChunkRecord {
    ChunkRecord(meta.source + "_0", Take(meta.title, 200), meta.source, meta.pdfUrl,
      meta.doi, meta.year, meta.country, meta.authors, Strip(text), n, n, None, None, true)
  }

  /** The split loop terminates on this text (only needed on the split path). */
  predicate SplitTerminates(tk: Tokenizer, text: string, maxTokens: int, overlap: int) {
    !IsBlank(text) && |tk.encode(text)| > maxTokens ==> ProgressFrom(tk, tk.encode(text), maxTokens, overlap, 0)
  }

  /** What `split_into_chunks(text, metadata, max_tokens, overlap)` returns. */
  function Split(tk: Tokenizer, text: string, meta: Metadata, maxTokens: int, overlap: int): seq<ChunkRecord>
    requires SplitTerminates(tk, text, maxTokens, overlap)
  {
    if IsBlank(text) then []
    else
      var tokens := tk.encode(text);
      if |tokens| <= maxTokens then [FullTextRecord(meta, text, |tokens|)]
      else if tokens == [] then []
      else Records(meta, CutsFrom(tk, tokens, maxTokens, overlap, 0), |tokens|)
  }

  /** The first half of one pass of the loop: slice, decode, look for the last
      sentence boundary, and snap to it when it lies beyond 70% of the text. */
  method CutWindow(tk: Tokenizer, tokens: seq<int>, i: nat, maxTokens: int)
    returns (chunkText: string, chunkTokens: seq<int>, end: int)
    requires i <= |tokens|
    ensures var w := WindowAt(tk, tokens, i, maxTokens);
      chunkText == w.text && |chunkTokens| == w.tokenCount && end == w.end
  {
    end := i + maxTokens;
    chunkTokens := Slice(tokens, i, end);
    chunkText := tk.decode(chunkTokens);
    var lastSentenceEnd := Max(Max(RFind(chunkText, ". "), RFind(chunkText, "? ")), RFind(chunkText, "! "));
    LastSentenceEndIsMaxRFind(chunkText);
    LastSentenceEndSpec(chunkText);
    if 10 * lastSentenceEnd > 7 * |chunkText| {
      chunkText := chunkText[..lastSentenceEnd + 1];
      chunkTokens := tk.encode(chunkText);
      end := i + |chunkTokens|;
    }
  }

  method SplitIntoChunks(tk: Tokenizer, text: string, meta: Metadata, maxTokens: int, overlap: int)
    returns (chunks: seq<ChunkRecord>)
    requires SplitTerminates(tk, text, maxTokens, overlap)
    ensures chunks == Split(tk, text, meta, maxTokens, overlap)
  {
    BlankIffStripEmpty(text);
    if Strip(text) == "" {
      return [];
    }
    var tokens := tk.encode(text);
    if |tokens| <= maxTokens {
      return [ChunkRecord(meta.source + "_0", Take(meta.title, 200), meta.source, meta.pdfUrl,
        meta.doi, meta.year, meta.country, meta.authors, Strip(text), |tokens|, |tokens|,
        None, None, true)];
    }
    chunks := SplitLoop(tk, tokens, meta, maxTokens, overlap);
  }

  /** The sliding-window loop of `split_into_chunks`, entered with more tokens
      than the budget. */
  method SplitLoop(tk: Tokenizer, tokens: seq<int>, meta: Metadata, maxTokens: int, overlap: int)
    returns (chunks: seq<ChunkRecord>)
    requires ProgressFrom(tk, tokens, maxTokens, overlap, 0)
    ensures tokens == [] ==> chunks == []
    ensures tokens != [] ==> chunks == Records(meta, CutsFrom(tk, tokens, maxTokens, overlap, 0), |tokens|)
  {
    chunks := [];
    if tokens == [] {
      return;
    }
    ghost var cuts := CutsFrom(tk, tokens, maxTokens, overlap, 0);
    CutsAreWindows(tk, tokens, maxTokens, overlap, 0);
    CutsAdvance(tk, tokens, maxTokens, overlap, 0);
    CutsLastEnd(tk, tokens, maxTokens, overlap, 0);
    var i := 0;
    var chunkId := 0;
    while i < |tokens|
      invariant 0 <= i && chunkId == |chunks| <= |cuts|
      invariant chunks == Records(meta, cuts[..chunkId], |tokens|)
      invariant i < |tokens| ==> chunkId < |cuts| && cuts[chunkId].start == i
      invariant i >= |tokens| ==> chunkId == |cuts|
      decreases |tokens| - i
    {
      var chunkText, chunkTokens, end := CutWindow(tk, tokens, i, maxTokens);
      var chunkData := ChunkRecord(meta.source + "_" + Decimal(chunkId), Take(meta.title, 200),
        meta.source, meta.pdfUrl, meta.doi, meta.year, meta.country, meta.authors,
        Strip(chunkText), |chunkTokens|, |tokens|, Some(i), Some(end), false);
      CutStep(tk, tokens, maxTokens, overlap, cuts, chunkId);
      assert chunkData == SplitRecord(meta, cuts[chunkId], chunkId, |tokens|);
      RecordsSnoc(meta, cuts, chunkId, |tokens|);
      chunks := chunks + [chunkData];
      chunkId := chunkId + 1;
      i := end - overlap;
      if i >= |tokens| {
        break;
      }
    }
    assert cuts[..|cuts|] == cuts;
  }

  /** What the loop learns about cut `k`: it is the window at its start, and
      the next cut starts at its end minus the overlap when there is one. */
  lemma CutStep(tk: Tokenizer, tokens: seq<int>, maxTokens: int, overlap: int, cuts: seq<Cut>, k: nat)
    requires CutsAreWindowsAt(tk, tokens, maxTokens, cuts) && CutsAdvancing(cuts, |tokens|, overlap)
    requires EndsPastText(cuts, |tokens|, overlap) && k < |cuts|
    ensures cuts[k].w == WindowAt(tk, tokens, cuts[k].start, maxTokens)
    ensures k + 1 < |cuts| ==> cuts[k + 1].start == cuts[k].w.end - overlap < |tokens|
    ensures k + 1 == |cuts| ==> cuts[k].w.end - overlap >= |tokens|
  {
  }

  /** Numbering one more cut appends its record. */
  lemma RecordsSnoc(meta: Metadata, cuts: seq<Cut>, n: nat, total: nat)
    requires n < |cuts|
    ensures Records(meta, cuts[..n + 1], total) == Records(meta, cuts[..n], total) + [SplitRecord(meta, cuts[n], n, total)]
  {
    var a := Records(meta, cuts[..n + 1], total);
    var b := Records(meta, cuts[..n], total) + [SplitRecord(meta, cuts[n], n, total)];
    forall k | 0 <= k < |a|
      ensures a[k] == b[k]
    {
      assert cuts[..n + 1][k] == cuts[k];
      if k < n {
        assert cuts[..n][k] == cuts[k];
      }
    }
  }

  // ---------------------------------------------------------------------------
  // The run of cuts

  /** Every cut is the window at its start offset, which lies inside the text. */
  predicate CutsAreWindowsAt(tk: Tokenizer, tokens: seq<int>, maxTokens: int, cuts: seq<Cut>) {
    forall k :: 0 <= k < |cuts| ==>
      cuts[k].start < |tokens| && cuts[k].w == WindowAt(tk, tokens, cuts[k].start, maxTokens)
  }

  /** Each next start is the previous end minus the overlap, lies strictly
      after the previous start, and lies inside the text. */
  predicate CutsAdvancing(cuts: seq<Cut>, total: nat, overlap: int) {
    forall k :: 0 <= k < |cuts| - 1 ==>
      cuts[k].start < cuts[k + 1].start == cuts[k].w.end - overlap < total
  }

  lemma {:induction false} CutsAreWindows(tk: Tokenizer, tokens: seq<int>, maxTokens: int, overlap: int, i: nat)
    requires i < |tokens| && ProgressFrom(tk, tokens, maxTokens, overlap, i)
    ensures CutsAreWindowsAt(tk, tokens, maxTokens, CutsFrom(tk, tokens, maxTokens, overlap, i))
    decreases |tokens| - i
  {
    var w := WindowAt(tk, tokens, i, maxTokens);
    var next := w.end - overlap;
    if next < |tokens| {
      CutsAreWindows(tk, tokens, maxTokens, overlap, next);
      var cuts := CutsFrom(tk, tokens, maxTokens, overlap, i);
      var rest := CutsFrom(tk, tokens, maxTokens, overlap, next);
      assert cuts == [Cut(i, w)] + rest;
      forall k | 1 <= k < |cuts|
        ensures cuts[k].start < |tokens| && cuts[k].w == WindowAt(tk, tokens, cuts[k].start, maxTokens)
      {
        assert cuts[k] == rest[k - 1];
      }
    }
  }

  lemma {:induction false} CutsAdvance(tk: Tokenizer, tokens: seq<int>, maxTokens: int, overlap: int, i: nat)
    requires i < |tokens| && ProgressFrom(tk, tokens, maxTokens, overlap, i)
    ensures CutsAdvancing(CutsFrom(tk, tokens, maxTokens, overlap, i), |tokens|, overlap)
    decreases |tokens| - i
  {
    var w := WindowAt(tk, tokens, i, maxTokens);
    var next := w.end - overlap;
    if next < |tokens| {
      CutsAdvance(tk, tokens, maxTokens, overlap, next);
      var cuts := CutsFrom(tk, tokens, maxTokens, overlap, i);
      var rest := CutsFrom(tk, tokens, maxTokens, overlap, next);
      assert cuts == [Cut(i, w)] + rest;
      forall k | 0 <= k < |cuts| - 1
        ensures cuts[k].start < cuts[k + 1].start == cuts[k].w.end - overlap < |tokens|
      {
        assert cuts[k + 1] == rest[k];
        if k > 0 {
          assert cuts[k] == rest[k - 1];
        }
      }
    }
  }

  /** The last end minus the overlap reaches the end of the text. */
  predicate EndsPastText(cuts: seq<Cut>, total: nat, overlap: int) {
    |cuts| >= 1 && cuts[|cuts| - 1].w.end - overlap >= total
  }

  /** The loop stops only once the last end minus the overlap reaches the end
      of the text. */
  lemma {:induction false} CutsLastEnd(tk: Tokenizer, tokens: seq<int>, maxTokens: int, overlap: int, i: nat)
    requires i < |tokens| && ProgressFrom(tk, tokens, maxTokens, overlap, i)
    ensures EndsPastText(CutsFrom(tk, tokens, maxTokens, overlap, i), |tokens|, overlap)
    decreases |tokens| - i
  {
    var w := WindowAt(tk, tokens, i, maxTokens);
    var next := w.end - overlap;
    var cuts := CutsFrom(tk, tokens, maxTokens, overlap, i);
    if next < |tokens| {
      CutsLastEnd(tk, tokens, maxTokens, overlap, next);
      var rest := CutsFrom(tk, tokens, maxTokens, overlap, next);
      assert cuts == [Cut(i, w)] + rest;
      assert cuts[|cuts| - 1] == rest[|rest| - 1];
    } else {
      assert cuts == [Cut(i, w)];
    }
  }

  /** Cut `c` covers token offset `t` when `start <= t < end`. */
  predicate CutCovers(c: Cut, t: int) {
    c.start <= t < c.w.end
  }

  predicate CutsCover(cuts: seq<Cut>, t: int) {
    exists k :: 0 <= k < |cuts| && CutCovers(cuts[k], t)
  }

  /** With a non-negative overlap the cuts leave no gap from `i` to the end. */
  lemma {:induction false} CutsCoverTokens(tk: Tokenizer, tokens: seq<int>, maxTokens: int, overlap: int, i: nat)
    requires i < |tokens| && ProgressFrom(tk, tokens, maxTokens, overlap, i)
    requires overlap >= 0
    ensures forall t :: i <= t < |tokens| ==> CutsCover(CutsFrom(tk, tokens, maxTokens, overlap, i), t)
    decreases |tokens| - i
  {
    var cuts := CutsFrom(tk, tokens, maxTokens, overlap, i);
    var w := WindowAt(tk, tokens, i, maxTokens);
    var next := w.end - overlap;
    if next < |tokens| {
      CutsCoverTokens(tk, tokens, maxTokens, overlap, next);
      var rest := CutsFrom(tk, tokens, maxTokens, overlap, next);
      assert cuts == [Cut(i, w)] + rest;
      forall t | i <= t < |tokens|
        ensures CutsCover(cuts, t)
      {
        if t < w.end {
          assert CutCovers(cuts[0], t);
        } else {
          assert CutsCover(rest, t);
          var k :| 0 <= k < |rest| && CutCovers(rest[k], t);
          assert cuts[k + 1] == rest[k];
        }
      }
    } else {
      forall t | i <= t < |tokens|
        ensures CutsCover(cuts, t)
      {
        assert CutCovers(cuts[0], t);
      }
    }
  }

  // ---------------------------------------------------------------------------
  // Properties of the records

  /** The split path: a non-blank text with more tokens than the budget, on
      which the loop terminates. */
  predicate SplitPath(tk: Tokenizer, text: string, maxTokens: int, overlap: int) {
    && !IsBlank(text) && |tk.encode(text)| > maxTokens && tk.encode(text) != []
    && ProgressFrom(tk, tk.encode(text), maxTokens, overlap, 0)
  }

  /** Records numbered `source_0`, `source_1`, ..., all carrying offsets
      with a start inside the text and the document's total, none full text. */
  predicate NumberedSplitRecords(cs: seq<ChunkRecord>, meta: Metadata, total: nat) {
    forall k :: 0 <= k < |cs| ==>
      && cs[k].chunkId == meta.source + "_" + Decimal(k)
      && cs[k].startToken.Some? && cs[k].endToken.Some? && 0 <= cs[k].startToken.value < total
      && cs[k].totalTokens == total && !cs[k].isFullText
  }

  /** `b` starts at the end of `a` minus the overlap, strictly after `a` starts. */
  predicate Adjacent(a: ChunkRecord, b: ChunkRecord, overlap: int) {
    && a.startToken.Some? && a.endToken.Some? && b.startToken.Some?
    && a.startToken.value < b.startToken.value == a.endToken.value - overlap
  }

  predicate OffsetsAdvance(cs: seq<ChunkRecord>, overlap: int) {
    forall k :: 0 <= k < |cs| - 1 ==> Adjacent(cs[k], cs[k + 1], overlap)
  }

  lemma RecordsOfCuts(meta: Metadata, cuts: seq<Cut>, total: nat, overlap: int)
    requires forall k :: 0 <= k < |cuts| ==> cuts[k].start < total
    requires CutsAdvancing(cuts, total, overlap)
    ensures NumberedSplitRecords(Records(meta, cuts, total), meta, total)
    ensures OffsetsAdvance(Records(meta, cuts, total), overlap)
  {
    var cs := Records(meta, cuts, total);
    forall k | 0 <= k < |cs| - 1
      ensures Adjacent(cs[k], cs[k + 1], overlap)
    {
      assert cs[k + 1] == SplitRecord(meta, cuts[k + 1], k + 1, total);
    }
  }

  /** On the split path the records are numbered `source_0`, `source_1`, ...;
      all carry offsets and the document's total and are not full text; the
      first starts at 0; each next start is the previous end minus the overlap
      and strictly larger than the previous start; and the last end is at
      least `total_tokens + overlap`, so with a positive overlap the final
      `end_token` always exceeds `total_tokens`. */
  lemma SplitOffsets(tk: Tokenizer, text: string, meta: Metadata, maxTokens: int, overlap: int)
    requires SplitPath(tk, text, maxTokens, overlap)
    ensures var cs := Split(tk, text, meta, maxTokens, overlap);
      && |cs| >= 1 && cs[0].startToken == Some(0)
      && NumberedSplitRecords(cs, meta, |tk.encode(text)|)
      && OffsetsAdvance(cs, overlap)
      && cs[|cs| - 1].endToken.Some? && cs[|cs| - 1].endToken.value >= |tk.encode(text)| + overlap
  {
    var tokens := tk.encode(text);
    var cuts := CutsFrom(tk, tokens, maxTokens, overlap, 0);
    var cs := Split(tk, text, meta, maxTokens, overlap);
    assert cs == Records(meta, cuts, |tokens|);
    CutsAreWindows(tk, tokens, maxTokens, overlap, 0);
    CutsAdvance(tk, tokens, maxTokens, overlap, 0);
    CutsLastEnd(tk, tokens, maxTokens, overlap, 0);
    RecordsOfCuts(meta, cuts, |tokens|, overlap);
  }

  /** Each record on the split path is the window at its start offset: its
      `chunk_tokens` counts the unstripped window while its `chunk_text` is
      that window's text stripped. */
  lemma SplitRecordsAreWindows(tk: Tokenizer, text: string, meta: Metadata, maxTokens: int, overlap: int)
    requires SplitPath(tk, text, maxTokens, overlap)
    ensures var cs := Split(tk, text, meta, maxTokens, overlap);
      forall k :: 0 <= k < |cs| ==>
        && cs[k].startToken.Some? && 0 <= cs[k].startToken.value <= |tk.encode(text)|
        && var w := WindowAt(tk, tk.encode(text), cs[k].startToken.value, maxTokens);
           cs[k].chunkText == Strip(w.text) && cs[k].chunkTokens == w.tokenCount
           && cs[k].endToken == Some(w.end)
  {
    var tokens := tk.encode(text);
    var cuts := CutsFrom(tk, tokens, maxTokens, overlap, 0);
    var cs := Split(tk, text, meta, maxTokens, overlap);
    assert cs == Records(meta, cuts, |tokens|);
    CutsAreWindows(tk, tokens, maxTokens, overlap, 0);
    forall k | 0 <= k < |cs|
      ensures && cs[k].startToken.Some? && 0 <= cs[k].startToken.value <= |tokens|
              && var w := WindowAt(tk, tokens, cs[k].startToken.value, maxTokens);
                 cs[k].chunkText == Strip(w.text) && cs[k].chunkTokens == w.tokenCount
                 && cs[k].endToken == Some(w.end)
    {
      assert cs[k] == SplitRecord(meta, cuts[k], k, |tokens|);
    }
  }

  /** Chunk ids are pairwise distinct. */
  lemma SplitIdsUnique(tk: Tokenizer, text: string, meta: Metadata, maxTokens: int, overlap: int)
    requires SplitTerminates(tk, text, maxTokens, overlap)
    ensures var cs := Split(tk, text, meta, maxTokens, overlap);
      forall m, n :: 0 <= m < n < |cs| ==> cs[m].chunkId != cs[n].chunkId
  {
    var cs := Split(tk, text, meta, maxTokens, overlap);
    forall m, n | 0 <= m < n < |cs|
      ensures cs[m].chunkId != cs[n].chunkId
    {
      var p := meta.source + "_";
      assert cs[m].chunkId == p + Decimal(m) && cs[n].chunkId == p + Decimal(n);
      if cs[m].chunkId == cs[n].chunkId {
        assert (p + Decimal(m))[|p|..] == Decimal(m);
        assert (p + Decimal(n))[|p|..] == Decimal(n);
        DecimalInjective(m, n);
      }
    }
  }

  /** Record `c` covers token offset `t` when `start_token <= t < end_token`. */
  predicate Covers(c: ChunkRecord, t: int) {
    c.startToken.Some? && c.endToken.Some? && c.startToken.value <= t < c.endToken.value
  }

  predicate Covered(cs: seq<ChunkRecord>, t: int) {
    exists k :: 0 <= k < |cs| && Covers(cs[k], t)
  }

  /** With a non-negative overlap the records of the split path leave no gap:
      every token offset of the text lies in the range of some record. */
  lemma SplitCoversTokens(tk: Tokenizer, text: string, meta: Metadata, maxTokens: int, overlap: int)
    requires SplitPath(tk, text, maxTokens, overlap) && overlap >= 0
    ensures forall t :: 0 <= t < |tk.encode(text)| ==> Covered(Split(tk, text, meta, maxTokens, overlap), t)
  {
    var tokens := tk.encode(text);
    var cuts := CutsFrom(tk, tokens, maxTokens, overlap, 0);
    var cs := Split(tk, text, meta, maxTokens, overlap);
    CutsCoverTokens(tk, tokens, maxTokens, overlap, 0);
    forall t | 0 <= t < |tokens|
      ensures Covered(cs, t)
    {
      assert CutsCover(cuts, t);
      var k :| 0 <= k < |cuts| && CutCovers(cuts[k], t);
      assert Covers(cs[k], t);
    }
  }

  /** With a tokenizer for which re-encoding a prefix of decoded text never
      gives more tokens, every window holds at most `max_tokens` tokens and
      ends at most `max_tokens` after its start. */
  lemma WindowWithinBudget(tk: Tokenizer, tokens: seq<int>, i: nat, maxTokens: int)
    requires i <= |tokens| && maxTokens >= 0 && PrefixReencodesShorter(tk)
    ensures var w := WindowAt(tk, tokens, i, maxTokens);
      w.tokenCount <= maxTokens && w.end <= i + maxTokens
  {
    var w := WindowAt(tk, tokens, i, maxTokens);
    var slice := Slice(tokens, i, i + maxTokens);
    WindowShape(tk, tokens, i, maxTokens);
    if w.snapped {
      assert w.text == tk.decode(slice)[..|w.text|];
      assert |tk.encode(tk.decode(slice)[..|w.text|])| <= |slice|;
    }
  }

  /** Under the same tokenizer assumption every record has
      `chunk_tokens <= max_tokens`, on both paths. */
  lemma SplitWithinBudget(tk: Tokenizer, text: string, meta: Metadata, maxTokens: int, overlap: int)
    requires SplitTerminates(tk, text, maxTokens, overlap)
    requires maxTokens >= 0 && PrefixReencodesShorter(tk)
    ensures var cs := Split(tk, text, meta, maxTokens, overlap);
      forall k :: 0 <= k < |cs| ==> cs[k].chunkTokens <= maxTokens
  {
    var cs := Split(tk, text, meta, maxTokens, overlap);
    if SplitPath(tk, text, maxTokens, overlap) {
      SplitRecordsAreWindows(tk, text, meta, maxTokens, overlap);
      forall k | 0 <= k < |cs|
        ensures cs[k].chunkTokens <= maxTokens
      {
        WindowWithinBudget(tk, tk.encode(text), cs[k].startToken.value, maxTokens);
      }
    }
  }

  /** The stripped text of a snapped window ends with the sentence's terminal
      character. */
  lemma SnappedTextEndsWithTerminal(tk: Tokenizer, tokens: seq<int>, i: nat, maxTokens: int)
    requires i <= |tokens|
    requires WindowAt(tk, tokens, i, maxTokens).snapped
    ensures var t := Strip(WindowAt(tk, tokens, i, maxTokens).text);
      t != [] && t[|t| - 1] in ".?!"
  {
    var w := WindowAt(tk, tokens, i, maxTokens);
    WindowShape(tk, tokens, i, maxTokens);
    var c := w.text[|w.text| - 1];
    assert !IsSpace(c);
    assert StripLeft(w.text) != [] && StripLeft(w.text)[|StripLeft(w.text)| - 1] == c;
    assert StripRight(StripLeft(w.text)) == StripLeft(w.text);
  }

  // ---------------------------------------------------------------------------
  // The two short paths and a worked case

  /** Whitespace-only text gives no records. */
  lemma SplitBlank(tk: Tokenizer, text: string, meta: Metadata, maxTokens: int, overlap: int)
    requires IsBlank(text)
    ensures Split(tk, text, meta, maxTokens, overlap) == []
  {
  }

  /** A text whose tokens fit gives exactly one record: id `source_0`, full
      text, `chunk_tokens == total_tokens == len(tokens)`, no offsets. */
  lemma SplitFitsWhole(tk: Tokenizer, text: string, meta: Metadata, maxTokens: int, overlap: int)
    requires !IsBlank(text) && |tk.encode(text)| <= maxTokens
    ensures var cs := Split(tk, text, meta, maxTokens, overlap);
      && |cs| == 1 && cs[0].chunkId == meta.source + "_0" && cs[0].isFullText
      && cs[0].chunkTokens == cs[0].totalTokens == |tk.encode(text)|
      && cs[0].startToken.None? && cs[0].endToken.None?
      && cs[0].chunkText == Strip(text)
  {
  }

  /** When no window of the text snaps and `0 <= overlap < max_tokens`, every
      pass moves the start forward, so the loop terminates from any start. */
  lemma {:induction false} NoSnapProgress(tk: Tokenizer, tokens: seq<int>, maxTokens: int, overlap: int, i: nat)
    requires 0 <= overlap < maxTokens
    requires forall j: nat :: j < |tokens| ==> !WindowAt(tk, tokens, j, maxTokens).snapped
    ensures ProgressFrom(tk, tokens, maxTokens, overlap, i)
    decreases |tokens| - i
  {
    if i < |tokens| {
      var next := WindowAt(tk, tokens, i, maxTokens).end - overlap;
      if next < |tokens| {
        NoSnapProgress(tk, tokens, maxTokens, overlap, next);
      }
    }
  }

  /** 3000 tokens, no sentence boundary anywhere, the default 1500/200: three
      records, at offsets 0-1500, 1300-2800 and 2600-4100, the last holding the
      400 remaining tokens. */
  lemma ThreeThousandTokens(tk: Tokenizer, text: string, meta: Metadata)
    requires !IsBlank(text) && |tk.encode(text)| == 3000
    requires forall i: nat :: i < 3000 ==> !WindowAt(tk, tk.encode(text), i, MaxTokensPerChunk).snapped
    ensures ProgressFrom(tk, tk.encode(text), MaxTokensPerChunk, OverlapTokens, 0)
    ensures var cs := Split(tk, text, meta, MaxTokensPerChunk, OverlapTokens);
      && |cs| == 3
      && cs[0].startToken == Some(0) && cs[0].endToken == Some(1500) && cs[0].chunkTokens == 1500
      && cs[1].startToken == Some(1300) && cs[1].endToken == Some(2800) && cs[1].chunkTokens == 1500
      && cs[2].startToken == Some(2600) && cs[2].endToken == Some(4100) && cs[2].chunkTokens == 400
  {
    var tokens := tk.encode(text);
    NoSnapProgress(tk, tokens, MaxTokensPerChunk, OverlapTokens, 0);
    var w0 := WindowAt(tk, tokens, 0, 1500);
    var w1 := WindowAt(tk, tokens, 1300, 1500);
    var w2 := WindowAt(tk, tokens, 2600, 1500);
    WindowShape(tk, tokens, 0, 1500);
    WindowShape(tk, tokens, 1300, 1500);
    WindowShape(tk, tokens, 2600, 1500);
    var c2 := CutsFrom(tk, tokens, 1500, 200, 2600);
    assert c2 == [Cut(2600, w2)];
    var c1 := CutsFrom(tk, tokens, 1500, 200, 1300);
    assert c1 == [Cut(1300, w1)] + c2;
    var c0 := CutsFrom(tk, tokens, 1500, 200, 0);
    assert c0 == [Cut(0, w0)] + c1;
  }
}
