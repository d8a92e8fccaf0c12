/**
 The chunkers of src/vector-db/services/text-processing/text-chunker.service.ts: by sentences with an overlap
 of sentences, and by fixed size with an overlap of characters.  Splitting text into sentences is not modelled;
 the sentence chunker starts from the list of sentences.
 */
module TextChunker {
  import opened Common

  const CHARS_PER_TOKEN := 4

  /** content is text[startOffset..endOffset] of the text that was chunked (see the methods below). */
  datatype Chunk = Chunk(content: string, chunkIndex: nat, totalChunks: nat, tokenCount: nat,
                         startOffset: int, endOffset: int)

  function EstimateTokens(text: string): nat {
    (|text| + CHARS_PER_TOKEN - 1) / CHARS_PER_TOKEN
  }

  /** The estimate is a token for every four characters, rounded up. */
  lemma EstimateIsCeiling(text: string)
    ensures 4 * (EstimateTokens(text) - 1) < |text| <= 4 * EstimateTokens(text)
  {
  }

  function SingleChunk(content: string, chunkIndex: nat, startOffset: int, totalChunks: nat): Chunk {
    Chunk(content, chunkIndex, totalChunks, EstimateTokens(content), startOffset, startOffset + |content|)
  }

  /** The last loop of both chunkers: every chunk learns how many there are. */
  method SetTotals(chunks: seq<Chunk>) returns (r: seq<Chunk>)
    ensures |r| == |chunks|
    ensures forall i :: 0 <= i < |r| ==> r[i] == chunks[i].(totalChunks := |chunks|)
  {
    r := chunks;
    for i := 0 to |chunks|
      invariant |r| == |chunks|
      invariant forall k :: 0 <= k < i ==> r[k] == chunks[k].(totalChunks := |chunks|)
      invariant forall k :: i <= k < |r| ==> r[k] == chunks[k]
    {
      r := r[i := r[i].(totalChunks := |chunks|)];
    }
  }

  // ----- Putting chunks back together

  predicate SliceOf(c: Chunk, text: string) {
    0 <= c.startOffset <= c.endOffset <= |text| && c.content == text[c.startOffset..c.endOffset]
  }

  ghost predicate SlicesOf(chunks: seq<Chunk>, text: string) {
    forall i :: 0 <= i < |chunks| ==> SliceOf(chunks[i], text)
  }

  predicate Continues(p: Chunk, c: Chunk) {
    c.startOffset <= p.endOffset <= c.endOffset
  }

  /** Each chunk starts within or right after the one before and does not end before it. */
  ghost predicate Overlapping(chunks: seq<Chunk>) {
    forall i {:trigger Continues(chunks[i - 1], chunks[i])} :: 0 < i < |chunks| ==> Continues(chunks[i - 1], chunks[i])
  }

  /** The chunks with what they repeat of their predecessor dropped. */
  function Rebuild(chunks: seq<Chunk>): string {
    if chunks == [] then ""
    else if |chunks| == 1 then chunks[0].content
    else
      var last := chunks[|chunks| - 1];
      var repeated := chunks[|chunks| - 2].endOffset - last.startOffset;
      Rebuild(chunks[..|chunks| - 1]) + (if 0 <= repeated <= |last.content| then last.content[repeated..] else "")
  }

  lemma {:induction false} RebuildGivesText(chunks: seq<Chunk>, text: string)
    requires chunks != [] && SlicesOf(chunks, text) && Overlapping(chunks) && chunks[0].startOffset == 0
    ensures Rebuild(chunks) == text[..chunks[|chunks| - 1].endOffset]
    decreases |chunks|
  {
    var n := |chunks| - 1;
    var last := chunks[n];
    if n > 0 {
      InitialChunks(chunks, text);
      RebuildGivesText(chunks[..n], text);
      var p := chunks[n - 1];
      assert Continues(p, last);
      SliceContinues(text, last.startOffset, p.endOffset, last.endOffset);
      assert Rebuild(chunks) == Rebuild(chunks[..n]) + last.content[p.endOffset - last.startOffset..];
    }
  }

  lemma InitialChunks(chunks: seq<Chunk>, text: string)
    requires |chunks| > 1 && SlicesOf(chunks, text) && Overlapping(chunks)
    ensures var init := chunks[..|chunks| - 1]; SlicesOf(init, text) && Overlapping(init)
  {
    var init := chunks[..|chunks| - 1];
    forall i | 0 < i < |init| ensures Continues(init[i - 1], init[i]) {
      assert Continues(chunks[i - 1], chunks[i]);
    }
  }

  lemma SliceContinues(text: string, a: nat, b: nat, e: nat)
    requires a <= b <= e <= |text|
    ensures text[..b] + text[a..e][b - a..] == text[..e]
  {
    assert text[a..e][b - a..] == text[b..e];
  }

  // ----- Joined sentences

  function Join(ss: seq<string>): string {
    if ss == [] then ""
    else if |ss| == 1 then ss[0]
    else ss[0] + " " + Join(ss[1..])
  }

  lemma {:induction false} JoinConcat(a: seq<string>, b: seq<string>)
    requires a != [] && b != []
    ensures Join(a + b) == Join(a) + " " + Join(b)
    decreases |a|
  {
    if |a| == 1 {
      assert (a + b)[1..] == b;
    } else {
      assert (a + b)[1..] == a[1..] + b;
      JoinConcat(a[1..], b);
    }
  }

  /** Where sentence i starts in all sentences joined by single spaces. */
  function Offset(ss: seq<string>, i: nat): nat
    requires i <= |ss|
  {
    if i == 0 then 0 else |Join(ss[..i])| + 1
  }

  /** The end of a window of sentences in the joined text. */
  lemma WindowEnd(ss: seq<string>, i: nat, j: nat)
    requires i < j <= |ss|
    ensures Offset(ss, i) + |Join(ss[i..j])| == |Join(ss[..j])|
  {
    if i > 0 {
      assert ss[..j] == ss[..i] + ss[i..j];
      JoinConcat(ss[..i], ss[i..j]);
    } else {
      assert ss[..j] == ss[i..j];
    }
  }

  lemma WindowIsSlice(ss: seq<string>, i: nat, j: nat)
    requires i < j <= |ss|
    ensures |Join(ss[..j])| <= |Join(ss)|
    ensures Offset(ss, i) <= |Join(ss[..j])|
    ensures Join(ss)[Offset(ss, i)..|Join(ss[..j])|] == Join(ss[i..j])
  {
    WindowEnd(ss, i, j);
    var head := Join(ss[..j]);
    if j < |ss| {
      assert ss == ss[..j] + ss[j..];
      JoinConcat(ss[..j], ss[j..]);
    } else {
      assert ss[..j] == ss;
    }
    assert head <= Join(ss);
    if i > 0 {
      assert ss[..j] == ss[..i] + ss[i..j];
      JoinConcat(ss[..i], ss[i..j]);
      assert head == (Join(ss[..i]) + " ") + Join(ss[i..j]);
    } else {
      assert ss[..j] == ss[i..j];
    }
    assert head[Offset(ss, i)..] == Join(ss[i..j]);
    assert Join(ss)[..|head|] == head;
  }

  // ----- The overlap

  function Ceil(x: real): int {
    -((-x).Floor)
  }

  /** It is the least integer not below x. */
  lemma CeilIsLeast(x: real)
    ensures Ceil(x) as real - 1.0 < x <= Ceil(x) as real
  {
  }

  /** How many of n sentences `slice(-ceil(n * pct / 100))` keeps: slice(-0) is slice(0) and keeps them all. */
  function KeepCount(n: nat, pct: real): nat
    requires 0.0 <= pct
  {
    var k := Ceil(n as real * (pct / 100.0));
    if k == 0 || k >= n then n else if k < 0 then 0 else k
  }

  lemma ScaledBounds(n: nat, pct: real)
    requires n >= 1 && pct >= 0.0
    ensures pct > 0.0 ==> n as real * (pct / 100.0) > 0.0
    ensures pct <= 100.0 ==> n as real * (pct / 100.0) <= n as real
    ensures pct > 100.0 ==> n as real * (pct / 100.0) > n as real
    ensures pct == 0.0 ==> n as real * (pct / 100.0) == 0.0
  {
    var f, m := pct / 100.0, n as real;
    assert pct > 0.0 ==> f > 0.0;
    assert pct <= 100.0 ==> 1.0 - f >= 0.0;
    assert f >= 0.0 && m >= 1.0;
    if f > 0.0 {
      assert m * f > 0.0;
    }
    if f <= 1.0 {
      assert m * (1.0 - f) >= 0.0;
    } else {
      assert m * (f - 1.0) > 0.0;
    }
  }

  lemma KeepBounds(n: nat, pct: real)
    requires n >= 1 && pct >= 0.0
    ensures 1 <= KeepCount(n, pct) <= n
  {
    ScaledBounds(n, pct);
  }

  /** The overlap is the promised ceil(n * pct / 100) sentences exactly when the percentage is in (0, 100]:
      at 0 every sentence is kept, above 100 there are not enough of them. */
  lemma KeepsPromisedOverlapIff(n: nat, pct: real)
    requires n >= 1 && pct >= 0.0
    ensures KeepCount(n, pct) == Ceil(n as real * (pct / 100.0)) <==> 0.0 < pct <= 100.0
  {
    ScaledBounds(n, pct);
  }

  /** Everywhere else the whole previous chunk is kept. */
  lemma KeepsAllOtherwise(n: nat, pct: real)
    requires n >= 1 && (pct == 0.0 || pct > 100.0)
    ensures KeepCount(n, pct) == n
  {
    ScaledBounds(n, pct);
  }

  // ----- By sentences

  /** The sentences [start, end), of which [start, carried) were kept from the previous chunk. */
  datatype Window = Window(start: nat, carried: nat, end: nat)

  /** The next window starts with what is kept of the previous one. */
  predicate Follows(p: Window, w: Window, pct: real)
    requires 0.0 <= pct && p.start <= p.end
  {
    w.carried == p.end && w.start == p.end - KeepCount(p.end - p.start, pct)
  }

  ghost predicate Chained(ws: seq<Window>, n: nat, pct: real)
    requires 0.0 <= pct
  {
    && (forall i :: 0 <= i < |ws| ==> ws[i].start <= ws[i].carried < ws[i].end <= n)
    && (ws != [] ==> ws[0].start == ws[0].carried == 0)
    && (forall i {:trigger Follows(ws[i - 1], ws[i], pct)} :: 0 < i < |ws| ==> Follows(ws[i - 1], ws[i], pct))
  }

  /** The windows are chained and reach the last sentence. */
  ghost predicate Cover(ws: seq<Window>, n: nat, pct: real)
    requires 0.0 <= pct
  {
    Chained(ws, n, pct) && (ws == [] <==> n == 0) && (ws != [] ==> ws[|ws| - 1].end == n)
  }

  function SumTokens(ss: seq<string>): nat {
    if ss == [] then 0 else SumTokens(ss[..|ss| - 1]) + EstimateTokens(ss[|ss| - 1])
  }

  /** The running token count of a window filled up to end. */
  function Load(ss: seq<string>, start: nat, carried: nat, end: nat): nat
    requires start <= carried <= end <= |ss|
  {
    EstimateTokens(Join(ss[start..carried])) + SumTokens(ss[carried..end])
  }

  /** Sentence i still fits, or no longer fits, into the window once it reaches up to i. */
  predicate Fits(ss: seq<string>, start: nat, carried: nat, i: nat, maxTokens: int)
    requires start <= carried <= i < |ss|
  {
    Load(ss, start, carried, i) + EstimateTokens(ss[i]) <= maxTokens
  }

  /** Beyond the kept sentences and one more, a sentence is in the window only because it fitted ... */
  ghost predicate Filled(w: Window, ss: seq<string>, maxTokens: int)
    requires w.start <= w.carried < w.end <= |ss|
  {
    forall i :: w.carried < i < w.end ==> Fits(ss, w.start, w.carried, i, maxTokens)
  }

  /** ... and the window was closed because the next sentence did not. */
  predicate Full(w: Window, ss: seq<string>, maxTokens: int)
    requires w.start <= w.carried < w.end <= |ss|
  {
    w.end < |ss| && !Fits(ss, w.start, w.carried, w.end, maxTokens)
  }

  function WindowChunk(ss: seq<string>, w: Window, index: nat, total: nat): Chunk
    requires w.start <= w.end <= |ss|
  {
    SingleChunk(Join(ss[w.start..w.end]), index, Offset(ss, w.start), total)
  }

  lemma LoadStep(ss: seq<string>, start: nat, carried: nat, end: nat)
    requires start <= carried <= end < |ss|
    ensures Load(ss, start, carried, end + 1) == Load(ss, start, carried, end) + EstimateTokens(ss[end])
  {
    var more := ss[carried..end + 1];
    assert more[..|more| - 1] == ss[carried..end] && more[|more| - 1] == ss[end];
  }

  lemma LoadFresh(ss: seq<string>, start: nat, end: nat)
    requires start <= end <= |ss|
    ensures Load(ss, start, end, end) == EstimateTokens(Join(ss[start..end]))
  {
    assert ss[end..end] == [];
  }

  /** The chunker's variables, true to the sentences [start, end), of which [start, carried) were kept. */
  ghost predicate TrueTo(ss: seq<string>, start: nat, carried: nat, end: nat, current: seq<string>, tokens: int, offset: int)
    requires start <= carried <= end <= |ss|
  {
    current == ss[start..end] && tokens == Load(ss, start, carried, end) && offset == Offset(ss, start)
  }

  ghost predicate Holds(ss: seq<string>, start: int, carried: int, end: int,
                        current: seq<string>, tokens: int, offset: int)
  {
    0 <= start <= carried <= end <= |ss| && TrueTo(ss, start, carried, end, current, tokens, offset)
  }

  lemma WindowGrows(ss: seq<string>, start: nat, end: nat)
    requires start <= end < |ss|
    ensures ss[start..end + 1] == ss[start..end] + [ss[end]]
  {
  }

  lemma HoldsAdds(ss: seq<string>, start: nat, carried: nat, end: nat, current: seq<string>, tokens: int, offset: int)
    requires end < |ss| && Holds(ss, start, carried, end, current, tokens, offset)
    ensures Holds(ss, start, carried, end + 1, current + [ss[end]], tokens + EstimateTokens(ss[end]), offset)
  {
    LoadStep(ss, start, carried, end);
    WindowGrows(ss, start, end);
  }

  lemma TailOfWindow(ss: seq<string>, start: nat, end: nat, keep: nat)
    requires start <= end <= |ss| && keep <= end - start
    ensures ss[start..end][end - start - keep..] == ss[end - keep..end]
  {
  }

  /** Where the kept sentences start in the joined text. */
  lemma OverlapOffset(ss: seq<string>, start: nat, end: nat, keep: nat)
    requires start < end <= |ss| && 1 <= keep <= end - start
    ensures Offset(ss, start) + |Join(ss[start..end])| - |Join(ss[end - keep..end])| == Offset(ss, end - keep)
  {
    WindowEnd(ss, start, end);
    WindowEnd(ss, end - keep, end);
  }

  /** Keeps the last sentences, `currentChunk.slice(-overlapSentenceCount)`, and moves the start offset. */
  method KeepOverlap(ss: seq<string>, pct: real, current: seq<string>, startOffset: int, ghost start: int,
                     ghost carried: int, ghost end: int, ghost tokens: int)
    returns (kept: seq<string>, newTokens: int, newOffset: int)
    requires 0.0 <= pct && start < end && Holds(ss, start, carried, end, current, tokens, startOffset)
    ensures |kept| == KeepCount(end - start, pct)
    ensures Holds(ss, end - |kept|, end, end, kept, newTokens, newOffset)
  {
    assert |current| == end - start;
    KeepBounds(|current|, pct);
    var keep := KeepCount(|current|, pct);
    kept := current[|current| - keep..];
    newTokens := EstimateTokens(Join(kept));
    newOffset := startOffset + |Join(current)| - |Join(kept)|;
    TailOfWindow(ss, start, end, keep);
    OverlapOffset(ss, start, end, keep);
    LoadFresh(ss, end - keep, end);
  }

  /** A closed window: nothing more could be added, and everything in it was allowed to be. */
  ghost predicate Closed(w: Window, ss: seq<string>, maxTokens: int) {
    w.start <= w.carried < w.end <= |ss| && Filled(w, ss, maxTokens) && Full(w, ss, maxTokens)
  }

  /** The chunk of a window before the totals are known. */
  predicate Built(c: Chunk, ss: seq<string>, w: Window, index: nat) {
    w.start <= w.end <= |ss| && c == WindowChunk(ss, w, index, 0)
  }

  /** The chunker between two sentences: closed windows, then [start, end) with [start, carried) kept. */
  ghost predicate Loop(ws: seq<Window>, start: int, carried: int, end: int, ss: seq<string>, pct: real, maxTokens: int)
    requires 0.0 <= pct
  {
    && 0 <= start <= carried <= end <= |ss|
    && (end > 0 ==> carried < end)
    && Chained(ws, |ss|, pct)
    && (if ws == [] then start == carried == 0 else Follows(ws[|ws| - 1], Window(start, carried, end), pct))
    && (forall k {:trigger Closed(ws[k], ss, maxTokens)} :: 0 <= k < |ws| ==> Closed(ws[k], ss, maxTokens))
    && (forall e :: carried < e < end ==> Fits(ss, start, carried, e, maxTokens))
  }

  lemma ChainedExtends(ws: seq<Window>, w: Window, n: nat, pct: real)
    requires 0.0 <= pct && Chained(ws, n, pct) && w.start <= w.carried < w.end <= n
    requires if ws == [] then w.start == w.carried == 0 else Follows(ws[|ws| - 1], w, pct)
    ensures Chained(ws + [w], n, pct)
  {
    var all := ws + [w];
    forall i | 0 < i < |all| ensures Follows(all[i - 1], all[i], pct) {
      if i < |ws| {
        assert Follows(ws[i - 1], ws[i], pct);
      }
    }
  }

  /** Closing the window at a sentence that does not fit, and starting the next one with it. */
  lemma LoopCloses(ws: seq<Window>, start: nat, carried: nat, end: nat, ss: seq<string>, pct: real, maxTokens: int)
    requires 0.0 <= pct && Loop(ws, start, carried, end, ss, pct, maxTokens) && 0 < end < |ss|
    requires !Fits(ss, start, carried, end, maxTokens)
    ensures var keep := KeepCount(end - start, pct);
            1 <= keep <= end - start &&
            Loop(ws + [Window(start, carried, end)], end - keep, end, end + 1, ss, pct, maxTokens)
  {
    var w := Window(start, carried, end);
    KeepBounds(end - start, pct);
    ChainedExtends(ws, w, |ss|, pct);
    assert Closed(w, ss, maxTokens);
  }

  /** What a finished chunking promises of its windows. */
  ghost predicate Complete(ws: seq<Window>, ss: seq<string>, pct: real, maxTokens: int)
    requires 0.0 <= pct
  {
    && Cover(ws, |ss|, pct)
    && (forall i :: 0 <= i < |ws| ==> Filled(ws[i], ss, maxTokens))
    && (forall i :: 0 <= i < |ws| - 1 ==> Full(ws[i], ss, maxTokens))
  }

  lemma LoopEnds(ws: seq<Window>, start: nat, carried: nat, ss: seq<string>, pct: real, maxTokens: int)
    requires 0.0 <= pct && Loop(ws, start, carried, |ss|, ss, pct, maxTokens) && ss != []
    ensures Complete(ws + [Window(start, carried, |ss|)], ss, pct, maxTokens)
  {
    var last := Window(start, carried, |ss|);
    var all := ws + [last];
    ChainedExtends(ws, last, |ss|, pct);
    assert Filled(last, ss, maxTokens);
    forall i | 0 <= i < |ws| ensures Filled(all[i], ss, maxTokens) && Full(all[i], ss, maxTokens) {
      assert Closed(ws[i], ss, maxTokens);
    }
  }

  ghost predicate AllBuilt(chunks: seq<Chunk>, ss: seq<string>, ws: seq<Window>) {
    |chunks| == |ws| &&
    forall k {:trigger Built(chunks[k], ss, ws[k], k)} :: 0 <= k < |ws| ==> Built(chunks[k], ss, ws[k], k)
  }

  /** Closes the current window: its chunk gets the next index. */
  method AppendChunk(chunks: seq<Chunk>, current: seq<string>, startOffset: int,
                     ghost ss: seq<string>, ghost ws: seq<Window>, ghost w: Window)
    returns (more: seq<Chunk>, ghost moreWs: seq<Window>)
    requires AllBuilt(chunks, ss, ws) && w.start <= w.end <= |ss|
    requires current == ss[w.start..w.end] && startOffset == Offset(ss, w.start)
    ensures moreWs == ws + [w] && AllBuilt(more, ss, moreWs)
  {
    more := chunks + [SingleChunk(Join(current), |chunks|, startOffset, 0)];
    moreWs := ws + [w];
  }

  /** The test before each sentence: the running count against the limit, and a chunk to close. */
  lemma TestMeansFits(ss: seq<string>, start: int, carried: int, end: int, current: seq<string>, tokens: int, offset: int,
                      maxTokens: int)
    requires Holds(ss, start, carried, end, current, tokens, offset) && end < |ss| && (end > 0 ==> carried < end)
    ensures Fits(ss, start, carried, end, maxTokens) <==> tokens + EstimateTokens(ss[end]) <= maxTokens
    ensures |current| > 0 <==> end > 0
  {
  }

  lemma LoopAdds(ws: seq<Window>, start: nat, carried: nat, end: nat, ss: seq<string>, pct: real, maxTokens: int,
                 current: seq<string>, tokens: int, offset: int)
    requires 0.0 <= pct && Loop(ws, start, carried, end, ss, pct, maxTokens) && end < |ss|
    requires Holds(ss, start, carried, end, current, tokens, offset)
    requires tokens + EstimateTokens(ss[end]) <= maxTokens || current == []
    ensures Loop(ws, start, carried, end + 1, ss, pct, maxTokens)
  {
    TestMeansFits(ss, start, carried, end, current, tokens, offset, maxTokens);
    if ws != [] {
      assert Follows(ws[|ws| - 1], Window(start, carried, end), pct);
    }
  }

  /** Closes a chunk at sentence end and keeps its overlap for the next. */
  method CloseChunk(chunks: seq<Chunk>, current: seq<string>, startOffset: int, pct: real, ss: seq<string>,
                    ghost tokens: int, ghost ws: seq<Window>, ghost start: int, ghost carried: int, ghost end: int,
                    ghost maxTokens: int)
    returns (more: seq<Chunk>, kept: seq<string>, newTokens: int, newOffset: int, ghost moreWs: seq<Window>)
    requires 0.0 <= pct && 0 < end < |ss| && Loop(ws, start, carried, end, ss, pct, maxTokens)
    requires Holds(ss, start, carried, end, current, tokens, startOffset) && AllBuilt(chunks, ss, ws)
    requires tokens + EstimateTokens(ss[end]) > maxTokens
    ensures Loop(moreWs, end - |kept|, end, end + 1, ss, pct, maxTokens) && moreWs != []
    ensures Holds(ss, end - |kept|, end, end, kept, newTokens, newOffset) && AllBuilt(more, ss, moreWs)
  {
    TestMeansFits(ss, start, carried, end, current, tokens, startOffset, maxTokens);
    LoopCloses(ws, start, carried, end, ss, pct, maxTokens);
    more, moreWs := AppendChunk(chunks, current, startOffset, ss, ws, Window(start, carried, end));
    kept, newTokens, newOffset := KeepOverlap(ss, pct, current, startOffset, start, carried, end, tokens);
  }

  ghost predicate InStep(ws: seq<Window>, start: int, carried: int, end: int, ss: seq<string>, pct: real, maxTokens: int,
                         current: seq<string>, tokens: int, offset: int, chunks: seq<Chunk>)
    requires 0.0 <= pct
  {
    && Loop(ws, start, carried, end, ss, pct, maxTokens)
    && Holds(ss, start, carried, end, current, tokens, offset)
    && AllBuilt(chunks, ss, ws)
  }

  /** Closes the current chunk if sentence i does not fit into it any more. */
  method MakeRoom(chunks: seq<Chunk>, current: seq<string>, tokens: int, offset: int, ss: seq<string>, pct: real,
                  maxTokens: int, i: nat, ghost ws: seq<Window>, ghost start: int, ghost carried: int)
    returns (chunks': seq<Chunk>, current': seq<string>, tokens': int, offset': int,
             ghost ws': seq<Window>, ghost start': int, ghost carried': int)
    requires 0.0 <= pct && i < |ss|
    requires InStep(ws, start, carried, i, ss, pct, maxTokens, current, tokens, offset, chunks)
    ensures Loop(ws', start', carried', i + 1, ss, pct, maxTokens)
    ensures Holds(ss, start', carried', i, current', tokens', offset') && AllBuilt(chunks', ss, ws')
  {
    if tokens + EstimateTokens(ss[i]) > maxTokens && |current| > 0 {
      chunks', current', tokens', offset', ws' :=
        CloseChunk(chunks, current, offset, pct, ss, tokens, ws, start, carried, i, maxTokens);
      start', carried' := i - |current'|, i;
    } else {
      LoopAdds(ws, start, carried, i, ss, pct, maxTokens, current, tokens, offset);
      chunks', current', tokens', offset', ws', start', carried' := chunks, current, tokens, offset, ws, start, carried;
    }
  }

  /** One round of the loop: makes room for the next sentence, then adds it. */
  method TakeSentence(chunks: seq<Chunk>, current: seq<string>, tokens: int, offset: int, ss: seq<string>, pct: real,
                      maxTokens: int, i: nat, ghost ws: seq<Window>, ghost start: int, ghost carried: int)
    returns (chunks': seq<Chunk>, current': seq<string>, tokens': int, offset': int,
             ghost ws': seq<Window>, ghost start': int, ghost carried': int)
    requires 0.0 <= pct && i < |ss|
    requires InStep(ws, start, carried, i, ss, pct, maxTokens, current, tokens, offset, chunks)
    ensures InStep(ws', start', carried', i + 1, ss, pct, maxTokens, current', tokens', offset', chunks')
  {
    chunks', current', tokens', offset', ws', start', carried' :=
      MakeRoom(chunks, current, tokens, offset, ss, pct, maxTokens, i, ws, start, carried);
    HoldsAdds(ss, start', carried', i, current', tokens', offset');
    current' := current' + [ss[i]];
    tokens' := tokens' + EstimateTokens(ss[i]);
  }

  /** After the loop: the last chunk, and the totals. */
  method Finish(built: seq<Chunk>, current: seq<string>, offset: int, ghost ss: seq<string>, ghost pct: real,
                ghost maxTokens: int, ghost ws: seq<Window>, ghost start: int, ghost carried: int, ghost tokens: int)
    returns (chunks: seq<Chunk>, ghost ws': seq<Window>)
    requires 0.0 <= pct && (ss == [] ==> ws == [])
    requires InStep(ws, start, carried, |ss|, ss, pct, maxTokens, current, tokens, offset, built)
    ensures Complete(ws', ss, pct, maxTokens)
    ensures WindowChunks(chunks, ss, ws')
    ensures SlicesOf(chunks, Join(ss)) && Rebuild(chunks) == Join(ss)
  {
    chunks, ws' := built, ws;
    if |current| > 0 {
      LoopEnds(ws, start, carried, ss, pct, maxTokens);
      chunks, ws' := AppendChunk(chunks, current, offset, ss, ws, Window(start, carried, |ss|));
    }
    ghost var all := chunks;
    chunks := SetTotals(chunks);
    BuiltTotals(all, chunks, ss, ws', pct);
  }

  method ChunkBySentences(ss: seq<string>, pct: real, maxTokens: int) returns (chunks: seq<Chunk>, ghost ws: seq<Window>)
    requires 0.0 <= pct
    ensures Complete(ws, ss, pct, maxTokens)
    ensures WindowChunks(chunks, ss, ws)
    ensures SlicesOf(chunks, Join(ss)) && Rebuild(chunks) == Join(ss)
  {
    chunks, ws := [], [];
    var currentChunk: seq<string>, currentTokens, startOffset := [], 0, 0;
    ghost var start, carried := 0, 0;
    LoadFresh(ss, 0, 0);
    for i := 0 to |ss|
      invariant i == 0 ==> ws == []
      invariant InStep(ws, start, carried, i, ss, pct, maxTokens, currentChunk, currentTokens, startOffset, chunks)
    {
      chunks, currentChunk, currentTokens, startOffset, ws, start, carried :=
        TakeSentence(chunks, currentChunk, currentTokens, startOffset, ss, pct, maxTokens, i, ws, start, carried);
    }
    chunks, ws := Finish(chunks, currentChunk, startOffset, ss, pct, maxTokens, ws, start, carried, currentTokens);
  }

  /** A window's chunk is the slice of the joined sentences that its offsets say. */
  lemma WindowChunkIsSlice(ss: seq<string>, w: Window, index: nat, total: nat)
    requires w.start < w.end <= |ss|
    ensures var c := WindowChunk(ss, w, index, total);
            && 0 <= c.startOffset <= c.endOffset <= |Join(ss)|
            && c.content == Join(ss)[c.startOffset..c.endOffset]
            && c.endOffset == |Join(ss[..w.end])|
  {
    WindowEnd(ss, w.start, w.end);
    WindowIsSlice(ss, w.start, w.end);
  }

  lemma NextWindowOverlaps(ss: seq<string>, p: Window, w: Window)
    requires w.start < p.end < w.end <= |ss|
    ensures Offset(ss, w.start) <= |Join(ss[..p.end])| <= |Join(ss[..w.end])|
  {
    WindowEnd(ss, w.start, p.end);
    WindowEnd(ss, p.end, w.end);
  }

  lemma FollowsOverlaps(ws: seq<Window>, i: nat, n: nat, pct: real)
    requires 0.0 <= pct && Chained(ws, n, pct) && 0 < i < |ws|
    ensures ws[i].start < ws[i - 1].end == ws[i].carried
  {
    assert Follows(ws[i - 1], ws[i], pct);
    KeepBounds(ws[i - 1].end - ws[i - 1].start, pct);
  }

  ghost predicate WindowChunks(chunks: seq<Chunk>, ss: seq<string>, ws: seq<Window>) {
    |chunks| == |ws| &&
    forall i :: 0 <= i < |ws| ==>
      ws[i].start < ws[i].end <= |ss| && chunks[i] == WindowChunk(ss, ws[i], i, |chunks|)
  }

  lemma WindowsAreSlices(chunks: seq<Chunk>, ss: seq<string>, ws: seq<Window>)
    requires WindowChunks(chunks, ss, ws)
    ensures SlicesOf(chunks, Join(ss))
    ensures forall i :: 0 <= i < |chunks| ==> chunks[i].endOffset == |Join(ss[..ws[i].end])|
  {
    forall i | 0 <= i < |chunks|
      ensures SliceOf(chunks[i], Join(ss)) && chunks[i].endOffset == |Join(ss[..ws[i].end])|
    {
      WindowChunkIsSlice(ss, ws[i], i, |chunks|);
    }
  }

  lemma WindowsOverlap(chunks: seq<Chunk>, ss: seq<string>, ws: seq<Window>, pct: real)
    requires 0.0 <= pct && Chained(ws, |ss|, pct) && WindowChunks(chunks, ss, ws)
    ensures Overlapping(chunks)
  {
    WindowsAreSlices(chunks, ss, ws);
    forall i | 0 < i < |chunks| ensures Continues(chunks[i - 1], chunks[i]) {
      FollowsOverlaps(ws, i, |ss|, pct);
      NextWindowOverlaps(ss, ws[i - 1], ws[i]);
    }
  }

  /** What the windows of a finished chunking hold, in tokens: the kept sentences joined, and every further one by itself,
      are within the limit, unless the window has only one sentence beyond the kept ones; and with the sentence that the
      next window starts with they would exceed it. */
  lemma WindowsAreFull(ws: seq<Window>, ss: seq<string>, pct: real, maxTokens: int, i: nat)
    requires 0.0 <= pct && Complete(ws, ss, pct, maxTokens) && i < |ws|
    ensures var w := ws[i];
            && w.start <= w.carried < w.end <= |ss|
            && (w.end > w.carried + 1 ==>
                  EstimateTokens(Join(ss[w.start..w.carried])) + SumTokens(ss[w.carried..w.end]) <= maxTokens)
            && (i < |ws| - 1 ==>
                  EstimateTokens(Join(ss[w.start..w.carried])) + SumTokens(ss[w.carried..w.end]) +
                  EstimateTokens(ss[w.end]) > maxTokens)
  {
    var w := ws[i];
    if w.end > w.carried + 1 {
      assert Fits(ss, w.start, w.carried, w.end - 1, maxTokens);
      LoadStep(ss, w.start, w.carried, w.end - 1);
    }
    if i < |ws| - 1 {
      assert Full(ws[i], ss, maxTokens);
    }
  }

  /** Of the chunks of a text, every two in a row share exactly ceil(n * pct / 100) of the n sentences of the first,
      and their ends increase strictly, for every percentage in (0, 100]. */
  lemma SharedSentences(ws: seq<Window>, n: nat, pct: real, i: nat)
    requires 0.0 < pct <= 100.0 && Cover(ws, n, pct) && 0 < i < |ws|
    ensures ws[i - 1].end - ws[i].start == Ceil((ws[i - 1].end - ws[i - 1].start) as real * (pct / 100.0)) >= 1
    ensures ws[i - 1].start <= ws[i].start < ws[i - 1].end < ws[i].end
  {
    var n, keep := ws[i - 1].end - ws[i - 1].start, ws[i - 1].end - ws[i].start;
    assert Follows(ws[i - 1], ws[i], pct);
    assert keep == KeepCount(n, pct);
    PromisedOverlap(n, pct);
  }

  lemma PromisedOverlap(n: nat, pct: real)
    requires n >= 1 && 0.0 < pct <= 100.0
    ensures 1 <= KeepCount(n, pct) == Ceil(n as real * (pct / 100.0)) <= n
  {
    KeepBounds(n, pct);
    KeepsPromisedOverlapIff(n, pct);
  }

  /** Chunks of covering windows are slices of the joined sentences and rebuild them. */
  lemma WindowsRebuild(ss: seq<string>, ws: seq<Window>, chunks: seq<Chunk>, pct: real)
    requires 0.0 <= pct && Cover(ws, |ss|, pct) && WindowChunks(chunks, ss, ws)
    ensures SlicesOf(chunks, Join(ss))
    ensures Rebuild(chunks) == Join(ss)
  {
    WindowsAreSlices(chunks, ss, ws);
    if chunks != [] {
      WindowsOverlap(chunks, ss, ws, pct);
      assert ss[..|ss|] == ss;
      RebuildGivesText(chunks, Join(ss));
    }
  }

  lemma BuiltTotals(built: seq<Chunk>, chunks: seq<Chunk>, ss: seq<string>, ws: seq<Window>, pct: real)
    requires 0.0 <= pct && Cover(ws, |ss|, pct) && AllBuilt(built, ss, ws) && |chunks| == |built|
    requires forall i :: 0 <= i < |chunks| ==> chunks[i] == built[i].(totalChunks := |built|)
    ensures WindowChunks(chunks, ss, ws)
    ensures SlicesOf(chunks, Join(ss))
    ensures Rebuild(chunks) == Join(ss)
  {
    forall i | 0 <= i < |ws|
      ensures ws[i].start < ws[i].end <= |ss| && chunks[i] == WindowChunk(ss, ws[i], i, |chunks|)
    {
      assert Built(built[i], ss, ws[i], i);
    }
    WindowsRebuild(ss, ws, chunks, pct);
  }

  // ----- By fixed size

  /** The position after n rounds of the loop. */
  function PositionAfter(size: nat, overlap: nat, n: nat): int {
    if n == 0 then 0 else PositionAfter(size, overlap, n - 1) + size - overlap
  }

  /** Does the loop on a text of this length run n rounds?  Every round but the first needs that the one before did not
      break, and all need that the position is within the text. */
  predicate RunsRounds(length: nat, size: nat, overlap: nat, n: nat) {
    n == 0 ||
    (RunsRounds(length, size, overlap, n - 1) &&
     (n > 1 ==> PositionAfter(size, overlap, n - 1) < length - overlap) &&
     PositionAfter(size, overlap, n - 1) < length)
  }

  lemma {:induction false} PositionIsMultiple(size: nat, overlap: nat, n: nat)
    ensures PositionAfter(size, overlap, n) == n * (size - overlap)
    decreases n
  {
    if n > 0 {
      PositionIsMultiple(size, overlap, n - 1);
      NextStep(n - 1, size - overlap);
    }
  }

  lemma {:induction false} PositionAdvances(size: nat, overlap: nat, n: nat)
    requires size > overlap
    ensures PositionAfter(size, overlap, n) >= n
    decreases n
  {
    if n > 0 {
      PositionAdvances(size, overlap, n - 1);
    }
  }

  lemma {:induction false} PositionStays(size: nat, overlap: nat, n: nat)
    requires size <= overlap && n > 0
    ensures PositionAfter(size, overlap, n) <= size - overlap
    decreases n
  {
    if n > 1 {
      PositionStays(size, overlap, n - 1);
    }
  }

  lemma {:induction false} RunsForever(length: nat, size: nat, overlap: nat, n: nat)
    requires size <= overlap && size < length
    ensures RunsRounds(length, size, overlap, n)
    decreases n
  {
    if n > 0 {
      RunsForever(length, size, overlap, n - 1);
      if n > 1 {
        PositionStays(size, overlap, n - 1);
      }
    }
  }

  /** The loop runs n rounds and no more. */
  predicate StopsAfter(length: nat, size: nat, overlap: nat, n: nat) {
    RunsRounds(length, size, overlap, n) && !RunsRounds(length, size, overlap, n + 1)
  }

  /** If some number of rounds is not reached, the loop stops before it. */
  lemma {:induction false} StopsBefore(length: nat, size: nat, overlap: nat, n: nat) returns (m: nat)
    requires !RunsRounds(length, size, overlap, n)
    ensures StopsAfter(length, size, overlap, m)
    decreases n
  {
    if RunsRounds(length, size, overlap, n - 1) {
      m := n - 1;
    } else {
      m := StopsBefore(length, size, overlap, n - 1);
    }
  }

  /** The loop stops exactly when chunks are larger than their overlap or the text fits in one: the guard that the
      source comments as preventing an infinite loop does not prevent it otherwise. */
  lemma FixedSizeTerminatesIff(length: nat, size: nat, overlap: nat)
    ensures (exists n :: StopsAfter(length, size, overlap, n)) <==> size > overlap || length <= size
  {
    if size > overlap {
      PositionAdvances(size, overlap, length);
      var m := StopsBefore(length, size, overlap, length + 1);
    } else if length <= size {
      assert PositionAfter(size, overlap, 0) == 0;
      assert PositionAfter(size, overlap, 1) == size - overlap;
      var m := StopsBefore(length, size, overlap, 2);
    } else {
      forall n: nat ensures !StopsAfter(length, size, overlap, n) {
        RunsForever(length, size, overlap, n + 1);
      }
    }
  }

  lemma {:induction false} RunsUpTo(length: nat, size: nat, overlap: nat, n: nat)
    requires length > 0
    requires n > 1 ==> size > overlap && (n - 1) * (size - overlap) < length - overlap
    ensures RunsRounds(length, size, overlap, n)
    decreases n
  {
    if n > 0 {
      PositionIsMultiple(size, overlap, n - 1);
      if n > 1 {
        NextStep(n - 2, size - overlap);
      }
      RunsUpTo(length, size, overlap, n - 1);
    }
  }

  /** The exit condition of the loop, after n rounds. */
  lemma RoundsReached(length: nat, size: nat, overlap: nat, n: nat)
    requires size > overlap || n <= 1
    requires n == 0 <==> length == 0
    requires n > 0 ==> n * (size - overlap) >= length - overlap
    requires n > 1 ==> (n - 1) * (size - overlap) < length - overlap
    ensures StopsAfter(length, size, overlap, n)
  {
    PositionIsMultiple(size, overlap, n);
    if length > 0 {
      RunsUpTo(length, size, overlap, n);
    }
  }

  /** ceil((length - overlap) / (size - overlap)) chunks, at least one. */
  function FixedCount(length: nat, size: nat, overlap: nat): nat
    requires size > overlap || length <= size
  {
    if length == 0 then 0
    else if length <= size then 1
    else (length - overlap + (size - overlap) - 1) / (size - overlap)
  }

  lemma CeilUnique(a: int, step: int, n: int)
    requires step > 0 && (n - 1) * step < a <= n * step
    ensures (a + step - 1) / step == n
  {
    assert (n - 1) * step == n * step - step;
    DivMod(a + step - 1, step, n, a + step - 1 - n * step);
  }

  /** The precondition is exactly that the loop stops on this text (see FixedSizeTerminatesIff). */
  method ChunkByFixedSize(content: string, maxTokens: nat, overlapTokens: nat) returns (chunks: seq<Chunk>)
    requires maxTokens > overlapTokens || |content| <= maxTokens * CHARS_PER_TOKEN
    ensures FixedChunks(chunks, content, maxTokens * CHARS_PER_TOKEN, overlapTokens * CHARS_PER_TOKEN)
    ensures |chunks| == FixedCount(|content|, maxTokens * CHARS_PER_TOKEN, overlapTokens * CHARS_PER_TOKEN)
    ensures StopsAfter(|content|, maxTokens * CHARS_PER_TOKEN, overlapTokens * CHARS_PER_TOKEN, |chunks|)
    ensures SlicesOf(chunks, content)
    ensures Rebuild(chunks) == content
  {
    var chunkSize := maxTokens * CHARS_PER_TOKEN;
    var overlapSize := overlapTokens * CHARS_PER_TOKEN;
    ghost var step := chunkSize - overlapSize;
    chunks := [];
    var position := 0;
    while position < |content|
      invariant 0 <= position == |chunks| * step
      invariant chunks == [] ==> position == 0
      invariant chunks != [] ==> position < |content| - overlapSize && step > 0
      invariant forall i :: 0 <= i < |chunks| ==> LoopChunk(chunks[i], i, content, chunkSize, step)
      decreases |content| - position
    {
      var end := Min(position + chunkSize, |content|);
      chunks := chunks + [SingleChunk(content[position..end], |chunks|, position, 0)];
      assert |chunks| * step == (|chunks| - 1) * step + step;
      position := position + chunkSize - overlapSize;
      if position >= |content| - overlapSize {
        break;
      }
    }
    FixedCountReached(|content|, chunkSize, overlapSize, |chunks|);
    RoundsReached(|content|, chunkSize, overlapSize, |chunks|);
    ghost var built := chunks;
    chunks := SetTotals(chunks);
    FixedChunksHold(built, chunks, content, chunkSize, overlapSize);
    FixedRebuild(chunks, content, chunkSize, overlapSize);
  }

  lemma FixedRebuild(chunks: seq<Chunk>, content: string, size: nat, overlap: nat)
    requires FixedChunks(chunks, content, size, overlap) && SlicesOf(chunks, content) && Overlapping(chunks)
    ensures Rebuild(chunks) == content
  {
    if chunks != [] {
      var n := |chunks|;
      assert FixedAt(chunks[0], 0, n, content, size, overlap) && FixedAt(chunks[n - 1], n - 1, n, content, size, overlap);
      RebuildGivesText(chunks, content);
    }
  }

  /** What fixed-size chunks are: all but the last have the full size, the last ends with the text, each starts
      exactly overlap characters before its predecessor ends, and indices, totals and token counts agree. */
  ghost predicate FixedChunks(chunks: seq<Chunk>, content: string, size: nat, overlap: nat) {
    && (chunks == [] <==> content == "")
    && (forall i {:trigger FixedAt(chunks[i], i, |chunks|, content, size, overlap)} :: 0 <= i < |chunks| ==>
          FixedAt(chunks[i], i, |chunks|, content, size, overlap))
    && (forall i {:trigger OverlapsBy(chunks[i - 1], chunks[i], overlap)} :: 0 < i < |chunks| ==>
          OverlapsBy(chunks[i - 1], chunks[i], overlap))
  }

  predicate OverlapsBy(p: Chunk, c: Chunk, overlap: nat) {
    c.startOffset == p.endOffset - overlap
  }

  /** Chunk i as the loop builds it. */
  ghost predicate LoopChunk(c: Chunk, i: nat, content: string, size: nat, step: int) {
    0 <= i * step <= |content| &&
    c == SingleChunk(content[i * step..Min(i * step + size, |content|)], i, i * step, 0)
  }

  lemma FixedChunksHold(built: seq<Chunk>, chunks: seq<Chunk>, content: string, size: nat, overlap: nat)
    requires (size > overlap || |chunks| <= 1) && |chunks| == |built|
    requires chunks == [] <==> content == ""
    requires forall i :: 0 <= i < |built| ==> LoopChunk(built[i], i, content, size, size - overlap)
    requires forall i :: 0 <= i < |built| ==> chunks[i] == built[i].(totalChunks := |built|)
    requires chunks != [] ==> |chunks| * (size - overlap) >= |content| - overlap
    requires |chunks| > 1 ==> (|chunks| - 1) * (size - overlap) < |content| - overlap
    ensures FixedChunks(chunks, content, size, overlap)
    ensures SlicesOf(chunks, content) && Overlapping(chunks)
  {
    forall i | 0 <= i < |chunks|
      ensures FixedAt(chunks[i], i, |chunks|, content, size, overlap) && SliceOf(chunks[i], content)
    {
      LoopChunkFixed(built[i], i, |chunks|, content, size, overlap);
    }
    forall i | 0 < i < |chunks|
      ensures OverlapsBy(chunks[i - 1], chunks[i], overlap) && Continues(chunks[i - 1], chunks[i])
    {
      FixedNeighbours(chunks[i - 1], chunks[i], i, |chunks|, content, size, overlap);
    }
  }

  lemma FixedNeighbours(p: Chunk, c: Chunk, i: nat, n: nat, content: string, size: nat, overlap: nat)
    requires size > overlap && 0 < i < n
    requires FixedAt(p, i - 1, n, content, size, overlap) && FixedAt(c, i, n, content, size, overlap)
    ensures OverlapsBy(p, c, overlap) && Continues(p, c)
  {
    NextStep(i - 1, size - overlap);
  }

  /** Chunk i of n, with its totals: full-sized unless it is the last, which ends with the text. */
  ghost predicate FixedAt(c: Chunk, i: nat, n: nat, content: string, size: nat, overlap: nat) {
    && c.startOffset == i * (size - overlap)
    && 0 <= c.startOffset <= c.endOffset <= |content|
    && c.content == content[c.startOffset..c.endOffset]
    && c.endOffset == (if i == n - 1 then |content| else c.startOffset + size)
    && c.endOffset <= c.startOffset + size
    && c.chunkIndex == i && c.totalChunks == n && c.tokenCount == EstimateTokens(c.content)
  }

  lemma LoopChunkFixed(c: Chunk, i: nat, n: nat, content: string, size: nat, overlap: nat)
    requires (size > overlap || n == 1) && i < n && LoopChunk(c, i, content, size, size - overlap)
    requires n * (size - overlap) >= |content| - overlap
    requires n > 1 ==> (n - 1) * (size - overlap) < |content| - overlap
    ensures FixedAt(c.(totalChunks := n), i, n, content, size, overlap)
  {
    var start := i * (size - overlap);
    if i == n - 1 {
      NextStep(i, size - overlap);
      EndOfChunk(c, i, start, |content|, content, size);
    } else {
      NextStep(i, size - overlap);
      MulMonotone(i + 1, n - 1, size - overlap);
      EndOfChunk(c, i, start, start + size, content, size);
    }
  }

  lemma NextStep(i: int, step: int)
    ensures (i + 1) * step == i * step + step
  {
  }

  lemma EndOfChunk(c: Chunk, i: nat, start: int, end: int, content: string, size: nat)
    requires 0 <= start <= |content| && c == SingleChunk(content[start..Min(start + size, |content|)], i, start, 0)
    requires end == Min(start + size, |content|)
    ensures c.startOffset == start && c.endOffset == end && c.content == content[start..end]
    ensures c.tokenCount == EstimateTokens(c.content) && c.chunkIndex == i
  {
  }

  lemma FixedCountReached(length: nat, size: nat, overlap: nat, n: nat)
    requires size > overlap || (length <= size && n <= 1)
    requires n == 0 <==> length == 0
    requires n > 0 ==> n * (size - overlap) >= length - overlap
    requires n > 1 ==> (n - 1) * (size - overlap) < length - overlap
    ensures n == FixedCount(length, size, overlap)
  {
    var step := size - overlap;
    if n == 1 {
      if length > size {
        CeilUnique(length - overlap, step, 1);
      }
    } else if n > 1 {
      MulMonotone(1, n - 1, step);
      CeilUnique(length - overlap, step, n);
    }
  }
}
