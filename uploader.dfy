/** The vector-store uploader: the sliding-window chunker that cuts an
    article into overlapping windows snapped to sentence ends, the header
    put on each chunk, and the batch loop that counts successful uploads
    (daily-scraper-job/src/uploader.py). The upload of one article, a
    network call, is a parameter. */
module Uploader {
  import opened Options
  import opened PyStr
  import opened Articles

  /** Characters shared by consecutive windows, and the reach of the
      backwards search for a sentence end. */
  const Overlap: int := 200

  // ---------------------------------------------------------------------
  // Chunk header

  /** The header lines of `_format_chunk_content`, without the chunk
      number. */
  function HeaderLines(article: Article): string {
    "# " + article.title.GetOr("Untitled")
    + "\n\n**Category:** " + article.category.GetOr("Unknown")
    + "\n**Section:** " + article.section.GetOr("Unknown")
    + "\n**URL:** " + article.url.GetOr("")
    + "\n**Article ID:** " + article.id + "\n"
  }

  /** The `**Chunk:**` line, present only after the first chunk. */
  function ChunkLine(chunkIndex: nat): string {
    if chunkIndex > 0 then "**Chunk:** " + NatToString(chunkIndex + 1) + "\n" else ""
  }

  /** `_format_chunk_content` */
  function FormatChunkContent(article: Article, content: string, chunkIndex: nat): string {
    HeaderLines(article) + ChunkLine(chunkIndex) + "\n---\n\n" + content
  }

  /** The text follows the header verbatim; the header depends on the
      article and the index only, ends with the `---` rule, and is longer
      exactly when a chunk number is shown. */
  lemma FormatChunkContentShape(article: Article, content: string, chunkIndex: nat)
    ensures FormatChunkContent(article, content, chunkIndex) == FormatChunkContent(article, "", chunkIndex) + content
    ensures EndsWith(FormatChunkContent(article, "", chunkIndex), "\n---\n\n")
    ensures StartsWith(FormatChunkContent(article, "", chunkIndex), HeaderLines(article))
    ensures chunkIndex > 0 <==>
      |FormatChunkContent(article, "", chunkIndex)| > |FormatChunkContent(article, "", 0)|
  {
    var h, c := HeaderLines(article), ChunkLine(chunkIndex);
    var empty := FormatChunkContent(article, "", chunkIndex);
    assert empty == h + c + "\n---\n\n";
    assert empty == h + (c + "\n---\n\n");
    if chunkIndex > 0 {
      assert |NatToString(chunkIndex + 1)| > 0;
    }
  }

  // ---------------------------------------------------------------------
  // Sliding windows

  /** Where the window opened at `start` closes: `chunk_size` characters on,
      pulled back to just after the last `.` of its last 200 characters
      when that `.` lies after `start` and the window stops short of the
      end. The search range follows Python's slice rules, negative bounds
      included. */
  function WindowEnd(content: string, chunkSize: int, start: nat): int {
    var end := start + chunkSize;
    if end < |content| then
      var sentenceEnd := RFind(content, '.', end - Overlap, end);
      if sentenceEnd > start then sentenceEnd + 1 else end
    else end
  }

  /** The overlap before the end, or one past the start if that is
      further: the next window opens strictly later, and no later than
      where a non-empty window closed, so consecutive windows leave no gap. */
  function NextStart(start: nat, end: int): (r: nat)
    ensures r > start
    ensures r >= end - Overlap
    ensures end > start ==> r <= end
  {
    if end - Overlap > start + 1 then end - Overlap else start + 1
  }

  /** The stripped window texts kept from the window at `start` on: those
      of at least `min_chunk_size` characters. */
  function KeptFrom(content: string, chunkSize: int, minChunkSize: int, start: nat): seq<string>
    decreases |content| - start
  {
    if start >= |content| then []
    else
      var end := WindowEnd(content, chunkSize, start);
      var text := Strip(Slice(content, start, end));
      var rest := KeptFrom(content, chunkSize, minChunkSize, NextStart(start, end));
      if |text| >= minChunkSize then [text] + rest else rest
  }

  /** The stripped text of the window opened at `start`. */
  function WindowText(content: string, chunkSize: int, start: nat): string {
    Strip(Slice(content, start, WindowEnd(content, chunkSize, start)))
  }

  /** The starts of the windows the loop of `_create_chunks` visits from
      `start` on. */
  function WindowStarts(content: string, chunkSize: int, start: nat): seq<nat>
    decreases |content| - start
  {
    if start >= |content| then []
    else [start] + WindowStarts(content, chunkSize, NextStart(start, WindowEnd(content, chunkSize, start)))
  }

  /** With a positive `chunk_size` a window opened inside the content
      closes after its start. */
  lemma WindowNonEmpty(content: string, chunkSize: int, start: nat)
    requires chunkSize >= 1 && start < |content|
    ensures WindowEnd(content, chunkSize, start) > start
  {
  }

  /** The windows cover the content: every character from `start` on lies
      in some visited window. */
  lemma {:induction false} WindowsCover(content: string, chunkSize: int, start: nat, k: nat)
    requires chunkSize >= 1 && start <= k < |content|
    ensures exists s :: s in WindowStarts(content, chunkSize, start) && s <= k < WindowEnd(content, chunkSize, s)
    decreases |content| - start
  {
    var end := WindowEnd(content, chunkSize, start);
    WindowNonEmpty(content, chunkSize, start);
    assert start in WindowStarts(content, chunkSize, start);
    if end <= k {
      var next := NextStart(start, end);
      WindowsCover(content, chunkSize, next, k);
      var s :| s in WindowStarts(content, chunkSize, next) && s <= k < WindowEnd(content, chunkSize, s);
      assert s in WindowStarts(content, chunkSize, start);
    }
  }

  /** The kept texts are exactly the window texts that reach
      `min_chunk_size`: each kept text is some visited window's, and every
      visited window long enough is kept. */
  lemma {:induction false} KeptAreWindows(content: string, chunkSize: int, minChunkSize: int, start: nat)
    ensures forall t :: t in KeptFrom(content, chunkSize, minChunkSize, start) ==>
      |t| >= minChunkSize && exists s :: s in WindowStarts(content, chunkSize, start) && t == WindowText(content, chunkSize, s)
    ensures forall s :: s in WindowStarts(content, chunkSize, start) && |WindowText(content, chunkSize, s)| >= minChunkSize ==>
      WindowText(content, chunkSize, s) in KeptFrom(content, chunkSize, minChunkSize, start)
    decreases |content| - start
  {
    if start < |content| {
      var next := NextStart(start, WindowEnd(content, chunkSize, start));
      KeptAreWindows(content, chunkSize, minChunkSize, next);
      var starts := WindowStarts(content, chunkSize, start);
      assert starts == [start] + WindowStarts(content, chunkSize, next);
      forall t | t in KeptFrom(content, chunkSize, minChunkSize, start)
        ensures |t| >= minChunkSize && exists s :: s in starts && t == WindowText(content, chunkSize, s)
      {
        if t != WindowText(content, chunkSize, start) {
          var s :| s in WindowStarts(content, chunkSize, next) && t == WindowText(content, chunkSize, s);
          assert s in starts;
        }
      }
    }
  }

  /** A window never reaches past `chunk_size` characters from its start,
      nor closes before it. */
  lemma WindowBounds(content: string, chunkSize: int, start: nat)
    requires chunkSize >= 0
    ensures start <= WindowEnd(content, chunkSize, start) <= start + chunkSize
  {
  }

  /** The sentence rule: when the window stops short of the end and a `.`
      lies after `start` within its last 200 characters, the window closes
      just after the last such `.`. */
  lemma SnapsToSentenceEnd(content: string, chunkSize: int, start: nat, dot: nat)
    requires chunkSize >= Overlap && start + chunkSize < |content|
    requires start < dot < start + chunkSize && start + chunkSize - Overlap <= dot && content[dot] == '.'
    ensures var e := WindowEnd(content, chunkSize, start);
      dot < e <= start + chunkSize && content[e - 1] == '.'
      && forall k :: e <= k < start + chunkSize ==> content[k] != '.'
  {
  }

  /** Without such a `.` the window is the full `chunk_size` characters. */
  lemma NoSentenceEndFullWindow(content: string, chunkSize: int, start: nat)
    requires chunkSize >= Overlap && start + chunkSize < |content|
    requires forall k :: start < k < start + chunkSize && start + chunkSize - Overlap <= k ==> content[k] != '.'
    ensures WindowEnd(content, chunkSize, start) == start + chunkSize
  {
  }

  /** Every kept text has at least `min_chunk_size` and, for a non-negative
      `chunk_size`, at most `chunk_size` characters. */
  lemma {:induction false} KeptSizes(content: string, chunkSize: int, minChunkSize: int, start: nat)
    requires chunkSize >= 0
    ensures forall t :: t in KeptFrom(content, chunkSize, minChunkSize, start) ==>
      minChunkSize <= |t| <= chunkSize
    decreases |content| - start
  {
    if start < |content| {
      var end := WindowEnd(content, chunkSize, start);
      WindowBounds(content, chunkSize, start);
      var window := Slice(content, start, end);
      assert |window| <= chunkSize by {
        if end <= |content| {
          assert window == content[start..end];
        } else {
          assert window == content[start..|content|];
        }
      }
      var text, next := Strip(window), NextStart(start, end);
      var rest := KeptFrom(content, chunkSize, minChunkSize, next);
      KeptSizes(content, chunkSize, minChunkSize, next);
      assert KeptFrom(content, chunkSize, minChunkSize, start)
          == if |text| >= minChunkSize then [text] + rest else rest;
    }
  }

  /** What a chunk records about itself. */
  datatype ChunkMeta = ChunkMeta(
    articleId: string,
    title: string,
    url: string,
    chunkIndex: nat,
    totalChunks: nat)

  /** One chunk of `_create_chunks`: the formatted text and its metadata. */
  datatype UploadChunk = UploadChunk(content: string, metadata: ChunkMeta)

  /** The chunk at position `k` of `total`, holding `text`. */
  function ChunkOf(article: Article, text: string, k: nat, total: nat): UploadChunk {
    UploadChunk(
      FormatChunkContent(article, text, k),
      ChunkMeta(article.id, article.title.GetOr("Untitled"), article.url.GetOr(""), k, total))
  }

  /** `_create_chunks`, as a specification: content within `chunk_size` is
      one chunk with no minimum check; longer content is the kept windows,
      numbered from 0, each stamped with their count. */
  function ArticleChunks(article: Article, chunkSize: int, minChunkSize: int): (r: seq<UploadChunk>)
    ensures |article.content.GetOr("")| <= chunkSize ==>
      |r| == 1 && r[0] == ChunkOf(article, article.content.GetOr(""), 0, 1)
    ensures forall k :: 0 <= k < |r| ==> r[k].metadata.chunkIndex == k && r[k].metadata.totalChunks == |r|
  {
    var content := article.content.GetOr("");
    if |content| <= chunkSize then [ChunkOf(article, content, 0, 1)]
    else
      var texts := KeptFrom(content, chunkSize, minChunkSize, 0);
      Numbered(article, texts, 0, |texts|)
  }

  /** The window loop: where the window at `start` closes. */
  method CloseWindow(content: string, chunkSize: int, start: nat) returns (end: int)
    ensures end == WindowEnd(content, chunkSize, start)
  {
    end := start + chunkSize;
    if end < |content| {
      var sentenceEnd := RFind(content, '.', end - Overlap, end);
      if sentenceEnd > start {
        end := sentenceEnd + 1;
      }
    }
  }

  /** One turn of the `while` loop of `_create_chunks`: the window at
      `start`, kept as chunk `chunkIndex` when long enough, and where the
      next window opens. */
  method TakeWindow(article: Article, content: string, chunkSize: int, minChunkSize: int, start: nat, chunkIndex: nat)
    returns (kept: seq<UploadChunk>, ghost keptTexts: seq<string>, next: nat)
    requires start < |content|
    ensures next > start
    ensures keptTexts + KeptFrom(content, chunkSize, minChunkSize, next) == KeptFrom(content, chunkSize, minChunkSize, start)
    ensures |keptTexts| <= 1 && kept == Numbered(article, keptTexts, chunkIndex, 0)
  {
    var end := CloseWindow(content, chunkSize, start);
    var chunkContent := Strip(Slice(content, start, end));
    next := if end - Overlap > start + 1 then end - Overlap else start + 1;
    assert next == NextStart(start, end);
    KeptFromStep(content, chunkSize, minChunkSize, start);
    if |chunkContent| >= minChunkSize {
      kept := [UploadChunk(FormatChunkContent(article, chunkContent, chunkIndex),
                           ChunkMeta(article.id, article.title.GetOr("Untitled"), article.url.GetOr(""), chunkIndex, 0))];
      keptTexts := [chunkContent];
      NumberedOne(article, chunkContent, chunkIndex);
    } else {
      kept, keptTexts := [], [];
    }
  }

  /** One step of the kept texts: the window at `start`, when long enough,
      then the texts from the next window on. */
  lemma KeptFromStep(content: string, chunkSize: int, minChunkSize: int, start: nat)
    requires start < |content|
    ensures var text := WindowText(content, chunkSize, start);
      var rest := KeptFrom(content, chunkSize, minChunkSize, NextStart(start, WindowEnd(content, chunkSize, start)));
      KeptFrom(content, chunkSize, minChunkSize, start) == (if |text| >= minChunkSize then [text] else []) + rest
  {
    var text := WindowText(content, chunkSize, start);
    var rest := KeptFrom(content, chunkSize, minChunkSize, NextStart(start, WindowEnd(content, chunkSize, start)));
    if |text| < minChunkSize {
      assert [] + rest == rest;
    }
  }

  /** A single text numbered from `from` is the chunk at `from`. */
  lemma NumberedOne(article: Article, text: string, from: nat)
    ensures Numbered(article, [text], from, 0) == [ChunkOf(article, text, from, 0)]
  {
    assert Numbered(article, [text], from, 0)[0] == ChunkOf(article, text, from, 0);
  }

  /** Chunks holding `texts`, numbered from `from`, each recording
      `total` as the number of chunks. */
  function Numbered(article: Article, texts: seq<string>, from: nat, total: nat): (r: seq<UploadChunk>)
    ensures |r| == |texts|
  {
    seq(|texts|, k requires 0 <= k < |texts| => ChunkOf(article, texts[k], from + k, total))
  }

  lemma NumberedAppend(article: Article, texts: seq<string>, more: seq<string>, total: nat)
    ensures Numbered(article, texts + more, 0, total)
         == Numbered(article, texts, 0, total) + Numbered(article, more, |texts|, total)
  {
    var whole, left, right := Numbered(article, texts + more, 0, total),
      Numbered(article, texts, 0, total), Numbered(article, more, |texts|, total);
    forall k | 0 <= k < |whole|
      ensures whole[k] == (left + right)[k]
    {
      if k < |texts| {
        assert (texts + more)[k] == texts[k];
      } else {
        assert (texts + more)[k] == more[k - |texts|];
      }
    }
  }

  /** The `while` loop of `_create_chunks`: windows from the start of the
      content, kept ones numbered in order, `total_chunks` still 0. */
  method SlideWindows(article: Article, content: string, chunkSize: int, minChunkSize: int)
    returns (chunks: seq<UploadChunk>, ghost texts: seq<string>)
    ensures texts == KeptFrom(content, chunkSize, minChunkSize, 0)
    ensures chunks == Numbered(article, KeptFrom(content, chunkSize, minChunkSize, 0), 0, 0)
  {
    chunks, texts := [], [];
    var start: nat := 0;
    while start < |content|
      invariant texts + KeptFrom(content, chunkSize, minChunkSize, start) == KeptFrom(content, chunkSize, minChunkSize, 0)
      invariant chunks == Numbered(article, texts, 0, 0)
      decreases |content| - start
    {
      var kept, next;
      ghost var keptTexts;
      kept, keptTexts, next := TakeWindow(article, content, chunkSize, minChunkSize, start, |chunks|);
      assert (texts + keptTexts) + KeptFrom(content, chunkSize, minChunkSize, next)
          == texts + (keptTexts + KeptFrom(content, chunkSize, minChunkSize, next));
      NumberedAppend(article, texts, keptTexts, 0);
      chunks, texts := chunks + kept, texts + keptTexts;
      start := next;
    }
    assert texts + [] == texts;
  }

  /** `_create_chunks`: a single chunk for short content; otherwise the
      window loop, then a second pass stamping every chunk's
      `total_chunks`. */
  method CreateChunks(article: Article, chunkSize: int, minChunkSize: int) returns (chunks: seq<UploadChunk>)
    ensures chunks == ArticleChunks(article, chunkSize, minChunkSize)
  {
    var content := article.content.GetOr("");
    if |content| <= chunkSize {
      chunks := [UploadChunk(FormatChunkContent(article, content, 0),
                             ChunkMeta(article.id, article.title.GetOr("Untitled"), article.url.GetOr(""), 0, 1))];
      return;
    }
    ghost var texts;
    chunks, texts := SlideWindows(article, content, chunkSize, minChunkSize);
    chunks := StampTotals(article, texts, chunks);
  }

  /** The second pass of `_create_chunks`: every chunk records how many
      chunks there are. */
  method StampTotals(article: Article, ghost texts: seq<string>, numbered: seq<UploadChunk>)
    returns (chunks: seq<UploadChunk>)
    requires numbered == Numbered(article, texts, 0, 0)
    ensures chunks == Numbered(article, texts, 0, |texts|)
  {
    chunks := numbered;
    var total := |chunks|;
    for k := 0 to total
      invariant |chunks| == total == |texts|
      invariant forall j :: 0 <= j < k ==> chunks[j] == ChunkOf(article, texts[j], j, total)
      invariant forall j :: k <= j < total ==> chunks[j] == ChunkOf(article, texts[j], j, 0)
    {
      chunks := chunks[k := chunks[k].(metadata := chunks[k].metadata.(totalChunks := total))];
    }
  }

  // ---------------------------------------------------------------------
  // Batches

  /** How many of the uploads numbered `lo..hi` succeed. */
  function SuccessCount(uploaded: nat -> bool, lo: nat, hi: nat): (n: nat)
    ensures lo <= hi ==> n <= hi - lo
    ensures hi <= lo ==> n == 0
    decreases hi - lo
  {
    if lo >= hi then 0 else (if uploaded(lo) then 1 else 0) + SuccessCount(uploaded, lo + 1, hi)
  }

  /** Counting over two adjacent ranges is counting over their union. */
  lemma {:induction false} SuccessCountSplit(uploaded: nat -> bool, lo: nat, mid: nat, hi: nat)
    requires lo <= mid <= hi
    ensures SuccessCount(uploaded, lo, hi) == SuccessCount(uploaded, lo, mid) + SuccessCount(uploaded, mid, hi)
    decreases mid - lo
  {
    if lo < mid {
      SuccessCountSplit(uploaded, lo + 1, mid, hi);
    }
  }

  /** The number of batches: the article count divided by the batch size,
      rounded up. */
  function TotalBatches(n: nat, batchSize: int): nat
    requires batchSize > 0
  {
    (n + batchSize - 1) / batchSize
  }

  /** What the batch loop reports for one batch: its number, the number of
      batches and its size. */
  datatype BatchReport = BatchReport(number: nat, total: nat, size: nat)

  /** The batches of `range(i, n, batch_size)`: each the slice
      `articles[i:i + batch_size]`. */
  function BatchesFrom(n: nat, batchSize: int, i: nat): seq<BatchReport>
    requires batchSize > 0
    decreases n - i
  {
    if i >= n then []
    else
      var size := if i + batchSize <= n then batchSize else n - i;
      [BatchReport(i / batchSize + 1, TotalBatches(n, batchSize), size)] + BatchesFrom(n, batchSize, i + batchSize)
  }

  /** Reporting the batch at `i` and going on from the next one reports
      the same batches as going on from `i`. */
  lemma BatchesFromStep(n: nat, batchSize: int, i: nat, log: seq<BatchReport>)
    requires batchSize > 0 && i < n
    ensures var size := if i + batchSize <= n then batchSize else n - i;
      (log + [BatchReport(i / batchSize + 1, (n + batchSize - 1) / batchSize, size)]) + BatchesFrom(n, batchSize, i + batchSize)
      == log + BatchesFrom(n, batchSize, i)
  {
    var size := if i + batchSize <= n then batchSize else n - i;
    var report := BatchReport(i / batchSize + 1, TotalBatches(n, batchSize), size);
    assert BatchesFrom(n, batchSize, i) == [report] + BatchesFrom(n, batchSize, i + batchSize);
    assert (log + [report]) + BatchesFrom(n, batchSize, i + batchSize)
        == log + ([report] + BatchesFrom(n, batchSize, i + batchSize));
  }

  /** The sum of the batch sizes. */
  function SizeSum(batches: seq<BatchReport>): nat {
    if batches == [] then 0 else batches[0].size + SizeSum(batches[1..])
  }

  /** From a batch boundary on, the batches number `⌈(n - i) / batch_size⌉`
      and their sizes add up to the articles left: every article is in
      exactly one batch, in order. */
  lemma {:induction false} BatchesCover(n: nat, batchSize: int, i: nat)
    requires batchSize > 0 && i <= n
    ensures |BatchesFrom(n, batchSize, i)| == (n - i + batchSize - 1) / batchSize
    ensures SizeSum(BatchesFrom(n, batchSize, i)) == n - i
    decreases n - i
  {
    if i < n {
      var rest := BatchesFrom(n, batchSize, i + batchSize);
      if i + batchSize <= n {
        BatchesCover(n, batchSize, i + batchSize);
        DivStep(n - i - batchSize + batchSize - 1, batchSize);
      } else {
        assert rest == [];
        assert (n - i + batchSize - 1) / batchSize == 1 by {
          DivOne(n - i + batchSize - 1, batchSize);
        }
      }
      assert BatchesFrom(n, batchSize, i)[1..] == rest;
    }
  }

  lemma DivStep(a: nat, b: int)
    requires b > 0
    ensures (a + b) / b == a / b + 1
  {
    var q, r := a / b, a % b;
    assert a == q * b + r;
    assert a + b == (q + 1) * b + r;
    DivUnique(a + b, b, q + 1, r);
  }

  /** Euclidean division has one quotient. */
  lemma DivUnique(x: int, b: int, q: int, r: int)
    requires b > 0 && x == q * b + r && 0 <= r < b
    ensures x / b == q
  {
    var d, r' := x / b - q, x % b;
    assert d * b == r - r' by {
      assert x == (x / b) * b + r';
      assert (x / b) * b == d * b + q * b;
    }
    if d > 0 {
      MulAtLeast(d, b);
    } else if d < 0 {
      MulAtLeast(-d, b);
    }
  }

  lemma MulAtLeast(d: int, b: int)
    requires d >= 1 && b > 0
    ensures d * b >= b
  {
    assert d * b == (d - 1) * b + b;
  }

  lemma DivOne(a: nat, b: int)
    requires b > 0 && b <= a < 2 * b
    ensures a / b == 1
  {
  }

  /** All the batches of `n` articles: `⌈n / batch_size⌉` of them, numbered
      from 1, every one but the last full. */
  lemma AllBatches(n: nat, batchSize: int)
    requires batchSize > 0
    ensures |BatchesFrom(n, batchSize, 0)| == TotalBatches(n, batchSize)
    ensures SizeSum(BatchesFrom(n, batchSize, 0)) == n
  {
    BatchesCover(n, batchSize, 0);
  }

  /** The number `upload_articles` returns for `n` articles: 0 for an empty
      list, an unready vector store or a batch size that is not positive
      (zero makes `range` raise, a negative one leaves it empty), otherwise
      the successful uploads. Never more than `n`. */
  function UploadOutcome(n: nat, batchSize: int, storeReady: bool, uploaded: nat -> bool): (count: nat)
    ensures count <= n
    ensures n == 0 || !storeReady || batchSize <= 0 ==> count == 0
  {
    if n > 0 && storeReady && batchSize > 0 then SuccessCount(uploaded, 0, n) else 0
  }

  /** `VectorStoreUploader`: the batch size it was configured with, the
      upload statistics and the batches it has reported. */
  class VectorStoreUploader {
    var batchSize: int
    var totalArticles: nat
    var successfulUploads: nat
    var failedUploads: nat
    var batchLog: seq<BatchReport>
    /** Every list of articles handed to `upload_articles`, in call order. */
    ghost var received: seq<Article>

    constructor(batchSize: int)
      ensures this.batchSize == batchSize
      ensures totalArticles == 0 && successfulUploads == 0 && failedUploads == 0 && batchLog == [] && received == []
    {
      this.batchSize := batchSize;
      totalArticles, successfulUploads, failedUploads := 0, 0, 0;
      batchLog := [];
      received := [];
    }

    /** `_upload_batch`: each article of the batch uploaded in turn, the
        article at position `offset + j` succeeding as `uploaded` says. */
    method UploadBatch(batch: seq<Article>, offset: nat, uploaded: nat -> bool) returns (count: nat)
      modifies this
      ensures count == SuccessCount(uploaded, offset, offset + |batch|)
      ensures successfulUploads == old(successfulUploads) + count
      ensures failedUploads == old(failedUploads) + (|batch| - count)
      ensures batchSize == old(batchSize) && totalArticles == old(totalArticles) && batchLog == old(batchLog)
      ensures received == old(received)
    {
      count := 0;
      var j := 0;
      while j < |batch|
        invariant 0 <= j <= |batch|
        invariant count + SuccessCount(uploaded, offset + j, offset + |batch|) == SuccessCount(uploaded, offset, offset + |batch|)
        invariant count <= j
        invariant successfulUploads == old(successfulUploads) + count
        invariant failedUploads == old(failedUploads) + (j - count)
        invariant batchSize == old(batchSize) && totalArticles == old(totalArticles) && batchLog == old(batchLog)
        invariant received == old(received)
      {
        if uploaded(offset + j) {
          count := count + 1;
          successfulUploads := successfulUploads + 1;
        } else {
          failedUploads := failedUploads + 1;
        }
        j := j + 1;
      }
    }

    /** One turn of the batch loop of `upload_articles`: report the batch
        `articles[i:i + batch_size]`, then upload it. */
    method RunBatch(articles: seq<Article>, i: nat, uploaded: nat -> bool) returns (batchSuccess: nat)
      requires batchSize > 0 && i < |articles|
      modifies this
      ensures batchSize == old(batchSize) && totalArticles == old(totalArticles) && received == old(received)
      ensures var hi := if i + batchSize <= |articles| then i + batchSize else |articles|;
        batchSuccess == SuccessCount(uploaded, i, hi)
        && successfulUploads == old(successfulUploads) + batchSuccess
        && failedUploads == old(failedUploads) + (hi - i - batchSuccess)
      ensures batchLog + BatchesFrom(|articles|, batchSize, i + batchSize)
           == old(batchLog) + BatchesFrom(|articles|, batchSize, i)
    {
      var n := |articles|;
      var hi := if i + batchSize <= n then i + batchSize else n;
      ReportBatch(n, i);
      batchSuccess := UploadBatch(articles[i..hi], i, uploaded);
    }

    /** The log line of the batch starting at `i` of `n` articles: its
        number, the number of batches and its size. */
    method ReportBatch(n: nat, i: nat)
      requires batchSize > 0 && i < n
      modifies this
      ensures batchSize == old(batchSize) && totalArticles == old(totalArticles) && received == old(received)
      ensures batchLog + BatchesFrom(n, batchSize, i + batchSize) == old(batchLog) + BatchesFrom(n, batchSize, i)
      ensures successfulUploads == old(successfulUploads) && failedUploads == old(failedUploads)
    {
      var bs := batchSize;
      var size := if i + bs <= n then bs else n - i;
      BatchesFromStep(n, bs, i, batchLog);
      batchLog := batchLog + [BatchReport(i / bs + 1, (n + bs - 1) / bs, size)];
    }

    /** `upload_articles`: nothing for an empty list or when the vector
        store is not ready; a zero batch size makes `range` raise, which
        the handler turns into 0; otherwise the batches in order, adding up
        their successes. */
    method UploadArticles(articles: seq<Article>, storeReady: bool, uploaded: nat -> bool) returns (count: nat)
      modifies this
      ensures |articles| == 0 ==> count == 0 && totalArticles == old(totalArticles)
      ensures |articles| > 0 ==> totalArticles == |articles|
      ensures count == UploadOutcome(|articles|, batchSize, storeReady, uploaded)
      ensures received == old(received) + articles
      ensures batchLog == old(batchLog) + (if |articles| > 0 && storeReady && batchSize > 0
        then BatchesFrom(|articles|, batchSize, 0) else [])
      ensures successfulUploads == old(successfulUploads) + count
      ensures failedUploads == old(failedUploads) + (if |articles| > 0 && storeReady && batchSize > 0 then |articles| - count else 0)
      ensures batchSize == old(batchSize)
    {
      count := 0;
      received := received + articles;
      if |articles| == 0 {
        return;
      }
      totalArticles := |articles|;
      if !storeReady || batchSize <= 0 {
        return;
      }
      count := UploadBatches(articles, uploaded);
    }

    /** The batch loop of `upload_articles`: `range(0, len(articles),
        batch_size)`, reporting and uploading each batch and adding up the
        successes. */
    method UploadBatches(articles: seq<Article>, uploaded: nat -> bool) returns (count: nat)
      requires batchSize > 0
      modifies this
      ensures batchSize == old(batchSize) && totalArticles == old(totalArticles) && received == old(received)
      ensures count == SuccessCount(uploaded, 0, |articles|)
      ensures batchLog == old(batchLog) + BatchesFrom(|articles|, batchSize, 0)
      ensures successfulUploads == old(successfulUploads) + count
      ensures failedUploads == old(failedUploads) + (|articles| - count)
    {
      count := 0;
      var n, bs := |articles|, batchSize;
      var i, done: nat := 0, 0;
      while i < n
        invariant batchSize == bs && totalArticles == old(totalArticles) && received == old(received)
        invariant batchLog + BatchesFrom(n, bs, i) == old(batchLog) + BatchesFrom(n, bs, 0)
        invariant done == (if i <= n then i else n)
        invariant count + SuccessCount(uploaded, done, n) == SuccessCount(uploaded, 0, n)
        invariant count <= done
        invariant successfulUploads == old(successfulUploads) + count
        invariant failedUploads == old(failedUploads) + (done - count)
        decreases n - i
      {
        ghost var before := batchLog;
        var batchSuccess := RunBatch(articles, i, uploaded);
        assert batchLog + BatchesFrom(n, bs, i + bs) == before + BatchesFrom(n, bs, i);
        var hi := if i + bs <= n then i + bs else n;
        SuccessCountSplit(uploaded, i, hi, n);
        count := count + batchSuccess;
        i := i + bs;
        done := hi;
      }
      assert done == n && BatchesFrom(n, bs, i) == [];
    }
  }
}
