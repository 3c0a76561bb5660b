// The download phase of the crawlers: each article of the frontier is
// fetched with bounded retries and stored as an HTML file; threads take
// contiguous chunks of the frontier and add their local counts to a shared
// total. The outcome of every request and file write is an input: for each
// href, attempt k either stored the page, failed as a request (transport
// error or non-200 status), or failed to write the file.
module Download {
  import opened Text
  import opened Crawl
  import opened Partition

  /** Which crawler script. */
  datatype Variant =
    | Large   // crawl-wikipedia-large.py: truncating escape, failure lists
    | Medium  // crawl-wikipedia.py: escape without truncation
    | Oldest  // data/crawl-wikipedia.py: raw last segment, inline chunking

  datatype Attempt = Stored | RequestFailed | WriteFailed

  /** The name an article is stored under: the last '/'-segment of its href plus ".html". */
  function FilenameFor(variant: Variant, href: string): (r: string)
    ensures |r| >= 5 && r[|r| - 5..] == ".html"
    ensures variant != Oldest && LastField(href, '/') != "" ==> r[0] != '.'
  {
    var last := LastField(href, '/');
    match variant
    case Large => CanonicalizeTruncated(last) + ".html"
    case Medium => Canonicalize(last) + ".html"
    case Oldest => last + ".html"
  }

  /** The first attempt among k, ..., retries that stored the article. */
  function FirstStored(attempt: nat -> Attempt, k: nat, retries: nat): (r: Option<nat>)
    ensures r.Some? ==> k <= r.value <= retries && attempt(r.value) == Stored
    ensures r.None? ==> forall j :: k <= j <= retries ==> attempt(j) != Stored
    decreases retries + 1 - k
  {
    if k > retries then None
    else if attempt(k) == Stored then Some(k)
    else FirstStored(attempt, k + 1, retries)
  }

  /**
   * How one article ends up: Stored when some attempt within the retry
   * budget stored it, otherwise the failure of the last attempt, which is
   * what decides the failure list of crawl-wikipedia-large.py.
   */
  function ArticleResult(attempt: nat -> Attempt, retries: nat): (r: Attempt)
    ensures r == Stored <==> exists k :: 0 <= k <= retries && attempt(k) == Stored
    ensures r != Stored ==> r == attempt(retries)
  {
    match FirstStored(attempt, 0, retries)
    case Some(_) => Stored
    case None => attempt(retries)
  }

  /** Number of articles of hrefs that were stored. */
  function Downloaded(hrefs: seq<string>, web: string -> nat -> Attempt, retries: nat): (r: nat)
    ensures r <= |hrefs|
  {
    if hrefs == [] then 0
    else Downloaded(hrefs[..|hrefs| - 1], web, retries)
         + (if ArticleResult(web(hrefs[|hrefs| - 1]), retries) == Stored then 1 else 0)
  }

  /**
   * The names of the articles of hrefs whose last attempt ended in `kind`,
   * in frontier order; `name` turns an href into what the crawler records
   * for it (its URL or its filename).
   */
  function Failures(hrefs: seq<string>, web: string -> nat -> Attempt, retries: nat, kind: Attempt,
                    name: string -> string): seq<string>
  {
    if hrefs == [] then []
    else
      var h := hrefs[|hrefs| - 1];
      Failures(hrefs[..|hrefs| - 1], web, retries, kind, name)
      + (if ArticleResult(web(h), retries) == kind then [name(h)] else [])
  }

  /** The URL an href is fetched from. */
  function UrlOf(href: string): string
  {
    UrlPrefix + href
  }

  /** The filename crawl-wikipedia-large.py records for a failed write. */
  function StoredName(href: string): string
  {
    FilenameFor(Large, href)
  }

  /** Every article is counted exactly once: stored, failed to download or failed to write. */
  lemma {:induction false} EveryArticleAccounted(hrefs: seq<string>, web: string -> nat -> Attempt, retries: nat,
                                                 urlOf: string -> string, fileOf: string -> string)
    ensures Downloaded(hrefs, web, retries) + |Failures(hrefs, web, retries, RequestFailed, urlOf)|
            + |Failures(hrefs, web, retries, WriteFailed, fileOf)| == |hrefs|
  {
    if hrefs != [] {
      EveryArticleAccounted(hrefs[..|hrefs| - 1], web, retries, urlOf, fileOf);
    }
  }

  lemma {:induction false} DownloadedAdditive(a: seq<string>, b: seq<string>, web: string -> nat -> Attempt, retries: nat)
    ensures Downloaded(a + b, web, retries) == Downloaded(a, web, retries) + Downloaded(b, web, retries)
    decreases |b|
  {
    if b == [] {
      assert a + b == a;
    } else {
      SnocSplit(a, b);
      DownloadedAdditive(a, b[..|b| - 1], web, retries);
    }
  }

  /** The failure lists of consecutive chunks add up to that of the whole. */
  lemma {:induction false} FailuresAdditive(a: seq<string>, b: seq<string>, web: string -> nat -> Attempt, retries: nat,
                                            kind: Attempt, name: string -> string)
    ensures Failures(a + b, web, retries, kind, name)
            == Failures(a, web, retries, kind, name) + Failures(b, web, retries, kind, name)
    decreases |b|
  {
    if b == [] {
      assert a + b == a;
    } else {
      SnocSplit(a, b);
      FailuresAdditive(a, b[..|b| - 1], web, retries, kind, name);
    }
  }

  lemma SnocSplit(a: seq<string>, b: seq<string>)
    requires b != []
    ensures (a + b)[..|a + b| - 1] == a + b[..|b| - 1]
    ensures (a + b)[|a + b| - 1] == b[|b| - 1]
  {
  }

  /** What downloading a list of articles adds to the crawler's totals. */
  datatype Tally = Tally(stored: nat, requestFailures: seq<string>, writeFailures: seq<string>)

  function Plus(a: Tally, b: Tally): Tally
  {
    Tally(a.stored + b.stored, a.requestFailures + b.requestFailures, a.writeFailures + b.writeFailures)
  }

  /** The stored count of hrefs and, for the large crawler only, its failure lists. */
  function Outcome(variant: Variant, hrefs: seq<string>, web: string -> nat -> Attempt, retries: nat): Tally
  {
    Tally(Downloaded(hrefs, web, retries),
          if variant == Large then Failures(hrefs, web, retries, RequestFailed, UrlOf) else [],
          if variant == Large then Failures(hrefs, web, retries, WriteFailed, StoredName) else [])
  }

  /** What downloading one article adds to the totals. */
  function ArticleOutcome(variant: Variant, href: string, attempt: nat -> Attempt, retries: nat): Tally
  {
    var result := ArticleResult(attempt, retries);
    Tally(if result == Stored then 1 else 0,
          if variant == Large && result == RequestFailed then [UrlOf(href)] else [],
          if variant == Large && result == WriteFailed then [StoredName(href)] else [])
  }

  /** The outcome of one more article of the frontier. */
  lemma OutcomeSnoc(variant: Variant, hrefs: seq<string>, i: nat, web: string -> nat -> Attempt, retries: nat)
    requires i < |hrefs|
    ensures Outcome(variant, hrefs[..i + 1], web, retries)
            == Plus(Outcome(variant, hrefs[..i], web, retries), ArticleOutcome(variant, hrefs[i], web(hrefs[i]), retries))
  {
    assert hrefs[..i + 1][..i] == hrefs[..i];
  }

  lemma PlusAssociative(a: Tally, b: Tally, c: Tally)
    ensures Plus(Plus(a, b), c) == Plus(a, Plus(b, c))
  {
  }

  lemma OutcomeAdditive(variant: Variant, a: seq<string>, b: seq<string>, web: string -> nat -> Attempt, retries: nat)
    ensures Outcome(variant, a + b, web, retries) == Plus(Outcome(variant, a, web, retries), Outcome(variant, b, web, retries))
  {
    DownloadedAdditive(a, b, web, retries);
    FailuresAdditive(a, b, web, retries, RequestFailed, UrlOf);
    FailuresAdditive(a, b, web, retries, WriteFailed, StoredName);
  }

  /** Adding the outcome of hrefs[b0..b1] to the totals of hrefs[..b0] gives the totals of hrefs[..b1]. */
  lemma TallyStep(start: Tally, before: Tally, after: Tally, variant: Variant, hrefs: seq<string>, b0: nat, b1: nat,
                  web: string -> nat -> Attempt, retries: nat)
    requires b0 <= b1 <= |hrefs|
    requires before == Plus(start, Outcome(variant, hrefs[..b0], web, retries))
    requires after == Plus(before, Outcome(variant, hrefs[b0..b1], web, retries))
    ensures after == Plus(start, Outcome(variant, hrefs[..b1], web, retries))
  {
    OutcomeSplit(variant, hrefs, b0, b1, web, retries);
    PlusAssociative(start, Outcome(variant, hrefs[..b0], web, retries), Outcome(variant, hrefs[b0..b1], web, retries));
  }

  /** The outcome of a prefix is that of a shorter prefix plus that of the slice between them. */
  lemma OutcomeSplit(variant: Variant, hrefs: seq<string>, b0: nat, b1: nat, web: string -> nat -> Attempt, retries: nat)
    requires b0 <= b1 <= |hrefs|
    ensures Outcome(variant, hrefs[..b1], web, retries)
            == Plus(Outcome(variant, hrefs[..b0], web, retries), Outcome(variant, hrefs[b0..b1], web, retries))
  {
    assert hrefs[..b1] == hrefs[..b0] + hrefs[b0..b1];
    OutcomeAdditive(variant, hrefs[..b0], hrefs[b0..b1], web, retries);
  }

  /** The process-wide totals of the crawler: the shared download count and,
      in crawl-wikipedia-large.py, the two failure lists. */
  class Downloader {
    var totalDownloads: nat
    var downloadFailures: seq<string>
    var writeFailures: seq<string>

    constructor ()
      ensures totalDownloads == 0 && downloadFailures == [] && writeFailures == []
    {
      totalDownloads := 0;
      downloadFailures := [];
      writeFailures := [];
    }

    function Current(): Tally
      reads this
    {
      Tally(totalDownloads, downloadFailures, writeFailures)
    }

    /**
     * `download_article`: up to retries + 1 attempts, returning 1 as soon as
     * one stores the page and 0 when none does. In the large crawler the
     * last failed attempt also records its URL (request failure) or its
     * filename (write failure).
     */
    method DownloadArticle(variant: Variant, href: string, attempt: nat -> Attempt, retries: nat)
      returns (stored: nat)
      modifies this
      ensures stored == if ArticleResult(attempt, retries) == Stored then 1 else 0
      ensures totalDownloads == old(totalDownloads)
      ensures downloadFailures == old(downloadFailures)
        + (if variant == Large && ArticleResult(attempt, retries) == RequestFailed then [UrlOf(href)] else [])
      ensures writeFailures == old(writeFailures)
        + (if variant == Large && ArticleResult(attempt, retries) == WriteFailed then [StoredName(href)] else [])
    {
      // The url and the filename do not change from one attempt to the next.
      var filename := FilenameFor(variant, href);
      assert variant == Large ==> filename == StoredName(href);
      stored := RetryLoop(variant == Large, UrlOf(href), filename, attempt, retries);
    }

    /**
     * The attempts of `download_article` for one url and filename; `record`
     * says whether a failed last attempt is recorded, which only
     * crawl-wikipedia-large.py does.
     */
    method RetryLoop(record: bool, url: string, filename: string, attempt: nat -> Attempt, retries: nat)
      returns (stored: nat)
      modifies this
      ensures stored == if ArticleResult(attempt, retries) == Stored then 1 else 0
      ensures totalDownloads == old(totalDownloads)
      ensures downloadFailures == old(downloadFailures)
        + (if record && ArticleResult(attempt, retries) == RequestFailed then [url] else [])
      ensures writeFailures == old(writeFailures)
        + (if record && ArticleResult(attempt, retries) == WriteFailed then [filename] else [])
    {
      var downloadAttempts := 0;
      while downloadAttempts <= retries
        invariant downloadAttempts <= retries + 1
        invariant FirstStored(attempt, downloadAttempts, retries) == FirstStored(attempt, 0, retries)
        invariant totalDownloads == old(totalDownloads)
        invariant downloadFailures == old(downloadFailures)
          + (if record && downloadAttempts > retries && attempt(retries) == RequestFailed then [url] else [])
        invariant writeFailures == old(writeFailures)
          + (if record && downloadAttempts > retries && attempt(retries) == WriteFailed then [filename] else [])
        decreases retries + 1 - downloadAttempts
      {
        if attempt(downloadAttempts) == Stored {
          return 1;
        } else if attempt(downloadAttempts) == RequestFailed {
          if record && downloadAttempts == retries {
            downloadFailures := downloadFailures + [url];
          }
        } else {
          if record && downloadAttempts == retries {
            writeFailures := writeFailures + [filename];
          }
        }
        downloadAttempts := downloadAttempts + 1;
      }
      return 0;
    }

    /**
     * `download` of crawl-wikipedia-large.py and crawl-wikipedia.py: the
     * thread downloads its chunk, then adds its local count to the total.
     */
    method DownloadChunk(variant: Variant, hrefs: seq<string>, web: string -> nat -> Attempt, retries: nat)
      modifies this
      ensures Current() == Plus(old(Current()), Outcome(variant, hrefs, web, retries))
    {
      var localDownloads := 0;
      ghost var start := Tally(0, downloadFailures, writeFailures);
      var i := 0;
      while i < |hrefs|
        invariant 0 <= i <= |hrefs|
        invariant totalDownloads == old(totalDownloads)
        invariant Tally(localDownloads, downloadFailures, writeFailures) == Plus(start, Outcome(variant, hrefs[..i], web, retries))
      {
        ghost var before := Tally(localDownloads, downloadFailures, writeFailures);
        ghost var one := ArticleOutcome(variant, hrefs[i], web(hrefs[i]), retries);
        var stored := DownloadArticle(variant, hrefs[i], web(hrefs[i]), retries);
        localDownloads := localDownloads + stored;
        assert Tally(localDownloads, downloadFailures, writeFailures) == Plus(before, one);
        assert Plus(before, one) == Plus(start, Outcome(variant, hrefs[..i + 1], web, retries)) by {
          OutcomeSnoc(variant, hrefs, i, web, retries);
          PlusAssociative(start, Outcome(variant, hrefs[..i], web, retries), one);
        }
        i := i + 1;
      }
      assert hrefs[..|hrefs|] == hrefs;
      totalDownloads := totalDownloads + localDownloads;
    }

    /**
     * One thread of `multithreaded_download`. In crawl-wikipedia-large.py
     * and crawl-wikipedia.py the dispatcher computes `calculate_chunk`,
     * skips worker ids that get no work and starts `download` on
     * hrefs[lb:ub]; in data/crawl-wikipedia.py every thread is started on the
     * whole frontier and `download` computes the same bounds inline,
     * returning early when it has none. Either way the thread accounts for
     * exactly the articles between boundaries tid and tid + 1.
     */
    method StartThread(variant: Variant, hrefs: seq<string>, tid: nat, numThreads: nat,
                       web: string -> nat -> Attempt, retries: nat)
      requires numThreads > 0 && tid < numThreads
      modifies this
      ensures var (b0, b1) := (Boundary(|hrefs|, numThreads, tid), Boundary(|hrefs|, numThreads, tid + 1));
        b0 <= b1 <= |hrefs| && Current() == Plus(old(Current()), Outcome(variant, hrefs[b0..b1], web, retries))
    {
      ChunkStep(|hrefs|, tid, numThreads);
      if variant == Oldest {
        match InlineChunk(|hrefs|, tid, numThreads)
        case None =>
          assert hrefs[Boundary(|hrefs|, numThreads, tid)..Boundary(|hrefs|, numThreads, tid + 1)] == [];
        case Some((lb, ub)) =>
          DownloadChunk(variant, hrefs[lb..ub], web, retries);
      } else {
        var chunk := CalculateChunk(|hrefs|, tid, numThreads);
        var lb, ub := chunk.0, chunk.1;
        if lb == -1 && ub == -1 {
          assert hrefs[Boundary(|hrefs|, numThreads, tid)..Boundary(|hrefs|, numThreads, tid + 1)] == [];
        } else {
          DownloadChunk(variant, hrefs[lb..ub], web, retries);
        }
      }
    }

    /**
     * `multithreaded_download`: threads 0 .. numThreads - 1, run here one
     * after the other. Together they store every article of the frontier
     * once: the shared total grows by the number of stored articles and the
     * failure lists by the failures of the whole frontier, in frontier order.
     */
    method MultithreadedDownload(variant: Variant, hrefs: seq<string>, web: string -> nat -> Attempt,
                                 retries: nat, numThreads: nat)
      requires numThreads > 0
      modifies this
      ensures Current() == Plus(old(Current()), Outcome(variant, hrefs, web, retries))
    {
      var n := |hrefs|;
      var i := 0;
      while i < numThreads
        invariant 0 <= i <= numThreads
        invariant Boundary(n, numThreads, i) <= n
        invariant Current() == Plus(old(Current()), Outcome(variant, hrefs[..Boundary(n, numThreads, i)], web, retries))
      {
        BoundaryInRange(n, i, numThreads);
        var b0, b1 := Boundary(n, numThreads, i), Boundary(n, numThreads, i + 1);
        ghost var before := Current();
        StartThread(variant, hrefs, i, numThreads, web, retries);
        TallyStep(old(Current()), before, Current(), variant, hrefs, b0, b1, web, retries);
        i := i + 1;
      }
      BoundaryShape(n, numThreads, 0);
      assert hrefs[..n] == hrefs;
    }
  }
}
