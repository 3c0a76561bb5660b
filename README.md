# Wikipedia crawler and preprocessor: a Dafny model

The repository has two parts. The first is three generations of a
Wikipedia crawler:

- crawl-wikipedia-large.py;
- crawl-wikipedia.py;
- data/crawl-wikipedia.py, together with its predecessor, the scraper
  data/scrape-wikipedia.py.

Each crawler builds a frontier of article links, starting from seed articles.
It then downloads every frontier article as an HTML file, spreading the work
over threads.

The second part is two generations of an HTML-to-text preprocessor
(preprocess.py and data/preprocess.py). Each walks the article's markup and
sorts its text into titled sections and a few "misc" buckets. The newer one
writes a summary, a virtual XML document and a plain-text file; the older
one writes the plain-text file.

The model keeps the deterministic logic and makes everything outside it an
input:

- **Network.** The outcome of each HTTP attempt and each file write is a
  function of the attempt number.
- **Parsed pages.** A fetched page is given as its list of content links, or
  as a page whose markup lacks them.
- **Markup.** The HTML tree is a `Markup.Node` datatype: comments, text and
  elements with a name, classes, an id, a role, an alt text and children.
  BeautifulSoup's `.string` and `find` are functions over that tree.
- **Dictionaries.** Python's insertion-ordered `dict` is `OrderedDict.Dict`:
  a key list plus a map.
- **Threads.** Threads run one after another.

State the source changes in place becomes a class with `modifies` clauses:

- the crawl frontier of each crawler (`Crawl.Crawler`, `Scrape.Scraper`);
- the shared download totals (`Download.Downloader`);
- the globals of the preprocessor's classifier (`Extract.Extractor`).

Pure logic is written as functions. Every loop of the modelled code that
builds its result step by step is a `while` loop with invariants, in a
method proved equal to a specification function; the lemmas beside that
function state what the source promises about it. Two loops that only
search are functions instead: the `for` over the class list in `find_in`
(preprocess.py:272-276, `Markup.FindIn`) and the box-class test of
data/preprocess.py:195-199 (`ClassHit` inside `Legacy.RouteOf`).

Modules, one per file:

| module | what it covers |
|---|---|
| Text | Python string helpers: `split`, `strip`, `replace`, substring tests |
| Partition | `calculate_chunk` and the inline chunk of data/crawl-wikipedia.py |
| Crawl | `canonicalize`, the link tests, the two cap placements of `expand_frontier`, `extract_hrefs_from_article` and `build_crawl_frontier` |
| Download | `download_article`, `download` and `multithreaded_download` |
| Scrape | the scraper's `expand_frontier`, `crawl` and `Article` |
| Cleanup | `cleanup_section`, in both generations |
| Summary | `remove_matching_parentheses` and `get_summary` |
| OrderedDict | the dict operations the preprocessors use |
| Markup | the tree, `find_in`, `find`, `.string` and `get_img_alt_text` |
| Extract | `parse_child`, `parse_childrenof`, `parse_sup`, `add_to_misc` and `parse_article` of preprocess.py |
| Legacy | `parse_h1`, `parse_h`, `parse_html`, `add_to_misc` and `parse_article` of data/preprocess.py |
| Serialize | `write_virtual_xml` and both `write_plain_text` |

## Model

| member | source | states |
|---|---|---|
| Partition.ChunkNoWorkIff | preprocess.py:489-509 | A worker gets the (-1, -1) sentinel exactly when N mod P is not 0, N div P is 0 and the worker id is at least N. |
| Partition.ChunkInRange | crawl-wikipedia-large.py:161-181 | A non-sentinel chunk (lb, ub) satisfies 0 <= lb <= ub <= N, and its size is N div P or N div P + 1. |
| Partition.ChunksDisjointBalanced | crawl-wikipedia.py:176-196 | Two non-sentinel chunks of workers i < j do not overlap (i's upper bound is at most j's lower bound), and their sizes differ by at most one. |
| Partition.ChunksContiguous | preprocess.py:489-509 | Worker 0 starts at 0; each chunk starts where the previous worker's ends; the last worker with work ends at N. So the chunks cover [0, N) in worker order. |
| Partition.ChunkIsSlice | preprocess.py:489-509 | Every non-sentinel chunk is the slice between boundaries pid and pid + 1 of an independent reference partition, the first N mod P parts one longer; a sentinel worker's slice of that partition is empty. |
| Partition.ChunkOfClosed | crawl-wikipedia-large.py:162-181 | The three branches of the source compute pid * c + min(pid, r) and (pid + 1) * c + min(pid + 1, r), with c = N div P and r = N mod P, or the sentinel. |
| Partition.BoundaryShape | preprocess.py:489-509 | The reference boundaries run from 0 to N, and part k has N div P elements plus one when k < N mod P. |
| Partition.BoundaryInRange | crawl-wikipedia-large.py:161-181 | Consecutive reference boundaries are ordered and lie within [0, N]. |
| Partition.ChunkExamples | preprocess.py:489-509 | N = 10, P = 3 gives (0,4), (4,7), (7,10); N = 2, P = 5 gives (0,1) and (1,2), then the sentinel for workers 2 to 4. |
| Partition.InlineChunk | data/crawl-wikipedia.py:150-175 | The bounds a thread computes inline equal `calculate_chunk`'s. The early return happens exactly when `calculate_chunk` gives the sentinel. |
| Partition.ChunkStep | crawl-wikipedia-large.py:204-208 | The dispatcher's view of worker pid: no work means an empty reference slice; otherwise it starts the slice between the pid-th and (pid + 1)-th boundaries. |
| Partition.AssignChunks | crawl-wikipedia-large.py:201-211 | The dispatch loop skips sentinel workers and slices the rest. Every started worker is given exactly its own chunk `items[lb:ub]`. Every worker without the sentinel is started. The slices, concatenated in worker order, are exactly the items. There are at most P workers, with increasing ids. |
| Crawl.CanonicalizeTruncated | crawl-wikipedia-large.py:27-31 | The result never starts with '.'. It is at most 64 + 6 characters long. A name of at most 64 characters without a leading '.' is returned unchanged. A leading '.' becomes "__dot__". |
| Crawl.Canonicalize | crawl-wikipedia.py:45-48 | A leading '.' is replaced by "__dot__"; any other name is returned unchanged; the result never starts with '.'. |
| Crawl.ArticleLinkShape | crawl-wikipedia-large.py:61-64 | "/wiki/" + t passes the link test iff t, stripped of trailing slashes, is a non-empty name without '/', and t has no '#' and no ':'. |
| Crawl.CapFirstBound | crawl-wikipedia-large.py:65-70 | Testing the cap before appending keeps a frontier that enters at or below the limit within it. A reported limit means a full frontier and an article link of the page that was refused. |
| Crawl.CapFirstAppends | crawl-wikipedia-large.py:65-70 | The old frontier stays a prefix; every appended entry is an article link of the page. |
| Crawl.CapFirstFresh | crawl-wikipedia-large.py:65 | Appended entries are pairwise distinct and distinct from everything before them. |
| Crawl.CapFirstComplete | crawl-wikipedia-large.py:60-70 | When no limit is reported, every article link of the page is in the frontier afterwards. |
| Crawl.CapAfterBound | crawl-wikipedia.py:84-89 | Testing the cap after every article link, a frontier that enters below the limit never passes it. The limit is reported iff the frontier is full. |
| Crawl.CapAfterReported | data/crawl-wikipedia.py:56-61 | For a frontier of any size, a reported limit means the frontier holds exactly the limit. |
| Crawl.CapAfterOverflow | crawl-wikipedia.py:84-89 | A frontier that enters full gains a new link and reports no limit, so the bound needs the frontier to enter below the limit. |
| Crawl.CapAfterAppends | data/crawl-wikipedia.py:56-61 | The old frontier stays a prefix; appended entries are fresh and are links of the page that pass the test. |
| Crawl.CapAfterComplete | crawl-wikipedia.py:79-89 | When no limit is reported, every link of the page that passes the test is in the frontier. |
| Crawl.CapAfterPrefix | crawl-wikipedia.py:84-86 | Duplicates change nothing; the frontier only grows at its end. |
| Crawl.FirstFetchedSpec | crawl-wikipedia-large.py:83-91 | The retry loop finds the earliest successful attempt among 0..retries, or reports that every attempt failed. |
| Crawl.ExtractionIsVisit | crawl-wikipedia-large.py:80-96 | Either extraction, corrected or as written, is one visit with the links of the page it expands. |
| Crawl.VisitFacts | crawl-wikipedia-large.py:100-110 | One visit keeps the frontier a growing prefix with fresh entries, within the limit. A reported limit means a full frontier; otherwise the frontier still admits another page. The visit succeeds iff a page was parsed. Without a reported limit, every link of that page that passes the crawler's test is in the frontier. |
| Crawl.WalkFacts | crawl-wikipedia-large.py:100-110 | The walk keeps the frontier it starts from as a prefix, keeps fresh the entries past a given index, stays within the limit, and counts at most one parsed page per entry it visits. |
| Crawl.WalkClosed | crawl-wikipedia-large.py:100-110 | The walk over the growing frontier only appends. When it ends below the limit, every link that passes the test, on every page parsed from the start entry on, is in the final frontier. |
| Crawl.UnparsableIsRetried | crawl-wikipedia-large.py:71-73 | On an unparsable page followed by a parsable one, the code as written expands from the second page and reports success. The corrected behaviour stops at the first page with no change and no success. |
| Crawl.SampleWalk | crawl-wikipedia-large.py:100-110 | A seed whose page links to /wiki/A gains it, and the walk goes on to visit the appended A, so the frontier grows past the seeds. Only the seed's page counts as parsed. |
| Crawl.Crawler.constructor | crawl-wikipedia-large.py:101-102 | The frontier starts as the seeds. |
| Crawl.Crawler.ExpandFrontierCapFirst | crawl-wikipedia-large.py:53-74 | The new frontier and the limit flag are those of the cap-before-append expansion. |
| Crawl.Crawler.ExpandFrontierCapAfter | crawl-wikipedia.py:70-93 | The new frontier and the limit flag are those of the cap-after-each-link expansion, with the ISO_/IEEE_/802./IEC_ exclusions. |
| Crawl.Crawler.ExtractHrefs | crawl-wikipedia-large.py:80-96 | The result is at most retries + 1 attempts, and the first fetched page decides. An unparsable page gives success false and is not retried. If every attempt fails, the frontier is unchanged and both flags are false. |
| Crawl.Crawler.ExtractHrefsAsWritten | crawl-wikipedia-large.py:80-96 | As written: an unparsable page costs an attempt, like a failed request, and the first parsable page decides. |
| Crawl.Crawler.VisitEntry | crawl-wikipedia-large.py:105-109 | One pass of the loop does not shrink the frontier and keeps it within the limit. A reported limit means a full frontier. The parsed count grows by at most one. The pass is one step of the walk `Crawl.Walk`: the walk from this entry is this pass followed, unless the limit was reported, by the walk from the next entry. |
| Crawl.Crawler.BuildCrawlFrontier | crawl-wikipedia-large.py:100-112 | The loop walks the growing frontier by index (also crawl-wikipedia.py:119-131 and data/crawl-wikipedia.py:91-103), with the extraction as written or as corrected. The frontier and the count of parsed pages are those of the walk `Crawl.Walk` over the seeds and the fetch outcomes; `Crawl.WalkClosed` gives its closure. The seeds stay a prefix and later entries are fresh. The frontier stays within the limit. Parsed pages are at most the entries visited. The loop stops early only on a full frontier. |
| Download.FilenameFor | crawl-wikipedia-large.py:134 | The stored name is the href's last '/' field plus ".html". It is canonicalized in the two newer crawlers, where it never starts with '.'; data/crawl-wikipedia.py:125 uses it raw. |
| Download.FirstStored | crawl-wikipedia.py:148-172 | The earliest attempt within the retry budget that stored the article, or none when every attempt failed. |
| Download.ArticleResult | crawl-wikipedia-large.py:129-157 | An article is stored iff some attempt among 0..retries stored it. Otherwise its outcome is the failure of the last attempt, which is the one the source records. |
| Download.EveryArticleAccounted | crawl-wikipedia-large.py:143-157 | Each article ends up exactly once as stored, as a download failure (by url) or as a write failure (by filename). |
| Download.DownloadedAdditive | data/crawl-wikipedia.py:179-185 | The stored count of consecutive chunks adds up to that of the whole frontier. |
| Download.FailuresAdditive | crawl-wikipedia-large.py:147-154 | The failure lists of consecutive chunks concatenate to the failure list of the whole, in frontier order. |
| Download.OutcomeSplit | crawl-wikipedia-large.py:204-211 | The totals of a prefix are the totals of a shorter prefix plus those of the chunk between them. |
| Download.Downloader.constructor | crawl-wikipedia-large.py:309-312 | The total starts at 0 and both failure lists start empty. |
| Download.Downloader.DownloadArticle | crawl-wikipedia-large.py:129-157 | Returns 1 iff the article was stored. In the large crawler, a failed last attempt appends the url (request failure) or the filename (write failure), so at most one record per href; other crawlers record nothing. |
| Download.Downloader.RetryLoop | crawl-wikipedia.py:148-172 | The attempt loop for one url and filename: stops at the first stored attempt, and records at most the last attempt's failure. |
| Download.Downloader.DownloadChunk | crawl-wikipedia-large.py:185-197 | The thread's local count is the number of stored articles of its chunk, and it is added to the shared total. |
| Download.Downloader.StartThread | data/crawl-wikipedia.py:148-187 | Whether dispatched on a slice or computing its bounds inline, thread tid accounts for exactly the articles between boundaries tid and tid + 1. |
| Download.Downloader.MultithreadedDownload | crawl-wikipedia-large.py:201-214 | After all threads, the total has grown by the number of stored articles of the whole frontier. The failure lists have grown by that frontier's failures, in frontier order. |
| Scrape.ArticleToString | data/scrape-wikipedia.py:15-16 | The rendering is the url, " : ", the filename and a newline, and each part can be read back at its position. |
| Scrape.ArticleFor | data/scrape-wikipedia.py:94-96 | The record keeps the url, and its filename is the url's last '/' field plus ".html". |
| Scrape.CapAfterAppendBound | data/scrape-wikipedia.py:45-51 | With the cap tested right after an append, a frontier that enters below the limit never passes it. |
| Scrape.CapAfterAppendOvershoot | data/scrape-wikipedia.py:49-51 | A frontier that enters at the limit grows past it on a new link. |
| Scrape.CapAfterAppendAppends | data/scrape-wikipedia.py:41-51 | The old frontier stays a prefix. Each appended entry is fresh and is the url of an article link of the page. |
| Scrape.CapAfterAppendComplete | data/scrape-wikipedia.py:38-51 | When the frontier did not fill up, the url of every article link of the page is in it. |
| Scrape.CapAfterAppendPrefix | data/scrape-wikipedia.py:46-51 | Urls already present are skipped; the frontier only grows at its end. |
| Scrape.ScrapeWalkFacts | data/scrape-wikipedia.py:87-92 | The walk of `crawl` keeps the frontier it starts from as a prefix, keeps fresh the entries past a given index, and holds at most 5000 entries. When it exits, it names a frontier url whose fetch failed or whose page lacked content links. |
| Scrape.ScrapeWalkClosed | data/scrape-wikipedia.py:87-92 | The walk of `crawl` only appends. When it neither exits nor fills the frontier, every entry from the start on was fetched with content links, and the url of each of their article links is in the final frontier. |
| Scrape.Scraper.constructor | data/scrape-wikipedia.py:86-87 | The frontier starts empty until `crawl` sets it to the seeds. |
| Scrape.Scraper.ExpandFrontier | data/scrape-wikipedia.py:35-51 | The new frontier is the cap-after-append expansion of the old one under the 5000 limit, with the exclusions. |
| Scrape.Scraper.CrawlFrontier | data/scrape-wikipedia.py:73-98 | The frontier, and whether and where the program exits, are those of the walk `Scrape.ScrapeWalk` over the seeds and the fetch outcomes. The seeds stay a prefix, later entries are fresh, and the frontier holds at most 5000 entries. An abort names a frontier url whose fetch failed or whose page lacked content links. Otherwise one Article per frontier entry is returned, in frontier order. |
| Scrape.Scraper.BuildArticles | data/scrape-wikipedia.py:94-97 | The articles are one per url, in the urls' order, each named after its url. |
| Cleanup.ReplaceUntilGone | preprocess.py:220-231 | Replacing until the pattern is gone leaves no occurrence of it and never lengthens the string. |
| Cleanup.ReplaceWhilePresent | preprocess.py:220-221 | The while-replace loop computes the replace-until-gone function. |
| Cleanup.CleanupSectionClean | preprocess.py:218-232 | The result has no tab and none of "  ", " \n", "\n ", "\n\n", " ," or " .", and no leading or trailing whitespace. |
| Cleanup.CleanupSectionIdempotent | preprocess.py:218-232 | Cleaning a cleaned section changes nothing. |
| Cleanup.CleanupSectionOldClean | data/preprocess.py:83-96 | The older cleanup leaves none of the six pairs and strips both ends. |
| Cleanup.CleanupSectionOldIdempotent | data/preprocess.py:83-96 | The older cleanup is idempotent too. |
| Cleanup.OldKeepsTabs | data/preprocess.py:83-96 | Tabs survive the older cleanup, because it has no tab replacement. |
| Cleanup.CleanFixed | data/preprocess.py:83-96 | A string already free of the pairs and trimmed is returned unchanged. |
| Cleanup.Cleanup | preprocess.py:218-232 | The method computes the newer cleanup, or the older one when tabs are kept (data/preprocess.py:83-96). |
| Summary.DropParens | preprocess.py:87-95 | The depth scan never lengthens the text and never keeps a '('. |
| Summary.RemoveParensNoOpen | preprocess.py:84-99 | The result of `remove_matching_parentheses` never contains '('. |
| Summary.MatchedPairDropped | preprocess.py:87-95 | A group '(' + b + ')' is dropped together with everything inside it, for any balanced b (nested pairs included); the text after it is read at the depth before the group. |
| Summary.StaysOpenStep | preprocess.py:87-95 | The depth stays open before every character iff it is open before the first and stays open over the rest. |
| Summary.DepthShift | preprocess.py:87-95 | Over text whose depth stays open, starting e levels deeper ends e levels deeper and stays open too. |
| Summary.UnmatchedCloseKept | preprocess.py:92-94 | An unmatched ')' is kept. |
| Summary.UnclosedDropsRest | preprocess.py:87-96 | When the depth never comes back to 0 along the text, the whole text is dropped; so everything after an unmatched '(' is lost. |
| Summary.DropParensAppend | preprocess.py:87-95 | Scanning a concatenation scans the second part at the depth the first part leaves. |
| Summary.RemoveParens | preprocess.py:84-99 | The stack loop, followed by the single pass that turns "  " into " ", computes `remove_matching_parentheses`. |
| Summary.AccumulateBound | preprocess.py:124-129 | Prefixing each word with a space, the accumulated string never exceeds 171 characters, starts with a space and holds no newline. |
| Summary.AccumulatedLine | preprocess.py:119-129 | The words of a one-line string accumulate into at most 171 characters of one line. |
| Summary.CutEndsWithDot | preprocess.py:134-139 | Cutting off the last '.'-fragment leaves a string ending in '.'. |
| Summary.NeverSingleDot | preprocess.py:141-142 | The accumulated string starts with a space, so `string[:-1]` never equals "." and "..." is always appended after a long last fragment. |
| Summary.ShortenShape | preprocess.py:124-143 | The shortened summary is one line of at most 174 characters. It is the no-description text, ends in '.', or ends in "...". |
| Summary.ShortenCases | preprocess.py:130-143 | Case by case: blank accumulated words give the no-description text. Words holding a '.' followed by fewer than 25 characters are cut just after their last '.'. Otherwise "..." is appended. |
| Summary.TruncateCases | preprocess.py:130-143 | The same three cases for any accumulated string that starts with a space. |
| Summary.LastSentence | preprocess.py:133-138 | `split('.')[-1]` is the suffix after the last '.', holds no '.', and there is more than one field iff the string holds a '.'. |
| Summary.GetSummaryShape | preprocess.py:110-145 | The summary is one line of at most 174 characters. Empty text after parenthesis removal gives the no-description text. A one-line text of at most 170 characters is returned as is. |
| Summary.AccumulateWords | preprocess.py:124-129 | The word loop computes the accumulation, stopping before the first word that would pass 170 characters. |
| Summary.ShortenLine | preprocess.py:124-143 | The truncation branch computes the shortened summary. |
| Summary.Summarize | preprocess.py:110-145 | The method computes `get_summary`. |
| OrderedDict.SetFacts | preprocess.py:350 | Assigning a key keeps the dict well formed and sets that key's value without touching any other key's. A new key goes at the end of the order; an existing key keeps its place. |
| OrderedDict.MergeFacts | preprocess.py:462 | `dict(plain_text, **misc)` keeps the section keys first, in order, followed by the misc keys not already present. Misc values win. |
| OrderedDict.SetAllKeys | data/preprocess.py:212 | Assigning a list of keys appends the missing ones, in order. |
| OrderedDict.SetAllValues | data/preprocess.py:212 | Assigned keys take the new values; every other key keeps its old one. |
| Markup.FindInIff | preprocess.py:269-277 | `find_in` is true iff some class matches, contains or starts with the string, as the search type asks. |
| Markup.FindIsFirstInDocumentOrder | preprocess.py:394 | `find` returns the first element with that name in document order (depth-first, parents before children). |
| Markup.ImgAltText | preprocess.py:236-247 | A non-empty alt text comes only from an image whose class starts with `mwe-math-fallback-image`, and such an image with an alt gives that alt. No image, or no alt, gives "". |
| Markup.StringOfFacts | data/preprocess.py:102-114 | `.string` is defined only for a single child: for an element holding one text it is that text, and it passes through an element holding one element. |
| Extract.AddToMiscFacts | preprocess.py:259-264 | The first value of a bucket is stored bare. A later one follows the join string. No other bucket changes, and a new bucket goes last. |
| Extract.Extractor.AddToMiscField | preprocess.py:259-264 | The method updates the misc buckets as `add_to_misc` does and leaves every other field unchanged. |
| Extract.Extractor.AppendToCurrentSection | preprocess.py:354-357 | Appending to the current section's text raises (a missing key) exactly as the dict would. |
| Extract.ChildOpen | preprocess.py:292-413 | While the current heading is a key of the sections, `parse_child` never raises, and sections and buckets only grow; the title never changes. |
| Extract.InnerOpen | preprocess.py:281-285 | The same holds for `parse_childrenof`. |
| Extract.ChildListOpen | preprocess.py:281-285 | The same holds for a list of children. |
| Extract.SkippedLeaveNoTrace | preprocess.py:297-339 | Comments, ignored names, roles and classes, reference and plainlinks sups, and clade tables (405-407) return "" and change no state. |
| Extract.HeadingOpensSection | preprocess.py:348-353 | An h2 makes its text the current heading with an empty section. It clears `read_summary` iff the heading differs from the title, returns "" and leaves the buckets as they were. |
| Extract.SubheadingAppended | preprocess.py:354-357 | The text of an h3 to h6 is appended to the current section and is also returned. |
| Extract.SummaryParagraphTwice | preprocess.py:358-361 | A top-level p read while `read_summary` holds is added to `__summary__` (joined by a space) and also returned. |
| Extract.BucketRouting | preprocess.py:374-392 | quotebox, thumbcaption, gallerytext and infobox divs go to their buckets; an infobox's children are parsed in infobox mode. |
| Extract.QuoteStored | preprocess.py:362-366 | A blockquote at any level returns "". Its text is added to the quotes bucket, bare or after "\n", and appended to the current section; other buckets keep their text. With no current section the store fails; from an open state it never does. |
| Extract.BucketStores | preprocess.py:377-392 | A bucketed element returns "". Its text is stored bare, or after "\n" when the bucket exists; the sections are unchanged. |
| Extract.RowOnOneLine | preprocess.py:367-370 | The output of a tr holds no newline. |
| Extract.InfoboxHeaderPadded | preprocess.py:371-373 | An infobox th returns its text between two spaces. |
| Extract.ScriptsMarked | preprocess.py:396-412 | A non-reference sup gets "^" only when its text (parsed ignoring hrefs, 251-255) is non-empty; a sub always gets "_". |
| Extract.MathFormulaAltText | preprocess.py:393-395 | A math element yields the alt text of its first img, through `get_img_alt_text`, and changes no state. |
| Extract.TopOpen | preprocess.py:456-457 | The top-level loop never raises once the title section exists, and only grows the state. |
| Extract.TopStoreWins | preprocess.py:457 | The store reads the key and its old value before the call: the section becomes the old value plus the returned text, overwriting appends the call made. |
| Extract.TopLevelBlockquoteLost | preprocess.py:362-366 | A top-level blockquote's append to the current section (365) is overwritten by the store; only its `__quotes__` entry remains. |
| Extract.FinishShape | preprocess.py:458-462 | The result keeps the section keys first, then the misc keys not already sections. `__summary__` is always present, defaulting to the no-description text. |
| Extract.ArticleIsFinish | preprocess.py:442-463 | With a title and a content element, parsing succeeds and yields the finished dict of the top-level walk. |
| Extract.ArticleShape | preprocess.py:452-463 | The parsed article is a well-formed dict holding `__summary__` and the title. On a fresh start the title is the first key. |
| Extract.Extractor.constructor | preprocess.py:443-446 | Empty sections and buckets, with `read_summary` true. |
| Extract.Extractor.Finish | preprocess.py:348-392 | The post-processing of a parsed element, such as storing, bucketing or marking, matches the classifier's specification. |
| Extract.Extractor.ParseChild | preprocess.py:292-413 | The method leaves the state, the raised flag and the returned text that the `parse_child` specification gives. |
| Extract.Extractor.ParseChildrenOf | preprocess.py:281-285 | The method concatenates its children's texts as the `parse_childrenof` specification gives. |
| Extract.Extractor.ParseArticle | preprocess.py:442-468 | The method computes the article specification: no result when the heading or the content is missing, the finished dict otherwise. |
| Legacy.StringIsText | data/preprocess.py:122-126 | A defined `.string` is the text of the node's only leaf. |
| Legacy.H1TextFromText | data/preprocess.py:99-104 | The title holds only characters of the heading's text. |
| Legacy.H1TextAllStrings | data/preprocess.py:99-104 | When every child has a string, the title is all the heading's text, in order. |
| Legacy.ParseH1 | data/preprocess.py:99-104 | The loop concatenates the `.string` of each child that has one. |
| Legacy.FirstString | data/preprocess.py:112-114 | It returns the string of some child, and none iff no child has a string. |
| Legacy.HeadlineIsFirstAnswer | data/preprocess.py:107-116 | The first child that answers decides the heading: an mw-headline child with a `.string`, or, failing that, with a child that has one. An mw-headline child with no such string passes on to later children. A non-element child reached before any answer raises. |
| Legacy.HeadlineDefault | data/preprocess.py:107-116 | Without an mw-headline child the heading is "". |
| Legacy.ParseH | data/preprocess.py:107-116 | The loop computes the headline specification. |
| Legacy.HtmlListAppend | data/preprocess.py:130-131 | The text of consecutive children is the concatenation of their texts. |
| Legacy.HtmlFromText | data/preprocess.py:119-141 | `parse_html` output holds only the node's text and the spaces it inserts. |
| Legacy.HtmlListFromText | data/preprocess.py:130-131 | The same holds for a list of children. |
| Legacy.ParseHtml | data/preprocess.py:119-141 | Recursive `parse_html`: a sup, style or caption with a string gives "". Any other node with a string gives the string. A nameless node gives "". An element gives " " + child text for each child. |
| Legacy.StepFacts | data/preprocess.py:166-209 | One child raises exactly when the source would (a heading child without a headline answer). Otherwise sections only gain keys. |
| Legacy.WalkFacts | data/preprocess.py:166-209 | The walk fails iff some child raises; otherwise sections only gain keys. |
| Legacy.IdBypassesClasses | data/preprocess.py:180-184 | An element with an id is routed the same whatever its classes, because of the `elif`. |
| Legacy.BucketRouting | data/preprocess.py:185-207 | Bucketed elements have no id and carry neither hatnote nor navbox. infobox goes to `__infobox__` joined by "". div.thumb goes to `__multimedia__` and div.quotebox to `__quotes__`, joined by "\n". |
| Legacy.BoxTableSkipped | data/preprocess.py:193-200 | A table with a class starting "box" (not an infobox) is skipped. |
| Legacy.RepeatedHeadingResets | data/preprocess.py:172-175 | An h2 opens its section empty: a new heading goes last, a repeated heading keeps its place and loses its text. |
| Legacy.AppendedToCurrent | data/preprocess.py:176-209 | Subheading text and the `parse_html` text of other elements are appended to the current section, with keys unchanged. |
| Legacy.BucketAppends | data/preprocess.py:144-149 | The first value of a bucket is stored bare and later ones follow the join string. The sections are unchanged. |
| Legacy.Start | data/preprocess.py:164-165 | The walk starts with the title as the only, empty, section. |
| Legacy.ArticleShape | data/preprocess.py:152-213 | The result lists the section keys, title first, then the misc keys not already sections. |
| Legacy.ArticleFails | data/preprocess.py:214-217 | Parsing fails iff the heading or the content is missing or not an element, or some child raises. |
| Legacy.ParseArticle | data/preprocess.py:152-217 | The method computes the parse specification. |
| Serialize.SummaryOneLine | preprocess.py:182-183 | The written summary section is a single line. |
| Serialize.BodyHasNoBlankLine | preprocess.py:207-210 | A written section text holds no blank line. |
| Serialize.WriteBody | preprocess.py:181-183 | A section's text is the cleaned value, and for `__summary__` the stripped summary of it. data/preprocess.py:76 has cleanup only. |
| Serialize.XmlSectionText | preprocess.py:176-186 | One section is written as its eight writes give it, tag by tag. |
| Serialize.WriteXmlHeader | preprocess.py:157-168 | The header holds `<document>`, the url block, and the published and updated blocks only for non-empty dates. |
| Serialize.WriteXmlSection | preprocess.py:170-186 | One loop pass writes the title block for the first key only, then the section. |
| Serialize.WriteVirtualXml | preprocess.py:152-187 | The document is the header, one title block with the first key, one section per key in dict order, then `</document>`. |
| Serialize.XmlReadsBack | preprocess.py:148-151 | Read back at newlines, the document gives its tags, each on a line of its own, with the texts between them, and the summary on one line. |
| Serialize.PlainHead | preprocess.py:199-200 | The url followed by the field separator is the url and a blank line. |
| Serialize.WriteSection | preprocess.py:203-210 | One loop pass writes the key between newlines, the separator after the first key only, and the text with a newline. |
| Serialize.WritePlainText | preprocess.py:195-215 | The file is the url, the separator, and the block of each key in dict order (also data/preprocess.py:64-80, without the summary). |
| Serialize.PlainReadsBack | data/preprocess.py:64-76 | The file reads back at newlines as its lines. It begins with the url, two blank lines, the title key and a blank line. |
| Text.SplitFields | crawl-wikipedia-large.py:62 | `split` gives fields free of the separator that join back to the string. |
| Text.SplitLength | crawl-wikipedia-large.py:62 | `split` gives one more field than separators. |
| Text.LastFieldSuffix | data/scrape-wikipedia.py:95 | `split('/')[-1]` is the suffix after the last separator, or the whole string. |
| Text.StripIsTrimmed | preprocess.py:232 | `strip` returns a slice that neither starts nor ends with whitespace. |

## Left out

- Network, files and timing are not modelled: `requests.get`, `open`/`write`/`close`, `time.sleep`, `perror` and `print`. Each fetch or write outcome is an input, and the serializers return the text they would write.
- A failed write in `write_virtual_xml` and `write_plain_text` is not modelled: their `except` branch, the `write_failures` record and the file removal are I/O.
- Threads and processes are not modelled: `threading`, `tlock`, `multiprocess_preprocessing` and `preprocess_files`. Threads run one after another, which the lock makes equivalent for the shared total.
- Download.Downloader.MultithreadedDownload: the failure lists are in frontier order, which is one interleaving of the concurrent appends.
- BeautifulSoup parsing is not modelled. The tree is an input, and the lookups of the canonical link, `firstHeading` and `mw-content-text` are optional inputs.
- `get_article_dates` and `to_epoch_utc` are not modelled (JSON and date libraries). The dates are string parameters of `write_virtual_xml`.
- Several routines are left out because they only do file listing, random deletion, printing, seed reading or argument handling: `remove_redundant_files`, `list_html_files`, `remove_file`, `print_stats`, `print_failures`, `print_plain_text`, `print_startup_info`, `read_seeds`, `write_urls_tofile` and `main`.
- `scrape_article` and `scrape` (data/scrape-wikipedia.py:54-70, 111-113) are left out: they only download and write files, exiting on any failure.
- The float-derived limits (`ceil(article_target * 1.005)`, `round(article_limit * 0.2)`) are integer parameters.
- Crawl.Crawler.BuildCrawlFrontier: `asWritten` chooses the extraction. True follows the scripts as written (Crawl.Crawler.ExtractHrefsAsWritten); false uses the corrected one of the Findings.
- Crawl.Crawler.BuildCrawlFrontier: requires the seeds to number at most the limit (cap before append) or fewer than it (cap after each link). The source has no such check; without it, neither the bound nor termination holds (Crawl.CapAfterOverflow).
- Scrape.Scraper.CrawlFrontier: requires fewer than 5000 seeds, for the same reason (Scrape.CapAfterAppendOvershoot). A failed fetch or a page without content links returns Aborted instead of calling `exit`.
- Crawl.Crawler.ExtractHrefs: reads the page through its list of content links. The `title` lookup is folded into "unparsable".
- Download.Downloader.DownloadArticle: the url and the filename are computed once, not on every attempt; they do not change between attempts.
- Extract.Extractor.ParseArticle: a failure returns no dict, not the 2-tuple `({}, None)` of preprocess.py:468. `parse_failures` is not recorded.
- Legacy.ParseArticle: a failure returns no dict, not `({}, canonical_url)`. The unbound `canonical_url` of data/preprocess.py:217 (a failure before line 159) is not modelled.
- Legacy.ParseArticle: the content must be an element. A text node as `contents[0]` fails.
- Extract.Extractor.constructor: `title` and `curr_heading` start as "" where the source leaves them unbound until `parse_article` assigns them (preprocess.py:452-454). This matters only for the first article a process parses, and only when its firstHeading h1 itself contains an h2. There the source reads the unbound `title` at preprocess.py:351, and the resulting NameError makes the article a parse failure. The model instead compares with "" and goes on. An h3-h6 or blockquote inside such an h1 fails in both, because the model's section "" is missing from the empty section map. Later articles behave alike, since the model keeps the previous title as the globals do.
- Serialize.WritePlainText: values are read through a total lookup standing for `dictionary[key]`.
- Serialize.WriteVirtualXml: requires a well-formed dict, as Python's dict always is.
- Partition.ChunkOfClosed: the products are written with a recursive `Mul` so that the proofs stay linear; `Partition.MulIsProduct` ties it to `*`.
- The `except` of `get_summary` (preprocess.py:144-145) is not modelled: no input reaches it in this model.
- Crawl.CapAfterBound: the link test is a parameter, so the cap lemmas hold for any test, including the ISO_/IEEE_/802./IEC_ one.
- Download.Failures: the name recorded for a failure is a parameter. The large crawler records the url for a request failure and the filename for a write failure.

## Findings

| source | as written | input that shows it | evidently intended | confidence | as-written member | corrected member |
|---|---|---|---|---|---|---|
| crawl-wikipedia-large.py:71-73 | The handler of `expand_frontier` formats the error with `title`, which is still unbound when the content division or the `firstHeading` lookup fails. The resulting error escapes to the retry loop of `extract_hrefs_from_article` (lines 92-95), so an unparsable page costs an attempt and is fetched again. The same holds at crawl-wikipedia.py:92 and data/crawl-wikipedia.py:64. | An unparsable first attempt, then a page linking to /wiki/A, with 3 retries and limit 10. As written the frontier becomes ["/wiki/A"] with success true; as intended it stays [] with success false (Crawl.UnparsableIsRetried). | An unparsable page is reported with success false and is not retried. | not executed | Crawl.Crawler.ExtractHrefsAsWritten | Crawl.Crawler.ExtractHrefs |
