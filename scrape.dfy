// The first-generation scraper (data/scrape-wikipedia.py): the frontier
// holds full URLs, the cap of 5000 is tested right after an append, the
// crawl walks the growing frontier, and each frontier entry becomes an
// Article record naming the file its page is stored in. A failed fetch ends
// the program; so does a page without a content division, through an
// uncaught error.
module Scrape {
  import opened Text
  import opened Crawl

  /** The hard-coded frontier size of the scraper. */
  const ScrapeLimit: nat := 5000

  /** `Article`: where a page comes from and the file it is stored in. */
  datatype Article = Article(url: string, filename: string)

  /** `Article.__str__`: "url : filename" and a newline; url and filename can be read back. */
  function ArticleToString(a: Article): (r: string)
    ensures |r| == |a.url| + |a.filename| + 4
    ensures r[..|a.url|] == a.url && r[|a.url|..|a.url| + 3] == " : "
    ensures r[|a.url| + 3..|r| - 1] == a.filename && r[|r| - 1] == '\n'
  {
    a.url + " : " + a.filename + "\n"
  }

  /** The record `crawl` builds for a frontier entry. */
  function ArticleFor(url: string): (a: Article)
    ensures a.url == url
    ensures |a.filename| >= 5 && a.filename[|a.filename| - 5..] == ".html"
    ensures a.filename[..|a.filename| - 5] == LastField(url, '/')
  {
    Article(url, LastField(url, '/') + ".html")
  }

  /**
   * `expand_frontier` of data/scrape-wikipedia.py: each article link
   * becomes a full URL; URLs already present are skipped, new ones
   * appended, and the scan stops as soon as an append makes the frontier
   * exactly `limit` long. The scraper tests links with
   * IsArticleLinkExcluding; the lemmas below hold for any test.
   */
  function ExpandCapAfterAppend(isLink: string -> bool, f: seq<string>, links: seq<string>, limit: nat): (r: seq<string>)
    decreases |links|
  {
    if links == [] then f
    else if isLink(links[0]) && UrlPrefix + links[0] !in f then
      var f' := f + [UrlPrefix + links[0]];
      if |f'| == limit then f' else ExpandCapAfterAppend(isLink, f', links[1..], limit)
    else ExpandCapAfterAppend(isLink, f, links[1..], limit)
  }

  /** Entering below the limit, the frontier never passes it. */
  lemma {:induction false} CapAfterAppendBound(isLink: string -> bool, f: seq<string>, links: seq<string>, limit: nat)
    requires |f| < limit
    ensures |ExpandCapAfterAppend(isLink, f, links, limit)| <= limit
    decreases |links|
  {
    if links != [] {
      if isLink(links[0]) && UrlPrefix + links[0] !in f {
        if |f| + 1 != limit {
          CapAfterAppendBound(isLink, f + [UrlPrefix + links[0]], links[1..], limit);
        }
      } else {
        CapAfterAppendBound(isLink, f, links[1..], limit);
      }
    }
  }

  /** Entering at the limit, the equality test never fires again and a new link overshoots it. */
  lemma CapAfterAppendOvershoot(isLink: string -> bool, f: seq<string>, h: string)
    requires isLink(h) && UrlPrefix + h !in f
    ensures |ExpandCapAfterAppend(isLink, f, [h], |f|)| == |f| + 1
  {
    assert [h][1..] == [];
  }

  /** A frontier entry the scraper made from an article link of `links`. */
  predicate UrlOfLink(isLink: string -> bool, u: string, links: seq<string>)
  {
    StartsWith(u, UrlPrefix) && u[|UrlPrefix|..] in links && isLink(u[|UrlPrefix|..])
  }

  /**
   * Only new URLs of article links are appended: the old frontier stays a
   * prefix, the appended entries are fresh, and each is the URL of an
   * article link of the page.
   */
  lemma {:induction false} CapAfterAppendAppends(isLink: string -> bool, f: seq<string>, links: seq<string>, limit: nat, from: nat)
    requires from <= |f| && FreshFrom(f, from)
    ensures var f' := ExpandCapAfterAppend(isLink, f, links, limit);
      |f| <= |f'| && f'[..|f|] == f && FreshFrom(f', from)
      && forall j :: |f| <= j < |f'| ==> UrlOfLink(isLink, f'[j], links)
    decreases |links|
  {
    if links != [] {
      var h := links[0];
      if isLink(h) && UrlPrefix + h !in f {
        var g := f + [UrlPrefix + h];
        FreshExtend(f, from, UrlPrefix + h);
        var f' := ExpandCapAfterAppend(isLink, f, links, limit);
        if |g| != limit {
          CapAfterAppendAppends(isLink, g, links[1..], limit, from);
          assert f'[..|g|] == g;
          assert f'[..|f|] == g[..|f|];
        }
        assert f'[..|f|] == f;
        forall j | |f| <= j < |f'|
          ensures UrlOfLink(isLink, f'[j], links)
        {
          if j == |f| {
            assert f'[j] == g[j] == UrlPrefix + h;
            assert (UrlPrefix + h)[..|UrlPrefix|] == UrlPrefix;
            assert (UrlPrefix + h)[|UrlPrefix|..] == h;
          } else {
            assert UrlOfLink(isLink, f'[j], links[1..]);
          }
        }
      } else {
        CapAfterAppendAppends(isLink, f, links[1..], limit, from);
        var f' := ExpandCapAfterAppend(isLink, f, links[1..], limit);
        forall j | |f| <= j < |f'|
          ensures UrlOfLink(isLink, f'[j], links)
        {
          assert UrlOfLink(isLink, f'[j], links[1..]);
        }
      }
    }
  }

  /** When the frontier did not fill up, the URL of every article link on the page is in it. */
  lemma {:induction false} CapAfterAppendComplete(isLink: string -> bool, f: seq<string>, links: seq<string>, limit: nat)
    requires |ExpandCapAfterAppend(isLink, f, links, limit)| != limit
    ensures forall h :: h in links && isLink(h) ==> UrlPrefix + h in ExpandCapAfterAppend(isLink, f, links, limit)
    decreases |links|
  {
    if links != [] {
      var h := links[0];
      var g := if isLink(h) && UrlPrefix + h !in f then f + [UrlPrefix + h] else f;
      assert ExpandCapAfterAppend(isLink, f, links, limit) == ExpandCapAfterAppend(isLink, g, links[1..], limit);
      CapAfterAppendComplete(isLink, g, links[1..], limit);
      CapAfterAppendPrefix(isLink, g, links[1..], limit);
      var f' := ExpandCapAfterAppend(isLink, g, links[1..], limit);
      if isLink(h) {
        var k :| 0 <= k < |g| && g[k] == UrlPrefix + h;
        assert f'[k] == UrlPrefix + h;
      }
    }
  }

  lemma {:induction false} CapAfterAppendPrefix(isLink: string -> bool, f: seq<string>, links: seq<string>, limit: nat)
    ensures var f' := ExpandCapAfterAppend(isLink, f, links, limit); |f| <= |f'| && f'[..|f|] == f
    decreases |links|
  {
    if links != [] {
      var h := links[0];
      var g := if isLink(h) && UrlPrefix + h !in f then f + [UrlPrefix + h] else f;
      if |g| != limit || g == f {
        CapAfterAppendPrefix(isLink, g, links[1..], limit);
        var f' := ExpandCapAfterAppend(isLink, g, links[1..], limit);
        assert f'[..|f|] == f'[..|g|][..|f|];
      }
    }
  }

  /**
   * The walk of `crawl` from entry i on: the URL at entry i is fetched with
   * the outcome web(url); a failed fetch or a page without content links
   * stops the walk at that URL; otherwise the page's links are added, and
   * the walk stops once the frontier holds ScrapeLimit entries or goes on
   * with entry i + 1. It gives the final frontier and the URL that ends the
   * program, if any.
   */
  function ScrapeWalk(f: seq<string>, i: nat, web: string -> Fetch): (seq<string>, Option<string>)
    requires i <= |f| < ScrapeLimit
    decreases ScrapeLimit - i
  {
    if i == |f| then (f, None)
    else
      var fetch := web(f[i]);
      if !(fetch.Fetched? && fetch.page.Links?) then (f, Some(f[i]))
      else
        var f' := ExpandCapAfterAppend(IsArticleLinkExcluding, f, fetch.page.hrefs, ScrapeLimit);
        CapAfterAppendBound(IsArticleLinkExcluding, f, fetch.page.hrefs, ScrapeLimit);
        CapAfterAppendPrefix(IsArticleLinkExcluding, f, fetch.page.hrefs, ScrapeLimit);
        if |f'| == ScrapeLimit then (f', None)
        else ScrapeWalk(f', i + 1, web)
  }

  /**
   * One step of the walk: a failed fetch or a page without content links
   * ends it at entry i; otherwise the frontier grows up to ScrapeLimit, and
   * the walk from entry i is this step followed by the walk from entry
   * i + 1 unless the frontier filled.
   */
  lemma ScrapeStep(f: seq<string>, i: nat, web: string -> Fetch)
    requires i < |f| < ScrapeLimit
    ensures !(web(f[i]).Fetched? && web(f[i]).page.Links?) ==> ScrapeWalk(f, i, web) == (f, Some(f[i]))
    ensures web(f[i]).Fetched? && web(f[i]).page.Links? ==>
      var f' := ExpandCapAfterAppend(IsArticleLinkExcluding, f, web(f[i]).page.hrefs, ScrapeLimit);
      && |f| <= |f'| <= ScrapeLimit
      && ScrapeWalk(f, i, web) == (if |f'| == ScrapeLimit then (f', None) else ScrapeWalk(f', i + 1, web))
  {
    if web(f[i]).Fetched? && web(f[i]).page.Links? {
      CapAfterAppendBound(IsArticleLinkExcluding, f, web(f[i]).page.hrefs, ScrapeLimit);
      CapAfterAppendPrefix(IsArticleLinkExcluding, f, web(f[i]).page.hrefs, ScrapeLimit);
    }
  }

  /**
   * The walk keeps the frontier a prefix-preserving extension with fresh
   * entries from `from` on and at most ScrapeLimit entries, and the URL
   * that ends the program is a frontier entry whose fetch failed or whose
   * page had no content links.
   */
  lemma {:induction false} ScrapeWalkFacts(f: seq<string>, i: nat, web: string -> Fetch, from: nat)
    requires i <= |f| < ScrapeLimit && from <= |f| && FreshFrom(f, from)
    ensures var (r, stop) := ScrapeWalk(f, i, web);
      && |f| <= |r| <= ScrapeLimit && r[..|f|] == f && FreshFrom(r, from)
      && (stop.Some? ==> stop.value in r && !(web(stop.value).Fetched? && web(stop.value).page.Links?))
    decreases ScrapeLimit - i
  {
    if i < |f| {
      ScrapeStep(f, i, web);
      if web(f[i]).Fetched? && web(f[i]).page.Links? {
        var hrefs := web(f[i]).page.hrefs;
        CapAfterAppendAppends(IsArticleLinkExcluding, f, hrefs, ScrapeLimit, from);
        var f' := ExpandCapAfterAppend(IsArticleLinkExcluding, f, hrefs, ScrapeLimit);
        if |f'| != ScrapeLimit {
          ScrapeWalkFacts(f', i + 1, web, from);
          var r := ScrapeWalk(f', i + 1, web).0;
          assert r[..|f|] == r[..|f'|][..|f|];
        }
      }
    }
  }

  /** The page at `url` was fetched with content links, and the URL of each of its article links is in f. */
  predicate PageClosed(url: string, web: string -> Fetch, f: seq<string>)
  {
    && web(url).Fetched? && web(url).page.Links?
    && forall h :: h in web(url).page.hrefs && IsArticleLinkExcluding(h) ==> UrlPrefix + h in f
  }

  /** A frontier that keeps another as its prefix keeps every URL that one holds. */
  lemma PageClosedGrows(url: string, web: string -> Fetch, f: seq<string>, g: seq<string>)
    requires |f| <= |g| && g[..|f|] == f && PageClosed(url, web, f)
    ensures PageClosed(url, web, g)
  {
    forall h | h in web(url).page.hrefs && IsArticleLinkExcluding(h)
      ensures UrlPrefix + h in g
    {
      assert UrlPrefix + h in g[..|f|];
    }
  }

  /**
   * A walk that neither ends the program nor fills the frontier has
   * fetched every entry from i on and left none of their article links out.
   */
  lemma {:induction false} ScrapeWalkClosed(f: seq<string>, i: nat, web: string -> Fetch)
    requires i <= |f| < ScrapeLimit
    ensures var (r, stop) := ScrapeWalk(f, i, web);
      stop.None? && |r| < ScrapeLimit ==> forall j :: i <= j < |r| ==> PageClosed(r[j], web, r)
    decreases ScrapeLimit - i
  {
    if i < |f| {
      ScrapeStep(f, i, web);
      if web(f[i]).Fetched? && web(f[i]).page.Links? {
        var hrefs := web(f[i]).page.hrefs;
        var f' := ExpandCapAfterAppend(IsArticleLinkExcluding, f, hrefs, ScrapeLimit);
        if |f'| != ScrapeLimit {
          var (r, stop) := ScrapeWalk(f', i + 1, web);
          if stop.None? && |r| < ScrapeLimit {
            ScrapeWalkClosed(f', i + 1, web);
            ScrapeWalkFacts(f', i + 1, web, |f'|);
            CapAfterAppendPrefix(IsArticleLinkExcluding, f, hrefs, ScrapeLimit);
            CapAfterAppendComplete(IsArticleLinkExcluding, f, hrefs, ScrapeLimit);
            PageClosedGrows(f[i], web, f', r);
            assert r[i] == f'[i] == f[i];
          }
        }
      }
    }
  }

  /** How `crawl` ends: with the Article list, or by exiting on the page at `url`. */
  datatype CrawlResult = Aborted(url: string) | Crawled(articles: seq<Article>)

  /** The global `crawl_frontier` of the scraper. */
  class Scraper {
    var frontier: seq<string>

    constructor ()
      ensures frontier == []
    {
      frontier := [];
    }

    /** `expand_frontier` on the links of one page. */
    method ExpandFrontier(links: seq<string>)
      modifies this
      ensures frontier == ExpandCapAfterAppend(IsArticleLinkExcluding, old(frontier), links, ScrapeLimit)
    {
      var i := 0;
      while i < |links|
        invariant 0 <= i <= |links|
        invariant ExpandCapAfterAppend(IsArticleLinkExcluding, frontier, links[i..], ScrapeLimit)
               == ExpandCapAfterAppend(IsArticleLinkExcluding, old(frontier), links, ScrapeLimit)
      {
        assert links[i..][1..] == links[i + 1..];
        var href := links[i];
        if IsArticleLinkExcluding(href) {
          var url := UrlPrefix + href;
          if url !in frontier {
            frontier := frontier + [url];
            if |frontier| == ScrapeLimit {
              break;
            }
          }
        }
        i := i + 1;
      }
    }

    /**
     * `crawl`: the seeds become the frontier, which is walked by index while
     * it grows, fetching each URL with the outcome web(url) and stopping
     * once it holds ScrapeLimit entries. A failed fetch or a page without
     * content links ends the program. Otherwise one Article per frontier
     * entry is returned, in frontier order.
     */
    method CrawlFrontier(seeds: seq<string>, web: string -> Fetch) returns (result: CrawlResult)
      requires |seeds| < ScrapeLimit
      modifies this
      ensures var (f, stop) := ScrapeWalk(seeds, 0, web);
        frontier == f && (result.Aborted? <==> stop.Some?) && (result.Aborted? ==> result.url == stop.value)
      ensures |frontier| >= |seeds| && frontier[..|seeds|] == seeds
      ensures FreshFrom(frontier, |seeds|)
      ensures |frontier| <= ScrapeLimit
      ensures result.Aborted? ==> result.url in frontier && !(web(result.url).Fetched? && web(result.url).page.Links?)
      ensures result.Crawled? ==>
        |result.articles| == |frontier| && forall k :: 0 <= k < |frontier| ==> result.articles[k] == ArticleFor(frontier[k])
    {
      frontier := seeds;
      var i := 0;
      while i < |frontier|
        invariant i <= |frontier| < ScrapeLimit
        invariant ScrapeWalk(frontier, i, web) == ScrapeWalk(seeds, 0, web)
        decreases ScrapeLimit - i
      {
        var url := frontier[i];
        var fetch := web(url);
        ScrapeStep(frontier, i, web);
        if !(fetch.Fetched? && fetch.page.Links?) {
          ScrapeWalkFacts(seeds, 0, web, |seeds|);
          return Aborted(url);
        }
        ExpandFrontier(fetch.page.hrefs);
        if |frontier| == ScrapeLimit {
          break;
        }
        i := i + 1;
      }
      ScrapeWalkFacts(seeds, 0, web, |seeds|);
      var articles := BuildArticles(frontier);
      return Crawled(articles);
    }

    /** The second loop of `crawl`: one Article per URL, in order. */
    method BuildArticles(urls: seq<string>) returns (articles: seq<Article>)
      ensures |articles| == |urls| && forall k :: 0 <= k < |urls| ==> articles[k] == ArticleFor(urls[k])
    {
      articles := [];
      var k := 0;
      while k < |urls|
        invariant 0 <= k <= |urls|
        invariant |articles| == k && forall j :: 0 <= j < k ==> articles[j] == ArticleFor(urls[j])
      {
        articles := articles + [ArticleFor(urls[k])];
        k := k + 1;
      }
    }
  }
}
