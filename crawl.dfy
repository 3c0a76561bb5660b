// The frontier builder of the crawlers (crawl-wikipedia-large.py,
// crawl-wikipedia.py and data/crawl-wikipedia.py): which hrefs are article
// links, how a fetched page extends the frontier under the article limit,
// the bounded-retry fetch of one page and the work-queue loop over the
// growing frontier. Each HTTP request is an input: the outcome of attempt k
// is given, and a page that was fetched is either unparsable or the list of
// hrefs of its content links.
module Crawl {
  import opened Text

  /** Longest stored filename before the ".html" suffix (crawl-wikipedia-large.py). */
  const FilenameMaxSize: nat := 64
  const DotEscape: string := "__dot__"
  const UrlPrefix: string := "https://en.wikipedia.org"

  /**
   * `canonicalize` of crawl-wikipedia-large.py: cut to FilenameMaxSize
   * characters, then replace a leading '.' by "__dot__", so that no stored
   * file is hidden.
   */
  function CanonicalizeTruncated(name: string): (r: string)
    ensures r == [] || r[0] != '.'
    ensures name != [] ==> r != []
    ensures |r| <= FilenameMaxSize + |DotEscape| - 1
    ensures |name| <= FilenameMaxSize && !StartsWith(name, ".") ==> r == name
    ensures StartsWith(name, ".") ==> StartsWith(r, DotEscape)
  {
    var cut := if |name| <= FilenameMaxSize then name else name[..FilenameMaxSize];
    if StartsWith(cut, ".") then DotEscape + cut[1..] else cut
  }

  /** `canonicalize` of crawl-wikipedia.py: the same escape, without the length cap. */
  function Canonicalize(name: string): (r: string)
    ensures r == [] || r[0] != '.'
    ensures name != [] ==> r != []
    ensures !StartsWith(name, ".") ==> r == name
    ensures StartsWith(name, ".") ==> r == DotEscape + name[1..]
  {
    if StartsWith(name, ".") then DotEscape + name[1..] else name
  }

  /**
   * An article link: starts with "/wiki/", has exactly two '/'-separated
   * tokens once surrounding slashes are stripped, and names no fragment
   * ('#') and no namespace (':').
   */
  predicate IsArticleLink(href: string)
  {
    && StartsWith(href, "/wiki/")
    && |Split(StripChar(href, '/'), '/')| == 2
    && '#' !in href && ':' !in href
  }

  /** The link test of crawl-wikipedia.py and the data/ scripts, which also
      excludes the ISO_, IEEE_, 802. and IEC_ families of articles. */
  predicate IsArticleLinkExcluding(href: string)
  {
    && IsArticleLink(href)
    && !Contains(href, "ISO_") && !Contains(href, "IEEE_")
    && !Contains(href, "802.") && !Contains(href, "IEC_")
  }

  /**
   * The shape of an article link: "/wiki/" followed by one non-empty name,
   * possibly followed by trailing slashes, with no '/', '#' or ':' in the name.
   */
  lemma ArticleLinkShape(t: string)
    ensures IsArticleLink("/wiki/" + t) <==>
              (TrimRight(t, '/') != "" && '/' !in TrimRight(t, '/') && '#' !in t && ':' !in t)
  {
    var href := "/wiki/" + t;
    var u := TrimRight(t, '/');
    assert StartsWith(href, "/wiki/") by {
      assert href[..6] == "/wiki/";
    }
    assert |Split(StripChar(href, '/'), '/')| == 2 <==> u != "" && '/' !in u by {
      StripWikiLink(t);
      WikiLinkFields(u);
    }
    assert ('#' in href <==> '#' in t) && (':' in href <==> ':' in t) by {
      CharsOfWikiLink(t, '#');
      CharsOfWikiLink(t, ':');
    }
  }

  /** "wiki" alone is one field; "wiki/" and a name are two exactly when the name has no '/'. */
  lemma WikiLinkFields(u: string)
    ensures u == "" ==> |Split("wiki", '/')| == 1
    ensures u != "" ==> (|Split("wiki/" + u, '/')| == 2 <==> '/' !in u)
  {
    if u == "" {
      SplitLength("wiki", '/');
      CountZero("wiki", '/');
    } else {
      SplitLength("wiki/" + u, '/');
      CountAppend("wiki/", u, '/');
      CountZero(u, '/');
      WikiSlashCount();
    }
  }

  lemma WikiSlashCount()
    ensures Count("wiki/", '/') == 1
  {
    assert "wiki/"[1..] == "iki/" && "iki/"[1..] == "ki/" && "ki/"[1..] == "i/" && "i/"[1..] == "/";
  }

  lemma StripWikiLink(t: string)
    ensures StripChar("/wiki/" + t, '/') ==
              if TrimRight(t, '/') == "" then "wiki" else "wiki/" + TrimRight(t, '/')
  {
    WikiPrefixLeft(t);
    WikiPrefixRight();
    TrimRightAppend("wiki/", t);
  }

  lemma WikiPrefixLeft(t: string)
    ensures TrimLeft("/wiki/" + t, '/') == "wiki/" + t
  {
    var x := "wiki/" + t;
    assert ("/wiki/" + t)[1..] == x;
    assert x[0] == 'w';
  }

  lemma WikiPrefixRight()
    ensures TrimRight("wiki/", '/') == "wiki"
  {
    assert "wiki/"[..4] == "wiki";
  }

  lemma CharsOfWikiLink(t: string, c: char)
    requires c != '/' && c != 'w' && c != 'i' && c != 'k'
    ensures c in "/wiki/" + t <==> c in t
  {
    var href := "/wiki/" + t;
    if c in href {
      var k :| 0 <= k < |href| && href[k] == c;
      assert k >= 6;
      assert t[k - 6] == c;
    }
    if c in t {
      var k :| 0 <= k < |t| && t[k] == c;
      assert href[k + 6] == c;
    }
  }

  lemma {:induction false} TrimRightAppend(a: string, t: string)
    ensures TrimRight(t, '/') != "" ==> TrimRight(a + t, '/') == a + TrimRight(t, '/')
    ensures TrimRight(t, '/') == "" ==> TrimRight(a + t, '/') == TrimRight(a, '/')
    decreases |t|
  {
    if t != [] && t[|t| - 1] == '/' {
      assert (a + t)[..|a + t| - 1] == a + t[..|t| - 1];
      TrimRightAppend(a, t[..|t| - 1]);
    } else if t == [] {
      assert a + t == a;
    }
  }

  lemma {:induction false} CountAppend(a: string, b: string, c: char)
    ensures Count(a + b, c) == Count(a, c) + Count(b, c)
  {
    if a != [] {
      assert (a + b)[1..] == a[1..] + b;
      CountAppend(a[1..], b, c);
    } else {
      assert a + b == b;
    }
  }

  lemma {:induction false} CountZero(s: string, c: char)
    ensures Count(s, c) == 0 <==> c !in s
  {
    if s != [] {
      CountZero(s[1..], c);
      assert s == [s[0]] + s[1..];
    }
  }

  /** Entries from index `from` on are new: none repeats an earlier entry. */
  ghost predicate FreshFrom(f: seq<string>, from: nat)
  {
    forall j, k :: from <= j < |f| && 0 <= k < j ==> f[k] != f[j]
  }

  /**
   * `expand_frontier` of crawl-wikipedia-large.py: each article link not yet
   * in the frontier is appended, unless the frontier already has `limit`
   * entries, in which case the scan stops and reports that the limit was
   * reached.
   */
  function ExpandCapFirst(f: seq<string>, links: seq<string>, limit: nat): (r: (seq<string>, bool))
    decreases |links|
  {
    if links == [] then (f, false)
    else if IsArticleLink(links[0]) && links[0] !in f then
      if |f| == limit then (f, true)
      else ExpandCapFirst(f + [links[0]], links[1..], limit)
    else ExpandCapFirst(f, links[1..], limit)
  }

  /**
   * `expand_frontier` of crawl-wikipedia.py and data/crawl-wikipedia.py:
   * each article link not yet in the frontier is appended; after every
   * article link, new or not, the scan stops once the frontier has exactly
   * `limit` entries. Both crawlers test links with IsArticleLinkExcluding;
   * the test is a parameter so that the lemmas below hold for any test.
   */
  function ExpandCapAfter(isLink: string -> bool, f: seq<string>, links: seq<string>, limit: nat): (r: (seq<string>, bool))
    decreases |links|
  {
    if links == [] then (f, false)
    else if isLink(links[0]) then
      var f' := if links[0] in f then f else f + [links[0]];
      if |f'| == limit then (f', true)
      else ExpandCapAfter(isLink, f', links[1..], limit)
    else ExpandCapAfter(isLink, f, links[1..], limit)
  }

  /**
   * Checking the cap before appending keeps a frontier that starts at or
   * below the limit at or below it; the limit is reported only when a new
   * article link was refused, and only on a full frontier.
   */
  lemma {:induction false} CapFirstBound(f: seq<string>, links: seq<string>, limit: nat)
    requires |f| <= limit
    ensures |ExpandCapFirst(f, links, limit).0| <= limit
    ensures ExpandCapFirst(f, links, limit).1 ==>
              |ExpandCapFirst(f, links, limit).0| == limit
              && exists h :: h in links && IsArticleLink(h) && h !in ExpandCapFirst(f, links, limit).0
    decreases |links|
  {
    if links != [] {
      if IsArticleLink(links[0]) && links[0] !in f {
        if |f| != limit {
          CapFirstBound(f + [links[0]], links[1..], limit);
        }
      } else {
        CapFirstBound(f, links[1..], limit);
      }
    }
  }

  /**
   * Checking after each article link: a frontier that starts below the
   * limit never passes it, and the limit is reported exactly on a full frontier.
   */
  lemma {:induction false} CapAfterBound(isLink: string -> bool, f: seq<string>, links: seq<string>, limit: nat)
    requires |f| < limit
    ensures |ExpandCapAfter(isLink, f, links, limit).0| <= limit
    ensures ExpandCapAfter(isLink, f, links, limit).1 <==> |ExpandCapAfter(isLink, f, links, limit).0| == limit
    decreases |links|
  {
    if links != [] {
      if isLink(links[0]) {
        var f' := if links[0] in f then f else f + [links[0]];
        if |f'| != limit {
          CapAfterBound(isLink, f', links[1..], limit);
        }
      } else {
        CapAfterBound(isLink, f, links[1..], limit);
      }
    }
  }

  /** Whatever the frontier's size, a reported limit means a full frontier. */
  lemma {:induction false} CapAfterReported(isLink: string -> bool, f: seq<string>, links: seq<string>, limit: nat)
    ensures ExpandCapAfter(isLink, f, links, limit).1 ==> |ExpandCapAfter(isLink, f, links, limit).0| == limit
    decreases |links|
  {
    if links != [] {
      if isLink(links[0]) {
        var f' := if links[0] in f then f else f + [links[0]];
        if |f'| != limit {
          CapAfterReported(isLink, f', links[1..], limit);
        }
      } else {
        CapAfterReported(isLink, f, links[1..], limit);
      }
    }
  }

  /**
   * A frontier that enters full gets one more entry from the first new
   * article link and is then never reported full again: the cap of
   * crawl-wikipedia.py holds only for frontiers that enter below it.
   */
  lemma CapAfterOverflow(isLink: string -> bool, f: seq<string>, h: string)
    requires isLink(h) && h !in f
    ensures ExpandCapAfter(isLink, f, [h], |f|) == (f + [h], false)
  {
  }

  /**
   * Both versions only append: the old frontier stays a prefix, and every
   * appended entry is an article link of the page that was not in the
   * frontier before it.
   */
  lemma {:induction false} CapFirstAppends(f: seq<string>, links: seq<string>, limit: nat)
    ensures var f' := ExpandCapFirst(f, links, limit).0;
      |f| <= |f'| && f'[..|f|] == f
      && forall j :: |f| <= j < |f'| ==> IsArticleLink(f'[j]) && f'[j] in links
    decreases |links|
  {
    if links != [] {
      if IsArticleLink(links[0]) && links[0] !in f {
        if |f| != limit {
          var g := f + [links[0]];
          CapFirstAppends(g, links[1..], limit);
          var f' := ExpandCapFirst(g, links[1..], limit).0;
          assert f'[..|g|] == g;
          assert f'[..|f|] == g[..|f|] == f;
          forall j | |f| <= j < |f'|
            ensures IsArticleLink(f'[j]) && f'[j] in links
          {
            if j == |f| {
              assert f'[j] == g[j] == links[0];
            } else {
              assert f'[j] in links[1..];
            }
          }
        }
      } else {
        CapFirstAppends(f, links[1..], limit);
        var f' := ExpandCapFirst(f, links[1..], limit).0;
        forall j | |f| <= j < |f'|
          ensures f'[j] in links
        {
          assert f'[j] in links[1..];
        }
      }
    }
  }

  /** Appending fresh entries keeps the fresh suffix fresh. */
  lemma FreshExtend(f: seq<string>, from: nat, h: string)
    requires from <= |f| && FreshFrom(f, from) && h !in f
    ensures FreshFrom(f + [h], from)
  {
    var g := f + [h];
    forall j, k | from <= j < |g| && 0 <= k < j
      ensures g[k] != g[j]
    {
      if j == |f| {
        assert g[k] == f[k];
        assert f[k] in f;
      }
    }
  }

  lemma {:induction false} CapAfterAppends(isLink: string -> bool, f: seq<string>, links: seq<string>, limit: nat, from: nat)
    requires from <= |f| && FreshFrom(f, from)
    ensures var f' := ExpandCapAfter(isLink, f, links, limit).0;
      |f| <= |f'| && f'[..|f|] == f && FreshFrom(f', from)
      && forall j :: |f| <= j < |f'| ==> isLink(f'[j]) && f'[j] in links
    decreases |links|
  {
    if links != [] {
      if isLink(links[0]) {
        var g := if links[0] in f then f else f + [links[0]];
        if links[0] !in f {
          FreshExtend(f, from, links[0]);
        }
        var f' := ExpandCapAfter(isLink, f, links, limit).0;
        if |g| != limit {
          CapAfterAppends(isLink, g, links[1..], limit, from);
          assert f'[..|g|] == g;
          assert f'[..|f|] == g[..|f|];
        }
        assert f'[..|f|] == f;
        forall j | |f| <= j < |f'|
          ensures isLink(f'[j]) && f'[j] in links
        {
          if j < |g| {
            assert f'[j] == g[j] == links[0];
          } else {
            assert f'[j] in links[1..];
          }
        }
      } else {
        CapAfterAppends(isLink, f, links[1..], limit, from);
        var f' := ExpandCapAfter(isLink, f, links[1..], limit).0;
        forall j | |f| <= j < |f'|
          ensures f'[j] in links
        {
          assert f'[j] in links[1..];
        }
      }
    }
  }

  /**
   * When the limit was not reached, nothing was left out: every article link
   * of the page is in the frontier afterwards.
   */
  lemma {:induction false} CapFirstComplete(f: seq<string>, links: seq<string>, limit: nat)
    requires !ExpandCapFirst(f, links, limit).1
    ensures forall h :: h in links && IsArticleLink(h) ==> h in ExpandCapFirst(f, links, limit).0
    decreases |links|
  {
    if links != [] {
      var g := if IsArticleLink(links[0]) && links[0] !in f then f + [links[0]] else f;
      assert ExpandCapFirst(f, links, limit) == ExpandCapFirst(g, links[1..], limit);
      CapFirstComplete(g, links[1..], limit);
      CapFirstAppends(g, links[1..], limit);
      KeptEntry(g, ExpandCapFirst(g, links[1..], limit).0, links[0], IsArticleLink(links[0]));
    }
  }

  /** An entry of a prefix is an entry of the whole. */
  lemma KeptEntry(g: seq<string>, f': seq<string>, h: string, cand: bool)
    requires |g| <= |f'| && f'[..|g|] == g
    requires cand ==> h in g
    ensures cand ==> h in f'
  {
    if cand {
      var k :| 0 <= k < |g| && g[k] == h;
      assert f'[k] == h;
    }
  }

  lemma {:induction false} CapAfterComplete(isLink: string -> bool, f: seq<string>, links: seq<string>, limit: nat)
    requires !ExpandCapAfter(isLink, f, links, limit).1
    ensures forall h :: h in links && isLink(h) ==> h in ExpandCapAfter(isLink, f, links, limit).0
    decreases |links|
  {
    if links != [] {
      var g := if isLink(links[0]) && links[0] !in f then f + [links[0]] else f;
      assert ExpandCapAfter(isLink, f, links, limit) == ExpandCapAfter(isLink, g, links[1..], limit);
      CapAfterComplete(isLink, g, links[1..], limit);
      CapAfterPrefix(isLink, g, links[1..], limit);
      KeptEntry(g, ExpandCapAfter(isLink, g, links[1..], limit).0, links[0], isLink(links[0]));
    }
  }

  lemma {:induction false} CapAfterPrefix(isLink: string -> bool, f: seq<string>, links: seq<string>, limit: nat)
    ensures var f' := ExpandCapAfter(isLink, f, links, limit).0; |f| <= |f'| && f'[..|f|] == f
    decreases |links|
  {
    if links != [] {
      var g := if isLink(links[0]) && links[0] !in f then f + [links[0]] else f;
      assert |f| <= |g| && g[..|f|] == f;
      if !isLink(links[0]) || |g| != limit {
        CapAfterPrefix(isLink, g, links[1..], limit);
        PrefixOfPrefix(ExpandCapAfter(isLink, g, links[1..], limit).0, g, f);
      }
    }
  }

  /** A prefix of a prefix is a prefix. */
  lemma PrefixOfPrefix(a: seq<string>, b: seq<string>, c: seq<string>)
    requires |c| <= |b| <= |a| && a[..|b|] == b && b[..|c|] == c
    ensures a[..|c|] == c
  {
    assert a[..|c|] == a[..|b|][..|c|];
  }

  /** Where the crawler checks the article limit. */
  datatype CapPolicy =
    | CapBeforeAppend   // crawl-wikipedia-large.py
    | CapAfterCandidate // crawl-wikipedia.py, data/crawl-wikipedia.py

  function Expand(policy: CapPolicy, f: seq<string>, links: seq<string>, limit: nat): (seq<string>, bool)
  {
    match policy
    case CapBeforeAppend => ExpandCapFirst(f, links, limit)
    case CapAfterCandidate => ExpandCapAfter(IsArticleLinkExcluding, f, links, limit)
  }

  /** The frontier size a policy needs on entry for the limit to hold afterwards. */
  predicate Admissible(policy: CapPolicy, size: nat, limit: nat)
  {
    match policy
    case CapBeforeAppend => size <= limit
    case CapAfterCandidate => size < limit
  }

  /** A fetched page: its content links, or a page whose markup lacks them. */
  datatype Page = Unparsable | Links(hrefs: seq<string>)

  /** One HTTP attempt: a transport error or non-200 status, or a page. */
  datatype Fetch = Failed | Fetched(page: Page)

  /** The first successful attempt among attempts k, ..., retries. */
  function FirstFetched(attempt: nat -> Fetch, k: nat, retries: nat): (r: Option<nat>)
    ensures r.Some? ==> attempt(r.value).Fetched?
    decreases retries + 1 - k
  {
    if k > retries then None
    else if attempt(k).Fetched? then Some(k)
    else FirstFetched(attempt, k + 1, retries)
  }

  /** FirstFetched finds the earliest successful attempt, or reports that all failed. */
  lemma {:induction false} FirstFetchedSpec(attempt: nat -> Fetch, k: nat, retries: nat)
    ensures var r := FirstFetched(attempt, k, retries);
      (r.None? <==> forall j :: k <= j <= retries ==> attempt(j).Failed?)
      && (r.Some? ==> k <= r.value <= retries && attempt(r.value).Fetched?
                      && forall j :: k <= j < r.value ==> attempt(j).Failed?)
    decreases retries + 1 - k
  {
    if k <= retries && attempt(k).Failed? {
      FirstFetchedSpec(attempt, k + 1, retries);
    }
  }

  /** Success and limit flags `expand_frontier` reports for a page. */
  function PageResult(policy: CapPolicy, f: seq<string>, page: Page, limit: nat): (seq<string>, bool, bool)
  {
    match page
    case Unparsable => (f, false, false)
    case Links(hrefs) =>
      var (f', reached) := Expand(policy, f, hrefs, limit);
      (f', reached, true)
  }

  /**
   * What `extract_hrefs_from_article` should leave: the first fetched page
   * decides, and an unparsable page is a failed extraction that is not
   * retried (`expand_frontier` reports success False).
   */
  function ExtractResult(policy: CapPolicy, f: seq<string>, attempt: nat -> Fetch, retries: nat, limit: nat)
    : (seq<string>, bool, bool)
  {
    match FirstFetched(attempt, 0, retries)
    case None => (f, false, false)
    case Some(k) => PageResult(policy, f, attempt(k).page, limit)
  }

  /** The first attempt among k, ..., retries that fetched a parsable page. */
  function FirstParsed(attempt: nat -> Fetch, k: nat, retries: nat): (r: Option<nat>)
    ensures r.Some? ==> attempt(r.value).Fetched? && attempt(r.value).page.Links?
    decreases retries + 1 - k
  {
    if k > retries then None
    else if attempt(k).Fetched? && attempt(k).page.Links? then Some(k)
    else FirstParsed(attempt, k + 1, retries)
  }

  /**
   * What the three crawlers do as written: when the content division or the
   * title heading is missing, the handler in `expand_frontier` reads the
   * still unbound `title`, the resulting error escapes to the retry loop of
   * `extract_hrefs_from_article`, and the page costs one attempt like a
   * failed request.
   */
  function ExtractResultAsWritten(policy: CapPolicy, f: seq<string>, attempt: nat -> Fetch, retries: nat, limit: nat)
    : (seq<string>, bool, bool)
  {
    match FirstParsed(attempt, 0, retries)
    case None => (f, false, false)
    case Some(k) =>
      var (f', reached) := Expand(policy, f, attempt(k).page.hrefs, limit);
      (f', reached, true)
  }

  /** The link test of the crawler that uses a policy. */
  predicate LinkTest(policy: CapPolicy, h: string)
  {
    match policy
    case CapBeforeAppend => IsArticleLink(h)
    case CapAfterCandidate => IsArticleLinkExcluding(h)
  }

  /**
   * The links of the page one extraction expands, if any: the first fetched
   * page when it is parsable, or, as the scripts are written, the first
   * parsable page among the attempts.
   */
  function PageLinks(asWritten: bool, attempt: nat -> Fetch, retries: nat): Option<seq<string>>
  {
    if asWritten then
      match FirstParsed(attempt, 0, retries)
      case None => None
      case Some(k) => Some(attempt(k).page.hrefs)
    else
      match FirstFetched(attempt, 0, retries)
      case None => None
      case Some(k) => if attempt(k).page.Links? then Some(attempt(k).page.hrefs) else None
  }

  /** One visit of the crawl: the frontier, the limit flag and the success flag it leaves. */
  function Visit(policy: CapPolicy, f: seq<string>, links: Option<seq<string>>, limit: nat): (seq<string>, bool, bool)
  {
    match links
    case None => (f, false, false)
    case Some(hrefs) =>
      var (f', reached) := Expand(policy, f, hrefs, limit);
      (f', reached, true)
  }

  /** Both extractions are a visit with the links of the page they expand. */
  lemma ExtractionIsVisit(policy: CapPolicy, f: seq<string>, attempt: nat -> Fetch, retries: nat, limit: nat)
    ensures ExtractResult(policy, f, attempt, retries, limit) == Visit(policy, f, PageLinks(false, attempt, retries), limit)
    ensures ExtractResultAsWritten(policy, f, attempt, retries, limit) == Visit(policy, f, PageLinks(true, attempt, retries), limit)
  {
  }

  /**
   * What one visit does to a frontier that admits it: the frontier only
   * grows at its end with fresh entries and stays within the limit; the
   * limit is reported only on a full frontier; the visit succeeds exactly
   * when a page was parsed; and when no limit is reported, every link of
   * that page that passes the test is in the frontier.
   */
  lemma VisitFacts(policy: CapPolicy, f: seq<string>, links: Option<seq<string>>, limit: nat)
    requires Admissible(policy, |f|, limit)
    ensures var (f', reached, success) := Visit(policy, f, links, limit);
      && |f| <= |f'| && f'[..|f|] == f && (forall from: nat :: from <= |f| && FreshFrom(f, from) ==> FreshFrom(f', from))
      && |f'| <= limit && (reached ==> |f'| == limit) && (!reached ==> Admissible(policy, |f'|, limit))
      && (success <==> links.Some?)
      && (!reached ==> Closed(policy, links, f'))
  {
    match links
    case None =>
    case Some(hrefs) =>
      if policy.CapBeforeAppend? {
        CapFirstBound(f, hrefs, limit);
        CapFirstAppends(f, hrefs, limit);
        forall from: nat | from <= |f| && FreshFrom(f, from)
          ensures FreshFrom(ExpandCapFirst(f, hrefs, limit).0, from)
        {
          CapFirstFresh(f, hrefs, limit, from);
        }
        if !ExpandCapFirst(f, hrefs, limit).1 {
          CapFirstComplete(f, hrefs, limit);
        }
      } else {
        CapAfterBound(IsArticleLinkExcluding, f, hrefs, limit);
        forall from: nat | from <= |f| && FreshFrom(f, from)
          ensures FreshFrom(ExpandCapAfter(IsArticleLinkExcluding, f, hrefs, limit).0, from)
        {
          CapAfterAppends(IsArticleLinkExcluding, f, hrefs, limit, from);
        }
        CapAfterPrefix(IsArticleLinkExcluding, f, hrefs, limit);
        if !ExpandCapAfter(IsArticleLinkExcluding, f, hrefs, limit).1 {
          CapAfterComplete(IsArticleLinkExcluding, f, hrefs, limit);
        }
      }
  }

  /** A visit never shrinks the frontier, and one that reports no limit leaves it admitting another visit. */
  lemma VisitBound(policy: CapPolicy, f: seq<string>, links: Option<seq<string>>, limit: nat)
    requires Admissible(policy, |f|, limit)
    ensures var (f', reached, _) := Visit(policy, f, links, limit);
      |f| <= |f'| && (!reached ==> Admissible(policy, |f'|, limit))
  {
    VisitFacts(policy, f, links, limit);
  }

  /** The links entry j's page gives, for every entry, when entry j is fetched with the attempts web(j). */
  function Pages(asWritten: bool, web: nat -> nat -> Fetch, retries: nat): nat -> Option<seq<string>>
  {
    (j: nat) => PageLinks(asWritten, web(j), retries)
  }

  /**
   * The walk of `build_crawl_frontier` from entry i on, with `parsed`
   * successful visits so far: entry i is visited with the links pages(i)
   * of its page, if one was parsed; the walk stops right after a visit
   * that reports the limit, and otherwise goes on with entry i + 1 of the
   * grown frontier. It gives the final frontier and the number of
   * successful visits. The walk is told in three steps (the end test, the
   * lookup of entry i's page, the visit), so that each step unfolds on its
   * own.
   */
  function Walk(policy: CapPolicy, f: seq<string>, i: nat, parsed: nat,
                pages: nat -> Option<seq<string>>, limit: nat): (seq<string>, nat)
    requires Admissible(policy, |f|, limit) && i <= |f|
    decreases limit - i, 2
  {
    if i == |f| then (f, parsed) else WalkEntry(policy, f, i, parsed, pages, limit)
  }

  /** The walk from entry i on, which starts with the lookup of the links of entry i's page. */
  function WalkEntry(policy: CapPolicy, f: seq<string>, i: nat, parsed: nat,
                     pages: nat -> Option<seq<string>>, limit: nat): (seq<string>, nat)
    requires Admissible(policy, |f|, limit) && i < |f|
    decreases limit - i, 1
  {
    WalkPage(policy, f, i, parsed, pages(i), pages, limit)
  }

  /** The walk from entry i on, which starts with the visit of entry i with the links of its page. */
  function WalkPage(policy: CapPolicy, f: seq<string>, i: nat, parsed: nat, links: Option<seq<string>>,
                    pages: nat -> Option<seq<string>>, limit: nat): (seq<string>, nat)
    requires Admissible(policy, |f|, limit) && i < |f|
    decreases limit - i, 0
  {
    VisitBound(policy, f, links, limit);
    var (f', reached, success) := Visit(policy, f, links, limit);
    var parsed' := if success then parsed + 1 else parsed;
    if reached then (f', parsed')
    else Walk(policy, f', i + 1, parsed', pages, limit)
  }

  /** The outcome of the extraction the crawler runs: as written, or as corrected. */
  function Extraction(asWritten: bool, policy: CapPolicy, f: seq<string>, attempt: nat -> Fetch,
                      retries: nat, limit: nat): (seq<string>, bool, bool)
  {
    if asWritten then ExtractResultAsWritten(policy, f, attempt, retries, limit)
    else ExtractResult(policy, f, attempt, retries, limit)
  }

  /**
   * One step of the walk, seen from the extraction of entry i: the frontier
   * does not shrink and stays within the limit, a reported limit means a
   * full frontier, and the walk from entry i is this step followed by the
   * walk from entry i + 1 unless the limit was reported.
   */
  lemma WalkStep(asWritten: bool, policy: CapPolicy, f: seq<string>, i: nat, parsed: nat,
                 web: nat -> nat -> Fetch, retries: nat, limit: nat)
    requires Admissible(policy, |f|, limit) && i < |f|
    ensures var (f', reached, success) := Extraction(asWritten, policy, f, web(i), retries, limit);
      var parsed' := if success then parsed + 1 else parsed;
      && |f| <= |f'| <= limit && (reached ==> |f'| == limit) && (!reached ==> Admissible(policy, |f'|, limit))
      && Walk(policy, f, i, parsed, Pages(asWritten, web, retries), limit)
         == (if reached then (f', parsed') else Walk(policy, f', i + 1, parsed', Pages(asWritten, web, retries), limit))
  {
    ExtractionIsVisit(policy, f, web(i), retries, limit);
    VisitFacts(policy, f, Pages(asWritten, web, retries)(i), limit);
    WalkUnfold(policy, f, i, parsed, Pages(asWritten, web, retries), limit);
  }

  /**
   * One step of the walk from entry i, told by its outcome: the frontier f'
   * the visit leaves, whether it reported the limit, and the new count of
   * parsed pages. The lemmas about the walk reason from these facts alone.
   */
  lemma WalkStepOutcome(policy: CapPolicy, f: seq<string>, i: nat, parsed: nat,
                        pages: nat -> Option<seq<string>>, limit: nat, from: nat)
    returns (f': seq<string>, reached: bool, parsed': nat)
    requires Admissible(policy, |f|, limit) && i < |f|
    ensures |f| <= |f'| <= limit && f'[..|f|] == f
    ensures parsed <= parsed' <= parsed + 1
    ensures from <= |f| && FreshFrom(f, from) ==> FreshFrom(f', from)
    ensures reached ==> |f'| == limit && Walk(policy, f, i, parsed, pages, limit) == (f', parsed')
    ensures !reached ==> && Admissible(policy, |f'|, limit) && Closed(policy, pages(i), f')
                         && Walk(policy, f, i, parsed, pages, limit) == Walk(policy, f', i + 1, parsed', pages, limit)
  {
    VisitFacts(policy, f, pages(i), limit);
    WalkUnfold(policy, f, i, parsed, pages, limit);
    var (g, r, success) := Visit(policy, f, pages(i), limit);
    f', reached, parsed' := g, r, if success then parsed + 1 else parsed;
  }

  /** The walk never takes the frontier past the limit. */
  lemma {:induction false} WalkWithinLimit(policy: CapPolicy, f: seq<string>, i: nat, parsed: nat,
                                           pages: nat -> Option<seq<string>>, limit: nat)
    requires Admissible(policy, |f|, limit) && i <= |f|
    ensures |Walk(policy, f, i, parsed, pages, limit).0| <= limit
    decreases limit - i
  {
    if i < |f| {
      var f', reached, parsed' := WalkStepOutcome(policy, f, i, parsed, pages, limit, 0);
      if !reached {
        WalkWithinLimit(policy, f', i + 1, parsed', pages, limit);
      }
    }
  }

  /** The walk keeps fresh the entries of the frontier from `from` on. */
  lemma {:induction false} WalkFresh(policy: CapPolicy, f: seq<string>, i: nat, parsed: nat,
                                     pages: nat -> Option<seq<string>>, limit: nat, from: nat)
    requires Admissible(policy, |f|, limit) && i <= |f| && from <= |f| && FreshFrom(f, from)
    ensures FreshFrom(Walk(policy, f, i, parsed, pages, limit).0, from)
    decreases limit - i
  {
    if i < |f| {
      var f', reached, parsed' := WalkStepOutcome(policy, f, i, parsed, pages, limit, from);
      if !reached {
        WalkFresh(policy, f', i + 1, parsed', pages, limit, from);
      }
    }
  }

  /** The walk counts at most one successful visit per entry it visits. */
  lemma {:induction false} WalkCount(policy: CapPolicy, f: seq<string>, i: nat, parsed: nat,
                                     pages: nat -> Option<seq<string>>, limit: nat)
    requires Admissible(policy, |f|, limit) && i <= |f|
    ensures var (r, n) := Walk(policy, f, i, parsed, pages, limit); parsed <= n <= parsed + |r| - i
    decreases limit - i
  {
    if i < |f| {
      var f', reached, parsed' := WalkStepOutcome(policy, f, i, parsed, pages, limit, 0);
      if !reached {
        WalkCount(policy, f', i + 1, parsed', pages, limit);
        WalkGrows(policy, f', i + 1, parsed', pages, limit);
      }
    }
  }

  /**
   * The walk keeps the frontier a prefix-preserving extension within the
   * limit whose entries from `from` on are fresh, and it counts at most one
   * successful visit per entry visited.
   */
  lemma WalkFacts(policy: CapPolicy, f: seq<string>, i: nat, parsed: nat,
                  pages: nat -> Option<seq<string>>, limit: nat, from: nat)
    requires Admissible(policy, |f|, limit) && i <= |f| && from <= |f| && FreshFrom(f, from)
    ensures var (r, n) := Walk(policy, f, i, parsed, pages, limit);
      && |f| <= |r| <= limit && r[..|f|] == f && FreshFrom(r, from)
      && parsed <= n <= parsed + |r| - i
  {
    WalkGrows(policy, f, i, parsed, pages, limit);
    WalkWithinLimit(policy, f, i, parsed, pages, limit);
    WalkFresh(policy, f, i, parsed, pages, limit, from);
    WalkCount(policy, f, i, parsed, pages, limit);
  }

  /** Every link of a parsed page that passes the test is in the frontier. */
  predicate Closed(policy: CapPolicy, links: Option<seq<string>>, f: seq<string>)
  {
    links.Some? ==> forall h {:trigger LinkTest(policy, h)} :: h in links.value && LinkTest(policy, h) ==> h in f
  }

  /** A frontier that keeps another as its prefix keeps every link that one holds. */
  lemma ClosedGrows(policy: CapPolicy, links: Option<seq<string>>, f: seq<string>, g: seq<string>)
    requires |f| <= |g| && g[..|f|] == f && Closed(policy, links, f)
    ensures Closed(policy, links, g)
  {
    if links.Some? {
      forall h | h in links.value && LinkTest(policy, h)
        ensures h in g
      {
        assert h in g[..|f|];
      }
    }
  }

  /** Entry i's page closed in a frontier, and every later page closed in an extension of it, make every page from entry i on closed in that extension. */
  lemma ClosedFrom(policy: CapPolicy, pages: nat -> Option<seq<string>>, i: nat, f: seq<string>, r: seq<string>)
    requires |f| <= |r| && r[..|f|] == f && Closed(policy, pages(i), f)
    requires forall j :: i + 1 <= j < |r| ==> Closed(policy, pages(j), r)
    ensures forall j :: i <= j < |r| ==> Closed(policy, pages(j), r)
  {
    forall j | i <= j < |r|
      ensures Closed(policy, pages(j), r)
    {
      if j == i {
        ClosedGrows(policy, pages(i), f, r);
      }
    }
  }

  /** The walk only grows the frontier at its end. */
  lemma {:induction false} WalkGrows(policy: CapPolicy, f: seq<string>, i: nat, parsed: nat,
                                     pages: nat -> Option<seq<string>>, limit: nat)
    requires Admissible(policy, |f|, limit) && i <= |f|
    ensures var r := Walk(policy, f, i, parsed, pages, limit).0; |f| <= |r| && r[..|f|] == f
    decreases limit - i
  {
    if i < |f| {
      var f', reached, parsed' := WalkStepOutcome(policy, f, i, parsed, pages, limit, 0);
      if !reached {
        WalkGrows(policy, f', i + 1, parsed', pages, limit);
        var r := Walk(policy, f', i + 1, parsed', pages, limit).0;
        assert r[..|f|] == r[..|f'|][..|f|];
      }
    }
  }

  /** The walk from entry i is a visit of entry i followed, unless it reports the limit, by the walk from entry i + 1. */
  lemma WalkUnfold(policy: CapPolicy, f: seq<string>, i: nat, parsed: nat,
                   pages: nat -> Option<seq<string>>, limit: nat)
    requires Admissible(policy, |f|, limit) && i < |f|
    ensures var (f', reached, success) := Visit(policy, f, pages(i), limit);
      && |f| <= |f'| && (!reached ==> Admissible(policy, |f'|, limit))
      && Walk(policy, f, i, parsed, pages, limit)
         == if reached then (f', if success then parsed + 1 else parsed)
            else Walk(policy, f', i + 1, if success then parsed + 1 else parsed, pages, limit)
  {
    VisitBound(policy, f, pages(i), limit);
    assert Walk(policy, f, i, parsed, pages, limit) == WalkEntry(policy, f, i, parsed, pages, limit);
    assert WalkEntry(policy, f, i, parsed, pages, limit) == WalkPage(policy, f, i, parsed, pages(i), pages, limit);
  }

  /**
   * A walk that ends below the limit has visited every entry and left
   * nothing out: every link that passes the test on every page parsed from
   * entry i on is in the final frontier.
   */
  lemma {:induction false} WalkClosed(policy: CapPolicy, f: seq<string>, i: nat, parsed: nat,
                                      pages: nat -> Option<seq<string>>, limit: nat)
    requires Admissible(policy, |f|, limit) && i <= |f|
    ensures var r := Walk(policy, f, i, parsed, pages, limit).0;
      |r| < limit ==> forall j :: i <= j < |r| ==> Closed(policy, pages(j), r)
    decreases limit - i
  {
    if i < |f| {
      var f', reached, parsed' := WalkStepOutcome(policy, f, i, parsed, pages, limit, 0);
      if !reached {
        var r := Walk(policy, f', i + 1, parsed', pages, limit).0;
        if |r| < limit {
          WalkClosed(policy, f', i + 1, parsed', pages, limit);
          WalkGrows(policy, f', i + 1, parsed', pages, limit);
          ClosedFrom(policy, pages, i, f', r);
        }
      }
    }
  }

  /** First attempt: a page without content links; later attempts: a page linking to A. */
  function SampleAttempts(k: nat): Fetch
  {
    if k == 0 then Fetched(Unparsable) else Fetched(Links(["/wiki/A"]))
  }

  /** An unparsable first page followed by a parsable one tells the two apart. */
  lemma UnparsableIsRetried()
    ensures ExtractResultAsWritten(CapAfterCandidate, [], SampleAttempts, 3, 10) == (["/wiki/A"], false, true)
    ensures ExtractResult(CapAfterCandidate, [], SampleAttempts, 3, 10) == ([], false, false)
  {
    SampleParsed();
    SampleExpand();
    assert FirstFetched(SampleAttempts, 0, 3) == Some(0);
  }

  lemma SampleParsed()
    ensures FirstParsed(SampleAttempts, 0, 3) == Some(1)
  {
    assert FirstParsed(SampleAttempts, 1, 3) == Some(1);
  }

  lemma SampleExpand()
    ensures ExpandCapAfter(IsArticleLinkExcluding, [], ["/wiki/A"], 10) == (["/wiki/A"], false)
  {
    SampleLink();
    ExpandOneLink(IsArticleLinkExcluding, [], "/wiki/A", 10);
    assert [] + ["/wiki/A"] == ["/wiki/A"];
  }

  /** The links of the sample walk: the seed's page links to A; no later page is parsed. */
  function SamplePages(j: nat): Option<seq<string>>
  {
    if j == 0 then Some(["/wiki/A"]) else None
  }

  /** The sample walk's first visit: S's page adds A, without reaching the limit. */
  lemma SampleVisit()
    ensures Visit(CapAfterCandidate, ["/wiki/S"], Some(["/wiki/A"]), 10) == (["/wiki/S", "/wiki/A"], false, true)
  {
    SampleExpandAfterSeed();
  }

  lemma SampleExpandAfterSeed()
    ensures ExpandCapAfter(IsArticleLinkExcluding, ["/wiki/S"], ["/wiki/A"], 10) == (["/wiki/S", "/wiki/A"], false)
  {
    SampleLink();
    SampleFresh();
    ExpandAfterSingleSeed(IsArticleLinkExcluding, "/wiki/S", "/wiki/A", 10);
  }

  /** A single seed s gains a different link h that passes the test, short of a limit of three or more. */
  lemma ExpandAfterSingleSeed(isLink: string -> bool, s: string, h: string, limit: nat)
    requires isLink(h) && h != s && limit > 2
    ensures ExpandCapAfter(isLink, [s], [h], limit) == ([s, h], false)
  {
    ExpandOneLink(isLink, [s], h, limit);
    assert [s] + [h] == [s, h];
  }

  lemma SampleFresh()
    ensures "/wiki/A" != "/wiki/S"
  {
    assert "/wiki/A"[6] != "/wiki/S"[6];
  }

  /**
   * A walk goes on into the entries it appends: the seed S gains A from its
   * page, A is then visited in turn, and only S's page counts as parsed.
   */
  lemma SampleWalk()
    ensures Walk(CapAfterCandidate, ["/wiki/S"], 0, 0, SamplePages, 10) == (["/wiki/S", "/wiki/A"], 1)
  {
    var f := ["/wiki/S", "/wiki/A"];
    SampleVisit();
    WalkUnfold(CapAfterCandidate, ["/wiki/S"], 0, 0, SamplePages, 10);
    WalkUnfold(CapAfterCandidate, f, 1, 1, SamplePages, 10);
    assert Walk(CapAfterCandidate, f, 2, 1, SamplePages, 10) == (f, 1);
  }

  /** A frontier without h takes the single link h that passes the test, reaching the limit only if it becomes full. */
  lemma ExpandOneLink(isLink: string -> bool, f: seq<string>, h: string, limit: nat)
    requires isLink(h) && h !in f
    ensures ExpandCapAfter(isLink, f, [h], limit) == (f + [h], |f| + 1 == limit)
  {
    assert [h][1..] == [];
  }

  lemma SampleLink()
    ensures IsArticleLinkExcluding("/wiki/A")
  {
    SampleIsArticleLink();
    SampleOutsideFamilies();
  }

  lemma SampleIsArticleLink()
    ensures IsArticleLink("/wiki/A")
  {
    ArticleLinkShape("A");
    assert "/wiki/" + "A" == "/wiki/A";
    assert TrimRight("A", '/') == "A";
  }

  lemma SampleOutsideFamilies()
    ensures !Contains("/wiki/A", "ISO_") && !Contains("/wiki/A", "IEEE_")
    ensures !Contains("/wiki/A", "802.") && !Contains("/wiki/A", "IEC_")
  {
    FirstCharAbsent("/wiki/A", "ISO_");
    FirstCharAbsent("/wiki/A", "IEEE_");
    FirstCharAbsent("/wiki/A", "802.");
    FirstCharAbsent("/wiki/A", "IEC_");
  }

  lemma {:induction false} FirstCharAbsent(s: string, p: string)
    requires p != [] && p[0] !in s
    ensures !Contains(s, p)
  {
    if s != [] {
      FirstCharAbsent(s[1..], p);
    }
  }

  /** The global `crawl_frontier` of the crawler scripts. */
  class Crawler {
    var frontier: seq<string>

    constructor (seeds: seq<string>)
      ensures frontier == seeds
    {
      frontier := seeds;
    }

    /** `expand_frontier` of crawl-wikipedia-large.py on one parsed page. */
    method ExpandFrontierCapFirst(links: seq<string>, limit: nat) returns (limitReached: bool)
      modifies this
      ensures (frontier, limitReached) == ExpandCapFirst(old(frontier), links, limit)
    {
      limitReached := false;
      var i := 0;
      while i < |links|
        invariant 0 <= i <= |links|
        invariant ExpandCapFirst(frontier, links[i..], limit) == ExpandCapFirst(old(frontier), links, limit)
      {
        assert links[i..][1..] == links[i + 1..];
        var href := links[i];
        if IsArticleLink(href) {
          if href !in frontier {
            if |frontier| == limit {
              limitReached := true;
              break;
            }
            frontier := frontier + [href];
          }
        }
        i := i + 1;
      }
    }

    /** `expand_frontier` of crawl-wikipedia.py and data/crawl-wikipedia.py on one parsed page. */
    method ExpandFrontierCapAfter(links: seq<string>, limit: nat) returns (limitReached: bool)
      modifies this
      ensures (frontier, limitReached) == ExpandCapAfter(IsArticleLinkExcluding, old(frontier), links, limit)
    {
      limitReached := false;
      var i := 0;
      while i < |links|
        invariant 0 <= i <= |links|
        invariant ExpandCapAfter(IsArticleLinkExcluding, frontier, links[i..], limit) == ExpandCapAfter(IsArticleLinkExcluding, old(frontier), links, limit)
      {
        assert links[i..][1..] == links[i + 1..];
        var href := links[i];
        if IsArticleLinkExcluding(href) {
          if href !in frontier {
            frontier := frontier + [href];
          }
          if |frontier| == limit {
            limitReached := true;
            break;
          }
        }
        i := i + 1;
      }
    }

    /**
     * `extract_hrefs_from_article`: at most retries + 1 attempts; the first
     * fetched page is handed to `expand_frontier` and ends the loop. When
     * every attempt fails the frontier is unchanged and both flags are false.
     */
    method ExtractHrefs(policy: CapPolicy, attempt: nat -> Fetch, retries: nat, limit: nat)
      returns (limitReached: bool, success: bool)
      modifies this
      ensures (frontier, limitReached, success) == ExtractResult(policy, old(frontier), attempt, retries, limit)
    {
      var downloadAttempts := 0;
      limitReached, success := false, false;
      while downloadAttempts <= retries
        invariant downloadAttempts <= retries + 1
        invariant FirstFetched(attempt, downloadAttempts, retries) == FirstFetched(attempt, 0, retries)
        invariant frontier == old(frontier) && !limitReached && !success
        decreases retries + 1 - downloadAttempts
      {
        if attempt(downloadAttempts).Failed? {
          downloadAttempts := downloadAttempts + 1;
        } else {
          var page := attempt(downloadAttempts).page;
          if page.Links? {
            if policy.CapBeforeAppend? {
              limitReached := ExpandFrontierCapFirst(page.hrefs, limit);
            } else {
              limitReached := ExpandFrontierCapAfter(page.hrefs, limit);
            }
            success := true;
          }
          break;
        }
      }
    }

    /** `extract_hrefs_from_article` as written: an unparsable page costs an attempt. */
    method ExtractHrefsAsWritten(policy: CapPolicy, attempt: nat -> Fetch, retries: nat, limit: nat)
      returns (limitReached: bool, success: bool)
      modifies this
      ensures (frontier, limitReached, success) == ExtractResultAsWritten(policy, old(frontier), attempt, retries, limit)
    {
      var downloadAttempts := 0;
      limitReached, success := false, false;
      while downloadAttempts <= retries
        invariant downloadAttempts <= retries + 1
        invariant FirstParsed(attempt, downloadAttempts, retries) == FirstParsed(attempt, 0, retries)
        invariant frontier == old(frontier) && !limitReached && !success
        decreases retries + 1 - downloadAttempts
      {
        if attempt(downloadAttempts).Fetched? && attempt(downloadAttempts).page.Links? {
          var hrefs := attempt(downloadAttempts).page.hrefs;
          if policy.CapBeforeAppend? {
            limitReached := ExpandFrontierCapFirst(hrefs, limit);
          } else {
            limitReached := ExpandFrontierCapAfter(hrefs, limit);
          }
          success := true;
          break;
        }
        downloadAttempts := downloadAttempts + 1;
      }
    }

    /**
     * One pass of the loop of `build_crawl_frontier`: the extraction of
     * entry i, as written or as corrected, and the count of parsed pages,
     * which grows by one when the extraction succeeds, make one step of the
     * walk.
     */
    method VisitEntry(asWritten: bool, policy: CapPolicy, i: nat, parsed: nat,
                      web: nat -> nat -> Fetch, retries: nat, limit: nat)
      returns (limitReached: bool, parsed': nat)
      requires Admissible(policy, |frontier|, limit) && i < |frontier|
      modifies this
      ensures |old(frontier)| <= |frontier| <= limit
      ensures limitReached ==> |frontier| == limit
      ensures !limitReached ==> Admissible(policy, |frontier|, limit)
      ensures parsed <= parsed' <= parsed + 1
      ensures Walk(policy, old(frontier), i, parsed, Pages(asWritten, web, retries), limit)
        == if limitReached then (frontier, parsed')
           else Walk(policy, frontier, i + 1, parsed', Pages(asWritten, web, retries), limit)
    {
      var success;
      if asWritten {
        limitReached, success := ExtractHrefsAsWritten(policy, web(i), retries, limit);
      } else {
        limitReached, success := ExtractHrefs(policy, web(i), retries, limit);
      }
      parsed' := if success then parsed + 1 else parsed;
      WalkStep(asWritten, policy, old(frontier), i, parsed, web, retries, limit);
    }

    /**
     * `build_crawl_frontier`: the seeds become the frontier, which is then
     * walked by index while it grows; entry i is fetched with the attempt
     * outcomes web(i), by the extraction as written or as corrected. The
     * walk ends after the last entry or right after a page reports the
     * limit. The result is the walk `Walk` describes; besides, the seeds
     * stay a prefix, every later entry is new, the frontier stays within
     * the limit, and the pages counted as parsed are among the entries
     * visited.
     */
    method BuildCrawlFrontier(asWritten: bool, policy: CapPolicy, seeds: seq<string>, web: nat -> nat -> Fetch,
                              retries: nat, limit: nat)
      returns (result: seq<string>, webpagesParsed: nat, ghost visited: nat)
      requires Admissible(policy, |seeds|, limit)
      modifies this
      ensures result == frontier
      ensures (result, webpagesParsed) == Walk(policy, seeds, 0, 0, Pages(asWritten, web, retries), limit)
      ensures |result| >= |seeds| && result[..|seeds|] == seeds
      ensures FreshFrom(result, |seeds|)
      ensures |result| <= limit
      ensures webpagesParsed <= visited <= |result|
      ensures visited < |result| ==> |result| == limit
    {
      frontier := seeds;
      webpagesParsed := 0;
      ghost var goal := Walk(policy, seeds, 0, 0, Pages(asWritten, web, retries), limit);
      var i := 0;
      visited := 0;
      while i < |frontier|
        invariant visited == i <= |frontier| <= limit
        invariant Admissible(policy, |frontier|, limit)
        invariant webpagesParsed <= i
        invariant Walk(policy, frontier, i, webpagesParsed, Pages(asWritten, web, retries), limit) == goal
        decreases limit - i
      {
        var limitReached;
        limitReached, webpagesParsed := VisitEntry(asWritten, policy, i, webpagesParsed, web, retries, limit);
        visited := visited + 1;
        if limitReached {
          break;
        }
        i := i + 1;
      }
      result := frontier;
      WalkFacts(policy, seeds, 0, 0, Pages(asWritten, web, retries), limit, |seeds|);
    }
  }

  lemma {:induction false} CapFirstFresh(f: seq<string>, links: seq<string>, limit: nat, from: nat)
    requires from <= |f| && FreshFrom(f, from)
    ensures FreshFrom(ExpandCapFirst(f, links, limit).0, from)
    decreases |links|
  {
    if links != [] {
      if IsArticleLink(links[0]) && links[0] !in f {
        if |f| != limit {
          FreshExtend(f, from, links[0]);
          CapFirstFresh(f + [links[0]], links[1..], limit, from);
        }
      } else {
        CapFirstFresh(f, links[1..], limit, from);
      }
    }
  }
}
