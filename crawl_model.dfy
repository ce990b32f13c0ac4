/**
 * The crawl as a function of the pages the network returns: the reference
 * that the crawler class is proved to follow, and the invariants it keeps.
 *
 * A call on a URL stops when the depth is past the limit, the page budget is
 * spent or the URL was seen before. Otherwise the URL is marked visited and,
 * when the page fetches, a document is recorded and every followed link is
 * crawled one level deeper, in link order, before the call returns.
 */
module CrawlModel {
  import opened Wrappers
  import opened Seqs
  import opened Strings
  import opened Extractor
  import opened Models
  import opened Urls

  /**
   * A fetched and parsed page, as far as the crawler reads it: the strings of
   * its <title> element if it has one, taken from the page as parsed; then the
   * main content area, the strings of every <pre> and <code> element in
   * document order, and the href of every link, all taken from what remains
   * once the text extraction has removed the script, style, nav, footer and
   * header elements.
   */
  datatype Page = Page(
    title: Option<seq<string>>,
    main: MainContent,
    pres: seq<seq<string>>,
    codes: seq<CodeNode>,
    hrefs: seq<string>)

  /**
   * What the network answers: the pages that fetch with a success status and
   * parse, by URL (every other URL fails and its error is logged), and the
   * timestamp taken after the page fetched when `n` pages were visited before it.
   */
  datatype Web = Web(pages: map<string, Page>, clock: nat -> string)

  /** The crawler's fixed parameters. */
  datatype Setup = Setup(variant: Variant, baseUrl: string, maxDepth: int, maxPages: int)

  /**
   * The crawler's state: the visited set, the documents in the order they were
   * recorded, and the URLs requested from the network in order.
   */
  datatype State = State(visited: set<string>, documents: seq<CrawledDocument>, fetched: seq<string>)

  const Initial := State({}, [], [])

  /** The number of levels still open at `depth`. */
  function Budget(c: Setup, depth: nat): nat {
    if depth > c.maxDepth then 0 else c.maxDepth - depth + 1
  }

  /** The page budget: no more URLs than this are ever visited. */
  function Cap(c: Setup): nat {
    if c.maxPages < 0 then 0 else c.maxPages
  }

  /** The title text, or the URL when the page has no <title> element. */
  function TitleText(page: Page, url: string): string {
    if page.title.Some? then GetText(page.title.value, "") else url
  }

  function MakeDocument(c: Setup, page: Page, url: string, depth: nat, at: string): (d: CrawledDocument)
    ensures d.url == url && d.depth == depth
  {
    CrawledDocument(url, TitleText(page, url),
                    TextContent(page.main, Stops(c.variant), MaxLength),
                    CodeBlocks(page.pres, page.codes, c.variant), depth, at)
  }

  /** Whether a call on `url` at `depth` does anything. */
  predicate Admits(c: Setup, s: State, url: string, depth: nat) {
    depth <= c.maxDepth && |s.visited| < c.maxPages && url !in s.visited
  }

  /** Marking a URL visited, which happens before it is requested. */
  function Visit(s: State, url: string): State {
    State(s.visited + {url}, s.documents, s.fetched + [url])
  }

  /** Recording the document of a page that fetched; `n` is the number of pages visited before it. */
  function Record(c: Setup, w: Web, s: State, url: string, depth: nat, n: nat): State
    requires url in w.pages
  {
    s.(documents := s.documents + [MakeDocument(c, w.pages[url], url, depth, w.clock(n))])
  }

  function CrawlPage(c: Setup, w: Web, url: string, depth: nat, s: State): State
    decreases Budget(c, depth), 0
  {
    if depth > c.maxDepth || |s.visited| >= c.maxPages then s
    else if url in s.visited then s
    else if url !in w.pages then Visit(s, url)
    else
      var s' := Record(c, w, Visit(s, url), url, depth, |s.visited|);
      CrawlLinks(c, w, url, w.pages[url].hrefs, depth + 1, s')
  }

  /** The loop over the links of the page at `url`, whose followed links are crawled at `depth`. */
  function CrawlLinks(c: Setup, w: Web, url: string, hrefs: seq<string>, depth: nat, s: State): State
    decreases Budget(c, depth), |hrefs| + 1
  {
    if hrefs == [] then s
    else
      var s' := if Follows(url, hrefs[0]) then CrawlPage(c, w, NextUrl(c.baseUrl, hrefs[0]), depth, s) else s;
      CrawlLinks(c, w, url, hrefs[1..], depth, s')
  }

  /** One turn of the link loop: the link at `i` is crawled if followed, then the rest. */
  lemma CrawlLinksStep(c: Setup, w: Web, url: string, hrefs: seq<string>, i: nat, depth: nat, s: State)
    requires i < |hrefs|
    ensures CrawlLinks(c, w, url, hrefs[i..], depth, s) ==
            CrawlLinks(c, w, url, hrefs[i + 1..], depth,
                       if Follows(url, hrefs[i]) then CrawlPage(c, w, NextUrl(c.baseUrl, hrefs[i]), depth, s) else s)
  {
    assert hrefs[i..][1..] == hrefs[i + 1..];
  }

  /** A crawl starts at the base URL, at depth 0. */
  function Crawl(c: Setup, w: Web, s: State): State {
    CrawlPage(c, w, c.baseUrl, 0, s)
  }

  // ---------------------------------------------------------------------------
  // Invariants
  // ---------------------------------------------------------------------------

  predicate Distinct<T(==)>(xs: seq<T>) {
    forall i, j :: 0 <= i < j < |xs| ==> xs[i] != xs[j]
  }

  /** The visited set is the set of requested URLs, none requested twice, within the page budget. */
  predicate VisitedOk(c: Setup, s: State) {
    (forall u :: u in s.visited ==> u in s.fetched) &&
    (forall i :: 0 <= i < |s.fetched| ==> s.fetched[i] in s.visited) &&
    Distinct(s.fetched) && |s.visited| == |s.fetched| && |s.visited| <= Cap(c)
  }

  /** Every document is of a visited page that fetched, within the depth limit, and no page has two. */
  predicate DocumentsOk(c: Setup, w: Web, s: State) {
    (forall i :: 0 <= i < |s.documents| ==>
       s.documents[i].url in s.visited && s.documents[i].url in w.pages &&
       0 <= s.documents[i].depth <= c.maxDepth) &&
    (forall i, j :: 0 <= i < j < |s.documents| ==> s.documents[i].url != s.documents[j].url)
  }

  predicate Inv(c: Setup, w: Web, s: State) {
    VisitedOk(c, s) && DocumentsOk(c, w, s)
  }

  /** A later state only adds: visited URLs, documents and requests are kept, in order. */
  predicate Grows(s: State, t: State) {
    s.visited <= t.visited && s.documents <= t.documents && s.fetched <= t.fetched
  }

  lemma GrowsTrans(a: State, b: State, d: State)
    requires Grows(a, b) && Grows(b, d)
    ensures Grows(a, d)
  {
    PrefixTrans(a.documents, b.documents, d.documents);
    PrefixTrans(a.fetched, b.fetched, d.fetched);
  }

  /** Visiting an admitted URL keeps the visited set within the budget and the requests distinct. */
  lemma VisitKeepsInv(c: Setup, w: Web, s: State, url: string, depth: nat)
    requires Inv(c, w, s) && Admits(c, s, url, depth)
    ensures Inv(c, w, Visit(s, url)) && Grows(s, Visit(s, url))
  {
    var t := Visit(s, url);
    assert url !in s.fetched;
    assert |t.visited| == |s.visited| + 1;
    PrefixAppend(s.fetched, [url]);
    forall i, j | 0 <= i < j < |t.fetched|
      ensures t.fetched[i] != t.fetched[j]
    {
      if j == |s.fetched| {
        assert t.fetched[i] == s.fetched[i];
      }
    }
  }

  /** Appending a document of a new, visited, fetched page within the depth limit keeps the documents in order. */
  lemma AppendDocument(c: Setup, w: Web, s: State, d: CrawledDocument)
    requires DocumentsOk(c, w, s)
    requires d.url in s.visited && d.url in w.pages && 0 <= d.depth <= c.maxDepth
    requires forall i :: 0 <= i < |s.documents| ==> s.documents[i].url != d.url
    ensures DocumentsOk(c, w, s.(documents := s.documents + [d]))
  {
  }

  /** Recording the page just visited keeps the documents distinct and within the depth limit. */
  lemma RecordKeepsInv(c: Setup, w: Web, s: State, url: string, depth: nat)
    requires Inv(c, w, s) && Admits(c, s, url, depth) && url in w.pages
    ensures Inv(c, w, Record(c, w, Visit(s, url), url, depth, |s.visited|))
    ensures Grows(s, Record(c, w, Visit(s, url), url, depth, |s.visited|))
  {
    VisitKeepsInv(c, w, s, url, depth);
    var v := Visit(s, url);
    var d := MakeDocument(c, w.pages[url], url, depth, w.clock(|s.visited|));
    AppendDocument(c, w, v, d);
    PrefixAppend(s.documents, [d]);
  }

  lemma {:induction false} CrawlPageKeepsInv(c: Setup, w: Web, url: string, depth: nat, s: State)
    requires Inv(c, w, s)
    ensures Inv(c, w, CrawlPage(c, w, url, depth, s))
    ensures Grows(s, CrawlPage(c, w, url, depth, s))
    decreases Budget(c, depth), 0
  {
    if Admits(c, s, url, depth) {
      if url !in w.pages {
        VisitKeepsInv(c, w, s, url, depth);
      } else {
        RecordKeepsInv(c, w, s, url, depth);
        var s' := Record(c, w, Visit(s, url), url, depth, |s.visited|);
        CrawlLinksKeepsInv(c, w, url, w.pages[url].hrefs, depth + 1, s');
        GrowsTrans(s, s', CrawlLinks(c, w, url, w.pages[url].hrefs, depth + 1, s'));
      }
    }
  }

  lemma {:induction false} CrawlLinksKeepsInv(c: Setup, w: Web, url: string, hrefs: seq<string>, depth: nat, s: State)
    requires Inv(c, w, s)
    ensures Inv(c, w, CrawlLinks(c, w, url, hrefs, depth, s))
    ensures Grows(s, CrawlLinks(c, w, url, hrefs, depth, s))
    decreases Budget(c, depth), |hrefs| + 1
  {
    if hrefs != [] {
      var s' := if Follows(url, hrefs[0]) then CrawlPage(c, w, NextUrl(c.baseUrl, hrefs[0]), depth, s) else s;
      if Follows(url, hrefs[0]) {
        CrawlPageKeepsInv(c, w, NextUrl(c.baseUrl, hrefs[0]), depth, s);
      }
      CrawlLinksKeepsInv(c, w, url, hrefs[1..], depth, s');
      GrowsTrans(s, s', CrawlLinks(c, w, url, hrefs[1..], depth, s'));
    }
  }

  /**
   * From an empty crawler, a crawl visits at most max_pages URLs, requests
   * each at most once, and records at most one document per URL, each of a
   * visited page that fetched, at a depth within the limit.
   */
  lemma CrawlInv(c: Setup, w: Web)
    ensures Inv(c, w, Crawl(c, w, Initial))
  {
    CrawlPageKeepsInv(c, w, c.baseUrl, 0, Initial);
  }

  /** The URLs of a list of documents. */
  function DocumentUrls(docs: seq<CrawledDocument>): (urls: set<string>)
    ensures forall i :: 0 <= i < |docs| ==> docs[i].url in urls
    ensures forall u :: u in urls ==> exists i :: 0 <= i < |docs| && docs[i].url == u
  {
    if docs == [] then {} else DocumentUrls(docs[..|docs| - 1]) + {docs[|docs| - 1].url}
  }

  /** Documents with distinct URLs have as many URLs as documents. */
  lemma {:induction false} DistinctUrlsCount(docs: seq<CrawledDocument>)
    requires forall i, j :: 0 <= i < j < |docs| ==> docs[i].url != docs[j].url
    ensures |DocumentUrls(docs)| == |docs|
  {
    if docs != [] {
      var init := docs[..|docs| - 1];
      DistinctUrlsCount(init);
      assert docs[|docs| - 1].url !in DocumentUrls(init);
    }
  }

  /** While the invariants hold there are at most as many documents as visited URLs, so at most max_pages. */
  lemma DocumentsWithinBudget(c: Setup, w: Web, s: State)
    requires Inv(c, w, s)
    ensures |s.documents| <= |s.visited| <= Cap(c)
  {
    DistinctUrlsCount(s.documents);
    SubsetCount(DocumentUrls(s.documents), s.visited);
  }

  lemma {:induction false} SubsetCount(a: set<string>, b: set<string>)
    requires a <= b
    ensures |a| <= |b|
    decreases |a|
  {
    if a != {} {
      var x :| x in a;
      SubsetCount(a - {x}, b - {x});
    }
  }

  /** A crawl from a new crawler returns at most max_pages documents, and none when max_pages is not positive. */
  lemma CrawlDocumentsWithinBudget(c: Setup, w: Web)
    ensures |Crawl(c, w, Initial).documents| <= Cap(c)
  {
    CrawlInv(c, w);
    DocumentsWithinBudget(c, w, Crawl(c, w, Initial));
  }

  // ---------------------------------------------------------------------------
  // Single calls
  // ---------------------------------------------------------------------------

  /** A call past the depth limit, with the budget spent, or on a visited URL changes nothing. */
  lemma StopsWithoutChange(c: Setup, w: Web, url: string, depth: nat, s: State)
    requires !Admits(c, s, url, depth)
    ensures CrawlPage(c, w, url, depth, s) == s
  {
  }

  /** A request that fails still marks the URL visited, so it counts against the budget and is not retried. */
  lemma FailedFetchConsumesBudget(c: Setup, w: Web, url: string, depth: nat, s: State)
    requires Admits(c, s, url, depth) && url !in w.pages
    ensures CrawlPage(c, w, url, depth, s) == State(s.visited + {url}, s.documents, s.fetched + [url])
  {
  }

  /** A call on a new URL that fetches records its document, then crawls its links one level deeper. */
  lemma FetchedPageCrawlsLinks(c: Setup, w: Web, url: string, depth: nat, s: State)
    requires Admits(c, s, url, depth) && url in w.pages
    ensures CrawlPage(c, w, url, depth, s) ==
            CrawlLinks(c, w, url, w.pages[url].hrefs, depth + 1, Record(c, w, Visit(s, url), url, depth, |s.visited|))
  {
  }

  /**
   * A page that fetches gets its document before any page it links to:
   * documents come in depth-first pre-order.
   */
  lemma {:induction false} ParentBeforeChildren(c: Setup, w: Web, url: string, depth: nat, s: State)
    requires Admits(c, s, url, depth) && url in w.pages
    ensures var r := CrawlPage(c, w, url, depth, s);
            |r.documents| > |s.documents| &&
            r.documents[|s.documents|] == MakeDocument(c, w.pages[url], url, depth, w.clock(|s.visited|))
  {
    var d := MakeDocument(c, w.pages[url], url, depth, w.clock(|s.visited|));
    var s' := Record(c, w, Visit(s, url), url, depth, |s.visited|);
    var r := CrawlLinks(c, w, url, w.pages[url].hrefs, depth + 1, s');
    CrawlLinksGrows(c, w, url, w.pages[url].hrefs, depth + 1, s');
    assert s'.documents[|s.documents|] == d;
  }

  /** The document list only grows: what is recorded stays, in place. */
  lemma {:induction false} CrawlPageGrows(c: Setup, w: Web, url: string, depth: nat, s: State)
    ensures s.documents <= CrawlPage(c, w, url, depth, s).documents
    decreases Budget(c, depth), 0
  {
    if Admits(c, s, url, depth) && url in w.pages {
      var s' := Record(c, w, Visit(s, url), url, depth, |s.visited|);
      PrefixAppend(s.documents, s'.documents[|s.documents|..]);
      assert s.documents <= s'.documents;
      CrawlLinksGrows(c, w, url, w.pages[url].hrefs, depth + 1, s');
      PrefixTrans(s.documents, s'.documents, CrawlLinks(c, w, url, w.pages[url].hrefs, depth + 1, s').documents);
    }
  }

  lemma {:induction false} CrawlLinksGrows(c: Setup, w: Web, url: string, hrefs: seq<string>, depth: nat, s: State)
    ensures s.documents <= CrawlLinks(c, w, url, hrefs, depth, s).documents
    decreases Budget(c, depth), |hrefs| + 1
  {
    if hrefs != [] {
      var s' := if Follows(url, hrefs[0]) then CrawlPage(c, w, NextUrl(c.baseUrl, hrefs[0]), depth, s) else s;
      if Follows(url, hrefs[0]) {
        CrawlPageGrows(c, w, NextUrl(c.baseUrl, hrefs[0]), depth, s);
      }
      CrawlLinksGrows(c, w, url, hrefs[1..], depth, s');
      PrefixTrans(s.documents, s'.documents, CrawlLinks(c, w, url, hrefs[1..], depth, s').documents);
    }
  }

  // ---------------------------------------------------------------------------
  // The whole crawl
  // ---------------------------------------------------------------------------

  /**
   * A crawl from an empty crawler returns no documents exactly when the limits
   * admit nothing or the base URL fails; otherwise its first document is the
   * base URL's, at depth 0.
   */
  lemma CrawlFirstDocument(c: Setup, w: Web)
    ensures var r := Crawl(c, w, Initial);
            (r.documents == [] <==> c.maxDepth < 0 || c.maxPages < 1 || c.baseUrl !in w.pages) &&
            (r.documents != [] ==> r.documents[0].url == c.baseUrl && r.documents[0].depth == 0)
  {
    if Admits(c, Initial, c.baseUrl, 0) && c.baseUrl in w.pages {
      ParentBeforeChildren(c, w, c.baseUrl, 0, Initial);
    }
  }
}
