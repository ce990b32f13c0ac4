/**
 * The DocumentationCrawler object: its visited set and document list are
 * fields that crawl_page updates in place, recursing into the links of each
 * page it records. Each method is proved to leave exactly the state the
 * functional crawl in CrawlModel computes.
 */
module Crawler {
  import opened Seqs
  import opened Strings
  import opened Extractor
  import opened Models
  import opened Urls
  import opened CrawlModel

  class DocumentationCrawler {
    const variant: Variant
    const baseUrl: string
    const maxDepth: int
    const maxPages: int
    const baseDomain: string
    var visited: set<string>
    var documents: seq<CrawledDocument>
    /** The URLs requested from the network, in order. */
    ghost var fetched: seq<string>

    function Params(): Setup {
      Setup(variant, baseUrl, maxDepth, maxPages)
    }

    ghost function State(): CrawlModel.State
      reads this
    {
      CrawlModel.State(visited, documents, fetched)
    }

    /** The crawler of the package, built from a configuration. */
    constructor FromConfig(config: CrawlerConfig)
      ensures Params() == Setup(Documentation, config.baseUrl, config.maxDepth, config.maxPages)
      ensures baseDomain == Netloc(config.baseUrl)
      ensures State() == Initial
    {
      variant := Documentation;
      baseUrl := config.baseUrl;
      maxDepth := config.maxDepth;
      maxPages := config.maxPages;
      baseDomain := Netloc(config.baseUrl);
      visited := {};
      documents := [];
      fetched := [];
    }

    /** The stand-alone crawler, built from its three parameters without any check. */
    constructor FromParameters(baseUrl: string, maxDepth: int, maxPages: int)
      ensures Params() == Setup(Variant.Legacy, baseUrl, maxDepth, maxPages)
      ensures baseDomain == Netloc(baseUrl)
      ensures State() == Initial
    {
      variant := Variant.Legacy;
      this.baseUrl := baseUrl;
      this.maxDepth := maxDepth;
      this.maxPages := maxPages;
      baseDomain := Netloc(baseUrl);
      visited := {};
      documents := [];
      fetched := [];
    }

    /** The stand-alone crawler given only its base URL: depth 3 and 200 pages, its defaults. */
    constructor WithDefaults(baseUrl: string)
      ensures Params() == Setup(Variant.Legacy, baseUrl, DefaultMaxDepth, DefaultMaxPages)
      ensures baseDomain == Netloc(baseUrl)
      ensures State() == Initial
    {
      variant := Variant.Legacy;
      this.baseUrl := baseUrl;
      maxDepth := DefaultMaxDepth;
      maxPages := DefaultMaxPages;
      baseDomain := Netloc(baseUrl);
      visited := {};
      documents := [];
      fetched := [];
    }

    /**
     * Whether a URL should be crawled: false off the base domain, false for a
     * skipped extension, and otherwise true exactly when the URL without its
     * anchor is not yet visited.
     */
    function IsValidUrl(url: string): (r: bool)
      reads this
      ensures Netloc(url) != baseDomain ==> !r
      ensures Netloc(url) == baseDomain && HasSkippedExtension(url) ==> !r
      ensures Netloc(url) == baseDomain && !HasSkippedExtension(url) ==>
                (r <==> StripFragment(url) !in visited)
    {
      Urls.IsValidUrl(baseDomain, visited, url)
    }

    /** Crawls one page and, depth first, every page it links to that is followed. */
    method CrawlPage(w: Web, url: string, depth: nat)
      modifies this
      ensures State() == CrawlModel.CrawlPage(Params(), w, url, depth, old(State()))
      decreases Budget(Params(), depth), 0
    {
      ghost var s := State();
      if depth > maxDepth || |visited| >= maxPages {
        StopsWithoutChange(Params(), w, url, depth, s);
        return;
      }
      if url in visited {
        StopsWithoutChange(Params(), w, url, depth, s);
        return;
      }
      var n := |visited|;
      visited := visited + {url};
      fetched := fetched + [url];
      if url !in w.pages {
        // The request or the parse failed: the error is logged and the call returns.
        FailedFetchConsumesBudget(Params(), w, url, depth, s);
        return;
      }
      var page := w.pages[url];
      var document := ExtractDocument(page, url, depth, w.clock(n));
      documents := documents + [document];
      assert State() == Record(Params(), w, Visit(s, url), url, depth, n);
      FetchedPageCrawlsLinks(Params(), w, url, depth, s);
      CrawlLinks(w, url, page.hrefs, depth + 1);
    }

    /**
     * The loop over the links of the page at `url`: each link that starts with
     * the page URL's first 20 characters, or with '/', is crawled at `depth`,
     * a '/' link once resolved against the base URL.
     */
    method CrawlLinks(w: Web, url: string, links: seq<string>, depth: nat)
      modifies this
      ensures State() == CrawlModel.CrawlLinks(Params(), w, url, links, depth, old(State()))
      decreases Budget(Params(), depth), |links| + 1
    {
      var subString := LinkPrefix(url);
      for i := 0 to |links|
        invariant CrawlModel.CrawlLinks(Params(), w, url, links[i..], depth, State()) ==
                  CrawlModel.CrawlLinks(Params(), w, url, links, depth, old(State()))
      {
        var href := links[i];
        CrawlLinksStep(Params(), w, url, links, i, depth, State());
        if StartsWith(href, subString) || StartsWith(href, "/") {
          var nextUrl := href;
          if StartsWith(nextUrl, "/") {
            nextUrl := JoinRooted(baseUrl, nextUrl);
          }
          CrawlPage(w, nextUrl, depth);
        }
      }
      assert links[|links|..] == [];
    }

    /** The document of a fetched page: its title, its text content and its code blocks. */
    method ExtractDocument(page: Page, url: string, depth: nat, at: string) returns (document: CrawledDocument)
      ensures document == MakeDocument(Params(), page, url, depth, at)
    {
      var title := if page.title.Some? then GetText(page.title.value, "") else url;
      var content := ExtractTextContent(page.main, variant, MaxLength);
      var codeBlocks := ExtractCodeBlocks(page.pres, page.codes, variant);
      document := CrawledDocument(url, title, content, codeBlocks, depth, at);
    }

    /**
     * Crawls from the base URL and returns the document list. From a new
     * crawler the result keeps the crawl invariants, and it is empty or starts
     * with the base URL's document at depth 0.
     */
    method Crawl(w: Web) returns (docs: seq<CrawledDocument>)
      modifies this
      ensures State() == CrawlModel.Crawl(Params(), w, old(State()))
      ensures docs == documents
      ensures old(State()) == Initial ==> Inv(Params(), w, State())
      ensures old(State()) == Initial ==>
                (docs == [] <==> maxDepth < 0 || maxPages < 1 || baseUrl !in w.pages) &&
                (docs != [] ==> docs[0].url == baseUrl && docs[0].depth == 0)
    {
      ghost var start := State();
      CrawlPage(w, baseUrl, 0);
      docs := documents;
      if start == Initial {
        CrawlInv(Params(), w);
        CrawlFirstDocument(Params(), w);
      }
    }
  }
}
