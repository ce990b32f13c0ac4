# Documentation crawler: a verified Dafny model

This project models the core of a small Python crawler for technical documentation.
Starting from a base URL, the crawler fetches a page and turns it into a document. A
document holds the page's title, its text arranged by headings (split at word boundaries
into chunks of at most 5000 characters, unless a single word is longer) and its code examples. The crawler then follows
the page's links, depth first, within a depth limit and a page budget.

The repository has two copies of the crawler:

- The package crawler (`python/docu_crawler.py`) is built from a checked configuration
  (`python/models.py`). It uses the text extractor in `python/text_extractor.py`.
- The older stand-alone script (`python/web_crawler.py`) is built from three parameters
  and has its own copies of the extractors.

Both are modelled. They differ in three places:

- Which tags end a heading's section: h1–h4 in the package, h1–h6 in the script.
- How a code element's text is taken: the script strips every text node before joining.
- The shape of the stored document: the script keeps the code blocks only in the metadata.

The model is organised in these modules:

- `Strings` (strings.dfy) holds the Python string primitives the code relies on: `split()`,
  `strip()`, `splitlines()`, `join`, `startswith` and `endswith`. Whitespace is the set of
  characters Python's `str.isspace` accepts, and strings are sequences of Unicode scalar values.
- `TextSplit` (text_split.dfy) models `split_text_on_words`. It is a method with the
  source's loop, proved equal to a functional reference. That reference is shown to produce
  the unique greedy packing of the text's words.
- `Extractor` (extractor.dfy) models `extract_text_content` and `extract_code_blocks` over a
  page that is already parsed. Both copies are included. The routines are methods with the
  source's loops. Without headings, the text is proved to hold exactly the main area's
  words. With headings, it holds each heading's words followed by its section's. Text
  outside every heading's section is dropped, as in the source.
- `Models` (models.dfy) models `CrawlerConfig` with its defaults and its validation,
  `CrawledDocument`, `to_dict`, and the dictionary the script stores.
- `Urls` (urls.dfy) models the network location of a URL, `is_valid_url`, which links are
  followed, and how a root-relative link is resolved.
- `CrawlModel` (crawl_model.dfy) is the crawl as a function of a fixed network. It comes with
  the invariants the crawl keeps.
- `Crawler` (crawler.dfy) is the `DocumentationCrawler` class. Its `visited` and `documents`
  fields are updated in place, and each of its methods is proved to leave exactly the state
  that `CrawlModel` computes.
- `Seqs` (seqs.dfy) and `Wrappers` (wrappers.dfy) are small generic helpers.

The network is a parameter. A `Web` value maps every URL that fetches and parses to its
parsed page, and supplies timestamps. Every other URL counts as a failed request.

Three points of the crawl's behaviour are easy to mistake, and the model keeps each as the
code has it:

- **Crawl order.** `crawl_page` recurses depth first, in pre-order, rather than working
  through a breadth-first frontier. A document's depth is the length of the recursion path
  that first reached it, not its shortest link distance from the base URL
  (`CrawlModel.ParentBeforeChildren`).
- **No URL normalisation.** Scheme and host case, fragments and trailing slashes are left as
  written. `is_valid_url` exists but `crawl_page` never calls it, so URLs are compared
  exactly as they are resolved.
- **Page budget.** The limit `max_pages` counts visited URLs, not documents, so failed
  requests use it up too (`CrawlModel.FailedFetchConsumesBudget`).

## Model

| member | source | states |
|---|---|---|
| TextSplit.SplitTextOnWords | python/text_extractor.py:21-61 | A text within the limit comes back unchanged. The loop over words computes exactly SplitText, and the result holds the same words as the input, in order. The script's copy (python/web_crawler.py lines 63-94) is identical. |
| TextSplit.SplitText | python/text_extractor.py:21-61 | Defines the routine: the text itself when within the limit, else the loop's chunks joined by blank lines. Its properties are SplitKeepsWords, SplitIsGreedyPacking and SplitBlank. |
| TextSplit.SplitKeepsWords | python/text_extractor.py:32-61 | Splitting never loses, duplicates, merges or cuts a word. |
| TextSplit.SplitIsGreedyPacking | python/text_extractor.py:35-61 | A text over the limit becomes its chunks joined by blank lines. The chunks form a greedy packing of the words, and that packing is the only one. In a greedy packing each chunk is its words separated by single spaces. A chunk stays within the limit unless it is a single word. No chunk could have taken the next chunk's first word. |
| TextSplit.ChunksArePacking | python/text_extractor.py:41-58 | The chunks the loop produces, including the last, are a greedy packing of the words. |
| TextSplit.PackedInv | python/text_extractor.py:41-54 | After any prefix of the words, the finished chunks and the current chunk hold those words. Each is a valid chunk, and every chunk closed so far fills up to the next word. |
| TextSplit.StepKeepsInv | python/text_extractor.py:43-54 | One turn of the loop keeps the invariant for one more word, in all three branches: extend, close and restart, or a lone over-long word. |
| TextSplit.FinishIsPacking | python/text_extractor.py:56-58 | Appending the last non-empty chunk completes a greedy packing. |
| TextSplit.ChunkTrimmed | python/text_extractor.py:45 | A chunk already has no whitespace at either end, so the strip() the loop applies changes nothing. |
| TextSplit.PackingUnique | python/text_extractor.py:41-58 | Two greedy packings of the same words under the same limit are equal. |
| TextSplit.FirstChunkMaximal | python/text_extractor.py:43-52 | The first chunk takes at least as many words as any run of leading words that fits the limit when joined by single spaces. |
| TextSplit.SplitBlank | python/text_extractor.py:39-61 | Text over the limit that is all whitespace becomes the empty string. |
| Extractor.ExtractTextContent | python/text_extractor.py:64-130 | The result is the split of the assembled page text. With no headings it holds exactly the words of the main area. With headings it holds each heading's words followed by the words of its section. Sections end at h1–h4 here; in the script's copy (python/web_crawler.py lines 96-153) they end at h1–h6, with the limit fixed at 5000. |
| Extractor.PageContent | python/text_extractor.py:87-127 | Defines the text assembled before the split: the stripped non-blank lines of the main area without headings, else the sections joined, or a blank line when there are none. Its properties are NoHeadingsWords, HeadingsWords and PageContentStartsBlank. |
| Extractor.SectionContent | python/text_extractor.py:100-117 | The sibling scan returns the non-blank texts of the siblings before the first stop heading, joined by newlines. |
| Extractor.StrippedStrings | python/text_extractor.py:98 | The non-blank text nodes, each stripped: every piece is non-empty and trimmed, as get_text(strip=True) produces them. |
| Extractor.NonEmptyMembers | python/text_extractor.py:109-114 | Skipping empty texts keeps exactly the non-empty ones. |
| Extractor.FirstStop | python/text_extractor.py:102-105 | The index of the first sibling whose tag ends the section. No sibling before it does, and the sibling at that index does. |
| Extractor.Sections | python/text_extractor.py:119-124 | Every section starts with a blank line and is longer than it. There is at most one section per heading. |
| Extractor.WordsOfSection | python/text_extractor.py:119-124 | A section holds its heading's words, then its content's. |
| Extractor.WordsOfGetText | python/text_extractor.py:89 | Joining the stripped text nodes with a non-empty whitespace separator keeps every word of the text nodes. |
| Extractor.NoHeadingsWords | python/text_extractor.py:87-92 | Without headings, the assembled text holds exactly the words of the main area, in order. This holds through get_text, splitlines, strip and join. |
| Extractor.HeadingsWords | python/text_extractor.py:94-127 | With headings, the assembled text holds each heading's and section's words, heading by heading. |
| Extractor.PageContentStartsBlank | python/text_extractor.py:87-127 | The assembled text always starts with a blank line, even when no section has text. |
| Extractor.FirstStopMonotone | python/web_crawler.py:127 | A larger set of stop tags ends a section no later. |
| Extractor.LegacySectionIsPrefix | python/web_crawler.py:125-137 | Section by section, the script's texts are a prefix of the package's. |
| Extractor.MinorHeadingInSection | python/text_extractor.py:102-105 | An h5 or h6 sibling ends the section in the script. In the package its text is part of the section. |
| Extractor.CodeText | python/text_extractor.py:151 | The text of a code element has no whitespace at either end. |
| Extractor.ExtractCodeBlocks | python/text_extractor.py:133-165 | The result is the blocks of the <pre> elements, then those of the <code> elements outside any <pre>, in document order. Every block is non-empty and trimmed. The same holds for the script's copy (python/web_crawler.py lines 155-174), whose code text is get_text(strip=True). |
| Extractor.CodeBlocks | python/text_extractor.py:145-165 | Defines the blocks: the non-empty <pre> texts, then the non-empty texts of <code> elements outside any <pre>. Its properties are PreBlocksFrom, InlineBlocksFrom, CodeBlocksTrimmed and NestedCodeSkipped. |
| Extractor.PreBlocksFrom | python/text_extractor.py:148-153 | A string is a <pre> block exactly when it is the non-empty text of some <pre> element. |
| Extractor.InlineBlocksFrom | python/text_extractor.py:156-163 | A string is an inline block exactly when it is the non-empty text of some <code> element that has no <pre> ancestor. |
| Extractor.CodeBlocksTrimmed | python/text_extractor.py:145-165 | No block is empty or has whitespace at either end. |
| Extractor.NestedCodeSkipped | python/text_extractor.py:158-159 | <code> elements inside a <pre> add no inline block. |
| Extractor.HighlightedSpacing | python/web_crawler.py:161 | With highlighted tokens separated by whitespace text nodes, the package keeps the whitespace between the tokens. The script runs the tokens together. |
| Strings.Strip | python/text_extractor.py:112 | strip() leaves no whitespace at either end and keeps the words. It changes a trimmed string not at all, and gives the empty string exactly for blank input. |
| Strings.StripIsSlice | python/text_extractor.py:112 | strip() only removes: its result is a slice of its input with nothing but whitespace before and after it. |
| Strings.WordsOfSplitLines | python/text_extractor.py:90 | splitlines() loses no word and merges none. |
| Strings.WordsOfJoin | python/text_extractor.py:91 | Joining pieces with a non-empty whitespace separator keeps their words, in order. |
| Models.Validate | python/models.py:21-32 | A configuration is accepted unchanged exactly when every rule holds: max_depth ≥ 0, max_pages ≥ 1, an http:// or https:// base URL, timeout > 0 and rate_limit_delay ≥ 0. |
| Models.Message | python/models.py:24-32 | The text of the ValueError each check raises; MessagesDistinct shows no two checks share one. |
| Models.MessagesDistinct | python/models.py:24-32 | Distinct checks raise distinct messages, so the message names the rule that failed. |
| Models.FirstFailureDecides | python/models.py:21-32 | The error reported is the first rule broken, in the source's order. |
| Models.NewConfig | python/models.py:10-32 | A configuration that is built carries the given fields unchanged. |
| Models.DefaultsValid | python/models.py:14-19 | With the default values, validation fails only for a base URL without an http or https scheme, and then with the scheme error. |
| Models.ToDict | python/models.py:46-58 | The dictionary has exactly url, title, content, code_blocks and metadata. Its metadata has exactly code_blocks, depth and crawled_at, and both code_blocks entries hold the same list. |
| Models.DictRoundTrip | python/models.py:46-58 | The document can be read back from its dictionary: nothing is lost. |
| Models.ToDictInjective | python/models.py:46-58 | Distinct documents give distinct dictionaries. |
| Models.LegacyDict | python/web_crawler.py:204-213 | The script's dictionary has url, title, content and metadata, with the same metadata as to_dict. |
| Models.LegacyDictRoundTrip | python/web_crawler.py:204-213 | The script's dictionary loses nothing either. |
| Urls.Netloc | python/docu_crawler.py:49 | The network location contains no '/', '?' or '#'. |
| Urls.IsValidUrl | python/docu_crawler.py:59-85 | False off the base domain. False for a skipped extension, whatever the case. Otherwise true exactly when the URL without its anchor is not yet visited. |
| Urls.HasSkippedExtension | python/docu_crawler.py:77 | Defines the extension test: the lower-cased URL, anchor included, ends with one of the seven skipped extensions. Its properties are AnchorHidesExtension and ExtensionIgnoresCase. |
| Urls.StripFragment | python/docu_crawler.py:82-83 | The text before the first '#'. It contains no '#' and is the URL itself when the URL has none. |
| Urls.StripFragmentOfAnchored | python/docu_crawler.py:82-85 | The URL and its anchored forms meet the same visited entry. |
| Urls.AnchorHidesExtension | python/docu_crawler.py:76-83 | The extension test runs before the anchor is removed, and no skipped extension contains '#'. So for every URL without '#' and every anchor, the anchored URL ends with a skipped extension exactly when the anchor does. On the domain and not yet visited, the anchored URL passes exactly when its anchor ends with no skipped extension, whatever the URL itself ends with: "guide.pdf" is skipped, yet "guide.pdf#page" passes. |
| Urls.ExtensionIgnoresCase | python/docu_crawler.py:77 | The extension test gives the same answer for a URL and its lower-cased form. |
| Urls.LinkPrefix | python/docu_crawler.py:136 | The first 20 characters of the page URL, or all of it when shorter. |
| Urls.Follows | python/docu_crawler.py:139 | Defines which links are crawled: those starting with the page URL's first 20 characters or with '/'. Its properties are FollowsExtensions and FollowedAbsoluteLink. |
| Urls.FollowsExtensions | python/docu_crawler.py:136-139 | A link to the page itself, or to anything that extends its URL, is followed. |
| Urls.FollowedAbsoluteLink | python/docu_crawler.py:136-139 | A link not starting with '/' is followed exactly when it agrees with the page URL on the first 20 characters. |
| Urls.JoinRooted | python/docu_crawler.py:141-142 | Against a base whose scheme, lower-cased, is not in urllib's uses_relative list (UsesRelative), the link comes back as written. Otherwise resolving a root-relative link gives a URL that ends with the link. An empty-host link such as "///x" instead ends with the link less its leading "//", which urljoin drops. |
| Urls.RootedLinkKeepsHost | python/docu_crawler.py:141-142 | A link starting with a single '/' resolves to a URL on the base URL's network location. Against a base whose scheme is not relative it stays as written and has no network location. |
| Urls.ProtocolRelativeLinkHost | python/docu_crawler.py:139-142 | A link starting with "//" and naming a network location resolves to that location, so following it can leave the base domain. An empty-host link ("///x") stays on the base's network location when the base's scheme is relative. The exception is a base without a network location whose link path itself starts with "//": urljoin then reads that path as a host too. Against a base whose scheme is not relative, an empty-host link stays as written and has no network location. |
| Urls.NextUrl | python/docu_crawler.py:140-142 | A followed link not starting with '/' is crawled as written. |
| CrawlModel.MakeDocument | python/docu_crawler.py:112-127 | The document carries the page URL and the call's depth. |
| CrawlModel.CrawlPage | python/docu_crawler.py:87-152 | Defines crawl_page. It stops past the depth limit, with the budget spent or on a visited URL. Otherwise it marks the URL visited and stops if the request fails. Otherwise it records the document and crawls the page's links one level deeper. Its properties are StopsWithoutChange, FailedFetchConsumesBudget, ParentBeforeChildren, CrawlPageGrows and CrawlPageKeepsInv; the class method is proved to match it. |
| CrawlModel.CrawlLinks | python/docu_crawler.py:136-144 | Defines the link loop: each followed link, resolved when it starts with '/', is crawled in order from the state the previous one left. Its properties are CrawlLinksStep and CrawlLinksKeepsInv. |
| CrawlModel.Crawl | python/docu_crawler.py:154-164 | Defines crawl: crawl_page on the base URL at depth 0. Its properties are CrawlInv and CrawlFirstDocument. |
| CrawlModel.CrawlLinksStep | python/docu_crawler.py:137-144 | One turn of the link loop: crawl the link if it is followed, then the remaining links. |
| CrawlModel.VisitKeepsInv | python/docu_crawler.py:95-104 | Marking an admitted URL visited keeps the visited set within the budget. No URL is requested twice. |
| CrawlModel.RecordKeepsInv | python/docu_crawler.py:120-129 | A new document is of a visited page that fetched, within the depth limit, and of a URL that has no document yet. |
| CrawlModel.CrawlPageKeepsInv | python/docu_crawler.py:87-152 | A call keeps the crawl invariants and only adds to the state. The visited set equals the requested URLs, nothing is requested twice, and at most max_pages URLs are visited. Every document is of a visited, fetched page within the depth limit, with at most one document per URL. |
| CrawlModel.CrawlLinksKeepsInv | python/docu_crawler.py:136-144 | The link loop keeps the same invariants and only adds to the state. |
| CrawlModel.CrawlInv | python/docu_crawler.py:154-164 | A crawl from a new crawler ends in a state that satisfies the invariants. |
| CrawlModel.DocumentsWithinBudget | python/docu_crawler.py:95-127 | While the invariants hold, there are no more documents than visited URLs, and no more visited URLs than the page budget: documents have distinct, visited URLs. |
| CrawlModel.CrawlDocumentsWithinBudget | python/docu_crawler.py:154-164 | A crawl from a new crawler returns at most max_pages documents, and none when max_pages is not positive. |
| CrawlModel.StopsWithoutChange | python/docu_crawler.py:95-100 | A call past the depth limit, with the budget spent, or on a visited URL changes nothing. |
| CrawlModel.FailedFetchConsumesBudget | python/docu_crawler.py:102-107 | A request that fails still marks the URL visited and records nothing. |
| CrawlModel.FetchedPageCrawlsLinks | python/docu_crawler.py:103-144 | A call on a new URL that fetches marks it visited, appends its document, then crawls its links one level deeper, in that order. |
| CrawlModel.ParentBeforeChildren | python/docu_crawler.py:120-144 | A page that fetches gets its document, at the call's depth, before any page it links to. Documents come in depth-first pre-order. |
| CrawlModel.CrawlPageGrows | python/docu_crawler.py:129 | Documents once recorded stay, in place. |
| CrawlModel.CrawlFirstDocument | python/docu_crawler.py:154-164 | A crawl from a new crawler returns nothing exactly when max_depth < 0, when max_pages < 1 or when the base URL fails. Otherwise its first document is the base URL's, at depth 0. |
| Crawler.DocumentationCrawler.FromConfig | python/docu_crawler.py:36-57 | The crawler takes the configuration's base URL and limits and the base URL's network location. It starts with nothing visited and no documents. |
| Crawler.DocumentationCrawler.FromParameters | python/web_crawler.py:31-42 | The same for the script's crawler, built from its three parameters without any check. |
| Crawler.DocumentationCrawler.WithDefaults | python/web_crawler.py:31-42 | The script's crawler given only a base URL takes its default limits, depth 3 and 200 pages, and starts empty. |
| Crawler.DocumentationCrawler.IsValidUrl | python/web_crawler.py:44-61 | The three cases of is_valid_url, over the crawler's own domain and visited set. |
| Crawler.DocumentationCrawler.CrawlPage | python/docu_crawler.py:87-152 | The in-place crawl of one page, including the recursion into its links, leaves exactly the state of CrawlModel.CrawlPage. The script's crawl_page (python/web_crawler.py lines 176-238) is the same. |
| Crawler.DocumentationCrawler.CrawlLinks | python/docu_crawler.py:133-144 | The loop over a page's links leaves exactly the state of CrawlModel.CrawlLinks. |
| Crawler.DocumentationCrawler.ExtractDocument | python/docu_crawler.py:112-127 | The document of a fetched page: its title, or the URL when it has none, together with its text content and code blocks. |
| Crawler.DocumentationCrawler.Crawl | python/docu_crawler.py:154-164 | Crawling from the base URL at depth 0 returns the document list. From a new crawler, the result keeps the crawl invariants and satisfies CrawlModel.CrawlFirstDocument. The script's crawl (python/web_crawler.py lines 240-245) is the same. |

## Left out

- HTML parsing is not modelled (BeautifulSoup's find, find_all, find_parent, get_text and
  decompose). A page arrives already reduced to the parts the crawler reads. The title
  strings come from the page as parsed, because the title is read before any element is
  removed. The main area (text nodes, and headings with their following siblings), the
  <pre> and <code> elements and the link hrefs are what remains after the text extraction
  has removed the script, style, nav, footer and header elements.
- The choice among main, article and div.content is part of parsing, so the main area is
  given.
- HTTP is not modelled: the session, headers, timeout and raise_for_status. A URL either
  maps to its parsed page in `Web.pages` or counts as a request that failed, whatever the
  exception. The timeout and user agent are carried in the configuration and used nowhere
  else.
- The rate-limit `time.sleep` and all logging are left out; neither affects the state.
- The timestamp from `time.strftime` becomes `Web.clock(n)`, where n is the number of pages
  visited before the page. Its format is not modelled.
- An exception raised after a page's document is appended would end that page's link loop
  early. One example is `urljoin` failing on a malformed link. Another is Python's recursion
  limit: crawl_page recurses once per level, so with max_depth near the default limit of
  1000 frames a nested call raises RecursionError. The caller's `except Exception` catches it
  and abandons its remaining links. In the model neither happens: resolution always
  succeeds and CrawlModel.CrawlPage recurses to any depth. A child's failed request is
  caught in the child's own call, and that is modelled.
- JoinRooted models `urljoin` only for links starting with '/', the only ones resolved.
  Like urljoin, it returns the link unchanged against a base whose lower-cased scheme is
  outside urllib's `uses_relative`. A real run never reaches that case: requests fetches
  only http and https URLs, so such a base URL fails as a request, and the package's
  configuration check admits only http and https base URLs.
  These are its remaining differences from urllib:
  - It does not remove dot segments or lower-case the scheme.
  - It does not treat bases without a network location the way urllib does.
  - It does not drop an empty query `?`, an empty fragment `#` or empty parameters `;`.
  - It does not remove the tabs, carriage returns and line feeds that urlsplit deletes from
    a link.
  - The links "//", "//?..." and "//#..." have an empty host with no path. urljoin falls
    back to the base's path and query for them; the model keeps the link as written.

  Because crawl_page compares URLs exactly, these differences can change the crawl. For
  example, links "/b" and "/b#" on one page resolve to one URL in the source but to two in
  the model, which then fetches and records the page twice.
- Netloc models `urlparse(...).netloc` as the text between a leading "//" (after an optional
  scheme) and the next '/', '?' or '#'. Whitespace stripping and port or IPv6 validation are
  left out.
- Strings are sequences of Unicode scalar values, so a Python string holding a lone
  surrogate code point cannot be represented.
- Urls.Lower: `str.lower()` is modelled for ASCII only. Python lower-cases all of Unicode,
  but every skipped extension is ASCII.
- Models.Validate: `rate_limit_delay` is a real, so the float values a real cannot hold are
  not modelled. Python's `< 0` lets a NaN delay and a delay of +inf through, and rejects
  -inf.
- The type checks of Python's dataclasses do not exist at run time and are not modelled.
- The script's crawler stores plain dictionaries. The class stores `CrawledDocument` values
  for both copies, and `Models.LegacyDict` gives the script's dictionary shape.
- The `code_blocks` list that to_dict shares between two keys is one object in Python. The
  model has two equal values, so aliasing is not modelled.
- Re-crawling with a crawler that is already used is modelled, because `Crawl` starts from
  the current state. The invariants and the first-document property are proved only for a
  new crawler.
- `HEADING_TAGS` in the package crawler is never used. `crawl.py`, the script's `main()` and
  the package's `__init__.py` are command-line and export glue, and are not part of this
  model.
