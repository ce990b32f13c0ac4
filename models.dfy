/**
 * The crawler's two records: the configuration, checked when it is built,
 * and the crawled document with its dictionary form.
 */
module Models {
  import opened Wrappers
  import opened Strings

  // ---------------------------------------------------------------------------
  // CrawlerConfig
  // ---------------------------------------------------------------------------

  /** The crawl parameters; the delay is the only floating-point field and is kept as a real. */
  datatype CrawlerConfig = CrawlerConfig(
    baseUrl: string,
    maxDepth: int,
    maxPages: int,
    timeout: int,
    rateLimitDelay: real,
    userAgent: string)

  const DefaultMaxDepth := 3
  const DefaultMaxPages := 200
  const DefaultTimeout := 10
  const DefaultRateLimitDelay := 0.5
  const DefaultUserAgent := "Mozilla/5.0 (Windows NT 10.0; Win64; x64) AppleWebKit/537.36"

  /** One constructor per check, in the order the checks run. */
  datatype ConfigError =
    | NegativeMaxDepth
    | TooFewPages
    | BadScheme
    | NonPositiveTimeout
    | NegativeRateLimitDelay

  /** The text of the ValueError each check raises. */
  function Message(e: ConfigError): (m: string)
    ensures m != []
  {
    match e
    case NegativeMaxDepth => "max_depth must be non-negative"
    case TooFewPages => "max_pages must be at least 1"
    case BadScheme => "base_url must start with http:// or https://"
    case NonPositiveTimeout => "timeout must be positive"
    case NegativeRateLimitDelay => "rate_limit_delay must be non-negative"
  }

  /** Each check raises its own message, so the message names the rule that failed. */
  lemma MessagesDistinct(e: ConfigError, e': ConfigError)
    ensures Message(e) == Message(e') ==> e == e'
  {
  }

  /** The position of a check in the validation sequence. */
  function Rank(e: ConfigError): nat {
    match e
    case NegativeMaxDepth => 0
    case TooFewPages => 1
    case BadScheme => 2
    case NonPositiveTimeout => 3
    case NegativeRateLimitDelay => 4
  }

  predicate HasHttpScheme(url: string) {
    StartsWith(url, "http://") || StartsWith(url, "https://")
  }

  /** Whether the configuration breaks the rule that error `e` reports. */
  predicate Violates(c: CrawlerConfig, e: ConfigError) {
    match e
    case NegativeMaxDepth => c.maxDepth < 0
    case TooFewPages => c.maxPages < 1
    case BadScheme => !HasHttpScheme(c.baseUrl)
    case NonPositiveTimeout => c.timeout <= 0
    case NegativeRateLimitDelay => c.rateLimitDelay < 0.0
  }

  /** Every rule holds. */
  predicate ValidConfig(c: CrawlerConfig) {
    c.maxDepth >= 0 && c.maxPages >= 1 && HasHttpScheme(c.baseUrl) &&
    c.timeout > 0 && c.rateLimitDelay >= 0.0
  }

  /**
   * The post-initialisation check: the configuration is accepted unchanged,
   * or the first check that fails names the error.
   */
  function Validate(c: CrawlerConfig): (r: Result<CrawlerConfig, ConfigError>)
    ensures r.Success? <==> ValidConfig(c)
    ensures r.Success? ==> r.value == c
  {
    if c.maxDepth < 0 then Failure(NegativeMaxDepth)
    else if c.maxPages < 1 then Failure(TooFewPages)
    else if !HasHttpScheme(c.baseUrl) then Failure(BadScheme)
    else if c.timeout <= 0 then Failure(NonPositiveTimeout)
    else if c.rateLimitDelay < 0.0 then Failure(NegativeRateLimitDelay)
    else Success(c)
  }

  /** Building a configuration runs the check: a value exists only when every rule holds. */
  function NewConfig(baseUrl: string, maxDepth: int, maxPages: int, timeout: int,
                     rateLimitDelay: real, userAgent: string): (r: Result<CrawlerConfig, ConfigError>)
    ensures r.Success? ==> r.value.baseUrl == baseUrl && r.value.maxDepth == maxDepth &&
                           r.value.maxPages == maxPages && r.value.timeout == timeout &&
                           r.value.rateLimitDelay == rateLimitDelay && r.value.userAgent == userAgent
  {
    Validate(CrawlerConfig(baseUrl, maxDepth, maxPages, timeout, rateLimitDelay, userAgent))
  }

  /** A configuration given only its base URL: every other field takes its default. */
  function DefaultConfig(baseUrl: string): (r: Result<CrawlerConfig, ConfigError>) {
    NewConfig(baseUrl, DefaultMaxDepth, DefaultMaxPages, DefaultTimeout,
              DefaultRateLimitDelay, DefaultUserAgent)
  }

  /** The reported error is a rule the configuration breaks, and every earlier rule holds. */
  lemma FirstFailureDecides(c: CrawlerConfig, e: ConfigError)
    ensures Validate(c) == Failure(e) <==>
            Violates(c, e) && forall e': ConfigError :: Rank(e') < Rank(e) ==> !Violates(c, e')
  {
    if Violates(c, e) && forall e': ConfigError :: Rank(e') < Rank(e) ==> !Violates(c, e') {
      match e
      case NegativeMaxDepth =>
      case TooFewPages =>
        assert !Violates(c, NegativeMaxDepth);
      case BadScheme =>
        assert !Violates(c, NegativeMaxDepth) && !Violates(c, TooFewPages);
      case NonPositiveTimeout =>
        assert !Violates(c, NegativeMaxDepth) && !Violates(c, TooFewPages) && !Violates(c, BadScheme);
      case NegativeRateLimitDelay =>
        assert !Violates(c, NegativeMaxDepth) && !Violates(c, TooFewPages) && !Violates(c, BadScheme);
        assert !Violates(c, NonPositiveTimeout);
    }
  }

  /** The defaults pass every numeric check: only the base URL can make them fail, and then with BadScheme. */
  lemma DefaultsValid(baseUrl: string)
    ensures DefaultConfig(baseUrl).Success? <==> HasHttpScheme(baseUrl)
    ensures !HasHttpScheme(baseUrl) ==> DefaultConfig(baseUrl) == Failure(BadScheme)
  {
  }

  // ---------------------------------------------------------------------------
  // CrawledDocument
  // ---------------------------------------------------------------------------

  datatype CrawledDocument = CrawledDocument(
    url: string,
    title: string,
    content: string,
    codeBlocks: seq<string>,
    depth: int,
    crawledAt: string)

  /** The JSON-like values a document dictionary is made of. */
  datatype Value =
    | Str(s: string)
    | Int(n: int)
    | List(items: seq<Value>)
    | Object(fields: map<string, Value>)

  function StrList(xs: seq<string>): (v: Value)
    ensures v.List? && |v.items| == |xs|
    ensures forall i :: 0 <= i < |xs| ==> v.items[i] == Str(xs[i])
  {
    List(seq(|xs|, i requires 0 <= i < |xs| => Str(xs[i])))
  }

  /** The strings of a list of string values, or None when an item is not a string. */
  function AsStrings(items: seq<Value>): (r: Option<seq<string>>)
    ensures r.Some? ==> |r.value| == |items|
    ensures r.Some? <==> forall i :: 0 <= i < |items| ==> items[i].Str?
  {
    if items == [] then Some([])
    else if !items[0].Str? then None
    else match AsStrings(items[1..])
      case None => None
      case Some(rest) => Some([items[0].s] + rest)
  }

  lemma {:induction false} AsStringsOfStrList(xs: seq<string>)
    ensures AsStrings(StrList(xs).items) == Some(xs)
    decreases |xs|
  {
    if xs != [] {
      assert StrList(xs).items[1..] == StrList(xs[1..]).items;
      AsStringsOfStrList(xs[1..]);
      assert [xs[0]] + xs[1..] == xs;
    }
  }

  /** The metadata object shared by both dictionary shapes. */
  function Metadata(d: CrawledDocument): Value {
    Object(map["code_blocks" := StrList(d.codeBlocks),
               "depth" := Int(d.depth),
               "crawled_at" := Str(d.crawledAt)])
  }

  /**
   * The dictionary form of a document: the code blocks appear at top level and
   * again in the metadata; depth and timestamp appear only in the metadata.
   */
  function ToDict(d: CrawledDocument): (v: Value)
    ensures v.Object? && v.fields.Keys == {"url", "title", "content", "code_blocks", "metadata"}
    ensures v.fields["metadata"].Object? &&
            v.fields["metadata"].fields.Keys == {"code_blocks", "depth", "crawled_at"}
    ensures v.fields["code_blocks"] == v.fields["metadata"].fields["code_blocks"]
  {
    Object(map["url" := Str(d.url),
               "title" := Str(d.title),
               "content" := Str(d.content),
               "code_blocks" := StrList(d.codeBlocks),
               "metadata" := Metadata(d)])
  }

  /**
   * The dictionary the stand-alone crawler stores: the same fields, except that
   * the code blocks appear only in the metadata.
   */
  function LegacyDict(d: CrawledDocument): (v: Value)
    ensures v.Object? && v.fields.Keys == {"url", "title", "content", "metadata"}
    ensures v.fields["metadata"] == ToDict(d).fields["metadata"]
  {
    Object(map["url" := Str(d.url),
               "title" := Str(d.title),
               "content" := Str(d.content),
               "metadata" := Metadata(d)])
  }

  function StrField(fields: map<string, Value>, key: string): Option<string> {
    if key in fields && fields[key].Str? then Some(fields[key].s) else None
  }

  /** Reads a document back from either dictionary shape; everything is taken from the metadata that both share. */
  function FromDict(v: Value): (r: Option<CrawledDocument>)
    ensures r.Some? ==> v.Object? && "metadata" in v.fields
  {
    if !v.Object? || "metadata" !in v.fields || !v.fields["metadata"].Object? then None
    else
      var meta := v.fields["metadata"].fields;
      var url := StrField(v.fields, "url");
      var title := StrField(v.fields, "title");
      var content := StrField(v.fields, "content");
      var at := StrField(meta, "crawled_at");
      if url.None? || title.None? || content.None? || at.None? then None
      else if "code_blocks" !in meta || !meta["code_blocks"].List? then None
      else if "depth" !in meta || !meta["depth"].Int? then None
      else
        var blocks := AsStrings(meta["code_blocks"].items);
        if blocks.None? then None
        else Some(CrawledDocument(url.value, title.value, content.value, blocks.value,
                                  meta["depth"].n, at.value))
  }

  /** Nothing is lost in the dictionary: the document can be read back from it. */
  lemma DictRoundTrip(d: CrawledDocument)
    ensures FromDict(ToDict(d)) == Some(d)
  {
    AsStringsOfStrList(d.codeBlocks);
  }

  /** Nothing is lost in the stand-alone crawler's dictionary either. */
  lemma LegacyDictRoundTrip(d: CrawledDocument)
    ensures FromDict(LegacyDict(d)) == Some(d)
  {
    AsStringsOfStrList(d.codeBlocks);
  }

  /** Distinct documents give distinct dictionaries. */
  lemma ToDictInjective(d: CrawledDocument, e: CrawledDocument)
    ensures ToDict(d) == ToDict(e) ==> d == e
  {
    DictRoundTrip(d);
    DictRoundTrip(e);
  }
}
