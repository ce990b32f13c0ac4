/**
 * The URL handling of the crawler: the network location of a URL, the
 * skipped file extensions, the anchor stripped before the visited test,
 * which links of a page are followed and how a root-relative link is
 * resolved against the base URL.
 */
module Urls {
  import opened Seqs
  import opened Strings

  // ---------------------------------------------------------------------------
  // Characters and searching
  // ---------------------------------------------------------------------------

  predicate IsAsciiLetter(c: char) {
    'a' <= c <= 'z' || 'A' <= c <= 'Z'
  }

  predicate IsSchemeChar(c: char) {
    IsAsciiLetter(c) || '0' <= c <= '9' || c == '+' || c == '-' || c == '.'
  }

  /** ASCII lower-casing of one character. */
  function LowerChar(c: char): (d: char)
    ensures 'A' <= c <= 'Z' ==> 'a' <= d <= 'z'
    ensures !('A' <= c <= 'Z') ==> d == c
  {
    if 'A' <= c <= 'Z' then (c as int - 'A' as int + 'a' as int) as char else c
  }

  function Lower(s: string): (r: string)
    ensures |r| == |s|
    ensures forall i :: 0 <= i < |s| ==> r[i] == LowerChar(s[i])
  {
    seq(|s|, i requires 0 <= i < |s| => LowerChar(s[i]))
  }

  /** The index of the first `c` in `s`, or `|s|` when there is none. */
  function IndexOf(s: string, c: char): (i: nat)
    ensures i <= |s|
    ensures i < |s| ==> s[i] == c
    ensures forall j :: 0 <= j < i ==> s[j] != c
  {
    if s == [] then 0
    else if s[0] == c then 0
    else 1 + IndexOf(s[1..], c)
  }

  predicate EndsNetloc(c: char) {
    c == '/' || c == '?' || c == '#'
  }

  /** The index of the first '/', '?' or '#' at or after `from`, or `|s|`. */
  function NetlocEnd(s: string, from: nat): (i: nat)
    requires from <= |s|
    ensures from <= i <= |s|
    ensures i < |s| ==> EndsNetloc(s[i])
    ensures forall j :: from <= j < i ==> !EndsNetloc(s[j])
    decreases |s| - from
  {
    if from == |s| then from
    else if EndsNetloc(s[from]) then from
    else NetlocEnd(s, from + 1)
  }

  // ---------------------------------------------------------------------------
  // Parsing
  // ---------------------------------------------------------------------------

  /**
   * The length of the scheme of `url`: the text before the first ':', when it
   * is non-empty, starts with a letter and is made of scheme characters.
   */
  function SchemeLength(url: string): (n: nat)
    ensures n <= |url|
    ensures n > 0 ==> n < |url| && url[n] == ':' && IsAsciiLetter(url[0]) &&
                      forall j :: 0 <= j < n ==> IsSchemeChar(url[j]) && url[j] != ':'
  {
    var i := IndexOf(url, ':');
    if 0 < i < |url| && IsAsciiLetter(url[0]) && forall j :: 0 <= j < i ==> IsSchemeChar(url[j]) then i
    else 0
  }

  /** The part of `url` after its scheme and colon, or all of it when it has no scheme. */
  function AfterScheme(url: string): (rest: string)
    ensures |rest| <= |url|
  {
    var n := SchemeLength(url);
    if n > 0 then url[n + 1..] else url
  }

  /** The length of the scheme with its colon, 0 when there is no scheme. */
  function SchemePartLength(url: string): (n: nat)
    ensures n <= |url|
    ensures AfterScheme(url) == url[n..]
  {
    var n := SchemeLength(url);
    if n > 0 then n + 1 else 0
  }

  /**
   * The network location: after the scheme, the text between a leading "//"
   * and the next '/', '?' or '#'; empty when there is no leading "//".
   */
  function Netloc(url: string): (host: string)
    ensures forall i :: 0 <= i < |host| ==> !EndsNetloc(host[i])
  {
    var rest := AfterScheme(url);
    if StartsWith(rest, "//") then rest[2..NetlocEnd(rest, 2)] else []
  }

  /** The scheme, "//" and network location of `url`: everything before its path. */
  function Origin(url: string): (o: string)
    ensures o <= url
  {
    var n := SchemePartLength(url);
    var rest := url[n..];
    if StartsWith(rest, "//") then url[..n + NetlocEnd(rest, 2)] else url[..n]
  }

  // ---------------------------------------------------------------------------
  // is_valid_url
  // ---------------------------------------------------------------------------

  /** The file extensions the crawler never visits. */
  const SkipExtensions: seq<string> := [".pdf", ".zip", ".jpg", ".png", ".gif", ".css", ".js"]

  /** Whether the lower-cased URL ends with a skipped extension; any anchor is still part of it. */
  predicate HasSkippedExtension(url: string) {
    exists k :: 0 <= k < |SkipExtensions| && EndsWith(Lower(url), SkipExtensions[k])
  }

  /** The URL without its anchor: the text before the first '#'. */
  function StripFragment(url: string): (r: string)
    ensures r <= url
    ensures '#' !in r
    ensures '#' !in url ==> r == url
  {
    url[..IndexOf(url, '#')]
  }

  /**
   * Whether a URL should be crawled: on the base domain, not a skipped file,
   * and not yet visited once its anchor is removed.
   */
  function IsValidUrl(baseDomain: string, visited: set<string>, url: string): (r: bool)
    ensures Netloc(url) != baseDomain ==> !r
    ensures Netloc(url) == baseDomain && HasSkippedExtension(url) ==> !r
    ensures Netloc(url) == baseDomain && !HasSkippedExtension(url) ==>
              (r <==> StripFragment(url) !in visited)
  {
    if Netloc(url) != baseDomain then false
    else if HasSkippedExtension(url) then false
    else StripFragment(url) !in visited
  }

  /** The anchor is cut off before the visited test: a URL and its anchored forms meet the same visited entry. */
  lemma StripFragmentOfAnchored(url: string, anchor: string)
    requires '#' !in url
    ensures StripFragment(url + "#" + anchor) == url
  {
    var s := url + "#" + anchor;
    assert s[|url|] == '#';
    assert forall j :: 0 <= j < |url| ==> s[j] == url[j];
    assert IndexOf(s, '#') == |url|;
  }

  /**
   * The extension test runs before the anchor is removed, and no skipped extension
   * contains '#', so on an anchored URL it looks only at the anchor: "guide.pdf" is
   * skipped, yet "guide.pdf#page" passes once it is on the domain and not visited.
   */
  lemma AnchorHidesExtension(baseDomain: string, visited: set<string>, url: string, anchor: string)
    requires '#' !in url && url !in visited && Netloc(url + "#" + anchor) == baseDomain
    ensures HasSkippedExtension(url + "#" + anchor) <==> HasSkippedExtension(anchor)
    ensures IsValidUrl(baseDomain, visited, url + "#" + anchor) <==> !HasSkippedExtension(anchor)
  {
    AnchoredExtension(url + "#", anchor);
    StripFragmentOfAnchored(url, anchor);
  }

  /** After a '#', the extension test sees only what follows it; no skipped extension contains '#'. */
  lemma AnchoredExtension(p: string, anchor: string)
    requires p != [] && p[|p| - 1] == '#'
    ensures HasSkippedExtension(p + anchor) <==> HasSkippedExtension(anchor)
  {
    var lp := Lower(p);
    LowerAppend(p, anchor);
    assert lp[|lp| - 1] == '#';
    forall k | 0 <= k < |SkipExtensions|
      ensures EndsWith(lp + Lower(anchor), SkipExtensions[k]) <==> EndsWith(Lower(anchor), SkipExtensions[k])
    {
      assert '#' !in SkipExtensions[k];
      SuffixAfterMark(lp, Lower(anchor), SkipExtensions[k], '#');
    }
  }

  lemma LowerAppend(a: string, b: string)
    ensures Lower(a + b) == Lower(a) + Lower(b)
  {
  }

  /** Behind a mark that a suffix does not contain, a string ends with it exactly when its tail does. */
  lemma SuffixAfterMark(p: string, q: string, e: string, mark: char)
    requires p != [] && p[|p| - 1] == mark && mark !in e
    ensures EndsWith(p + q, e) <==> EndsWith(q, e)
  {
    var l := p + q;
    if |e| <= |q| {
      assert l[|l| - |e|..] == q[|q| - |e|..];
    } else if |e| <= |l| {
      var w := l[|l| - |e|..];
      assert w[|e| - |q| - 1] == mark;
    }
  }

  /** The extension test ignores case. */
  lemma ExtensionIgnoresCase(url: string)
    ensures HasSkippedExtension(url) <==> HasSkippedExtension(Lower(url))
  {
    assert Lower(Lower(url)) == Lower(url);
  }

  // ---------------------------------------------------------------------------
  // Following links
  // ---------------------------------------------------------------------------

  /** The first 20 characters of the page URL, which a followed absolute link must start with. */
  function LinkPrefix(url: string): (p: string)
    ensures p <= url
    ensures |p| == if |url| < 20 then |url| else 20
  {
    if |url| < 20 then url else url[..20]
  }

  /** Whether a link found on the page at `url` is crawled. */
  predicate Follows(url: string, href: string) {
    StartsWith(href, LinkPrefix(url)) || StartsWith(href, "/")
  }

  /** Whether the URL has a network location part: "//" right after its scheme. */
  predicate HasNetloc(url: string) {
    StartsWith(AfterScheme(url), "//")
  }

  /**
   * A link of three or more slashes, such as "///x": its "//" introduces an empty
   * network location, so urljoin keeps the base's and reads the rest as the path.
   */
  predicate EmptyHostLink(href: string) {
    StartsWith(href, "//") && |href| > 2 && href[2] == '/'
  }

  /** urllib's uses_relative: the schemes urljoin resolves a relative link against. */
  const RelativeSchemes: seq<string> := ["", "ftp", "http", "gopher", "nntp", "imap", "wais", "file", "https",
                                         "shttp", "mms", "prospero", "rtsp", "rtsps", "rtspu", "sftp", "svn",
                                         "svn+ssh", "ws", "wss"]

  /** Whether urljoin resolves against `base`: its scheme, lower-cased as urlsplit does, is relative. */
  predicate UsesRelative(base: string) {
    Lower(base[..SchemeLength(base)]) in RelativeSchemes
  }

  /**
   * The resolution of a root-relative link against the base URL. Against a
   * base whose scheme is not relative the link comes back as written. Otherwise
   * a link starting with "//" and naming a network location keeps only the
   * base's scheme; any other keeps the base's scheme and network location, and
   * loses the empty "//" of an empty-host link.
   */
  function JoinRooted(base: string, href: string): (r: string)
    requires StartsWith(href, "/")
    ensures !UsesRelative(base) ==> r == href
    ensures EndsWith(r, if EmptyHostLink(href) then href[2..] else href)
  {
    if !UsesRelative(base) then
      href
    else
      var o := if EmptyHostLink(href) || !StartsWith(href, "//") then Origin(base) else base[..SchemePartLength(base)];
      var tail := if EmptyHostLink(href) then href[2..] else href;
      assert (o + tail)[|o|..] == tail;
      o + tail
  }

  /** The URL crawled for a followed link. */
  function NextUrl(base: string, href: string): (r: string)
    ensures !StartsWith(href, "/") ==> r == href
  {
    if StartsWith(href, "/") then JoinRooted(base, href) else href
  }

  /** The first `c` of a common prefix is the first `c` of every string that extends it. */
  lemma IndexOfCommonPrefix(p: string, s: string, c: char)
    requires p <= s && IndexOf(p, c) < |p|
    ensures IndexOf(s, c) == IndexOf(p, c)
  {
    var k := IndexOf(p, c);
    assert s[k] == c;
  }

  /** NetlocEnd is the first '/', '?' or '#' at or after `from`. */
  lemma NetlocEndIs(s: string, from: nat, k: nat)
    requires from <= k <= |s|
    requires k < |s| ==> EndsNetloc(s[k])
    requires forall j :: from <= j < k ==> !EndsNetloc(s[j])
    ensures NetlocEnd(s, from) == k
  {
  }

  /** Appending to a URL that has a scheme and some text after it keeps the scheme. */
  lemma SchemeKept(base: string, o: string, href: string)
    requires o <= base && SchemePartLength(base) <= |o|
    requires StartsWith(href, "/")
    requires o == [] ==> SchemePartLength(base) == 0
    requires SchemePartLength(base) == 0 && o != [] ==> o[0] == '/'
    ensures SchemePartLength(o + href) == SchemePartLength(base)
  {
    var n := SchemeLength(base);
    var r := o + href;
    if n > 0 {
      IndexOfCommonPrefix(base[..n + 1], base, ':');
      IndexOfCommonPrefix(base[..n + 1], r, ':');
      assert forall j :: 0 <= j < n ==> r[j] == base[j];
    } else {
      assert r[0] == '/';
    }
  }

  /** A path appended to the origin of a base with a network location keeps that location. */
  lemma HostOfNetlocOrigin(base: string, p: string)
    requires StartsWith(p, "/") && HasNetloc(base)
    ensures Netloc(Origin(base) + p) == Netloc(base)
  {
    var n := SchemePartLength(base);
    var o := Origin(base);
    SchemeKept(base, o, p);
    var rest := base[n..];
    var e := NetlocEnd(rest, 2);
    var after := (o + p)[n..];
    DropTakeAppend(base, n, e, p);
    assert after[..2] == "//";
    NetlocEndIs(after, 2, e);
    assert after[2..e] == rest[2..e];
  }

  /** A path appended to the base's origin stays on the base's network location. */
  lemma HostOfOriginPlus(base: string, p: string)
    requires StartsWith(p, "/")
    requires HasNetloc(base) || !StartsWith(p, "//")
    ensures Netloc(Origin(base) + p) == Netloc(base)
  {
    if HasNetloc(base) {
      HostOfNetlocOrigin(base, p);
    } else {
      var n := SchemePartLength(base);
      var o := Origin(base);
      SchemeKept(base, o, p);
      assert (o + p)[n..] == p;
    }
  }

  /**
   * A root-relative link resolves to a URL on the base's network location, or,
   * against a base whose scheme is not relative, to the link itself, which has none.
   */
  lemma RootedLinkKeepsHost(base: string, href: string)
    requires StartsWith(href, "/") && !StartsWith(href, "//")
    ensures UsesRelative(base) ==> Netloc(JoinRooted(base, href)) == Netloc(base)
    ensures !UsesRelative(base) ==> Netloc(JoinRooted(base, href)) == []
  {
    if UsesRelative(base) {
      HostOfOriginPlus(base, href);
    } else {
      assert SchemeLength(href) == 0;
    }
  }

  /**
   * A link starting with "//" names its own network location, so following it
   * can leave the base's host. An empty-host link stays on the base's host,
   * unless the base has none and the link's path itself begins with "//"; against
   * a base whose scheme is not relative it comes back as written, with no host.
   */
  lemma ProtocolRelativeLinkHost(base: string, href: string)
    requires StartsWith(href, "//")
    ensures !EmptyHostLink(href) ==> Netloc(JoinRooted(base, href)) == Netloc(href)
    ensures EmptyHostLink(href) && UsesRelative(base) && (HasNetloc(base) || !StartsWith(href[2..], "//")) ==>
              Netloc(JoinRooted(base, href)) == Netloc(base)
    ensures EmptyHostLink(href) && !UsesRelative(base) ==> Netloc(JoinRooted(base, href)) == []
  {
    if !UsesRelative(base) {
      assert SchemeLength(href) == 0;
    } else if EmptyHostLink(href) {
      if HasNetloc(base) || !StartsWith(href[2..], "//") {
        HostOfOriginPlus(base, href[2..]);
      }
    } else {
      var n := SchemePartLength(base);
      var o := base[..n];
      SchemeKept(base, o, href);
      assert (o + href)[n..] == href;
      assert SchemeLength(href) == 0;
    }
  }

  /** Links to the page itself, and to any page under it, are followed. */
  lemma FollowsExtensions(url: string, tail: string)
    ensures Follows(url, url + tail)
  {
    var p := LinkPrefix(url);
    assert (url + tail)[..|p|] == url[..|p|];
  }

  /** An absolute link is followed only when it agrees with the page URL on the first 20 characters. */
  lemma FollowedAbsoluteLink(url: string, href: string)
    requires |url| >= 20 && !StartsWith(href, "/")
    ensures Follows(url, href) <==> |href| >= 20 && href[..20] == url[..20]
  {
  }
}
