/**
 * extract_text_content and extract_code_blocks, over a page that has already been parsed.
 *
 * The HTML parser is not modelled. A page arrives as the parts these two routines read: the
 * main content area (after the script, style, nav, footer and header elements have been
 * removed) with its text nodes and its headings, and the <pre> and <code> elements of the
 * whole page. Both copies of the routines are modelled: the text extractor of the package
 * (Documentation) and the older copy inside the stand-alone crawler (Legacy). They differ in
 * the tags that end a heading's section and in how a code element's text is taken.
 */
module Extractor {
  import opened Seqs
  import opened Strings
  import opened TextSplit

  /** Which copy of the extractors. */
  datatype Variant = Documentation | Legacy

  /** The tags whose appearance among a heading's siblings ends its section. */
  function Stops(v: Variant): set<string> {
    match v
    case Documentation => {"h1", "h2", "h3", "h4"}
    case Legacy => {"h1", "h2", "h3", "h4", "h5", "h6"}
  }

  /** The limit both copies hand to the splitter. */
  const MaxLength := 5000

  /**
   * A node of the parse tree, reduced to what the extractors read: an element, with its tag
   * name and the text nodes below it in document order, or a bare text node.
   */
  datatype Node = Element(name: string, strings: seq<string>) | Text(raw: string)

  /** A heading (any of h1 to h6): the text nodes inside it and the nodes that follow it. */
  datatype Heading = Heading(strings: seq<string>, siblings: seq<Node>)

  /** The main content area: all its text nodes, and its headings in document order. */
  datatype MainContent = MainContent(strings: seq<string>, headings: seq<Heading>)

  /** A <code> element: its text nodes, and whether it has a <pre> ancestor. */
  datatype CodeNode = CodeNode(strings: seq<string>, insidePre: bool)

  // ---------------------------------------------------------------------------
  // Text of a node

  /** The text nodes that are not blank, each stripped. */
  function StrippedStrings(xs: seq<string>): (r: seq<string>)
    ensures |r| <= |xs|
    ensures forall i :: 0 <= i < |r| ==> r[i] != [] && Trimmed(r[i])
    decreases |xs|
  {
    if xs == [] then []
    else
      var prev := StrippedStrings(xs[..|xs| - 1]);
      var t := Strip(xs[|xs| - 1]);
      if t == [] then prev else prev + [t]
  }

  lemma {:induction false} StrippedSnoc(xs: seq<string>, i: nat)
    requires i < |xs|
    ensures StrippedStrings(xs[..i + 1]) ==
            if Strip(xs[i]) == [] then StrippedStrings(xs[..i]) else StrippedStrings(xs[..i]) + [Strip(xs[i])]
  {
    TakeTake(xs, i);
  }

  /** The parser's get_text(separator, strip=True): the stripped non-blank text nodes, joined. */
  function GetText(xs: seq<string>, separator: string): string {
    JoinWith(StrippedStrings(xs), separator)
  }

  /** The non-empty strings of xs, in order: what `if text: append(text)` keeps. */
  function NonEmpty(xs: seq<string>): (r: seq<string>)
    ensures |r| <= |xs|
    ensures forall i :: 0 <= i < |r| ==> r[i] != []
    decreases |xs|
  {
    if xs == [] then []
    else
      var prev := NonEmpty(xs[..|xs| - 1]);
      var t := xs[|xs| - 1];
      if t == [] then prev else prev + [t]
  }

  /** One more candidate: kept when it is not empty. */
  lemma {:induction false} NonEmptySnoc(xs: seq<string>, i: nat)
    requires i < |xs|
    ensures NonEmpty(xs[..i + 1]) == if xs[i] == [] then NonEmpty(xs[..i]) else NonEmpty(xs[..i]) + [xs[i]]
  {
    TakeTake(xs, i);
  }

  /** The filter keeps exactly the non-empty members. */
  lemma {:induction false} NonEmptyMembers(xs: seq<string>, b: string)
    ensures b in NonEmpty(xs) <==> b != [] && b in xs
    decreases |xs|
  {
    if xs != [] {
      var init := xs[..|xs| - 1];
      NonEmptyMembers(init, b);
      TakeLast(xs);
      assert b in xs <==> b in init || b == xs[|xs| - 1];
    }
  }

  /** Filtering a prefix gives a prefix of the filtered whole. */
  lemma {:induction false} NonEmptyPrefix(xs: seq<string>, i: nat, j: nat)
    requires i <= j <= |xs|
    ensures NonEmpty(xs[..i]) <= NonEmpty(xs[..j])
    decreases j
  {
    if i < j {
      NonEmptyPrefix(xs, i, j - 1);
      NonEmptySnoc(xs, j - 1);
      PrefixAppend(NonEmpty(xs[..j - 1]), [xs[j - 1]]);
    }
  }

  /** Nothing is kept when every candidate is empty. */
  lemma {:induction false} NonEmptyOfEmpties(xs: seq<string>)
    requires forall i :: 0 <= i < |xs| ==> xs[i] == []
    ensures NonEmpty(xs) == []
    decreases |xs|
  {
    if xs != [] {
      NonEmptyOfEmpties(xs[..|xs| - 1]);
    }
  }

  /** The text a sibling contributes: an element's stripped text, or a stripped text node. */
  function NodeText(n: Node): string {
    match n
    case Element(_, strings) => GetText(strings, "")
    case Text(raw) => Strip(raw)
  }

  predicate IsStop(n: Node, stops: set<string>) {
    n.Element? && n.name != [] && n.name in stops
  }

  /** The position of the first sibling that ends the section, or the number of siblings. */
  function FirstStop(sibs: seq<Node>, stops: set<string>): (k: nat)
    ensures k <= |sibs|
    ensures forall i :: 0 <= i < k ==> !IsStop(sibs[i], stops)
    ensures k < |sibs| ==> IsStop(sibs[k], stops)
    decreases |sibs|
  {
    if sibs == [] || IsStop(sibs[0], stops) then 0 else 1 + FirstStop(sibs[1..], stops)
  }

  /** The texts of the given siblings, one per sibling. */
  function NodeTexts(sibs: seq<Node>): (r: seq<string>)
    ensures |r| == |sibs|
    ensures forall i :: 0 <= i < |sibs| ==> r[i] == NodeText(sibs[i])
  {
    seq(|sibs|, i requires 0 <= i < |sibs| => NodeText(sibs[i]))
  }

  /** The texts that make up a heading's section: the non-empty texts before the first stop. */
  function SectionTexts(sibs: seq<Node>, stops: set<string>): seq<string> {
    NonEmpty(NodeTexts(sibs)[..FirstStop(sibs, stops)])
  }

  /** A heading's content text: its section's texts, one per line. */
  function ContentText(sibs: seq<Node>, stops: set<string>): string {
    JoinWith(SectionTexts(sibs, stops), "\n")
  }

  function HeadingText(h: Heading): string {
    GetText(h.strings, "")
  }

  /** A blank line, the heading, and the content on the following lines when there is any. */
  function SectionOf(headingText: string, contentText: string): string {
    if contentText != [] then "\n\n" + headingText + "\n" + contentText else "\n\n" + headingText
  }

  /** The sections of the given headings; a heading with no text and no content has none. */
  function Sections(hs: seq<Heading>, stops: set<string>): (r: seq<string>)
    ensures |r| <= |hs|
    ensures forall i :: 0 <= i < |r| ==> |r[i]| > 2 && StartsWith(r[i], "\n\n")
    decreases |hs|
  {
    if hs == [] then []
    else
      var prev := Sections(hs[..|hs| - 1], stops);
      var h := hs[|hs| - 1];
      var ht := HeadingText(h);
      var ct := ContentText(h.siblings, stops);
      if ht != [] || ct != [] then prev + [SectionOf(ht, ct)] else prev
  }

  /** The non-blank lines of text, each stripped. */
  function Lines(text: string): seq<string> {
    StrippedStrings(SplitLines(text))
  }

  /** The text assembled from the main content, before it is split. */
  function PageContent(m: MainContent, stops: set<string>): string {
    if m.headings == [] then "\n\n" + JoinWith(Lines(GetText(m.strings, "\n")), "\n")
    else
      var ss := Sections(m.headings, stops);
      if ss == [] then "\n\n" else JoinWith(ss, "")
  }

  /** What extract_text_content returns. */
  function TextContent(m: MainContent, stops: set<string>, maxLength: int): string {
    SplitText(PageContent(m, stops), maxLength)
  }

  // ---------------------------------------------------------------------------
  // Words of the assembled text

  /** Blank text nodes carry no words, and stripping keeps the words of the others. */
  lemma {:induction false} WordsOfStripped(xs: seq<string>)
    ensures WordsOfAll(StrippedStrings(xs)) == WordsOfAll(xs)
    decreases |xs|
  {
    if xs != [] {
      var init := xs[..|xs| - 1];
      var last := xs[|xs| - 1];
      WordsOfStripped(init);
      TakeLast(xs);
      WordsOfAllSnoc(init, last);
      var t := Strip(last);
      if t == [] {
        WordsOfAllSpace(last);
        AppendNil(WordsOfAll(init));
      } else {
        WordsOfAllSnoc(StrippedStrings(init), t);
      }
    }
  }

  /** get_text with a whitespace separator keeps every word of every text node, in order. */
  lemma {:induction false} WordsOfGetText(xs: seq<string>, separator: string)
    requires separator != [] && AllSpace(separator)
    ensures Words(GetText(xs, separator)) == WordsOfAll(xs)
  {
    WordsOfJoin(StrippedStrings(xs), separator);
    WordsOfStripped(xs);
  }

  /** A section keeps the words of its heading followed by those of its content. */
  lemma {:induction false} WordsOfSection(ht: string, ct: string)
    ensures Words(SectionOf(ht, ct)) == Words(ht) + Words(ct)
  {
    WordsSpacePrefix("\n\n", ht);
    if ct != [] {
      Assoc("\n\n" + ht, "\n", ct);
      WordsAppend("\n\n" + ht, "\n" + ct);
      WordsSpacePrefix("\n", ct);
    } else {
      AppendNil(Words(ht));
    }
  }

  /** The words of the given headings' sections: each heading's words, then its content's. */
  function SectionWords(hs: seq<Heading>, stops: set<string>): seq<string>
    decreases |hs|
  {
    if hs == [] then []
    else
      var h := hs[|hs| - 1];
      SectionWords(hs[..|hs| - 1], stops)
        + (Words(HeadingText(h)) + WordsOfAll(SectionTexts(h.siblings, stops)))
  }

  lemma {:induction false} WordsOfSections(hs: seq<Heading>, stops: set<string>)
    ensures WordsOfAll(Sections(hs, stops)) == SectionWords(hs, stops)
    decreases |hs|
  {
    if hs != [] {
      var init := hs[..|hs| - 1];
      var h := hs[|hs| - 1];
      var ht := HeadingText(h);
      var ct := ContentText(h.siblings, stops);
      WordsOfSections(init, stops);
      WordsOfJoin(SectionTexts(h.siblings, stops), "\n");
      if ht != [] || ct != [] {
        WordsOfAllSnoc(Sections(init, stops), SectionOf(ht, ct));
        WordsOfSection(ht, ct);
      } else {
        AppendNil(SectionWords(init, stops));
      }
    }
  }

  /** With no headings, the assembled text keeps every word of the main content, in order. */
  lemma {:induction false} NoHeadingsWords(m: MainContent, stops: set<string>)
    requires m.headings == []
    ensures Words(PageContent(m, stops)) == WordsOfAll(m.strings)
  {
    var text := GetText(m.strings, "\n");
    var body := JoinWith(Lines(text), "\n");
    WordsSpacePrefix("\n\n", body);
    WordsOfJoin(Lines(text), "\n");
    WordsOfStripped(SplitLines(text));
    WordsOfSplitLines(text);
    WordsOfGetText(m.strings, "\n");
  }

  /** With headings, the assembled text keeps each heading's words, then its section's. */
  lemma {:induction false} HeadingsWords(m: MainContent, stops: set<string>)
    requires m.headings != []
    ensures Words(PageContent(m, stops)) == SectionWords(m.headings, stops)
  {
    var ss := Sections(m.headings, stops);
    WordsOfSections(m.headings, stops);
    if ss == [] {
      WordsSpacePrefix("\n\n", []);
    } else {
      WordsOfSpacedConcat(ss);
    }
  }

  /** The assembled text always begins with a blank line. */
  lemma {:induction false} PageContentStartsBlank(m: MainContent, stops: set<string>)
    ensures StartsWith(PageContent(m, stops), "\n\n")
  {
    var ss := Sections(m.headings, stops);
    if m.headings != [] && ss != [] {
      JoinStartsWith(ss, []);
    }
  }

  // ---------------------------------------------------------------------------
  // Stop sets

  /** A larger stop set ends a section no later. */
  lemma {:induction false} FirstStopMonotone(sibs: seq<Node>, fewer: set<string>, more: set<string>)
    requires fewer <= more
    ensures FirstStop(sibs, more) <= FirstStop(sibs, fewer)
  {
  }

  /**
   * The older copy stops at h5 and h6 as well, so the texts of its sections are a prefix of
   * those of the newer copy, sibling by sibling.
   */
  lemma {:induction false} LegacySectionIsPrefix(sibs: seq<Node>)
    ensures SectionTexts(sibs, Stops(Legacy)) <= SectionTexts(sibs, Stops(Documentation))
  {
    FirstStopMonotone(sibs, Stops(Documentation), Stops(Legacy));
    NonEmptyPrefix(NodeTexts(sibs), FirstStop(sibs, Stops(Legacy)), FirstStop(sibs, Stops(Documentation)));
  }

  /**
   * An h5 or h6 sibling, with no other heading before it, ends the section in the older copy
   * but not in the newer one, where its text (when it has any) is part of the section.
   */
  lemma {:induction false} MinorHeadingInSection(sibs: seq<Node>, k: nat)
    requires k < |sibs| && sibs[k].Element? && sibs[k].name in {"h5", "h6"}
    requires forall i :: 0 <= i < k ==> !IsStop(sibs[i], Stops(Legacy))
    ensures SectionTexts(sibs, Stops(Legacy)) == NonEmpty(NodeTexts(sibs)[..k])
    ensures NodeText(sibs[k]) != [] ==> NodeText(sibs[k]) in SectionTexts(sibs, Stops(Documentation))
  {
    assert IsStop(sibs[k], Stops(Legacy));
    var kd := FirstStop(sibs, Stops(Documentation));
    assert !IsStop(sibs[k], Stops(Documentation));
    FirstStopMonotone(sibs, Stops(Documentation), Stops(Legacy));
    assert k < kd;
    var texts := NodeTexts(sibs);
    assert texts[..kd][k] == NodeText(sibs[k]);
    NonEmptyMembers(texts[..kd], NodeText(sibs[k]));
  }

  // ---------------------------------------------------------------------------
  // Code blocks

  /**
   * The text of a code element: the newer copy concatenates all its text nodes and strips the
   * result; the older one strips each text node and concatenates the non-blank ones.
   */
  function CodeText(strings: seq<string>, v: Variant): (r: string)
    ensures Trimmed(r)
  {
    match v
    case Documentation => Strip(JoinWith(strings, ""))
    case Legacy =>
      JoinTrimmed(StrippedStrings(strings), "");
      GetText(strings, "")
  }

  /** The text of every <pre> element, in order. */
  function PreTexts(pres: seq<seq<string>>, v: Variant): (r: seq<string>)
    ensures |r| == |pres|
    ensures forall i :: 0 <= i < |pres| ==> r[i] == CodeText(pres[i], v)
  {
    seq(|pres|, i requires 0 <= i < |pres| => CodeText(pres[i], v))
  }

  /** The text of every <code> element, in order; one inside a <pre> counts as empty. */
  function InlineTexts(codes: seq<CodeNode>, v: Variant): (r: seq<string>)
    ensures |r| == |codes|
    ensures forall i :: 0 <= i < |codes| ==>
              r[i] == if codes[i].insidePre then [] else CodeText(codes[i].strings, v)
  {
    seq(|codes|, i requires 0 <= i < |codes| =>
      if codes[i].insidePre then [] else CodeText(codes[i].strings, v))
  }

  /** What extract_code_blocks returns: every <pre> block, then the inline <code> blocks. */
  function CodeBlocks(pres: seq<seq<string>>, codes: seq<CodeNode>, v: Variant): seq<string> {
    NonEmpty(PreTexts(pres, v)) + NonEmpty(InlineTexts(codes, v))
  }

  /** A <pre> block is exactly a non-empty text of some <pre> element. */
  lemma {:induction false} PreBlocksFrom(pres: seq<seq<string>>, v: Variant, b: string)
    ensures b in NonEmpty(PreTexts(pres, v)) <==>
            b != [] && exists i :: 0 <= i < |pres| && CodeText(pres[i], v) == b
  {
    var pre := PreTexts(pres, v);
    NonEmptyMembers(pre, b);
    if b in pre {
      var i :| 0 <= i < |pre| && pre[i] == b;
    }
  }

  /** An inline block is exactly a non-empty text of some <code> element outside every <pre>. */
  lemma {:induction false} InlineBlocksFrom(codes: seq<CodeNode>, v: Variant, b: string)
    ensures b in NonEmpty(InlineTexts(codes, v)) <==>
            b != [] && exists i :: 0 <= i < |codes| && !codes[i].insidePre && CodeText(codes[i].strings, v) == b
  {
    var inline := InlineTexts(codes, v);
    NonEmptyMembers(inline, b);
    if b != [] && b in inline {
      var i :| 0 <= i < |inline| && inline[i] == b;
      assert !codes[i].insidePre;
    }
    if b != [] && exists i :: 0 <= i < |codes| && !codes[i].insidePre && CodeText(codes[i].strings, v) == b {
      var i :| 0 <= i < |codes| && !codes[i].insidePre && CodeText(codes[i].strings, v) == b;
      assert inline[i] == b;
    }
  }

  /** Every block is non-empty and has no whitespace at either end. */
  lemma {:induction false} CodeBlocksTrimmed(pres: seq<seq<string>>, codes: seq<CodeNode>, v: Variant)
    ensures forall b :: b in CodeBlocks(pres, codes, v) ==> b != [] && Trimmed(b)
  {
    forall b | b in CodeBlocks(pres, codes, v) ensures b != [] && Trimmed(b) {
      PreBlocksFrom(pres, v, b);
      InlineBlocksFrom(codes, v, b);
      if b in NonEmpty(PreTexts(pres, v)) {
        var i :| 0 <= i < |pres| && CodeText(pres[i], v) == b;
      } else {
        var i :| 0 <= i < |codes| && !codes[i].insidePre && CodeText(codes[i].strings, v) == b;
      }
    }
  }

  /** A <code> element inside a <pre> never adds a block of its own. */
  lemma {:induction false} NestedCodeSkipped(codes: seq<CodeNode>, v: Variant)
    requires forall i :: 0 <= i < |codes| ==> codes[i].insidePre
    ensures NonEmpty(InlineTexts(codes, v)) == []
  {
    NonEmptyOfEmpties(InlineTexts(codes, v));
  }

  /**
   * The older copy strips every text node before concatenating, so the tokens of a
   * highlighted line run together; the newer copy keeps the whitespace between them.
   */
  lemma {:induction false} HighlightedSpacing(a: string, space: string, b: string)
    requires a != [] && b != [] && Trimmed(a) && Trimmed(b) && AllSpace(space)
    ensures CodeText([a, space, b], Documentation) == a + space + b
    ensures CodeText([a, space, b], Legacy) == a + b
  {
    JoinThree(a, space, b, "");
    AppendNil(a);
    AppendNil(a + space);
    var j := a + space + b;
    assert j[0] == a[0] && j[|j| - 1] == b[|b| - 1];
    StrippedOfThree(a, space, b);
    JoinTwo(a, b, "");
  }

  lemma {:induction false} StrippedOfThree(a: string, space: string, b: string)
    requires a != [] && b != [] && Trimmed(a) && Trimmed(b) && AllSpace(space)
    ensures StrippedStrings([a, space, b]) == [a, b]
  {
    var xs := [a, space, b];
    StrippedOfTwo(xs);
    StrippedSnoc(xs, 2);
    TakeAll(xs);
    assert StrippedStrings(xs) == [a] + [b];
  }

  lemma {:induction false} StrippedOfTwo(xs: seq<string>)
    requires |xs| >= 2 && xs[0] != [] && Trimmed(xs[0]) && AllSpace(xs[1])
    ensures StrippedStrings(xs[..2]) == [xs[0]]
  {
    assert Strip(xs[1]) == [];
    assert xs[..0] == [];
    StrippedSnoc(xs, 0);
    StrippedSnoc(xs, 1);
  }

  // ---------------------------------------------------------------------------
  // The routines

  /** The content of one heading's section: the scan over its siblings. */
  method SectionContent(sibs: seq<Node>, stops: set<string>) returns (content: string)
    ensures content == ContentText(sibs, stops)
  {
    ghost var texts := NodeTexts(sibs);
    var elements: seq<string> := [];
    var j := 0;
    while j < |sibs|
      invariant j <= FirstStop(sibs, stops)
      invariant elements == NonEmpty(texts[..j])
    {
      var sibling := sibs[j];
      if IsStop(sibling, stops) {
        break;
      }
      NonEmptySnoc(texts, j);
      match sibling {
        case Element(_, strings) =>
          var text := GetText(strings, "");
          if text != "" {
            elements := elements + [text];
          }
        case Text(raw) =>
          var text := Strip(raw);
          if text != "" {
            elements := elements + [text];
          }
      }
      j := j + 1;
    }
    content := JoinWith(elements, "\n");
  }

  /** extract_text_content(soup, max_length), in either copy. */
  method ExtractTextContent(main: MainContent, v: Variant, maxLength: int) returns (r: string)
    ensures r == TextContent(main, Stops(v), maxLength)
    ensures main.headings == [] ==> Words(r) == WordsOfAll(main.strings)
    ensures main.headings != [] ==> Words(r) == SectionWords(main.headings, Stops(v))
  {
    var stops := Stops(v);
    if main.headings == [] {
      NoHeadingsWords(main, stops);
    } else {
      HeadingsWords(main, stops);
    }
    SplitKeepsWords(PageContent(main, stops), maxLength);
    if main.headings == [] {
      var text := GetText(main.strings, "\n");
      var lines := Lines(text);
      var content := "\n\n" + JoinWith(lines, "\n");
      r := SplitTextOnWords(content, maxLength);
      return;
    }
    var hs := main.headings;
    var sections: seq<string> := [];
    for i := 0 to |hs|
      invariant sections == Sections(hs[..i], stops)
    {
      TakeTake(hs, i);
      var heading := hs[i];
      var headingText := GetText(heading.strings, "");
      var contentText := SectionContent(heading.siblings, stops);
      if headingText != "" || contentText != "" {
        var section := "\n\n" + headingText;
        if contentText != "" {
          section := section + "\n" + contentText;
        }
        sections := sections + [section];
      }
    }
    TakeAll(hs);
    var content := if sections != [] then JoinWith(sections, "") else "\n\n";
    r := SplitTextOnWords(content, maxLength);
  }

  /** extract_code_blocks(soup), in either copy. */
  method ExtractCodeBlocks(pres: seq<seq<string>>, codes: seq<CodeNode>, v: Variant)
    returns (blocks: seq<string>)
    ensures blocks == CodeBlocks(pres, codes, v)
    ensures forall b :: b in blocks ==> b != [] && Trimmed(b)
  {
    ghost var preTexts := PreTexts(pres, v);
    var fromPre: seq<string> := [];
    for i := 0 to |pres|
      invariant fromPre == NonEmpty(preTexts[..i])
    {
      NonEmptySnoc(preTexts, i);
      var codeText := CodeText(pres[i], v);
      if codeText != "" {
        fromPre := fromPre + [codeText];
      }
    }
    TakeAll(preTexts);
    ghost var inlineTexts := InlineTexts(codes, v);
    var inline: seq<string> := [];
    for i := 0 to |codes|
      invariant inline == NonEmpty(inlineTexts[..i])
    {
      NonEmptySnoc(inlineTexts, i);
      if codes[i].insidePre {
        continue;
      }
      var codeText := CodeText(codes[i].strings, v);
      if codeText != "" {
        inline := inline + [codeText];
      }
    }
    TakeAll(inlineTexts);
    blocks := fromPre + inline;
    CodeBlocksTrimmed(pres, codes, v);
  }
}
