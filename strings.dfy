/**
 * The Python string primitives the crawler is built on, over Unicode scalar values:
 * str.isspace, str.strip, str.split() with no separator, sep.join, str.splitlines,
 * startswith and endswith.
 */
module Strings {
  import opened Seqs

  /** Python's str.isspace() for one character: the whitespace that split() and strip() use. */
  predicate IsSpace(c: char) {
    || c == ' '
    || ('\t' <= c <= '\r')
    || ('\U{1c}' <= c <= '\U{1f}')
    || c == '\U{85}' || c == '\U{a0}' || c == '\U{1680}'
    || ('\U{2000}' <= c <= '\U{200a}')
    || c == '\U{2028}' || c == '\U{2029}' || c == '\U{202f}' || c == '\U{205f}' || c == '\U{3000}'
  }

  /** The line boundaries of Python's str.splitlines(); every one of them is whitespace. */
  predicate IsLineBreak(c: char)
    ensures IsLineBreak(c) ==> IsSpace(c)
  {
    || ('\n' <= c <= '\r')
    || ('\U{1c}' <= c <= '\U{1e}')
    || c == '\U{85}' || c == '\U{2028}' || c == '\U{2029}'
  }

  predicate AllSpace(s: string) {
    forall i :: 0 <= i < |s| ==> IsSpace(s[i])
  }

  /** A word of str.split(): non-empty and free of whitespace. */
  predicate IsWord(w: string) {
    w != [] && forall i :: 0 <= i < |w| ==> !IsSpace(w[i])
  }

  predicate AllWords(ws: seq<string>) {
    forall i :: 0 <= i < |ws| ==> IsWord(ws[i])
  }

  /** No whitespace at either end: what strip() leaves. */
  predicate Trimmed(s: string) {
    s == [] || (!IsSpace(s[0]) && !IsSpace(s[|s| - 1]))
  }

  predicate StartsWith(s: string, prefix: string) {
    prefix <= s
  }

  predicate EndsWith(s: string, suffix: string) {
    |suffix| <= |s| && s[|s| - |suffix|..] == suffix
  }

  // ---------------------------------------------------------------------------
  // split()

  /** The longest prefix of s without whitespace. */
  function Run(s: string): (r: string)
    ensures |r| <= |s| && r == s[..|r|]
    ensures forall i :: 0 <= i < |r| ==> !IsSpace(r[i])
    ensures |r| < |s| ==> IsSpace(s[|r|])
  {
    if s == [] || IsSpace(s[0]) then [] else [s[0]] + Run(s[1..])
  }

  /** Python's s.split(): the maximal runs of non-whitespace characters, in order. */
  function Words(s: string): (ws: seq<string>)
    ensures AllWords(ws)
    decreases |s|
  {
    if s == [] then []
    else if IsSpace(s[0]) then Words(s[1..])
    else
      var w := Run(s);
      [w] + Words(s[|w|..])
  }

  /** The words of several strings, one after the other. */
  function WordsOfAll(xs: seq<string>): seq<string> {
    if xs == [] then [] else Words(xs[0]) + WordsOfAll(xs[1..])
  }

  lemma {:induction false} WordsOfAllSpace(s: string)
    requires AllSpace(s)
    ensures Words(s) == []
    decreases |s|
  {
    if s != [] {
      WordsOfAllSpace(s[1..]);
    }
  }

  lemma {:induction false} RunOfWord(w: string)
    requires forall i :: 0 <= i < |w| ==> !IsSpace(w[i])
    ensures Run(w) == w
    decreases |w|
  {
    if w != [] {
      RunOfWord(w[1..]);
    }
  }

  /** A word splits into itself. */
  lemma {:induction false} WordsOfWord(w: string)
    requires IsWord(w)
    ensures Words(w) == [w]
  {
    RunOfWord(w);
    assert w[|w|..] == [];
  }

  /** Joining at a whitespace boundary does not merge or cut a run. */
  lemma {:induction false} RunAppend(a: string, b: string)
    requires b == [] || IsSpace(b[0]) || (a != [] && IsSpace(a[|a| - 1]))
    ensures Run(a + b) == Run(a)
    decreases |a|
  {
    if a == [] {
      AppendNil(b);
    } else if IsSpace(a[0]) {
    } else {
      DropAppend(a, b, 1);
      RunAppend(a[1..], b);
    }
  }

  /** split() distributes over a concatenation that meets at whitespace. */
  lemma {:induction false} WordsAppend(a: string, b: string)
    requires a == [] || b == [] || IsSpace(a[|a| - 1]) || IsSpace(b[0])
    ensures Words(a + b) == Words(a) + Words(b)
    decreases |a|
  {
    if a == [] {
      AppendNil(b);
    } else if IsSpace(a[0]) {
      DropAppend(a, b, 1);
      WordsAppend(a[1..], b);
    } else {
      RunAppend(a, b);
      var n := |Run(a)|;
      DropAppend(a, b, n);
      WordsAppend(a[n..], b);
      assert Words(a + b) == [Run(a)] + Words(a[n..] + b);
      Assoc([Run(a)], Words(a[n..]), Words(b));
    }
  }

  /** Leading whitespace does not change the words. */
  lemma {:induction false} WordsSpacePrefix(a: string, b: string)
    requires AllSpace(a)
    ensures Words(a + b) == Words(b)
  {
    if a != [] {
      WordsAppend(a, b);
      WordsOfAllSpace(a);
    } else {
      AppendNil(b);
    }
  }

  /** Trailing whitespace does not change the words. */
  lemma {:induction false} WordsSpaceSuffix(a: string, b: string)
    requires AllSpace(b)
    ensures Words(a + b) == Words(a)
  {
    WordsAppend(a, b);
    WordsOfAllSpace(b);
  }

  lemma {:induction false} WordsOfAllAppend(xs: seq<string>, ys: seq<string>)
    ensures WordsOfAll(xs + ys) == WordsOfAll(xs) + WordsOfAll(ys)
  {
    if xs != [] {
      DropAppend(xs, ys, 1);
      WordsOfAllAppend(xs[1..], ys);
    } else {
      AppendNil(ys);
    }
  }

  lemma {:induction false} WordsOfAllSnoc(xs: seq<string>, x: string)
    ensures WordsOfAll(xs + [x]) == WordsOfAll(xs) + Words(x)
  {
    WordsOfAllAppend(xs, [x]);
    assert WordsOfAll([x]) == Words(x) + WordsOfAll([]);
  }

  // ---------------------------------------------------------------------------
  // join()

  /** Python's sep.join(xs). */
  function JoinWith(xs: seq<string>, sep: string): string {
    if |xs| == 0 then []
    else if |xs| == 1 then xs[0]
    else xs[0] + sep + JoinWith(xs[1..], sep)
  }

  lemma {:induction false} JoinSnoc(xs: seq<string>, x: string, sep: string)
    requires xs != []
    ensures JoinWith(xs + [x], sep) == JoinWith(xs, sep) + sep + x
    decreases |xs|
  {
    if |xs| == 1 {
      assert xs + [x] == [xs[0], x];
    } else {
      DropAppend(xs, [x], 1);
      JoinSnoc(xs[1..], x, sep);
    }
  }

  /** Joining with whitespace keeps every word of every part, in order. */
  lemma {:induction false} WordsOfJoin(xs: seq<string>, sep: string)
    requires sep != [] && AllSpace(sep)
    ensures Words(JoinWith(xs, sep)) == WordsOfAll(xs)
    decreases |xs|
  {
    if |xs| == 0 {
    } else if |xs| == 1 {
      assert WordsOfAll(xs) == Words(xs[0]) + WordsOfAll(xs[1..]);
    } else {
      var rest := JoinWith(xs[1..], sep);
      Assoc(xs[0], sep, rest);
      WordsAppend(xs[0], sep + rest);
      WordsSpacePrefix(sep, rest);
      WordsOfJoin(xs[1..], sep);
    }
  }

  lemma {:induction false} JoinTwo(a: string, b: string, sep: string)
    ensures JoinWith([a, b], sep) == a + sep + b
  {
    assert [a, b][1..] == [b];
  }

  lemma {:induction false} JoinThree(a: string, b: string, c: string, sep: string)
    ensures JoinWith([a, b, c], sep) == a + sep + b + sep + c
  {
    assert [a, b, c][1..] == [b, c];
    JoinTwo(b, c, sep);
    Assoc(a + sep, b + sep, c);
    Assoc(a, sep, b + sep + c);
    Assoc(a, sep, b + sep);
    Assoc(b, sep, c);
  }

  /** A join starts with its first part. */
  lemma {:induction false} JoinStartsWith(xs: seq<string>, sep: string)
    requires xs != []
    ensures StartsWith(JoinWith(xs, sep), xs[0])
  {
    if |xs| > 1 {
      Assoc(xs[0], sep, JoinWith(xs[1..], sep));
    }
  }

  /** Joining non-empty parts without whitespace at their ends gives no whitespace at the ends. */
  lemma {:induction false} JoinTrimmed(xs: seq<string>, sep: string)
    requires forall i :: 0 <= i < |xs| ==> xs[i] != [] && Trimmed(xs[i])
    ensures Trimmed(JoinWith(xs, sep))
    ensures xs != [] ==> JoinWith(xs, sep) != []
    decreases |xs|
  {
    if |xs| > 1 {
      var rest := JoinWith(xs[1..], sep);
      JoinTrimmed(xs[1..], sep);
      Assoc(xs[0], sep, rest);
      var j := xs[0] + (sep + rest);
      assert j[0] == xs[0][0];
      assert j[|j| - 1] == rest[|rest| - 1];
    }
  }

  /**
   * Concatenating parts that each begin with whitespace keeps every word of every part:
   * no word of one part runs into the next.
   */
  lemma {:induction false} WordsOfSpacedConcat(xs: seq<string>)
    requires forall i :: 0 <= i < |xs| ==> xs[i] != [] && IsSpace(xs[i][0])
    ensures Words(JoinWith(xs, [])) == WordsOfAll(xs)
    decreases |xs|
  {
    if |xs| == 1 {
      assert WordsOfAll(xs) == Words(xs[0]) + WordsOfAll(xs[1..]);
      AppendNil(Words(xs[0]));
    } else if |xs| > 1 {
      var rest := JoinWith(xs[1..], []);
      WordsOfSpacedConcat(xs[1..]);
      JoinStartsWith(xs[1..], []);
      AppendNil(xs[0]);
      assert rest[0] == xs[1][0];
      WordsAppend(xs[0], rest);
    }
  }

  /** Words joined by single spaces has no whitespace at its ends. */
  lemma {:induction false} JoinedWordsTrimmed(ws: seq<string>, sep: string)
    requires ws != [] && AllWords(ws)
    ensures var j := JoinWith(ws, sep); j != [] && !IsSpace(j[0]) && !IsSpace(j[|j| - 1])
    decreases |ws|
  {
    if |ws| > 1 {
      JoinedWordsTrimmed(ws[1..], sep);
      assert IsWord(ws[0]);
    } else {
      assert IsWord(ws[0]);
    }
  }

  // ---------------------------------------------------------------------------
  // strip()

  function TrimStart(s: string): (r: string)
    ensures |r| <= |s| && r == s[|s| - |r|..]
    ensures r == [] || !IsSpace(r[0])
    ensures forall i :: 0 <= i < |s| - |r| ==> IsSpace(s[i])
  {
    if s != [] && IsSpace(s[0]) then TrimStart(s[1..]) else s
  }

  function TrimEnd(s: string): (r: string)
    ensures |r| <= |s| && r == s[..|r|]
    ensures r == [] || !IsSpace(r[|r| - 1])
    ensures forall i :: |r| <= i < |s| ==> IsSpace(s[i])
  {
    if s != [] && IsSpace(s[|s| - 1]) then TrimEnd(s[..|s| - 1]) else s
  }

  /**
   * Python's s.strip(): s without its leading and trailing whitespace. The result is
   * trimmed, keeps exactly the words of s, and is s itself when s was already trimmed.
   */
  function Strip(s: string): (r: string)
    ensures Trimmed(r)
    ensures Words(r) == Words(s)
    ensures Trimmed(s) ==> r == s
    ensures r == [] <==> AllSpace(s)
  {
    StripFacts(s);
    TrimEnd(TrimStart(s))
  }

  /** r is the slice of s at k, with only whitespace before and after it. */
  predicate SliceAmidSpace(s: string, k: nat, r: string) {
    k + |r| <= |s| && r == s[k..k + |r|] && AllSpace(s[..k]) && AllSpace(s[k + |r|..])
  }

  lemma {:induction false} SliceBetweenSpace(s: string, lead: string, t: string, r: string, trail: string)
    requires s == lead + t && t == r + trail && AllSpace(lead) && AllSpace(trail)
    ensures SliceAmidSpace(s, |lead|, r)
  {
    var k := |lead|;
    assert s[..k] == lead;
    assert s[k..] == t;
    assert s[k..k + |r|] == t[..|r|];
    assert s[k + |r|..] == t[|r|..];
  }

  /** strip() only removes: its result is a slice of s with nothing but whitespace around it. */
  lemma StripIsSlice(s: string)
    ensures exists k :: SliceAmidSpace(s, k, Strip(s))
  {
    var t := TrimStart(s);
    StripSlice(s, t, TrimEnd(t));
    assert SliceAmidSpace(s, |s| - |t|, Strip(s));
  }

  lemma {:induction false} StripSlice(s: string, t: string, r: string)
    requires t == TrimStart(s) && r == TrimEnd(t)
    ensures SliceAmidSpace(s, |s| - |t|, r)
  {
    StripPieces(s, t, r);
    SliceBetweenSpace(s, s[..|s| - |t|], t, r, t[|r|..]);
  }

  lemma {:induction false} StripFacts(s: string)
    ensures Trimmed(TrimEnd(TrimStart(s)))
    ensures Words(TrimEnd(TrimStart(s))) == Words(s)
    ensures Trimmed(s) ==> TrimEnd(TrimStart(s)) == s
    ensures TrimEnd(TrimStart(s)) == [] <==> AllSpace(s)
  {
    var t := TrimStart(s);
    var r := TrimEnd(t);
    StripParts(s, t, r);
    StripShape(s, t, r);
  }

  lemma {:induction false} StripParts(s: string, t: string, r: string)
    requires t == TrimStart(s) && r == TrimEnd(t)
    ensures Words(r) == Words(s)
    ensures r == [] <==> AllSpace(s)
  {
    StripPieces(s, t, r);
    var lead := s[..|s| - |t|];
    var trail := t[|r|..];
    StripWords(lead, t, r, trail);
    StripEmpty(s, lead, t, r, trail);
  }

  /** s is its leading whitespace, then the stripped text, then its trailing whitespace. */
  lemma {:induction false} StripPieces(s: string, t: string, r: string)
    requires t == TrimStart(s) && r == TrimEnd(t)
    ensures s == s[..|s| - |t|] + t && AllSpace(s[..|s| - |t|])
    ensures t == r + t[|r|..] && AllSpace(t[|r|..])
  {
    SplitAt(s, |s| - |t|);
    SplitAt(t, |r|);
    PrefixSpace(s, |s| - |t|);
    SuffixSpace(t, |r|);
  }

  lemma {:induction false} PrefixSpace(s: string, k: nat)
    requires k <= |s| && forall i :: 0 <= i < k ==> IsSpace(s[i])
    ensures AllSpace(s[..k])
  {
    forall i | 0 <= i < k ensures IsSpace(s[..k][i]) {
      assert s[..k][i] == s[i];
    }
  }

  lemma {:induction false} SuffixSpace(s: string, k: nat)
    requires k <= |s| && forall i :: k <= i < |s| ==> IsSpace(s[i])
    ensures AllSpace(s[k..])
  {
    forall i | 0 <= i < |s| - k ensures IsSpace(s[k..][i]) {
      assert s[k..][i] == s[k + i];
    }
  }

  lemma {:induction false} StripShape(s: string, t: string, r: string)
    requires t == TrimStart(s) && r == TrimEnd(t)
    ensures Trimmed(r)
    ensures Trimmed(s) ==> r == s
  {
    if r != [] {
      assert r[0] == t[0];
    }
  }

  lemma {:induction false} StripWords(lead: string, t: string, r: string, trail: string)
    requires AllSpace(lead) && AllSpace(trail) && t == r + trail
    ensures Words(r) == Words(lead + t)
  {
    WordsSpacePrefix(lead, t);
    WordsSpaceSuffix(r, trail);
  }

  lemma {:induction false} StripEmpty(s: string, lead: string, t: string, r: string, trail: string)
    requires AllSpace(lead) && AllSpace(trail) && s == lead + t && t == r + trail
    requires r == [] || !IsSpace(r[0])
    ensures r == [] <==> AllSpace(s)
  {
    if r == [] {
      assert s == lead + trail;
      forall i | 0 <= i < |s| ensures IsSpace(s[i]) {
        if i < |lead| { assert s[i] == lead[i]; } else { assert s[i] == trail[i - |lead|]; }
      }
    } else {
      assert s[|lead|] == r[0];
    }
  }

  // ---------------------------------------------------------------------------
  // splitlines()

  /** Index of the first line boundary in s, or |s|. */
  function LineEnd(s: string): (n: nat)
    ensures n <= |s|
    ensures forall i :: 0 <= i < n ==> !IsLineBreak(s[i])
    ensures n < |s| ==> IsLineBreak(s[n])
  {
    if s == [] || IsLineBreak(s[0]) then 0 else 1 + LineEnd(s[1..])
  }

  /**
   * Python's s.splitlines(): the lines of s without their boundaries; "\r\n" is one boundary,
   * and a boundary at the very end does not start an empty last line.
   */
  function SplitLines(s: string): (lines: seq<string>)
    ensures forall i, j :: 0 <= i < |lines| && 0 <= j < |lines[i]| ==> !IsLineBreak(lines[i][j])
    decreases |s|
  {
    if s == [] then []
    else
      var n := LineEnd(s);
      if n == |s| then [s]
      else
        var skip := if s[n] == '\r' && n + 1 < |s| && s[n + 1] == '\n' then 2 else 1;
        [s[..n]] + SplitLines(s[n + skip..])
  }

  lemma {:induction false} BreakIsSpace(s: string, n: nat, skip: nat)
    requires n < |s| && IsLineBreak(s[n])
    requires skip == 1 || (skip == 2 && n + 1 < |s| && s[n + 1] == '\n')
    ensures AllSpace(s[n..n + skip])
  {
    assert s[n..n + skip][0] == s[n];
  }

  /** Splitting into lines loses no word and merges none. */
  lemma {:induction false} WordsOfSplitLines(s: string)
    ensures WordsOfAll(SplitLines(s)) == Words(s)
    decreases |s|
  {
    if s != [] {
      var n := LineEnd(s);
      if n == |s| {
        assert WordsOfAll([s]) == Words(s) + WordsOfAll([]);
      } else {
        var skip := if s[n] == '\r' && n + 1 < |s| && s[n + 1] == '\n' then 2 else 1;
        var lines := SplitLines(s);
        assert lines == [s[..n]] + SplitLines(s[n + skip..]);
        assert lines[1..] == SplitLines(s[n + skip..]);
        SplitAt(s, n);
        WordsAppend(s[..n], s[n..]);
        SplitAt3(s, n, n + skip);
        BreakIsSpace(s, n, skip);
        WordsSpacePrefix(s[n..n + skip], s[n + skip..]);
        WordsOfSplitLines(s[n + skip..]);
      }
    }
  }
}
