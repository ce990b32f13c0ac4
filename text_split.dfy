/**
 * split_text_on_words: text longer than a limit is broken into its words, the words are
 * packed greedily into chunks of at most the limit, and the chunks are joined by blank lines.
 * The text extractor and the older crawler hold identical copies of this routine.
 */
module TextSplit {
  import opened Seqs
  import opened Strings

  /** The loop's state: the chunks finished so far and the chunk being filled. */
  datatype Packing = Packing(chunks: seq<string>, current: string)

  /** One turn of the loop over words. */
  function Step(st: Packing, word: string, maxLength: int): Packing {
    if |st.current| + |word| + 1 > maxLength then
      if st.current != [] then Packing(st.chunks + [Strip(st.current)], word)
      else Packing(st.chunks + [word], st.current)   // a single word that is too long
    else if st.current != [] then Packing(st.chunks, st.current + " " + word)
    else Packing(st.chunks, word)
  }

  /** The loop's state once it has consumed the given words. */
  function Packed(words: seq<string>, maxLength: int): Packing
    decreases |words|
  {
    if words == [] then Packing([], [])
    else Step(Packed(words[..|words| - 1], maxLength), words[|words| - 1], maxLength)
  }

  /** What is appended after the loop: the last chunk, when it is not empty. */
  function Finish(st: Packing): seq<string> {
    if st.current != [] then st.chunks + [Strip(st.current)] else st.chunks
  }

  /** The chunks the routine joins, for the given words. */
  function Chunks(words: seq<string>, maxLength: int): seq<string> {
    Finish(Packed(words, maxLength))
  }

  /** The routine's result. */
  function SplitText(text: string, maxLength: int): string {
    if |text| <= maxLength then text else JoinWith(Chunks(Words(text), maxLength), "\n\n")
  }

  // ---------------------------------------------------------------------------
  // What a packing is, independently of the loop

  /**
   * A chunk: its words separated by single spaces, and within the limit unless it is one
   * word on its own.
   */
  predicate ChunkOk(c: string, maxLength: int) {
    Words(c) != [] && c == JoinWith(Words(c), " ") && (|c| <= maxLength || |Words(c)| == 1)
  }

  /** No chunk could have taken the first word of the next one without passing the limit. */
  predicate Greedy(chunks: seq<string>, maxLength: int) {
    forall i :: 0 <= i < |chunks| - 1 ==> |chunks[i]| + 1 + |Run(chunks[i + 1])| > maxLength
  }

  /** chunks is a greedy packing of words under maxLength. */
  predicate IsPacking(chunks: seq<string>, words: seq<string>, maxLength: int) {
    && (forall i :: 0 <= i < |chunks| ==> ChunkOk(chunks[i], maxLength))
    && WordsOfAll(chunks) == words
    && Greedy(chunks, maxLength)
  }

  /** What the loop keeps true after consuming the words in done. */
  predicate PackInv(st: Packing, done: seq<string>, maxLength: int) {
    && (forall i :: 0 <= i < |st.chunks| ==> ChunkOk(st.chunks[i], maxLength))
    && (st.current != [] ==> ChunkOk(st.current, maxLength))
    && WordsOfAll(st.chunks) + Words(st.current) == done
    && Greedy(st.chunks, maxLength)
    && (st.chunks != [] && st.current != [] ==>
          |st.chunks[|st.chunks| - 1]| + 1 + |Run(st.current)| > maxLength)
    && (st.chunks != [] && st.current == [] ==> |st.chunks[|st.chunks| - 1]| >= maxLength)
  }

  lemma {:induction false} WordIsChunk(w: string, maxLength: int)
    requires IsWord(w)
    ensures ChunkOk(w, maxLength) && Run(w) == w && Words(w) == [w]
  {
    WordsOfWord(w);
    RunOfWord(w);
  }

  lemma {:induction false} ChunkTrimmed(c: string, maxLength: int)
    requires ChunkOk(c, maxLength)
    ensures Trimmed(c) && Strip(c) == c && c != []
  {
    JoinedWordsTrimmed(Words(c), " ");
  }

  /** Appending a fitting word to a chunk keeps it a chunk, with the same first word. */
  lemma {:induction false} ExtendChunk(c: string, w: string, maxLength: int)
    requires ChunkOk(c, maxLength) && IsWord(w) && |c| + |w| + 1 <= maxLength
    ensures ChunkOk(c + " " + w, maxLength)
    ensures Words(c + " " + w) == Words(c) + [w]
    ensures Run(c + " " + w) == Run(c)
  {
    var e := c + " " + w;
    assert e == c + (" " + w);
    WordsAppend(c, " " + w);
    WordsSpacePrefix(" ", w);
    WordsOfWord(w);
    RunAppend(c, " " + w);
    JoinSnoc(Words(c), w, " ");
  }

  lemma {:induction false} GreedySnoc(chunks: seq<string>, c: string, maxLength: int)
    requires Greedy(chunks, maxLength)
    requires chunks != [] ==> |chunks[|chunks| - 1]| + 1 + |Run(c)| > maxLength
    ensures Greedy(chunks + [c], maxLength)
  {
    var cs := chunks + [c];
    forall i | 0 <= i < |cs| - 1 ensures |cs[i]| + 1 + |Run(cs[i + 1])| > maxLength {
      if i < |chunks| - 1 {
        assert cs[i] == chunks[i] && cs[i + 1] == chunks[i + 1];
      } else {
        assert cs[i] == chunks[|chunks| - 1] && cs[i + 1] == c;
      }
    }
  }

  lemma {:induction false} ChunksSnoc(chunks: seq<string>, c: string, maxLength: int)
    requires forall i :: 0 <= i < |chunks| ==> ChunkOk(chunks[i], maxLength)
    requires ChunkOk(c, maxLength)
    ensures forall i :: 0 <= i < |chunks + [c]| ==> ChunkOk((chunks + [c])[i], maxLength)
  {
  }

  /** One turn of the loop keeps the invariant. */
  lemma {:induction false} StepKeepsInv(st: Packing, done: seq<string>, w: string, maxLength: int)
    requires PackInv(st, done, maxLength) && IsWord(w)
    ensures PackInv(Step(st, w, maxLength), done + [w], maxLength)
  {
    WordIsChunk(w, maxLength);
    var cur := st.current;
    if |cur| + |w| + 1 > maxLength {
      if cur != [] {
        CloseChunkKeepsInv(st, done, w, maxLength);
      } else {
        LongWordKeepsInv(st, done, w, maxLength);
      }
    } else if cur != [] {
      ExtendChunk(cur, w, maxLength);
      assert Step(st, w, maxLength) == Packing(st.chunks, cur + " " + w);
    } else {
      assert Step(st, w, maxLength) == Packing(st.chunks, w);
    }
  }

  /** The word does not fit: the current chunk is closed and the word starts the next one. */
  lemma {:induction false} CloseChunkKeepsInv(st: Packing, done: seq<string>, w: string, maxLength: int)
    requires PackInv(st, done, maxLength) && IsWord(w)
    requires st.current != [] && |st.current| + |w| + 1 > maxLength
    ensures PackInv(Step(st, w, maxLength), done + [w], maxLength)
  {
    var cur := st.current;
    WordIsChunk(w, maxLength);
    ChunkTrimmed(cur, maxLength);
    ChunksSnoc(st.chunks, cur, maxLength);
    WordsOfAllSnoc(st.chunks, cur);
    GreedySnoc(st.chunks, cur, maxLength);
    var next := Packing(st.chunks + [cur], w);
    assert Step(st, w, maxLength) == next;
    assert WordsOfAll(next.chunks) + Words(next.current) == done + [w];
    assert |next.chunks[|next.chunks| - 1]| + 1 + |Run(next.current)| > maxLength;
  }

  /** A word that does not fit an empty chunk becomes a chunk of its own. */
  lemma {:induction false} LongWordKeepsInv(st: Packing, done: seq<string>, w: string, maxLength: int)
    requires PackInv(st, done, maxLength) && IsWord(w)
    requires st.current == [] && |w| + 1 > maxLength
    ensures PackInv(Step(st, w, maxLength), done + [w], maxLength)
  {
    WordIsChunk(w, maxLength);
    ChunksSnoc(st.chunks, w, maxLength);
    WordsOfAllSnoc(st.chunks, w);
    GreedySnoc(st.chunks, w, maxLength);
    var next := Packing(st.chunks + [w], []);
    assert Step(st, w, maxLength) == next;
    assert WordsOfAll(next.chunks) + Words(next.current) == done + [w];
  }

  /** The whole loop keeps the invariant. */
  lemma {:induction false} PackedInv(words: seq<string>, maxLength: int)
    requires AllWords(words)
    ensures PackInv(Packed(words, maxLength), words, maxLength)
    decreases |words|
  {
    if words == [] {
      assert PackInv(Packing([], []), [], maxLength);
    } else {
      var n := |words| - 1;
      PackedInv(words[..n], maxLength);
      StepKeepsInv(Packed(words[..n], maxLength), words[..n], words[n], maxLength);
      TakeLast(words);
    }
  }

  lemma {:induction false} FinishIsPacking(st: Packing, done: seq<string>, maxLength: int)
    requires PackInv(st, done, maxLength)
    ensures IsPacking(Finish(st), done, maxLength)
  {
    if st.current != [] {
      ChunkTrimmed(st.current, maxLength);
      ChunksSnoc(st.chunks, st.current, maxLength);
      WordsOfAllSnoc(st.chunks, st.current);
      GreedySnoc(st.chunks, st.current, maxLength);
    } else {
      assert Words(st.current) == [];
      assert WordsOfAll(st.chunks) + [] == WordsOfAll(st.chunks);
    }
  }

  /**
   * The chunks are a greedy packing of the words: every word kept once and in order, every
   * chunk single-spaced and within the limit unless it is a lone word, no boundary movable.
   */
  lemma {:induction false} ChunksArePacking(words: seq<string>, maxLength: int)
    requires AllWords(words)
    ensures IsPacking(Chunks(words, maxLength), words, maxLength)
  {
    PackedInv(words, maxLength);
    FinishIsPacking(Packed(words, maxLength), words, maxLength);
  }

  // ---------------------------------------------------------------------------
  // Uniqueness: the packing is determined by the words and the limit

  /** The words of a chunk start the words still to be placed. */
  lemma {:induction false} FirstChunkPrefix(chunks: seq<string>, words: seq<string>, maxLength: int)
    requires IsPacking(chunks, words, maxLength) && chunks != []
    ensures Words(chunks[0]) <= words
    ensures IsPacking(chunks[1..], words[|Words(chunks[0])|..], maxLength)
  {
    assert WordsOfAll(chunks) == Words(chunks[0]) + WordsOfAll(chunks[1..]);
    var rest := chunks[1..];
    forall i | 0 <= i < |rest| - 1 ensures |rest[i]| + 1 + |Run(rest[i + 1])| > maxLength {
      assert rest[i] == chunks[i + 1] && rest[i + 1] == chunks[i + 2];
    }
  }

  /** For single-spaced words, a longer prefix of the words gives a longer chunk. */
  lemma {:induction false} JoinPrefixLength(ws: seq<string>, k: nat)
    requires AllWords(ws) && 0 < k < |ws|
    ensures |JoinWith(ws[..k], " ")| + 1 + |ws[k]| <= |JoinWith(ws, " ")|
    decreases |ws|
  {
    if k == 1 {
      assert ws[..1] == [ws[0]];
      assert JoinWith(ws, " ") == ws[0] + " " + JoinWith(ws[1..], " ");
      JoinFirstLength(ws[1..]);
    } else {
      assert ws[..k][1..] == ws[1..][..k - 1];
      JoinPrefixLength(ws[1..], k - 1);
    }
  }

  lemma {:induction false} JoinFirstLength(ws: seq<string>)
    requires ws != []
    ensures |ws[0]| <= |JoinWith(ws, " ")|
  {
  }

  /** Two greedy packings of the same words under the same limit are equal. */
  lemma {:induction false} PackingUnique(a: seq<string>, b: seq<string>, words: seq<string>, maxLength: int)
    requires IsPacking(a, words, maxLength) && IsPacking(b, words, maxLength)
    ensures a == b
    decreases |a|
  {
    if a != [] && b != [] {
      FirstChunkPrefix(a, words, maxLength);
      FirstChunkPrefix(b, words, maxLength);
      var wa, wb := Words(a[0]), Words(b[0]);
      assert ChunkOk(a[0], maxLength) && ChunkOk(b[0], maxLength);
      if |wa| < |wb| {
        FirstChunkMaximal(a, words, wb, maxLength);
      } else if |wb| < |wa| {
        FirstChunkMaximal(b, words, wa, maxLength);
      }
      assert wa == wb;
      PackingUnique(a[1..], b[1..], words[|wa|..], maxLength);
      assert a == [a[0]] + a[1..] && b == [b[0]] + b[1..];
    } else if a != [] {
      EmptyPacking(a, words, maxLength);
    } else if b != [] {
      EmptyPacking(b, words, maxLength);
    }
  }

  /** A non-empty packing has words. */
  lemma {:induction false} EmptyPacking(a: seq<string>, words: seq<string>, maxLength: int)
    requires IsPacking(a, words, maxLength) && a != []
    ensures words != []
  {
    assert ChunkOk(a[0], maxLength);
    assert WordsOfAll(a) == Words(a[0]) + WordsOfAll(a[1..]);
  }

  /**
   * The first chunk takes at least as many words as any single-spaced run of the leading
   * words that fits the limit: otherwise the next word would have fitted.
   */
  lemma {:induction false} FirstChunkMaximal(a: seq<string>, words: seq<string>, wb: seq<string>, maxLength: int)
    requires IsPacking(a, words, maxLength) && a != []
    requires AllWords(wb) && wb <= words && |wb| > 1
    requires |JoinWith(wb, " ")| <= maxLength
    ensures |Words(a[0])| >= |wb|
  {
    FirstChunkPrefix(a, words, maxLength);
    var wa := Words(a[0]);
    assert ChunkOk(a[0], maxLength);
    NextWordAfterChunk(a, words, maxLength);
    PrefixesAgree(wa, wb, words);
    JoinPrefixLengthWhen(wb, |wa|);
  }

  /** When words remain after the first chunk, the next one starts with the next word, which did not fit. */
  lemma {:induction false} NextWordAfterChunk(a: seq<string>, words: seq<string>, maxLength: int)
    requires IsPacking(a, words, maxLength) && a != []
    ensures var k := |Words(a[0])|;
            k < |words| ==> |a| > 1 && words[k] == Run(a[1]) && |a[0]| + 1 + |Run(a[1])| > maxLength
  {
    var wa := Words(a[0]);
    var k := |wa|;
    assert WordsOfAll(a) == wa + WordsOfAll(a[1..]);
    if k < |words| {
      assert |WordsOfAll(a[1..])| > 0;
      assert |a| > 1;
      assert ChunkOk(a[1], maxLength);
      assert WordsOfAll(a[1..]) == Words(a[1]) + WordsOfAll(a[2..]);
      RunOfChunk(a[1], maxLength);
    }
  }

  /** Two prefixes of the same sequence agree on their common length. */
  lemma PrefixesAgree(wa: seq<string>, wb: seq<string>, words: seq<string>)
    requires wa <= words && wb <= words
    ensures |wa| <= |wb| ==> wb[..|wa|] == wa
  {
  }

  lemma JoinPrefixLengthWhen(ws: seq<string>, k: nat)
    requires AllWords(ws) && 0 < k
    ensures k < |ws| ==> |JoinWith(ws[..k], " ")| + 1 + |ws[k]| <= |JoinWith(ws, " ")|
  {
    if k < |ws| {
      JoinPrefixLength(ws, k);
    }
  }

  /** The first word of a chunk is its leading run. */
  lemma {:induction false} RunOfChunk(c: string, maxLength: int)
    requires ChunkOk(c, maxLength)
    ensures Run(c) == Words(c)[0]
  {
    var ws := Words(c);
    if |ws| == 1 {
      WordIsChunk(ws[0], maxLength);
    } else {
      assert c == ws[0] + " " + JoinWith(ws[1..], " ");
      assert c == ws[0] + (" " + JoinWith(ws[1..], " "));
      RunAppend(ws[0], " " + JoinWith(ws[1..], " "));
      WordIsChunk(ws[0], maxLength);
    }
  }

  // ---------------------------------------------------------------------------
  // Properties of the routine's result

  /** The result holds exactly the words of the text, in order: none lost, duplicated or cut. */
  lemma {:induction false} SplitKeepsWords(text: string, maxLength: int)
    ensures Words(SplitText(text, maxLength)) == Words(text)
  {
    if |text| > maxLength {
      var cs := Chunks(Words(text), maxLength);
      ChunksArePacking(Words(text), maxLength);
      WordsOfJoin(cs, "\n\n");
    }
  }

  /**
   * A text over the limit becomes the blank-line join of the one greedy packing of its words.
   */
  lemma {:induction false} SplitIsGreedyPacking(text: string, maxLength: int)
    requires |text| > maxLength
    ensures IsPacking(Chunks(Words(text), maxLength), Words(text), maxLength)
    ensures SplitText(text, maxLength) == JoinWith(Chunks(Words(text), maxLength), "\n\n")
    ensures forall cs :: IsPacking(cs, Words(text), maxLength) ==> cs == Chunks(Words(text), maxLength)
  {
    ChunksArePacking(Words(text), maxLength);
    forall cs | IsPacking(cs, Words(text), maxLength) ensures cs == Chunks(Words(text), maxLength) {
      PackingUnique(cs, Chunks(Words(text), maxLength), Words(text), maxLength);
    }
  }

  /** Whitespace-only text over the limit becomes the empty string. */
  lemma {:induction false} SplitBlank(text: string, maxLength: int)
    requires |text| > maxLength && AllSpace(text)
    ensures SplitText(text, maxLength) == []
  {
    WordsOfAllSpace(text);
  }

  // ---------------------------------------------------------------------------
  // The routine

  /** split_text_on_words(text, max_length). */
  method SplitTextOnWords(text: string, maxLength: int) returns (r: string)
    ensures |text| <= maxLength ==> r == text
    ensures r == SplitText(text, maxLength)
    ensures Words(r) == Words(text)
  {
    SplitKeepsWords(text, maxLength);
    if |text| <= maxLength {
      return text;
    }
    var chunks: seq<string> := [];
    var current: string := "";
    var words := Words(text);
    for i := 0 to |words|
      invariant Packing(chunks, current) == Packed(words[..i], maxLength)
    {
      var word := words[i];
      TakeTake(words, i);
      if |current| + |word| + 1 > maxLength {
        if current != "" {
          chunks := chunks + [Strip(current)];
          current := word;
        } else {
          chunks := chunks + [word];
        }
      } else {
        if current != "" {
          current := current + " " + word;
        } else {
          current := word;
        }
      }
    }
    TakeAll(words);
    if current != "" {
      chunks := chunks + [Strip(current)];
    }
    r := JoinWith(chunks, "\n\n");
  }
}
