/** The paragraph chunker: `content.split("\n\n")` (src/chunking.py). The
    document is cut at every blank-line separator found by a left-to-right scan;
    empty chunks are kept. */
module Chunking {
  import opened Text

  /** The separator the chunker splits on and the generator joins with. */
  const ParagraphSep: string := "\n\n"

  /** Python's `content.split("\n\n")`: the scan takes the leftmost separator,
      skips past it and continues, so occurrences never overlap. */
  function SplitParagraphs(content: string): (chunks: seq<string>)
    ensures |chunks| >= 1
    ensures chunks[0] <= content
    decreases |content|
  {
    if |content| < 2 then [content]
    else if content[0] == '\n' && content[1] == '\n' then [""] + SplitParagraphs(content[2..])
    else
      var rest := SplitParagraphs(content[1..]);
      [[content[0]] + rest[0]] + rest[1..]
  }

  /** Python's `content.count("\n\n")`: leftmost non-overlapping occurrences. */
  function CountSeparators(content: string): nat
    decreases |content|
  {
    if |content| < 2 then 0
    else if content[0] == '\n' && content[1] == '\n' then 1 + CountSeparators(content[2..])
    else CountSeparators(content[1..])
  }

  /** `"\n\n".join(chunks)`. */
  function JoinParagraphs(chunks: seq<string>): string
  {
    Join(chunks, ParagraphSep)
  }

  /** A chunk list that the chunker can produce: at least one chunk, no chunk
      holds a separator, and no chunk but the last ends with a newline (such a
      newline would have formed a separator with the one that follows). */
  predicate WellFormedChunks(chunks: seq<string>)
  {
    && |chunks| >= 1
    && (forall k :: 0 <= k < |chunks| ==> !Contains(chunks[k], ParagraphSep))
    && (forall k :: 0 <= k < |chunks| - 1 ==> chunks[k] == [] || chunks[k][|chunks[k]| - 1] != '\n')
  }

  lemma JoinCons(c: char, first: string, rest: seq<string>)
    ensures JoinParagraphs([[c] + first] + rest) == [c] + JoinParagraphs([first] + rest)
  {
    assert ([[c] + first] + rest)[1..] == rest;
    assert ([first] + rest)[1..] == rest;
  }

  /** Joining the chunks with the separator gives back the document exactly. */
  lemma {:induction false} JoinSplit(content: string)
    ensures JoinParagraphs(SplitParagraphs(content)) == content
    decreases |content|
  {
    if |content| < 2 {
    } else if content[0] == '\n' && content[1] == '\n' {
      var rest := SplitParagraphs(content[2..]);
      JoinSplit(content[2..]);
      assert ([""] + rest)[1..] == rest;
      assert content == ParagraphSep + content[2..];
    } else {
      var rest := SplitParagraphs(content[1..]);
      JoinSplit(content[1..]);
      JoinCons(content[0], rest[0], rest[1..]);
      assert [rest[0]] + rest[1..] == rest;
      assert [content[0]] + content[1..] == content;
    }
  }

  /** The number of chunks is one more than the number of separators. */
  lemma {:induction false} SplitCount(content: string)
    ensures |SplitParagraphs(content)| == CountSeparators(content) + 1
    decreases |content|
  {
    if |content| >= 2 {
      if content[0] == '\n' && content[1] == '\n' {
        SplitCount(content[2..]);
      } else {
        SplitCount(content[1..]);
      }
    }
  }

  /** The chunker always produces a well-formed chunk list: in particular no
      chunk contains the separator. */
  lemma {:induction false} SplitWellFormed(content: string)
    ensures WellFormedChunks(SplitParagraphs(content))
    decreases |content|
  {
    var r := SplitParagraphs(content);
    if |content| < 2 {
      if Contains(content, ParagraphSep) {
        ContainsIff(content, ParagraphSep);
      }
    } else if content[0] == '\n' && content[1] == '\n' {
      SplitWellFormed(content[2..]);
      var rest := SplitParagraphs(content[2..]);
      assert r == [""] + rest;
      assert forall k :: 1 <= k < |r| ==> r[k] == rest[k - 1];
    } else {
      SplitWellFormed(content[1..]);
      var rest := SplitParagraphs(content[1..]);
      var first := [content[0]] + rest[0];
      assert r == [first] + rest[1..];
      assert rest[0] <= content[1..];
      assert forall k :: 1 <= k < |r| ==> r[k] == rest[k];
    }
  }

  /** Conversely, splitting the join of a well-formed chunk list gives that
      list back, so `SplitParagraphs` is a bijection between documents and
      well-formed chunk lists. */
  lemma {:induction false} SplitJoin(chunks: seq<string>)
    requires WellFormedChunks(chunks)
    ensures SplitParagraphs(JoinParagraphs(chunks)) == chunks
    decreases |JoinParagraphs(chunks)|, |chunks|
  {
    var c0 := chunks[0];
    var tail := chunks[1..];
    if |chunks| == 1 {
      SplitWellFormedSingle(c0);
    } else if c0 == [] {
      var s := JoinParagraphs(chunks);
      assert s == ParagraphSep + JoinParagraphs(tail);
      assert s[2..] == JoinParagraphs(tail);
      assert WellFormedChunks(tail) by {
        assert forall k :: 0 <= k < |tail| ==> tail[k] == chunks[k + 1];
      }
      SplitJoin(tail);
      assert chunks == [""] + tail;
    } else {
      var x := c0[0];
      var c0' := c0[1..];
      var shorter := [c0'] + tail;
      assert c0 == [x] + c0';
      assert chunks == [[x] + c0'] + tail;
      JoinCons(x, c0', tail);
      var s := JoinParagraphs(chunks);
      var s' := JoinParagraphs(shorter);
      assert s == [x] + s';
      assert !Contains(c0', ParagraphSep) by {
        if Contains(c0', ParagraphSep) {
          ContainsAppend(c0', [x], ParagraphSep);
        }
      }
      assert WellFormedChunks(shorter) by {
        assert forall k :: 1 <= k < |shorter| ==> shorter[k] == chunks[k];
        if c0' != [] {
          assert c0'[|c0'| - 1] == c0[|c0| - 1];
        }
      }
      SplitJoin(shorter);
      assert s[1..] == s';
    }
  }

  lemma SplitWellFormedSingle(c: string)
    requires !Contains(c, ParagraphSep)
    ensures SplitParagraphs(c) == [c]
  {
    SplitNoSeparator(c);
  }

  /** A document with no separator is a single chunk. */
  lemma {:induction false} SplitNoSeparator(content: string)
    requires !Contains(content, ParagraphSep)
    ensures SplitParagraphs(content) == [content]
    decreases |content|
  {
    if |content| >= 2 {
      assert !(ParagraphSep <= content);
      SplitNoSeparator(content[1..]);
      assert [content[0]] + content[1..] == content;
    }
  }

  /** Where chunk `k` starts in the joined text: every earlier chunk plus its separator. */
  function ChunkOffset(chunks: seq<string>, k: nat): nat
    requires k <= |chunks|
  {
    if k == 0 then 0 else ChunkOffset(chunks, k - 1) + |chunks[k - 1]| + |ParagraphSep|
  }

  /** Chunk `k` sits in the joined text at `ChunkOffset(chunks, k)`: the chunks
      are contiguous pieces of the text, at strictly increasing offsets. */
  lemma {:induction false} ChunkAtOffset(chunks: seq<string>, k: nat)
    requires k < |chunks|
    ensures ChunkOffset(chunks, k) + |chunks[k]| <= |JoinParagraphs(chunks)|
    ensures JoinParagraphs(chunks)[ChunkOffset(chunks, k)..ChunkOffset(chunks, k) + |chunks[k]|] == chunks[k]
    decreases k
  {
    var s := JoinParagraphs(chunks);
    if k == 0 {
      if |chunks| > 1 {
        assert s == chunks[0] + ParagraphSep + JoinParagraphs(chunks[1..]);
      }
    } else {
      var tail := chunks[1..];
      var head := chunks[0] + ParagraphSep;
      var rest := JoinParagraphs(tail);
      assert s == head + rest;
      ChunkAtOffset(tail, k - 1);
      OffsetShift(chunks, k);
      var o := ChunkOffset(tail, k - 1);
      assert tail[k - 1] == chunks[k];
      assert ChunkOffset(chunks, k) == |head| + o;
      SliceAfterPrefix(head, rest, o, o + |chunks[k]|);
    }
  }

  /** A slice of the second part of a concatenation, shifted by the first part's length. */
  lemma SliceAfterPrefix(a: string, b: string, i: nat, j: nat)
    requires i <= j <= |b|
    ensures (a + b)[|a| + i..|a| + j] == b[i..j]
  {
    assert forall n :: 0 <= n < j - i ==> (a + b)[|a| + i..|a| + j][n] == b[i..j][n];
  }

  lemma {:induction false} OffsetShift(chunks: seq<string>, k: nat)
    requires 0 < k <= |chunks|
    ensures ChunkOffset(chunks, k) == |chunks[0]| + |ParagraphSep| + ChunkOffset(chunks[1..], k - 1)
    decreases k
  {
    if k > 1 {
      OffsetShift(chunks, k - 1);
    }
  }

  /** The chunks of a document lie in it, in document order, each at its offset. */
  lemma SplitChunksInDocument(content: string, k: nat)
    requires k < |SplitParagraphs(content)|
    ensures OccursAt(content, SplitParagraphs(content)[k], ChunkOffset(SplitParagraphs(content), k))
  {
    JoinSplit(content);
    ChunkInText(SplitParagraphs(content), content, k);
  }

  lemma ChunkInText(chunks: seq<string>, text: string, k: nat)
    requires k < |chunks| && JoinParagraphs(chunks) == text
    ensures OccursAt(text, chunks[k], ChunkOffset(chunks, k))
  {
    ChunkAtOffset(chunks, k);
  }

  /** Empty chunks are kept: leading, trailing and doubled separators produce
      `""` entries, and a run of three newlines leaves a chunk that starts
      with a newline. */
  lemma SplitExamples()
    ensures SplitParagraphs("") == [""]
    ensures SplitParagraphs("\n\n\n\n") == ["", "", ""]
    ensures SplitParagraphs("\n\nA") == ["", "A"]
  {
    assert "\n\n\n\n"[2..] == "\n\n";
    assert "\n\n"[2..] == "";
    assert SplitParagraphs("\n\n") == ["", ""];
    assert "\n\nA"[2..] == "A";
  }

  lemma SplitExampleOddRun()
    ensures SplitParagraphs("A\n\n\nB") == ["A", "\nB"]
  {
    assert SplitParagraphs("B") == ["B"];
    assert "\nB"[1..] == "B";
    assert ['\n'] + "B" == "\nB";
    assert SplitParagraphs("\nB") == ["\nB"];
    assert "\n\n\nB"[2..] == "\nB";
    assert SplitParagraphs("\n\n\nB") == ["", "\nB"];
    assert "A\n\n\nB"[1..] == "\n\n\nB";
    assert ['A'] + "" == "A";
  }
}
