/** The cross-encoder reranker (`Reranker.rerank`, src/reranking.py). The
    query is paired with every chunk, an oracle scores the pairs, the
    (chunk, score) list is sorted stably by descending score and cut with the
    Python slice `[:top_k]`. */
module Reranking {
  import opened Outcomes
  import opened StableSort

  /** A relevance score. The cross-encoder returns floats; only their order
      matters here, so they are modelled as integers. */
  type Score = int

  /** A chunk with its score, as built by `zip(chunks, scores)`. */
  type Scored = (string, Score)

  /** The cross-encoder's `predict`: one score per pair, or an error it raises. */
  type Predictor = seq<(string, string)> -> Result<seq<Score>, string>

  /** `[(query, chunk) for chunk in chunks]`. */
  function Pairs(query: string, chunks: seq<string>): (pairs: seq<(string, string)>)
    ensures |pairs| == |chunks|
    ensures forall i :: 0 <= i < |chunks| ==> pairs[i] == (query, chunks[i])
  {
    if |chunks| == 0 then [] else Pairs(query, chunks[..|chunks| - 1]) + [(query, chunks[|chunks| - 1])]
  }

  /** Python's `zip`: pairs elements up to the shorter of the two lists. */
  function Zip<A, B>(xs: seq<A>, ys: seq<B>): (r: seq<(A, B)>)
    ensures |r| == Min(|xs|, |ys|)
    ensures forall i :: 0 <= i < |r| ==> r[i] == (xs[i], ys[i])
  {
    if |xs| == 0 || |ys| == 0 then [] else [(xs[0], ys[0])] + Zip(xs[1..], ys[1..])
  }

  /** Where Python's slice `s[:k]` stops on a list of length `n`: `k` itself,
      clamped to `n`, or for negative `k` that many items before the end. */
  function SliceStop(n: nat, k: int): nat
  {
    if k >= 0 then (if k <= n then k else n)
    else if n + k >= 0 then n + k
    else 0
  }

  /** Python's `s[:k]`. */
  function PySliceTo<T>(s: seq<T>, k: int): (r: seq<T>)
    ensures r <= s
  {
    s[..SliceStop(|s|, k)]
  }

  function ScoreOf(p: Scored): Score { p.1 }

  function ChunkOf(p: Scored): string { p.0 }

  /** `<` on scores: the order `sort` compares keys with. */
  function ScoreLess(a: Score, b: Score): bool { a < b }

  lemma ScoreLessIsStrictTotalOrder()
    ensures StrictTotalOrder(ScoreLess)
  {
  }

  /** `scored_chunks` after `sort(key=lambda x: x[1], reverse=True)`. */
  function Ranked(chunks: seq<string>, scores: seq<Score>): seq<Scored>
  {
    SortDesc(Zip(chunks, scores), ScoreOf, ScoreLess)
  }

  /** The ranked pairs that survive the `[:top_k]` cut, and those cut off. */
  function Kept(chunks: seq<string>, scores: seq<Score>, topK: int): seq<Scored>
  {
    var ranked := Ranked(chunks, scores);
    ranked[..SliceStop(|ranked|, topK)]
  }

  function Dropped(chunks: seq<string>, scores: seq<Score>, topK: int): seq<Scored>
  {
    var ranked := Ranked(chunks, scores);
    ranked[SliceStop(|ranked|, topK)..]
  }

  /** The value `rerank` returns once the oracle has produced `scores`. */
  function Reranked(chunks: seq<string>, scores: seq<Score>, topK: int): seq<string>
  {
    PySliceTo(MapSeq(ChunkOf, Ranked(chunks, scores)), topK)
  }

  /** The whole call: an exception from `predict` propagates, otherwise the reranked chunks. */
  function RerankResult(query: string, chunks: seq<string>, topK: int, predict: Predictor): Result<seq<string>, string>
  {
    match predict(Pairs(query, chunks))
    case Err(e) => Err(e)
    case Ok(scores) => Ok(Reranked(chunks, scores, topK))
  }

  /** `Reranker.rerank`: scores the pairs, sorts the zipped list in place and
      slices it. */
  method Rerank(query: string, chunks: seq<string>, topK: int, predict: Predictor)
    returns (r: Result<seq<string>, string>)
    ensures r == RerankResult(query, chunks, topK, predict)
  {
    var pairs := Pairs(query, chunks);
    var scores := predict(pairs);
    if scores.Err? {
      return Err(scores.error);
    }
    var scored := Zip(chunks, scores.value);
    var a := new Scored[|scored|](i requires 0 <= i < |scored| => scored[i]);
    assert a[..] == scored;
    SortInPlace(a, ScoreOf, ScoreLess);
    r := Ok(PySliceTo(MapSeq(ChunkOf, a[..]), topK));
  }

  // ---------------------------------------------------------------------------
  // Properties
  // ---------------------------------------------------------------------------

  /** The chunk column of the zip is the chunk list, cut to the score count. */
  lemma ZipChunks(chunks: seq<string>, scores: seq<Score>)
    ensures MapSeq(ChunkOf, Zip(chunks, scores)) == chunks[..Min(|chunks|, |scores|)]
  {
    var z := Zip(chunks, scores);
    forall i | 0 <= i < |z| ensures MapSeq(ChunkOf, z)[i] == chunks[i] {
      MapSeqIndex(ChunkOf, z, i);
    }
  }

  /** With one score per chunk, `top_k >= 0` keeps `min(top_k, |chunks|)`
      chunks, and a negative `top_k` drops the last `-top_k` of them. */
  lemma RerankedLength(chunks: seq<string>, scores: seq<Score>, topK: int)
    requires |scores| == |chunks|
    ensures topK >= 0 ==> |Reranked(chunks, scores, topK)| == Min(topK, |chunks|)
    ensures topK < 0 ==> |Reranked(chunks, scores, topK)| + Min(-topK, |chunks|) == |chunks|
  {
  }

  /** The result is the chunk column of the kept pairs, and the kept and the
      dropped pairs together are exactly the zipped (chunk, score) pairs. */
  lemma RerankedIsKept(chunks: seq<string>, scores: seq<Score>, topK: int)
    ensures Reranked(chunks, scores, topK) == MapSeq(ChunkOf, Kept(chunks, scores, topK))
    ensures multiset(Kept(chunks, scores, topK)) + multiset(Dropped(chunks, scores, topK))
         == multiset(Zip(chunks, scores))
  {
    var ranked := Ranked(chunks, scores);
    var n := SliceStop(|ranked|, topK);
    MapSeqPrefix(ChunkOf, ranked, n);
    assert ranked == ranked[..n] + ranked[n..];
    SortDescPermutation(Zip(chunks, scores), ScoreOf, ScoreLess);
  }

  /** The scores of the returned chunks are non-increasing. */
  lemma KeptNonIncreasing(chunks: seq<string>, scores: seq<Score>, topK: int)
    ensures var kept := Kept(chunks, scores, topK);
            forall i, j :: 0 <= i < j < |kept| ==> kept[i].1 >= kept[j].1
  {
    ScoreLessIsStrictTotalOrder();
    SortDescSorted(Zip(chunks, scores), ScoreOf, ScoreLess);
  }

  /** Every returned chunk scores at least as high as every chunk cut off. */
  lemma KeptOutscoreDropped(chunks: seq<string>, scores: seq<Score>, topK: int)
    ensures forall p, q :: p in Kept(chunks, scores, topK) && q in Dropped(chunks, scores, topK) ==> p.1 >= q.1
  {
    var ranked := Ranked(chunks, scores);
    var n := SliceStop(|ranked|, topK);
    ScoreLessIsStrictTotalOrder();
    SortDescSorted(Zip(chunks, scores), ScoreOf, ScoreLess);
    forall p, q | p in ranked[..n] && q in ranked[n..] ensures p.1 >= q.1 {
      var i :| 0 <= i < n && ranked[i] == p;
      var j :| 0 <= j < |ranked| - n && ranked[n..][j] == q;
      assert ranked[n + j] == q;
    }
  }

  /** Nothing is added and no duplicate is over-counted: the result is a
      sub-multiset of the input chunks. */
  lemma RerankedSubMultiset(chunks: seq<string>, scores: seq<Score>, topK: int)
    ensures multiset(Reranked(chunks, scores, topK)) <= multiset(chunks)
  {
    var mapped := MapSeq(ChunkOf, Ranked(chunks, scores));
    PrefixSubMultiset(mapped, SliceStop(|mapped|, topK));
    SortDescMapPermutation(Zip(chunks, scores), ScoreOf, ScoreLess, ChunkOf);
    ZipChunks(chunks, scores);
    PrefixSubMultiset(chunks, Min(|chunks|, |scores|));
  }

  lemma PrefixSubMultiset<T>(s: seq<T>, k: nat)
    requires k <= |s|
    ensures multiset(s[..k]) <= multiset(s)
  {
    assert s == s[..k] + s[k..];
  }

  /** The first returned chunk is the chunk of the first kept pair: it is one
      of the input chunks and its score is the highest of all scored chunks. */
  lemma RerankedFirstIsBest(chunks: seq<string>, scores: seq<Score>, topK: int)
    requires Reranked(chunks, scores, topK) != []
    ensures var kept := Kept(chunks, scores, topK);
            && kept != []
            && Reranked(chunks, scores, topK)[0] == kept[0].0
            && kept[0].0 in chunks
            && kept[0] in Zip(chunks, scores)
            && forall p :: p in Zip(chunks, scores) ==> kept[0].1 >= p.1
  {
    var kept := Kept(chunks, scores, topK);
    var dropped := Dropped(chunks, scores, topK);
    var reranked := Reranked(chunks, scores, topK);
    RerankedIsKept(chunks, scores, topK);
    assert kept != [];
    MapSeqIndex(ChunkOf, kept, 0);
    RerankedSubMultiset(chunks, scores, topK);
    assert reranked[0] in multiset(reranked);
    assert kept[0] in multiset(kept) + multiset(dropped);
    KeptNonIncreasing(chunks, scores, topK);
    KeptOutscoreDropped(chunks, scores, topK);
    forall p | p in Zip(chunks, scores) ensures kept[0].1 >= p.1 {
      assert p in multiset(kept) + multiset(dropped);
      if p in kept {
        var i :| 0 <= i < |kept| && kept[i] == p;
        assert i == 0 || kept[0].1 >= kept[i].1;
      } else {
        assert p in dropped;
        assert kept[0] in kept;
      }
    }
  }

  /** The sort is stable: the pairs with any one score appear in the ranking
      in their original chunk order. */
  lemma RankedStable(chunks: seq<string>, scores: seq<Score>, v: Score)
    ensures WithKey(Ranked(chunks, scores), ScoreOf, v) == WithKey(Zip(chunks, scores), ScoreOf, v)
  {
    ScoreLessIsStrictTotalOrder();
    SortDescStable(Zip(chunks, scores), ScoreOf, ScoreLess, v);
  }

  /** A tie keeps chunk order: scores 1, 3, 1 with `top_k = 2` give the
      second chunk, then the first. */
  lemma RerankedTieExample()
    ensures Reranked(["a", "b", "c"], [1, 3, 1], 2) == ["b", "a"]
  {
    var z: seq<Scored> := Zip(["a", "b", "c"], [1, 3, 1]);
    assert z == [("a", 1), ("b", 3), ("c", 1)];
    assert SortDesc(z[..2][..1], ScoreOf, ScoreLess) == [("a", 1)] by {
      assert |z[..2][..1][..0]| == 0;
    }
    assert z[..2][..1] == [("a", 1)];
    assert z[..2] == [("a", 1), ("b", 3)];
    assert Insert([("a", 1)], ("b", 3), ScoreOf, ScoreLess) == [("b", 3), ("a", 1)];
    assert SortDesc(z[..2], ScoreOf, ScoreLess) == [("b", 3), ("a", 1)];
    assert Insert([("b", 3), ("a", 1)], ("c", 1), ScoreOf, ScoreLess) == [("b", 3), ("a", 1), ("c", 1)];
    assert Ranked(["a", "b", "c"], [1, 3, 1]) == [("b", 3), ("a", 1), ("c", 1)];
  }
}
