/** The vector index (`VectorIndexer`, src/indexing.py). Every chunk is
    embedded, in order, and stored in the collection under the id `str(i)` of
    its position. The embedding model is a parameter; the collection is a map
    from id to entry. */
module Indexing {
  import opened Outcomes
  import opened Text

  /** An embedding vector (floats in the source). */
  type Embedding = seq<real>

  /** One stored record: the chunk text and its embedding. */
  datatype Entry = Entry(document: string, embedding: Embedding)

  type Store = map<string, Entry>

  /** `collection.add(documents=[d], embeddings=[e], ids=[id])`. An id already
      present keeps its entry: the collection ignores the new record. */
  function AddEntry(store: Store, id: string, entry: Entry): Store
  {
    if id in store then store else store[id := entry]
  }

  /** What one `add` does: the id joins the keys, a new id gets the entry, an
      existing id keeps its entry, and every other id is untouched. */
  lemma AddEntryEffect(store: Store, id: string, entry: Entry)
    ensures AddEntry(store, id, entry).Keys == store.Keys + {id}
    ensures id in store ==> AddEntry(store, id, entry)[id] == store[id]
    ensures id !in store ==> AddEntry(store, id, entry)[id] == entry
    ensures forall other :: other in store && other != id ==> AddEntry(store, id, entry)[other] == store[other]
  {
  }

  /** The store after the first `n` iterations of the `save_embeddings` loop:
      entry `i` is added under `str(i)`, for `i` from 0 up to `n - 1`. */
  function AddAll(store: Store, chunks: seq<string>, embeddings: seq<Embedding>, n: nat): Store
    requires n <= |chunks| && n <= |embeddings|
  {
    if n == 0 then store
    else AddEntry(AddAll(store, chunks, embeddings, n - 1), NatToString(n - 1), Entry(chunks[n - 1], embeddings[n - 1]))
  }

  class VectorIndexer {
    /** The sentence embedder (`encode(chunk, normalize_embeddings=True)`). */
    const embed: string -> Embedding
    /** The `documents` collection. */
    var collection: Store

    /** A fresh indexer over an empty collection. */
    constructor (embed: string -> Embedding)
      ensures this.embed == embed && collection == map[]
    {
      this.embed := embed;
      collection := map[];
    }

    /** `embed_chunks`: one embedding per chunk, in chunk order. */
    function EmbedChunks(chunks: seq<string>): (embeddings: seq<Embedding>)
      ensures |embeddings| == |chunks|
      ensures forall i :: 0 <= i < |chunks| ==> embeddings[i] == embed(chunks[i])
    {
      if |chunks| == 0 then [] else [embed(chunks[0])] + EmbedChunks(chunks[1..])
    }

    /** `save_embeddings`: adds the zipped pairs one at a time, entry `i`
        under id `str(i)`; `zip` stops at the shorter list. */
    method SaveEmbeddings(chunks: seq<string>, embeddings: seq<Embedding>)
      modifies this
      ensures collection == AddAll(old(collection), chunks, embeddings, Min(|chunks|, |embeddings|))
    {
      var n := Min(|chunks|, |embeddings|);
      for i := 0 to n
        invariant collection == AddAll(old(collection), chunks, embeddings, i)
      {
        collection := AddEntry(collection, NatToString(i), Entry(chunks[i], embeddings[i]));
      }
    }

    /** `build_index`: embeds the chunks and saves them. */
    method BuildIndex(chunks: seq<string>)
      modifies this
      ensures collection == AddAll(old(collection), chunks, EmbedChunks(chunks), |chunks|)
    {
      var embeddings := EmbedChunks(chunks);
      SaveEmbeddings(chunks, embeddings);
    }

    /** From an empty collection, `build_index` leaves exactly one entry per
        chunk: ids `"0"` to `str(n - 1)`, entry `i` holding chunk `i` and its embedding. */
    lemma BuildIndexFromEmpty(chunks: seq<string>)
      ensures |AddAll(map[], chunks, EmbedChunks(chunks), |chunks|)| == |chunks|
      ensures IdsBelow(AddAll(map[], chunks, EmbedChunks(chunks), |chunks|), |chunks|)
      ensures forall i :: 0 <= i < |chunks| ==>
                AddAll(map[], chunks, EmbedChunks(chunks), |chunks|)[NatToString(i)] == Entry(chunks[i], embed(chunks[i]))
    {
      var embeddings := EmbedChunks(chunks);
      var store := AddAll(map[], chunks, embeddings, |chunks|);
      AddAllIds(chunks, embeddings, |chunks|);
      AddAllEntries(chunks, embeddings, |chunks|);
      AddAllSize(chunks, embeddings, |chunks|);
      forall i | 0 <= i < |chunks| ensures store[NatToString(i)] == Entry(chunks[i], embed(chunks[i])) {
        assert embeddings[i] == embed(chunks[i]);
      }
    }
  }

  // ---------------------------------------------------------------------------
  // Properties of the store fill
  // ---------------------------------------------------------------------------

  /** The ids of `store` are exactly `str(i)` for `i` below `n`. */
  ghost predicate IdsBelow(store: Store, n: nat)
  {
    forall id :: id in store <==> exists i :: 0 <= i < n && id == NatToString(i)
  }

  /** Adding never removes or overwrites an entry that was already there. */
  lemma {:induction false} AddAllKeepsExisting(store: Store, chunks: seq<string>, embeddings: seq<Embedding>, n: nat)
    requires n <= |chunks| && n <= |embeddings|
    ensures forall id :: id in store ==>
              id in AddAll(store, chunks, embeddings, n) && AddAll(store, chunks, embeddings, n)[id] == store[id]
  {
    if n > 0 {
      AddAllKeepsExisting(store, chunks, embeddings, n - 1);
    }
  }

  /** From an empty store the first `n` iterations add exactly the ids `"0"` .. `str(n - 1)`. */
  lemma {:induction false} AddAllIds(chunks: seq<string>, embeddings: seq<Embedding>, n: nat)
    requires n <= |chunks| && n <= |embeddings|
    ensures IdsBelow(AddAll(map[], chunks, embeddings, n), n)
  {
    if n > 0 {
      AddAllIds(chunks, embeddings, n - 1);
      var prev := AddAll(map[], chunks, embeddings, n - 1);
      var store := AddAll(map[], chunks, embeddings, n);
      var id := NatToString(n - 1);
      assert store.Keys == prev.Keys + {id};
      forall x | x in store ensures exists i :: 0 <= i < n && x == NatToString(i) {
        if x == id {
          assert x == NatToString(n - 1);
        } else {
          assert x in prev;
          var i :| 0 <= i < n - 1 && x == NatToString(i);
          assert i < n;
        }
      }
      forall i | 0 <= i < n ensures NatToString(i) in store {
        if i < n - 1 {
          assert NatToString(i) in prev;
        }
      }
    }
  }

  /** The id added in iteration `n - 1` is new: `str` is injective. */
  lemma NextIdIsNew(chunks: seq<string>, embeddings: seq<Embedding>, n: nat)
    requires 0 < n <= |chunks| && n <= |embeddings|
    ensures NatToString(n - 1) !in AddAll(map[], chunks, embeddings, n - 1)
  {
    AddAllIds(chunks, embeddings, n - 1);
    var id := NatToString(n - 1);
    if id in AddAll(map[], chunks, embeddings, n - 1) {
      var i :| 0 <= i < n - 1 && id == NatToString(i);
      NatToStringInjective(i, n - 1);
    }
  }

  /** From an empty store, entry `str(i)` holds the `i`-th chunk and embedding. */
  lemma {:induction false} AddAllEntries(chunks: seq<string>, embeddings: seq<Embedding>, n: nat)
    requires n <= |chunks| && n <= |embeddings|
    ensures forall i :: 0 <= i < n ==>
              NatToString(i) in AddAll(map[], chunks, embeddings, n)
              && AddAll(map[], chunks, embeddings, n)[NatToString(i)] == Entry(chunks[i], embeddings[i])
  {
    if n > 0 {
      AddAllEntries(chunks, embeddings, n - 1);
      NextIdIsNew(chunks, embeddings, n);
      var prev := AddAll(map[], chunks, embeddings, n - 1);
      var store := AddAll(map[], chunks, embeddings, n);
      forall i | 0 <= i < n - 1
        ensures NatToString(i) in store && store[NatToString(i)] == Entry(chunks[i], embeddings[i])
      {
        NatToStringInjective(i, n - 1);
      }
    }
  }

  /** The first `n` iterations from an empty store leave exactly `n` entries:
      no id is added twice. */
  lemma {:induction false} AddAllSize(chunks: seq<string>, embeddings: seq<Embedding>, n: nat)
    requires n <= |chunks| && n <= |embeddings|
    ensures |AddAll(map[], chunks, embeddings, n)| == n
  {
    if n > 0 {
      var prev := AddAll(map[], chunks, embeddings, n - 1);
      var id := NatToString(n - 1);
      var entry := Entry(chunks[n - 1], embeddings[n - 1]);
      assert |prev| == n - 1 by { AddAllSize(chunks, embeddings, n - 1); }
      assert id !in prev by { NextIdIsNew(chunks, embeddings, n); }
      AddFreshGrows(prev, id, entry);
    }
  }

  /** Adding a new id grows the store by one entry. */
  lemma AddFreshGrows(store: Store, id: string, entry: Entry)
    requires id !in store
    ensures |AddEntry(store, id, entry)| == |store| + 1
  {
  }

  /** With lists of different lengths only `min(|chunks|, |embeddings|)` entries are added. */
  lemma SaveTruncates(chunks: seq<string>, embeddings: seq<Embedding>)
    ensures |AddAll(map[], chunks, embeddings, Min(|chunks|, |embeddings|))| == Min(|chunks|, |embeddings|)
  {
    AddAllSize(chunks, embeddings, Min(|chunks|, |embeddings|));
  }
}
