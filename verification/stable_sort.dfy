/** Python's `list.sort(key=..., reverse=True)`: a stable sort into
    non-increasing key order. Both sorts in the pipeline (the reranker's score
    order and the conversation list's `updated_at` order) are this operation
    with a different key.

    The specification is insertion sort on sequences (`SortDesc`); the lemmas
    show that it is sorted, a permutation, and stable (for every key, the
    elements with that key keep their relative order), and that those three
    properties determine it. `SortInPlace` is the in-place array algorithm,
    proved equal to the specification. */
module StableSort {

  /** `lt` is a strict total order on keys (the order `<` of Python's sort). */
  ghost predicate StrictTotalOrder<K(!new)>(lt: (K, K) -> bool)
  {
    && (forall a :: !lt(a, a))
    && (forall a, b, c :: lt(a, b) && lt(b, c) ==> lt(a, c))
    && (forall a, b :: a != b ==> lt(a, b) || lt(b, a))
  }

  /** Non-increasing: no element's key is below the key of a later element. */
  ghost predicate SortedDesc<T, K>(s: seq<T>, key: T -> K, lt: (K, K) -> bool)
  {
    forall i, j :: 0 <= i < j < |s| ==> !lt(key(s[i]), key(s[j]))
  }

  /** Inserts `x` into `t` from the right: `x` moves left past exactly the
      trailing elements whose key is strictly below its own, so it lands after
      every element with an equal key. */
  function Insert<T, K>(t: seq<T>, x: T, key: T -> K, lt: (K, K) -> bool): (r: seq<T>)
    ensures |r| == |t| + 1
  {
    if |t| == 0 || !lt(key(t[|t| - 1]), key(x)) then t + [x]
    else Insert(t[..|t| - 1], x, key, lt) + [t[|t| - 1]]
  }

  /** The stable descending sort of `s`: insertion sort, left to right. */
  function SortDesc<T, K>(s: seq<T>, key: T -> K, lt: (K, K) -> bool): (r: seq<T>)
    ensures |r| == |s|
  {
    if |s| == 0 then [] else Insert(SortDesc(s[..|s| - 1], key, lt), s[|s| - 1], key, lt)
  }

  /** The subsequence of the elements of `s` whose key is `k`, in order. */
  ghost function WithKey<T, K>(s: seq<T>, key: T -> K, k: K): seq<T>
  {
    if |s| == 0 then []
    else WithKey(s[..|s| - 1], key, k) + (if key(s[|s| - 1]) == k then [s[|s| - 1]] else [])
  }

  /** `f` applied to every element, in order. */
  function MapSeq<T, U>(f: T -> U, s: seq<T>): (r: seq<U>)
    ensures |r| == |s|
  {
    if |s| == 0 then [] else MapSeq(f, s[..|s| - 1]) + [f(s[|s| - 1])]
  }

  /** Element `i` of the mapped sequence is `f` of element `i`. */
  lemma {:induction false} MapSeqIndex<T, U>(f: T -> U, s: seq<T>, i: nat)
    requires i < |s|
    ensures MapSeq(f, s)[i] == f(s[i])
    decreases |s|
  {
    if i < |s| - 1 {
      MapSeqIndex(f, s[..|s| - 1], i);
    }
  }

  /** Mapping commutes with taking a prefix. */
  lemma {:induction false} MapSeqPrefix<T, U>(f: T -> U, s: seq<T>, k: nat)
    requires k <= |s|
    ensures MapSeq(f, s[..k]) == MapSeq(f, s)[..k]
  {
    forall i | 0 <= i < k ensures MapSeq(f, s[..k])[i] == MapSeq(f, s)[..k][i] {
      MapSeqIndex(f, s[..k], i);
      MapSeqIndex(f, s, i);
    }
  }

  // ---------------------------------------------------------------------------
  // Permutation
  // ---------------------------------------------------------------------------

  /** Insertion adds exactly the inserted element. */
  lemma {:induction false} InsertPermutation<T, K>(t: seq<T>, x: T, key: T -> K, lt: (K, K) -> bool)
    ensures multiset(Insert(t, x, key, lt)) == multiset(t) + multiset{x}
    decreases |t|
  {
    if |t| > 0 && lt(key(t[|t| - 1]), key(x)) {
      InsertPermutation(t[..|t| - 1], x, key, lt);
      assert t == t[..|t| - 1] + [t[|t| - 1]];
    }
  }

  /** The sort is a permutation of its input. */
  lemma {:induction false} SortDescPermutation<T, K>(s: seq<T>, key: T -> K, lt: (K, K) -> bool)
    ensures multiset(SortDesc(s, key, lt)) == multiset(s)
    decreases |s|
  {
    if |s| > 0 {
      SortDescPermutation(s[..|s| - 1], key, lt);
      InsertPermutation(SortDesc(s[..|s| - 1], key, lt), s[|s| - 1], key, lt);
      assert s == s[..|s| - 1] + [s[|s| - 1]];
    }
  }

  lemma {:induction false} InsertMapPermutation<T, K, U>(t: seq<T>, x: T, key: T -> K, lt: (K, K) -> bool, f: T -> U)
    ensures multiset(MapSeq(f, Insert(t, x, key, lt))) == multiset(MapSeq(f, t)) + multiset{f(x)}
    decreases |t|
  {
    if |t| == 0 || !lt(key(t[|t| - 1]), key(x)) {
      MapSeqSnoc(f, t, x);
    } else {
      var t' := t[..|t| - 1];
      var e := t[|t| - 1];
      var r' := Insert(t', x, key, lt);
      calc {
        multiset(MapSeq(f, Insert(t, x, key, lt)));
        { assert Insert(t, x, key, lt) == r' + [e]; }
        multiset(MapSeq(f, r' + [e]));
        { MapSeqSnoc(f, r', e); }
        multiset(MapSeq(f, r')) + multiset{f(e)};
        { InsertMapPermutation(t', x, key, lt, f); }
        multiset(MapSeq(f, t')) + multiset{f(x)} + multiset{f(e)};
        { MapSeqSnoc(f, t', e); assert t' + [e] == t; }
        multiset(MapSeq(f, t)) + multiset{f(x)};
      }
    }
  }

  /** Appending one element adds its image to the mapped multiset. */
  lemma MapSeqSnoc<T, U>(f: T -> U, s: seq<T>, e: T)
    ensures multiset(MapSeq(f, s + [e])) == multiset(MapSeq(f, s)) + multiset{f(e)}
  {
    assert (s + [e])[..|s|] == s;
    assert MapSeq(f, s + [e]) == MapSeq(f, s) + [f(e)];
  }

  /** Any projection of the elements (such as the chunk text of a scored
      chunk) is permuted too: the sort neither adds nor drops nor duplicates. */
  lemma {:induction false} SortDescMapPermutation<T, K, U>(s: seq<T>, key: T -> K, lt: (K, K) -> bool, f: T -> U)
    ensures multiset(MapSeq(f, SortDesc(s, key, lt))) == multiset(MapSeq(f, s))
    decreases |s|
  {
    if |s| > 0 {
      var s' := s[..|s| - 1];
      var e := s[|s| - 1];
      calc {
        multiset(MapSeq(f, SortDesc(s, key, lt)));
        { assert SortDesc(s, key, lt) == Insert(SortDesc(s', key, lt), e, key, lt); }
        multiset(MapSeq(f, Insert(SortDesc(s', key, lt), e, key, lt)));
        { InsertMapPermutation(SortDesc(s', key, lt), e, key, lt, f); }
        multiset(MapSeq(f, SortDesc(s', key, lt))) + multiset{f(e)};
        { SortDescMapPermutation(s', key, lt, f); }
        multiset(MapSeq(f, s')) + multiset{f(e)};
        { MapSeqSnoc(f, s', e); }
        multiset(MapSeq(f, s' + [e]));
        { assert s' + [e] == s; }
        multiset(MapSeq(f, s));
      }
    }
  }

  // ---------------------------------------------------------------------------
  // Order
  // ---------------------------------------------------------------------------

  /** Under a strict total order, "not below" is transitive. */
  lemma NotBelowTransitive<K(!new)>(lt: (K, K) -> bool, a: K, b: K, c: K)
    requires StrictTotalOrder(lt)
    requires !lt(a, b) && !lt(b, c)
    ensures !lt(a, c)
  {

  }

  /** Insertion keeps a sorted sequence sorted. */
  lemma {:induction false} InsertSorted<T, K(!new)>(t: seq<T>, x: T, key: T -> K, lt: (K, K) -> bool)
    requires StrictTotalOrder(lt) && SortedDesc(t, key, lt)
    ensures SortedDesc(Insert(t, x, key, lt), key, lt)
    decreases |t|
  {
    var r := Insert(t, x, key, lt);
    if |t| == 0 {
    } else if !lt(key(t[|t| - 1]), key(x)) {
      forall i | 0 <= i < |t| ensures !lt(key(t[i]), key(x)) {
        if i < |t| - 1 {
          NotBelowTransitive(lt, key(t[i]), key(t[|t| - 1]), key(x));
        }
      }
    } else {
      var t' := t[..|t| - 1];
      var e := t[|t| - 1];
      InsertSorted(t', x, key, lt);
      var r' := Insert(t', x, key, lt);
      InsertPermutation(t', x, key, lt);
      forall i | 0 <= i < |r'| ensures !lt(key(r'[i]), key(e)) {
        assert r'[i] in multiset(r');
        if r'[i] != x {
          assert r'[i] in multiset(t');
          var j :| 0 <= j < |t'| && t'[j] == r'[i];
          assert t[j] == r'[i];
        }
      }
      assert r == r' + [e];
    }
  }

  /** The sort's output is in non-increasing key order. */
  lemma {:induction false} SortDescSorted<T, K(!new)>(s: seq<T>, key: T -> K, lt: (K, K) -> bool)
    requires StrictTotalOrder(lt)
    ensures SortedDesc(SortDesc(s, key, lt), key, lt)
    decreases |s|
  {
    if |s| > 0 {
      SortDescSorted(s[..|s| - 1], key, lt);
      InsertSorted(SortDesc(s[..|s| - 1], key, lt), s[|s| - 1], key, lt);
    }
  }

  // ---------------------------------------------------------------------------
  // Stability
  // ---------------------------------------------------------------------------

  lemma {:induction false} WithKeyAppend<T, K>(a: seq<T>, b: seq<T>, key: T -> K, k: K)
    ensures WithKey(a + b, key, k) == WithKey(a, key, k) + WithKey(b, key, k)
    decreases |b|
  {
    if |b| == 0 {
      assert a + b == a;
    } else {
      WithKeyAppend(a, b[..|b| - 1], key, k);
      assert (a + b)[..|a + b| - 1] == a + b[..|b| - 1];
      assert (a + b)[|a + b| - 1] == b[|b| - 1];
    }
  }

  lemma {:induction false} InsertWithKey<T, K(!new)>(t: seq<T>, x: T, key: T -> K, lt: (K, K) -> bool, k: K)
    requires StrictTotalOrder(lt)
    ensures WithKey(Insert(t, x, key, lt), key, k) == WithKey(t, key, k) + WithKey([x], key, k)
    decreases |t|
  {
    if |t| == 0 || !lt(key(t[|t| - 1]), key(x)) {
      WithKeyAppend(t, [x], key, k);
    } else {
      var t' := t[..|t| - 1];
      var e := t[|t| - 1];
      InsertWithKey(t', x, key, lt, k);
      WithKeyAppend(Insert(t', x, key, lt), [e], key, k);
      WithKeyAppend(t', [e], key, k);
      assert t == t' + [e];
      assert key(e) != key(x);
      assert WithKey([e], key, k) == [] || WithKey([x], key, k) == [];
    }
  }

  /** Stability: for every key, the elements carrying it appear in the output
      in the same relative order as in the input. */
  lemma {:induction false} SortDescStable<T, K(!new)>(s: seq<T>, key: T -> K, lt: (K, K) -> bool, k: K)
    requires StrictTotalOrder(lt)
    ensures WithKey(SortDesc(s, key, lt), key, k) == WithKey(s, key, k)
    decreases |s|
  {
    if |s| > 0 {
      var s' := s[..|s| - 1];
      SortDescStable(s', key, lt, k);
      InsertWithKey(SortDesc(s', key, lt), s[|s| - 1], key, lt, k);
      WithKeyAppend(s', [s[|s| - 1]], key, k);
      assert s == s' + [s[|s| - 1]];
    }
  }

  // ---------------------------------------------------------------------------
  // Sorted + stable determine the result
  // ---------------------------------------------------------------------------

  lemma {:induction false} WithKeyMembers<T, K>(s: seq<T>, key: T -> K, k: K, y: T)
    requires y in WithKey(s, key, k)
    ensures y in s && key(y) == k
    decreases |s|
  {
    var s' := s[..|s| - 1];
    if y in WithKey(s', key, k) {
      WithKeyMembers(s', key, k, y);
      assert s == s' + [s[|s| - 1]];
    }
  }

  /** Two sorted sequences with the same elements per key end with the same element. */
  lemma SameFiltersSameLast<T, K(!new)>(r1: seq<T>, r2: seq<T>, key: T -> K, lt: (K, K) -> bool)
    requires StrictTotalOrder(lt)
    requires |r1| > 0 && |r2| > 0
    requires SortedDesc(r1, key, lt) && SortedDesc(r2, key, lt)
    requires forall k :: WithKey(r1, key, k) == WithKey(r2, key, k)
    ensures r1[|r1| - 1] == r2[|r2| - 1]
  {
    var a1, a2 := r1[|r1| - 1], r2[|r2| - 1];
    var k1, k2 := key(a1), key(a2);
    var w1 := WithKey(r1, key, k1);
    assert w1 == WithKey(r1[..|r1| - 1], key, k1) + [a1];
    WithKeyMembers(r2, key, k1, a1);
    var i :| 0 <= i < |r2| && r2[i] == a1;
    assert i < |r2| - 1 ==> !lt(k1, k2);
    var w2 := WithKey(r2, key, k2);
    assert w2 == WithKey(r2[..|r2| - 1], key, k2) + [a2];
    WithKeyMembers(r1, key, k2, a2);
    var j :| 0 <= j < |r1| && r1[j] == a2;
    assert j < |r1| - 1 ==> !lt(k2, k1);
    assert k1 == k2;
    assert w1 == w2;
    assert w1[|w1| - 1] == a1 && w2[|w2| - 1] == a2;
  }

  /** Dropping the same last element keeps the per-key subsequences equal. */
  lemma SameFiltersDropLast<T, K>(r1: seq<T>, r2: seq<T>, p1: seq<T>, p2: seq<T>, a: T, key: T -> K)
    requires r1 == p1 + [a] && r2 == p2 + [a]
    requires forall k :: WithKey(r1, key, k) == WithKey(r2, key, k)
    ensures forall k :: WithKey(p1, key, k) == WithKey(p2, key, k)
  {
    assert r1[..|r1| - 1] == p1 && r2[..|r2| - 1] == p2;
    forall k ensures WithKey(p1, key, k) == WithKey(p2, key, k) {
      var tail := if key(a) == k then [a] else [];
      var v1, v2 := WithKey(r1, key, k), WithKey(r2, key, k);
      assert v1 == WithKey(p1, key, k) + tail;
      assert v2 == WithKey(p2, key, k) + tail;
      assert WithKey(p1, key, k) == v1[..|v1| - |tail|];
      assert WithKey(p2, key, k) == v2[..|v2| - |tail|];
    }
  }

  lemma WithOwnKeyNonEmpty<T, K>(r: seq<T>, key: T -> K)
    requires |r| > 0
    ensures WithKey(r, key, key(r[|r| - 1])) != []
  {
  }

  lemma {:induction false} SameFiltersSortedEqual<T, K(!new)>(r1: seq<T>, r2: seq<T>, key: T -> K, lt: (K, K) -> bool)
    requires StrictTotalOrder(lt)
    requires SortedDesc(r1, key, lt) && SortedDesc(r2, key, lt)
    requires forall k :: WithKey(r1, key, k) == WithKey(r2, key, k)
    ensures r1 == r2
    decreases |r1|
  {
    if |r1| == 0 && |r2| == 0 {
      return;
    }
    if |r1| == 0 {
      WithOwnKeyNonEmpty(r2, key);
      assert false;
    }
    if |r2| == 0 {
      WithOwnKeyNonEmpty(r1, key);
      assert false;
    }
    SameFiltersSameLast(r1, r2, key, lt);
    var p1, p2 := r1[..|r1| - 1], r2[..|r2| - 1];
    assert r1 == p1 + [r1[|r1| - 1]] && r2 == p2 + [r2[|r2| - 1]];
    SameFiltersDropLast(r1, r2, p1, p2, r1[|r1| - 1], key);
    SameFiltersSortedEqual(p1, p2, key, lt);
  }

  /** `SortDesc` is the only arrangement of `s` that is sorted and stable: any
      sequence with both properties equals it. */
  lemma SortDescUnique<T, K(!new)>(s: seq<T>, r: seq<T>, key: T -> K, lt: (K, K) -> bool)
    requires StrictTotalOrder(lt)
    requires SortedDesc(r, key, lt)
    requires forall k :: WithKey(r, key, k) == WithKey(s, key, k)
    ensures r == SortDesc(s, key, lt)
  {
    SortDescSorted(s, key, lt);
    forall k ensures WithKey(r, key, k) == WithKey(SortDesc(s, key, lt), key, k) {
      SortDescStable(s, key, lt, k);
    }
    SameFiltersSortedEqual(r, SortDesc(s, key, lt), key, lt);
  }

  // ---------------------------------------------------------------------------
  // The in-place sort
  // ---------------------------------------------------------------------------

  /** One step of the shift loop: `x` moves past an element whose key is below its own. */
  lemma InsertStep<T, K>(t: seq<T>, j: nat, x: T, key: T -> K, lt: (K, K) -> bool)
    requires 0 < j <= |t| && lt(key(t[j - 1]), key(x))
    ensures Insert(t[..j], x, key, lt) + t[j..] == Insert(t[..j - 1], x, key, lt) + t[j - 1..]
  {
    assert t[..j][..j - 1] == t[..j - 1];
    assert t[j - 1..] == [t[j - 1]] + t[j..];
  }

  /** Inserts `a[i]` into the sorted prefix `a[..i]`, shifting right the
      elements whose key is below its own. */
  method InsertLast<T, K>(a: array<T>, i: nat, key: T -> K, lt: (K, K) -> bool)
    requires i < a.Length
    modifies a
    ensures a[..i + 1] == Insert(old(a[..i]), old(a[i]), key, lt)
    ensures a[i + 1..] == old(a[i + 1..])
  {
    ghost var t := a[..i];
    var x := a[i];
    var j := i;
    assert t[..j] == t && t[j..] == [];
    while j > 0 && lt(key(a[j - 1]), key(x))
      invariant 0 <= j <= i
      invariant forall k :: 0 <= k < j ==> a[k] == t[k]
      invariant forall k :: j < k <= i ==> a[k] == t[k - 1]
      invariant forall k :: i < k < a.Length ==> a[k] == old(a[k])
      invariant Insert(t, x, key, lt) == Insert(t[..j], x, key, lt) + t[j..]
    {
      InsertStep(t, j, x, key, lt);
      a[j] := a[j - 1];
      j := j - 1;
    }
    a[j] := x;
    InsertStops(t, j, x, key, lt);
    Placed(a[..i + 1], t, j, x);
  }

  /** The array prefix the shift loop leaves is the sorted prefix with `x` placed at `j`. */
  lemma Placed<T>(b: seq<T>, t: seq<T>, j: nat, x: T)
    requires j <= |t| && |b| == |t| + 1
    requires forall k :: 0 <= k < j ==> b[k] == t[k]
    requires b[j] == x
    requires forall k :: j < k < |b| ==> b[k] == t[k - 1]
    ensures b == t[..j] + [x] + t[j..]
  {
  }

  /** Where the shift loop stops, `x` goes right after the prefix. */
  lemma InsertStops<T, K>(t: seq<T>, j: nat, x: T, key: T -> K, lt: (K, K) -> bool)
    requires j <= |t| && (j == 0 || !lt(key(t[j - 1]), key(x)))
    ensures Insert(t[..j], x, key, lt) == t[..j] + [x]
  {
    if j > 0 {
      assert t[..j][j - 1] == t[j - 1];
    }
  }

  /** Sorts `a` in place, stably, into non-increasing key order (insertion
      sort: each element in turn is inserted into the sorted prefix). */
  method SortInPlace<T, K>(a: array<T>, key: T -> K, lt: (K, K) -> bool)
    modifies a
    ensures a[..] == SortDesc(old(a[..]), key, lt)
  {
    ghost var s := a[..];
    var i := 0;
    while i < a.Length
      invariant 0 <= i <= a.Length
      invariant a[..i] == SortDesc(s[..i], key, lt)
      invariant a[i..] == s[i..]
    {
      assert s[..i + 1][..i] == s[..i] && s[..i + 1][i] == s[i] == a[i];
      InsertLast(a, i, key, lt);
      i := i + 1;
    }
    assert a[..] == a[..a.Length] && s == s[..a.Length];
  }
}
