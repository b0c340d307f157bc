/**
 * Merging proposals that arrive in batches: one entry per identity, the most confident one, and of
 * equally confident ones the earliest, in the order the identities first appear.
 */
module Merging {
  import opened Sequences

  /** How proposals of one kind are identified and ranked. */
  datatype Ranking<!P, !K> = Ranking(key: P -> K, confidence: P -> real)

  function KeysOf<P, K>(items: seq<P>, r: Ranking<P, K>): (keys: seq<K>)
    ensures |keys| == |items|
    ensures forall i :: 0 <= i < |items| ==> keys[i] == r.key(items[i])
  {
    seq(|items|, i requires 0 <= i < |items| => r.key(items[i]))
  }

  function IndexOf<P, K(==)>(entries: seq<P>, k: K, r: Ranking<P, K>): (i: nat)
    ensures i <= |entries|
    ensures i < |entries| ==> r.key(entries[i]) == k
    ensures forall j :: 0 <= j < i ==> r.key(entries[j]) != k
  {
    if entries == [] || r.key(entries[0]) == k then 0 else 1 + IndexOf(entries[1..], k, r)
  }

  /** One proposal arriving at an insertion-ordered dictionary. */
  function Put<P, K(==)>(entries: seq<P>, p: P, r: Ranking<P, K>): seq<P> {
    var i := IndexOf(entries, r.key(p), r);
    if i == |entries| then entries + [p]
    else if r.confidence(p) > r.confidence(entries[i]) then entries[i := p]
    else entries
  }

  /** The merge loop, over the left proposals and then the right ones. */
  method MergeLists<P, K(==)>(left: seq<P>, right: seq<P>, r: Ranking<P, K>) returns (merged: seq<P>)
    ensures merged == Deduplicated(left + right, r)
  {
    merged := [];
    var items := left + right;
    for i := 0 to |items|
      invariant merged == Deduplicated(items[..i], r)
    {
      PutExtends(items[..i], items[i], r);
      assert items[..i + 1] == items[..i] + [items[i]];
      merged := Put(merged, items[i], r);
    }
    assert items[..|items|] == items;
  }

  // ---------------------------------------------------------------------------------------------
  // What a merge keeps

  /** The most confident item of an identity; a later one must be strictly better to replace it. */
  function Best<P, K(==)>(items: seq<P>, k: K, r: Ranking<P, K>): (p: P)
    requires k in KeysOf(items, r)
    ensures r.key(p) == k
  {
    var n := |items| - 1;
    var last := items[n];
    assert KeysOf(items, r) == KeysOf(items[..n], r) + [r.key(last)];
    if k !in KeysOf(items[..n], r) then last
    else
      var earlier := Best(items[..n], k, r);
      if r.key(last) == k && r.confidence(last) > r.confidence(earlier) then last else earlier
  }

  function BestOfEach<P, K(==)>(keys: seq<K>, items: seq<P>, r: Ranking<P, K>): (b: seq<P>)
    requires forall k :: k in keys ==> k in KeysOf(items, r)
    ensures |b| == |keys|
    ensures forall i :: 0 <= i < |keys| ==> b[i] == Best(items, keys[i], r)
  {
    seq(|keys|, i requires 0 <= i < |keys| => Best(items, keys[i], r))
  }

  function Deduplicated<P, K(==)>(items: seq<P>, r: Ranking<P, K>): seq<P> {
    DistinctElements(KeysOf(items, r));
    BestOfEach(Distinct(KeysOf(items, r)), items, r)
  }

  /** The entry kept for an identity is the earliest of those with the highest confidence. */
  lemma {:induction false} BestIsEarliestMaximum<P, K>(items: seq<P>, k: K, r: Ranking<P, K>) returns (i: nat)
    requires k in KeysOf(items, r)
    ensures i < |items| && items[i] == Best(items, k, r) && r.key(items[i]) == k
    ensures forall j :: 0 <= j < |items| && r.key(items[j]) == k ==> r.confidence(items[j]) <= r.confidence(items[i])
    ensures forall j :: 0 <= j < i && r.key(items[j]) == k ==> r.confidence(items[j]) < r.confidence(items[i])
    decreases |items|
  {
    var n := |items| - 1;
    assert KeysOf(items, r) == KeysOf(items[..n], r) + [r.key(items[n])];
    if k !in KeysOf(items[..n], r) {
      i := n;
      forall j | 0 <= j < n ensures r.key(items[j]) != k {
        assert KeysOf(items[..n], r)[j] == r.key(items[j]);
      }
    } else {
      i := BestIsEarliestMaximum(items[..n], k, r);
      assert forall j :: 0 <= j < n ==> items[..n][j] == items[j];
      if r.key(items[n]) == k && r.confidence(items[n]) > r.confidence(items[i]) {
        i := n;
      }
    }
  }

  lemma {:induction false} KeysOfConcat<P, K>(a: seq<P>, b: seq<P>, r: Ranking<P, K>)
    ensures KeysOf(a + b, r) == KeysOf(a, r) + KeysOf(b, r)
  {
  }

  lemma {:induction false} BestOfConcat<P, K>(a: seq<P>, b: seq<P>, k: K, r: Ranking<P, K>)
    requires k in KeysOf(a + b, r)
    ensures k in KeysOf(a, r) || k in KeysOf(b, r)
    ensures Best(a + b, k, r) ==
      if k !in KeysOf(b, r) then Best(a, k, r)
      else if k !in KeysOf(a, r) then Best(b, k, r)
      else if r.confidence(Best(b, k, r)) > r.confidence(Best(a, k, r)) then Best(b, k, r)
      else Best(a, k, r)
    decreases |b|
  {
    KeysOfConcat(a, b, r);
    if b == [] {
      assert a + b == a;
    } else {
      var n := |b| - 1;
      assert (a + b)[..|a + b| - 1] == a + b[..n] && (a + b)[|a + b| - 1] == b[n];
      assert b == b[..n] + [b[n]];
      KeysOfConcat(a, b[..n], r);
      KeysOfConcat(b[..n], [b[n]], r);
      if k in KeysOf(a + b[..n], r) {
        BestOfConcat(a, b[..n], k, r);
      }
    }
  }

  /** The dictionary step computes the next deduplication. */
  lemma {:induction false} PutExtends<P, K>(items: seq<P>, p: P, r: Ranking<P, K>)
    ensures Put(Deduplicated(items, r), p, r) == Deduplicated(items + [p], r)
  {
    var k, d, next := r.key(p), Deduplicated(items, r), Deduplicated(items + [p], r);
    var keys := Distinct(KeysOf(items, r));
    DistinctElements(KeysOf(items, r));
    KeysOfConcat(items, [p], r);
    DistinctAppend(KeysOf(items, r), k);
    DeduplicatedAt(items, r);
    DeduplicatedAt(items + [p], r);
    hide Deduplicated, Best, Distinct, KeysOf, IndexOf;
    IndexInDistinct(keys, d, k, r);
    forall j | 0 <= j < |next| ensures next[j] == Put(d, p, r)[j] {
      if j < |keys| {
        StepBest(items, p, keys[j], r);
      } else {
        StepBest(items, p, k, r);
      }
    }
    assert |Put(d, p, r)| == |next|;
  }

  lemma {:induction false} DeduplicatedAt<P, K>(items: seq<P>, r: Ranking<P, K>)
    ensures var keys, d := Distinct(KeysOf(items, r)), Deduplicated(items, r);
      |d| == |keys| && forall i :: 0 <= i < |d| ==>
        keys[i] in KeysOf(items, r) && d[i] == Best(items, keys[i], r) && r.key(d[i]) == keys[i]
  {
    var keys := Distinct(KeysOf(items, r));
    DistinctElements(KeysOf(items, r));
    hide Best, Distinct;
    forall i | 0 <= i < |keys| ensures keys[i] in KeysOf(items, r) {
      DistinctMember(KeysOf(items, r), i);
    }
  }

  lemma {:induction false} IndexInDistinct<P, K>(keys: seq<K>, d: seq<P>, k: K, r: Ranking<P, K>)
    requires NoDuplicates(keys) && |d| == |keys| && forall i :: 0 <= i < |d| ==> r.key(d[i]) == keys[i]
    ensures k in keys ==> IndexOf(d, k, r) < |d| && forall j :: 0 <= j < |d| && keys[j] == k ==> j == IndexOf(d, k, r)
    ensures k !in keys ==> IndexOf(d, k, r) == |d|
  {
    var i := IndexOf(d, k, r);
    hide IndexOf;
    if k in keys {
      var at :| 0 <= at < |d| && keys[at] == k;
      assert r.key(d[at]) == k;
    }
  }

  /** What one more item does to the keys, and to the best item of a key. */
  lemma {:induction false} OneMoreKey<P, K>(items: seq<P>, p: P, k: K, r: Ranking<P, K>)
    ensures k in KeysOf(items + [p], r) <==> k in KeysOf(items, r) || k == r.key(p)
  {
    KeysOfConcat(items, [p], r);
    assert KeysOf([p], r) == [r.key(p)];
    hide KeysOf;
  }

  lemma {:induction false} StepBest<P, K>(items: seq<P>, p: P, k: K, r: Ranking<P, K>)
    requires k in KeysOf(items, r) || k == r.key(p)
    ensures k in KeysOf(items + [p], r)
    ensures Best(items + [p], k, r) ==
      if k !in KeysOf(items, r) then p
      else if r.key(p) == k && r.confidence(p) > r.confidence(Best(items, k, r)) then p
      else Best(items, k, r)
  {
    OneMoreKey(items, p, k, r);
    hide KeysOf;
    assert (items + [p])[..|items|] == items;
  }

  /** A deduplicated list has the identities, and the best of each, of what it came from. */
  lemma {:induction false} DeduplicatedKeeps<P, K>(items: seq<P>, r: Ranking<P, K>)
    ensures KeysOf(Deduplicated(items, r), r) == Distinct(KeysOf(items, r))
    ensures forall k :: k in KeysOf(items, r) ==>
      k in KeysOf(Deduplicated(items, r), r) && Best(Deduplicated(items, r), k, r) == Best(items, k, r)
  {
    var keys, d := KeysOf(items, r), Deduplicated(items, r);
    DistinctElements(keys);
    assert KeysOf(d, r) == Distinct(keys);
    forall k | k in keys ensures k in KeysOf(d, r) && Best(d, k, r) == Best(items, k, r) {
      var i := BestIsEarliestMaximum(d, k, r);
      assert Distinct(keys)[i] == k;
    }
  }

  lemma {:induction false} SameKeysSameBest<P, K>(a: seq<P>, b: seq<P>, r: Ranking<P, K>)
    requires Distinct(KeysOf(a, r)) == Distinct(KeysOf(b, r))
    requires forall k :: k in KeysOf(a, r) ==> k in KeysOf(b, r) && Best(a, k, r) == Best(b, k, r)
    ensures Deduplicated(a, r) == Deduplicated(b, r)
  {
    DistinctElements(KeysOf(a, r));
    DistinctElements(KeysOf(b, r));
    var keys := Distinct(KeysOf(a, r));
    forall i | 0 <= i < |keys| ensures Best(a, keys[i], r) == Best(b, keys[i], r) {
      assert keys[i] in keys;
    }
    hide Best;
  }

  /** Deduplicating either side first changes nothing: neither does it matter where batches end. */
  lemma {:induction false} DeduplicateFirst<P, K>(a: seq<P>, b: seq<P>, r: Ranking<P, K>)
    ensures Deduplicated(Deduplicated(a, r) + b, r) == Deduplicated(a + b, r)
    ensures Deduplicated(a + Deduplicated(b, r), r) == Deduplicated(a + b, r)
  {
    DeduplicateLeft(a, b, r);
    DeduplicateRight(a, b, r);
  }

  lemma {:induction false} DeduplicateLeft<P, K>(a: seq<P>, b: seq<P>, r: Ranking<P, K>)
    ensures Deduplicated(Deduplicated(a, r) + b, r) == Deduplicated(a + b, r)
  {
    var d := Deduplicated(a, r);
    DeduplicatedKeeps(a, r);
    KeysOfConcat(a, b, r);
    KeysOfConcat(d, b, r);
    DistinctElements(KeysOf(a, r));
    DistinctOfDistinct(Distinct(KeysOf(a, r)));
    DistinctOfConcat(KeysOf(a, r), KeysOf(b, r));
    DistinctOfConcat(KeysOf(d, r), KeysOf(b, r));
    WithoutSameElements(Distinct(KeysOf(b, r)), KeysOf(a, r), KeysOf(d, r));
    forall k | k in KeysOf(d + b, r) ensures k in KeysOf(a + b, r) && Best(d + b, k, r) == Best(a + b, k, r) {
      BestOnLeft(a, b, k, r);
    }
    hide Deduplicated, Best, Distinct;
    SameKeysSameBest(d + b, a + b, r);
  }

  lemma {:induction false} DeduplicateRight<P, K>(a: seq<P>, b: seq<P>, r: Ranking<P, K>)
    ensures Deduplicated(a + Deduplicated(b, r), r) == Deduplicated(a + b, r)
  {
    var d := Deduplicated(b, r);
    DeduplicatedKeeps(b, r);
    KeysOfConcat(a, b, r);
    KeysOfConcat(a, d, r);
    DistinctElements(KeysOf(b, r));
    DistinctOfDistinct(Distinct(KeysOf(b, r)));
    DistinctOfConcat(KeysOf(a, r), KeysOf(b, r));
    DistinctOfConcat(KeysOf(a, r), KeysOf(d, r));
    forall k | k in KeysOf(a + d, r) ensures k in KeysOf(a + b, r) && Best(a + d, k, r) == Best(a + b, k, r) {
      BestOnRight(a, b, k, r);
    }
    hide Deduplicated, Best;
    SameKeysSameBest(a + d, a + b, r);
  }

  lemma {:induction false} BestOnLeft<P, K>(a: seq<P>, b: seq<P>, k: K, r: Ranking<P, K>)
    requires k in KeysOf(Deduplicated(a, r) + b, r)
    ensures k in KeysOf(a + b, r) && Best(Deduplicated(a, r) + b, k, r) == Best(a + b, k, r)
  {
    var d := Deduplicated(a, r);
    DeduplicatedKeeps(a, r);
    DistinctElements(KeysOf(a, r));
    KeysOfConcat(a, b, r);
    KeysOfConcat(d, b, r);
    hide *;
    assert k in KeysOf(d, r) <==> k in KeysOf(a, r);
    BestOfConcat(d, b, k, r);
    BestOfConcat(a, b, k, r);
  }

  lemma {:induction false} BestOnRight<P, K>(a: seq<P>, b: seq<P>, k: K, r: Ranking<P, K>)
    requires k in KeysOf(a + Deduplicated(b, r), r)
    ensures k in KeysOf(a + b, r) && Best(a + Deduplicated(b, r), k, r) == Best(a + b, k, r)
  {
    var d := Deduplicated(b, r);
    DeduplicatedKeeps(b, r);
    DistinctElements(KeysOf(b, r));
    KeysOfConcat(a, b, r);
    KeysOfConcat(a, d, r);
    hide *;
    assert k in KeysOf(d, r) <==> k in KeysOf(b, r);
    assert k in KeysOf(a + b, r);
    BestOfConcat(a, d, k, r);
    BestOfConcat(a, b, k, r);
  }

  function Merged<P, K(==)>(left: seq<P>, right: seq<P>, r: Ranking<P, K>): seq<P> {
    Deduplicated(left + right, r)
  }

  /** Merging is associative. */
  lemma {:induction false} MergeAssociative<P, K>(x: seq<P>, y: seq<P>, z: seq<P>, r: Ranking<P, K>)
    ensures Merged(Merged(x, y, r), z, r) == Merged(x, Merged(y, z, r), r)
  {
    DeduplicateFirst(x + y, z, r);
    DeduplicateFirst(x, y + z, r);
    hide Deduplicated;
    assert (x + y) + z == x + (y + z);
  }

  /** The discovery loop: merging each batch's response into what there is so far. */
  function MergeAll<P, K(==)>(batches: seq<seq<P>>, r: Ranking<P, K>): seq<P> {
    if batches == [] then [] else Merged(MergeAll(batches[..|batches| - 1], r), batches[|batches| - 1], r)
  }

  lemma {:induction false} FlattenAppend<P>(parts: seq<seq<P>>, last: seq<P>)
    ensures Flatten(parts + [last]) == Flatten(parts) + last
  {
    if parts == [] {
      assert Flatten([last]) == last + Flatten([last][1..]);
    } else {
      assert (parts + [last])[1..] == parts[1..] + [last];
      FlattenAppend(parts[1..], last);
    }
  }

  /** However the responses are batched, the outcome is one deduplication of all of them in order. */
  lemma {:induction false} BatchingDoesNotMatter<P, K>(batches: seq<seq<P>>, r: Ranking<P, K>)
    ensures MergeAll(batches, r) == Deduplicated(Flatten(batches), r)
    decreases |batches|
  {
    if batches == [] {
      assert KeysOf(Flatten(batches), r) == [];
    } else {
      var init, last := batches[..|batches| - 1], batches[|batches| - 1];
      BatchingDoesNotMatter(init, r);
      DeduplicateFirst(Flatten(init), last, r);
      FlattenAppend(init, last);
      assert batches == init + [last];
    }
  }

  /** The slices `items[start : start + size]`. */
  function Batched<T>(items: seq<T>, size: nat): seq<seq<T>>
    requires size >= 1
    decreases |items|
  {
    if items == [] then []
    else if |items| <= size then [items]
    else [items[..size]] + Batched(items[size..], size)
  }

  /** Batches are never empty, never too long, and put together they are the input. */
  lemma {:induction false} BatchedLosesNothing<T>(items: seq<T>, size: nat)
    requires size >= 1
    ensures Flatten(Batched(items, size)) == items
    ensures forall b :: b in Batched(items, size) ==> 0 < |b| <= size
    decreases |items|
  {
    if |items| > size {
      BatchedLosesNothing(items[size..], size);
      assert Batched(items, size)[1..] == Batched(items[size..], size);
    } else if items != [] {
      assert [items][1..] == [];
    }
  }

  /** And there are as few of them as the size allows. */
  lemma {:induction false} BatchedIsTight<T>(items: seq<T>, size: nat)
    requires size >= 1 && items != []
    ensures (|Batched(items, size)| - 1) * size < |items| <= |Batched(items, size)| * size
    decreases |items|
  {
    if |items| > size {
      BatchedIsTight(items[size..], size);
      var n := |Batched(items[size..], size)|;
      assert |Batched(items, size)| == n + 1;
      hide *;
      assert n * size == (n - 1) * size + size && (n + 1) * size == n * size + size;
    }
  }
}
