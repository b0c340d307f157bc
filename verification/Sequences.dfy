/** Sequences without repetition, in the order things first appear: how an insertion-ordered dict collects keys. */
module Sequences {

  ghost predicate NoDuplicates<T>(s: seq<T>) {
    forall i, j :: 0 <= i < j < |s| ==> s[i] != s[j]
  }

  function RemoveAt<T>(s: seq<T>, i: nat): seq<T>
    requires i < |s|
  {
    s[..i] + s[i + 1..]
  }

  /** Each element once, where it first appears. */
  function Distinct<T(==)>(s: seq<T>): seq<T> {
    if s == [] then []
    else
      var d := Distinct(s[..|s| - 1]);
      if s[|s| - 1] in d then d else d + [s[|s| - 1]]
  }

  lemma DistinctAppend<T>(s: seq<T>, x: T)
    ensures Distinct(s + [x]) == if x in Distinct(s) then Distinct(s) else Distinct(s) + [x]
  {
    assert (s + [x])[..|s|] == s;
  }

  lemma {:induction false} DistinctElements<T>(s: seq<T>)
    ensures NoDuplicates(Distinct(s))
    ensures forall x :: x in Distinct(s) <==> x in s
  {
    if s != [] {
      var init := s[..|s| - 1];
      DistinctElements(init);
      assert s == init + [s[|s| - 1]];
    }
  }

  lemma DistinctMember<T>(s: seq<T>, k: nat)
    requires k < |Distinct(s)|
    ensures Distinct(s)[k] in s
  {
    DistinctElements(s);
    assert Distinct(s)[k] in Distinct(s);
  }

  lemma {:induction false} DistinctOfDistinct<T>(s: seq<T>)
    requires NoDuplicates(s)
    ensures Distinct(s) == s
  {
    if s != [] {
      var init := s[..|s| - 1];
      DistinctOfDistinct(init);
      assert s[|s| - 1] !in init;
      assert s == init + [s[|s| - 1]];
    }
  }

  /** The index at which `x` first appears. */
  function FirstIndex<T(==)>(s: seq<T>, x: T): (i: nat)
    requires x in s
    ensures i < |s| && s[i] == x
    ensures forall j :: 0 <= j < i ==> s[j] != x
  {
    if s[0] == x then 0 else 1 + FirstIndex(s[1..], x)
  }

  /** The order of `Distinct` is the order of first appearance. */
  lemma {:induction false} DistinctInOrder<T>(s: seq<T>, i: nat, j: nat)
    requires i < j < |Distinct(s)|
    ensures Distinct(s)[i] in s && Distinct(s)[j] in s
    ensures FirstIndex(s, Distinct(s)[i]) < FirstIndex(s, Distinct(s)[j])
  {
    DistinctElements(s);
    var init, d := s[..|s| - 1], Distinct(s);
    DistinctElements(init);
    assert forall k :: 0 <= k < |Distinct(init)| ==> d[k] == Distinct(init)[k];
    forall k | 0 <= k < |Distinct(init)| ensures d[k] in init {
      DistinctMember(init, k);
    }
    assert forall x :: x in init ==> FirstIndex(s, x) == FirstIndex(init, x) by {
      forall x | x in init ensures FirstIndex(s, x) == FirstIndex(init, x) {
        var a, b := FirstIndex(s, x), FirstIndex(init, x);
        assert s[b] == init[b];
        assert a < |init| ==> init[a] == s[a];
      }
    }
    if j < |Distinct(init)| {
      DistinctInOrder(init, i, j);
    } else {
      assert d[i] in init;
      assert d[j] !in init;
      forall b | 0 <= b < |init| ensures s[b] != d[j] {
        assert init[b] in init;
      }
    }
  }

  /** The elements of `s` that are not in `seen`. */
  function Without<T(==)>(s: seq<T>, seen: seq<T>): seq<T> {
    if s == [] then []
    else
      var w := Without(s[..|s| - 1], seen);
      if s[|s| - 1] in seen then w else w + [s[|s| - 1]]
  }

  lemma {:induction false} DistinctOfConcat<T>(a: seq<T>, b: seq<T>)
    ensures Distinct(a + b) == Distinct(a) + Without(Distinct(b), a)
    decreases |b|
  {
    if b == [] {
      assert a + b == a;
    } else {
      var init, last := b[..|b| - 1], b[|b| - 1];
      DistinctOfConcat(a, init);
      assert (a + b)[..|a + b| - 1] == a + init;
      DistinctElements(a);
      DistinctElements(init);
      DistinctElements(a + init);
      assert last in a + init <==> last in a || last in init;
      if last !in init {
        assert Distinct(b) == Distinct(init) + [last];
        assert Distinct(b)[..|Distinct(b)| - 1] == Distinct(init);
      }
    }
  }

  lemma WithoutSameElements<T>(s: seq<T>, a: seq<T>, b: seq<T>)
    requires forall x :: x in a <==> x in b
    ensures Without(s, a) == Without(s, b)
  {
  }

  function Flatten<T>(parts: seq<seq<T>>): seq<T> {
    if parts == [] then [] else parts[0] + Flatten(parts[1..])
  }
}
