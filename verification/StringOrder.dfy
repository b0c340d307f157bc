/** Strings in the order Python compares them, `sorted` and `str.join`. */
module StringOrder {

  predicate AtMost(a: string, b: string) {
    a == "" || (b != "" && (a[0] < b[0] || (a[0] == b[0] && AtMost(a[1..], b[1..]))))
  }

  lemma {:induction false} AtMostTotal(a: string, b: string)
    ensures AtMost(a, b) || AtMost(b, a)
    ensures AtMost(a, b) && AtMost(b, a) ==> a == b
    decreases |a| + |b|
  {
    if a != "" {
      if b != "" {
        AtMostTotal(a[1..], b[1..]);
        assert a == [a[0]] + a[1..] && b == [b[0]] + b[1..];
      }
    }
  }

  lemma {:induction false} AtMostTransitive(a: string, b: string, c: string)
    requires AtMost(a, b) && AtMost(b, c)
    ensures AtMost(a, c)
    decreases |a|
  {
    if a != "" && a[0] == c[0] {
      AtMostTransitive(a[1..], b[1..], c[1..]);
    }
  }

  lemma {:induction false} PrefixAtMost(a: string, b: string)
    ensures AtMost(a, a + b)
  {
    if a != "" {
      assert (a + b)[1..] == a[1..] + b;
      PrefixAtMost(a[1..], b);
    }
  }

  ghost predicate Ordered(s: seq<string>) {
    forall i, j :: 0 <= i < j < |s| ==> AtMost(s[i], s[j])
  }

  function Insert(x: string, s: seq<string>): (r: seq<string>)
    ensures multiset(r) == multiset{x} + multiset(s)
  {
    if s == [] || AtMost(x, s[0]) then [x] + s
    else
      assert s == [s[0]] + s[1..];
      [s[0]] + Insert(x, s[1..])
  }

  function Sort(s: seq<string>): (r: seq<string>)
    ensures multiset(r) == multiset(s)
  {
    if s == [] then []
    else
      assert s == [s[0]] + s[1..];
      Insert(s[0], Sort(s[1..]))
  }

  lemma {:induction false} InsertOrdered(x: string, s: seq<string>)
    requires Ordered(s)
    ensures Ordered(Insert(x, s))
  {
    if s == [] {
    } else if AtMost(x, s[0]) {
      var r := [x] + s;
      forall i, j | 0 <= i < j < |r| ensures AtMost(r[i], r[j]) {
        if i == 0 && j > 1 {
          AtMostTransitive(x, s[0], s[j - 1]);
        }
      }
    } else {
      AtMostTotal(x, s[0]);
      InsertOrdered(x, s[1..]);
      var rest := Insert(x, s[1..]);
      forall j | 0 <= j < |rest| ensures AtMost(s[0], rest[j]) {
        assert rest[j] in multiset(rest);
        if rest[j] != x {
          assert rest[j] in s[1..];
        }
      }
      hide AtMost;
    }
  }

  lemma {:induction false} SortOrdered(s: seq<string>)
    ensures Ordered(Sort(s))
  {
    if s != [] {
      SortOrdered(s[1..]);
      InsertOrdered(s[0], Sort(s[1..]));
    }
  }

  lemma {:induction false} WithoutFirst(s: seq<string>)
    requires s != []
    ensures multiset(s[1..]) == multiset(s) - multiset{s[0]}
  {
    assert s == [s[0]] + s[1..];
  }

  lemma {:induction false} SameFirst(a: seq<string>, b: seq<string>)
    requires Ordered(a) && Ordered(b) && multiset(a) == multiset(b) && a != [] && b != []
    ensures a[0] == b[0]
  {
    hide AtMost;
    assert a[0] in multiset(b) && b[0] in multiset(a);
    var i :| 0 <= i < |b| && b[i] == a[0];
    var j :| 0 <= j < |a| && a[j] == b[0];
    AtMostTotal(a[0], b[0]);
    assert i > 0 ==> AtMost(b[0], b[i]);
    assert j > 0 ==> AtMost(a[0], a[j]);
  }

  lemma {:induction false} OrderedRest(s: seq<string>)
    requires Ordered(s) && s != []
    ensures Ordered(s[1..])
  {
    hide AtMost;
  }

  /** A list has one sorted form, whatever order it came in. */
  lemma {:induction false} OrderedUnique(a: seq<string>, b: seq<string>)
    requires Ordered(a) && Ordered(b) && multiset(a) == multiset(b)
    ensures a == b
  {
    hide AtMost, Ordered;
    assert |multiset(a)| == |a| && |multiset(b)| == |b|;
    if a != [] {
      SameFirst(a, b);
      OrderedRest(a);
      OrderedRest(b);
      WithoutFirst(a);
      WithoutFirst(b);
      OrderedUnique(a[1..], b[1..]);
      assert a == [a[0]] + a[1..] && b == [b[0]] + b[1..];
    }
  }

  lemma SortOfOrdered(s: seq<string>)
    requires Ordered(s)
    ensures Sort(s) == s
  {
    SortOrdered(s);
    OrderedUnique(Sort(s), s);
  }

  predicate IsLeast(s: set<string>, x: string) {
    x in s && forall y :: y in s ==> AtMost(x, y)
  }

  lemma {:induction false} LeastExists(s: set<string>)
    requires s != {}
    ensures exists x :: IsLeast(s, x)
    decreases |s|
  {
    var x :| x in s;
    AtMostTotal(x, x);
    if s == {x} {
      assert IsLeast(s, x);
    } else {
      LeastExists(s - {x});
      var rest :| IsLeast(s - {x}, rest);
      AtMostTotal(x, rest);
      forall y | y in s - {x} && AtMost(x, rest) ensures AtMost(x, y) {
        AtMostTransitive(x, rest, y);
      }
      assert IsLeast(s, if AtMost(x, rest) then x else rest);
    }
  }

  function Least(s: set<string>): (least: string)
    requires s != {}
    ensures IsLeast(s, least)
  {
    LeastExists(s);
    assert forall x, y :: IsLeast(s, x) && IsLeast(s, y) ==> x == y by {
      forall x, y | IsLeast(s, x) && IsLeast(s, y) ensures x == y {
        AtMostTotal(x, y);
      }
    }
    var least :| IsLeast(s, least);
    least
  }

  lemma {:induction false} LeastFirst(s: set<string>, rest: seq<string>)
    requires s != {} && Ordered(rest) && forall x :: x in rest <==> x in s - {Least(s)}
    ensures Ordered([Least(s)] + rest) && forall x :: x in [Least(s)] + rest <==> x in s
  {
    hide AtMost;
    forall j | 0 <= j < |rest| ensures AtMost(Least(s), rest[j]) {
      assert rest[j] in rest;
    }
  }

  /** `sorted` of a set: each element once, in order. */
  function SortedSet(s: set<string>): (r: seq<string>)
    ensures forall x :: x in r <==> x in s
    ensures Ordered(r) && |r| == |s|
    decreases |s|
  {
    if s == {} then []
    else
      var rest := SortedSet(s - {Least(s)});
      LeastFirst(s, rest);
      [Least(s)] + rest
  }

  function Join(separator: char, parts: seq<string>): string {
    if parts == [] then ""
    else if |parts| == 1 then parts[0]
    else parts[0] + [separator] + Join(separator, parts[1..])
  }

  lemma {:induction false} JoinStep(separator: char, first: string, rest: seq<string>)
    ensures Join(separator, [first]) == first
    ensures Join(separator, [first] + rest) == if rest == [] then first else first + [separator] + Join(separator, rest)
  {
    assert ([first] + rest)[1..] == rest;
  }
}
