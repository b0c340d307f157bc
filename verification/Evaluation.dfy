/**
 * Known-answer comparison: whether an answer's rows still match what a case expects. Row order and
 * column order do not matter unless the case says so; numbers match within a configured tolerance.
 */
module Evaluation {
  import opened Wrappers
  import opened Sequences
  import Decimals

  datatype Value = Null | Bool(b: bool) | Num(number: real) | Text(text: string)

  /** One column of a row. A row lists its columns in the order its dictionary holds them. */
  datatype Cell = Cell(name: string, value: Value)

  type Row = seq<Cell>

  /**
   * What the comparison takes from Python's text handling: case folding, reading a number out of a
   * text, stripping white space, and writing a normalized number.
   */
  datatype TextRules = TextRules(
    fold: string -> string,
    number: string -> Option<real>,
    strip: string -> string,
    render: real -> string)

  /** Different numbers are written differently. */
  ghost predicate RendersFaithfully(rules: TextRules) {
    forall x: real, y: real :: rules.render(x) == rules.render(y) ==> x == y
  }

  function Number(rules: TextRules, v: Value): Option<real> {
    match v
    case Null => None
    case Bool(_) => None
    case Num(n) => Some(n)
    case Text(t) => rules.number(t)
  }

  function Canonical(rules: TextRules, v: Value): string {
    var n := Number(rules, v);
    if n.Some? then rules.render(n.value)
    else
      match v
      case Null => "null"
      case Bool(b) => if b then "True" else "False"
      case Num(_) => ""
      case Text(t) => rules.strip(t)
  }

  predicate Matches(rules: TextRules, expected: Value, actual: Value, tolerance: real) {
    var e, a := Number(rules, expected), Number(rules, actual);
    if e.Some? && a.Some? then Decimals.Abs(e.value - a.value) <= tolerance
    else Canonical(rules, expected) == Canonical(rules, actual)
  }

  /** A value by folded column name; of two columns that fold alike the later one counts. */
  function Lookup(rules: TextRules, row: Row, name: string): Option<Value> {
    if row == [] then None
    else
      var last := row[|row| - 1];
      if rules.fold(last.name) == name then Some(last.value) else Lookup(rules, row[..|row| - 1], name)
  }

  /** Only the columns the expected row names are compared. */
  predicate RowsMatch(rules: TextRules, expected: Row, actual: Row, tolerance: real) {
    forall i :: 0 <= i < |expected| ==>
      var found := Lookup(rules, actual, rules.fold(expected[i].name));
      found.Some? && Matches(rules, expected[i].value, found.value, tolerance)
  }

  // ---------------------------------------------------------------------------------------------
  // What matches what

  /** A text that reads as no number. */
  predicate IsWord(rules: TextRules, v: Value) {
    v.Text? && rules.number(v.text).None?
  }

  /** The value is this number, or a text that reads as it. */
  predicate IsNumber(rules: TextRules, v: Value, n: real) {
    v == Num(n) || (v.Text? && rules.number(v.text) == Some(n))
  }

  /** Two words match when they differ in outer blanks only; numbers when they are within the tolerance. */
  lemma {:induction false} LikeMatchesLike(rules: TextRules, e: Value, a: Value, tolerance: real)
    ensures IsWord(rules, e) && IsWord(rules, a) ==>
      (Matches(rules, e, a, tolerance) <==> rules.strip(e.text) == rules.strip(a.text))
    ensures forall x, y :: IsNumber(rules, e, x) && IsNumber(rules, a, y) ==>
      (Matches(rules, e, a, tolerance) <==> x - tolerance <= y <= x + tolerance)
    ensures e.Bool? && a.Bool? ==> (Matches(rules, e, a, tolerance) <==> e.b == a.b)
    ensures e.Null? && a.Null? ==> Matches(rules, e, a, tolerance)
  {
    assert "True"[0] != "False"[0];
    assert e.Num? ==> IsNumber(rules, e, e.number);
  }

  /**
   * Values of different kinds match, at every tolerance, by what they are written as: nothing as "null",
   * a truth value as "True" or "False", a number as it is rendered, a word as its stripped text.
   */
  lemma {:induction false} UnlikeMatchesByText(rules: TextRules, e: Value, a: Value, tolerance: real)
    ensures e.Null? && a.Bool? ==> !Matches(rules, e, a, tolerance)
    ensures e.Null? && IsWord(rules, a) ==> (Matches(rules, e, a, tolerance) <==> rules.strip(a.text) == "null")
    ensures e.Bool? && IsWord(rules, a) ==>
      (Matches(rules, e, a, tolerance) <==> rules.strip(a.text) == if e.b then "True" else "False")
    ensures forall x :: IsNumber(rules, e, x) && a.Null? ==> (Matches(rules, e, a, tolerance) <==> rules.render(x) == "null")
    ensures forall x :: IsNumber(rules, e, x) && a.Bool? ==>
      (Matches(rules, e, a, tolerance) <==> rules.render(x) == if a.b then "True" else "False")
    ensures forall x :: IsNumber(rules, e, x) && IsWord(rules, a) ==>
      (Matches(rules, e, a, tolerance) <==> rules.render(x) == rules.strip(a.text))
    ensures Number(rules, e).None? || Number(rules, a).None? ==>
      (Matches(rules, e, a, tolerance) <==> Matches(rules, a, e, tolerance))
  {
    assert "null"[0] != "True"[0] && "null"[0] != "False"[0];
  }

  /** The last column of the row that folds to this name. */
  ghost predicate ColumnAt(rules: TextRules, row: Row, name: string, j: int) {
    && 0 <= j < |row| && rules.fold(row[j].name) == name
    && forall k :: j < k < |row| ==> rules.fold(row[k].name) != name
  }

  lemma {:induction false} LookupExactly(rules: TextRules, row: Row, name: string)
    ensures Lookup(rules, row, name).None? <==> forall j :: 0 <= j < |row| ==> rules.fold(row[j].name) != name
    ensures forall j :: ColumnAt(rules, row, name, j) ==> Lookup(rules, row, name) == Some(row[j].value)
    ensures Lookup(rules, row, name).Some? ==> exists j :: ColumnAt(rules, row, name, j)
  {
    if row != [] {
      var n := |row| - 1;
      LookupExactly(rules, row[..n], name);
      if rules.fold(row[n].name) == name {
        assert ColumnAt(rules, row, name, n);
      } else {
        assert forall j :: ColumnAt(rules, row, name, j) <==> ColumnAt(rules, row[..n], name, j);
      }
    }
  }

  /** The expected column is there, up to case, and its value matches; of two such columns the later counts. */
  ghost predicate Answers(rules: TextRules, expected: Cell, actual: Row, tolerance: real) {
    exists j :: ColumnAt(rules, actual, rules.fold(expected.name), j) && Matches(rules, expected.value, actual[j].value, tolerance)
  }

  /** Rows match exactly when every column the expected row names is answered, whatever else there is. */
  lemma {:induction false} RowsMatchExactly(rules: TextRules, expected: Row, actual: Row, tolerance: real)
    ensures RowsMatch(rules, expected, actual, tolerance) <==>
      forall i :: 0 <= i < |expected| ==> Answers(rules, expected[i], actual, tolerance)
  {
    forall i | 0 <= i < |expected|
      ensures Answers(rules, expected[i], actual, tolerance) <==>
        var found := Lookup(rules, actual, rules.fold(expected[i].name));
        found.Some? && Matches(rules, expected[i].value, found.value, tolerance)
    {
      var name := rules.fold(expected[i].name);
      LookupExactly(rules, actual, name);
      hide Matches, Lookup, ColumnAt;
      if j :| ColumnAt(rules, actual, name, j) {
        assert Lookup(rules, actual, name) == Some(actual[j].value);
      }
    }
    hide Answers, Lookup, Matches;
  }

  // ---------------------------------------------------------------------------------------------
  // Unordered tables

  function FirstMatch(rules: TextRules, expected: Row, rows: seq<Row>, tolerance: real): (i: nat)
    ensures i <= |rows|
    ensures i < |rows| ==> RowsMatch(rules, expected, rows[i], tolerance)
    ensures forall j :: 0 <= j < i ==> !RowsMatch(rules, expected, rows[j], tolerance)
  {
    if rows == [] || RowsMatch(rules, expected, rows[0], tolerance) then 0
    else 1 + FirstMatch(rules, expected, rows[1..], tolerance)
  }

  /** Each expected row takes the first remaining row that matches it. */
  predicate Greedy(rules: TextRules, expected: seq<Row>, remaining: seq<Row>, tolerance: real) {
    if expected == [] then true
    else
      var i := FirstMatch(rules, expected[0], remaining, tolerance);
      i < |remaining| && Greedy(rules, expected[1..], RemoveAt(remaining, i), tolerance)
  }

  /** `list.remove`: drops the first element equal to `x`. */
  function RemoveFirst(s: seq<Row>, x: Row): seq<Row>
    requires x in s
  {
    if s[0] == x then s[1..] else [s[0]] + RemoveFirst(s[1..], x)
  }

  lemma {:induction false} RemoveFirstIsRemoveAt(s: seq<Row>, i: nat)
    requires i < |s| && forall j :: 0 <= j < i ==> s[j] != s[i]
    ensures RemoveFirst(s, s[i]) == RemoveAt(s, i)
  {
    if i > 0 {
      RemoveFirstIsRemoveAt(s[1..], i - 1);
      assert RemoveAt(s, i) == [s[0]] + RemoveAt(s[1..], i - 1);
    }
  }

  method FindMatch(rules: TextRules, expected: Row, rows: seq<Row>, tolerance: real) returns (match_: Option<Row>)
    ensures var i := FirstMatch(rules, expected, rows, tolerance);
      match_ == if i < |rows| then Some(rows[i]) else None
  {
    for i := 0 to |rows|
      invariant FirstMatch(rules, expected, rows, tolerance) >= i
    {
      if RowsMatch(rules, expected, rows[i], tolerance) {
        return Some(rows[i]);
      }
    }
    return None;
  }

  method CompareUnordered(rules: TextRules, expected: seq<Row>, rows: seq<Row>, tolerance: real) returns (pass: bool)
    ensures pass == (|expected| == |rows| && Greedy(rules, expected, rows, tolerance))
  {
    if |rows| != |expected| {
      return false;
    }
    var remaining := rows;
    for k := 0 to |expected|
      invariant Greedy(rules, expected, rows, tolerance) == Greedy(rules, expected[k..], remaining, tolerance)
    {
      var found := FindMatch(rules, expected[k], remaining, tolerance);
      assert expected[k..][0] == expected[k] && expected[k..][1..] == expected[k + 1..];
      if found.None? {
        return false;
      }
      RemoveFirstIsRemoveAt(remaining, FirstMatch(rules, expected[k], remaining, tolerance));
      remaining := RemoveFirst(remaining, found.value);
    }
    return true;
  }

  // ---------------------------------------------------------------------------------------------
  // Greedy matching as a matching problem

  /** Expected row `i` is answered by actual row `p[i]`, and no actual row answers twice. */
  ghost predicate Assignment(rules: TextRules, expected: seq<Row>, rows: seq<Row>, tolerance: real, p: seq<nat>) {
    && |p| == |expected|
    && (forall i :: 0 <= i < |p| ==> p[i] < |rows| && RowsMatch(rules, expected[i], rows[p[i]], tolerance))
    && (forall i, j :: 0 <= i < j < |p| ==> p[i] != p[j])
  }

  ghost predicate Assignable(rules: TextRules, expected: seq<Row>, rows: seq<Row>, tolerance: real) {
    exists p :: Assignment(rules, expected, rows, tolerance, p)
  }

  function Raise(p: seq<nat>, i: nat): (q: seq<nat>)
    ensures |q| == |p|
    ensures forall k :: 0 <= k < |p| ==> q[k] == if p[k] < i then p[k] else p[k] + 1
  {
    seq(|p|, k requires 0 <= k < |p| => if p[k] < i then p[k] else p[k] + 1)
  }

  function Lower(p: seq<nat>, i: nat): (q: seq<nat>)
    requires forall k :: 0 <= k < |p| ==> p[k] != i
    ensures |q| == |p|
    ensures forall k :: 0 <= k < |p| ==> q[k] == if p[k] < i then p[k] else p[k] - 1
  {
    seq(|p|, k requires 0 <= k < |p| => if p[k] < i then p[k] else p[k] - 1)
  }

  lemma {:induction false} TakeFirst(
    rules: TextRules, expected: seq<Row>, rows: seq<Row>, tolerance: real, i: nat, p: seq<nat>)
    requires expected != [] && i < |rows| && RowsMatch(rules, expected[0], rows[i], tolerance)
    requires Assignment(rules, expected[1..], RemoveAt(rows, i), tolerance, p)
    ensures Assignment(rules, expected, rows, tolerance, [i] + Raise(p, i))
  {
    hide RowsMatch;
    var q: seq<nat> := [i] + Raise(p, i);
    forall k | 0 <= k < |q| ensures q[k] < |rows| && RowsMatch(rules, expected[k], rows[q[k]], tolerance) {
      if k > 0 {
        assert RemoveAt(rows, i)[p[k - 1]] == rows[q[k]];
        assert expected[1..][k - 1] == expected[k];
      }
    }
    forall a, b | 0 <= a < b < |q| ensures q[a] != q[b] {
      assert a > 0 ==> p[a - 1] != p[b - 1];
    }
  }

  /** Soundness, at any tolerance: a pass always comes with a one-to-one assignment. */
  lemma {:induction false} GreedyIsSound(rules: TextRules, expected: seq<Row>, rows: seq<Row>, tolerance: real)
    requires Greedy(rules, expected, rows, tolerance)
    ensures Assignable(rules, expected, rows, tolerance)
    decreases |expected|
  {
    hide RowsMatch;
    if expected == [] {
      assert Assignment(rules, expected, rows, tolerance, []);
    } else {
      var i := FirstMatch(rules, expected[0], rows, tolerance);
      GreedyIsSound(rules, expected[1..], RemoveAt(rows, i), tolerance);
      hide Greedy, FirstMatch;
      var p :| Assignment(rules, expected[1..], RemoveAt(rows, i), tolerance, p);
      TakeFirst(rules, expected, rows, tolerance, i, p);
    }
  }

  /** Expected rows that share one candidate share all of them. */
  ghost predicate Rectangular(rules: TextRules, expected: seq<Row>, rows: seq<Row>, tolerance: real) {
    forall i, j, a, b :: 0 <= i < |expected| && 0 <= j < |expected| && 0 <= a < |rows| && 0 <= b < |rows| ==>
      (RowsMatch(rules, expected[i], rows[a], tolerance) && RowsMatch(rules, expected[j], rows[a], tolerance)
       && RowsMatch(rules, expected[i], rows[b], tolerance)) ==> RowsMatch(rules, expected[j], rows[b], tolerance)
  }

  /** Row `i` can be moved to whoever answers the first expected row. */
  lemma {:induction false} ExchangeFirst(
    rules: TextRules, expected: seq<Row>, rows: seq<Row>, tolerance: real, p: seq<nat>, i: nat) returns (q: seq<nat>)
    requires Rectangular(rules, expected, rows, tolerance) && expected != []
    requires Assignment(rules, expected, rows, tolerance, p)
    requires i < |rows| && RowsMatch(rules, expected[0], rows[i], tolerance)
    ensures Assignment(rules, expected, rows, tolerance, q) && q[0] == i
  {
    hide RowsMatch;
    if k :| 0 < k < |p| && p[k] == i {
      q := p[0 := i][k := p[0]];
      assert RowsMatch(rules, expected[k], rows[p[0]], tolerance);
    } else {
      q := p[0 := i];
    }
  }

  lemma {:induction false} DropFirst(
    rules: TextRules, expected: seq<Row>, rows: seq<Row>, tolerance: real, q: seq<nat>)
    requires expected != [] && Assignment(rules, expected, rows, tolerance, q)
    ensures q[0] < |rows| && Assignable(rules, expected[1..], RemoveAt(rows, q[0]), tolerance)
  {
    hide RowsMatch;
    var i := q[0];
    forall k | 0 <= k < |q[1..]| ensures q[1..][k] != i {
      assert q[1..][k] == q[k + 1];
    }
    var r := Lower(q[1..], i);
    forall k | 0 <= k < |r|
      ensures r[k] < |RemoveAt(rows, i)| && RowsMatch(rules, expected[1..][k], RemoveAt(rows, i)[r[k]], tolerance)
    {
      assert RemoveAt(rows, i)[r[k]] == rows[q[k + 1]];
    }
    forall a, b | 0 <= a < b < |r| ensures r[a] != r[b] {
      assert q[a + 1] != q[b + 1];
    }
    assert Assignment(rules, expected[1..], RemoveAt(rows, i), tolerance, r);
  }

  lemma {:induction false} RectangularRest(
    rules: TextRules, expected: seq<Row>, rows: seq<Row>, tolerance: real, i: nat)
    requires Rectangular(rules, expected, rows, tolerance) && expected != [] && i < |rows|
    ensures Rectangular(rules, expected[1..], RemoveAt(rows, i), tolerance)
  {
    hide RowsMatch;
    var rest := RemoveAt(rows, i);
    forall e, f, a, b | 0 <= e < |expected[1..]| && 0 <= f < |expected[1..]| && 0 <= a < |rest| && 0 <= b < |rest|
      && RowsMatch(rules, expected[1..][e], rest[a], tolerance) && RowsMatch(rules, expected[1..][f], rest[a], tolerance)
      && RowsMatch(rules, expected[1..][e], rest[b], tolerance)
      ensures RowsMatch(rules, expected[1..][f], rest[b], tolerance)
    {
      var x, y := if a < i then a else a + 1, if b < i then b else b + 1;
      assert rest[a] == rows[x] && rest[b] == rows[y];
      assert expected[1..][e] == expected[e + 1] && expected[1..][f] == expected[f + 1];
    }
  }

  /** Completeness when rows that compete for a candidate are interchangeable. */
  lemma {:induction false} GreedyIsComplete(rules: TextRules, expected: seq<Row>, rows: seq<Row>, tolerance: real)
    requires Rectangular(rules, expected, rows, tolerance)
    requires Assignable(rules, expected, rows, tolerance)
    ensures Greedy(rules, expected, rows, tolerance)
    decreases |expected|
  {
    if expected != [] {
      var p :| Assignment(rules, expected, rows, tolerance, p);
      var i := FirstMatch(rules, expected[0], rows, tolerance);
      assert p[0] < |rows| && RowsMatch(rules, expected[0], rows[p[0]], tolerance);
      assert i < |rows|;
      var q := ExchangeFirst(rules, expected, rows, tolerance, p, i);
      DropFirst(rules, expected, rows, tolerance, q);
      RectangularRest(rules, expected, rows, tolerance, i);
      GreedyIsComplete(rules, expected[1..], RemoveAt(rows, i), tolerance);
    }
  }

  /** On such inputs the verdict is exactly the existence of an assignment. */
  lemma GreedyIsExact(rules: TextRules, expected: seq<Row>, rows: seq<Row>, tolerance: real)
    requires Rectangular(rules, expected, rows, tolerance)
    ensures Greedy(rules, expected, rows, tolerance) <==> Assignable(rules, expected, rows, tolerance)
  {
    if Greedy(rules, expected, rows, tolerance) {
      GreedyIsSound(rules, expected, rows, tolerance);
    }
    if Assignable(rules, expected, rows, tolerance) {
      GreedyIsComplete(rules, expected, rows, tolerance);
    }
  }

  // ---------------------------------------------------------------------------------------------
  // Where that is exactly so

  /** Some rows of a table, each at most once, in any order. */
  ghost predicate Selection(p: seq<nat>, n: nat) {
    (forall i :: 0 <= i < |p| ==> p[i] < n) && forall i, j :: 0 <= i < j < |p| ==> p[i] != p[j]
  }

  function Select(rows: seq<Row>, p: seq<nat>): (r: seq<Row>)
    requires forall i :: 0 <= i < |p| ==> p[i] < |rows|
    ensures |r| == |p| && forall i :: 0 <= i < |r| ==> r[i] == rows[p[i]]
  {
    seq(|p|, i requires 0 <= i < |p| => rows[p[i]])
  }

  /** On these rows of the two tables, the greedy verdict is the right one. */
  ghost predicate DecidedOn(
    rules: TextRules, expected: seq<Row>, rows: seq<Row>, tolerance: real, p: seq<nat>, q: seq<nat>)
    requires Selection(p, |expected|) && Selection(q, |rows|)
  {
    var some, others := Select(expected, p), Select(rows, q);
    Greedy(rules, some, others, tolerance) <==> Assignable(rules, some, others, tolerance)
  }

  lemma {:induction false} SelectionIsRectangular(
    rules: TextRules, expected: seq<Row>, rows: seq<Row>, tolerance: real, p: seq<nat>, q: seq<nat>)
    requires Rectangular(rules, expected, rows, tolerance) && Selection(p, |expected|) && Selection(q, |rows|)
    ensures Rectangular(rules, Select(expected, p), Select(rows, q), tolerance)
  {
    hide RowsMatch;
  }

  lemma {:induction false} RectangularDecides(
    rules: TextRules, expected: seq<Row>, rows: seq<Row>, tolerance: real, p: seq<nat>, q: seq<nat>)
    requires Rectangular(rules, expected, rows, tolerance) && Selection(p, |expected|) && Selection(q, |rows|)
    ensures DecidedOn(rules, expected, rows, tolerance, p, q)
  {
    hide RowsMatch, Greedy, Assignable, Rectangular;
    SelectionIsRectangular(rules, expected, rows, tolerance, p, q);
    GreedyIsExact(rules, Select(expected, p), Select(rows, q), tolerance);
  }

  /** Two rows that compete unevenly: taking the shared one first leaves the other without any. */
  lemma {:induction false} UnevenRowsAreMissed(rules: TextRules, x: Row, y: Row, a: Row, b: Row, tolerance: real)
    requires RowsMatch(rules, x, a, tolerance) && RowsMatch(rules, y, a, tolerance)
    requires RowsMatch(rules, x, b, tolerance) && !RowsMatch(rules, y, b, tolerance)
    ensures !Greedy(rules, [x, y], [a, b], tolerance) && Assignable(rules, [x, y], [a, b], tolerance)
  {
    hide RowsMatch;
    assert FirstMatch(rules, x, [a, b], tolerance) == 0;
    assert [x, y][1..] == [y] && RemoveAt([a, b], 0) == [b];
    assert FirstMatch(rules, y, [b], tolerance) == 1 by {
      assert [b][1..] == [];
    }
    assert !Greedy(rules, [y], [b], tolerance);
    assert Assignment(rules, [x, y], [a, b], tolerance, [1, 0]);
  }

  lemma {:induction false} SelectPair(rows: seq<Row>, i: nat, j: nat)
    requires i < |rows| && j < |rows| && i != j
    ensures Selection([i, j], |rows|) && Select(rows, [i, j]) == [rows[i], rows[j]]
  {
  }

  lemma {:induction false} UnevenPairsAreUndecided(
    rules: TextRules, expected: seq<Row>, rows: seq<Row>, tolerance: real, i: nat, j: nat, a: nat, b: nat)
    requires i < |expected| && j < |expected| && a < |rows| && b < |rows|
    requires RowsMatch(rules, expected[i], rows[a], tolerance) && RowsMatch(rules, expected[j], rows[a], tolerance)
    requires RowsMatch(rules, expected[i], rows[b], tolerance) && !RowsMatch(rules, expected[j], rows[b], tolerance)
    ensures Selection([i, j], |expected|) && Selection([a, b], |rows|)
    ensures !DecidedOn(rules, expected, rows, tolerance, [i, j], [a, b])
  {
    UnevenRowsAreMissed(rules, expected[i], expected[j], rows[a], rows[b], tolerance);
    hide RowsMatch, Greedy, Assignable, Selection, Select;
    SelectPair(expected, i, j);
    SelectPair(rows, a, b);
  }

  lemma {:induction false} UnevenSelection(rules: TextRules, expected: seq<Row>, rows: seq<Row>, tolerance: real)
    returns (p: seq<nat>, q: seq<nat>)
    requires !Rectangular(rules, expected, rows, tolerance)
    ensures Selection(p, |expected|) && Selection(q, |rows|) && !DecidedOn(rules, expected, rows, tolerance, p, q)
  {
    hide RowsMatch, DecidedOn, Selection;
    var i: nat, j: nat, a: nat, b: nat :|
      && i < |expected| && j < |expected| && a < |rows| && b < |rows|
      && RowsMatch(rules, expected[i], rows[a], tolerance) && RowsMatch(rules, expected[j], rows[a], tolerance)
      && RowsMatch(rules, expected[i], rows[b], tolerance) && !RowsMatch(rules, expected[j], rows[b], tolerance);
    p, q := [i, j], [a, b];
    UnevenPairsAreUndecided(rules, expected, rows, tolerance, i, j, a, b);
  }

  /**
   * The greedy verdict is the right one on every selection of the two tables, in every order, if
   * and only if expected rows that share a candidate share them all.
   */
  lemma {:induction false} RectangularExactly(rules: TextRules, expected: seq<Row>, rows: seq<Row>, tolerance: real)
    ensures Rectangular(rules, expected, rows, tolerance) <==>
      forall p, q :: Selection(p, |expected|) && Selection(q, |rows|) ==>
        DecidedOn(rules, expected, rows, tolerance, p, q)
  {
    hide RowsMatch, Greedy, Assignable, Rectangular, DecidedOn;
    if Rectangular(rules, expected, rows, tolerance) {
      forall p, q | Selection(p, |expected|) && Selection(q, |rows|)
        ensures DecidedOn(rules, expected, rows, tolerance, p, q)
      {
        RectangularDecides(rules, expected, rows, tolerance, p, q);
      }
    } else {
      var p, q := UnevenSelection(rules, expected, rows, tolerance);
    }
  }

  function Numbers(column: string, values: seq<real>): (rows: seq<Row>)
    ensures |rows| == |values| && forall i :: 0 <= i < |rows| ==> rows[i] == [Cell(column, Num(values[i]))]
  {
    seq(|values|, i requires 0 <= i < |values| => [Cell(column, Num(values[i]))])
  }

  lemma {:induction false} NumbersMatch(rules: TextRules, column: string, e: real, a: real, tolerance: real)
    ensures RowsMatch(rules, [Cell(column, Num(e))], [Cell(column, Num(a))], tolerance) <==> Decimals.Abs(e - a) <= tolerance
  {
    var x, y: Row := [Cell(column, Num(e))], [Cell(column, Num(a))];
    assert Lookup(rules, y, rules.fold(column)) == Some(Num(a));
    assert x[0].name == column;
  }

  /** With a tolerance, greedy can fail an answer that an assignment would pass: 1, 0 against 0, 2. */
  lemma {:induction false} ToleranceCanMissAnAssignment(rules: TextRules)
    ensures var expected, rows := Numbers("n", [1.0, 0.0]), Numbers("n", [0.0, 2.0]);
      Assignable(rules, expected, rows, 1.0) && !Greedy(rules, expected, rows, 1.0)
  {
    var expected, rows := Numbers("n", [1.0, 0.0]), Numbers("n", [0.0, 2.0]);
    NumbersMatch(rules, "n", 1.0, 0.0, 1.0);
    NumbersMatch(rules, "n", 1.0, 2.0, 1.0);
    NumbersMatch(rules, "n", 0.0, 0.0, 1.0);
    NumbersMatch(rules, "n", 0.0, 2.0, 1.0);
    hide RowsMatch;
    assert Assignment(rules, expected, rows, 1.0, [1, 0]);
    assert FirstMatch(rules, expected[0], rows, 1.0) == 0;
    var rest := RemoveAt(rows, 0);
    assert rest == [rows[1]] && expected[1..][0] == expected[1];
    assert FirstMatch(rules, expected[1], rest, 1.0) == 1;
  }

  // ---------------------------------------------------------------------------------------------
  // Tolerance zero, one set of columns: the verdict is multiset equality

  function Names(rules: TextRules, row: Row): set<string> {
    set i | 0 <= i < |row| :: rules.fold(row[i].name)
  }

  /** Everything an expected row asks of each of its columns. */
  function Demanded(rules: TextRules, row: Row): map<string, set<string>> {
    map n | n in Names(rules, row) ::
      set i | 0 <= i < |row| && rules.fold(row[i].name) == n :: Canonical(rules, row[i].value)
  }

  /** What an actual row offers in the named columns. */
  function Offered(rules: TextRules, row: Row, names: set<string>): map<string, set<string>> {
    map n | n in names && Lookup(rules, row, n).Some? :: {Canonical(rules, Lookup(rules, row, n).value)}
  }

  lemma MatchesIsCanonical(rules: TextRules, e: Value, a: Value)
    requires RendersFaithfully(rules)
    ensures Matches(rules, e, a, 0.0) <==> Canonical(rules, e) == Canonical(rules, a)
  {
  }

  lemma {:induction false} MatchIsProfile(rules: TextRules, e: Row, a: Row)
    requires RendersFaithfully(rules)
    ensures RowsMatch(rules, e, a, 0.0) <==> Demanded(rules, e) == Offered(rules, a, Names(rules, e))
  {
    var names, d, o := Names(rules, e), Demanded(rules, e), Offered(rules, a, Names(rules, e));
    if RowsMatch(rules, e, a, 0.0) {
      forall n | n in names ensures n in o && d[n] == o[n] {
        var i :| 0 <= i < |e| && rules.fold(e[i].name) == n;
        assert Canonical(rules, e[i].value) in d[n];
        forall k | 0 <= k < |e| && rules.fold(e[k].name) == n
          ensures Canonical(rules, e[k].value) == Canonical(rules, Lookup(rules, a, n).value)
        {
          MatchesIsCanonical(rules, e[k].value, Lookup(rules, a, n).value);
        }
      }
    } else if d == o {
      var i :| 0 <= i < |e| &&
        (var found := Lookup(rules, a, rules.fold(e[i].name));
         found.None? || !Matches(rules, e[i].value, found.value, 0.0));
      var n := rules.fold(e[i].name);
      assert n in d && n in o;
      assert Canonical(rules, e[i].value) in d[n];
      MatchesIsCanonical(rules, e[i].value, Lookup(rules, a, n).value);
    }
  }

  function DemandedAll(rules: TextRules, rows: seq<Row>): (d: seq<map<string, set<string>>>)
    ensures |d| == |rows| && forall i :: 0 <= i < |rows| ==> d[i] == Demanded(rules, rows[i])
  {
    seq(|rows|, i requires 0 <= i < |rows| => Demanded(rules, rows[i]))
  }

  function OfferedAll(rules: TextRules, rows: seq<Row>, names: set<string>): (o: seq<map<string, set<string>>>)
    ensures |o| == |rows| && forall i :: 0 <= i < |rows| ==> o[i] == Offered(rules, rows[i], names)
  {
    seq(|rows|, i requires 0 <= i < |rows| => Offered(rules, rows[i], names))
  }

  lemma MultisetRemoveAt<T>(s: seq<T>, i: nat)
    requires i < |s|
    ensures multiset(RemoveAt(s, i)) == multiset(s) - multiset{s[i]}
  {
    assert s == s[..i] + ([s[i]] + s[i + 1..]);
  }

  ghost predicate NamesOnly(rules: TextRules, expected: seq<Row>, names: set<string>) {
    forall i :: 0 <= i < |expected| ==> Names(rules, expected[i]) == names
  }

  lemma ProfilesAfterRemoval(rules: TextRules, expected: seq<Row>, rows: seq<Row>, names: set<string>, i: nat)
    requires expected != [] && i < |rows|
    ensures DemandedAll(rules, expected[1..]) == RemoveAt(DemandedAll(rules, expected), 0)
    ensures OfferedAll(rules, RemoveAt(rows, i), names) == RemoveAt(OfferedAll(rules, rows, names), i)
  {
    hide Demanded, Offered;
  }

  lemma FirstMatchByProfile(rules: TextRules, e: Row, rows: seq<Row>, names: set<string>)
    requires RendersFaithfully(rules) && Names(rules, e) == names
    ensures var i := FirstMatch(rules, e, rows, 0.0);
      if i < |rows| then Offered(rules, rows[i], names) == Demanded(rules, e)
      else Demanded(rules, e) !in OfferedAll(rules, rows, names)
  {
    forall k | 0 <= k < |rows|
      ensures RowsMatch(rules, e, rows[k], 0.0) <==> Demanded(rules, e) == Offered(rules, rows[k], names)
    {
      MatchIsProfile(rules, e, rows[k]);
    }
    hide RowsMatch, Demanded, Offered, Names, RendersFaithfully;
  }

  lemma {:induction false} GreedyIsMultisetEquality(
    rules: TextRules, expected: seq<Row>, rows: seq<Row>, names: set<string>)
    requires RendersFaithfully(rules) && |expected| == |rows| && NamesOnly(rules, expected, names)
    ensures Greedy(rules, expected, rows, 0.0)
       <==> multiset(DemandedAll(rules, expected)) == multiset(OfferedAll(rules, rows, names))
    decreases |expected|
  {
    hide RowsMatch, Demanded, Offered, RendersFaithfully, FirstMatch, Names;
    var d, o := DemandedAll(rules, expected), OfferedAll(rules, rows, names);
    if expected == [] {
      assert d == [] && o == [];
    } else {
      var i := FirstMatch(rules, expected[0], rows, 0.0);
      FirstMatchByProfile(rules, expected[0], rows, names);
      if i < |rows| {
        GreedyIsMultisetEquality(rules, expected[1..], RemoveAt(rows, i), names);
        ProfilesAfterRemoval(rules, expected, rows, names, i);
        SameRemoved(d, o, i);
      } else {
        assert d[0] in multiset(d) && d[0] !in multiset(o);
      }
    }
  }

  lemma SameWithout<T>(a: multiset<T>, b: multiset<T>, x: T)
    requires x in a && x in b
    ensures a - multiset{x} == b - multiset{x} <==> a == b
  {
    assert a == a - multiset{x} + multiset{x};
    assert b == b - multiset{x} + multiset{x};
  }

  lemma SameRemoved<T>(d: seq<T>, o: seq<T>, i: nat)
    requires d != [] && i < |o| && d[0] == o[i]
    ensures multiset(RemoveAt(d, 0)) == multiset(RemoveAt(o, i)) <==> multiset(d) == multiset(o)
  {
    MultisetRemoveAt(d, 0);
    MultisetRemoveAt(o, i);
    SameWithout(multiset(d), multiset(o), d[0]);
  }

  /** The verdict cannot depend on the order of the rows on either side. */
  lemma VerdictIgnoresRowOrder(
    rules: TextRules, expected: seq<Row>, rows: seq<Row>, expected': seq<Row>, rows': seq<Row>, names: set<string>)
    requires RendersFaithfully(rules) && |expected| == |rows| && NamesOnly(rules, expected, names)
    requires multiset(expected) == multiset(expected') && multiset(rows) == multiset(rows')
    ensures |expected'| == |rows'|
    ensures Greedy(rules, expected, rows, 0.0) <==> Greedy(rules, expected', rows', 0.0)
  {
    assert |multiset(expected)| == |expected| && |multiset(expected')| == |expected'|;
    assert |multiset(rows)| == |rows| && |multiset(rows')| == |rows'|;
    forall i | 0 <= i < |expected'| ensures Names(rules, expected'[i]) == names {
      assert expected'[i] in multiset(expected');
      assert expected'[i] in expected;
    }
    GreedyIsMultisetEquality(rules, expected, rows, names);
    GreedyIsMultisetEquality(rules, expected', rows', names);
    DemandedPermutes(rules, expected, expected');
    OfferedPermutes(rules, rows, rows', names);
  }

  lemma {:induction false} DemandedWithout(rules: TextRules, a: seq<Row>, i: nat)
    requires i < |a|
    ensures DemandedAll(rules, RemoveAt(a, i)) == RemoveAt(DemandedAll(rules, a), i)
  {
    hide Demanded;
  }

  lemma {:induction false} OfferedWithout(rules: TextRules, a: seq<Row>, i: nat, names: set<string>)
    requires i < |a|
    ensures OfferedAll(rules, RemoveAt(a, i), names) == RemoveAt(OfferedAll(rules, a, names), i)
  {
    hide Offered;
  }

  lemma {:induction false} DemandedPermutes(rules: TextRules, a: seq<Row>, b: seq<Row>)
    requires multiset(a) == multiset(b)
    ensures multiset(DemandedAll(rules, a)) == multiset(DemandedAll(rules, b))
    decreases |a|
  {
    hide Demanded, RemoveAt;
    if a == [] {
      assert |multiset(b)| == |b| == 0;
    } else {
      assert a[0] in multiset(b);
      var i :| 0 <= i < |b| && b[i] == a[0];
      MultisetRemoveAt(a, 0);
      MultisetRemoveAt(b, i);
      DemandedPermutes(rules, RemoveAt(a, 0), RemoveAt(b, i));
      var d, e := DemandedAll(rules, a), DemandedAll(rules, b);
      DemandedWithout(rules, a, 0);
      DemandedWithout(rules, b, i);
      hide *;
      SameRemoved(d, e, i);
    }
  }

  lemma {:induction false} OfferedPermutes(rules: TextRules, a: seq<Row>, b: seq<Row>, names: set<string>)
    requires multiset(a) == multiset(b)
    ensures multiset(OfferedAll(rules, a, names)) == multiset(OfferedAll(rules, b, names))
    decreases |a|
  {
    hide Offered, RemoveAt;
    if a == [] {
      assert |multiset(b)| == |b| == 0;
    } else {
      assert a[0] in multiset(b);
      var i :| 0 <= i < |b| && b[i] == a[0];
      MultisetRemoveAt(a, 0);
      MultisetRemoveAt(b, i);
      OfferedPermutes(rules, RemoveAt(a, 0), RemoveAt(b, i), names);
      var d, e := OfferedAll(rules, a, names), OfferedAll(rules, b, names);
      OfferedWithout(rules, a, 0, names);
      OfferedWithout(rules, b, i, names);
      hide *;
      SameRemoved(d, e, i);
    }
  }

  /** At tolerance zero but with different columns, order can decide: the looser row takes the stricter one's only match. */
  lemma {:induction false} ColumnsCanMissAnAssignment(rules: TextRules)
    requires rules.fold("a") != rules.fold("b")
    ensures var loose: Row, strict: Row, other: Row :=
        [Cell("a", Num(1.0))], [Cell("a", Num(1.0)), Cell("b", Num(2.0))], [Cell("a", Num(1.0)), Cell("b", Num(3.0))];
      && Greedy(rules, [strict, loose], [strict, other], 0.0)
      && !Greedy(rules, [loose, strict], [strict, other], 0.0)
  {
    var loose: Row, strict: Row, other: Row :=
      [Cell("a", Num(1.0))], [Cell("a", Num(1.0)), Cell("b", Num(2.0))], [Cell("a", Num(1.0)), Cell("b", Num(3.0))];
    var a, b := rules.fold("a"), rules.fold("b");
    assert strict[..1] == [Cell("a", Num(1.0))] && other[..1] == [Cell("a", Num(1.0))];
    assert Lookup(rules, strict, a) == Some(Num(1.0)) && Lookup(rules, strict, b) == Some(Num(2.0));
    assert Lookup(rules, other, a) == Some(Num(1.0)) && Lookup(rules, other, b) == Some(Num(3.0));
    assert RowsMatch(rules, loose, strict, 0.0) && RowsMatch(rules, loose, other, 0.0);
    assert RowsMatch(rules, strict, strict, 0.0);
    assert !RowsMatch(rules, strict, other, 0.0) by {
      assert !Matches(rules, strict[1].value, Num(3.0), 0.0);
    }
    hide RowsMatch;
    assert RemoveAt([strict, other], 0) == [other];
    assert [strict, loose][1..] == [loose] && [loose, strict][1..] == [strict];
    GreedyOne(rules, loose, other);
    GreedyOne(rules, strict, other);
  }

  lemma {:induction false} GreedyOne(rules: TextRules, e: Row, a: Row)
    ensures Greedy(rules, [e], [a], 0.0) <==> RowsMatch(rules, e, a, 0.0)
  {
    assert [e][1..] == [];
    assert Greedy(rules, [], RemoveAt([a], 0), 0.0);
  }

  // ---------------------------------------------------------------------------------------------
  // The verdict of a case

  datatype Outcome = PASS | FAIL | ERROR | SKIPPED

  datatype Expectation =
    | ScalarValue(value: Value)
    | Table(rows: seq<Row>, ordered: bool)
    | RowCount(count: int)
    | Empty

  datatype Case = Case(
    expectation: Expectation,
    tolerance: real,
    expectedRoute: Option<string>,
    expectedMetrics: set<string>)

  predicate OrderedMatch(rules: TextRules, expected: seq<Row>, rows: seq<Row>, tolerance: real) {
    |expected| == |rows| && forall i :: 0 <= i < |rows| ==> RowsMatch(rules, expected[i], rows[i], tolerance)
  }

  method CompareOrdered(rules: TextRules, expected: seq<Row>, rows: seq<Row>, tolerance: real) returns (pass: bool)
    ensures pass == OrderedMatch(rules, expected, rows, tolerance)
  {
    if |rows| != |expected| {
      return false;
    }
    for i := 0 to |rows|
      invariant forall j :: 0 <= j < i ==> RowsMatch(rules, expected[j], rows[j], tolerance)
    {
      if !RowsMatch(rules, expected[i], rows[i], tolerance) {
        return false;
      }
    }
    return true;
  }

  predicate Meets(rules: TextRules, c: Case, rows: seq<Row>) {
    match c.expectation
    case Empty => rows == []
    case RowCount(n) => |rows| == n
    case ScalarValue(v) => |rows| == 1 && |rows[0]| == 1 && Matches(rules, v, rows[0][0].value, c.tolerance)
    case Table(expected, ordered) =>
      if ordered then OrderedMatch(rules, expected, rows, c.tolerance)
      else |expected| == |rows| && Greedy(rules, expected, rows, c.tolerance)
  }

  /** A route that is named at all: an empty text counts as none. */
  predicate Named(route: Option<string>) {
    route.Some? && route.value != ""
  }

  /** A pass is the right route, the right metrics, and an answer that meets the expectation. */
  method Compare(rules: TextRules, c: Case, rows: seq<Row>, route: Option<string>, metricIds: set<string>)
    returns (outcome: Outcome)
    ensures outcome == PASS || outcome == FAIL
    ensures outcome == PASS <==>
      && (c.expectedRoute.Some? && c.expectedRoute.value != "" && route.Some? && route.value != "" ==>
            route == c.expectedRoute)
      && c.expectedMetrics <= metricIds
      && Meets(rules, c, rows)
    ensures outcome == PASS && c.expectation.Empty? ==> rows == []
    ensures outcome == PASS && c.expectation.RowCount? ==> |rows| == c.expectation.count
    ensures outcome == PASS && c.expectation.ScalarValue? ==>
      |rows| == 1 && |rows[0]| == 1 && Matches(rules, c.expectation.value, rows[0][0].value, c.tolerance)
    ensures outcome == PASS && c.expectation.Table? ==> |rows| == |c.expectation.rows|
  {
    if Named(c.expectedRoute) && Named(route) && route != c.expectedRoute {
      return FAIL;
    }
    var missing := c.expectedMetrics - metricIds;
    if missing != {} {
      var m :| m in missing;
      assert m in c.expectedMetrics && m !in metricIds;
      return FAIL;
    }
    assert c.expectedMetrics <= metricIds by {
      forall m | m in c.expectedMetrics ensures m in metricIds {
        assert m !in missing;
      }
    }
    var pass: bool;
    match c.expectation {
      case Empty => pass := rows == [];
      case RowCount(n) => pass := |rows| == n;
      case ScalarValue(v) => pass := |rows| == 1 && |rows[0]| == 1 && Matches(rules, v, rows[0][0].value, c.tolerance);
      case Table(expected, ordered) =>
        if ordered {
          pass := CompareOrdered(rules, expected, rows, c.tolerance);
        } else {
          pass := CompareUnordered(rules, expected, rows, c.tolerance);
        }
    }
    return if pass then PASS else FAIL;
  }

  /** However a table case is set up, a pass pairs every expected row with its own matching actual row. */
  lemma TablePassIsAssignment(rules: TextRules, c: Case, rows: seq<Row>)
    requires c.expectation.Table? && Meets(rules, c, rows)
    ensures |c.expectation.rows| == |rows| && Assignable(rules, c.expectation.rows, rows, c.tolerance)
  {
    var expected := c.expectation.rows;
    if c.expectation.ordered {
      var p := seq(|rows|, (i: nat) => i);
      assert Assignment(rules, expected, rows, c.tolerance, p);
    } else {
      GreedyIsSound(rules, expected, rows, c.tolerance);
    }
  }

  // ---------------------------------------------------------------------------------------------
  // Movement between runs

  datatype Movement = UNCHANGED_PASS | UNCHANGED_FAIL | IMPROVED | REGRESSION | NEW

  datatype CaseResult = CaseResult(caseId: nat, outcome: Outcome)

  /** The last result a run recorded for a case. */
  function LastOutcome(results: seq<CaseResult>, caseId: nat): Option<Outcome> {
    if results == [] then None
    else
      var last := results[|results| - 1];
      if last.caseId == caseId then Some(last.outcome) else LastOutcome(results[..|results| - 1], caseId)
  }

  /** The result at `i` is the last recorded for its case. */
  ghost predicate RecordedLast(results: seq<CaseResult>, caseId: nat, i: int) {
    && 0 <= i < |results| && results[i].caseId == caseId
    && forall j :: i < j < |results| ==> results[j].caseId != caseId
  }

  lemma {:induction false} LastOutcomeExactly(results: seq<CaseResult>, caseId: nat)
    ensures LastOutcome(results, caseId).None? <==> forall i :: 0 <= i < |results| ==> results[i].caseId != caseId
    ensures forall i :: RecordedLast(results, caseId, i) ==> LastOutcome(results, caseId) == Some(results[i].outcome)
    ensures LastOutcome(results, caseId).Some? ==> exists i :: RecordedLast(results, caseId, i)
  {
    if results != [] {
      var n := |results| - 1;
      LastOutcomeExactly(results[..n], caseId);
      if results[n].caseId == caseId {
        assert RecordedLast(results, caseId, n);
      } else {
        assert forall i :: RecordedLast(results, caseId, i) <==> RecordedLast(results[..n], caseId, i);
      }
    }
  }

  method LastOutcomes(results: seq<CaseResult>) returns (before: map<nat, Outcome>)
    ensures forall id :: LastOutcome(results, id) == if id in before then Some(before[id]) else None
  {
    before := map[];
    for i := 0 to |results|
      invariant forall id :: LastOutcome(results[..i], id) == if id in before then Some(before[id]) else None
    {
      before := before[results[i].caseId := results[i].outcome];
      assert results[..i + 1][..i] == results[..i];
    }
    assert results[..|results|] == results;
  }

  /** A regression is a case that passed before and does not pass now, and nothing else is. */
  method Movements(current: seq<CaseResult>, previous: seq<CaseResult>) returns (moved: map<nat, Movement>)
    ensures forall id :: id in moved <==> LastOutcome(current, id).Some?
    ensures forall id :: id in moved ==>
      && (moved[id] == NEW <==> LastOutcome(previous, id).None?)
      && (moved[id] == REGRESSION <==>
            LastOutcome(previous, id) == Some(PASS) && LastOutcome(current, id) != Some(PASS))
      && (moved[id] == IMPROVED <==>
            LastOutcome(previous, id).Some? && LastOutcome(previous, id) != Some(PASS)
            && LastOutcome(current, id) == Some(PASS))
      && (moved[id] == UNCHANGED_PASS <==>
            LastOutcome(previous, id) == Some(PASS) && LastOutcome(current, id) == Some(PASS))
  {
    var before := LastOutcomes(previous);
    moved := map[];
    for i := 0 to |current|
      invariant forall id :: id in moved <==> LastOutcome(current[..i], id).Some?
      invariant forall id :: id in moved ==>
        moved[id] == Classify(LastOutcome(previous, id), LastOutcome(current[..i], id) == Some(PASS))
    {
      var id := current[i].caseId;
      var was := if id in before then Some(before[id]) else None;
      moved := moved[id := Classify(was, current[i].outcome == PASS)];
      assert current[..i + 1][..i] == current[..i];
    }
    assert current[..|current|] == current;
  }

  function Classify(was: Option<Outcome>, nowPassed: bool): Movement {
    if was.None? then NEW
    else if was.value == PASS && nowPassed then UNCHANGED_PASS
    else if was.value == PASS then REGRESSION
    else if nowPassed then IMPROVED
    else UNCHANGED_FAIL
  }
}
