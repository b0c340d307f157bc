/**
 * Result bounds: a query's rows are kept from the first on, as long as their JSON stays within a
 * byte budget, and the result says whether anything was left behind.
 */
module ResultBounds {
  import opened Wrappers

  /** The source's error when not even one row fits. */
  datatype TooLarge = TooLarge

  datatype Bounded<T> = Bounded(rows: seq<T>, bytes: int, truncated: bool)

  /** The compact JSON array of some rows, given the bytes each row is written as (a `char` for a byte). */
  function JsonArray<T>(encode: T -> string, rows: seq<T>): string {
    "[" + Joined(encode, rows) + "]"
  }

  function Joined<T>(encode: T -> string, rows: seq<T>): string {
    if rows == [] then ""
    else if |rows| == 1 then encode(rows[0])
    else Joined(encode, rows[..|rows| - 1]) + "," + encode(rows[|rows| - 1])
  }

  lemma {:induction false} JoinedAppend<T>(encode: T -> string, rows: seq<T>, row: T)
    ensures |Joined(encode, rows + [row])| == |Joined(encode, rows)| + |encode(row)| + if rows == [] then 0 else 1
  {
    assert (rows + [row])[..|rows|] == rows;
  }

  /** A longer prefix never has a shorter array. */
  lemma {:induction false} LongerArrayIsLonger<T>(encode: T -> string, rows: seq<T>, i: nat, j: nat)
    requires i <= j <= |rows|
    ensures |JsonArray(encode, rows[..i])| <= |JsonArray(encode, rows[..j])|
    decreases j
  {
    if i < j {
      LongerArrayIsLonger(encode, rows, i, j - 1);
      JoinedAppend(encode, rows[..j - 1], rows[j - 1]);
      assert rows[..j] == rows[..j - 1] + [rows[j - 1]];
    }
  }

  predicate Fits<T>(encode: T -> string, rows: seq<T>, budget: int)
    ensures Fits(encode, rows, budget) <==> |JsonArray(encode, rows)| <= budget
  {
    |JsonArray(encode, rows)| <= budget
  }

  /** How many rows fit. */
  function LongestFit<T>(encode: T -> string, rows: seq<T>, budget: int): (n: nat)
    ensures n <= |rows|
  {
    if rows == [] || Fits(encode, rows, budget) then |rows| else LongestFit(encode, rows[..|rows| - 1], budget)
  }

  lemma {:induction false} LongestFitExactly<T>(encode: T -> string, rows: seq<T>, budget: int, n: nat)
    requires n <= |rows| && (n > 0 ==> Fits(encode, rows[..n], budget))
    requires forall k :: n < k <= |rows| ==> !Fits(encode, rows[..k], budget)
    ensures LongestFit(encode, rows, budget) == n
  {
    hide Fits;
    assert rows[..|rows|] == rows;
    if n < |rows| {
      var init := rows[..|rows| - 1];
      assert forall k :: 0 <= k <= |init| ==> init[..k] == rows[..k];
      LongestFitExactly(encode, init, budget, n);
    }
  }

  /** The longest prefix that fits, unless there are rows and not one fits. */
  function Bounding<T>(encode: T -> string, records: seq<T>, budget: int): Result<Bounded<T>, TooLarge> {
    var n := LongestFit(encode, records, budget);
    if records != [] && n == 0 then Err(TooLarge)
    else Ok(Bounded(records[..n], |JsonArray(encode, records[..n])|, n < |records|))
  }

  /**
   * The rows kept are the longest prefix whose array is within the budget, the byte count is that
   * array's length, and the first row alone being too long is the one error. With no rows at all
   * the two brackets are returned whatever the budget.
   */
  method BoundedRows<T(==)>(encode: T -> string, records: seq<T>, budget: int)
    returns (r: Result<Bounded<T>, TooLarge>)
    ensures r == Bounding(encode, records, budget)
    ensures r.Err? <==> records != [] && !Fits(encode, records[..1], budget)
    ensures r.Ok? ==>
      && r.value.rows <= records
      && r.value.bytes == |JsonArray(encode, r.value.rows)|
      && (r.value.truncated <==> r.value.rows != records)
      && (records != [] ==> Fits(encode, r.value.rows, budget))
      && forall n :: |r.value.rows| < n <= |records| ==> !Fits(encode, records[..n], budget)
  {
    hide Joined, LongestFit;
    var rows: seq<T> := [];
    var bytes := 2;
    JoinedNothing(encode);
    for i := 0 to |records|
      invariant rows == records[..i]
      invariant bytes == |JsonArray(encode, rows)|
      invariant i > 0 ==> bytes <= budget
    {
      var rowBytes := |encode(records[i])|;
      var separator := if rows != [] then 1 else 0;
      JoinedAppend(encode, rows, records[i]);
      assert records[..i + 1] == rows + [records[i]];
      if bytes + rowBytes + separator > budget {
        forall n | i < n <= |records| ensures !Fits(encode, records[..n], budget) {
          LongerArrayIsLonger(encode, records, i + 1, n);
        }
        LongestFitExactly(encode, records, budget, i);
        if rows == [] {
          return Err(TooLarge);
        }
        LongerArrayIsLonger(encode, records, 1, i);
        return Ok(Bounded(rows, bytes, true));
      }
      rows := rows + [records[i]];
      bytes := bytes + rowBytes + separator;
    }
    if records != [] {
      LongerArrayIsLonger(encode, records, 1, |records|);
    }
    assert records[..|records|] == records;
    LongestFitExactly(encode, records, budget, |records|);
    return Ok(Bounded(rows, bytes, false));
  }

  lemma {:induction false} JoinedNothing<T>(encode: T -> string)
    ensures Joined(encode, []) == ""
  {
  }

  // ---------------------------------------------------------------------------------------------
  // Executing a statement

  /** A statement as the database sees it: the rows it selects, and the LIMIT it was written with. */
  datatype Statement<T> = Statement(selected: seq<T>, limit: Option<nat>)

  function Take<T>(rows: seq<T>, n: nat): seq<T> {
    if |rows| <= n then rows else rows[..n]
  }

  /** What the statement asks for. */
  function Whole<T>(s: Statement<T>): seq<T> {
    if s.limit.Some? then Take(s.selected, s.limit.value) else s.selected
  }

  /** Validation gives a statement without a LIMIT the maximum, and lowers one that is above it. */
  function Clamped<T>(s: Statement<T>, maxRows: nat): Statement<T> {
    if s.limit.Some? && s.limit.value <= maxRows then s else s.(limit := Some(maxRows))
  }

  /** A clamped statement asks for the first rows of what was asked for, and never for more than the maximum. */
  lemma {:induction false} ClampedAsksForPrefix<T>(s: Statement<T>, maxRows: nat)
    ensures Whole(Clamped(s, maxRows)) == Take(Whole(s), maxRows)
  {
  }

  /** The bounded rows of the clamped statement. */
  function Executed<T>(encode: T -> string, statement: Statement<T>, maxRows: nat, budget: int):
    Result<Bounded<T>, TooLarge>
  {
    var records := Take(Whole(Clamped(statement, maxRows)), maxRows + 1);
    var r := Bounding(encode, Take(records, maxRows), budget);
    if r.Ok? then Ok(r.value.(truncated := |records| > maxRows || r.value.truncated)) else r
  }

  /**
   * Executing. One row more than the maximum is fetched to see whether the result was cut, but the
   * statement was clamped before, so only the byte budget is ever noticed. A cut at the maximum
   * number of rows goes unreported, exactly when there are more rows and the first ones fit.
   */
  method Execute<T(==)>(encode: T -> string, statement: Statement<T>, maxRows: nat, budget: int)
    returns (r: Result<Bounded<T>, TooLarge>)
    ensures r == Executed(encode, statement, maxRows, budget)
    ensures r.Err? <==> maxRows > 0 && Whole(statement) != [] && !Fits(encode, Whole(statement)[..1], budget)
    ensures r.Ok? ==>
      var whole, given := Whole(statement), r.value.rows;
      && given <= whole && |given| <= maxRows
      && r.value.bytes == |JsonArray(encode, given)|
      && (whole != [] && maxRows > 0 ==> Fits(encode, given, budget))
      && (forall n :: |given| < n <= |whole| && n <= maxRows ==> !Fits(encode, whole[..n], budget))
      && (r.value.truncated <==> given != Take(whole, maxRows))
      && (!r.value.truncated && given != whole <==>
            |whole| > maxRows && (maxRows == 0 || Fits(encode, whole[..maxRows], budget)))
  {
    hide Fits, JsonArray, Bounding;
    ghost var whole := Whole(statement);
    ClampedAsksForPrefix(statement, maxRows);
    var records := Take(Whole(Clamped(statement, maxRows)), maxRows + 1);
    assert records == Take(whole, maxRows);
    var kept := Take(records, maxRows);
    assert kept == records;
    assert forall n :: 0 <= n <= |kept| ==> kept[..n] == whole[..n];
    r := BoundedRows(encode, kept, budget);
    if r.Ok? {
      r := Ok(r.value.(truncated := |records| > maxRows || r.value.truncated));
      assert kept[..|kept|] == kept;
    }
  }

  /** The smallest unreported cut: two rows, a maximum of one, and a budget that holds the first. */
  lemma {:induction false} CutGoesUnreported()
    ensures var encode: string -> string := row => row;
      var statement := Statement(["1", "2"], None);
      var r := Executed(encode, statement, 1, 1024);
      r.Ok? && !r.value.truncated && r.value.rows != Whole(statement)
  {
    var encode: string -> string := row => row;
    var statement := Statement(["1", "2"], None);
    assert Take(Whole(Clamped(statement, 1)), 2) == ["1"];
    assert ["1"][..1] == ["1"];
    assert JsonArray(encode, ["1"]) == "[1]";
    LongestFitExactly(encode, ["1"], 1024, 1);
  }
}
