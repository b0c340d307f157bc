/**
 * Composite governed execution: one result slice per metric, each already aggregated, joined on the
 * dimension key only.
 */
module Composition {
  import opened Wrappers
  import opened Sequences

  datatype Value = Null | Num(number: real) | Text(text: string)

  type Row = map<string, Value>
  type Key = seq<Value>

  datatype Slice = Slice(metricKey: string, dimensions: seq<string>, rows: seq<Row>)

  datatype Plan = Plan(dimensions: seq<string>, metricKeys: seq<string>)

  datatype CompositionError =
    | WrongGrain(metricKey: string)
    | NotAggregated(metricKey: string)
    | MissingMetrics(missing: set<string>)
    | NoMeasureColumn(metricKey: string)

  function Get(row: Row, column: string): Value {
    if column in row then row[column] else Null
  }

  function KeyFor(dimensions: seq<string>, row: Row): (key: Key)
    ensures |key| == |dimensions|
    ensures forall i :: 0 <= i < |dimensions| ==> key[i] == Get(row, dimensions[i])
  {
    seq(|dimensions|, i requires 0 <= i < |dimensions| => Get(row, dimensions[i]))
  }

  function KeysOf(slice: Slice): (keys: seq<Key>)
    ensures |keys| == |slice.rows|
    ensures forall i :: 0 <= i < |keys| ==> keys[i] == KeyFor(slice.dimensions, slice.rows[i])
  {
    seq(|slice.rows|, i requires 0 <= i < |slice.rows| => KeyFor(slice.dimensions, slice.rows[i]))
  }

  function OnlyElement(s: set<string>): (x: string)
    requires |s| == 1
    ensures s == {x}
  {
    SingleElement(s);
    var x :| x in s;
    x
  }

  lemma SingleElement(s: set<string>)
    requires |s| == 1
    ensures exists x :: s == {x}
  {
    var x :| x in s;
    assert |s - {x}| == 0;
    assert s == {x};
  }

  /** The column a governed row's measure is read from: its metric's, else "value", else its only other one. */
  function MeasureColumn(row: Row, metricKey: string): (column: Option<string>)
    ensures column.Some? ==> column.value in row
  {
    if metricKey in row then Some(metricKey)
    else
      var measures := row.Keys - {"value", metricKey};
      if "value" in row then Some("value")
      else if |measures| == 1 then Some(OnlyElement(measures))
      else None
  }

  function MeasureOf(row: Row, metricKey: string): Option<Value> {
    var column := MeasureColumn(row, metricKey);
    if column.None? then None else Some(row[column.value])
  }

  // ---------------------------------------------------------------------------------------------
  // What the join is

  /** The first slice that is not at the requested grain, if any. */
  ghost function SliceError(expected: seq<string>, slices: seq<Slice>): Option<CompositionError> {
    if slices == [] then None
    else if slices[0].dimensions != expected then Some(WrongGrain(slices[0].metricKey))
    else if !NoDuplicates(KeysOf(slices[0])) then Some(NotAggregated(slices[0].metricKey))
    else SliceError(expected, slices[1..])
  }

  function ByMetric(slices: seq<Slice>): map<string, Slice> {
    if slices == [] then map[]
    else
      var last := slices[|slices| - 1];
      ByMetric(slices[..|slices| - 1])[last.metricKey := last]
  }

  /** The keys of the planned metrics, one metric after the other. */
  function KeysInOrder(metricKeys: seq<string>, slices: map<string, Slice>): seq<Key>
    requires forall m :: m in metricKeys ==> m in slices
  {
    if metricKeys == [] then []
    else KeysInOrder(metricKeys[..|metricKeys| - 1], slices) + KeysOf(slices[metricKeys[|metricKeys| - 1]])
  }

  /** The row an index built in row order holds for a key. */
  function RowAt(dimensions: seq<string>, rows: seq<Row>, key: Key): Option<Row> {
    if rows == [] then None
    else
      var last := rows[|rows| - 1];
      if KeyFor(dimensions, last) == key then Some(last) else RowAt(dimensions, rows[..|rows| - 1], key)
  }

  /** A metric's value for a key: null where the metric has no such group. */
  function Cell(slice: Slice, metricKey: string, key: Key): Option<Value> {
    var row := RowAt(slice.dimensions, slice.rows, key);
    if row.None? then Some(Null) else MeasureOf(row.value, metricKey)
  }

  function DimensionCells(dimensions: seq<string>, key: Key): Row
    requires |key| == |dimensions|
  {
    if dimensions == [] then map[]
    else
      var n := |dimensions| - 1;
      DimensionCells(dimensions[..n], key[..n])[dimensions[n] := key[n]]
  }

  function WithMeasures(row: Row, metricKeys: seq<string>, slices: map<string, Slice>, key: Key):
    Result<Row, CompositionError>
    requires forall m :: m in metricKeys ==> m in slices
  {
    if metricKeys == [] then Ok(row)
    else
      var n := |metricKeys| - 1;
      var before := WithMeasures(row, metricKeys[..n], slices, key);
      var m := metricKeys[n];
      if before.Err? then before
      else
        var cell := Cell(slices[m], m, key);
        if cell.None? then Err(NoMeasureColumn(m)) else Ok(before.value[m := cell.value])
  }

  function RowsFor(plan: Plan, slices: map<string, Slice>, keys: seq<Key>): Result<seq<Row>, CompositionError>
    requires forall m :: m in plan.metricKeys ==> m in slices
    requires forall k :: k in keys ==> |k| == |plan.dimensions|
  {
    if keys == [] then Ok([])
    else
      var n := |keys| - 1;
      var before := RowsFor(plan, slices, keys[..n]);
      if before.Err? then before
      else
        var row := WithMeasures(DimensionCells(plan.dimensions, keys[n]), plan.metricKeys, slices, keys[n]);
        if row.Err? then Err(row.error) else Ok(before.value + [row.value])
  }

  ghost predicate AtGrain(expected: seq<string>, slices: seq<Slice>) {
    forall i :: 0 <= i < |slices| ==> slices[i].dimensions == expected && NoDuplicates(KeysOf(slices[i]))
  }

  lemma {:induction false} SliceErrorIsExact(expected: seq<string>, slices: seq<Slice>)
    ensures SliceError(expected, slices).None? <==> AtGrain(expected, slices)
  {
    if slices != [] {
      SliceErrorIsExact(expected, slices[1..]);
      assert AtGrain(expected, slices) ==> AtGrain(expected, slices[1..]) by {
        assert forall i :: 0 <= i < |slices[1..]| ==> slices[1..][i] == slices[i + 1];
      }
      if SliceError(expected, slices).None? {
        forall i | 0 <= i < |slices|
          ensures slices[i].dimensions == expected && NoDuplicates(KeysOf(slices[i]))
        {
          assert i > 0 ==> slices[i] == slices[1..][i - 1];
        }
      } else {
        assert slices[0].dimensions == expected && NoDuplicates(KeysOf(slices[0])) ==> !AtGrain(expected, slices[1..]);
      }
    }
  }

  lemma {:induction false} ByMetricHolds(slices: seq<Slice>, m: string)
    ensures m in ByMetric(slices) <==> exists i :: 0 <= i < |slices| && slices[i].metricKey == m
    ensures m in ByMetric(slices) ==> ByMetric(slices)[m] in slices && ByMetric(slices)[m].metricKey == m
  {
    if slices != [] {
      var init := slices[..|slices| - 1];
      ByMetricHolds(init, m);
      assert slices == init + [slices[|slices| - 1]];
    }
  }

  lemma {:induction false} KeysInOrderLengths(metricKeys: seq<string>, slices: map<string, Slice>, n: nat)
    requires forall m :: m in metricKeys ==> m in slices && |slices[m].dimensions| == n
    ensures forall k :: k in KeysInOrder(metricKeys, slices) ==> |k| == n
  {
    if metricKeys != [] {
      KeysInOrderLengths(metricKeys[..|metricKeys| - 1], slices, n);
    }
  }

  /** The composed result, or the first refusal. */
  ghost function Composed(plan: Plan, slices: seq<Slice>): Result<seq<Row>, CompositionError> {
    if slices == [] then Ok([])
    else
      var bad := SliceError(plan.dimensions, slices);
      if bad.Some? then Err(bad.value)
      else
        var byMetric := ByMetric(slices);
        var missing := (set m | m in plan.metricKeys) - byMetric.Keys;
        if missing != {} then Err(MissingMetrics(missing))
        else
          PlannedSlices(plan, slices);
          RowsFor(plan, byMetric, Distinct(KeysInOrder(plan.metricKeys, byMetric)))
  }

  lemma PlannedSlices(plan: Plan, slices: seq<Slice>)
    requires SliceError(plan.dimensions, slices).None?
    requires (set m | m in plan.metricKeys) - ByMetric(slices).Keys == {}
    ensures forall m :: m in plan.metricKeys ==>
      && m in ByMetric(slices)
      && ByMetric(slices)[m].dimensions == plan.dimensions
      && NoDuplicates(KeysOf(ByMetric(slices)[m]))
    ensures var keys := KeysInOrder(plan.metricKeys, ByMetric(slices));
      forall k :: k in Distinct(keys) ==> |k| == |plan.dimensions|
  {
    SliceErrorIsExact(plan.dimensions, slices);
    forall m | m in plan.metricKeys
      ensures m in ByMetric(slices) && ByMetric(slices)[m].dimensions == plan.dimensions
      ensures NoDuplicates(KeysOf(ByMetric(slices)[m]))
    {
      assert m !in (set k | k in plan.metricKeys) - ByMetric(slices).Keys;
      ByMetricHolds(slices, m);
    }
    KeysInOrderLengths(plan.metricKeys, ByMetric(slices), |plan.dimensions|);
    DistinctElements(KeysInOrder(plan.metricKeys, ByMetric(slices)));
  }

  // ---------------------------------------------------------------------------------------------
  // The join as it is computed

  ghost predicate Holds(seen: set<Key>, keys: seq<Key>) {
    forall k :: k in seen <==> k in keys
  }

  /** The fan-out guard: exact, for any slice. */
  method AssertUniqueGrain(slice: Slice) returns (ok: bool)
    ensures ok <==> NoDuplicates(KeysOf(slice))
  {
    var seen: set<Key> := {};
    var keys := KeysOf(slice);
    for i := 0 to |slice.rows|
      invariant Holds(seen, keys[..i])
      invariant NoDuplicates(keys[..i])
    {
      var key := KeyFor(slice.dimensions, slice.rows[i]);
      if key in seen {
        return false;
      }
      seen := seen + {key};
      assert keys[..i + 1] == keys[..i] + [key];
    }
    assert keys[..|slice.rows|] == keys;
    return true;
  }

  /** One row of the union: its key is added unless an earlier row had it. */
  method AddKey(ghost done: seq<Key>, key: Key, ordered: seq<Key>, known: set<Key>)
    returns (orderedKeys: seq<Key>, seen: set<Key>)
    requires ordered == Distinct(done) && Holds(known, ordered)
    ensures orderedKeys == Distinct(done + [key]) && Holds(seen, orderedKeys)
  {
    orderedKeys, seen := ordered, known;
    DistinctAppend(done, key);
    hide Distinct;
    if key !in seen {
      seen := seen + {key};
      orderedKeys := orderedKeys + [key];
    }
  }

  method AddKeys(slice: Slice, ghost done: seq<Key>, ordered: seq<Key>, known: set<Key>)
    returns (orderedKeys: seq<Key>, seen: set<Key>)
    requires ordered == Distinct(done) && Holds(known, ordered)
    ensures orderedKeys == Distinct(done + KeysOf(slice)) && Holds(seen, orderedKeys)
  {
    hide Distinct, Holds;
    orderedKeys, seen := ordered, known;
    ghost var keys := KeysOf(slice);
    assert done + keys[..0] == done;
    for j := 0 to |slice.rows|
      invariant orderedKeys == Distinct(done + keys[..j]) && Holds(seen, orderedKeys)
    {
      var key := KeyFor(slice.dimensions, slice.rows[j]);
      assert done + keys[..j + 1] == done + keys[..j] + [key];
      orderedKeys, seen := AddKey(done + keys[..j], key, orderedKeys, seen);
    }
    assert keys[..|slice.rows|] == keys;
  }

  method OrderedKeys(metricKeys: seq<string>, byMetric: map<string, Slice>) returns (orderedKeys: seq<Key>)
    requires forall m :: m in metricKeys ==> m in byMetric
    ensures orderedKeys == Distinct(KeysInOrder(metricKeys, byMetric))
  {
    hide Distinct, Holds, KeysInOrder;
    orderedKeys := [];
    var seen: set<Key> := {};
    NothingYet(byMetric);
    for i := 0 to |metricKeys|
      invariant orderedKeys == Distinct(KeysInOrder(metricKeys[..i], byMetric))
      invariant Holds(seen, orderedKeys)
    {
      var slice := byMetric[metricKeys[i]];
      NextInOrder(metricKeys, byMetric, i);
      orderedKeys, seen := AddKeys(slice, KeysInOrder(metricKeys[..i], byMetric), orderedKeys, seen);
    }
    assert metricKeys[..|metricKeys|] == metricKeys;
  }

  lemma {:induction false} NothingYet(byMetric: map<string, Slice>)
    ensures Distinct(KeysInOrder([], byMetric)) == [] && Holds({}, [])
  {
  }

  lemma {:induction false} NextInOrder(metricKeys: seq<string>, byMetric: map<string, Slice>, i: nat)
    requires i < |metricKeys| && forall m :: m in metricKeys ==> m in byMetric
    ensures KeysInOrder(metricKeys[..i + 1], byMetric)
         == KeysInOrder(metricKeys[..i], byMetric) + KeysOf(byMetric[metricKeys[i]])
  {
    assert metricKeys[..i + 1][..i] == metricKeys[..i];
    hide KeysOf;
  }

  method Index(slice: Slice) returns (index: map<Key, Row>)
    ensures forall key :: key in index <==> RowAt(slice.dimensions, slice.rows, key).Some?
    ensures forall key :: key in index ==> RowAt(slice.dimensions, slice.rows, key) == Some(index[key])
  {
    index := map[];
    for i := 0 to |slice.rows|
      invariant forall key :: key in index <==> RowAt(slice.dimensions, slice.rows[..i], key).Some?
      invariant forall key :: key in index ==> RowAt(slice.dimensions, slice.rows[..i], key) == Some(index[key])
    {
      index := index[KeyFor(slice.dimensions, slice.rows[i]) := slice.rows[i]];
      assert slice.rows[..i + 1][..i] == slice.rows[..i];
    }
    assert slice.rows[..|slice.rows|] == slice.rows;
  }

  ghost predicate Indexes(index: map<Key, Row>, slice: Slice) {
    forall key ::
      RowAt(slice.dimensions, slice.rows, key) == if key in index then Some(index[key]) else None
  }

  method DimensionRow(dimensions: seq<string>, key: Key) returns (row: Row)
    requires |key| == |dimensions|
    ensures row == DimensionCells(dimensions, key)
  {
    row := map[];
    for i := 0 to |dimensions|
      invariant row == DimensionCells(dimensions[..i], key[..i])
    {
      row := row[dimensions[i] := key[i]];
      assert dimensions[..i + 1][..i] == dimensions[..i] && key[..i + 1][..i] == key[..i];
    }
    assert dimensions[..|dimensions|] == dimensions && key[..|key|] == key;
  }

  method ComposeRow(plan: Plan, byMetric: map<string, Slice>, indexed: map<string, map<Key, Row>>, key: Key)
    returns (r: Result<Row, CompositionError>)
    requires |key| == |plan.dimensions|
    requires forall m :: m in plan.metricKeys ==> m in byMetric && m in indexed && Indexes(indexed[m], byMetric[m])
    ensures r == WithMeasures(DimensionCells(plan.dimensions, key), plan.metricKeys, byMetric, key)
  {
    hide DimensionCells, Indexes, Cell, MeasureOf, WithMeasures;
    var row := DimensionRow(plan.dimensions, key);
    ghost var start := row;
    NoMeasures(start, byMetric, key);
    for i := 0 to |plan.metricKeys|
      invariant WithMeasures(start, plan.metricKeys[..i], byMetric, key) == Ok(row)
    {
      var m := plan.metricKeys[i];
      IndexedCell(byMetric[m], indexed[m], m, key);
      var cell := if key in indexed[m] then MeasureOf(indexed[m][key], m) else Some(Null);
      NextMeasure(start, plan.metricKeys, byMetric, key, i);
      if cell.None? {
        ErrorIsFinal(start, plan.metricKeys, byMetric, key, i + 1);
        return Err(NoMeasureColumn(m));
      }
      row := row[m := cell.value];
    }
    assert plan.metricKeys[..|plan.metricKeys|] == plan.metricKeys;
    return Ok(row);
  }

  lemma {:induction false} NoMeasures(row: Row, slices: map<string, Slice>, key: Key)
    ensures WithMeasures(row, [], slices, key) == Ok(row)
  {
  }

  lemma {:induction false} IndexedCell(slice: Slice, index: map<Key, Row>, metricKey: string, key: Key)
    requires Indexes(index, slice)
    ensures Cell(slice, metricKey, key) == if key in index then MeasureOf(index[key], metricKey) else Some(Null)
  {
    hide MeasureOf, RowAt;
  }

  lemma {:induction false} NextMeasure(row: Row, metricKeys: seq<string>, slices: map<string, Slice>, key: Key, i: nat)
    requires i < |metricKeys| && forall m :: m in metricKeys ==> m in slices
    requires WithMeasures(row, metricKeys[..i], slices, key).Ok?
    ensures var m := metricKeys[i];
      WithMeasures(row, metricKeys[..i + 1], slices, key) ==
      if Cell(slices[m], m, key).None? then Err(NoMeasureColumn(m))
      else Ok(WithMeasures(row, metricKeys[..i], slices, key).value[m := Cell(slices[m], m, key).value])
  {
    assert metricKeys[..i + 1][..i] == metricKeys[..i];
    hide Cell;
  }

  lemma {:induction false} ErrorIsFinal(row: Row, metricKeys: seq<string>, slices: map<string, Slice>, key: Key, n: nat)
    requires n <= |metricKeys| && forall m :: m in metricKeys ==> m in slices
    requires WithMeasures(row, metricKeys[..n], slices, key).Err?
    ensures WithMeasures(row, metricKeys, slices, key) == WithMeasures(row, metricKeys[..n], slices, key)
    decreases |metricKeys|
  {
    if n == |metricKeys| {
      assert metricKeys[..n] == metricKeys;
    } else {
      var init := metricKeys[..|metricKeys| - 1];
      assert init[..n] == metricKeys[..n];
      ErrorIsFinal(row, init, slices, key, n);
    }
  }

  lemma {:induction false} RowErrorIsFinal(plan: Plan, slices: map<string, Slice>, keys: seq<Key>, n: nat)
    requires n <= |keys| && forall m :: m in plan.metricKeys ==> m in slices
    requires forall k :: k in keys ==> |k| == |plan.dimensions|
    requires RowsFor(plan, slices, keys[..n]).Err?
    ensures RowsFor(plan, slices, keys) == RowsFor(plan, slices, keys[..n])
    decreases |keys|
  {
    if n == |keys| {
      assert keys[..n] == keys;
    } else {
      var init := keys[..|keys| - 1];
      assert init[..n] == keys[..n];
      RowErrorIsFinal(plan, slices, init, n);
    }
  }

  method IndexAll(metricKeys: seq<string>, byMetric: map<string, Slice>)
    returns (indexed: map<string, map<Key, Row>>)
    requires forall m :: m in metricKeys ==> m in byMetric
    ensures forall m :: m in metricKeys ==> m in indexed && Indexes(indexed[m], byMetric[m])
  {
    indexed := map[];
    for i := 0 to |metricKeys|
      invariant forall j :: 0 <= j < i ==> metricKeys[j] in indexed
      invariant forall m :: m in indexed ==> m in byMetric && Indexes(indexed[m], byMetric[m])
    {
      var index := Index(byMetric[metricKeys[i]]);
      assert Indexes(index, byMetric[metricKeys[i]]);
      indexed := indexed[metricKeys[i] := index];
    }
  }

  method ComposeRows(plan: Plan, byMetric: map<string, Slice>, indexed: map<string, map<Key, Row>>, keys: seq<Key>)
    returns (r: Result<seq<Row>, CompositionError>)
    requires forall m :: m in plan.metricKeys ==> m in byMetric && m in indexed && Indexes(indexed[m], byMetric[m])
    requires forall k :: k in keys ==> |k| == |plan.dimensions|
    ensures r == RowsFor(plan, byMetric, keys)
  {
    hide WithMeasures, DimensionCells, Indexes, RowsFor;
    var composed: seq<Row> := [];
    NoRows(plan, byMetric);
    for i := 0 to |keys|
      invariant RowsFor(plan, byMetric, keys[..i]) == Ok(composed)
    {
      var row := ComposeRow(plan, byMetric, indexed, keys[i]);
      NextRow(plan, byMetric, keys, i);
      if row.Err? {
        RowErrorIsFinal(plan, byMetric, keys, i + 1);
        return Err(row.error);
      }
      composed := composed + [row.value];
    }
    assert keys[..|keys|] == keys;
    return Ok(composed);
  }

  lemma {:induction false} NoRows(plan: Plan, slices: map<string, Slice>)
    requires forall m :: m in plan.metricKeys ==> m in slices
    ensures RowsFor(plan, slices, []) == Ok([])
  {
  }

  lemma {:induction false} NextRow(plan: Plan, slices: map<string, Slice>, keys: seq<Key>, i: nat)
    requires i < |keys| && forall m :: m in plan.metricKeys ==> m in slices
    requires forall k :: k in keys ==> |k| == |plan.dimensions|
    requires RowsFor(plan, slices, keys[..i]).Ok?
    ensures var row := WithMeasures(DimensionCells(plan.dimensions, keys[i]), plan.metricKeys, slices, keys[i]);
      RowsFor(plan, slices, keys[..i + 1]) ==
      if row.Err? then Err(row.error) else Ok(RowsFor(plan, slices, keys[..i]).value + [row.value])
  {
    assert keys[..i + 1][..i] == keys[..i];
    hide WithMeasures, DimensionCells;
  }

  method CheckSlices(expected: seq<string>, slices: seq<Slice>)
    returns (bad: Option<CompositionError>, byMetric: map<string, Slice>)
    ensures bad == SliceError(expected, slices)
    ensures bad.None? ==> byMetric == ByMetric(slices)
  {
    byMetric := map[];
    for i := 0 to |slices|
      invariant byMetric == ByMetric(slices[..i])
      invariant SliceError(expected, slices) == SliceError(expected, slices[i..])
    {
      if slices[i].dimensions != expected {
        return Some(WrongGrain(slices[i].metricKey)), byMetric;
      }
      var unique := AssertUniqueGrain(slices[i]);
      if !unique {
        return Some(NotAggregated(slices[i].metricKey)), byMetric;
      }
      byMetric := byMetric[slices[i].metricKey := slices[i]];
      assert slices[..i + 1][..i] == slices[..i];
    }
    assert slices[..|slices|] == slices;
    return None, byMetric;
  }

  method Compose(plan: Plan, slices: seq<Slice>) returns (r: Result<seq<Row>, CompositionError>)
    ensures r == Composed(plan, slices)
  {
    if slices == [] {
      return Ok([]);
    }
    var bad, byMetric := CheckSlices(plan.dimensions, slices);
    if bad.Some? {
      return Err(bad.value);
    }
    var missing := (set m | m in plan.metricKeys) - byMetric.Keys;
    if missing != {} {
      return Err(MissingMetrics(missing));
    }
    PlannedSlices(plan, slices);
    hide SliceError, ByMetric, KeysInOrder, Distinct, RowsFor, NoDuplicates;
    var orderedKeys := OrderedKeys(plan.metricKeys, byMetric);
    var indexed := IndexAll(plan.metricKeys, byMetric);
    r := ComposeRows(plan, byMetric, indexed, orderedKeys);
  }

  // ---------------------------------------------------------------------------------------------
  // What an accepted composition is

  lemma {:induction false} KeysInOrderHolds(metricKeys: seq<string>, slices: map<string, Slice>, key: Key)
    requires forall m :: m in metricKeys ==> m in slices
    ensures key in KeysInOrder(metricKeys, slices) <==> exists m :: m in metricKeys && key in KeysOf(slices[m])
  {
    if metricKeys != [] {
      var init, last := metricKeys[..|metricKeys| - 1], metricKeys[|metricKeys| - 1];
      KeysInOrderHolds(init, slices, key);
      assert metricKeys == init + [last];
      if key in KeysOf(slices[last]) {
        assert last in metricKeys;
      }
    }
  }

  lemma {:induction false} RowsForEach(plan: Plan, slices: map<string, Slice>, keys: seq<Key>, i: nat)
    requires forall m :: m in plan.metricKeys ==> m in slices
    requires forall k :: k in keys ==> |k| == |plan.dimensions|
    requires RowsFor(plan, slices, keys).Ok?
    ensures |RowsFor(plan, slices, keys).value| == |keys|
    ensures i < |keys| ==>
      WithMeasures(DimensionCells(plan.dimensions, keys[i]), plan.metricKeys, slices, keys[i])
      == Ok(RowsFor(plan, slices, keys).value[i])
  {
    if keys != [] {
      RowsForEach(plan, slices, keys[..|keys| - 1], i);
    }
  }

  lemma {:induction false} LastMeasure(row: Row, metricKeys: seq<string>, slices: map<string, Slice>, key: Key)
    requires metricKeys != [] && forall m :: m in metricKeys ==> m in slices
    requires WithMeasures(row, metricKeys, slices, key).Ok?
    ensures var n := |metricKeys| - 1;
      var before, cell := WithMeasures(row, metricKeys[..n], slices, key), Cell(slices[metricKeys[n]], metricKeys[n], key);
      && before.Ok? && cell.Some?
      && WithMeasures(row, metricKeys, slices, key).value == before.value[metricKeys[n] := cell.value]
  {
    hide Cell;
  }

  lemma {:induction false} MeasureSet(row: Row, metricKeys: seq<string>, slices: map<string, Slice>, key: Key, column: string)
    requires forall m :: m in metricKeys ==> m in slices
    requires WithMeasures(row, metricKeys, slices, key).Ok?
    ensures var r := WithMeasures(row, metricKeys, slices, key).value;
      if column in metricKeys then column in r && Cell(slices[column], column, key) == Some(r[column])
      else (column in r <==> column in row) && (column in r ==> r[column] == row[column])
  {
    hide Cell, WithMeasures;
    if metricKeys == [] {
      NoMeasures(row, slices, key);
    } else {
      var n := |metricKeys| - 1;
      LastMeasure(row, metricKeys, slices, key);
      if column != metricKeys[n] {
        assert column in metricKeys <==> column in metricKeys[..n];
        MeasureSet(row, metricKeys[..n], slices, key, column);
      }
    }
  }

  lemma {:induction false} MeasuresSet(row: Row, metricKeys: seq<string>, slices: map<string, Slice>, key: Key)
    requires forall m :: m in metricKeys ==> m in slices
    requires WithMeasures(row, metricKeys, slices, key).Ok?
    ensures var r := WithMeasures(row, metricKeys, slices, key).value;
      && (forall m :: m in metricKeys ==> m in r && Cell(slices[m], m, key) == Some(r[m]))
      && (forall c :: c !in metricKeys ==> (c in r <==> c in row) && (c in r ==> r[c] == row[c]))
  {
    hide Cell, WithMeasures;
    forall column: string {
      MeasureSet(row, metricKeys, slices, key, column);
    }
  }

  lemma {:induction false} DimensionsSet(dimensions: seq<string>, source: Row)
    ensures var cells := DimensionCells(dimensions, KeyFor(dimensions, source));
      && (forall c :: c in cells <==> c in dimensions)
      && (forall c :: c in dimensions ==> cells[c] == Get(source, c))
  {
    if dimensions != [] {
      var init, last := dimensions[..|dimensions| - 1], dimensions[|dimensions| - 1];
      DimensionsSet(init, source);
      assert dimensions == init + [last];
      assert KeyFor(dimensions, source)[..|init|] == KeyFor(init, source);
    }
  }

  lemma {:induction false} RowAtFinds(dimensions: seq<string>, rows: seq<Row>, key: Key)
    ensures RowAt(dimensions, rows, key).Some? <==> exists i :: 0 <= i < |rows| && KeyFor(dimensions, rows[i]) == key
    ensures RowAt(dimensions, rows, key).Some? ==>
      RowAt(dimensions, rows, key).value in rows && KeyFor(dimensions, RowAt(dimensions, rows, key).value) == key
  {
    if rows != [] {
      RowAtFinds(dimensions, rows[..|rows| - 1], key);
      assert rows == rows[..|rows| - 1] + [rows[|rows| - 1]];
    }
  }

  function Columns(plan: Plan): set<string> {
    (set d | d in plan.dimensions) + (set m | m in plan.metricKeys)
  }

  /** The planned slices and the ordered key tuples behind an accepted composition. */
  ghost predicate JoinOf(plan: Plan, slices: seq<Slice>, byMetric: map<string, Slice>, keys: seq<Key>) {
    && slices != [] && SliceError(plan.dimensions, slices).None?
    && byMetric == ByMetric(slices)
    && (forall m :: m in plan.metricKeys ==> m in byMetric)
    && keys == Distinct(KeysInOrder(plan.metricKeys, byMetric))
  }

  /**
   * The rows of the join: one per distinct dimension tuple of the planned slices and no others, in
   * the order the tuples first appear. No metric has two rows for one tuple.
   */
  lemma JoinKeys(plan: Plan, slices: seq<Slice>, byMetric: map<string, Slice>, keys: seq<Key>)
    requires JoinOf(plan, slices, byMetric, keys)
    ensures NoDuplicates(keys)
    ensures forall key :: key in keys <==> exists m :: m in plan.metricKeys && key in KeysOf(byMetric[m])
    ensures forall key :: key in keys ==> |key| == |plan.dimensions|
    ensures forall i, j :: 0 <= i < j < |keys| ==>
      && keys[i] in KeysInOrder(plan.metricKeys, byMetric) && keys[j] in KeysInOrder(plan.metricKeys, byMetric)
      && FirstIndex(KeysInOrder(plan.metricKeys, byMetric), keys[i])
         < FirstIndex(KeysInOrder(plan.metricKeys, byMetric), keys[j])
    ensures forall m :: m in plan.metricKeys ==>
      byMetric[m].dimensions == plan.dimensions && NoDuplicates(KeysOf(byMetric[m]))
  {
    var all := KeysInOrder(plan.metricKeys, byMetric);
    PlannedSlices(plan, slices);
    DistinctElements(all);
    forall i, j | 0 <= i < j < |keys|
      ensures keys[i] in all && keys[j] in all && FirstIndex(all, keys[i]) < FirstIndex(all, keys[j])
    {
      DistinctInOrder(all, i, j);
    }
    forall key ensures key in keys <==> exists m :: m in plan.metricKeys && key in KeysOf(byMetric[m]) {
      KeysInOrderHolds(plan.metricKeys, byMetric, key);
    }
  }

  /** What one row of the join says about one metric: the metric's own value there, or null. */
  ghost predicate CellIsJoined(slice: Slice, metricKey: string, key: Key, cell: Value) {
    if key in KeysOf(slice) then
      exists i :: 0 <= i < |slice.rows| && KeysOf(slice)[i] == key && MeasureOf(slice.rows[i], metricKey) == Some(cell)
    else cell == Null
  }

  lemma RowAtMember(slice: Slice, key: Key)
    ensures RowAt(slice.dimensions, slice.rows, key).Some? <==> key in KeysOf(slice)
  {
    RowAtFinds(slice.dimensions, slice.rows, key);
    assert forall i :: 0 <= i < |slice.rows| ==> KeysOf(slice)[i] == KeyFor(slice.dimensions, slice.rows[i]);
  }

  lemma CellJoins(slice: Slice, metricKey: string, key: Key)
    requires Cell(slice, metricKey, key).Some?
    ensures CellIsJoined(slice, metricKey, key, Cell(slice, metricKey, key).value)
  {
    RowAtFinds(slice.dimensions, slice.rows, key);
    RowAtMember(slice, key);
    var row := RowAt(slice.dimensions, slice.rows, key);
    if row.Some? {
      var i :| 0 <= i < |slice.rows| && slice.rows[i] == row.value;
      assert KeysOf(slice)[i] == key;
    }
  }

  /** An accepted composition is the full outer join of the planned slices on the dimension tuple. */
  lemma ComposedIsFullOuterJoin(
    plan: Plan, slices: seq<Slice>, byMetric: map<string, Slice>, keys: seq<Key>, rows: seq<Row>)
    requires Composed(plan, slices) == Ok(rows) && JoinOf(plan, slices, byMetric, keys)
    requires forall d :: d in plan.dimensions ==> d !in plan.metricKeys
    ensures |rows| == |keys|
    ensures forall i :: 0 <= i < |rows| ==> KeyFor(plan.dimensions, rows[i]) == keys[i]
    ensures forall i :: 0 <= i < |rows| ==> rows[i].Keys == Columns(plan)
    ensures forall i, m :: 0 <= i < |rows| && m in plan.metricKeys ==>
      m in rows[i] && CellIsJoined(byMetric[m], m, keys[i], rows[i][m])
  {
    PlannedSlices(plan, slices);
    RowsForEach(plan, byMetric, keys, 0);
    forall i | 0 <= i < |rows|
      ensures KeyFor(plan.dimensions, rows[i]) == keys[i]
      ensures rows[i].Keys == Columns(plan)
      ensures forall m :: m in plan.metricKeys ==>
        m in rows[i] && CellIsJoined(byMetric[m], m, keys[i], rows[i][m])
    {
      JoinedRow(plan, slices, byMetric, keys, rows, i);
    }
  }

  lemma JoinedRow(
    plan: Plan, slices: seq<Slice>, byMetric: map<string, Slice>, keys: seq<Key>, rows: seq<Row>, i: nat)
    requires Composed(plan, slices) == Ok(rows) && JoinOf(plan, slices, byMetric, keys)
    requires forall d :: d in plan.dimensions ==> d !in plan.metricKeys
    requires i < |rows| == |keys|
    ensures KeyFor(plan.dimensions, rows[i]) == keys[i]
    ensures rows[i].Keys == Columns(plan)
    ensures forall m :: m in plan.metricKeys ==>
      m in rows[i] && CellIsJoined(byMetric[m], m, keys[i], rows[i][m])
  {
    JoinKeys(plan, slices, byMetric, keys);
    PlannedSlices(plan, slices);
    assert keys[i] in keys;
    var source := KeySource(plan, byMetric, keys[i]);
    RowsForEach(plan, byMetric, keys, i);
    JoinedCells(plan, byMetric, source, keys[i], rows[i]);
  }

  lemma JoinedCells(plan: Plan, byMetric: map<string, Slice>, source: Row, key: Key, row: Row)
    requires key == KeyFor(plan.dimensions, source)
    requires forall m :: m in plan.metricKeys ==> m in byMetric
    requires WithMeasures(DimensionCells(plan.dimensions, key), plan.metricKeys, byMetric, key) == Ok(row)
    requires forall d :: d in plan.dimensions ==> d !in plan.metricKeys
    ensures KeyFor(plan.dimensions, row) == key
    ensures row.Keys == Columns(plan)
    ensures forall m :: m in plan.metricKeys ==> m in row && CellIsJoined(byMetric[m], m, key, row[m])
  {
    DimensionsSet(plan.dimensions, source);
    MeasuresSet(DimensionCells(plan.dimensions, key), plan.metricKeys, byMetric, key);
    hide WithMeasures, DimensionCells, CellIsJoined, Cell;
    assert KeyFor(plan.dimensions, row) == KeyFor(plan.dimensions, source);
    forall m | m in plan.metricKeys
      ensures m in row && CellIsJoined(byMetric[m], m, key, row[m])
    {
      CellJoins(byMetric[m], m, key);
    }
  }

  /** Every tuple of the join is the tuple of some row. */
  lemma KeySource(plan: Plan, byMetric: map<string, Slice>, key: Key) returns (source: Row)
    requires exists m ::
      && m in plan.metricKeys && m in byMetric
      && byMetric[m].dimensions == plan.dimensions && key in KeysOf(byMetric[m])
    ensures KeyFor(plan.dimensions, source) == key
  {
    var m :| m in plan.metricKeys && m in byMetric
      && byMetric[m].dimensions == plan.dimensions && key in KeysOf(byMetric[m]);
    var i :| 0 <= i < |KeysOf(byMetric[m])| && KeysOf(byMetric[m])[i] == key;
    source := byMetric[m].rows[i];
  }

  // ---------------------------------------------------------------------------------------------
  // Nothing is multiplied and nothing is lost

  function CellValue(slice: Slice, metricKey: string, key: Key): Value {
    var cell := Cell(slice, metricKey, key);
    if cell.None? then Null else cell.value
  }

  /** Any per-value weight, such as the number itself or one per non-null value, summed over keys. */
  function Total(keys: seq<Key>, slice: Slice, metricKey: string, weight: Value -> real): real {
    if keys == [] then 0.0
    else
      var n := |keys| - 1;
      Total(keys[..n], slice, metricKey, weight) + weight(CellValue(slice, metricKey, keys[n]))
  }

  function ColumnTotal(rows: seq<Row>, column: string, weight: Value -> real): real {
    if rows == [] then 0.0
    else ColumnTotal(rows[..|rows| - 1], column, weight) + weight(Get(rows[|rows| - 1], column))
  }

  function MeasureTotal(rows: seq<Row>, metricKey: string, weight: Value -> real): real {
    if rows == [] then 0.0
    else
      var n := |rows| - 1;
      var measure := MeasureOf(rows[n], metricKey);
      MeasureTotal(rows[..n], metricKey, weight) + weight(if measure.None? then Null else measure.value)
  }

  lemma {:induction false} TotalRemove(keys: seq<Key>, p: nat, slice: Slice, metricKey: string, weight: Value -> real)
    requires p < |keys|
    ensures Total(keys, slice, metricKey, weight)
         == Total(RemoveAt(keys, p), slice, metricKey, weight) + weight(CellValue(slice, metricKey, keys[p]))
    decreases |keys|
  {
    var n := |keys| - 1;
    if p == n {
      assert RemoveAt(keys, p) == keys[..n];
    } else {
      TotalRemove(keys[..n], p, slice, metricKey, weight);
      var r := RemoveAt(keys, p);
      assert r[..|r| - 1] == RemoveAt(keys[..n], p);
      assert r[|r| - 1] == keys[n];
    }
  }

  lemma {:induction false} TotalOfAbsent(keys: seq<Key>, slice: Slice, metricKey: string, weight: Value -> real)
    requires forall k :: k in keys ==> weight(CellValue(slice, metricKey, k)) == 0.0
    ensures Total(keys, slice, metricKey, weight) == 0.0
  {
    if keys != [] {
      TotalOfAbsent(keys[..|keys| - 1], slice, metricKey, weight);
    }
  }

  /** Extra keys at which the weight is zero do not change a total, and neither does order. */
  lemma {:induction false} TotalAgrees(
    a: seq<Key>, b: seq<Key>, slice: Slice, metricKey: string, weight: Value -> real)
    requires NoDuplicates(a) && NoDuplicates(b)
    requires forall k :: k in b ==> k in a
    requires forall k :: k in a && k !in b ==> weight(CellValue(slice, metricKey, k)) == 0.0
    ensures Total(a, slice, metricKey, weight) == Total(b, slice, metricKey, weight)
    decreases |b|
  {
    if b == [] {
      TotalOfAbsent(a, slice, metricKey, weight);
    } else {
      var n := |b| - 1;
      assert b[n] in a;
      var p :| 0 <= p < |a| && a[p] == b[n];
      var rest := RemoveAt(a, p);
      TotalRemove(a, p, slice, metricKey, weight);
      assert b == b[..n] + [b[n]];
      RemovedElements(a, p);
      TotalAgrees(rest, b[..n], slice, metricKey, weight);
    }
  }

  lemma RemovedElements(a: seq<Key>, p: nat)
    requires p < |a| && NoDuplicates(a)
    ensures NoDuplicates(RemoveAt(a, p))
    ensures forall k :: k in RemoveAt(a, p) <==> k in a && k != a[p]
  {
    forall k ensures k in RemoveAt(a, p) <==> k in a && k != a[p] {
      if k in a && k != a[p] {
        var i :| 0 <= i < |a| && a[i] == k;
        assert RemoveAt(a, p)[if i < p then i else i - 1] == k;
      }
    }
  }

  lemma {:induction false} RowAtItself(dimensions: seq<string>, rows: seq<Row>, i: nat)
    requires i < |rows|
    requires forall a, b :: 0 <= a < b < |rows| ==> KeyFor(dimensions, rows[a]) != KeyFor(dimensions, rows[b])
    ensures RowAt(dimensions, rows, KeyFor(dimensions, rows[i])) == Some(rows[i])
  {
    if i < |rows| - 1 {
      RowAtItself(dimensions, rows[..|rows| - 1], i);
    }
  }

  lemma {:induction false} TotalOfSlice(slice: Slice, metricKey: string, weight: Value -> real, n: nat)
    requires NoDuplicates(KeysOf(slice)) && n <= |slice.rows|
    ensures Total(KeysOf(slice)[..n], slice, metricKey, weight) == MeasureTotal(slice.rows[..n], metricKey, weight)
  {
    if n > 0 {
      TotalOfSlice(slice, metricKey, weight, n - 1);
      assert KeysOf(slice)[..n][..n - 1] == KeysOf(slice)[..n - 1];
      assert slice.rows[..n][..n - 1] == slice.rows[..n - 1];
      SliceRowAt(slice, n - 1);
    }
  }

  lemma {:induction false} TotalOfColumn(
    rows: seq<Row>, keys: seq<Key>, slice: Slice, metricKey: string, weight: Value -> real)
    requires |rows| == |keys|
    requires forall i :: 0 <= i < |rows| ==>
      metricKey in rows[i] && Cell(slice, metricKey, keys[i]) == Some(rows[i][metricKey])
    ensures ColumnTotal(rows, metricKey, weight) == Total(keys, slice, metricKey, weight)
  {
    if rows != [] {
      TotalOfColumn(rows[..|rows| - 1], keys[..|keys| - 1], slice, metricKey, weight);
    }
  }

  /**
   * Conservation: for every weight that gives nothing to null, every planned metric weighs in the
   * composed rows exactly what it weighed in its own slice. Taking the number itself gives the sum,
   * and one per non-null value gives the count.
   */
  lemma EveryMetricIsConserved(
    plan: Plan, slices: seq<Slice>, rows: seq<Row>, metricKey: string, weight: Value -> real)
    requires slices != [] && Composed(plan, slices) == Ok(rows)
    requires metricKey in plan.metricKeys && weight(Null) == 0.0
    ensures metricKey in ByMetric(slices)
    ensures ColumnTotal(rows, metricKey, weight) == MeasureTotal(ByMetric(slices)[metricKey].rows, metricKey, weight)
  {
    var byMetric := ByMetric(slices);
    PlannedSlices(plan, slices);
    var keys := Distinct(KeysInOrder(plan.metricKeys, byMetric));
    JoinKeys(plan, slices, byMetric, keys);
    forall i | 0 <= i < |keys|
      ensures |rows| == |keys| && metricKey in rows[i]
      ensures Cell(byMetric[metricKey], metricKey, keys[i]) == Some(rows[i][metricKey])
    {
      RowsForEach(plan, byMetric, keys, i);
      MeasuresSet(DimensionCells(plan.dimensions, keys[i]), plan.metricKeys, byMetric, keys[i]);
    }
    RowsForEach(plan, byMetric, keys, 0);
    SliceIsConserved(byMetric[metricKey], metricKey, keys, rows, weight);
  }

  lemma SliceIsConserved(slice: Slice, metricKey: string, keys: seq<Key>, rows: seq<Row>, weight: Value -> real)
    requires NoDuplicates(keys) && NoDuplicates(KeysOf(slice)) && weight(Null) == 0.0
    requires forall k :: k in KeysOf(slice) ==> k in keys
    requires |rows| == |keys|
    requires forall i :: 0 <= i < |rows| ==>
      metricKey in rows[i] && Cell(slice, metricKey, keys[i]) == Some(rows[i][metricKey])
    ensures ColumnTotal(rows, metricKey, weight) == MeasureTotal(slice.rows, metricKey, weight)
  {
    TotalOfColumn(rows, keys, slice, metricKey, weight);
    forall k | k in keys && k !in KeysOf(slice) ensures weight(CellValue(slice, metricKey, k)) == 0.0 {
      AbsentIsNull(slice, metricKey, k);
    }
    TotalAgrees(keys, KeysOf(slice), slice, metricKey, weight);
    TotalOfSlice(slice, metricKey, weight, |slice.rows|);
    assert KeysOf(slice)[..|slice.rows|] == KeysOf(slice) && slice.rows[..|slice.rows|] == slice.rows;
  }

  lemma AbsentIsNull(slice: Slice, metricKey: string, key: Key)
    requires key !in KeysOf(slice)
    ensures CellValue(slice, metricKey, key) == Null
  {
    RowAtMember(slice, key);
  }

  // ---------------------------------------------------------------------------------------------
  // When it is accepted

  /**
   * Accepted exactly when every slice is at the grain, no metric is missing, and each value can be read;
   * or when there are no slices at all, which is accepted with no rows whatever metrics were planned.
   */
  lemma AcceptedExactly(plan: Plan, slices: seq<Slice>)
    ensures slices == [] ==> Composed(plan, slices) == Ok([])
    ensures slices != [] ==>
      (Composed(plan, slices).Ok? <==>
        && AtGrain(plan.dimensions, slices)
        && (forall m :: m in plan.metricKeys ==> m in ByMetric(slices))
        && (forall m :: m in plan.metricKeys ==> RowsReadable(ByMetric(slices)[m], m)))
  {
    SliceErrorIsExact(plan.dimensions, slices);
    hide RowsFor, RowsReadable, ByMetric, SliceError, AtGrain, KeysInOrder, KeysOf;
    var byMetric := ByMetric(slices);
    if slices == [] {
    } else if SliceError(plan.dimensions, slices).None? && (forall m :: m in plan.metricKeys ==> m in byMetric) {
      JoinAcceptedExactly(plan, slices);
    } else if AtGrain(plan.dimensions, slices) {
      var m :| m in plan.metricKeys && m !in byMetric;
      assert m in (set k | k in plan.metricKeys) - byMetric.Keys;
    }
  }

  /** Once every slice is at the grain and every metric has one, only unreadable measures are refused. */
  lemma {:induction false} JoinAcceptedExactly(plan: Plan, slices: seq<Slice>)
    requires slices != [] && SliceError(plan.dimensions, slices).None?
    requires forall m :: m in plan.metricKeys ==> m in ByMetric(slices)
    ensures Composed(plan, slices).Ok? <==> forall m :: m in plan.metricKeys ==> RowsReadable(ByMetric(slices)[m], m)
  {
    hide RowsFor, RowsReadable, ByMetric, SliceError, AtGrain, KeysInOrder, KeysOf, Distinct;
    var byMetric := ByMetric(slices);
    assert (set k | k in plan.metricKeys) - byMetric.Keys == {};
    var keys := Distinct(KeysInOrder(plan.metricKeys, byMetric));
    JoinKeys(plan, slices, byMetric, keys);
    RowsAcceptedExactly(plan, byMetric, keys);
  }

  ghost predicate CellsReadable(metricKeys: seq<string>, slices: map<string, Slice>, key: Key)
    requires forall m :: m in metricKeys ==> m in slices
  {
    forall m :: m in metricKeys ==> Cell(slices[m], m, key).Some?
  }

  lemma CellsReadableStep(metricKeys: seq<string>, slices: map<string, Slice>, key: Key)
    requires metricKeys != [] && forall m :: m in metricKeys ==> m in slices
    ensures var init, last := metricKeys[..|metricKeys| - 1], metricKeys[|metricKeys| - 1];
      CellsReadable(metricKeys, slices, key)
      <==> CellsReadable(init, slices, key) && Cell(slices[last], last, key).Some?
  {
    hide Cell;
    var init, last := metricKeys[..|metricKeys| - 1], metricKeys[|metricKeys| - 1];
    assert forall m :: m in metricKeys <==> m in init || m == last by {
      assert metricKeys == init + [last];
    }
  }

  lemma {:induction false} MeasuresAccepted(row: Row, metricKeys: seq<string>, slices: map<string, Slice>, key: Key)
    requires forall m :: m in metricKeys ==> m in slices
    ensures WithMeasures(row, metricKeys, slices, key).Ok? <==> CellsReadable(metricKeys, slices, key)
  {
    if metricKeys != [] {
      hide Cell, CellsReadable;
      MeasuresAccepted(row, metricKeys[..|metricKeys| - 1], slices, key);
      CellsReadableStep(metricKeys, slices, key);
    }
  }

  ghost predicate AllReadable(plan: Plan, slices: map<string, Slice>, keys: seq<Key>)
    requires forall m :: m in plan.metricKeys ==> m in slices
  {
    forall k :: k in keys ==> CellsReadable(plan.metricKeys, slices, k)
  }

  lemma AllReadableStep(plan: Plan, slices: map<string, Slice>, keys: seq<Key>)
    requires keys != [] && forall m :: m in plan.metricKeys ==> m in slices
    ensures var init, last := keys[..|keys| - 1], keys[|keys| - 1];
      AllReadable(plan, slices, keys)
      <==> AllReadable(plan, slices, init) && CellsReadable(plan.metricKeys, slices, last)
  {
    hide CellsReadable;
    var init, last := keys[..|keys| - 1], keys[|keys| - 1];
    assert forall k :: k in keys <==> k in init || k == last by {
      assert keys == init + [last];
    }
  }

  lemma {:induction false} RowsAccepted(plan: Plan, slices: map<string, Slice>, keys: seq<Key>)
    requires forall m :: m in plan.metricKeys ==> m in slices
    requires forall k :: k in keys ==> |k| == |plan.dimensions|
    ensures RowsFor(plan, slices, keys).Ok? <==> AllReadable(plan, slices, keys)
  {
    if keys != [] {
      hide AllReadable, CellsReadable, WithMeasures, DimensionCells;
      var init, last := keys[..|keys| - 1], keys[|keys| - 1];
      RowsAccepted(plan, slices, init);
      MeasuresAccepted(DimensionCells(plan.dimensions, last), plan.metricKeys, slices, last);
      AllReadableStep(plan, slices, keys);
    }
  }

  /** Every row of a slice carries a measure that can be told from its other columns. */
  ghost predicate RowsReadable(slice: Slice, metricKey: string) {
    forall i :: 0 <= i < |slice.rows| ==> MeasureOf(slice.rows[i], metricKey).Some?
  }

  lemma SliceReadable(slice: Slice, metricKey: string, keys: seq<Key>)
    requires NoDuplicates(KeysOf(slice))
    requires forall k :: k in KeysOf(slice) ==> k in keys
    ensures RowsReadable(slice, metricKey) <==> forall k :: k in keys ==> Cell(slice, metricKey, k).Some?
  {
    if RowsReadable(slice, metricKey) {
      forall k | k in keys ensures Cell(slice, metricKey, k).Some? {
        RowAtFinds(slice.dimensions, slice.rows, k);
      }
    } else {
      var i :| 0 <= i < |slice.rows| && MeasureOf(slice.rows[i], metricKey).None?;
      SliceRowAt(slice, i);
      assert KeysOf(slice)[i] in KeysOf(slice);
      assert Cell(slice, metricKey, KeysOf(slice)[i]).None?;
    }
  }

  lemma RowsAcceptedExactly(plan: Plan, slices: map<string, Slice>, keys: seq<Key>)
    requires forall m :: m in plan.metricKeys ==> m in slices && NoDuplicates(KeysOf(slices[m]))
    requires forall k :: k in keys ==> |k| == |plan.dimensions|
    requires forall k, m :: m in plan.metricKeys && k in KeysOf(slices[m]) ==> k in keys
    ensures RowsFor(plan, slices, keys).Ok? <==>
      forall m :: m in plan.metricKeys ==> RowsReadable(slices[m], m)
  {
    RowsAccepted(plan, slices, keys);
    hide RowsFor, Cell, RowsReadable;
    assert AllReadable(plan, slices, keys) <==>
      forall k, m :: k in keys && m in plan.metricKeys ==> Cell(slices[m], m, k).Some?;
    forall m | m in plan.metricKeys
      ensures RowsReadable(slices[m], m) <==> forall k :: k in keys ==> Cell(slices[m], m, k).Some?
    {
      SliceReadable(slices[m], m, keys);
    }
  }

  lemma SliceRowAt(slice: Slice, i: nat)
    requires NoDuplicates(KeysOf(slice)) && i < |slice.rows|
    ensures RowAt(slice.dimensions, slice.rows, KeysOf(slice)[i]) == Some(slice.rows[i])
  {
    forall a, b | 0 <= a < b < |slice.rows|
      ensures KeyFor(slice.dimensions, slice.rows[a]) != KeyFor(slice.dimensions, slice.rows[b])
    {
      assert KeysOf(slice)[a] != KeysOf(slice)[b];
    }
    RowAtItself(slice.dimensions, slice.rows, i);
  }

  // ---------------------------------------------------------------------------------------------
  // Measures that are none

  /** A row that holds one of the dimensions and nothing else. */
  ghost predicate OnlyDimension(dimensions: seq<string>, row: Row) {
    exists d :: d in dimensions && row.Keys == {d}
  }

  /** The row for this key has its measure read from a dimension. */
  ghost predicate ReadsDimension(slice: Slice, metricKey: string, key: Key) {
    exists i :: 0 <= i < |slice.rows| && KeysOf(slice)[i] == key
      && MeasureColumn(slice.rows[i], metricKey).Some?
      && MeasureColumn(slice.rows[i], metricKey).value in slice.dimensions
  }

  lemma {:induction false} DimensionReadExactly(dimensions: seq<string>, row: Row, metricKey: string)
    requires metricKey !in dimensions && "value" !in dimensions
    ensures var column := MeasureColumn(row, metricKey);
      column.Some? && column.value in dimensions <==> OnlyDimension(dimensions, row)
    ensures OnlyDimension(dimensions, row) ==> row.Keys == {MeasureColumn(row, metricKey).value}
  {
    var column := MeasureColumn(row, metricKey);
    if column.Some? && column.value in dimensions {
      assert row.Keys == row.Keys - {"value", metricKey};
    }
    if d :| d in dimensions && row.Keys == {d} {
      assert row.Keys - {"value", metricKey} == {d};
    }
  }

  /** Nothing but a department: read as what the department is paid. */
  lemma {:induction false} DepartmentReadAsPay()
    ensures MeasureOf(map["department" := Text("Sales")], "pay") == Some(Text("Sales"))
  {
    var row: Row := map["department" := Text("Sales")];
    assert row.Keys == {"department"} && ["department"][0] == "department";
    DimensionReadExactly(["department"], row, "pay");
  }

  /**
   * When a dimension's value stands in a metric's column of an accepted composition: exactly when the
   * metric's row for that tuple holds one dimension and nothing else. The cell then repeats that
   * dimension of its own row.
   */
  lemma {:induction false} DimensionIsMeasureExactly(
    plan: Plan, slices: seq<Slice>, byMetric: map<string, Slice>, keys: seq<Key>, rows: seq<Row>, i: nat, m: string)
    requires Composed(plan, slices) == Ok(rows) && JoinOf(plan, slices, byMetric, keys)
    requires forall d :: d in plan.dimensions ==> d !in plan.metricKeys && d != "value"
    requires i < |rows| && m in plan.metricKeys
    ensures |rows| == |keys| && byMetric[m].dimensions == plan.dimensions
    ensures ReadsDimension(byMetric[m], m, keys[i]) <==>
      exists j :: 0 <= j < |byMetric[m].rows| && KeysOf(byMetric[m])[j] == keys[i]
        && OnlyDimension(plan.dimensions, byMetric[m].rows[j])
    ensures ReadsDimension(byMetric[m], m, keys[i]) ==>
      exists d :: d in plan.dimensions && d in rows[i] && m in rows[i] && rows[i][m] == rows[i][d]
  {
    ComposedIsFullOuterJoin(plan, slices, byMetric, keys, rows);
    JoinKeys(plan, slices, byMetric, keys);
    hide Composed, JoinOf, MeasureColumn, OnlyDimension, RowsFor, KeysInOrder, Distinct;
    var slice := byMetric[m];
    forall j | 0 <= j < |slice.rows|
      ensures MeasureColumn(slice.rows[j], m).Some? && MeasureColumn(slice.rows[j], m).value in plan.dimensions
         <==> OnlyDimension(plan.dimensions, slice.rows[j])
    {
      DimensionReadExactly(plan.dimensions, slice.rows[j], m);
    }
    if ReadsDimension(slice, m, keys[i]) {
      var j :| 0 <= j < |slice.rows| && KeysOf(slice)[j] == keys[i]
        && MeasureColumn(slice.rows[j], m).Some? && MeasureColumn(slice.rows[j], m).value in slice.dimensions;
      RepeatsDimension(slice, m, keys[i], j, rows[i]);
    }
  }

  lemma {:induction false} RepeatsDimension(slice: Slice, m: string, key: Key, j: nat, row: Row)
    requires j < |slice.rows| && KeysOf(slice)[j] == key && NoDuplicates(KeysOf(slice))
    requires MeasureColumn(slice.rows[j], m).Some? && MeasureColumn(slice.rows[j], m).value in slice.dimensions
    requires KeyFor(slice.dimensions, row) == key && (forall d :: d in slice.dimensions ==> d in row)
    requires m in row && CellIsJoined(slice, m, key, row[m])
    ensures var d := MeasureColumn(slice.rows[j], m).value; d in row && row[m] == row[d]
  {
    hide MeasureColumn;
    assert key in KeysOf(slice);
    var k :| 0 <= k < |slice.rows| && KeysOf(slice)[k] == key && MeasureOf(slice.rows[k], m) == Some(row[m]);
    assert k == j;
    var d := MeasureColumn(slice.rows[j], m).value;
    var p :| 0 <= p < |slice.dimensions| && slice.dimensions[p] == d;
    assert KeyFor(slice.dimensions, row)[p] == KeyFor(slice.dimensions, slice.rows[j])[p];
  }
}
