/**
 * Bounded arithmetic over certified metric keys: the expression tree of a derived metric, its
 * validation, its evaluation on one row of measures, and the printed form that gets stored.
 */
module Expressions {
  import opened Wrappers
  import opened Dependencies
  import D = Decimals

  const MAX_EXPRESSION_DEPTH := 6

  datatype Operator = Add | Subtract | Multiply | Divide

  /** A validated node: both operands of an operation are present. */
  datatype Node =
    | MetricRef(metricKey: string)
    | Literal(value: D.Decimal)
    | Binary(operator: Operator, left: Node, right: Node)

  function ReferencedMetrics(node: Node): set<string> {
    match node
    case MetricRef(key) => {key}
    case Literal(_) => {}
    case Binary(_, left, right) => ReferencedMetrics(left) + ReferencedMetrics(right)
  }

  function Depth(node: Node): (d: nat)
    ensures d >= 1
  {
    match node
    case Binary(_, left, right) =>
      var l, r := Depth(left), Depth(right);
      1 + if l < r then r else l
    case _ => 1
  }

  // ---------------------------------------------------------------------------------------------
  // Validation

  datatype ExpressionError =
    | TooDeep
    | NoReference
    | SelfReference
    | UnknownMetrics(unknown: set<string>)
    | CircularDependency

  function ValidateExpression(node: Node, available: set<string>, metricKey: Option<string>):
    (r: Result<(), ExpressionError>)
    ensures r.Ok? <==>
      && Depth(node) <= MAX_EXPRESSION_DEPTH
      && ReferencedMetrics(node) != {}
      && ReferencedMetrics(node) <= available
      && (metricKey.Some? ==> metricKey.value !in ReferencedMetrics(node))
  {
    var referenced := ReferencedMetrics(node);
    if Depth(node) > MAX_EXPRESSION_DEPTH then Err(TooDeep)
    else if referenced == {} then Err(NoReference)
    else if metricKey.Some? && metricKey.value in referenced then Err(SelfReference)
    else
      var unknown := referenced - available;
      assert forall k :: k in referenced ==> k in available || k in unknown;
      if unknown != {} then Err(UnknownMetrics(unknown)) else Ok(())
  }

  /** How many nodes one evaluation visits. */
  function Size(node: Node): nat {
    match node
    case Binary(_, left, right) => 1 + Size(left) + Size(right)
    case _ => 1
  }

  function Pow2(n: nat): nat {
    if n == 0 then 1 else 2 * Pow2(n - 1)
  }

  lemma {:induction false} Pow2Grows(a: nat, b: nat)
    requires a <= b
    ensures Pow2(a) <= Pow2(b)
    decreases b
  {
    if a < b {
      Pow2Grows(a, b - 1);
    }
  }

  lemma {:induction false} SizeWithinDepth(node: Node)
    ensures Size(node) < Pow2(Depth(node))
  {
    match node
    case Binary(_, left, right) =>
      SizeWithinDepth(left);
      SizeWithinDepth(right);
      Pow2Grows(Depth(left), Depth(node) - 1);
      Pow2Grows(Depth(right), Depth(node) - 1);
    case _ =>
      assert Pow2(1) == 2;
  }

  /** The depth limit bounds the work: no accepted expression has more than 63 nodes. */
  lemma AcceptedExpressionIsSmall(node: Node, available: set<string>, metricKey: Option<string>)
    requires ValidateExpression(node, available, metricKey).Ok?
    ensures Size(node) <= 63
  {
    SizeWithinDepth(node);
    Pow2Grows(Depth(node), MAX_EXPRESSION_DEPTH);
    assert Pow2(2) == 4 && Pow2(4) == 16 && Pow2(6) == 64;
  }

  // ---------------------------------------------------------------------------------------------
  // Cycles

  /** The graph `assert_acyclic` searches: the existing one, with the proposed edges of one key. */
  function ProposedGraph(dependenciesOf: Graph, metricKey: string, node: Node): Graph {
    dependenciesOf[metricKey := ReferencedMetrics(node)]
  }

  /**
   * Refuses exactly when a cycle can be reached from the proposed key, and otherwise has settled
   * exactly the keys it can reach. It always terminates, whatever the graph.
   */
  method AssertAcyclic(metricKey: string, node: Node, dependenciesOf: Graph)
    returns (ok: bool, settled: set<string>)
    ensures ok <==> !CycleReachableFrom(ProposedGraph(dependenciesOf, metricKey, node), metricKey)
    ensures ok ==> forall k ::
      k in settled <==> Reaches(ProposedGraph(dependenciesOf, metricKey, node), metricKey, k)
  {
    var walk := new Walk(ProposedGraph(dependenciesOf, metricKey, node), metricKey);
    ok := walk.Visit(metricKey);
    settled := walk.settled;
  }

  /** On an acyclic graph the refusal is exact for the whole of the resulting graph. */
  lemma RefusedExactlyWhenCyclic(dependenciesOf: Graph, metricKey: string, node: Node)
    requires Acyclic(dependenciesOf)
    ensures Acyclic(ProposedGraph(dependenciesOf, metricKey, node))
       <==> !CycleReachableFrom(ProposedGraph(dependenciesOf, metricKey, node), metricKey)
  {
    OneKeyDecides(dependenciesOf, ProposedGraph(dependenciesOf, metricKey, node), metricKey);
  }

  /** A metric not certified yet is never refused: nothing depends on its key. */
  lemma FreshKeyNeverRefused(dependenciesOf: Graph, metricKey: string, node: Node)
    requires Acyclic(dependenciesOf) && ClosedUnder(dependenciesOf, dependenciesOf.Keys)
    requires metricKey !in dependenciesOf && ReferencedMetrics(node) <= dependenciesOf.Keys
    ensures !CycleReachableFrom(ProposedGraph(dependenciesOf, metricKey, node), metricKey)
  {
    FreshKeyReachesNoCycle(dependenciesOf, metricKey, ReferencedMetrics(node));
  }

  // ---------------------------------------------------------------------------------------------
  // Evaluation

  /** One row's measures. A key may be absent, or present and null. */
  type Measures = map<string, Option<real>>

  function Measure(m: Measures, key: string): Option<real> {
    if key in m then m[key] else None
  }

  function Evaluate(node: Node, m: Measures): Option<real> {
    match node
    case Literal(value) => Some(D.Value(value))
    case MetricRef(key) => Measure(m, key)
    case Binary(operator, leftNode, rightNode) =>
      Apply(operator, Evaluate(leftNode, m), Evaluate(rightNode, m))
  }

  function Apply(operator: Operator, left: Option<real>, right: Option<real>): Option<real> {
    if left.None? || right.None? then None
    else
      match operator
      case Add => Some(left.value + right.value)
      case Subtract => Some(left.value - right.value)
      case Multiply => Some(left.value * right.value)
      case Divide => if right.value == 0.0 then None else Some(left.value / right.value)
  }

  /** The subtrees the expression divides by. */
  function Divisors(node: Node): set<Node> {
    match node
    case Binary(operator, left, right) =>
      Divisors(left) + Divisors(right) + if operator == Divide then {right} else {}
    case _ => {}
  }

  /** What the operators are, over defined operands: a sum, a difference, a quotient unless the divisor is zero, */
  lemma {:induction false} OperatorsAre(a: Node, b: Node, m: Measures)
    requires Evaluate(a, m).Some? && Evaluate(b, m).Some?
    ensures var x, y := Evaluate(a, m).value, Evaluate(b, m).value;
      && Evaluate(Binary(Add, a, b), m) == Some(x + y)
      && Evaluate(Binary(Subtract, a, b), m) == Some(x - y)
      && Evaluate(Binary(Divide, a, b), m) == if y == 0.0 then None else Some(x / y)
  {
  }

  /** and a product. */
  lemma {:induction false} MultiplyIsProduct(a: Node, b: Node, m: Measures)
    requires Evaluate(a, m).Some? && Evaluate(b, m).Some?
    ensures Evaluate(Binary(Multiply, a, b), m).Some?
    ensures Evaluate(Binary(Multiply, a, b), m).value == Evaluate(a, m).value * Evaluate(b, m).value
  {
    hide Apply;
    var l, r := Evaluate(a, m), Evaluate(b, m);
    assert Evaluate(Binary(Multiply, a, b), m) == Apply(Multiply, l, r);
    hide Evaluate;
    Multiplied(l, r);
  }

  lemma {:induction false} Multiplied(l: Option<real>, r: Option<real>)
    requires l.Some? && r.Some?
    ensures Apply(Multiply, l, r).Some? && Apply(Multiply, l, r).value == l.value * r.value
  {
  }

  /** Only the measures an expression references can change its value. */
  lemma {:induction false} EvaluateReadsReferencesOnly(node: Node, m: Measures, n: Measures)
    requires forall k :: k in ReferencedMetrics(node) ==> Measure(m, k) == Measure(n, k)
    ensures Evaluate(node, m) == Evaluate(node, n)
  {
    match node
    case Binary(_, left, right) =>
      EvaluateReadsReferencesOnly(left, m, n);
      EvaluateReadsReferencesOnly(right, m, n);
    case _ =>
  }

  /** A figure is absent exactly where it is undefined: a missing input, or a zero divisor. */
  lemma {:induction false} EvaluateUndefined(node: Node, m: Measures)
    ensures Evaluate(node, m).None? <==>
      || (exists k :: k in ReferencedMetrics(node) && Measure(m, k).None?)
      || (exists d :: d in Divisors(node) && Evaluate(d, m) == Some(0.0))
  {
    match node
    case Binary(operator, left, right) =>
      EvaluateUndefined(left, m);
      EvaluateUndefined(right, m);
      if operator == Divide && Evaluate(right, m) == Some(0.0) {
        assert right in Divisors(node);
      }
    case _ =>
  }

  // ---------------------------------------------------------------------------------------------
  // Derived metrics over derived metrics

  /** The tree with every reference to a defined key replaced by that key's definition. */
  function Substitute(node: Node, definitions: map<string, Node>): Node {
    match node
    case MetricRef(key) => if key in definitions then definitions[key] else node
    case Literal(_) => node
    case Binary(operator, left, right) =>
      Binary(operator, Substitute(left, definitions), Substitute(right, definitions))
  }

  /** The measures as they are once each defined key has been computed. */
  ghost predicate ComputedFrom(computed: Measures, definitions: map<string, Node>, base: Measures) {
    forall k :: Measure(computed, k) ==
      if k in definitions then Evaluate(definitions[k], base) else Measure(base, k)
  }

  lemma {:induction false} EvaluateSubstituted(
    node: Node, definitions: map<string, Node>, base: Measures, computed: Measures)
    requires ComputedFrom(computed, definitions, base)
    ensures Evaluate(Substitute(node, definitions), base) == Evaluate(node, computed)
  {
    match node
    case MetricRef(key) =>
      assert Measure(computed, key) ==
        if key in definitions then Evaluate(definitions[key], base) else Measure(base, key);
    case Literal(_) =>
    case Binary(_, left, right) =>
      EvaluateSubstituted(left, definitions, base, computed);
      EvaluateSubstituted(right, definitions, base, computed);
  }

  datatype Definition = Definition(key: string, node: Node)

  /** Computing the definitions one after the other, each from what is known so far. */
  function ComputeInOrder(ds: seq<Definition>, base: Measures): Measures {
    if ds == [] then base
    else
      var known := ComputeInOrder(ds[..|ds| - 1], base);
      var last := ds[|ds| - 1];
      known[last.key := Evaluate(last.node, known)]
  }

  /** The fully substituted tree of each definition. */
  function Flatten(ds: seq<Definition>): map<string, Node> {
    if ds == [] then map[]
    else
      var earlier := Flatten(ds[..|ds| - 1]);
      var last := ds[|ds| - 1];
      earlier[last.key := Substitute(last.node, earlier)]
  }

  /**
   * Evaluating dependencies first and plugging in the results gives, for every key and every row,
   * the value of its fully substituted tree.
   */
  lemma {:induction false} DependenciesFirstIsSubstitution(ds: seq<Definition>, base: Measures)
    ensures ComputedFrom(ComputeInOrder(ds, base), Flatten(ds), base)
  {
    if ds != [] {
      var earlier, last := ds[..|ds| - 1], ds[|ds| - 1];
      DependenciesFirstIsSubstitution(earlier, base);
      EvaluateSubstituted(last.node, Flatten(earlier), base, ComputeInOrder(earlier, base));
      var known := ComputeInOrder(earlier, base);
      forall k
        ensures Measure(ComputeInOrder(ds, base), k) ==
          if k in Flatten(ds) then Evaluate(Flatten(ds)[k], base) else Measure(base, k)
      {
        assert Measure(known, k) ==
          if k in Flatten(earlier) then Evaluate(Flatten(earlier)[k], base) else Measure(base, k);
      }
    }
  }

  function DefinedKeys(ds: seq<Definition>): set<string> {
    set i | 0 <= i < |ds| :: ds[i].key
  }

  /** Each definition uses its own key and later ones nowhere: an order approvals can produce. */
  ghost predicate DefinedBeforeUse(ds: seq<Definition>) {
    forall i, j :: 0 <= i <= j < |ds| ==> ds[j].key !in ReferencedMetrics(ds[i].node)
  }

  /** Values that agree with every definition at once, and with the base measures elsewhere. */
  ghost predicate Consistent(values: Measures, definitions: map<string, Node>, base: Measures) {
    forall k :: Measure(values, k) ==
      if k in definitions then Evaluate(definitions[k], values) else Measure(base, k)
  }

  /** The definitions in an order, each once. */
  ghost predicate Orders(ds: seq<Definition>, definitions: map<string, Node>) {
    && (forall i :: 0 <= i < |ds| ==> ds[i].key in definitions && definitions[ds[i].key] == ds[i].node)
    && (forall k :: k in definitions ==> exists i :: 0 <= i < |ds| && ds[i].key == k)
    && DefinedBeforeUse(ds)
  }

  /** Definitions over a closed acyclic graph can be put in an order that defines before use. */
  lemma {:induction false} DefinitionsCanBeOrdered(g: Graph, definitions: map<string, Node>)
    returns (ds: seq<Definition>)
    requires Acyclic(g) && ClosedUnder(g, g.Keys) && definitions.Keys <= g.Keys
    requires forall k :: k in definitions ==> ReferencedMetrics(definitions[k]) == g[k]
    ensures Orders(ds, definitions)
  {
    var order := OrderExists(g, definitions.Keys);
    hide Acyclic, ClosedUnder, ReferencedMetrics;
    forall i | 0 <= i < |order| ensures order[i] in definitions {
      assert order[i] in order;
    }
    ds := seq(|order|, i requires 0 <= i < |order| => Definition(order[i], definitions[order[i]]));
    forall k | k in definitions ensures exists i :: 0 <= i < |ds| && ds[i].key == k {
      var i :| 0 <= i < |order| && order[i] == k;
      assert ds[i].key == k;
    }
  }

  /** The value of every key after some definitions: consistent for the keys defined, the base's elsewhere. */
  ghost predicate WorkedThrough(ds: seq<Definition>, values: Measures, base: Measures) {
    && (forall i :: 0 <= i < |ds| && LastOfKey(ds, i) ==> Measure(values, ds[i].key) == Evaluate(ds[i].node, values))
    && (forall k :: Undefined(ds, k) ==> Measure(values, k) == Measure(base, k))
  }

  ghost predicate LastOfKey(ds: seq<Definition>, i: nat)
    requires i < |ds|
  {
    forall j :: i < j < |ds| ==> ds[j].key != ds[i].key
  }

  ghost predicate Undefined(ds: seq<Definition>, k: string) {
    forall i :: 0 <= i < |ds| ==> ds[i].key != k
  }

  /** One more definition changes no value an earlier one reads. */
  lemma {:induction false} OneMoreDefinition(ds: seq<Definition>, known: Measures, base: Measures)
    requires ds != [] && DefinedBeforeUse(ds) && WorkedThrough(ds[..|ds| - 1], known, base)
    ensures var last := ds[|ds| - 1];
      WorkedThrough(ds, known[last.key := Evaluate(last.node, known)], base)
  {
    var n, last := |ds| - 1, ds[|ds| - 1];
    var values := known[last.key := Evaluate(last.node, known)];
    forall i | 0 <= i < |ds| ensures Evaluate(ds[i].node, known) == Evaluate(ds[i].node, values) {
      assert last.key !in ReferencedMetrics(ds[i].node);
      EvaluateReadsReferencesOnly(ds[i].node, known, values);
    }
    hide Evaluate, ReferencedMetrics, DefinedBeforeUse;
    forall i | 0 <= i < |ds| && LastOfKey(ds, i) ensures Measure(values, ds[i].key) == Evaluate(ds[i].node, values) {
      if i < n {
        assert ds[n].key != ds[i].key;
        assert LastOfKey(ds[..n], i) && ds[..n][i] == ds[i];
      }
    }
    forall k | Undefined(ds, k) ensures Measure(values, k) == Measure(base, k) {
      assert ds[n].key != k && Undefined(ds[..n], k);
    }
  }

  /** Working through an order makes the definitions worked through consistent. */
  lemma {:induction false} OrderIsConsistent(ds: seq<Definition>, base: Measures)
    requires DefinedBeforeUse(ds)
    ensures WorkedThrough(ds, ComputeInOrder(ds, base), base)
  {
    hide Evaluate, ReferencedMetrics;
    if ds != [] {
      OrderIsConsistent(ds[..|ds| - 1], base);
      hide WorkedThrough, DefinedBeforeUse;
      OneMoreDefinition(ds, ComputeInOrder(ds[..|ds| - 1], base), base);
    }
  }

  /** Over an acyclic graph there is only one consistent set of values. */
  lemma {:induction false} ConsistentIsUnique(
    g: Graph, definitions: map<string, Node>, base: Measures, v: Measures, w: Measures, k: string)
    requires Acyclic(g) && ClosedUnder(g, g.Keys) && definitions.Keys <= g.Keys
    requires forall d :: d in definitions ==> ReferencedMetrics(definitions[d]) == g[d]
    requires Consistent(v, definitions, base) && Consistent(w, definitions, base)
    ensures Measure(v, k) == Measure(w, k)
    decreases if k in g then Height(g, k) + 1 else 0
  {
    hide Acyclic, ClosedUnder, Height, Evaluate, ReferencedMetrics, Measure;
    if k in definitions {
      forall d | d in ReferencedMetrics(definitions[k]) ensures Measure(v, d) == Measure(w, d) {
        DependencyIsLower(g, k, d);
        ConsistentIsUnique(g, definitions, base, v, w, d);
      }
      EvaluateReadsReferencesOnly(definitions[k], v, w);
    }
    assert Measure(v, k) == if k in definitions then Evaluate(definitions[k], v) else Measure(base, k);
    assert Measure(w, k) == if k in definitions then Evaluate(definitions[k], w) else Measure(base, k);
  }

  /**
   * Derived metrics whose dependencies are closed and acyclic have exactly one value each, and
   * evaluating them in an order that defines before use, or substituting them away, both give it.
   */
  lemma {:induction false} OneEvaluation(g: Graph, definitions: map<string, Node>, base: Measures)
    returns (ds: seq<Definition>)
    requires Acyclic(g) && ClosedUnder(g, g.Keys) && definitions.Keys <= g.Keys
    requires forall k :: k in definitions ==> ReferencedMetrics(definitions[k]) == g[k]
    ensures Orders(ds, definitions)
    ensures Consistent(ComputeInOrder(ds, base), definitions, base)
    ensures forall values :: Consistent(values, definitions, base) ==> ComputedFrom(values, Flatten(ds), base)
  {
    hide Acyclic, ClosedUnder, ReferencedMetrics, ComputeInOrder, Evaluate, Flatten;
    ds := DefinitionsCanBeOrdered(g, definitions);
    var computed := ComputeInOrder(ds, base);
    OrderedIsConsistent(ds, definitions, base);
    DependenciesFirstIsSubstitution(ds, base);
    forall values | Consistent(values, definitions, base) ensures ComputedFrom(values, Flatten(ds), base) {
      forall k ensures Measure(values, k) == Measure(computed, k) {
        ConsistentIsUnique(g, definitions, base, values, computed, k);
      }
      hide Consistent;
      forall k ensures Measure(values, k) ==
        if k in Flatten(ds) then Evaluate(Flatten(ds)[k], base) else Measure(base, k)
      {
        assert Measure(computed, k) ==
          if k in Flatten(ds) then Evaluate(Flatten(ds)[k], base) else Measure(base, k);
      }
    }
  }

  lemma {:induction false} OrderedIsConsistent(ds: seq<Definition>, definitions: map<string, Node>, base: Measures)
    requires Orders(ds, definitions)
    ensures Consistent(ComputeInOrder(ds, base), definitions, base)
  {
    var values := ComputeInOrder(ds, base);
    OrderIsConsistent(ds, base);
    hide ComputeInOrder, Evaluate, DefinedBeforeUse;
    forall k ensures Measure(values, k) == if k in definitions then Evaluate(definitions[k], values) else Measure(base, k)
    {
      if k in definitions {
        var i := LastWithKey(ds, k);
        assert LastOfKey(ds, i);
      } else {
        assert Undefined(ds, k);
      }
    }
  }

  lemma {:induction false} LastWithKey(ds: seq<Definition>, k: string) returns (i: nat)
    requires exists i :: 0 <= i < |ds| && ds[i].key == k
    ensures i < |ds| && ds[i].key == k && forall j :: i < j < |ds| ==> ds[j].key != k
  {
    var n := |ds| - 1;
    if ds[n].key == k {
      i := n;
    } else {
      var found :| 0 <= found < |ds| && ds[found].key == k;
      assert ds[..n][found].key == k;
      i := LastWithKey(ds[..n], k);
      assert forall j :: i < j < n ==> ds[j] == ds[..n][j];
    }
  }

  lemma {:induction false} SubstituteReferences(node: Node, definitions: map<string, Node>, k: string)
    ensures k in ReferencedMetrics(Substitute(node, definitions)) <==>
      || (k in ReferencedMetrics(node) && k !in definitions)
      || exists d :: d in ReferencedMetrics(node) && d in definitions && k in ReferencedMetrics(definitions[d])
  {
    match node
    case Binary(_, left, right) =>
      SubstituteReferences(left, definitions, k);
      SubstituteReferences(right, definitions, k);
    case _ =>
  }

  /** After substitution only base metrics remain, so evaluation reads governed results alone. */
  lemma {:induction false} FlattenReadsBaseOnly(ds: seq<Definition>, key: string)
    requires DefinedBeforeUse(ds) && key in Flatten(ds)
    ensures Flatten(ds).Keys == DefinedKeys(ds)
    ensures ReferencedMetrics(Flatten(ds)[key]) !! DefinedKeys(ds)
    decreases |ds|
  {
    var earlier, last := ds[..|ds| - 1], ds[|ds| - 1];
    FlattenKeys(ds);
    FlattenKeys(earlier);
    assert DefinedKeys(ds) == DefinedKeys(earlier) + {last.key};
    forall k | k in ReferencedMetrics(Flatten(ds)[key])
      ensures k !in DefinedKeys(ds)
    {
      if key == last.key {
        SubstituteReferences(last.node, Flatten(earlier), k);
        if k !in ReferencedMetrics(last.node) || k in Flatten(earlier) {
          var d :| d in ReferencedMetrics(last.node) && d in Flatten(earlier)
            && k in ReferencedMetrics(Flatten(earlier)[d]);
          FlattenReadsBaseOnly(earlier, d);
          LastKeyUnused(ds, d, k);
        }
      } else {
        FlattenReadsBaseOnly(earlier, key);
        LastKeyUnused(ds, key, k);
      }
    }
  }

  lemma {:induction false} FlattenKeys(ds: seq<Definition>)
    ensures Flatten(ds).Keys == DefinedKeys(ds)
  {
    if ds != [] {
      FlattenKeys(ds[..|ds| - 1]);
      assert DefinedKeys(ds) == DefinedKeys(ds[..|ds| - 1]) + {ds[|ds| - 1].key};
    }
  }

  /** What an earlier tree references came from some earlier definition's own text. */
  lemma {:induction false} FlattenedReferenceIsWritten(ds: seq<Definition>, key: string, k: string)
    requires key in Flatten(ds) && k in ReferencedMetrics(Flatten(ds)[key])
    ensures exists i :: 0 <= i < |ds| && k in ReferencedMetrics(ds[i].node)
    decreases |ds|
  {
    var earlier, last := ds[..|ds| - 1], ds[|ds| - 1];
    if key == last.key {
      SubstituteReferences(last.node, Flatten(earlier), k);
      if k in ReferencedMetrics(last.node) {
        assert k in ReferencedMetrics(ds[|ds| - 1].node);
      } else {
        var d :| d in ReferencedMetrics(last.node) && d in Flatten(earlier)
          && k in ReferencedMetrics(Flatten(earlier)[d]);
        FlattenedReferenceIsWritten(earlier, d, k);
        var i :| 0 <= i < |earlier| && k in ReferencedMetrics(earlier[i].node);
        assert k in ReferencedMetrics(ds[i].node);
      }
    } else {
      FlattenedReferenceIsWritten(earlier, key, k);
      var i :| 0 <= i < |earlier| && k in ReferencedMetrics(earlier[i].node);
      assert k in ReferencedMetrics(ds[i].node);
    }
  }

  lemma LastKeyUnused(ds: seq<Definition>, d: string, k: string)
    requires |ds| > 0 && DefinedBeforeUse(ds)
    requires d in Flatten(ds[..|ds| - 1]) && k in ReferencedMetrics(Flatten(ds[..|ds| - 1])[d])
    ensures k != ds[|ds| - 1].key
  {
    FlattenedReferenceIsWritten(ds[..|ds| - 1], d, k);
  }

  // ---------------------------------------------------------------------------------------------
  // The printed form

  function Symbol(operator: Operator): char {
    match operator
    case Add => '+'
    case Subtract => '-'
    case Multiply => '*'
    case Divide => '/'
  }

  function Describe(node: Node): string {
    match node
    case Literal(value) => D.Str(value)
    case MetricRef(key) => key
    case Binary(operator, left, right) =>
      "(" + Describe(left) + [' ', Symbol(operator), ' '] + Describe(right) + ")"
  }

  predicate Breaks(c: char) {
    c == ' ' || c == '(' || c == ')'
  }

  predicate Unbroken(s: string) {
    s != "" && forall i :: 0 <= i < |s| ==> !Breaks(s[i])
  }

  /** A key that can be told apart in print: one word, and not the text of a number. */
  predicate PlainKey(key: string) {
    Unbroken(key) && D.Parse(key).None?
  }

  predicate PlainKeys(node: Node) {
    forall k :: k in ReferencedMetrics(node) ==> PlainKey(k)
  }

  function WordLength(s: string): (n: nat)
    ensures n <= |s|
  {
    if s == "" || Breaks(s[0]) then 0 else 1 + WordLength(s[1..])
  }

  lemma {:induction false} WordStops(word: string, rest: string)
    requires forall i :: 0 <= i < |word| ==> !Breaks(word[i])
    requires rest != "" ==> Breaks(rest[0])
    ensures WordLength(word + rest) == |word|
  {
    if word != "" {
      WordStops(word[1..], rest);
      assert (word + rest)[1..] == word[1..] + rest;
    } else {
      assert word + rest == rest;
    }
  }

  function OperatorOf(c: char): Option<Operator> {
    match c
    case '+' => Some(Add)
    case '-' => Some(Subtract)
    case '*' => Some(Multiply)
    case '/' => Some(Divide)
    case _ => None
  }

  /** Reads one expression off the front of a text, giving back what follows it. */
  function ParseNode(s: string): (r: Option<(Node, string)>)
    ensures r.Some? ==> |r.value.1| < |s|
    decreases |s|
  {
    if s == "" then None
    else if s[0] == '(' then
      var l := ParseNode(s[1..]);
      if l.None? then None else ParseRight(l.value.0, l.value.1)
    else
      var n := WordLength(s);
      if n == 0 then None
      else
        var literal := D.Parse(s[..n]);
        Some((if literal.Some? then Literal(literal.value) else MetricRef(s[..n]), s[n..]))
  }

  /** After a left operand: a spaced operator, the right operand, and the closing parenthesis. */
  function ParseRight(left: Node, s: string): (r: Option<(Node, string)>)
    ensures r.Some? ==> |r.value.1| < |s|
    decreases |s|
  {
    if |s| < 3 || s[0] != ' ' || s[2] != ' ' || OperatorOf(s[1]).None? then None
    else
      var r := ParseNode(s[3..]);
      if r.None? || r.value.1 == "" || r.value.1[0] != ')' then None
      else Some((Binary(OperatorOf(s[1]).value, left, r.value.0), r.value.1[1..]))
  }

  ghost predicate EndsWord(rest: string) {
    rest != "" ==> rest[0] == ' ' || rest[0] == ')'
  }

  lemma {:induction false} ParseWord(node: Node, rest: string)
    requires !node.Binary? && PlainKeys(node) && EndsWord(rest)
    ensures ParseNode(Describe(node) + rest) == Some((node, rest))
  {
    var word := Describe(node);
    if node.Literal? {
      D.StrChars(node.value);
      D.ParseStr(node.value);
      forall i | 0 <= i < |word| ensures !Breaks(word[i]) {
        assert D.NumeralChar(word[i]);
      }
    } else {
      assert node.metricKey in ReferencedMetrics(node);
    }
    var s := word + rest;
    assert s[0] == word[0];
    WordStops(word, rest);
    assert s[..|word|] == word && s[|word|..] == rest;
  }

  lemma {:induction false} ParseRightPart(left: Node, operator: Operator, right: Node, rest: string)
    requires ParseNode(Describe(right) + ")" + rest) == Some((right, ")" + rest))
    ensures ParseRight(left, [' ', Symbol(operator), ' '] + (Describe(right) + ")" + rest))
         == Some((Binary(operator, left, right), rest))
  {
    var tail := Describe(right) + ")" + rest;
    var s := [' ', Symbol(operator), ' '] + tail;
    assert s[3..] == tail;
    assert (")" + rest)[1..] == rest;
    SymbolReads(operator);
    hide ParseNode, Describe, Symbol, OperatorOf;
    assert s[0] == ' ' && s[1] == Symbol(operator) && s[2] == ' ';
  }

  lemma {:induction false} SymbolReads(operator: Operator)
    ensures OperatorOf(Symbol(operator)) == Some(operator)
  {
  }

  lemma {:induction false} ParseLeftPart(s: string, left: Node, tail: string)
    requires ParseNode(Describe(left) + tail) == Some((left, tail))
    requires s == "(" + (Describe(left) + tail)
    ensures ParseNode(s) == ParseRight(left, tail)
  {
    assert s[1..] == Describe(left) + tail;
  }

  lemma {:induction false} Associates(a: string, b: string, c: string)
    ensures (a + b) + c == a + (b + c)
  {
  }

  lemma {:induction false} Reassociated(a: string, l: string, o: string, r: string, c: string, rest: string)
    ensures a + l + o + r + c + rest == a + (l + (o + (r + (c + rest))))
  {
    Associates(a + l + o + r, c, rest);
    Associates(a + l + o, r, c + rest);
    Associates(a + l, o, r + (c + rest));
    Associates(a, l, o + (r + (c + rest)));
  }

  lemma {:induction false} DescribedThen(operator: Operator, left: Node, right: Node, rest: string)
    ensures Describe(Binary(operator, left, right)) + rest
      == "(" + (Describe(left) + ([' ', Symbol(operator), ' '] + (Describe(right) + (")" + rest))))
  {
    var l, r, o := Describe(left), Describe(right), [' ', Symbol(operator), ' '];
    assert Describe(Binary(operator, left, right)) == "(" + l + o + r + ")";
    hide *;
    Reassociated("(", l, o, r, ")", rest);
  }

  /** Reading undoes printing, at any depth and whatever follows. */
  lemma {:induction false} ParseUndoesDescribe(node: Node, rest: string)
    requires PlainKeys(node) && EndsWord(rest)
    ensures ParseNode(Describe(node) + rest) == Some((node, rest))
    decreases node
  {
    match node
    case Binary(operator, left, right) =>
      var tail := [' ', Symbol(operator), ' '] + (Describe(right) + (")" + rest));
      assert PlainKeys(left) && PlainKeys(right) && EndsWord(tail) && EndsWord(")" + rest);
      DescribedThen(operator, left, right, rest);
      hide ParseNode, ParseRight, Describe, PlainKeys, EndsWord;
      ParseUndoesDescribe(left, tail);
      ParseUndoesDescribe(right, ")" + rest);
      assert Describe(right) + (")" + rest) == Describe(right) + ")" + rest;
      ParseRightPart(left, operator, right, rest);
      ParseLeftPart(Describe(node) + rest, left, tail);
    case _ =>
      ParseWord(node, rest);
  }

  /** Two definitions with plain keys print alike only if they are the same definition. */
  lemma DescribeIsInjective(a: Node, b: Node)
    requires PlainKeys(a) && PlainKeys(b) && Describe(a) == Describe(b)
    ensures a == b
  {
    ParseUndoesDescribe(a, "");
    ParseUndoesDescribe(b, "");
    assert Describe(a) + "" == Describe(a) && Describe(b) + "" == Describe(b);
  }

  /** The key's text is also that of a number or an operation over plain keys. */
  ghost predicate PrintsAlike(key: string) {
    exists node: Node :: !node.MetricRef? && PlainKeys(node) && Describe(node) == key
  }

  /** What a caller can check of a key: read as a definition, it is another one that prints the same. */
  predicate ReadsAsAnother(key: string) {
    var r := ParseNode(key);
    && r.Some? && r.value.1 == ""
    && !r.value.0.MetricRef? && PlainKeys(r.value.0) && Describe(r.value.0) == key
  }

  /** Exactly those keys print like some other definition over plain keys, and none of them is plain. */
  lemma {:induction false} KeysThatPrintAlike(key: string)
    ensures PrintsAlike(key) <==> ReadsAsAnother(key)
    ensures PrintsAlike(key) ==> !PlainKey(key) && exists node: Node :: node != MetricRef(key) && Describe(node) == key
  {
    hide ParseNode, PlainKeys, PlainKey;
    if node: Node :| !node.MetricRef? && PlainKeys(node) && Describe(node) == key {
      ParseUndoesDescribe(node, "");
      assert key + "" == key;
      NotPlain(node);
    }
  }

  lemma {:induction false} NotPlain(node: Node)
    requires !node.MetricRef?
    ensures !PlainKey(Describe(node))
  {
    if node.Literal? {
      D.ParseStr(node.value);
    } else {
      assert Describe(node)[0] == '(';
      assert Breaks(Describe(node)[0]);
    }
  }

  function Spaced(operator: Operator): string {
    [' ', Symbol(operator), ' ']
  }

  /** Keys that hold an operator between blanks cannot be told from the operation itself. */
  lemma {:induction false} OperatorsInKeysPrintAlike(x: string, o: Operator, u: string, p: Operator, v: string)
    ensures Describe(Binary(o, MetricRef(x), MetricRef(u + Spaced(p) + v)))
         == Describe(Binary(p, MetricRef(x + Spaced(o) + u), MetricRef(v)))
    ensures Binary(o, MetricRef(x), MetricRef(u + Spaced(p) + v)) != Binary(p, MetricRef(x + Spaced(o) + u), MetricRef(v))
  {
    var a, b := Spaced(o), Spaced(p);
    assert Describe(Binary(o, MetricRef(x), MetricRef(u + b + v))) == "(" + x + a + (u + b + v) + ")";
    assert Describe(Binary(p, MetricRef(x + a + u), MetricRef(v))) == "(" + (x + a + u) + b + v + ")";
    hide Describe;
    assert |x + a + u| > |x|;
  }
}
