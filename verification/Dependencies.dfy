/**
 * The dependency graph between metrics, and the depth-first walk that refuses a cycle in it
 * (the nested `visit` of `assert_acyclic`).
 */
module Dependencies {

  /** A key that is absent depends on nothing, as in `graph.get(key, set())`. */
  type Graph = map<string, set<string>>

  function Successors(g: Graph, key: string): (r: set<string>)
    ensures forall d :: d in r <==> key in g && d in g[key]
  {
    if key in g then g[key] else {}
  }

  ghost predicate IsPath(g: Graph, p: seq<string>) {
    && |p| > 0
    && forall i :: 0 <= i < |p| - 1 ==> p[i + 1] in Successors(g, p[i])
  }

  ghost predicate PathBetween(g: Graph, p: seq<string>, a: string, b: string) {
    IsPath(g, p) && p[0] == a && p[|p| - 1] == b
  }

  ghost predicate Reaches(g: Graph, a: string, b: string) {
    exists p :: PathBetween(g, p, a, b)
  }

  ghost predicate StrictlyReaches(g: Graph, a: string, b: string) {
    exists d :: d in Successors(g, a) && Reaches(g, d, b)
  }

  ghost predicate Acyclic(g: Graph) {
    forall k :: !StrictlyReaches(g, k, k)
  }

  ghost predicate CycleReachableFrom(g: Graph, key: string) {
    exists c :: Reaches(g, key, c) && StrictlyReaches(g, c, c)
  }

  ghost predicate ClosedUnder(g: Graph, s: set<string>) {
    forall k :: k in s ==> Successors(g, k) <= s
  }

  /** Every key of the graph, and everything those keys depend on. */
  function Keys(g: Graph): (all: set<string>)
    ensures ClosedUnder(g, all)
  {
    g.Keys + (set k, d | k in g.Keys && d in g[k] :: d)
  }

  lemma ReachesSelf(g: Graph, a: string)
    ensures Reaches(g, a, a)
  {
    assert PathBetween(g, [a], a, a);
  }

  lemma ReachesStep(g: Graph, a: string, d: string, b: string)
    requires d in Successors(g, a) && Reaches(g, d, b)
    ensures Reaches(g, a, b)
  {
    var p :| PathBetween(g, p, d, b);
    var q := [a] + p;
    forall i | 0 <= i < |q| - 1
      ensures q[i + 1] in Successors(g, q[i])
    {
      if i > 0 {
        assert p[i - 1 + 1] in Successors(g, p[i - 1]);
      }
    }
    assert PathBetween(g, q, a, b);
  }

  /** A path is a single key, or a first edge and a shorter path. */
  lemma PathSplits(g: Graph, p: seq<string>, a: string, b: string)
    requires PathBetween(g, p, a, b)
    ensures |p| == 1 ==> a == b
    ensures |p| > 1 ==> p[1] in Successors(g, a) && PathBetween(g, p[1..], p[1], b)
  {
    if |p| > 1 {
      assert p[0 + 1] in Successors(g, p[0]);
      forall i | 0 <= i < |p[1..]| - 1
        ensures p[1..][i + 1] in Successors(g, p[1..][i])
      {
        assert p[(i + 1) + 1] in Successors(g, p[i + 1]);
      }
    }
  }

  lemma ReachesSplits(g: Graph, a: string, b: string)
    requires Reaches(g, a, b)
    ensures a == b || StrictlyReaches(g, a, b)
  {
    var p :| PathBetween(g, p, a, b);
    PathSplits(g, p, a, b);
    if |p| > 1 {
      assert Reaches(g, p[1], b);
    }
  }

  lemma {:induction false} PathThenReaches(g: Graph, p: seq<string>, a: string, b: string, c: string)
    requires PathBetween(g, p, a, b) && Reaches(g, b, c)
    ensures Reaches(g, a, c)
    decreases |p|
  {
    PathSplits(g, p, a, b);
    if |p| > 1 {
      PathThenReaches(g, p[1..], p[1], b, c);
      ReachesStep(g, a, p[1], c);
    }
  }

  lemma ReachesTransitive(g: Graph, a: string, b: string, c: string)
    requires Reaches(g, a, b) && Reaches(g, b, c)
    ensures Reaches(g, a, c)
  {
    var p :| PathBetween(g, p, a, b);
    PathThenReaches(g, p, a, b, c);
  }

  lemma {:induction false} PathStaysInside(g: Graph, p: seq<string>, a: string, b: string, s: set<string>)
    requires PathBetween(g, p, a, b) && ClosedUnder(g, s) && a in s
    ensures b in s
    decreases |p|
  {
    PathSplits(g, p, a, b);
    if |p| > 1 {
      PathStaysInside(g, p[1..], p[1], b, s);
    }
  }

  lemma ClosedSetHoldsWhatItReaches(g: Graph, a: string, b: string, s: set<string>)
    requires Reaches(g, a, b) && ClosedUnder(g, s) && a in s
    ensures b in s
  {
    var p :| PathBetween(g, p, a, b);
    PathStaysInside(g, p, a, b, s);
  }

  /** Two graphs that agree on a set closed under one of them reach the same keys from inside it. */
  lemma {:induction false} PathTransfers(g: Graph, h: Graph, p: seq<string>, a: string, b: string, s: set<string>)
    requires PathBetween(g, p, a, b) && ClosedUnder(g, s) && a in s
    requires forall k :: k in s ==> Successors(g, k) == Successors(h, k)
    ensures Reaches(h, a, b)
    decreases |p|
  {
    PathSplits(g, p, a, b);
    if |p| > 1 {
      PathTransfers(g, h, p[1..], p[1], b, s);
      ReachesStep(h, a, p[1], b);
    } else {
      ReachesSelf(h, a);
    }
  }

  /** A path that never leaves through `key` is a path of any graph differing from `g` only at `key`. */
  lemma {:induction false} PathAvoidsOrHits(g: Graph, h: Graph, key: string, p: seq<string>, a: string, b: string)
    requires PathBetween(g, p, a, b)
    requires forall k :: k != key ==> Successors(g, k) == Successors(h, k)
    ensures Reaches(h, a, b) || (Reaches(g, a, key) && Reaches(g, key, b))
    decreases |p|
  {
    PathSplits(g, p, a, b);
    if a == key {
      ReachesSelf(g, a);
    } else if |p| > 1 {
      PathAvoidsOrHits(g, h, key, p[1..], p[1], b);
      if Reaches(h, p[1], b) {
        ReachesStep(h, a, p[1], b);
      } else {
        ReachesStep(g, a, p[1], key);
      }
    } else {
      ReachesSelf(h, a);
    }
  }

  /**
   * Replacing the edges of one key of an acyclic graph leaves it acyclic exactly when no cycle can
   * be reached from that key: looking from the replaced key alone is enough.
   */
  lemma OneKeyDecides(g: Graph, h: Graph, key: string)
    requires Acyclic(g)
    requires forall k :: k != key ==> Successors(g, k) == Successors(h, k)
    ensures Acyclic(h) <==> !CycleReachableFrom(h, key)
  {
    if !Acyclic(h) {
      var c :| StrictlyReaches(h, c, c);
      var d :| d in Successors(h, c) && Reaches(h, d, c);
      if c == key {
        ReachesSelf(h, key);
      } else {
        var p :| PathBetween(h, p, d, c);
        PathAvoidsOrHits(h, g, key, p, d, c);
        assert !StrictlyReaches(g, c, c);
      }
      assert Reaches(h, key, c);
    }
  }

  /** In a closed acyclic graph, a key that is not in it cannot close a cycle with keys that are. */
  lemma FreshKeyReachesNoCycle(g: Graph, key: string, dependencies: set<string>)
    requires Acyclic(g) && ClosedUnder(g, g.Keys) && key !in g && dependencies <= g.Keys
    ensures !CycleReachableFrom(g[key := dependencies], key)
  {
    var h := g[key := dependencies];
    assert ClosedUnder(h, g.Keys);
    if StrictlyReaches(h, key, key) {
      var d :| d in Successors(h, key) && Reaches(h, d, key);
      ClosedSetHoldsWhatItReaches(h, d, key, g.Keys);
    }
    if CycleReachableFrom(h, key) {
      var c :| Reaches(h, key, c) && StrictlyReaches(h, c, c);
      ReachesSplits(h, key, c);
      if c != key {
        var d :| d in Successors(h, key) && Reaches(h, d, c);
        ClosedSetHoldsWhatItReaches(h, d, c, g.Keys);
        assert !StrictlyReaches(g, c, c);
        var e :| e in Successors(h, c) && Reaches(h, e, c);
        var p :| PathBetween(h, p, e, c);
        PathTransfers(h, g, p, e, c, g.Keys);
      }
    }
  }

  /** Taking a key's edges away closes no cycle. */
  lemma WithoutKeyStaysAcyclic(g: Graph, h: Graph, key: string)
    requires Acyclic(g) && Successors(h, key) == {}
    requires forall k :: k != key ==> Successors(g, k) == Successors(h, k)
    ensures Acyclic(h)
  {
    OneKeyDecides(g, h, key);
    if CycleReachableFrom(h, key) {
      var c :| Reaches(h, key, c) && StrictlyReaches(h, c, c);
      ReachesSplits(h, key, c);
    }
  }

  // ---------------------------------------------------------------------------------------------
  // An order in which dependencies come first

  ghost function Reached(g: Graph, k: string): set<string> {
    set d | d in g.Keys && Reaches(g, k, d)
  }

  /** How many keys a key can reach. */
  ghost function Height(g: Graph, k: string): nat {
    |Reached(g, k)|
  }

  /** A dependency reaches fewer keys than what depends on it. */
  lemma {:induction false} DependencyIsLower(g: Graph, k: string, d: string)
    requires Acyclic(g) && ClosedUnder(g, g.Keys) && k in g && d in Successors(g, k)
    ensures d in g && Height(g, d) < Height(g, k)
  {
    hide Reaches, StrictlyReaches;
    var below, above := Reached(g, d), Reached(g, k);
    forall x | x in below ensures x in above {
      ReachesStep(g, k, d, x);
    }
    ReachesSelf(g, k);
    assert k !in below by {
      assert !StrictlyReaches(g, k, k);
      NotBack(g, k, d);
    }
    ProperSubsetIsSmaller(below, above, k);
  }

  lemma {:induction false} NotBack(g: Graph, k: string, d: string)
    requires !StrictlyReaches(g, k, k) && d in Successors(g, k)
    ensures !Reaches(g, d, k)
  {
    hide Reaches;
  }

  lemma {:induction false} ProperSubsetIsSmaller(a: set<string>, b: set<string>, x: string)
    requires a <= b && x in b && x !in a
    ensures |a| < |b|
  {
    var rest := b - a;
    assert x in rest && b == a + rest;
    assert |b| == |a| + |rest|;
  }

  lemma {:induction false} HighestExists(g: Graph, s: set<string>)
    requires s != {}
    ensures exists k :: k in s && forall d :: d in s ==> Height(g, d) <= Height(g, k)
    decreases |s|
  {
    hide Height;
    var x :| x in s;
    if s == {x} {
      assert forall d :: d in s ==> Height(g, d) <= Height(g, x);
    } else {
      HighestExists(g, s - {x});
      var rest :| rest in s - {x} && forall d :: d in s - {x} ==> Height(g, d) <= Height(g, rest);
      var top := if Height(g, x) <= Height(g, rest) then rest else x;
      assert top in s && forall d :: d in s ==> Height(g, d) <= Height(g, top);
    }
  }

  /** No key of the order depends on itself or on a later one. */
  ghost predicate DependenciesFirst(g: Graph, order: seq<string>) {
    forall i, j :: 0 <= i <= j < |order| ==> order[j] !in Successors(g, order[i])
  }

  /** Every closed acyclic graph can be worked through with dependencies first. */
  lemma {:induction false} OrderExists(g: Graph, s: set<string>) returns (order: seq<string>)
    requires Acyclic(g) && ClosedUnder(g, g.Keys) && s <= g.Keys
    ensures (forall k :: k in order <==> k in s) && |order| == |s|
    ensures DependenciesFirst(g, order)
    decreases |s|
  {
    hide Acyclic, Height, ClosedUnder;
    if s == {} {
      order := [];
    } else {
      HighestExists(g, s);
      var k :| k in s && forall d :: d in s ==> Height(g, d) <= Height(g, k);
      var rest := OrderExists(g, s - {k});
      order := rest + [k];
      forall i, j | 0 <= i <= j < |order| ensures order[j] !in Successors(g, order[i]) {
        if j == |rest| {
          assert order[i] in order && order[i] in s;
          if k in Successors(g, order[i]) {
            DependencyIsLower(g, order[i], k);
          }
        }
      }
    }
  }

  /** The state of one `assert_acyclic` call: the keys on the current path, and the keys done with. */
  class Walk {
    const graph: Graph
    ghost const universe: set<string>
    var visiting: set<string>
    var settled: set<string>

    ghost predicate Valid()
      reads this
    {
      && ClosedUnder(graph, universe)
      && visiting !! settled
      && ClosedUnder(graph, settled)
      && forall k :: k in settled ==> !StrictlyReaches(graph, k, k)
    }

    constructor (graph: Graph, start: string)
      ensures this.graph == graph && visiting == {} && settled == {}
      ensures Valid() && start in universe
    {
      this.graph := graph;
      this.universe := Keys(graph) + {start};
      this.visiting := {};
      this.settled := {};
    }

    /** Settling a key whose dependencies are settled keeps the settled part closed and acyclic. */
    lemma SettleKeepsAcyclic(key: string)
      requires Valid() && key !in settled && Successors(graph, key) <= settled
      ensures !StrictlyReaches(graph, key, key)
    {
      if StrictlyReaches(graph, key, key) {
        var d :| d in Successors(graph, key) && Reaches(graph, d, key);
        ClosedSetHoldsWhatItReaches(graph, d, key, settled);
      }
    }

    /** Nothing settled can reach a cycle. */
    lemma SettledReachesNoCycle(key: string)
      requires Valid() && key in settled
      ensures !CycleReachableFrom(graph, key)
    {
      if CycleReachableFrom(graph, key) {
        var c :| Reaches(graph, key, c) && StrictlyReaches(graph, c, c);
        ClosedSetHoldsWhatItReaches(graph, key, c, settled);
      }
    }

    method Visit(key: string) returns (ok: bool)
      requires Valid() && key in universe
      requires forall v :: v in visiting ==> StrictlyReaches(graph, v, key)
      modifies this
      ensures ok <==> !CycleReachableFrom(graph, key)
      ensures ok ==> Valid() && visiting == old(visiting)
      ensures ok ==> forall k :: k in settled <==> k in old(settled) || Reaches(graph, key, k)
      decreases universe - visiting - settled
    {
      if key in settled {
        SettledReachesNoCycle(key);
        forall k | Reaches(graph, key, k) ensures k in settled {
          ClosedSetHoldsWhatItReaches(graph, key, k, settled);
        }
        return true;
      }
      if key in visiting {
        ReachesSelf(graph, key);
        return false;
      }
      visiting := visiting + {key};
      var remaining := Successors(graph, key);
      while remaining != {}
        invariant Valid() && visiting == old(visiting) + {key}
        invariant remaining <= Successors(graph, key)
        invariant Successors(graph, key) - remaining <= settled
        invariant old(settled) <= settled
        invariant forall k :: k in settled ==>
          k in old(settled) || exists d :: d in Successors(graph, key) && Reaches(graph, d, k)
        decreases remaining
      {
        var dependency :| dependency in remaining;
        ReachesSelf(graph, dependency);
        forall v | v in visiting ensures StrictlyReaches(graph, v, dependency) {
          if v != key {
            StrictlyReachesThrough(v, key, dependency);
          }
        }
        assert key in old(universe - visiting - settled) && key !in universe - visiting - settled;
        ok := Visit(dependency);
        if !ok {
          ghost var c :| Reaches(graph, dependency, c) && StrictlyReaches(graph, c, c);
          ReachesStep(graph, key, dependency, c);
          return false;
        }
        remaining := remaining - {dependency};
      }
      SettleKeepsAcyclic(key);
      visiting := visiting - {key};
      settled := settled + {key};
      SettledReachesNoCycle(key);
      forall k ensures k in settled <==> k in old(settled) || Reaches(graph, key, k) {
        if k == key {
          ReachesSelf(graph, key);
        } else if k in settled && k !in old(settled) {
          var d :| d in Successors(graph, key) && Reaches(graph, d, k);
          ReachesStep(graph, key, d, k);
        } else if Reaches(graph, key, k) {
          ClosedSetHoldsWhatItReaches(graph, key, k, settled);
        }
      }
      return true;
    }

    lemma StrictlyReachesThrough(v: string, key: string, d: string)
      requires StrictlyReaches(graph, v, key) && d in Successors(graph, key)
      ensures StrictlyReaches(graph, v, d)
    {
      var e :| e in Successors(graph, v) && Reaches(graph, e, key);
      ReachesSelf(graph, d);
      ReachesStep(graph, key, d, d);
      ReachesTransitive(graph, e, key, d);
    }
  }
}
