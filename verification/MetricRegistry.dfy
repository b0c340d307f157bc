/**
 * The registry's other writer: setting a metric's status, which validates nothing. When it keeps the
 * registry safe, and runs that mix it with reviews.
 */
module MetricRegistry {
  import opened Wrappers
  import opened Dependencies
  import E = Expressions
  import opened Candidates

  /** The registry with another status for one metric, if there is such a metric. */
  function WithStatus(registry: Registry, source: string, key: string, status: MetricStatus): Option<Registry> {
    if (source, key) in registry then Some(registry[(source, key) := registry[(source, key)].(status := status)])
    else None
  }

  class InMemoryMetricRegistry {
    var metrics: Registry

    constructor (metrics: Registry)
      ensures this.metrics == metrics
    {
      this.metrics := metrics;
    }

    /** Changes one metric's status and nothing else of it or of any other; fails where there is none. */
    method SetStatus(source: string, key: string, status: MetricStatus) returns (r: Option<Metric>)
      modifies this
      ensures r.None? <==> (source, key) !in old(metrics)
      ensures metrics.Keys == old(metrics).Keys
      ensures forall k :: k in metrics && (r.None? || k != (source, key)) ==> metrics[k] == old(metrics)[k]
      ensures r.Some? ==>
        && metrics[(source, key)] == r.value && r.value.status == status
        && r.value.(status := old(metrics)[(source, key)].status) == old(metrics)[(source, key)]
      ensures r.Some? ==> WithStatus(old(metrics), source, key, status) == Some(metrics)
    {
      if (source, key) !in metrics {
        return None;
      }
      var updated := metrics[(source, key)].(status := status);
      metrics := metrics[(source, key) := updated];
      return Some(updated);
    }
  }

  // ---------------------------------------------------------------------------------------------
  // When setting a status keeps the registry safe

  /**
   * What a caller can look up first: a metric that is to be certified has certified dependencies only,
   * and one that is to be anything else is no other certified metric's dependency.
   */
  predicate MayTake(registry: Registry, source: string, key: string, status: MetricStatus)
    requires (source, key) in registry
  {
    var g := CertifiedGraph(registry, source);
    if status.Certified? then registry[(source, key)].dependencies <= g.Keys
    else forall k :: k in g && k != key ==> key !in g[k]
  }

  lemma {:induction false} StatusGraph(
    registry: Registry, source: string, key: string, status: MetricStatus, other: string, k: string)
    requires (source, key) in registry
    ensures var m := registry[(source, key)];
      var g := CertifiedGraph(registry, other);
      var h := CertifiedGraph(registry[(source, key) := m.(status := status)], other);
      if other == source && k == key then (k in h <==> status.Certified?) && (k in h ==> h[k] == m.dependencies)
      else (k in h <==> k in g) && (k in h ==> h[k] == g[k])
  {
    CertifiedAt(registry, other, k);
    CertifiedAt(registry[(source, key) := registry[(source, key)].(status := status)], other, k);
    hide CertifiedGraph;
  }

  /** The graph once a key is certified with these dependencies. */
  lemma {:induction false} CertifyingIsSafeExactly(g: Graph, key: string, dependencies: set<string>)
    requires ClosedUnder(g, g.Keys) && Acyclic(g) && (key in g ==> g[key] == dependencies)
    ensures var h := g[key := dependencies];
      ClosedUnder(h, h.Keys) && Acyclic(h) <==> dependencies <= g.Keys
  {
    var h := g[key := dependencies];
    if key in g {
      assert h == g;
      assert Successors(g, key) == dependencies;
    } else if dependencies <= g.Keys {
      FreshKeyReachesNoCycle(g, key, dependencies);
      OneKeyDecides(g, h, key);
    } else if ClosedUnder(h, h.Keys) {
      assert Successors(h, key) == dependencies;
      ReachesSelf(h, key);
      assert StrictlyReaches(h, key, key);
    }
  }

  /** The graph once a key is certified no more. */
  lemma {:induction false} WithdrawingIsSafeExactly(g: Graph, h: Graph, key: string)
    requires ClosedUnder(g, g.Keys) && Acyclic(g)
    requires h.Keys == g.Keys - {key} && forall k :: k in h ==> h[k] == g[k]
    ensures ClosedUnder(h, h.Keys) && Acyclic(h) <==> forall k :: k in g && k != key ==> key !in g[k]
  {
    WithoutKeyStaysAcyclic(g, h, key);
    hide Acyclic;
    forall k | k in h ensures Successors(h, k) <= h.Keys <==> key !in g[k] {
      assert Successors(g, k) <= g.Keys;
    }
  }

  lemma {:induction false} StatusGraphs(registry: Registry, source: string, key: string, status: MetricStatus)
    requires (source, key) in registry
    ensures var m := registry[(source, key)];
      var after := registry[(source, key) := m.(status := status)];
      var g, h := CertifiedGraph(registry, source), CertifiedGraph(after, source);
      && (forall other :: other != source ==> CertifiedGraph(after, other) == CertifiedGraph(registry, other))
      && (status.Certified? ==> h == g[key := m.dependencies])
      && (!status.Certified? ==> h.Keys == g.Keys - {key} && forall k :: k in h ==> h[k] == g[k])
  {
    var m := registry[(source, key)];
    var after := registry[(source, key) := m.(status := status)];
    forall other | other != source ensures CertifiedGraph(after, other) == CertifiedGraph(registry, other) {
      forall k
        ensures k in CertifiedGraph(after, other) <==> k in CertifiedGraph(registry, other)
        ensures k in CertifiedGraph(after, other) ==> CertifiedGraph(after, other)[k] == CertifiedGraph(registry, other)[k]
      {
        StatusGraph(registry, source, key, status, other, k);
      }
      hide CertifiedGraph;
    }
    forall k
      ensures var g, h := CertifiedGraph(registry, source), CertifiedGraph(after, source);
        if k == key then (k in h <==> status.Certified?) && (k in h ==> h[k] == m.dependencies)
        else (k in h <==> k in g) && (k in h ==> h[k] == g[k])
    {
      StatusGraph(registry, source, key, status, source, k);
    }
    hide CertifiedGraph;
  }

  /** A status can be set without making the registry unsafe exactly when the caller's check passes. */
  lemma {:induction false} SetStatusKeepsSafeExactly(registry: Registry, source: string, key: string, status: MetricStatus)
    requires Safe(registry) && (source, key) in registry
    ensures Safe(WithStatus(registry, source, key, status).value) <==> MayTake(registry, source, key, status)
  {
    var after := WithStatus(registry, source, key, status).value;
    var g, h := CertifiedGraph(registry, source), CertifiedGraph(after, source);
    assert SafeIn(registry, source);
    CertifiedAt(registry, source, key);
    StatusGraphs(registry, source, key, status);
    hide CertifiedGraph, Acyclic, ClosedUnder;
    if status.Certified? {
      CertifyingIsSafeExactly(g, key, registry[(source, key)].dependencies);
    } else {
      WithdrawingIsSafeExactly(g, h, key);
    }
    forall other | other != source ensures SafeIn(after, other) {
      assert SafeIn(registry, other);
    }
    assert Safe(after) <==> SafeIn(after, source);
  }

  // ---------------------------------------------------------------------------------------------
  // Runs of reviews and status changes

  datatype Change =
    | Reviewing(action: Action)
    | SettingStatus(source: string, key: string, status: MetricStatus)

  /** Setting the status of a metric there is not is an error and changes nothing. */
  ghost function Changed(s: State, c: Change): State {
    match c
    case Reviewing(action) => Candidates.Apply(s, action)
    case SettingStatus(source, key, status) =>
      var after := WithStatus(s.registry, source, key, status);
      if after.Some? then s.(registry := after.value) else s
  }

  ghost function Changes(s: State, cs: seq<Change>): State {
    if cs == [] then s else Changed(Changes(s, cs[..|cs| - 1]), cs[|cs| - 1])
  }

  /** Every status set in the run passes the check at that moment. */
  ghost predicate Checked(s: State, cs: seq<Change>) {
    forall i :: 0 <= i < |cs| && cs[i].SettingStatus? && (cs[i].source, cs[i].key) in Changes(s, cs[..i]).registry ==>
      MayTake(Changes(s, cs[..i]).registry, cs[i].source, cs[i].key, cs[i].status)
  }

  ghost predicate AlwaysSafe(s: State, cs: seq<Change>) {
    forall i :: 0 <= i <= |cs| ==> Safe(Changes(s, cs[..i]).registry)
  }

  lemma {:induction false} ChangeKeepsSafeExactly(s: State, c: Change)
    requires Safe(s.registry)
    ensures Safe(Changed(s, c).registry) <==>
      (c.SettingStatus? && (c.source, c.key) in s.registry ==> MayTake(s.registry, c.source, c.key, c.status))
  {
    hide Safe, MayTake, Candidates.Apply;
    match c
    case Reviewing(action) => ApplyKeepsSafe(s, action);
    case SettingStatus(source, key, status) =>
      if (source, key) in s.registry {
        SetStatusKeepsSafeExactly(s.registry, source, key, status);
      }
  }

  /**
   * Whatever reviews and status changes a run mixes: the registry is safe at every moment of it if and
   * only if each status set passes the check at its moment. Reviews need no check.
   */
  lemma {:induction false} RunStaysSafeExactly(s: State, cs: seq<Change>)
    requires Safe(s.registry)
    ensures AlwaysSafe(s, cs) <==> Checked(s, cs)
  {
    hide Safe, MayTake, Changed;
    if cs == [] {
      assert cs[..0] == [];
    } else {
      var n := |cs| - 1;
      RunStaysSafeExactly(s, cs[..n]);
      assert cs[..|cs|] == cs;
      assert forall i :: 0 <= i <= n ==> cs[..n][..i] == cs[..i];
      assert AlwaysSafe(s, cs) <==> AlwaysSafe(s, cs[..n]) && Safe(Changes(s, cs).registry);
      if AlwaysSafe(s, cs[..n]) {
        assert cs[..n][..n] == cs[..n];
        ChangeKeepsSafeExactly(Changes(s, cs[..n]), cs[n]);
      }
    }
  }

  // ---------------------------------------------------------------------------------------------
  // A cycle among certified metrics

  /** "a" is built on "b", and "d" on "a". */
  function Chain(status: MetricStatus): Registry {
    map[("db", "a") := Base([], {"b"}).(status := status), ("db", "b") := Base([], {}), ("db", "d") := Base([], {"a"})]
  }

  function Redefined(): Proposal {
    MetricProposal("b", "B", E.MetricRef("d"), [])
  }

  /** "a" is deprecated, "b" redefined over "d" with the reviewer's approval, and "a" certified again. */
  function ClosingTheCycle(): seq<Change> {
    [SettingStatus("db", "a", Deprecated), Reviewing(ApproveMetric("db", 0, None)), SettingStatus("db", "a", Certified)]
  }

  lemma {:induction false} ChainGraph(status: MetricStatus)
    ensures var g := CertifiedGraph(Chain(status), "db");
      && g.Keys == (if status.Certified? then {"a", "b", "d"} else {"b", "d"})
      && g["b"] == {} && g["d"] == {"a"} && (status.Certified? ==> g["a"] == {"b"})
  {
    forall k ensures k in CertifiedGraph(Chain(status), "db") <==> k == "b" || k == "d" || (k == "a" && status.Certified?) {
      CertifiedAt(Chain(status), "db", k);
    }
  }

  lemma {:induction false} OtherGraph(other: string)
    requires other != "db"
    ensures CertifiedGraph(Chain(Certified), other) == map[]
  {
    forall k ensures k !in CertifiedGraph(Chain(Certified), other) {
      CertifiedAt(Chain(Certified), other, k);
    }
  }

  lemma {:induction false} NothingIsSafe()
    ensures ClosedUnder(map[], {}) && Acyclic(map[])
  {
  }

  /** Metrics certified one after the other, each over earlier ones. */
  lemma {:induction false} ChainIsSafe()
    ensures Safe(Chain(Certified))
  {
    ChainGraph(Certified);
    NothingIsSafe();
    var none: Graph := map[];
    assert none.Keys == {};
    CertifyingIsSafeExactly(none, "b", {});
    var b: Graph := none["b" := {}];
    assert b.Keys == {"b"};
    CertifyingIsSafeExactly(b, "a", {"b"});
    var ab := b["a" := {"b"}];
    assert ab.Keys == {"a", "b"};
    CertifyingIsSafeExactly(ab, "d", {"a"});
    hide CertifiedGraph, Acyclic, ClosedUnder;
    assert CertifiedGraph(Chain(Certified), "db") == ab["d" := {"a"}];
    forall other ensures SafeIn(Chain(Certified), other) {
      if other != "db" {
        OtherGraph(other);
      }
    }
  }

  /** While "a" is deprecated, nothing is held against "b" being redefined over "d". */
  lemma {:induction false} RedefinitionIsAccepted()
    ensures Refusal(Chain(Deprecated), "db", Redefined()).None?
  {
    var registry := Chain(Deprecated);
    ChainGraph(Deprecated);
    var g := CertifiedGraph(registry, "db");
    hide CertifiedGraph;
    var h := E.ProposedGraph(g, "b", E.MetricRef("d"));
    assert h["b"] == {"d"} && h["d"] == {"a"} && "a" !in h;
    if CycleReachableFrom(h, "b") {
      var c :| Reaches(h, "b", c) && StrictlyReaches(h, c, c);
      var d :| d in Successors(h, c) && Reaches(h, d, c);
      ClosedSetHoldsWhatItReaches(h, "b", c, {"b", "d", "a"});
      ClosedSetHoldsWhatItReaches(h, d, c, if c == "b" then {"d", "a"} else {"a"});
    }
  }

  lemma {:induction false} ThreeChanges(s: State, cs: seq<Change>)
    requires |cs| == 3
    ensures Changes(s, cs) == Changed(Changed(Changed(s, cs[0]), cs[1]), cs[2])
  {
    hide Changed;
    assert cs[..2][..1] == cs[..1] && cs[..1][..0] == [];
    assert Changes(s, cs[..2]) == Changed(Changes(s, cs[..1]), cs[1]);
    assert Changes(s, cs[..1]) == Changed(Changes(s, []), cs[0]);
  }

  /** The three metrics at the end, in a ring. */
  function Ring(): Registry {
    Chain(Certified)[("db", "b") := Promoted(Redefined(), 0)]
  }

  lemma {:induction false} RunEndsInRing()
    ensures Changes(State(Chain(Certified), [Edited(Redefined())]), ClosingTheCycle()).registry == Ring()
  {
    var s, cs := State(Chain(Certified), [Edited(Redefined())]), ClosingTheCycle();
    ThreeChanges(s, cs);
    RedefinitionIsAccepted();
    ApprovalOfEdited(Chain(Deprecated), Redefined());
    StatusesMeet();
    hide Changes, Candidates.Apply, Promoted, Refusal, Run, Chain, Ring, Edited;
    var deprecated := State(Chain(Deprecated), s.store);
    assert Changed(s, cs[0]) == deprecated;
    SingleAction(deprecated, ApproveMetric("db", 0, None));
  }

  lemma {:induction false} SingleAction(s: State, a: Action)
    ensures Run(s, [a]) == Candidates.Apply(s, a)
  {
    hide Candidates.Apply;
    assert Run(s, [a]) == Run(Candidates.Apply(s, a), []);
  }

  lemma {:induction false} StatusesMeet()
    ensures WithStatus(Chain(Certified), "db", "a", Deprecated) == Some(Chain(Deprecated))
    ensures WithStatus(Chain(Deprecated)[("db", "b") := Promoted(Redefined(), 0)], "db", "a", Certified) == Some(Ring())
  {
    hide Promoted;
    var m, renamed := Base([], {"b"}), Promoted(Redefined(), 0);
    assert Chain(Certified)[("db", "a")] == m;
    assert Chain(Certified)[("db", "a") := m.(status := Deprecated)] == Chain(Deprecated);
    var overwritten := Chain(Deprecated)[("db", "b") := renamed];
    assert overwritten[("db", "a")] == m.(status := Deprecated);
    assert overwritten[("db", "a") := m] == Ring();
  }

  /** So certified metrics can come to depend on each other in a ring, which no review alone can do. */
  lemma {:induction false} StatusChangesCanCloseACycle()
    ensures var s := State(Chain(Certified), [Edited(Redefined())]);
      Safe(s.registry) && !Safe(Changes(s, ClosingTheCycle()).registry)
    ensures StrictlyReaches(CertifiedGraph(Ring(), "db"), "a", "a")
  {
    ChainIsSafe();
    RunEndsInRing();
    ChainGraph(Certified);
    PromotionGraph(Chain(Certified), "db", "b", Promoted(Redefined(), 0), "db");
    var g := CertifiedGraph(Ring(), "db");
    hide CertifiedGraph, Changes;
    assert g["a"] == {"b"} && g["b"] == {"d"} && g["d"] == {"a"};
    ReachesSelf(g, "a");
    ReachesStep(g, "d", "a", "a");
    ReachesStep(g, "b", "d", "a");
    assert StrictlyReaches(g, "a", "a");
    assert !SafeIn(Ring(), "db");
  }
}
