/**
 * What a turn looks up about entity values: only trusted lookups, and, for a turn that asks back or
 * refuses, exactly when it has sent any.
 */
module WorkflowLookups {
  import opened Wrappers
  import opened Workflow
  import L = EntityLookup
  import S = SearchTerms
  import opened Discovery

  // ---------------------------------------------------------------------------------------------
  // Only trusted lookups

  /** Over columns someone reviewed and the caller may read, for this turn's question or up to four of its words. */
  ghost predicate Allowed(turn: Turn, l: L.Lookup) {
    && L.Reviewed(turn.source.rules, turn.source.model, turn.source.tables, l.binding)
    && |l.term| >= S.MIN_SEARCH_LENGTH && S.IsFragment(turn.source.rules.kinds, turn.question, l.term)
  }

  ghost predicate AllAllowed(turn: Turn, ls: seq<L.Lookup>) {
    forall l :: l in ls ==> Allowed(turn, l)
  }

  ghost predicate LooksUpAllowed(turn: Turn, events: seq<Event>) {
    forall e :: e in events && e.LookedUp? ==> Allowed(turn, e.lookup)
  }

  lemma {:induction false} ResolveIsAllowed(turn: Turn, concept: Option<string>)
    ensures AllAllowed(turn, L.Resolve(turn.source, turn.question, concept).1)
  {
    L.OnlyTrustedLookups(turn.source, turn.question, concept);
    hide L.Resolve, L.Reviewed, S.IsFragment, L.Reachable, L.Trusted;
  }

  lemma {:induction false} NarrowIsAllowed(turn: Turn, dimensions: seq<(string, string)>, filters: seq<Filter>)
    ensures AllAllowed(turn, Narrow(turn, dimensions, filters).1)
    decreases |dimensions|
  {
    hide Allowed, L.Resolve;
    if dimensions != [] {
      var r := L.Resolve(turn.source, turn.question, Some(dimensions[0].1));
      ResolveIsAllowed(turn, Some(dimensions[0].1));
      if r.0.Some? && |r.0.value| <= 1 {
        var narrowed := if r.0.value == [] then filters
          else PutFilter(filters, Filter(dimensions[0].0, r.0.value[0].displayValue));
        NarrowIsAllowed(turn, dimensions[1..], narrowed);
      }
    }
  }

  lemma {:induction false} PlanIsAllowed(turn: Turn, dimensions: seq<string>)
    ensures AllAllowed(turn, PlanLookups(turn, dimensions).1)
  {
    hide Allowed, L.Resolve;
    if dimensions != [] {
      ResolveIsAllowed(turn, Some(dimensions[0]));
      PlanIsAllowed(turn, dimensions[1..]);
    }
  }

  lemma {:induction false} SentIsAllowed(turn: Turn, ls: seq<L.Lookup>)
    requires AllAllowed(turn, ls)
    ensures LooksUpAllowed(turn, Sent(ls))
  {
    hide Allowed;
    forall e | e in Sent(ls) ensures Allowed(turn, e.lookup) {
      var i :| 0 <= i < |ls| && Sent(ls)[i] == e;
    }
  }

  lemma {:induction false} QuestionIsAllowed(cfg: Config, turn: Turn, s: AgentState)
    ensures LooksUpAllowed(turn, ResolveQuestionEntities(cfg, turn, s).events)
  {
    ResolveIsAllowed(turn, None);
    SentIsAllowed(turn, QuestionEntities(cfg, turn).1);
    hide Allowed, L.Resolve, WithEntities, Sent, QuestionEntities;
  }

  lemma {:induction false} NarrowingIsAllowed(cfg: Config, turn: Turn, s: AgentState)
    ensures LooksUpAllowed(turn, ResolveMetricEntities(cfg, turn, s).events)
  {
    hide Allowed, Narrow, Sent, DimensionsToResolve, WithFilters;
    if s.metricQuery.Some? {
      var dimensions := DimensionsToResolve(turn, [s.metricQuery.value] + s.additionalQueries);
      NarrowIsAllowed(turn, dimensions, []);
      SentIsAllowed(turn, Narrow(turn, dimensions, []).1);
    }
  }

  lemma {:induction false} PlanningIsAllowed(cfg: Config, turn: Turn, s: AgentState)
    ensures LooksUpAllowed(turn, PlanMetricRequest(cfg, turn, s).events)
  {
    hide Allowed, PlanLookups, Sent;
    var dimensions := if cfg.plannerEntityValues then turn.route.planDimensions else [];
    PlanIsAllowed(turn, dimensions);
    SentIsAllowed(turn, PlanLookups(turn, dimensions).1);
  }

  lemma {:induction false} LookupNodes(cfg: Config, turn: Turn, s: AgentState)
    ensures VisitNode(cfg, turn, RESOLVE_QUESTION_ENTITIES, s) == ResolveQuestionEntities(cfg, turn, s)
    ensures VisitNode(cfg, turn, RESOLVE_METRIC_ENTITIES, s) == ResolveMetricEntities(cfg, turn, s)
    ensures VisitNode(cfg, turn, PLAN_METRIC_REQUEST, s) == PlanMetricRequest(cfg, turn, s)
  {
    hide ResolveQuestionEntities, ResolveMetricEntities, PlanMetricRequest;
  }

  lemma {:induction false} VisitIsAllowed(cfg: Config, turn: Turn, node: Node, s: AgentState)
    ensures LooksUpAllowed(turn, VisitNode(cfg, turn, node, s).events)
  {
    hide VisitNode, ResolveQuestionEntities, ResolveMetricEntities, PlanMetricRequest, Allowed;
    if LooksUpAt(node) {
      LookupNodes(cfg, turn, s);
      QuestionIsAllowed(cfg, turn, s);
      NarrowingIsAllowed(cfg, turn, s);
      PlanningIsAllowed(cfg, turn, s);
    } else {
      OtherNodesLookNothingUp(cfg, turn, node, s);
    }
  }

  lemma {:induction false} OtherNodesLookNothingUp(cfg: Config, turn: Turn, node: Node, s: AgentState)
    requires !LooksUpAt(node)
    ensures forall e :: e in VisitNode(cfg, turn, node, s).events ==> !e.LookedUp?
  {
    hide VisitNode;
    if node == EXECUTE_METRIC {
      MetricEvents(cfg, turn, s);
    } else {
      VisitSendsOne(cfg, turn, node, s);
    }
  }

  lemma {:induction false} RunIsAllowed(cfg: Config, turn: Turn, node: Node, s: AgentState)
    ensures LooksUpAllowed(turn, RunFrom(cfg, turn, node, s).events)
    decreases Rank(node, s.repairAttempted)
  {
    hide VisitNode, NextNode, Allowed;
    var visit := VisitNode(cfg, turn, node, s);
    VisitIsAllowed(cfg, turn, node, s);
    if visit.Updated? && node != RECORD_CONTEXT {
      EdgesDescend(cfg, turn, node, s);
      RunIsAllowed(cfg, turn, NextNode(cfg, node, visit.state), visit.state);
    }
  }

  /** From any leftover state: every lookup of a turn is over reviewed, authorized columns, for its own question or words. */
  lemma {:induction false} OnlyTrustedLookupsAreSent(cfg: Config, turn: Turn, leftover: AgentState)
    ensures LooksUpAllowed(turn, RunTurn(cfg, turn, leftover).events)
  {
    RunIsAllowed(cfg, turn, PREPARE_REQUEST, leftover);
  }

  // ---------------------------------------------------------------------------------------------
  // How many

  /** The most lookups one resolution can send. */
  function PerResolution(turn: Turn): nat {
    32 * |L.Reachable(turn.source, None)|
  }

  /** How many entity dimensions this turn's metrics have, where it looks them up. */
  function DimensionsAhead(cfg: Config, turn: Turn): nat {
    if cfg.semanticGoverned then
      if turn.intent.MetricPlan? then |DimensionsToResolve(turn, [turn.intent.primary] + turn.intent.extra)| else 0
    else if cfg.plannerEntityValues then |turn.route.planDimensions|
    else 0
  }

  lemma {:induction false} OneMore(n: nat, per: nat)
    requires n > 0
    ensures (n - 1) * per + per == n * per && per <= n * per
  {
    assert (n - 1) * per >= 0;
  }

  lemma {:induction false} NarrowsLength(turn: Turn, es: seq<Entity>, concept: Option<string>)
    ensures var s := turn.source;
      |L.BindingsOf(s.rules, s.model, s.tables, concept, es)| <= |L.BindingsOf(s.rules, s.model, s.tables, None, es)|
  {
    if es != [] {
      NarrowsLength(turn, es[1..], concept);
      hide L.FirstAttribute;
    }
  }

  lemma {:induction false} ResolveIsBounded(turn: Turn, concept: Option<string>)
    ensures |L.Resolve(turn.source, turn.question, concept).1| <= PerResolution(turn)
  {
    L.OnlyTrustedLookups(turn.source, turn.question, concept);
    NarrowsLength(turn, turn.source.model.entities, concept);
    hide L.Resolve, L.BindingsOf;
  }

  lemma {:induction false} NarrowIsBounded(turn: Turn, dimensions: seq<(string, string)>, filters: seq<Filter>)
    ensures |Narrow(turn, dimensions, filters).1| <= |dimensions| * PerResolution(turn)
    decreases |dimensions|
  {
    hide L.Resolve, PerResolution;
    if dimensions != [] {
      var r := L.Resolve(turn.source, turn.question, Some(dimensions[0].1));
      ResolveIsBounded(turn, Some(dimensions[0].1));
      OneMore(|dimensions|, PerResolution(turn));
      if r.0.Some? && |r.0.value| <= 1 {
        var narrowed := if r.0.value == [] then filters
          else PutFilter(filters, Filter(dimensions[0].0, r.0.value[0].displayValue));
        NarrowIsBounded(turn, dimensions[1..], narrowed);
      }
    }
  }

  lemma {:induction false} PlanIsBounded(turn: Turn, dimensions: seq<string>)
    ensures |PlanLookups(turn, dimensions).1| <= |dimensions| * PerResolution(turn)
  {
    hide L.Resolve, PerResolution;
    if dimensions != [] {
      ResolveIsBounded(turn, Some(dimensions[0]));
      OneMore(|dimensions|, PerResolution(turn));
      PlanIsBounded(turn, dimensions[1..]);
    }
  }

  /** The dimensions to resolve are those of the metrics, whatever else the queries say. */
  lemma {:induction false} DimensionsByMetric(turn: Turn, a: seq<MetricQuery>, b: seq<MetricQuery>)
    requires Metrics(a) == Metrics(b)
    ensures DimensionsToResolve(turn, a) == DimensionsToResolve(turn, b)
  {
    hide EntityDimensions;
    if a != [] {
      assert Metrics(a) == [a[0].metric] + Metrics(a[1..]);
      assert b != [] && Metrics(b) == [b[0].metric] + Metrics(b[1..]);
      assert Metrics(a[1..]) == Metrics(a)[1..] == Metrics(b)[1..] == Metrics(b[1..]);
      DimensionsByMetric(turn, a[1..], b[1..]);
    } else {
      assert Metrics(a) == [];
    }
  }

  const IsLookup: Event -> bool := (e: Event) => e.LookedUp?

  lemma {:induction false} CountAtMost(events: seq<Event>)
    ensures Count(events, IsLookup) <= |events|
    ensures (forall e :: e in events ==> !e.LookedUp?) ==> Count(events, IsLookup) == 0
  {
    if events != [] {
      CountAtMost(events[1..]);
      assert events[0] in events;
    }
  }

  /** Resolutions still possible from a node on. */
  function ResolutionsAhead(cfg: Config, turn: Turn, node: Node): nat {
    match node
    case PREPARE_REQUEST => 1 + DimensionsAhead(cfg, turn)
    case AUTHORIZE_REQUEST => 1 + DimensionsAhead(cfg, turn)
    case RESOLVE_QUESTION_ENTITIES => 1 + DimensionsAhead(cfg, turn)
    case ROUTE_QUERY => DimensionsAhead(cfg, turn)
    case PLAN_METRIC_INTENT => DimensionsAhead(cfg, turn)
    case RESOLVE_METRIC_ENTITIES => DimensionsAhead(cfg, turn)
    case PLAN_METRIC_REQUEST => DimensionsAhead(cfg, turn)
    case _ => 0
  }

  /** How many resolutions one node can make. */
  function ResolutionsAt(cfg: Config, turn: Turn, node: Node): nat {
    if node == RESOLVE_QUESTION_ENTITIES then 1
    else if node == RESOLVE_METRIC_ENTITIES || node == PLAN_METRIC_REQUEST then DimensionsAhead(cfg, turn)
    else 0
  }

  lemma {:induction false} ResolutionsStep(cfg: Config, turn: Turn, node: Node, s: AgentState)
    requires node != RECORD_CONTEXT
    ensures ResolutionsAt(cfg, turn, node) + ResolutionsAhead(cfg, turn, NextNode(cfg, node, s))
         <= ResolutionsAhead(cfg, turn, node)
  {
    hide DimensionsAhead;
  }

  lemma {:induction false} QuestionIsBounded(cfg: Config, turn: Turn, s: AgentState)
    ensures |ResolveQuestionEntities(cfg, turn, s).events| <= PerResolution(turn)
  {
    ResolveIsBounded(turn, None);
    hide L.Resolve, PerResolution, WithEntities;
  }

  lemma {:induction false} NarrowingDimensions(cfg: Config, turn: Turn, leftover: AgentState, s: AgentState)
    requires MetricsAreOurs(cfg, turn, leftover, RESOLVE_METRIC_ENTITIES, s)
    ensures s.metricQuery.Some?
    ensures |DimensionsToResolve(turn, [s.metricQuery.value] + s.additionalQueries)| == DimensionsAhead(cfg, turn)
  {
    hide DimensionsToResolve, Metrics;
    MetricsCons(s.metricQuery.value, s.additionalQueries);
    assert turn.intent.MetricPlan?;
    DimensionsByMetric(turn, [s.metricQuery.value] + s.additionalQueries, [turn.intent.primary] + turn.intent.extra);
  }

  lemma {:induction false} NarrowingIsBounded(cfg: Config, turn: Turn, leftover: AgentState, s: AgentState)
    requires MetricsAreOurs(cfg, turn, leftover, RESOLVE_METRIC_ENTITIES, s)
    ensures |ResolveMetricEntities(cfg, turn, s).events| <= DimensionsAhead(cfg, turn) * PerResolution(turn)
  {
    hide Narrow, DimensionsToResolve, PerResolution, WithFilters, MetricsAreOurs, DimensionsAhead;
    NarrowingDimensions(cfg, turn, leftover, s);
    NarrowIsBounded(turn, DimensionsToResolve(turn, [s.metricQuery.value] + s.additionalQueries), []);
    assert DimensionsAhead(cfg, turn) * PerResolution(turn) >= 0;
  }

  lemma {:induction false} PlanningIsBounded(cfg: Config, turn: Turn, s: AgentState)
    requires !cfg.semanticGoverned
    ensures |PlanMetricRequest(cfg, turn, s).events| <= DimensionsAhead(cfg, turn) * PerResolution(turn)
  {
    PlanIsBounded(turn, if cfg.plannerEntityValues then turn.route.planDimensions else []);
    hide PlanLookups, PerResolution;
  }

  lemma {:induction false} VisitIsBounded(cfg: Config, turn: Turn, leftover: AgentState, node: Node, s: AgentState)
    requires MetricsAreOurs(cfg, turn, leftover, node, s)
    ensures Count(VisitNode(cfg, turn, node, s).events, IsLookup) <= ResolutionsAt(cfg, turn, node) * PerResolution(turn)
  {
    hide VisitNode, ResolveQuestionEntities, ResolveMetricEntities, PlanMetricRequest, PerResolution, DimensionsAhead, Count;
    var events := VisitNode(cfg, turn, node, s).events;
    CountAtMost(events);
    OneMore(1, PerResolution(turn));
    LookupNodes(cfg, turn, s);
    if node == RESOLVE_QUESTION_ENTITIES {
      QuestionIsBounded(cfg, turn, s);
    } else if node == RESOLVE_METRIC_ENTITIES {
      NarrowingIsBounded(cfg, turn, leftover, s);
    } else if node == PLAN_METRIC_REQUEST {
      PlanningIsBounded(cfg, turn, s);
    } else {
      OtherNodesLookNothingUp(cfg, turn, node, s);
    }
  }

  lemma {:induction false} Share(a: nat, b: nat, c: nat, per: nat)
    requires a + b <= c
    ensures a * per + b * per <= c * per
  {
    assert (c - a - b) * per >= 0;
  }

  lemma {:induction false} RunIsBounded(cfg: Config, turn: Turn, leftover: AgentState, node: Node, s: AgentState)
    requires MetricsAreOurs(cfg, turn, leftover, node, s)
    ensures Count(RunFrom(cfg, turn, node, s).events, IsLookup) <= ResolutionsAhead(cfg, turn, node) * PerResolution(turn)
    decreases Rank(node, s.repairAttempted)
  {
    hide VisitNode, NextNode, MetricsAreOurs, PerResolution, ResolutionsAhead, ResolutionsAt, Count;
    var visit := VisitNode(cfg, turn, node, s);
    VisitIsBounded(cfg, turn, leftover, node, s);
    if visit.Updated? && node != RECORD_CONTEXT {
      EdgesDescend(cfg, turn, node, s);
      MetricsStep(cfg, turn, leftover, node, s);
      var next := NextNode(cfg, node, visit.state);
      RunIsBounded(cfg, turn, leftover, next, visit.state);
      CountConcat(visit.events, RunFrom(cfg, turn, next, visit.state).events, IsLookup);
      ResolutionsStep(cfg, turn, node, visit.state);
      Share(ResolutionsAt(cfg, turn, node), ResolutionsAhead(cfg, turn, next), ResolutionsAhead(cfg, turn, node),
            PerResolution(turn));
    } else {
      LastResolutions(cfg, turn, node);
      Share(ResolutionsAt(cfg, turn, node), 0, ResolutionsAhead(cfg, turn, node), PerResolution(turn));
    }
  }

  lemma {:induction false} LastResolutions(cfg: Config, turn: Turn, node: Node)
    ensures ResolutionsAt(cfg, turn, node) <= ResolutionsAhead(cfg, turn, node)
  {
    hide DimensionsAhead;
  }

  /**
   * From any leftover state: a turn sends at most 32 lookups for each entity it can read, once for
   * the question and once for each entity dimension of the metrics it planned.
   */
  lemma {:induction false} LookupsAreBounded(cfg: Config, turn: Turn, leftover: AgentState)
    ensures Count(RunTurn(cfg, turn, leftover).events, IsLookup)
         <= (1 + DimensionsAhead(cfg, turn)) * (32 * |L.Reachable(turn.source, None)|)
  {
    RunIsBounded(cfg, turn, leftover, PREPARE_REQUEST, leftover);
    hide RunFrom, Count, DimensionsAhead;
  }

  // ---------------------------------------------------------------------------------------------
  // When a turn that asks or refuses has looked something up

  ghost predicate SomeLookup(events: seq<Event>) {
    exists e :: e in events && e.LookedUp?
  }

  /** A gateway is configured, some reviewed entity can be read, and the question is long enough to search for. */
  predicate CanLookUp(cfg: Config, turn: Turn) {
    && cfg.entityValues
    && L.Reachable(turn.source, None) != [] && L.Searchable(turn.source, turn.question)
  }

  /** The router lets the question through to semantic planning. */
  predicate LetThrough(cfg: Config, turn: Turn) {
    && cfg.semanticGoverned
    && (turn.route.unauthorizedMetric || turn.route.route == GovernedMetric || turn.route.route == AdhocAnalytics)
  }

  /** Semantic planning is reached and chooses metrics. */
  predicate PlansMetrics(cfg: Config, turn: Turn) {
    cfg.routerEnabled && LetThrough(cfg, turn) && turn.intent.MetricPlan?
  }

  /** Whether a turn that goes on from this node to ask or refuse looks something up first. */
  predicate Ahead(cfg: Config, turn: Turn, node: Node, s: AgentState) {
    match node
    case PREPARE_REQUEST =>
      CanLookUp(cfg, turn) && (ResumeClarified(turn, s.context).1 == [] || PlansMetrics(cfg, turn))
    case AUTHORIZE_REQUEST => CanLookUp(cfg, turn) && (s.pinnedEntities == [] || PlansMetrics(cfg, turn))
    case RESOLVE_QUESTION_ENTITIES => CanLookUp(cfg, turn) && (s.pinnedEntities == [] || PlansMetrics(cfg, turn))
    case ROUTE_QUERY => CanLookUp(cfg, turn) && LetThrough(cfg, turn) && turn.intent.MetricPlan?
    case PLAN_METRIC_INTENT => CanLookUp(cfg, turn) && turn.intent.MetricPlan?
    case RESOLVE_METRIC_ENTITIES => CanLookUp(cfg, turn)
    case _ => false
  }

  /** The nodes from which nothing is looked up any more. */
  predicate Late(node: Node) {
    || node == RETRIEVE_SCHEMA || node == GENERATE_SQL || node == VALIDATE_SQL || node == REPAIR_SQL
    || node == EXECUTE_SQL || node == CLARIFY || node == BLOCK || node == GROUND_ANSWER
    || node == FINALIZE_SQL_RESULT || node == RECORD_CONTEXT
  }

  lemma {:induction false} LateStaysLate(cfg: Config, node: Node, s: AgentState)
    requires Late(node)
    ensures Late(NextNode(cfg, node, s))
  {
  }

  lemma {:induction false} LateLooksNothingUp(cfg: Config, turn: Turn, node: Node, s: AgentState)
    requires Late(node)
    ensures !SomeLookup(RunFrom(cfg, turn, node, s).events)
    decreases Rank(node, s.repairAttempted)
  {
    hide VisitNode, NextNode;
    var visit := VisitNode(cfg, turn, node, s);
    OtherNodesLookNothingUp(cfg, turn, node, s);
    if visit.Updated? && node != RECORD_CONTEXT {
      EdgesDescend(cfg, turn, node, s);
      LateStaysLate(cfg, node, visit.state);
      LateLooksNothingUp(cfg, turn, NextNode(cfg, node, visit.state), visit.state);
    }
  }

  lemma {:induction false} SentSomething(ls: seq<L.Lookup>)
    ensures SomeLookup(Sent(ls)) <==> ls != []
  {
    if ls != [] {
      assert Sent(ls)[0] in Sent(ls);
    }
  }

  /** The first resolution of a turn looks something up exactly when there is anything to look up. */
  lemma {:induction false} QuestionLooksUpExactly(cfg: Config, turn: Turn, s: AgentState)
    ensures SomeLookup(ResolveQuestionEntities(cfg, turn, s).events) <==> s.pinnedEntities == [] && CanLookUp(cfg, turn)
  {
    L.OnlyTrustedLookups(turn.source, turn.question, None);
    SentSomething(QuestionEntities(cfg, turn).1);
    hide L.Resolve, L.Reachable, L.Searchable, Sent, WithEntities;
  }

  /** An ambiguous metric dimension was looked up, and so could be. */
  lemma {:induction false} AmbiguityWasLookedUp(turn: Turn, dimensions: seq<(string, string)>, filters: seq<Filter>)
    ensures var r := Narrow(turn, dimensions, filters);
      && (r.0.AmbiguousValue? ==> r.1 != [])
      && (r.1 != [] ==> L.Reachable(turn.source, None) != [] && L.Searchable(turn.source, turn.question))
    decreases |dimensions|
  {
    hide L.Resolve, L.Reachable, L.Searchable;
    if dimensions != [] {
      var concept := Some(dimensions[0].1);
      var r := L.Resolve(turn.source, turn.question, concept);
      L.OnlyTrustedLookups(turn.source, turn.question, concept);
      L.ConceptNarrows(turn.source, concept);
      L.ChoicesWereFound(turn.source, turn.question, concept);
      if r.0.Some? && |r.0.value| <= 1 {
        var narrowed := if r.0.value == [] then filters
          else PutFilter(filters, Filter(dimensions[0].0, r.0.value[0].displayValue));
        AmbiguityWasLookedUp(turn, dimensions[1..], narrowed);
      }
    }
  }

  function NarrowingOf(turn: Turn, s: AgentState): (Narrowing, seq<L.Lookup>)
    requires s.metricQuery.Some?
  {
    Narrow(turn, DimensionsToResolve(turn, [s.metricQuery.value] + s.additionalQueries), [])
  }

  lemma {:induction false} NarrowingOutcome(cfg: Config, turn: Turn, s: AgentState)
    requires ResolveMetricEntities(cfg, turn, s).Updated?
    ensures var v := ResolveMetricEntities(cfg, turn, s);
      || (v.state.executionRoute == GovernedMetric
          && v.state.needsClarification == s.needsClarification && v.state.modelAction == s.modelAction)
      || (v.state.executionRoute == ClarifyRoute && cfg.entityValues && s.metricQuery.Some?
          && NarrowingOf(turn, s).0.AmbiguousValue? && v.events == Sent(NarrowingOf(turn, s).1))
  {
    hide Narrow, Sent, DimensionsToResolve, WithFilters;
  }

  /** Narrowing that does not go on to query has looked something up; that is when it asks. */
  lemma {:induction false} NarrowingAsksOrGoesOn(cfg: Config, turn: Turn, s: AgentState)
    requires ResolveMetricEntities(cfg, turn, s).Updated? && !s.needsClarification && s.modelAction == Execute
    ensures var v := ResolveMetricEntities(cfg, turn, s);
      || (v.state.executionRoute == GovernedMetric && !v.state.needsClarification && v.state.modelAction == Execute)
      || (v.state.executionRoute == ClarifyRoute && SomeLookup(v.events) && CanLookUp(cfg, turn))
  {
    hide ResolveMetricEntities, Narrow, Sent, DimensionsToResolve, L.Reachable, L.Searchable, SomeLookup;
    NarrowingOutcome(cfg, turn, s);
    if s.metricQuery.Some? {
      AmbiguityWasLookedUp(turn, DimensionsToResolve(turn, [s.metricQuery.value] + s.additionalQueries), []);
      SentSomething(NarrowingOf(turn, s).1);
    }
  }

  /** The turn was recorded as needing clarification or as blocked. */
  ghost predicate AsksOrRefuses(x: Execution) {
    && x.ending == Completed
    && x.state.context.Some? && x.state.context.value.clarificationState != NotNeeded
  }

  lemma {:induction false} QueryingNeedsNothing(cfg: Config, turn: Turn, s: AgentState)
    requires !s.needsClarification && s.modelAction == Execute
    ensures !AsksOrRefuses(RunFrom(cfg, turn, EXECUTE_METRIC, s))
  {
    var visit := VisitNode(cfg, turn, EXECUTE_METRIC, s);
    if visit.Updated? {
      ActedThenAnswers(cfg, turn, EXECUTE_METRIC, s);
      AnsweredNeedsNothing(cfg, turn, NextNode(cfg, EXECUTE_METRIC, s), s);
    }
    hide VisitNode, NextNode;
  }

  lemma {:induction false} PlanningNeedsNothing(cfg: Config, turn: Turn, s: AgentState)
    requires !s.needsClarification && s.modelAction == Execute
    ensures !AsksOrRefuses(RunFrom(cfg, turn, PLAN_METRIC_REQUEST, s))
  {
    var visit := VisitNode(cfg, turn, PLAN_METRIC_REQUEST, s);
    if visit.Updated? {
      QueryingNeedsNothing(cfg, turn, visit.state);
    }
    hide PlanMetricRequest, AsksOrRefuses;
    assert visit.Updated? ==> NextNode(cfg, PLAN_METRIC_REQUEST, visit.state) == EXECUTE_METRIC;
    AfterVisit(cfg, turn, PLAN_METRIC_REQUEST, s);
  }

  /** A run is a visit and, unless that fails or is the last, the run from the next node. */
  lemma {:induction false} AfterVisit(cfg: Config, turn: Turn, node: Node, s: AgentState)
    requires node != RECORD_CONTEXT
    ensures var visit, x := VisitNode(cfg, turn, node, s), RunFrom(cfg, turn, node, s);
      if visit.Raised? then !AsksOrRefuses(x)
      else
        var rest := RunFrom(cfg, turn, NextNode(cfg, node, visit.state), visit.state);
        && x.events == visit.events + rest.events
        && (AsksOrRefuses(x) <==> AsksOrRefuses(rest))
        && (SomeLookup(x.events) <==> SomeLookup(visit.events) || SomeLookup(rest.events))
  {
    hide VisitNode, NextNode;
    var visit := VisitNode(cfg, turn, node, s);
    if visit.Updated? {
      EdgesDescend(cfg, turn, node, s);
      EitherLooksUp(visit.events, RunFrom(cfg, turn, NextNode(cfg, node, visit.state), visit.state).events);
      hide SomeLookup;
    }
  }

  lemma {:induction false} EitherLooksUp(a: seq<Event>, b: seq<Event>)
    ensures SomeLookup(a + b) <==> SomeLookup(a) || SomeLookup(b)
  {
  }

  /** One step keeps the account: what is ahead of a node is what it looks up or what is ahead of the next. */
  lemma {:induction false} AheadOfNext(cfg: Config, turn: Turn, node: Node, s: AgentState)
    requires Working(node, s) && VisitNode(cfg, turn, node, s).Updated?
    requires !Late(node) && node != PLAN_METRIC_REQUEST && node != EXECUTE_METRIC && node != RESOLVE_METRIC_ENTITIES
    ensures var visit := VisitNode(cfg, turn, node, s);
      Ahead(cfg, turn, node, s) <==>
        SomeLookup(visit.events) || Ahead(cfg, turn, NextNode(cfg, node, visit.state), visit.state)
  {
    hide CanLookUp, ResumeClarified, ResolveQuestionEntities, PlanMetricIntent, RouteQuery;
    match node {
      case PREPARE_REQUEST => assert VisitNode(cfg, turn, node, s).events == [];
      case AUTHORIZE_REQUEST => assert VisitNode(cfg, turn, node, s).events == [];
      case RESOLVE_QUESTION_ENTITIES =>
        AheadOfResolving(cfg, turn, s);
      case ROUTE_QUERY => AheadOfRouting(cfg, turn, s);
      case PLAN_METRIC_INTENT => AheadOfPlanning(cfg, turn, s);
    }
  }

  lemma {:induction false} AheadOfResolving(cfg: Config, turn: Turn, s: AgentState)
    requires !s.needsClarification && ResolveQuestionEntities(cfg, turn, s).Updated?
    ensures var visit := ResolveQuestionEntities(cfg, turn, s);
      Ahead(cfg, turn, RESOLVE_QUESTION_ENTITIES, s) <==>
        || SomeLookup(visit.events)
        || Ahead(cfg, turn, NextNode(cfg, RESOLVE_QUESTION_ENTITIES, visit.state), visit.state)
  {
    QuestionLooksUpExactly(cfg, turn, s);
    hide QuestionEntities, WithEntities, Sent, CanLookUp, SomeLookup, ResumeClarified;
  }

  lemma {:induction false} AheadOfRouting(cfg: Config, turn: Turn, s: AgentState)
    requires RouteQuery(cfg, turn, s).Updated?
    ensures var visit := RouteQuery(cfg, turn, s);
      && !SomeLookup(visit.events)
      && (Ahead(cfg, turn, ROUTE_QUERY, s) <==> Ahead(cfg, turn, NextNode(cfg, ROUTE_QUERY, visit.state), visit.state))
  {
    hide CanLookUp, ResumeClarified;
  }

  lemma {:induction false} AheadOfPlanning(cfg: Config, turn: Turn, s: AgentState)
    ensures var after := PlanMetricIntent(turn, s);
      Ahead(cfg, turn, PLAN_METRIC_INTENT, s) <==> Ahead(cfg, turn, NextNode(cfg, PLAN_METRIC_INTENT, after), after)
  {
    hide CanLookUp, ResumeClarified;
  }

  lemma {:induction false} NarrowingLooksUp(cfg: Config, turn: Turn, s: AgentState)
    requires !s.needsClarification && s.modelAction == Execute
    ensures var x := RunFrom(cfg, turn, RESOLVE_METRIC_ENTITIES, s);
      AsksOrRefuses(x) ==> SomeLookup(x.events) && CanLookUp(cfg, turn)
  {
    AfterVisit(cfg, turn, RESOLVE_METRIC_ENTITIES, s);
    var visit := VisitNode(cfg, turn, RESOLVE_METRIC_ENTITIES, s);
    LookupNodes(cfg, turn, s);
    hide ResolveMetricEntities, AsksOrRefuses, SomeLookup, CanLookUp, VisitNode;
    if visit.Updated? {
      NarrowingAsksOrGoesOn(cfg, turn, s);
      if visit.state.executionRoute == GovernedMetric {
        QueryingNeedsNothing(cfg, turn, visit.state);
      }
    }
  }

  lemma {:induction false} RunLooksUpExactly(cfg: Config, turn: Turn, node: Node, s: AgentState)
    requires Working(node, s)
    ensures var x := RunFrom(cfg, turn, node, s);
      AsksOrRefuses(x) ==> (SomeLookup(x.events) <==> Ahead(cfg, turn, node, s))
    decreases Rank(node, s.repairAttempted)
  {
    hide VisitNode, NextNode, SomeLookup, AsksOrRefuses, CanLookUp, PlansMetrics, LetThrough, ResumeClarified;
    var visit := VisitNode(cfg, turn, node, s);
    if Late(node) {
      LateLooksNothingUp(cfg, turn, node, s);
    } else if node == RESOLVE_METRIC_ENTITIES {
      NarrowingLooksUp(cfg, turn, s);
    } else if node == EXECUTE_METRIC {
      QueryingNeedsNothing(cfg, turn, s);
    } else if node == PLAN_METRIC_REQUEST {
      PlanningNeedsNothing(cfg, turn, s);
    } else {
      AfterVisit(cfg, turn, node, s);
      if visit.Updated? {
        EdgesDescend(cfg, turn, node, s);
        WorkingStep(cfg, turn, node, s);
        AheadOfNext(cfg, turn, node, s);
        hide Working, Ahead, RunFrom;
        RunLooksUpExactly(cfg, turn, NextNode(cfg, node, visit.state), visit.state);
      }
    }
  }

  /**
   * A turn that asks back or refuses has executed no model-written SQL and queried no metric. It has
   * sent lookups exactly when it could and either was no reply or was let through to planned metrics.
   */
  lemma {:induction false} ClarifiedTurnLooksUpExactly(cfg: Config, turn: Turn, leftover: AgentState)
    requires AsksOrRefuses(RunTurn(cfg, turn, leftover))
    ensures var events := RunTurn(cfg, turn, leftover).events;
      && (forall e :: e in events ==> !e.Executed? && !e.Queried?)
      && (SomeLookup(events) <==>
            CanLookUp(cfg, turn) && (ResumeClarified(turn, leftover.context).1 == [] || PlansMetrics(cfg, turn)))
  {
    ClarifiedTurnsActOnNothing(cfg, turn, leftover);
    RunLooksUpExactly(cfg, turn, PREPARE_REQUEST, leftover);
    hide RunFrom, SomeLookup, CanLookUp, PlansMetrics;
    var events := RunTurn(cfg, turn, leftover).events;
    forall e | e in events ensures !e.Executed? && !e.Queried? {
      assert !Reaches(e);
    }
  }

  // ---------------------------------------------------------------------------------------------
  // What a reply can pin

  /** The entity was a row that some lookup of the turn returned. */
  ghost predicate OfferedFromRow(cfg: Config, turn: Turn, choice: Choice) {
    exists c :: choice == ChoiceOf(c) && L.WasFound(turn.source.database, QuestionEntities(cfg, turn).1, c)
  }

  /** Over every thread of turns: a pinned entity is a row that a lookup of the last completed turn returned. */
  lemma {:induction false} PinnedEntityWasFound(cfg: Config, start: AgentState, turns: seq<Turn>, turn: Turn)
    requires start.context.None?
    requires ResumeClarified(turn, Thread(cfg, start, turns).context).1 != []
    ensures LastCompleted(cfg, start, turns).Some?
    ensures var asked := turns[LastCompleted(cfg, start, turns).value];
      OfferedFromRow(cfg, asked, ResumeClarified(turn, Thread(cfg, start, turns).context).1[0].choice)
  {
    PinnedEntityWasOffered(cfg, start, turns, turn);
    var asked := turns[LastCompleted(cfg, start, turns).value];
    var choice := ResumeClarified(turn, Thread(cfg, start, turns).context).1[0].choice;
    hide Thread, LastCompleted, ResumeClarified;
    CandidateWasFound(cfg, asked, choice);
  }

  lemma {:induction false} CandidateWasFound(cfg: Config, turn: Turn, choice: Choice)
    requires Entities(cfg, turn).Ambiguous? && choice in Entities(cfg, turn).candidates
    ensures OfferedFromRow(cfg, turn, choice)
  {
    var r := L.Resolve(turn.source, turn.question, None);
    L.ChoicesWereFound(turn.source, turn.question, None);
    hide L.Resolve, L.WasFound, ChoiceOf, LabelOf;
    var cs := r.0.value;
    var i :| 0 <= i < |cs| && ChoicesOf(cs)[i] == choice;
    assert cs[i] in cs;
  }
}
