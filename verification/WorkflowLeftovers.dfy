/**
 * Turns with more than one metric query: when their answers can be composed, and what queries that an
 * earlier turn left behind do. No node of the older planning path writes those and preparing a request
 * does not clear them, so they matter when a thread outlives a configuration.
 */
module WorkflowLeftovers {
  import opened Wrappers
  import opened Workflow
  import L = EntityLookup
  import S = SearchTerms
  import D = Discovery
  import C = Composition

  // ---------------------------------------------------------------------------------------------
  // Under one configuration

  lemma {:induction false} RunKeepsAdditional(cfg: Config, turn: Turn, leftover: AgentState, node: Node, s: AgentState)
    requires !cfg.semanticGoverned && MetricsAreOurs(cfg, turn, leftover, node, s)
    ensures RunFrom(cfg, turn, node, s).state.additionalQueries == leftover.additionalQueries
    decreases Rank(node, s.repairAttempted)
  {
    var visit := VisitNode(cfg, turn, node, s);
    assert s.additionalQueries == leftover.additionalQueries;
    hide VisitNode, NextNode, MetricsAreOurs;
    if visit.Updated? {
      if node == RECORD_CONTEXT {
        MetricsKept(cfg, turn, node, s);
      } else {
        EdgesDescend(cfg, turn, node, s);
        MetricsStep(cfg, turn, leftover, node, s);
        RunKeepsAdditional(cfg, turn, leftover, NextNode(cfg, node, visit.state), visit.state);
      }
    }
  }

  lemma {:induction false} ThreadKeepsAdditional(cfg: Config, start: AgentState, turns: seq<Turn>)
    requires !cfg.semanticGoverned
    ensures Thread(cfg, start, turns).additionalQueries == start.additionalQueries
  {
    if turns != [] {
      var before := Thread(cfg, start, turns[..|turns| - 1]);
      ThreadKeepsAdditional(cfg, start, turns[..|turns| - 1]);
      RunKeepsAdditional(cfg, turns[|turns| - 1], before, PREPARE_REQUEST, before);
      hide RunFrom;
    }
  }

  /** A thread that starts clean and keeps its configuration always queries just the metrics it plans. */
  lemma {:induction false} OneConfigurationSendsThePlan(cfg: Config, start: AgentState, turns: seq<Turn>, turn: Turn)
    requires start.additionalQueries == []
    ensures var x := RunTurn(cfg, turn, Thread(cfg, start, turns));
      x.ending == Completed && QueriedMetrics(x.events) != [] ==> QueriedMetrics(x.events) == PlannedNow(cfg, turn)
  {
    hide Thread, RunTurn;
    var leftover := Thread(cfg, start, turns);
    if !cfg.semanticGoverned {
      ThreadKeepsAdditional(cfg, start, turns);
    }
    var x := RunTurn(cfg, turn, leftover);
    if x.ending == Completed && QueriedMetrics(x.events) != [] {
      LeftoverQueriesDecide(cfg, turn, leftover);
    }
  }

  // ---------------------------------------------------------------------------------------------
  // Answering with several metrics

  lemma {:induction false} AnsweredExactly(turn: Turn, qs: seq<MetricQuery>)
    ensures QueryAll(turn, qs).0 <==> forall q :: q in qs ==> turn.measures(q).Some?
  {
    if qs != [] {
      AnsweredExactly(turn, qs[1..]);
      assert qs == [qs[0]] + qs[1..];
    }
  }

  /** Every slice is grouped by the first query's dimensions without fan-out, and every row has its measure. */
  ghost predicate SlicesJoin(turn: Turn, qs: seq<MetricQuery>)
    requires qs != []
  {
    && C.AtGrain(qs[0].dimensions, Slices(turn, qs))
    && forall m :: m in C.ByMetric(Slices(turn, qs)) ==> C.RowsReadable(C.ByMetric(Slices(turn, qs))[m], m)
  }

  lemma {:induction false} ComposesExactly(turn: Turn, qs: seq<MetricQuery>)
    requires qs != []
    ensures Composes(turn, qs) <==> SlicesJoin(turn, qs)
  {
    var slices, plan := Slices(turn, qs), PlanOf(qs);
    C.AcceptedExactly(plan, slices);
    forall m ensures m in plan.metricKeys <==> m in C.ByMetric(slices) {
      C.ByMetricHolds(slices, m);
      if m in plan.metricKeys {
        var i :| 0 <= i < |qs| && plan.metricKeys[i] == m;
        assert slices[i].metricKey == m;
      }
      if m in C.ByMetric(slices) {
        var i :| 0 <= i < |slices| && slices[i].metricKey == m;
        assert plan.metricKeys[i] == m;
      }
    }
    hide C.Composed, C.AtGrain, C.RowsReadable, C.ByMetric;
  }

  /**
   * A turn with several authorized metrics goes on to its answer exactly when every query is answered
   * and the answers are at the grain asked for, with a measure in every row: never over a fan-out.
   */
  lemma {:induction false} SeveralMetricsAnswerExactly(cfg: Config, turn: Turn, s: AgentState)
    requires cfg.metricGateway && s.metricQuery.Some? && s.additionalQueries != []
    ensures var all := [s.metricQuery.value] + s.additionalQueries;
      ExecuteMetric(cfg, turn, s).Updated? <==>
        && (forall q :: q in all ==> q.metric in s.authorizedMetrics && turn.measures(q).Some?)
        && SlicesJoin(turn, all)
  {
    var all := [s.metricQuery.value] + s.additionalQueries;
    AnsweredExactly(turn, all);
    ComposesExactly(turn, all);
    hide QueryAll, Composes, SlicesJoin;
  }

  // ---------------------------------------------------------------------------------------------
  // Across a change of configuration

  const NoSource := L.Source(
    L.TextRules((t: string) => t, (c: char) => S.Blank, (t: string) => false, (t: string) => t,
                (r: L.Rung, q: string, n: string, raw: string) => None),
    D.Model("", [], [], []), map[], (l: L.Lookup) => None)

  function Query(metric: string): MetricQuery {
    MetricQuery(metric, ["month"], [])
  }

  /** A question answered by metrics: authorized, routed to them, and every query succeeding. */
  function Asking(intent: IntentOutcome, planned: Option<MetricQuery>): Turn {
    Turn("How much?", (q: string, k: string) => false, Some({"cost", "hours", "pay"}),
         NoSource, (cs: seq<L.Candidate>) => false,
         RouteDecision(GovernedMetric, false, None, None, []),
         intent, (m: string) => None, planned, None, None,
         (c: string) => Validation(false, None, None, false), (q: string) => None, (q: string) => false,
         (q: MetricQuery) => Some([]), false)
  }

  /** Planned semantically: two metrics, so the second is an additional query. */
  function TwoMetrics(): Turn {
    Asking(MetricPlan(Query("cost"), [Query("hours")]), None)
  }

  /** Planned from the router's one candidate. */
  function OneMetric(): Turn {
    Asking(NoPlan, Some(Query("pay")))
  }

  function Configured(semantic: bool): Config {
    Config(true, semantic, false, true, false, false)
  }

  const Fresh := AgentState("", "", {}, [], [], None, None, Execute, AdhocAnalytics, false, None, None, None, None, None, 0,
                            false, false, None, None, [], None, 0)

  /** From the router on, with no entity values configured and the turn no reply. */
  lemma {:induction false} ReachesRouter(cfg: Config, turn: Turn, s: AgentState)
    requires cfg.routerEnabled && !cfg.entityValues && ResumeClarified(turn, s.context).1 == []
    requires turn.authorized.Some?
    ensures var ready := PrepareRequest(turn, s).(authorizedMetrics := turn.authorized.value);
      RunTurn(cfg, turn, s) == RunFrom(cfg, turn, ROUTE_QUERY, ready)
  {
    var prepared := PrepareRequest(turn, s);
    var ready := prepared.(authorizedMetrics := turn.authorized.value);
    SilentStep(cfg, turn, PREPARE_REQUEST, s, prepared);
    SilentStep(cfg, turn, AUTHORIZE_REQUEST, prepared, ready);
    assert ready.pinnedEntities == [];
    assert Sent([]) == [];
    SilentStep(cfg, turn, RESOLVE_QUESTION_ENTITIES, ready, ready);
    hide RunFrom, PrepareRequest, VisitNode;
    assert !ready.needsClarification by {
      PreparedAsksNothing(turn, s);
    }
  }

  lemma {:induction false} PreparedAsksNothing(turn: Turn, s: AgentState)
    ensures !PrepareRequest(turn, s).needsClarification && PrepareRequest(turn, s).modelAction == Execute
  {
  }

  lemma {:induction false} FinalizedIsRecorded(cfg: Config, turn: Turn, s: AgentState)
    ensures RunFrom(cfg, turn, FINALIZE_SQL_RESULT, s) == Execution(Completed, RecordContext(s), [])
  {
    SilentStep(cfg, turn, FINALIZE_SQL_RESULT, s, s);
    hide NextNode, RecordContext;
    assert RunFrom(cfg, turn, RECORD_CONTEXT, s) == Execution(Completed, RecordContext(s), []);
  }

  /** Every query of this turn succeeds, and then it is recorded. */
  lemma {:induction false} QueriesThenRecords(cfg: Config, turn: Turn, s: AgentState)
    requires cfg.metricGateway && !cfg.generateAnswer && s.metricQuery.Some?
    requires forall q :: turn.measures(q) == Some([])
    requires forall q :: q in [s.metricQuery.value] + s.additionalQueries ==>
      q.metric in s.authorizedMetrics && q.dimensions == s.metricQuery.value.dimensions
    ensures RunFrom(cfg, turn, EXECUTE_METRIC, s)
         == Execution(Completed, RecordContext(s), QueryAll(turn, [s.metricQuery.value] + s.additionalQueries).1)
  {
    hide *;
    var events := QueryAll(turn, [s.metricQuery.value] + s.additionalQueries).1;
    QueriesSucceed(cfg, turn, s);
    FinalizedIsRecorded(cfg, turn, s);
    MetricVisit(cfg, turn, s);
    LastStep(cfg, turn, EXECUTE_METRIC, s, s, events, RecordContext(s));
  }

  lemma {:induction false} MetricVisit(cfg: Config, turn: Turn, s: AgentState)
    requires !cfg.generateAnswer
    ensures VisitNode(cfg, turn, EXECUTE_METRIC, s) == ExecuteMetric(cfg, turn, s)
    ensures NextNode(cfg, EXECUTE_METRIC, s) == FINALIZE_SQL_RESULT
  {
    hide ExecuteMetric;
  }

  /** A step into a run that ends without sending anything more. */
  lemma {:induction false} LastStep(
    cfg: Config, turn: Turn, node: Node, s: AgentState, after: AgentState, events: seq<Event>, last: AgentState)
    requires node != RECORD_CONTEXT && VisitNode(cfg, turn, node, s) == Updated(after, events)
    requires RunFrom(cfg, turn, NextNode(cfg, node, after), after) == Execution(Completed, last, [])
    ensures RunFrom(cfg, turn, node, s) == Execution(Completed, last, events)
  {
    hide *;
    Step(cfg, turn, node, s, after, events);
    assert events + [] == events;
  }

  lemma {:induction false} QueriesSucceed(cfg: Config, turn: Turn, s: AgentState)
    requires cfg.metricGateway && s.metricQuery.Some?
    requires forall q :: turn.measures(q) == Some([])
    requires forall q :: q in [s.metricQuery.value] + s.additionalQueries ==>
      q.metric in s.authorizedMetrics && q.dimensions == s.metricQuery.value.dimensions
    ensures ExecuteMetric(cfg, turn, s) == Updated(s, QueryAll(turn, [s.metricQuery.value] + s.additionalQueries).1)
  {
    var all := [s.metricQuery.value] + s.additionalQueries;
    AnsweredExactly(turn, all);
    EmptyComposes(turn, all);
    hide Composes, QueryAll;
  }

  lemma {:induction false} EmptyComposes(turn: Turn, qs: seq<MetricQuery>)
    requires qs != [] && forall q :: q in qs ==> turn.measures(q) == Some([]) && q.dimensions == qs[0].dimensions
    ensures Composes(turn, qs)
  {
    ComposesExactly(turn, qs);
    hide Composes;
    var slices := Slices(turn, qs);
    forall i | 0 <= i < |slices| ensures slices[i].rows == [] && slices[i].dimensions == qs[0].dimensions {
      assert qs[i] in qs;
    }
    forall m | m in C.ByMetric(slices) ensures C.ByMetric(slices)[m].rows == [] {
      C.ByMetricHolds(slices, m);
    }
    hide C.ByMetric;
  }

  /** The state a semantically planned turn with two metrics leaves behind. */
  lemma {:induction false} TwoMetricsLeaveOne()
    ensures var x := RunTurn(Configured(true), TwoMetrics(), Fresh);
      && x.ending == Completed && x.state.additionalQueries == [Query("hours")]
      && x.state.context.Some? && x.state.context.value.clarificationState == NotNeeded
  {
    var cfg, turn := Configured(true), TwoMetrics();
    ReachesRouter(cfg, turn, Fresh);
    var ready := PrepareRequest(turn, Fresh).(authorizedMetrics := turn.authorized.value);
    var routed := ready.(executionRoute := GovernedMetric, modelAction := Execute);
    var planned := routed.(metricQuery := Some(Query("cost")), additionalQueries := [Query("hours")]);
    SilentStep(cfg, turn, ROUTE_QUERY, ready, routed);
    SilentStep(cfg, turn, PLAN_METRIC_INTENT, routed, planned);
    SilentStep(cfg, turn, RESOLVE_METRIC_ENTITIES, planned, planned);
    hide RunFrom, RunTurn;
    QueriesThenRecords(cfg, turn, planned);
  }

  /** Without semantic planning: the planned metric replaces the query, and the additional ones stay. */
  lemma {:induction false} OneMetricIsPlanned(s: AgentState)
    requires ResumeClarified(OneMetric(), s.context).1 == []
    ensures var planned := PrepareRequest(OneMetric(), s).(
        authorizedMetrics := OneMetric().authorized.value, executionRoute := GovernedMetric, modelAction := Execute,
        metricQuery := Some(Query("pay")));
      RunTurn(Configured(false), OneMetric(), s) == RunFrom(Configured(false), OneMetric(), EXECUTE_METRIC, planned)
  {
    var cfg, turn := Configured(false), OneMetric();
    ReachesRouter(cfg, turn, s);
    hide PrepareRequest, ResumeClarified, RunTurn;
    var ready := PrepareRequest(turn, s).(authorizedMetrics := turn.authorized.value);
    var routed := ready.(executionRoute := GovernedMetric, modelAction := Execute);
    var planned := routed.(metricQuery := Some(Query("pay")));
    OneMetricIsRouted(ready);
    OneMetricIsChosen(routed);
    hide VisitNode, NextNode, RunFrom;
    SilentStep(cfg, turn, ROUTE_QUERY, ready, routed);
    SilentStep(cfg, turn, PLAN_METRIC_REQUEST, routed, planned);
  }

  lemma {:induction false} OneMetricIsRouted(s: AgentState)
    ensures var routed := s.(executionRoute := GovernedMetric, modelAction := Execute);
      && VisitNode(Configured(false), OneMetric(), ROUTE_QUERY, s) == Updated(routed, [])
      && NextNode(Configured(false), ROUTE_QUERY, routed) == PLAN_METRIC_REQUEST
  {
  }

  lemma {:induction false} OneMetricIsChosen(s: AgentState)
    requires "pay" in s.authorizedMetrics
    ensures var planned := s.(metricQuery := Some(Query("pay")));
      && VisitNode(Configured(false), OneMetric(), PLAN_METRIC_REQUEST, s) == Updated(planned, [])
      && NextNode(Configured(false), PLAN_METRIC_REQUEST, planned) == EXECUTE_METRIC
  {
    assert Sent([]) == [];
  }

  lemma {:induction false} OneMetricSendsBoth(s: AgentState)
    requires ResumeClarified(OneMetric(), s.context).1 == [] && s.additionalQueries == [Query("hours")]
    ensures var x := RunTurn(Configured(false), OneMetric(), s);
      x.ending == Completed && QueriedMetrics(x.events) == ["pay", "hours"]
  {
    var cfg, turn := Configured(false), OneMetric();
    OneMetricIsPlanned(s);
    hide ResumeClarified, RunFrom, RunTurn, VisitNode, QueriedMetrics;
    var planned := PrepareRequest(turn, s).(
      authorizedMetrics := turn.authorized.value, executionRoute := GovernedMetric, modelAction := Execute,
      metricQuery := Some(Query("pay")));
    assert planned.additionalQueries == [Query("hours")];
    hide PrepareRequest;
    QueriesThenRecords(cfg, turn, planned);
    StartsOurs(cfg, turn, s);
    RunQueries(cfg, turn, s, PREPARE_REQUEST, s);
    RunTurnIs(cfg, turn, s);
    assert Metrics([Query("hours")]) == ["hours"];
    assert Wanted(cfg, turn, s) == ["pay", "hours"];
  }

  lemma {:induction false} StartsOurs(cfg: Config, turn: Turn, s: AgentState)
    ensures MetricsAreOurs(cfg, turn, s, PREPARE_REQUEST, s)
  {
  }

  lemma {:induction false} RunTurnIs(cfg: Config, turn: Turn, s: AgentState)
    ensures RunTurn(cfg, turn, s) == RunFrom(cfg, turn, PREPARE_REQUEST, s)
  {
    hide RunFrom;
  }

  /**
   * The input: a thread whose first turn was planned semantically goes on without semantic planning.
   * The second turn plans one metric, completes, and also queries the one left over.
   */
  lemma {:induction false} LeftoverQueryIsSent()
    ensures var left := RunTurn(Configured(true), TwoMetrics(), Fresh).state;
      var x := RunTurn(Configured(false), OneMetric(), left);
      && x.ending == Completed
      && PlannedNow(Configured(false), OneMetric()) == ["pay"] && QueriedMetrics(x.events) == ["pay", "hours"]
  {
    TwoMetricsLeaveOne();
    var left := RunTurn(Configured(true), TwoMetrics(), Fresh).state;
    hide RunTurn, QueriedMetrics;
    OneMetricSendsBoth(left);
  }
}
