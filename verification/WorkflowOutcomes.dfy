/**
 * What a turn comes to, written out straight from what the services answer, without nodes, edges or
 * state; and the graph computing exactly that, from whatever an earlier turn left behind.
 */
module WorkflowOutcomes {
  import opened Wrappers
  import opened Workflow
  import L = EntityLookup

  /** How a turn ends for the user: an answer, a question back with any choices to reply to, a refusal, or an error. */
  datatype Verdict =
    | Answered
    | Asked(question: Option<string>, choices: Option<PendingChoice>)
    | Refused(reason: Option<string>)
    | Broken

  datatype Outcome = Outcome(verdict: Verdict, events: seq<Event>)

  function After(events: seq<Event>, o: Outcome): Outcome {
    o.(events := events + o.events)
  }

  // ---------------------------------------------------------------------------------------------
  // What a turn is meant to come to

  /** The rows are there; where answers are written, the answer must be grounded in them. */
  function Finished(cfg: Config, turn: Turn): Outcome {
    Outcome(if cfg.generateAnswer && !turn.grounded then Broken else Answered, [])
  }

  function Executing(cfg: Config, turn: Turn, sql: string): Outcome {
    After([Executed(sql)], if turn.executes(sql) then Finished(cfg, turn) else Outcome(Broken, []))
  }

  /** What may be executed for a candidate statement: its validated form, if it is valid and no time filter is missing. */
  function Approved(turn: Turn, sql: string): Option<string> {
    var form := turn.validate(sql).validatedSql;
    if form.Some? && Approves(turn, sql, form.value) then form else None
  }

  /** A candidate worth repairing: valid but for its time filter, or refused for something that can be repaired. */
  predicate WorthRepairing(turn: Turn, sql: string) {
    var v := turn.validate(sql);
    if v.isValid && v.validatedSql.Some? then turn.temporalProblem(v.validatedSql.value).Some?
    else v.repairable && v.errorCode != Some(FORBIDDEN_SCHEMA)
  }

  /** The candidate, or else one repair of it. */
  function FromSql(cfg: Config, turn: Turn, sql: string): Outcome {
    var first := Approved(turn, sql);
    After([Validated(sql)],
      if first.Some? then Executing(cfg, turn, first.value)
      else if !WorthRepairing(turn, sql) || turn.repaired.None? then Outcome(Broken, [])
      else
        var second := Approved(turn, turn.repaired.value);
        After([Repaired(turn.repaired.value), Validated(turn.repaired.value)],
          if second.Some? then Executing(cfg, turn, second.value) else Outcome(Broken, [])))
  }

  function Generated(cfg: Config, turn: Turn): Outcome {
    if turn.generation.None? then Outcome(Broken, [])
    else
      var g := turn.generation.value;
      match g.action
      case Clarify => Outcome(Asked(g.clarificationQuestion, None), [])
      case Block => Outcome(Refused(g.blockReason), [])
      case Execute => if g.sql.None? then Outcome(Broken, []) else FromSql(cfg, turn, g.sql.value)
  }

  /** All or nothing: every metric is allowed, answered, and joins the others. */
  ghost function FromMetrics(cfg: Config, turn: Turn, allowed: set<string>, qs: seq<MetricQuery>): Outcome
    requires qs != []
  {
    if !cfg.metricGateway || exists q :: q in qs && q.metric !in allowed then Outcome(Broken, [])
    else
      var sent := QueryAll(turn, qs);
      After(sent.1,
        if sent.0 && (|qs| > 1 ==> Composes(turn, qs)) then Finished(cfg, turn) else Outcome(Broken, []))
  }

  /** Every query with the filters its metric offers, where there are any. */
  function Narrowly(turn: Turn, qs: seq<MetricQuery>, filters: seq<Filter>): (r: seq<MetricQuery>)
    ensures filters == [] ==> r == qs
  {
    if filters == [] then qs else FilteredAll(qs, filters, (metric, dimension) => Offers(turn, metric, dimension))
  }

  /** The metrics planned, for the entity values the question names. */
  ghost function FromPlan(cfg: Config, turn: Turn, allowed: set<string>, qs: seq<MetricQuery>): Outcome
    requires qs != []
  {
    if !cfg.entityValues then FromMetrics(cfg, turn, allowed, qs)
    else
      var r := Narrow(turn, DimensionsToResolve(turn, qs), []);
      After(Sent(r.1),
        match r.0
        case LookupFailed => Outcome(Broken, [])
        case AmbiguousValue(question) => Outcome(Asked(Some(question), None), [])
        case Narrowed(filters) =>
          NarrowlyKeepsCount(turn, qs, filters);
          FromMetrics(cfg, turn, allowed, Narrowly(turn, qs, filters)))
  }

  lemma {:induction false} FilteredCount(qs: seq<MetricQuery>, filters: seq<Filter>, offers: (string, string) -> bool)
    ensures |FilteredAll(qs, filters, offers)| == |qs|
  {
    if qs != [] {
      FilteredCount(qs[1..], filters, offers);
    }
  }

  lemma {:induction false} NarrowlyKeepsCount(turn: Turn, qs: seq<MetricQuery>, filters: seq<Filter>)
    ensures |Narrowly(turn, qs, filters)| == |qs|
  {
    FilteredCount(qs, filters, (metric, dimension) => Offers(turn, metric, dimension));
  }

  /** The one metric of the older planning path, and whatever queries were left over. */
  ghost function FromRequest(cfg: Config, turn: Turn, allowed: set<string>, left: seq<MetricQuery>): Outcome {
    var r := PlanLookups(turn, if cfg.plannerEntityValues then turn.route.planDimensions else []);
    After(Sent(r.1),
      if !r.0 || turn.planned.None? || turn.planned.value.metric !in allowed then Outcome(Broken, [])
      else FromMetrics(cfg, turn, allowed, [turn.planned.value] + left))
  }

  ghost function FromIntent(cfg: Config, turn: Turn, allowed: set<string>): Outcome {
    match turn.intent
    case IntentClarify(question) => Outcome(Asked(Some(question), None), [])
    case NoPlan => Generated(cfg, turn)
    case MetricPlan(primary, extra) => FromPlan(cfg, turn, allowed, [primary] + extra)
  }

  ghost function FromRoute(cfg: Config, turn: Turn, allowed: set<string>, left: seq<MetricQuery>): Outcome {
    if turn.route.unauthorizedMetric && !cfg.semanticGoverned then Outcome(Broken, [])
    else
      match if turn.route.unauthorizedMetric then AdhocAnalytics else turn.route.route
      case ClarifyRoute => Outcome(Asked(turn.route.clarificationQuestion, None), [])
      case BlockRoute => Outcome(Refused(turn.route.blockReason), [])
      case GovernedMetric =>
        if cfg.semanticGoverned then FromIntent(cfg, turn, allowed) else FromRequest(cfg, turn, allowed, left)
      case AdhocAnalytics => if cfg.semanticGoverned then FromIntent(cfg, turn, allowed) else Generated(cfg, turn)
  }

  /** The question is understood; without a router it goes straight to SQL. */
  ghost function FromQuestion(cfg: Config, turn: Turn, allowed: set<string>, left: seq<MetricQuery>): Outcome {
    if cfg.routerEnabled then FromRoute(cfg, turn, allowed, left) else Generated(cfg, turn)
  }

  function WhichEntity(entityName: string, candidates: seq<Choice>): string {
    "Which " + entityName + " do you mean: " + ChoicesText(candidates) + "?"
  }

  /** The turn once its caller is authorized; a reply is not asked about again. */
  ghost function FromEntities(
    cfg: Config, turn: Turn, allowed: set<string>, pinned: bool, left: seq<MetricQuery>): Outcome
  {
    if pinned then FromQuestion(cfg, turn, allowed, left)
    else
      var r := QuestionEntities(cfg, turn);
      After(Sent(r.1),
        match r.0
        case None => Outcome(Broken, [])
        case Some(Ambiguous(entityName, candidates, true)) => Outcome(Asked(Some(WhichEntity(entityName, candidates)), Some(PendingOf(cfg, turn))), [])
        case Some(_) => FromQuestion(cfg, turn, allowed, left))
  }

  /** The whole turn, given what an earlier one left: the context it may be a reply to, and metric queries. */
  ghost function Expected(cfg: Config, turn: Turn, context: Option<AnalyticalContext>, left: seq<MetricQuery>): Outcome {
    if turn.authorized.None? then Outcome(Broken, [])
    else FromEntities(cfg, turn, turn.authorized.value, ResumeClarified(turn, context).1 != [], left)
  }

  // ---------------------------------------------------------------------------------------------
  // What the graph comes to

  /** What a state says to the user, once nothing is left to do. */
  function VerdictOf(s: AgentState): Verdict {
    if s.needsClarification then Asked(s.clarificationQuestion, s.pendingChoice)
    else if s.modelAction == Block then Refused(s.blockReason)
    else Answered
  }

  function ClarificationOf(v: Verdict): ClarificationState {
    match v
    case Asked(_, _) => Required
    case Refused(_) => Blocked
    case _ => NotNeeded
  }

  /** The run ends as the outcome says, with its events, and records for the next turn how it ended. */
  ghost predicate ComesTo(x: Execution, o: Outcome) {
    && x.events == o.events
    && (x.ending == Failed <==> o.verdict == Broken)
    && (x.ending == Completed ==>
          && VerdictOf(x.state) == o.verdict
          && x.state.context.Some? && x.state.context.value.clarificationState == ClarificationOf(o.verdict)
          && (o.verdict.Asked? ==> x.state.context.value.pendingChoice == o.verdict.choices))
  }

  lemma {:induction false} StepComesTo(
    cfg: Config, turn: Turn, node: Node, s: AgentState, after: AgentState, events: seq<Event>, o: Outcome)
    requires node != RECORD_CONTEXT && VisitNode(cfg, turn, node, s) == Updated(after, events)
    requires ComesTo(RunFrom(cfg, turn, NextNode(cfg, node, after), after), o)
    ensures ComesTo(RunFrom(cfg, turn, node, s), After(events, o))
  {
    Step(cfg, turn, node, s, after, events);
    hide VisitNode, NextNode, RunFrom;
  }

  lemma {:induction false} SilentlyComesTo(
    cfg: Config, turn: Turn, node: Node, s: AgentState, after: AgentState, o: Outcome)
    requires node != RECORD_CONTEXT && VisitNode(cfg, turn, node, s) == Updated(after, [])
    requires ComesTo(RunFrom(cfg, turn, NextNode(cfg, node, after), after), o)
    ensures ComesTo(RunFrom(cfg, turn, node, s), o)
  {
    SilentStep(cfg, turn, node, s, after);
    hide VisitNode, NextNode, RunFrom, ComesTo;
  }

  lemma {:induction false} RaisedComesTo(cfg: Config, turn: Turn, node: Node, s: AgentState, events: seq<Event>)
    requires VisitNode(cfg, turn, node, s) == Raised(events)
    ensures ComesTo(RunFrom(cfg, turn, node, s), After(events, Outcome(Broken, [])))
  {
    hide VisitNode, NextNode;
    assert events + [] == events;
  }

  lemma {:induction false} RecordComesTo(cfg: Config, turn: Turn, s: AgentState)
    ensures ComesTo(RunFrom(cfg, turn, RECORD_CONTEXT, s), Outcome(VerdictOf(s), []))
  {
    hide NextNode;
  }

  /** Asking, refusing and finalizing lead straight to the end. */
  lemma {:induction false} LastNodesComeTo(cfg: Config, turn: Turn, node: Node, s: AgentState)
    requires node == CLARIFY || node == BLOCK || node == FINALIZE_SQL_RESULT || (node == GROUND_ANSWER && turn.grounded)
    ensures ComesTo(RunFrom(cfg, turn, node, s), Outcome(VerdictOf(s), []))
  {
    RecordComesTo(cfg, turn, s);
    assert VisitNode(cfg, turn, node, s) == Updated(s, []);
    assert NextNode(cfg, node, s) == RECORD_CONTEXT;
    hide VisitNode, NextNode, RunFrom, ComesTo;
    SilentlyComesTo(cfg, turn, node, s, s, Outcome(VerdictOf(s), []));
  }

  lemma {:induction false} AnsweringComesTo(cfg: Config, turn: Turn, s: AgentState)
    requires VerdictOf(s) == Answered
    ensures ComesTo(RunFrom(cfg, turn, Answering(cfg), s), Finished(cfg, turn))
  {
    if cfg.generateAnswer && !turn.grounded {
      assert VisitNode(cfg, turn, GROUND_ANSWER, s) == Raised([]);
      RaisedComesTo(cfg, turn, GROUND_ANSWER, s, []);
    } else {
      LastNodesComeTo(cfg, turn, Answering(cfg), s);
    }
    hide VisitNode, NextNode, RunFrom, ComesTo;
  }

  // ---------------------------------------------------------------------------------------------
  // The SQL route

  lemma {:induction false} ExecutingComesTo(cfg: Config, turn: Turn, s: AgentState)
    requires s.validatedSql.Some? && VerdictOf(s) == Answered
    ensures ComesTo(RunFrom(cfg, turn, EXECUTE_SQL, s), Executing(cfg, turn, s.validatedSql.value))
  {
    var sql := s.validatedSql.value;
    assert NextNode(cfg, EXECUTE_SQL, s) == Answering(cfg);
    if turn.executes(sql) {
      assert VisitNode(cfg, turn, EXECUTE_SQL, s) == Updated(s, [Executed(sql)]);
      AnsweringComesTo(cfg, turn, s);
      hide VisitNode, NextNode, RunFrom, ComesTo, Answering;
      StepComesTo(cfg, turn, EXECUTE_SQL, s, s, [Executed(sql)], Finished(cfg, turn));
    } else {
      assert VisitNode(cfg, turn, EXECUTE_SQL, s) == Raised([Executed(sql)]);
      hide VisitNode, NextNode, RunFrom, ComesTo, Answering;
      RaisedComesTo(cfg, turn, EXECUTE_SQL, s, [Executed(sql)]);
    }
  }

  /** A state on its way to validating `sql`, with nothing approved yet. */
  predicate Validating(s: AgentState, sql: string) {
    s.generatedSql == Some(sql) && s.validatedSql.None? && VerdictOf(s) == Answered
  }

  lemma {:induction false} ApprovedVisit(turn: Turn, s: AgentState, sql: string) returns (after: AgentState)
    requires Validating(s, sql) && Approved(turn, sql).Some?
    ensures ValidateSql(turn, s) == Updated(after, [Validated(sql)]) && RouteAfterValidation(after) == EXECUTE_SQL
    ensures after.validatedSql == Approved(turn, sql) && VerdictOf(after) == Answered
  {
    after := ValidateSql(turn, s).state;
  }

  lemma {:induction false} RefusedVisit(turn: Turn, s: AgentState, sql: string)
    requires Validating(s, sql) && Approved(turn, sql).None? && (s.repairAttempted || !WorthRepairing(turn, sql))
    ensures ValidateSql(turn, s) == Raised([Validated(sql)])
  {
  }

  lemma {:induction false} RepairableVisit(turn: Turn, s: AgentState, sql: string) returns (after: AgentState)
    requires Validating(s, sql) && Approved(turn, sql).None? && !s.repairAttempted && WorthRepairing(turn, sql)
    ensures ValidateSql(turn, s) == Updated(after, [Validated(sql)]) && RouteAfterValidation(after) == REPAIR_SQL
    ensures after.validation.Some? && Validating(after, sql)
  {
    after := ValidateSql(turn, s).state;
  }

  lemma {:induction false} ApprovedComesTo(cfg: Config, turn: Turn, s: AgentState, sql: string)
    requires Validating(s, sql) && Approved(turn, sql).Some?
    ensures ComesTo(RunFrom(cfg, turn, VALIDATE_SQL, s), After([Validated(sql)], Executing(cfg, turn, Approved(turn, sql).value)))
  {
    var after := ApprovedVisit(turn, s, sql);
    assert VisitNode(cfg, turn, VALIDATE_SQL, s) == ValidateSql(turn, s);
    assert NextNode(cfg, VALIDATE_SQL, after) == EXECUTE_SQL;
    hide VisitNode, NextNode, RunFrom, ComesTo, Executing, Approved, VerdictOf, ValidateSql;
    ExecutingComesTo(cfg, turn, after);
    StepComesTo(cfg, turn, VALIDATE_SQL, s, after, [Validated(sql)], Executing(cfg, turn, Approved(turn, sql).value));
  }

  /** A repaired statement has no second chance. */
  lemma {:induction false} RepairedComesTo(cfg: Config, turn: Turn, s: AgentState, sql: string)
    requires Validating(s, sql) && s.repairAttempted
    ensures ComesTo(RunFrom(cfg, turn, VALIDATE_SQL, s), After([Validated(sql)],
      if Approved(turn, sql).Some? then Executing(cfg, turn, Approved(turn, sql).value) else Outcome(Broken, [])))
  {
    if Approved(turn, sql).Some? {
      ApprovedComesTo(cfg, turn, s, sql);
    } else {
      RefusedVisit(turn, s, sql);
      assert VisitNode(cfg, turn, VALIDATE_SQL, s) == ValidateSql(turn, s);
      hide VisitNode, RunFrom, ComesTo, Executing, Approved, VerdictOf, ValidateSql;
      RaisedComesTo(cfg, turn, VALIDATE_SQL, s, [Validated(sql)]);
    }
  }

  lemma {:induction false} RepairComesTo(cfg: Config, turn: Turn, s: AgentState, sql: string)
    requires Validating(s, sql) && s.validation.Some? && turn.repaired.Some?
    ensures var again := turn.repaired.value;
      ComesTo(RunFrom(cfg, turn, REPAIR_SQL, s), After([Repaired(again)], After([Validated(again)],
        if Approved(turn, again).Some? then Executing(cfg, turn, Approved(turn, again).value) else Outcome(Broken, []))))
  {
    var again := turn.repaired.value;
    var after := s.(generatedSql := Some(again), repairAttempted := true);
    assert VisitNode(cfg, turn, REPAIR_SQL, s) == Updated(after, [Repaired(again)]);
    assert NextNode(cfg, REPAIR_SQL, after) == VALIDATE_SQL;
    assert Validating(after, again);
    RepairedComesTo(cfg, turn, after, again);
    hide VisitNode, NextNode, RunFrom, ComesTo, Executing, Approved, Validating;
    StepComesTo(cfg, turn, REPAIR_SQL, s, after, [Repaired(again)], After([Validated(again)],
      if Approved(turn, again).Some? then Executing(cfg, turn, Approved(turn, again).value) else Outcome(Broken, [])));
  }

  lemma {:induction false} AfterTwice(a: Event, b: Event, o: Outcome)
    ensures After([a], After([b], o)) == After([a, b], o)
  {
    assert [a] + ([b] + o.events) == [a, b] + o.events;
  }

  lemma {:induction false} FromSqlComesTo(cfg: Config, turn: Turn, s: AgentState, sql: string)
    requires Validating(s, sql) && !s.repairAttempted
    ensures ComesTo(RunFrom(cfg, turn, VALIDATE_SQL, s), FromSql(cfg, turn, sql))
  {
    assert VisitNode(cfg, turn, VALIDATE_SQL, s) == ValidateSql(turn, s);
    hide VisitNode, RunFrom, ComesTo, Executing, Approved, WorthRepairing, VerdictOf, ValidateSql;
    if Approved(turn, sql).Some? {
      ApprovedComesTo(cfg, turn, s, sql);
    } else if !WorthRepairing(turn, sql) {
      RefusedVisit(turn, s, sql);
      RaisedComesTo(cfg, turn, VALIDATE_SQL, s, [Validated(sql)]);
    } else {
      var after := RepairableVisit(turn, s, sql);
      assert NextNode(cfg, VALIDATE_SQL, after) == REPAIR_SQL;
      hide NextNode;
      if turn.repaired.None? {
        NothingRepaired(cfg, turn, after);
        StepComesTo(cfg, turn, VALIDATE_SQL, s, after, [Validated(sql)], Outcome(Broken, []));
      } else {
        var again := turn.repaired.value;
        var rest := if Approved(turn, again).Some? then Executing(cfg, turn, Approved(turn, again).value) else Outcome(Broken, []);
        RepairComesTo(cfg, turn, after, sql);
        AfterTwice(Repaired(again), Validated(again), rest);
        hide After;
        StepComesTo(cfg, turn, VALIDATE_SQL, s, after, [Validated(sql)], After([Repaired(again), Validated(again)], rest));
      }
    }
  }

  lemma {:induction false} NothingRepaired(cfg: Config, turn: Turn, s: AgentState)
    requires turn.repaired.None?
    ensures ComesTo(RunFrom(cfg, turn, REPAIR_SQL, s), Outcome(Broken, []))
  {
    assert VisitNode(cfg, turn, REPAIR_SQL, s) == Raised([]);
    RaisedComesTo(cfg, turn, REPAIR_SQL, s, []);
    hide VisitNode, RunFrom, ComesTo;
    assert After([], Outcome(Broken, [])) == Outcome(Broken, []);
  }

  /** Nothing asked, refused or written yet, whatever else earlier turns left. */
  predicate Open(s: AgentState) {
    && s.generatedSql.None? && s.validatedSql.None? && !s.repairAttempted
    && VerdictOf(s) == Answered && s.clarificationQuestion.None? && s.blockReason.None? && s.pendingChoice.None?
  }

  /** The state generation leads on with, and where. */
  lemma {:induction false} GenerateVisit(cfg: Config, turn: Turn, s: AgentState) returns (after: AgentState)
    requires Open(s) && turn.generation.Some?
    ensures VisitNode(cfg, turn, GENERATE_SQL, s) == Updated(after, [])
    ensures var g := turn.generation.value;
      match g.action
      case Clarify =>
        VerdictOf(after) == Asked(g.clarificationQuestion, None) && NextNode(cfg, GENERATE_SQL, after) == CLARIFY
      case Block => VerdictOf(after) == Refused(g.blockReason) && NextNode(cfg, GENERATE_SQL, after) == BLOCK
      case Execute =>
        && NextNode(cfg, GENERATE_SQL, after) == VALIDATE_SQL && !after.repairAttempted
        && after.generatedSql == g.sql && (g.sql.Some? ==> Validating(after, g.sql.value))
  {
    assert VisitNode(cfg, turn, GENERATE_SQL, s) == GenerateSql(turn, s);
    hide VisitNode;
    after := GenerateSql(turn, s).state;
  }

  lemma {:induction false} NothingToValidate(cfg: Config, turn: Turn, s: AgentState)
    requires s.generatedSql.None?
    ensures ComesTo(RunFrom(cfg, turn, VALIDATE_SQL, s), Outcome(Broken, []))
  {
    assert VisitNode(cfg, turn, VALIDATE_SQL, s) == Raised([]);
    hide VisitNode, RunFrom, ComesTo;
    RaisedComesTo(cfg, turn, VALIDATE_SQL, s, []);
    assert After([], Outcome(Broken, [])) == Outcome(Broken, []);
  }

  lemma {:induction false} GeneratedComesTo(cfg: Config, turn: Turn, s: AgentState)
    requires Open(s)
    ensures ComesTo(RunFrom(cfg, turn, GENERATE_SQL, s), Generated(cfg, turn))
  {
    if turn.generation.None? {
      assert VisitNode(cfg, turn, GENERATE_SQL, s) == Raised([]);
      hide VisitNode, RunFrom, ComesTo;
      RaisedComesTo(cfg, turn, GENERATE_SQL, s, []);
      assert After([], Outcome(Broken, [])) == Outcome(Broken, []);
    } else {
      hide VisitNode, NextNode, RunFrom, ComesTo, FromSql, VerdictOf, Validating;
      var g := turn.generation.value;
      var after := GenerateVisit(cfg, turn, s);
      match g.action {
        case Clarify => LastNodesComeTo(cfg, turn, CLARIFY, after);
        case Block => LastNodesComeTo(cfg, turn, BLOCK, after);
        case Execute =>
          if g.sql.Some? {
            FromSqlComesTo(cfg, turn, after, g.sql.value);
          } else {
            NothingToValidate(cfg, turn, after);
          }
      }
      SilentlyComesTo(cfg, turn, GENERATE_SQL, s, after, Generated(cfg, turn));
    }
  }

  lemma {:induction false} RetrievedComesTo(cfg: Config, turn: Turn, s: AgentState)
    requires Open(s)
    ensures ComesTo(RunFrom(cfg, turn, RETRIEVE_SCHEMA, s), Generated(cfg, turn))
  {
    assert VisitNode(cfg, turn, RETRIEVE_SCHEMA, s) == Updated(s, []);
    assert NextNode(cfg, RETRIEVE_SCHEMA, s) == GENERATE_SQL;
    hide VisitNode, NextNode, RunFrom, ComesTo, Generated, Open;
    GeneratedComesTo(cfg, turn, s);
    SilentlyComesTo(cfg, turn, RETRIEVE_SCHEMA, s, s, Generated(cfg, turn));
  }

  // ---------------------------------------------------------------------------------------------
  // The metric route

  lemma {:induction false} MetricsComeTo(cfg: Config, turn: Turn, s: AgentState)
    requires VerdictOf(s) == Answered && s.metricQuery.Some?
    ensures ComesTo(RunFrom(cfg, turn, EXECUTE_METRIC, s),
                    FromMetrics(cfg, turn, s.authorizedMetrics, [s.metricQuery.value] + s.additionalQueries))
  {
    var qs := [s.metricQuery.value] + s.additionalQueries;
    var o := FromMetrics(cfg, turn, s.authorizedMetrics, qs);
    assert VisitNode(cfg, turn, EXECUTE_METRIC, s) == ExecuteMetric(cfg, turn, s);
    assert NextNode(cfg, EXECUTE_METRIC, s) == Answering(cfg);
    hide VisitNode, NextNode, RunFrom, ComesTo, QueryAll, Composes, Finished;
    if ExecuteMetric(cfg, turn, s).Updated? {
      AnsweringComesTo(cfg, turn, s);
      StepComesTo(cfg, turn, EXECUTE_METRIC, s, s, QueryAll(turn, qs).1, Finished(cfg, turn));
    } else {
      RaisedComesTo(cfg, turn, EXECUTE_METRIC, s, ExecuteMetric(cfg, turn, s).events);
    }
  }

  lemma {:induction false} RequestComesTo(cfg: Config, turn: Turn, s: AgentState)
    requires VerdictOf(s) == Answered
    ensures ComesTo(RunFrom(cfg, turn, PLAN_METRIC_REQUEST, s), FromRequest(cfg, turn, s.authorizedMetrics, s.additionalQueries))
  {
    assert VisitNode(cfg, turn, PLAN_METRIC_REQUEST, s) == PlanMetricRequest(cfg, turn, s);
    var sent := Sent(PlanLookups(turn, if cfg.plannerEntityValues then turn.route.planDimensions else []).1);
    hide RunFrom, ComesTo, PlanLookups, Sent, FromMetrics;
    if PlanMetricRequest(cfg, turn, s).Updated? {
      var after := s.(metricQuery := turn.planned);
      assert NextNode(cfg, PLAN_METRIC_REQUEST, after) == EXECUTE_METRIC;
      hide VisitNode, NextNode;
      MetricsComeTo(cfg, turn, after);
      StepComesTo(cfg, turn, PLAN_METRIC_REQUEST, s, after, sent,
                  FromMetrics(cfg, turn, s.authorizedMetrics, [turn.planned.value] + s.additionalQueries));
    } else {
      hide VisitNode, NextNode;
      RaisedComesTo(cfg, turn, PLAN_METRIC_REQUEST, s, sent);
    }
  }

  lemma {:induction false} FilteredCons(q: MetricQuery, qs: seq<MetricQuery>, filters: seq<Filter>, offers: (string, string) -> bool)
    ensures FilteredAll([q] + qs, filters, offers) == [Filtered(q, filters, offers)] + FilteredAll(qs, filters, offers)
  {
    assert ([q] + qs)[1..] == qs;
    hide Filtered;
  }

  lemma {:induction false} FilteredState(turn: Turn, s: AgentState, filters: seq<Filter>)
    requires s.metricQuery.Some? && filters != []
    ensures var after := WithFilters(turn, s, filters);
      && after.metricQuery.Some?
      && [after.metricQuery.value] + after.additionalQueries
         == Narrowly(turn, [s.metricQuery.value] + s.additionalQueries, filters)
      && VerdictOf(after) == VerdictOf(s.(executionRoute := GovernedMetric))
      && after.authorizedMetrics == s.authorizedMetrics && after.executionRoute == GovernedMetric
  {
    FilteredCons(s.metricQuery.value, s.additionalQueries, filters, (metric, dimension) => Offers(turn, metric, dimension));
    hide Filtered, FilteredAll;
  }

  /** The lookups of narrowing, and the state they lead to unless one fails. */
  lemma {:induction false} NarrowingVisit(cfg: Config, turn: Turn, s: AgentState) returns (after: AgentState)
    requires cfg.entityValues && s.metricQuery.Some? && VerdictOf(s) == Answered && s.pendingChoice.None?
    ensures var r := Narrow(turn, DimensionsToResolve(turn, [s.metricQuery.value] + s.additionalQueries), []);
      match r.0
      case LookupFailed => ResolveMetricEntities(cfg, turn, s) == Raised(Sent(r.1))
      case AmbiguousValue(question) =>
        && ResolveMetricEntities(cfg, turn, s) == Updated(after, Sent(r.1))
        && VerdictOf(after) == Asked(Some(question), None) && NextNode(cfg, RESOLVE_METRIC_ENTITIES, after) == CLARIFY
      case Narrowed(filters) =>
        && ResolveMetricEntities(cfg, turn, s) == Updated(after, Sent(r.1))
        && VerdictOf(after) == Answered && NextNode(cfg, RESOLVE_METRIC_ENTITIES, after) == EXECUTE_METRIC
        && after.metricQuery.Some? && after.authorizedMetrics == s.authorizedMetrics
        && [after.metricQuery.value] + after.additionalQueries
           == Narrowly(turn, [s.metricQuery.value] + s.additionalQueries, filters)
  {
    var r := Narrow(turn, DimensionsToResolve(turn, [s.metricQuery.value] + s.additionalQueries), []);
    after := s;
    hide Narrow, DimensionsToResolve, Sent, WithFilters, Narrowly;
    match r.0
    case LookupFailed =>
    case AmbiguousValue(question) =>
      after := ResolveMetricEntities(cfg, turn, s).state;
      hide NextNode;
      assert after.executionRoute == ClarifyRoute;
      AfterNarrowing(cfg, after);
    case Narrowed(filters) =>
      after := ResolveMetricEntities(cfg, turn, s).state;
      hide NextNode;
      if filters != [] {
        FilteredState(turn, s, filters);
      }
      assert after.executionRoute == GovernedMetric;
      AfterNarrowing(cfg, after);
  }

  lemma {:induction false} AfterNarrowing(cfg: Config, s: AgentState)
    ensures NextNode(cfg, RESOLVE_METRIC_ENTITIES, s) == if s.executionRoute.GovernedMetric? then EXECUTE_METRIC else CLARIFY
  {
  }

  lemma {:induction false} PlanComesTo(cfg: Config, turn: Turn, s: AgentState)
    requires VerdictOf(s) == Answered && s.metricQuery.Some? && s.pendingChoice.None?
    ensures ComesTo(RunFrom(cfg, turn, RESOLVE_METRIC_ENTITIES, s),
                    FromPlan(cfg, turn, s.authorizedMetrics, [s.metricQuery.value] + s.additionalQueries))
  {
    assert VisitNode(cfg, turn, RESOLVE_METRIC_ENTITIES, s) == ResolveMetricEntities(cfg, turn, s);
    var qs := [s.metricQuery.value] + s.additionalQueries;
    if !cfg.entityValues {
      var after := s.(executionRoute := GovernedMetric);
      assert NextNode(cfg, RESOLVE_METRIC_ENTITIES, after) == EXECUTE_METRIC;
      assert ResolveMetricEntities(cfg, turn, s) == Updated(after, []);
      hide VisitNode, NextNode, RunFrom, ComesTo, FromMetrics, ResolveMetricEntities;
      MetricsComeTo(cfg, turn, after);
      SilentlyComesTo(cfg, turn, RESOLVE_METRIC_ENTITIES, s, after, FromPlan(cfg, turn, s.authorizedMetrics, qs));
    } else {
      var after := NarrowingVisit(cfg, turn, s);
      var r := Narrow(turn, DimensionsToResolve(turn, qs), []);
      hide VisitNode, NextNode, RunFrom, ComesTo, FromMetrics, ResolveMetricEntities, Narrow, DimensionsToResolve, Sent,
        Narrowly, VerdictOf;
      match r.0
      case LookupFailed =>
        RaisedComesTo(cfg, turn, RESOLVE_METRIC_ENTITIES, s, Sent(r.1));
      case AmbiguousValue(question) =>
        LastNodesComeTo(cfg, turn, CLARIFY, after);
        StepComesTo(cfg, turn, RESOLVE_METRIC_ENTITIES, s, after, Sent(r.1), Outcome(Asked(Some(question), None), []));
      case Narrowed(filters) =>
        MetricsComeTo(cfg, turn, after);
        StepComesTo(cfg, turn, RESOLVE_METRIC_ENTITIES, s, after, Sent(r.1),
                    FromMetrics(cfg, turn, s.authorizedMetrics, Narrowly(turn, qs, filters)));
    }
  }

  lemma {:induction false} IntentComesTo(cfg: Config, turn: Turn, s: AgentState)
    requires Open(s)
    ensures ComesTo(RunFrom(cfg, turn, PLAN_METRIC_INTENT, s), FromIntent(cfg, turn, s.authorizedMetrics))
  {
    var after := PlanMetricIntent(turn, s);
    assert VisitNode(cfg, turn, PLAN_METRIC_INTENT, s) == Updated(after, []);
    match turn.intent
    case IntentClarify(question) =>
      LastNodesComeTo(cfg, turn, CLARIFY, after);
      assert NextNode(cfg, PLAN_METRIC_INTENT, after) == CLARIFY;
      hide VisitNode, NextNode, RunFrom, ComesTo, VerdictOf;
      SilentlyComesTo(cfg, turn, PLAN_METRIC_INTENT, s, after, Outcome(Asked(Some(question), None), []));
    case NoPlan =>
      RetrievedComesTo(cfg, turn, after);
      assert NextNode(cfg, PLAN_METRIC_INTENT, after) == RETRIEVE_SCHEMA;
      hide VisitNode, NextNode, RunFrom, ComesTo, Generated;
      SilentlyComesTo(cfg, turn, PLAN_METRIC_INTENT, s, after, Generated(cfg, turn));
    case MetricPlan(primary, extra) =>
      PlanComesTo(cfg, turn, after);
      assert NextNode(cfg, PLAN_METRIC_INTENT, after) == RESOLVE_METRIC_ENTITIES;
      hide VisitNode, NextNode, RunFrom, ComesTo, FromPlan;
      SilentlyComesTo(cfg, turn, PLAN_METRIC_INTENT, s, after, FromPlan(cfg, turn, s.authorizedMetrics, [primary] + extra));
  }

  // ---------------------------------------------------------------------------------------------
  // From the start

  /** Where the router leads, and the state it leads there with. */
  lemma {:induction false} RouteVisit(cfg: Config, turn: Turn, s: AgentState) returns (after: AgentState, route: Route)
    requires Open(s) && !(turn.route.unauthorizedMetric && !cfg.semanticGoverned)
    ensures route == if turn.route.unauthorizedMetric then AdhocAnalytics else turn.route.route
    ensures VisitNode(cfg, turn, ROUTE_QUERY, s) == Updated(after, [])
    ensures after.authorizedMetrics == s.authorizedMetrics && after.additionalQueries == s.additionalQueries
    ensures match route
      case ClarifyRoute =>
        VerdictOf(after) == Asked(turn.route.clarificationQuestion, None) && NextNode(cfg, ROUTE_QUERY, after) == CLARIFY
      case BlockRoute => VerdictOf(after) == Refused(turn.route.blockReason) && NextNode(cfg, ROUTE_QUERY, after) == BLOCK
      case GovernedMetric =>
        Open(after)
        && NextNode(cfg, ROUTE_QUERY, after) == if cfg.semanticGoverned then PLAN_METRIC_INTENT else PLAN_METRIC_REQUEST
      case AdhocAnalytics =>
        Open(after)
        && NextNode(cfg, ROUTE_QUERY, after) == if cfg.semanticGoverned then PLAN_METRIC_INTENT else RETRIEVE_SCHEMA
  {
    route := if turn.route.unauthorizedMetric then AdhocAnalytics else turn.route.route;
    assert VisitNode(cfg, turn, ROUTE_QUERY, s) == RouteQuery(cfg, turn, s);
    hide VisitNode;
    after := RouteQuery(cfg, turn, s).state;
  }

  lemma {:induction false} RoutedComesTo(cfg: Config, turn: Turn, s: AgentState)
    requires Open(s)
    ensures ComesTo(RunFrom(cfg, turn, ROUTE_QUERY, s), FromRoute(cfg, turn, s.authorizedMetrics, s.additionalQueries))
  {
    var o := FromRoute(cfg, turn, s.authorizedMetrics, s.additionalQueries);
    if turn.route.unauthorizedMetric && !cfg.semanticGoverned {
      assert VisitNode(cfg, turn, ROUTE_QUERY, s) == Raised([]);
      hide VisitNode, RunFrom, ComesTo;
      RaisedComesTo(cfg, turn, ROUTE_QUERY, s, []);
      assert After([], Outcome(Broken, [])) == Outcome(Broken, []);
    } else {
      hide VisitNode, NextNode, RunFrom, ComesTo, FromIntent, FromRequest, Generated;
      var after, route := RouteVisit(cfg, turn, s);
      match route {
        case ClarifyRoute => LastNodesComeTo(cfg, turn, CLARIFY, after);
        case BlockRoute => LastNodesComeTo(cfg, turn, BLOCK, after);
        case GovernedMetric =>
          if cfg.semanticGoverned {
            IntentComesTo(cfg, turn, after);
          } else {
            RequestComesTo(cfg, turn, after);
          }
        case AdhocAnalytics =>
          if cfg.semanticGoverned {
            IntentComesTo(cfg, turn, after);
          } else {
            RetrievedComesTo(cfg, turn, after);
          }
      }
      hide Open, VerdictOf;
      SilentlyComesTo(cfg, turn, ROUTE_QUERY, s, after, o);
    }
  }

  lemma {:induction false} QuestionComesTo(cfg: Config, turn: Turn, s: AgentState)
    requires Open(s)
    ensures ComesTo(RunFrom(cfg, turn, if cfg.routerEnabled then ROUTE_QUERY else RETRIEVE_SCHEMA, s),
                    FromQuestion(cfg, turn, s.authorizedMetrics, s.additionalQueries))
  {
    hide RunFrom, ComesTo, FromRoute, Generated, Open;
    if cfg.routerEnabled {
      RoutedComesTo(cfg, turn, s);
    } else {
      RetrievedComesTo(cfg, turn, s);
    }
  }

  /** What resolving the question's entities leaves: a question back, or a state still open. */
  lemma {:induction false} EntitiesVisit(cfg: Config, turn: Turn, s: AgentState) returns (after: AgentState)
    requires Open(s) && s.pinnedEntities == []
    ensures var r := QuestionEntities(cfg, turn);
      match r.0
      case None => ResolveQuestionEntities(cfg, turn, s) == Raised(Sent(r.1))
      case Some(Ambiguous(entityName, candidates, true)) =>
        && ResolveQuestionEntities(cfg, turn, s) == Updated(after, Sent(r.1))
        && VerdictOf(after) == Asked(Some(WhichEntity(entityName, candidates)), Some(PendingOf(cfg, turn)))
        && NextNode(cfg, RESOLVE_QUESTION_ENTITIES, after) == CLARIFY
      case Some(_) =>
        && ResolveQuestionEntities(cfg, turn, s) == Updated(after, Sent(r.1))
        && Open(after) && after.authorizedMetrics == s.authorizedMetrics && after.additionalQueries == s.additionalQueries
        && NextNode(cfg, RESOLVE_QUESTION_ENTITIES, after) == if cfg.routerEnabled then ROUTE_QUERY else RETRIEVE_SCHEMA
  {
    hide QuestionEntities, Sent, ChoicesText, OfferedChoices;
    after := s;
    if QuestionEntities(cfg, turn).0.Some? {
      after := ResolveQuestionEntities(cfg, turn, s).state;
    }
  }

  lemma {:induction false} PinnedComesTo(cfg: Config, turn: Turn, s: AgentState)
    requires Open(s) && s.pinnedEntities != []
    ensures ComesTo(RunFrom(cfg, turn, RESOLVE_QUESTION_ENTITIES, s),
                    FromQuestion(cfg, turn, s.authorizedMetrics, s.additionalQueries))
  {
    var after := s.(resolvedEntities := s.pinnedEntities);
    assert VisitNode(cfg, turn, RESOLVE_QUESTION_ENTITIES, s) == Updated(after, []);
    assert NextNode(cfg, RESOLVE_QUESTION_ENTITIES, after) == if cfg.routerEnabled then ROUTE_QUERY else RETRIEVE_SCHEMA;
    assert Open(after);
    hide VisitNode, NextNode, RunFrom, ComesTo, FromQuestion, Open;
    QuestionComesTo(cfg, turn, after);
    SilentlyComesTo(cfg, turn, RESOLVE_QUESTION_ENTITIES, s, after,
                    FromQuestion(cfg, turn, s.authorizedMetrics, s.additionalQueries));
  }

  lemma {:induction false} EntitiesComeTo(cfg: Config, turn: Turn, s: AgentState)
    requires Open(s)
    ensures ComesTo(RunFrom(cfg, turn, RESOLVE_QUESTION_ENTITIES, s),
                    FromEntities(cfg, turn, s.authorizedMetrics, s.pinnedEntities != [], s.additionalQueries))
  {
    if s.pinnedEntities != [] {
      PinnedComesTo(cfg, turn, s);
    } else {
      var after := EntitiesVisit(cfg, turn, s);
      assert VisitNode(cfg, turn, RESOLVE_QUESTION_ENTITIES, s) == ResolveQuestionEntities(cfg, turn, s);
      var r := QuestionEntities(cfg, turn);
      hide VisitNode, NextNode, RunFrom, ComesTo, FromQuestion, Open, VerdictOf, QuestionEntities, Sent,
        ResolveQuestionEntities, WhichEntity;
      match r.0
      case None =>
        RaisedComesTo(cfg, turn, RESOLVE_QUESTION_ENTITIES, s, Sent(r.1));
      case Some(Ambiguous(entityName, candidates, true)) =>
        LastNodesComeTo(cfg, turn, CLARIFY, after);
        StepComesTo(cfg, turn, RESOLVE_QUESTION_ENTITIES, s, after, Sent(r.1),
                    Outcome(Asked(Some(WhichEntity(entityName, candidates)), Some(PendingOf(cfg, turn))), []));
      case Some(_) =>
        QuestionComesTo(cfg, turn, after);
        StepComesTo(cfg, turn, RESOLVE_QUESTION_ENTITIES, s, after, Sent(r.1),
                    FromQuestion(cfg, turn, s.authorizedMetrics, s.additionalQueries));
    }
  }

  /**
   * The graph refines the straight account of a turn: from any leftover state whatever, it sends exactly
   * the same to validator, repair model, database and metric provider, in the same order, ends the same
   * way, asks or refuses with the same words, and records the same for the next turn.
   */
  lemma {:induction false} TurnComesToWhatIsExpected(cfg: Config, turn: Turn, leftover: AgentState)
    ensures ComesTo(RunTurn(cfg, turn, leftover), Expected(cfg, turn, leftover.context, leftover.additionalQueries))
  {
    var prepared := PrepareRequest(turn, leftover);
    var o := Expected(cfg, turn, leftover.context, leftover.additionalQueries);
    assert VisitNode(cfg, turn, PREPARE_REQUEST, leftover) == Updated(prepared, []);
    assert NextNode(cfg, PREPARE_REQUEST, prepared) == AUTHORIZE_REQUEST;
    PreparedIsOpen(turn, leftover);
    hide PrepareRequest;
    if turn.authorized.None? {
      assert VisitNode(cfg, turn, AUTHORIZE_REQUEST, prepared) == Raised([]);
      hide VisitNode, NextNode, RunFrom, ComesTo;
      RaisedComesTo(cfg, turn, AUTHORIZE_REQUEST, prepared, []);
      assert After([], Outcome(Broken, [])) == o;
    } else {
      var ready := prepared.(authorizedMetrics := turn.authorized.value);
      assert VisitNode(cfg, turn, AUTHORIZE_REQUEST, prepared) == Updated(ready, []);
      assert NextNode(cfg, AUTHORIZE_REQUEST, ready) == RESOLVE_QUESTION_ENTITIES;
      assert Open(ready);
      hide VisitNode, NextNode, RunFrom, ComesTo, FromEntities, FromQuestion, Open;
      EntitiesComeTo(cfg, turn, ready);
      SilentlyComesTo(cfg, turn, AUTHORIZE_REQUEST, prepared, ready, o);
    }
    SilentlyComesTo(cfg, turn, PREPARE_REQUEST, leftover, prepared, o);
  }

  lemma {:induction false} PreparedIsOpen(turn: Turn, s: AgentState)
    ensures var r := PrepareRequest(turn, s);
      && Open(r) && r.pinnedEntities == ResumeClarified(turn, s.context).1 && r.additionalQueries == s.additionalQueries
      && r.executionRoute == AdhocAnalytics && r.validationAttempts == 0
      && r.resolvedEntities == [] && !r.repairSucceeded && r.initialErrorCode.None?
  {
    hide ResumeClarified;
  }

  // ---------------------------------------------------------------------------------------------
  // When a turn validates, repairs and executes

  /** The router's decision, or the lack of one, leads to written SQL. */
  predicate RoutesToSql(cfg: Config, turn: Turn) {
    var d := turn.route;
    if !cfg.routerEnabled then true
    else if cfg.semanticGoverned then
      (d.unauthorizedMetric || d.route == GovernedMetric || d.route == AdhocAnalytics) && turn.intent.NoPlan?
    else !d.unauthorizedMetric && d.route == AdhocAnalytics
  }

  /** The question is settled: it is a reply, or no lookup failed and none left an actionable choice. */
  predicate Settled(cfg: Config, turn: Turn, context: Option<AnalyticalContext>) {
    || ResumeClarified(turn, context).1 != []
    || (var r := QuestionEntities(cfg, turn).0; r.Some? && !(r.value.Ambiguous? && r.value.actionable))
  }

  predicate WritesSql(turn: Turn) {
    turn.generation.Some? && turn.generation.value.action == Execute && turn.generation.value.sql.Some?
  }

  predicate GoesToSql(cfg: Config, turn: Turn, context: Option<AnalyticalContext>) {
    turn.authorized.Some? && Settled(cfg, turn, context) && RoutesToSql(cfg, turn) && WritesSql(turn)
  }

  ghost predicate NoSql(events: seq<Event>) {
    forall e :: e in events ==> !e.Validated? && !e.Repaired? && !e.Executed?
  }

  lemma {:induction false} QueriesAreNoSql(turn: Turn, qs: seq<MetricQuery>)
    ensures NoSql(QueryAll(turn, qs).1)
  {
    if qs != [] {
      QueriesAreNoSql(turn, qs[1..]);
    }
  }

  lemma {:induction false} MetricsAreNoSql(cfg: Config, turn: Turn, allowed: set<string>, qs: seq<MetricQuery>)
    requires qs != []
    ensures NoSql(FromMetrics(cfg, turn, allowed, qs).events)
  {
    QueriesAreNoSql(turn, qs);
    hide QueryAll, Composes;
  }

  lemma {:induction false} LookupsAreNoSql(ls: seq<L.Lookup>, o: Outcome)
    ensures NoSql(After(Sent(ls), o).events) <==> NoSql(o.events)
  {
    forall e | e in o.events ensures e in After(Sent(ls), o).events {
    }
  }

  lemma {:induction false} PlanIsNoSql(cfg: Config, turn: Turn, allowed: set<string>, qs: seq<MetricQuery>)
    requires qs != []
    ensures NoSql(FromPlan(cfg, turn, allowed, qs).events)
  {
    MetricsAreNoSql(cfg, turn, allowed, qs);
    if cfg.entityValues {
      var r := Narrow(turn, DimensionsToResolve(turn, qs), []);
      hide FromMetrics, Narrow, DimensionsToResolve, Narrowly, NoSql, Sent;
      NothingIsNoSql();
      if r.0.Narrowed? {
        NarrowlyKeepsCount(turn, qs, r.0.filters);
        var o := FromMetrics(cfg, turn, allowed, Narrowly(turn, qs, r.0.filters));
        MetricsAreNoSql(cfg, turn, allowed, Narrowly(turn, qs, r.0.filters));
        LookupsAreNoSql(r.1, o);
      } else {
        LookupsAreNoSql(r.1, Outcome(Broken, []));
        if r.0.AmbiguousValue? {
          LookupsAreNoSql(r.1, Outcome(Asked(Some(r.0.question), None), []));
        }
      }
      hide After;
    }
  }

  lemma {:induction false} NothingIsNoSql()
    ensures NoSql([])
  {
  }

  lemma {:induction false} RequestIsNoSql(cfg: Config, turn: Turn, allowed: set<string>, left: seq<MetricQuery>)
    ensures NoSql(FromRequest(cfg, turn, allowed, left).events)
  {
    var r := PlanLookups(turn, if cfg.plannerEntityValues then turn.route.planDimensions else []);
    hide FromMetrics, PlanLookups, NoSql, Sent;
    NothingIsNoSql();
    LookupsAreNoSql(r.1, Outcome(Broken, []));
    if turn.planned.Some? {
      MetricsAreNoSql(cfg, turn, allowed, [turn.planned.value] + left);
      LookupsAreNoSql(r.1, FromMetrics(cfg, turn, allowed, [turn.planned.value] + left));
    }
    hide After;
  }

  lemma {:induction false} GeneratedSql(cfg: Config, turn: Turn)
    ensures if WritesSql(turn) then Generated(cfg, turn) == FromSql(cfg, turn, turn.generation.value.sql.value)
      else NoSql(Generated(cfg, turn).events)
  {
    hide FromSql;
  }

  /** From the question on: the events are those of the one statement, or none about SQL at all. */
  lemma {:induction false} QuestionSql(cfg: Config, turn: Turn, allowed: set<string>, left: seq<MetricQuery>)
    ensures var o := FromQuestion(cfg, turn, allowed, left);
      if RoutesToSql(cfg, turn) && WritesSql(turn) then o == FromSql(cfg, turn, turn.generation.value.sql.value)
      else NoSql(o.events)
  {
    GeneratedSql(cfg, turn);
    RequestIsNoSql(cfg, turn, allowed, left);
    if turn.intent.MetricPlan? {
      PlanIsNoSql(cfg, turn, allowed, [turn.intent.primary] + turn.intent.extra);
    }
    NothingIsNoSql();
    hide FromPlan, FromRequest, FromSql, Generated, NoSql, WritesSql;
  }

  lemma {:induction false} ExpectedSql(cfg: Config, turn: Turn, context: Option<AnalyticalContext>, left: seq<MetricQuery>)
    returns (before: seq<Event>)
    ensures NoSql(before)
    ensures var events := Expected(cfg, turn, context, left).events;
      if GoesToSql(cfg, turn, context) then events == before + FromSql(cfg, turn, turn.generation.value.sql.value).events
      else NoSql(events)
  {
    before := [];
    NothingIsNoSql();
    if turn.authorized.Some? {
      var allowed, pinned := turn.authorized.value, ResumeClarified(turn, context).1 != [];
      var goesOn := RoutesToSql(cfg, turn) && WritesSql(turn);
      var events := FromQuestion(cfg, turn, allowed, left).events;
      QuestionSql(cfg, turn, allowed, left);
      assert Expected(cfg, turn, context, left) == FromEntities(cfg, turn, allowed, pinned, left);
      assert GoesToSql(cfg, turn, context) <==> Settled(cfg, turn, context) && goesOn;
      hide FromQuestion, FromSql, QuestionEntities, ResumeClarified, RoutesToSql, WritesSql, NoSql, Expected, GoesToSql, Sent;
      if pinned {
        assert [] + events == events;
      } else {
        SettledSql(cfg, turn, allowed, left);
        before := Sent(QuestionEntities(cfg, turn).1);
        hide FromEntities;
        NoSqlAfter(before, events);
        assert before + [] == before;
      }
    }
  }

  lemma {:induction false} NoSqlAfter(a: seq<Event>, b: seq<Event>)
    requires NoSql(a)
    ensures NoSql(a + b) <==> NoSql(b)
  {
    forall e | e in b ensures e in a + b {
    }
  }

  /** Resolving the question's entities sends lookups only, and goes on exactly when that settles the question. */
  lemma {:induction false} SettledSql(cfg: Config, turn: Turn, allowed: set<string>, left: seq<MetricQuery>)
    ensures var r, events := QuestionEntities(cfg, turn), FromEntities(cfg, turn, allowed, false, left).events;
      && NoSql(Sent(r.1))
      && if r.0.Some? && !(r.0.value.Ambiguous? && r.0.value.actionable)
         then events == Sent(r.1) + FromQuestion(cfg, turn, allowed, left).events
         else events == Sent(r.1) + []
  {
    hide FromQuestion, QuestionEntities, ChoicesText, PendingOf;
  }

  /** What one candidate statement leads to: each event exactly when the validator and the repair model say so. */
  lemma {:induction false} FromSqlExactly(cfg: Config, turn: Turn, sql: string, e: Event)
    ensures e in FromSql(cfg, turn, sql).events <==>
      match e
      case Validated(c) => c == sql || (WorthRepairing(turn, sql) && turn.repaired == Some(c))
      case Repaired(r) => WorthRepairing(turn, sql) && turn.repaired == Some(r)
      case Executed(x) =>
        Approves(turn, sql, x)
        || (WorthRepairing(turn, sql) && turn.repaired.Some? && Approves(turn, turn.repaired.value, x))
      case _ => false
  {
    hide Finished;
    var events := FromSql(cfg, turn, sql).events;
    ExecutingEvents(cfg, turn);
    hide Executing;
    var first := Approved(turn, sql);
    if first.Some? {
      assert events == [Validated(sql), Executed(first.value)];
    } else if !WorthRepairing(turn, sql) || turn.repaired.None? {
      assert events == [Validated(sql)];
    } else {
      var again := turn.repaired.value;
      var second := Approved(turn, again);
      assert events == [Validated(sql), Repaired(again), Validated(again)]
        + if second.Some? then [Executed(second.value)] else [];
    }
  }

  lemma {:induction false} ExecutingEvents(cfg: Config, turn: Turn)
    ensures forall x :: Executing(cfg, turn, x).events == [Executed(x)]
  {
    forall x ensures Executing(cfg, turn, x).events == [Executed(x)] {
      assert Executing(cfg, turn, x).events == [Executed(x)] + [];
    }
  }

  /**
   * Over every turn, from any leftover state: SQL is validated, repaired and executed exactly when the
   * turn goes to SQL, and then exactly as its one statement, or else the one repair of it, deserves.
   */
  lemma {:induction false} SqlIsSentExactly(cfg: Config, turn: Turn, leftover: AgentState, e: Event)
    requires e.Validated? || e.Repaired? || e.Executed?
    ensures e in RunTurn(cfg, turn, leftover).events <==>
      && GoesToSql(cfg, turn, leftover.context)
      && var sql := turn.generation.value.sql.value;
         match e
         case Validated(c) => c == sql || (WorthRepairing(turn, sql) && turn.repaired == Some(c))
         case Repaired(r) => WorthRepairing(turn, sql) && turn.repaired == Some(r)
         case Executed(x) =>
           Approves(turn, sql, x)
           || (WorthRepairing(turn, sql) && turn.repaired.Some? && Approves(turn, turn.repaired.value, x))
         case _ => false
  {
    TurnComesToWhatIsExpected(cfg, turn, leftover);
    var before := ExpectedSql(cfg, turn, leftover.context, leftover.additionalQueries);
    hide RunTurn, Expected, FromSql, WorthRepairing, Approves;
    if GoesToSql(cfg, turn, leftover.context) {
      FromSqlExactly(cfg, turn, turn.generation.value.sql.value, e);
    }
    hide GoesToSql;
  }

  // ---------------------------------------------------------------------------------------------
  // Which values the filters carry

  /** The entity values of the question for one entity of a metric's dimensions, unless a lookup fails. */
  function ValuesFor(turn: Turn, entity: string): Option<seq<L.Candidate>> {
    L.Resolve(turn.source, turn.question, Some(entity)).0
  }

  predicate OneAtMost(turn: Turn, entity: string) {
    ValuesFor(turn, entity).Some? && |ValuesFor(turn, entity).value| <= 1
  }

  predicate NamesValue(turn: Turn, entity: string) {
    ValuesFor(turn, entity).Some? && |ValuesFor(turn, entity).value| == 1
  }

  /** Dimension `i` is the last of this key for which the question names a value. */
  ghost predicate NamedLast(turn: Turn, dimensions: seq<(string, string)>, key: string, i: int) {
    && 0 <= i < |dimensions| && dimensions[i].0 == key && NamesValue(turn, dimensions[i].1)
    && forall j :: i < j < |dimensions| && dimensions[j].0 == key ==> !NamesValue(turn, dimensions[j].1)
  }

  /** No dimension is filtered twice. */
  ghost predicate OnePerDimension(filters: seq<Filter>) {
    forall i, j :: 0 <= i < j < |filters| ==> filters[i].dimension != filters[j].dimension
  }

  ghost predicate Carries(filters: seq<Filter>, key: string, value: string) {
    Filter(key, value) in filters
  }

  lemma {:induction false} PutFilterExactly(filters: seq<Filter>, f: Filter, key: string, value: string)
    requires OnePerDimension(filters)
    ensures OnePerDimension(PutFilter(filters, f))
    ensures forall g :: g in PutFilter(filters, f) ==> g == f || g in filters
    ensures Carries(PutFilter(filters, f), key, value) <==>
      if key == f.dimension then value == f.value else Carries(filters, key, value)
  {
    if filters != [] {
      var rest := filters[1..];
      assert filters == [filters[0]] + rest;
      if filters[0].dimension == f.dimension {
        assert PutFilter(filters, f) == [f] + rest;
        forall g | g in rest ensures g.dimension != f.dimension {
          var j :| 0 <= j < |rest| && rest[j] == g;
          assert filters[j + 1] == g;
        }
      } else {
        PutFilterExactly(rest, f, key, value);
        var put := PutFilter(rest, f);
        forall g | g in rest ensures g.dimension != filters[0].dimension {
          var j :| 0 <= j < |rest| && rest[j] == g;
          assert filters[j + 1] == g;
        }
        assert forall j :: 0 <= j < |put| ==> put[j] in put;
      }
    }
  }

  /** The filters to go on with after the first dimension, if it names at most one value. */
  function Next(turn: Turn, dimension: (string, string), filters: seq<Filter>): seq<Filter> {
    if NamesValue(turn, dimension.1) then PutFilter(filters, Filter(dimension.0, ValuesFor(turn, dimension.1).value[0].displayValue))
    else filters
  }

  lemma {:induction false} NarrowStep(turn: Turn, dimensions: seq<(string, string)>, filters: seq<Filter>)
    requires dimensions != []
    ensures var r, first := Narrow(turn, dimensions, filters).0, dimensions[0];
      if OneAtMost(turn, first.1) then r == Narrow(turn, dimensions[1..], Next(turn, first, filters)).0
      else if ValuesFor(turn, first.1).None? then r == LookupFailed
      else r == AmbiguousValue(WhichEntity(first.1, ChoicesOf(ValuesFor(turn, first.1).value)))
  {
    hide L.Resolve, PutFilter, ChoicesText;
  }

  /** Narrowing goes through exactly when no lookup fails and no dimension's value could be several. */
  lemma {:induction false} NarrowedExactly(turn: Turn, dimensions: seq<(string, string)>, filters: seq<Filter>)
    ensures Narrow(turn, dimensions, filters).0.Narrowed? <==>
      forall i :: 0 <= i < |dimensions| ==> OneAtMost(turn, dimensions[i].1)
    decreases |dimensions|
  {
    if dimensions != [] {
      NarrowStep(turn, dimensions, filters);
      NarrowedExactly(turn, dimensions[1..], Next(turn, dimensions[0], filters));
      hide Narrow, OneAtMost, Next;
      assert forall i :: 0 < i < |dimensions| ==> dimensions[i] == dimensions[1..][i - 1];
    }
  }

  lemma {:induction false} NamedLastStep(turn: Turn, dimensions: seq<(string, string)>, key: string, i: int)
    requires dimensions != []
    ensures i > 0 ==> (NamedLast(turn, dimensions, key, i) <==> NamedLast(turn, dimensions[1..], key, i - 1))
    ensures NamedLast(turn, dimensions, key, 0) <==>
      dimensions[0].0 == key && NamesValue(turn, dimensions[0].1) && !NamedSome(turn, dimensions[1..], key)
  {
    hide NamesValue;
    var rest := dimensions[1..];
    assert forall j :: 0 < j < |dimensions| ==> dimensions[j] == rest[j - 1];
    if forall k :: !NamedLast(turn, rest, key, k) {
      NamedSomewhere(turn, rest, key);
    }
  }

  ghost predicate NamedSome(turn: Turn, dimensions: seq<(string, string)>, key: string) {
    exists i :: NamedLast(turn, dimensions, key, i)
  }

  lemma {:induction false} NamedSomewhere(turn: Turn, dimensions: seq<(string, string)>, key: string)
    ensures NamedSome(turn, dimensions, key) <==>
      exists i :: 0 <= i < |dimensions| && dimensions[i].0 == key && NamesValue(turn, dimensions[i].1)
  {
    hide NamesValue;
    if dimensions != [] {
      var n := |dimensions| - 1;
      NamedSomewhere(turn, dimensions[..n], key);
      if dimensions[n].0 == key && NamesValue(turn, dimensions[n].1) {
        assert NamedLast(turn, dimensions, key, n);
      } else if i :| NamedLast(turn, dimensions[..n], key, i) {
        assert NamedLast(turn, dimensions, key, i);
      }
    }
  }

  /** The value is the one the question names last for this dimension, or else was there before. */
  ghost predicate CarriesNamed(
    turn: Turn, dimensions: seq<(string, string)>, filters: seq<Filter>, key: string, value: string)
  {
    if NamedSome(turn, dimensions, key) then
      exists i :: NamedLast(turn, dimensions, key, i) && ValuesFor(turn, dimensions[i].1).value[0].displayValue == value
    else Carries(filters, key, value)
  }

  lemma {:induction false} CarriesNamedStep(
    turn: Turn, dimensions: seq<(string, string)>, filters: seq<Filter>, key: string, value: string)
    requires OnePerDimension(filters) && dimensions != []
    ensures OnePerDimension(Next(turn, dimensions[0], filters))
    ensures CarriesNamed(turn, dimensions, filters, key, value)
       <==> CarriesNamed(turn, dimensions[1..], Next(turn, dimensions[0], filters), key, value)
  {
    var first, rest, next := dimensions[0], dimensions[1..], Next(turn, dimensions[0], filters);
    NextCarries(turn, first, filters, key, value);
    NamedLastStep(turn, dimensions, key, 0);
    hide *;
    if NamedSome(turn, rest, key) {
      NamedLater(turn, dimensions, key);
      CarriesLater(turn, dimensions, filters, next, key, value);
    } else {
      CarriesNow(turn, dimensions, filters, key, value);
    }
  }

  lemma {:induction false} NextCarries(turn: Turn, first: (string, string), filters: seq<Filter>, key: string, value: string)
    requires OnePerDimension(filters)
    ensures OnePerDimension(Next(turn, first, filters))
    ensures Carries(Next(turn, first, filters), key, value) <==>
      if first.0 == key && NamesValue(turn, first.1) then value == ValuesFor(turn, first.1).value[0].displayValue
      else Carries(filters, key, value)
  {
    if NamesValue(turn, first.1) {
      PutFilterExactly(filters, Filter(first.0, ValuesFor(turn, first.1).value[0].displayValue), key, value);
    }
    hide PutFilter, ValuesFor, Carries, OnePerDimension;
  }

  lemma {:induction false} NamedLater(turn: Turn, dimensions: seq<(string, string)>, key: string)
    requires dimensions != [] && NamedSome(turn, dimensions[1..], key)
    ensures NamedSome(turn, dimensions, key)
  {
    hide NamedLast;
    var i :| NamedLast(turn, dimensions[1..], key, i);
    IsThere(turn, dimensions[1..], key, i);
    NamedLastStep(turn, dimensions, key, i + 1);
  }

  lemma {:induction false} IsThere(turn: Turn, dimensions: seq<(string, string)>, key: string, i: int)
    requires NamedLast(turn, dimensions, key, i)
    ensures 0 <= i < |dimensions| && NamesValue(turn, dimensions[i].1)
  {
    hide NamesValue;
  }

  /** A value named later overrides whatever came first. */
  lemma {:induction false} CarriesLater(
    turn: Turn, dimensions: seq<(string, string)>, filters: seq<Filter>, next: seq<Filter>, key: string, value: string)
    requires dimensions != [] && NamedSome(turn, dimensions[1..], key) && NamedSome(turn, dimensions, key)
    ensures CarriesNamed(turn, dimensions, filters, key, value) <==> CarriesNamed(turn, dimensions[1..], next, key, value)
  {
    var i :| NamedLast(turn, dimensions[1..], key, i);
    IsThere(turn, dimensions[1..], key, i);
    NamedLastStep(turn, dimensions, key, i + 1);
    OnlyOneLast(turn, dimensions, key, i + 1);
    OnlyOneLast(turn, dimensions[1..], key, i);
    assert dimensions[1..][i] == dimensions[i + 1];
    hide NamedLast, ValuesFor;
  }

  /** With no value named later, the first dimension's decides, or else what was there. */
  lemma {:induction false} CarriesNow(
    turn: Turn, dimensions: seq<(string, string)>, filters: seq<Filter>, key: string, value: string)
    requires dimensions != [] && !NamedSome(turn, dimensions[1..], key) && OnePerDimension(filters)
    ensures CarriesNamed(turn, dimensions, filters, key, value)
       <==> CarriesNamed(turn, dimensions[1..], Next(turn, dimensions[0], filters), key, value)
  {
    NextCarries(turn, dimensions[0], filters, key, value);
    NamedLastStep(turn, dimensions, key, 0);
    hide NamesValue, ValuesFor, Carries, OnePerDimension, Next, NamedLast;
    if NamedLast(turn, dimensions, key, 0) {
      OnlyOneLast(turn, dimensions, key, 0);
    } else if i :| NamedLast(turn, dimensions, key, i) {
      IsThere(turn, dimensions, key, i);
      NamedLastStep(turn, dimensions, key, i);
    }
  }

  lemma {:induction false} OnlyOneLast(turn: Turn, dimensions: seq<(string, string)>, key: string, i: int)
    requires NamedLast(turn, dimensions, key, i)
    ensures forall j :: NamedLast(turn, dimensions, key, j) ==> j == i
  {
    hide NamesValue;
  }

  /**
   * What the filters are, once narrowing went through: for each dimension the value the question names
   * for it, the last where it names several in turn; and otherwise what they were.
   */
  lemma {:induction false} FiltersCarryExactly(
    turn: Turn, dimensions: seq<(string, string)>, filters: seq<Filter>, key: string, value: string)
    requires OnePerDimension(filters) && Narrow(turn, dimensions, filters).0.Narrowed?
    ensures var narrowed := Narrow(turn, dimensions, filters).0.filters;
      OnePerDimension(narrowed) && (Carries(narrowed, key, value) <==> CarriesNamed(turn, dimensions, filters, key, value))
    decreases |dimensions|
  {
    if dimensions != [] {
      NarrowStep(turn, dimensions, filters);
      CarriesNamedStep(turn, dimensions, filters, key, value);
      hide Narrow, PutFilter, ValuesFor, NamedLast, NamesValue, CarriesNamed, Carries, OnePerDimension, Next;
      FiltersCarryExactly(turn, dimensions[1..], Next(turn, dimensions[0], filters), key, value);
    }
  }

  /** A query keeps the filters on dimensions nothing new is known of, and gains the new ones its metric offers. */
  lemma {:induction false} FilteredExactly(q: MetricQuery, filters: seq<Filter>, offers: (string, string) -> bool, f: Filter)
    ensures f in Filtered(q, filters, offers).filters <==>
      || (f in q.filters && forall g :: g in filters ==> g.dimension != f.dimension)
      || (f in filters && offers(q.metric, f.dimension))
    ensures Filtered(q, filters, offers).(filters := q.filters) == q
  {
    WithoutExactly(q.filters, filters, f);
    ApplicableExactly(filters, q.metric, offers, f);
    hide Without, Applicable;
  }

  lemma {:induction false} WithoutExactly(filters: seq<Filter>, replaced: seq<Filter>, f: Filter)
    ensures f in Without(filters, replaced) <==> f in filters && forall g :: g in replaced ==> g.dimension != f.dimension
  {
    if filters != [] {
      WithoutExactly(filters[1..], replaced, f);
    }
  }

  lemma {:induction false} ApplicableExactly(filters: seq<Filter>, metric: string, offers: (string, string) -> bool, f: Filter)
    ensures f in Applicable(filters, metric, offers) <==> f in filters && offers(metric, f.dimension)
  {
    if filters != [] {
      ApplicableExactly(filters[1..], metric, offers, f);
    }
  }

  /** The dimensions looked up are exactly the entity dimensions of the metrics queried. */
  lemma {:induction false} DimensionsExactly(turn: Turn, qs: seq<MetricQuery>, key: string, entity: string)
    ensures (key, entity) in DimensionsToResolve(turn, qs) <==>
      exists q :: q in qs && turn.metricDimensions(q.metric).Some?
        && MetricDimension(key, Some(entity)) in turn.metricDimensions(q.metric).value
  {
    if qs != [] {
      DimensionsExactly(turn, qs[1..], key, entity);
      if turn.metricDimensions(qs[0].metric).Some? {
        EntityDimensionsExactly(turn.metricDimensions(qs[0].metric).value, key, entity);
      }
      hide EntityDimensions;
    }
  }

  lemma {:induction false} EntityDimensionsExactly(dimensions: seq<MetricDimension>, key: string, entity: string)
    ensures (key, entity) in EntityDimensions(dimensions) <==> MetricDimension(key, Some(entity)) in dimensions
  {
    if dimensions != [] {
      EntityDimensionsExactly(dimensions[1..], key, entity);
    }
  }

  /** A metric offers a dimension exactly when it is known to have one of that key. */
  lemma {:induction false} OffersExactly(turn: Turn, metric: string, key: string)
    ensures Offers(turn, metric, key) <==>
      turn.metricDimensions(metric).Some? && exists d :: d in turn.metricDimensions(metric).value && d.key == key
  {
    if turn.metricDimensions(metric).Some? {
      if d :| d in turn.metricDimensions(metric).value && d.key == key {
        var i :| 0 <= i < |turn.metricDimensions(metric).value| && turn.metricDimensions(metric).value[i] == d;
      }
    }
  }

  /** Planning a request looks its dimensions up in turn, and goes on exactly when none of them fails. */
  lemma {:induction false} PlanLookupsExactly(turn: Turn, dimensions: seq<string>)
    ensures PlanLookups(turn, dimensions).0 <==> forall d :: d in dimensions ==> ValuesFor(turn, d).Some?
    ensures dimensions != [] ==> L.Resolve(turn.source, turn.question, Some(dimensions[0])).1 <= PlanLookups(turn, dimensions).1
  {
    if dimensions != [] {
      PlanLookupsExactly(turn, dimensions[1..]);
      hide L.Resolve;
      assert forall d :: d in dimensions <==> d == dimensions[0] || d in dimensions[1..];
      assert dimensions[0] in dimensions;
      assert ValuesFor(turn, dimensions[0]) == L.Resolve(turn.source, turn.question, Some(dimensions[0])).0;
    }
  }

  /** The queries sent are the planned ones in order, up to and with the first that is not answered. */
  lemma {:induction false} QueriesExactly(turn: Turn, qs: seq<MetricQuery>) returns (n: nat)
    ensures n <= |qs| && |QueryAll(turn, qs).1| == n && forall i :: 0 <= i < n ==> QueryAll(turn, qs).1[i] == Queried(qs[i])
    ensures forall i :: 0 <= i < n - 1 ==> turn.measures(qs[i]).Some?
    ensures if QueryAll(turn, qs).0 then n == |qs| && (n > 0 ==> turn.measures(qs[n - 1]).Some?)
      else n > 0 && turn.measures(qs[n - 1]).None?
  {
    if qs == [] {
      n := 0;
    } else if turn.measures(qs[0]).None? {
      n := 1;
    } else {
      var k := QueriesExactly(turn, qs[1..]);
      n := k + 1;
      assert forall i :: 0 < i < |qs| ==> qs[i] == qs[1..][i - 1];
    }
  }

  /** How choices are worded: each as its key and its label, one after the other. */
  lemma {:induction false} ChoicesAreWorded(a: seq<Choice>, b: seq<Choice>, c: Choice)
    ensures ChoicesText([c]) == c.canonicalKey + " | " + c.displayValue
    ensures a != [] && b != [] ==> ChoicesText(a + b) == ChoicesText(a) + "; " + ChoicesText(b)
    decreases |a|
  {
    assert [c][1..] == [];
    if a != [] && b != [] {
      assert (a + b)[1..] == a[1..] + b;
      if |a| > 1 {
        ChoicesAreWorded(a[1..], b, c);
      } else {
        assert a[1..] + b == b && ChoicesText(a[1..]) == "";
      }
    }
  }

  // ---------------------------------------------------------------------------------------------
  // Replies, choices, and what is recorded

  /** The turn is a reply to what was asked: it names choice `i` and no other. */
  ghost predicate RepliesWith(turn: Turn, context: Option<AnalyticalContext>, i: int) {
    && context.Some? && context.value.clarificationState == Required && context.value.pendingChoice.Some?
    && var choices := context.value.pendingChoice.value.choices;
    && 0 <= i < |choices|
    && forall j :: 0 <= j < |choices| ==> (turn.names(turn.question, choices[j].canonicalKey) <==> j == i)
  }

  lemma {:induction false} SelectedOne(names: (string, string) -> bool, question: string, choices: seq<Choice>, i: nat)
    requires i < |choices|
    requires forall j :: 0 <= j < |choices| ==> (names(question, choices[j].canonicalKey) <==> j == i)
    ensures Selected(names, question, choices) == [choices[i]]
  {
    if i > 0 {
      SelectedOne(names, question, choices[1..], i - 1);
    } else {
      SelectedNone(names, question, choices[1..]);
    }
  }

  lemma {:induction false} SelectedNone(names: (string, string) -> bool, question: string, choices: seq<Choice>)
    ensures Selected(names, question, choices) == [] <==>
      forall j :: 0 <= j < |choices| ==> !names(question, choices[j].canonicalKey)
  {
    if choices != [] {
      SelectedNone(names, question, choices[1..]);
      assert forall j :: 0 < j < |choices| ==> choices[j] == choices[1..][j - 1];
    }
  }

  lemma {:induction false} SelectedIsOne(names: (string, string) -> bool, question: string, choices: seq<Choice>) returns (i: nat)
    requires |Selected(names, question, choices)| == 1
    ensures i < |choices|
    ensures forall j :: 0 <= j < |choices| ==> (names(question, choices[j].canonicalKey) <==> j == i)
  {
    assert forall j :: 0 < j < |choices| ==> choices[j] == choices[1..][j - 1];
    if names(question, choices[0].canonicalKey) {
      i := 0;
      SelectedNone(names, question, choices[1..]);
    } else {
      var k := SelectedIsOne(names, question, choices[1..]);
      i := k + 1;
    }
  }

  /**
   * A turn is taken as a reply exactly when a choice was left to make and it names one of them and no
   * other; then the earlier question is resumed with that choice, and otherwise the turn stands for itself.
   */
  lemma {:induction false} ResumedExactly(turn: Turn, context: Option<AnalyticalContext>)
    ensures ResumeClarified(turn, context).1 != [] <==> exists i :: RepliesWith(turn, context, i)
    ensures forall i :: RepliesWith(turn, context, i) ==>
      var pending := context.value.pendingChoice.value;
      ResumeClarified(turn, context) == (pending.originalQuestion, [PinnedEntity(pending.entityName, pending.choices[i])])
    ensures ResumeClarified(turn, context).1 == [] ==> ResumeClarified(turn, context).0 == turn.question
  {
    forall i | RepliesWith(turn, context, i)
      ensures var pending := context.value.pendingChoice.value;
        ResumeClarified(turn, context) == (pending.originalQuestion, [PinnedEntity(pending.entityName, pending.choices[i])])
    {
      SelectedOne(turn.names, turn.question, context.value.pendingChoice.value.choices, i);
    }
    if ResumeClarified(turn, context).1 != [] {
      var i := SelectedIsOne(turn.names, turn.question, context.value.pendingChoice.value.choices);
      assert RepliesWith(turn, context, i);
    }
    hide Selected;
  }

  /** The choices of a question back are the candidates that have a key to name, in their order. */
  lemma {:induction false} OfferedExactly(candidates: seq<Choice>, c: Choice)
    ensures c in OfferedChoices(candidates) <==> c in candidates && c.canonicalKey != ""
  {
    if candidates != [] {
      OfferedExactly(candidates[1..], c);
    }
  }

  /** What the question's entities resolve to: nothing, the one value found, or all of them to choose from. */
  lemma {:induction false} ResolutionExactly(turn: Turn, cs: seq<L.Candidate>)
    ensures ResolutionOf(turn, cs).Unresolved? <==> cs == []
    ensures |cs| == 1 ==>
      && ResolutionOf(turn, cs).Resolved? && ResolutionOf(turn, cs).entity.entity == cs[0].binding.entityName
      && ResolutionOf(turn, cs).entity.choice.canonicalKey == cs[0].canonicalKey
      && ResolutionOf(turn, cs).entity.choice.displayValue == cs[0].displayValue
      && ResolutionOf(turn, cs).entity.choice.canonicalColumn
         == cs[0].binding.schema + "." + cs[0].binding.table + "." + cs[0].binding.canonicalColumn
      && ResolutionOf(turn, cs).entity.choice.displayColumn
         == cs[0].binding.schema + "." + cs[0].binding.table + "." + cs[0].binding.displayColumn
    ensures |cs| > 1 ==>
      var r := ResolutionOf(turn, cs);
      && r.Ambiguous? && |r.candidates| == |cs|
      && (forall i :: 0 <= i < |cs| ==>
            r.candidates[i].canonicalKey == cs[i].canonicalKey && r.candidates[i].displayValue == cs[i].displayValue)
      && (if forall i :: 0 <= i < |cs| ==> cs[i].binding.entityName == cs[0].binding.entityName
          then r.entityName == cs[0].binding.entityName else r.entityName == "entity")
    ensures !ResolutionOf(turn, cs).Unresolved? ==> ResolutionOf(turn, cs).actionable == turn.actionable(cs)
  {
  }

  /** What the turn goes on to work with: the choice a reply made, or the one actionable value found, or nothing. */
  lemma {:induction false} ResolvedEntitiesExactly(cfg: Config, turn: Turn, s: AgentState)
    requires Open(s) && s.resolvedEntities == [] && ResolveQuestionEntities(cfg, turn, s).Updated?
    ensures var after, found := ResolveQuestionEntities(cfg, turn, s).state, Entities(cfg, turn);
      && after.resolvedEntities == (if s.pinnedEntities != [] then s.pinnedEntities
                                    else if found.Resolved? && found.actionable then [found.entity] else [])
      && (after.modelAction == Clarify <==> after.needsClarification || s.modelAction == Clarify)
  {
    hide QuestionEntities, ChoicesText, PendingOf, Sent;
    assert QuestionEntities(cfg, turn).0.Some? || s.pinnedEntities != [];
  }

  /** What a completed turn leaves as context is about itself: its question, and its last route and query. */
  ghost predicate Records(turn: Turn, resolved: string, s: AgentState) {
    && s.context.Some?
    && var c := s.context.value;
    && c.previousQuestion == turn.question && c.resolvedQuestion == resolved
    && c.metricQuery == s.metricQuery && c.pendingChoice == s.pendingChoice
    && c.executionRoute
       == if s.executionRoute == GovernedMetric || s.executionRoute == AdhocAnalytics then Some(s.executionRoute) else None
  }

  /** Both questions of a request, the one asked and the one it stands for, in the same place of the thread. */
  predicate SameQuestions(a: AgentState, b: AgentState) {
    a.question == b.question && a.resolvedQuestion == b.resolvedQuestion && a.answers == b.answers
  }

  lemma {:induction false} QuestionsKept(cfg: Config, turn: Turn, node: Node, s: AgentState)
    requires node != PREPARE_REQUEST && node != RECORD_CONTEXT && VisitNode(cfg, turn, node, s).Updated?
    ensures SameQuestions(VisitNode(cfg, turn, node, s).state, s)
  {
    hide ResolveQuestionEntities, PlanMetricIntent, ResolveMetricEntities, PlanMetricRequest, ExecuteMetric, GenerateSql,
      ValidateSql, RepairSql, ExecuteSql, RouteQuery;
  }

  lemma {:induction false} RunRecords(cfg: Config, turn: Turn, node: Node, s: AgentState, resolved: string)
    requires if node == PREPARE_REQUEST then resolved == ResumeClarified(turn, s.context).0
             else s.question == turn.question && s.resolvedQuestion == resolved
    ensures var x := RunFrom(cfg, turn, node, s);
      x.ending == Completed ==> Records(turn, resolved, x.state) && x.state.answers == s.answers + 1
    decreases Rank(node, s.repairAttempted)
  {
    hide NextNode, ResumeClarified;
    var visit := VisitNode(cfg, turn, node, s);
    if visit.Updated? && node != RECORD_CONTEXT {
      EdgesDescend(cfg, turn, node, s);
      NeverBackToStart(cfg, node, visit.state);
      if node != PREPARE_REQUEST {
        QuestionsKept(cfg, turn, node, s);
        hide VisitNode;
      }
      hide Records;
      RunRecords(cfg, turn, NextNode(cfg, node, visit.state), visit.state, resolved);
    }
  }

  lemma {:induction false} NeverBackToStart(cfg: Config, node: Node, s: AgentState)
    ensures NextNode(cfg, node, s) != PREPARE_REQUEST
  {
  }

  lemma {:induction false} TurnRecordsItself(cfg: Config, turn: Turn, leftover: AgentState)
    ensures var x := RunTurn(cfg, turn, leftover);
      x.ending == Completed ==>
        Records(turn, ResumeClarified(turn, leftover.context).0, x.state) && x.state.answers == leftover.answers + 1
  {
    RunRecords(cfg, turn, PREPARE_REQUEST, leftover, ResumeClarified(turn, leftover.context).0);
    hide RunFrom, Records;
  }

  /** The nodes from reading the schema on, which leave the route as they find it. */
  predicate LeavesRoute(node: Node) {
    || node == RETRIEVE_SCHEMA || node == GENERATE_SQL || node == VALIDATE_SQL || node == REPAIR_SQL || node == EXECUTE_SQL
    || node == CLARIFY || node == BLOCK || node == GROUND_ANSWER || node == FINALIZE_SQL_RESULT || node == RECORD_CONTEXT
  }

  lemma {:induction false} RouteStays(cfg: Config, turn: Turn, node: Node, s: AgentState)
    requires LeavesRoute(node) && VisitNode(cfg, turn, node, s).Updated?
    ensures var after := VisitNode(cfg, turn, node, s).state;
      after.executionRoute == s.executionRoute && LeavesRoute(NextNode(cfg, node, after))
  {
  }

  lemma {:induction false} RunKeepsRoute(cfg: Config, turn: Turn, node: Node, s: AgentState)
    requires LeavesRoute(node)
    ensures RunFrom(cfg, turn, node, s).state.executionRoute == s.executionRoute
    decreases Rank(node, s.repairAttempted)
  {
    hide VisitNode, NextNode;
    var visit := VisitNode(cfg, turn, node, s);
    if visit.Updated? {
      RouteStays(cfg, turn, node, s);
      if node != RECORD_CONTEXT {
        EdgesDescend(cfg, turn, node, s);
        RunKeepsRoute(cfg, turn, NextNode(cfg, node, visit.state), visit.state);
      }
    }
  }

  /** Without a router every turn that is not asked back about an entity is recorded as ad hoc, whatever came before. */
  lemma {:induction false} WithoutRouterIsAdhoc(cfg: Config, turn: Turn, leftover: AgentState)
    requires !cfg.routerEnabled && RunTurn(cfg, turn, leftover).ending == Completed
    ensures var route := RunTurn(cfg, turn, leftover).state.executionRoute;
      route == if Settled(cfg, turn, leftover.context) then AdhocAnalytics else ClarifyRoute
  {
    TurnComesToWhatIsExpected(cfg, turn, leftover);
    assert turn.authorized.Some?;
    var prepared := PrepareRequest(turn, leftover);
    var ready := prepared.(authorizedMetrics := turn.authorized.value);
    PreparedIsOpen(turn, leftover);
    OpenIsUnasked(prepared);
    assert VisitNode(cfg, turn, PREPARE_REQUEST, leftover) == Updated(prepared, []);
    assert NextNode(cfg, PREPARE_REQUEST, prepared) == AUTHORIZE_REQUEST;
    SilentStep(cfg, turn, PREPARE_REQUEST, leftover, prepared);
    hide PrepareRequest, Open;
    assert VisitNode(cfg, turn, AUTHORIZE_REQUEST, prepared) == Updated(ready, []);
    assert NextNode(cfg, AUTHORIZE_REQUEST, ready) == RESOLVE_QUESTION_ENTITIES;
    SilentStep(cfg, turn, AUTHORIZE_REQUEST, prepared, ready);
    SettledRoute(cfg, turn, leftover.context, ready);
    hide *;
  }

  lemma {:induction false} OpenIsUnasked(s: AgentState)
    requires Open(s)
    ensures !s.needsClarification
  {
  }

  lemma {:induction false} EntitiesRoute(cfg: Config, turn: Turn, context: Option<AnalyticalContext>, s: AgentState)
    requires !s.needsClarification && s.executionRoute == AdhocAnalytics
    requires s.pinnedEntities == ResumeClarified(turn, context).1
    requires ResolveQuestionEntities(cfg, turn, s).Updated?
    ensures var after := ResolveQuestionEntities(cfg, turn, s).state;
      && (after.needsClarification <==> !Settled(cfg, turn, context))
      && after.executionRoute == if Settled(cfg, turn, context) then AdhocAnalytics else ClarifyRoute
  {
    hide ResumeClarified, QuestionEntities, ChoicesText, PendingOf, OfferedChoices, Sent;
  }

  lemma {:induction false} SettledRoute(cfg: Config, turn: Turn, context: Option<AnalyticalContext>, s: AgentState)
    requires !cfg.routerEnabled && !s.needsClarification && s.executionRoute == AdhocAnalytics
    requires s.pinnedEntities == ResumeClarified(turn, context).1
    requires RunFrom(cfg, turn, RESOLVE_QUESTION_ENTITIES, s).ending == Completed
    ensures RunFrom(cfg, turn, RESOLVE_QUESTION_ENTITIES, s).state.executionRoute
         == if Settled(cfg, turn, context) then AdhocAnalytics else ClarifyRoute
  {
    assert VisitNode(cfg, turn, RESOLVE_QUESTION_ENTITIES, s) == ResolveQuestionEntities(cfg, turn, s);
    var visit := ResolveQuestionEntities(cfg, turn, s);
    hide VisitNode, RunFrom, ResolveQuestionEntities, Settled;
    if visit.Updated? {
      var after := visit.state;
      EntitiesRoute(cfg, turn, context, s);
      var next := NextNode(cfg, RESOLVE_QUESTION_ENTITIES, after);
      assert next == if after.needsClarification then CLARIFY else RETRIEVE_SCHEMA;
      hide NextNode;
      Step(cfg, turn, RESOLVE_QUESTION_ENTITIES, s, after, visit.events);
      RunKeepsRoute(cfg, turn, next, after);
    } else {
      RaisedComesTo(cfg, turn, RESOLVE_QUESTION_ENTITIES, s, visit.events);
    }
  }

  // ---------------------------------------------------------------------------------------------
  // What is said of a repair

  /** The generated statement is valid but for its time filter. */
  predicate MissesPeriod(turn: Turn)
    requires WritesSql(turn)
  {
    var v := turn.validate(turn.generation.value.sql.value);
    v.isValid && v.validatedSql.Some? && turn.temporalProblem(v.validatedSql.value).Some?
  }

  /** What was wrong with the generated statement. */
  function FirstError(turn: Turn): Option<string>
    requires WritesSql(turn)
  {
    if MissesPeriod(turn) then Some("missing_time_filter") else turn.validate(turn.generation.value.sql.value).errorCode
  }

  /** The correction a repair is asked for: this turn's missing period, or else whatever an earlier turn left. */
  function HintFor(turn: Turn, left: Option<string>): Option<string>
    requires WritesSql(turn)
  {
    if MissesPeriod(turn) then
      turn.temporalProblem(turn.validate(turn.generation.value.sql.value).validatedSql.value)
    else left
  }

  /** What the state says of errors and repairs on the way, with the correction an earlier turn left. */
  ghost predicate Diagnosed(turn: Turn, left: Option<string>, node: Node, s: AgentState) {
    match node
    case PREPARE_REQUEST => s.temporalRepairHint == left
    case VALIDATE_SQL =>
      && s.validatedSql.None? && !s.repairSucceeded
      && if s.repairAttempted then WritesSql(turn) && s.initialErrorCode == FirstError(turn)
         else
           && s.temporalRepairHint == left && s.initialErrorCode.None?
           && (s.generatedSql.Some? ==> WritesSql(turn) && s.generatedSql == turn.generation.value.sql)
    case REPAIR_SQL =>
      && WritesSql(turn) && s.validatedSql.None? && !s.repairSucceeded
      && s.temporalRepairHint == HintFor(turn, left) && s.initialErrorCode == FirstError(turn)
    case _ =>
      if LeavesRoute(node) && node != RETRIEVE_SCHEMA && node != GENERATE_SQL then
        if s.repairSucceeded then WritesSql(turn) && s.initialErrorCode == FirstError(turn) else s.initialErrorCode.None?
      else
        && s.temporalRepairHint == left && s.initialErrorCode.None? && !s.repairSucceeded
        && s.generatedSql.None? && s.validatedSql.None? && !s.repairAttempted
  }

  lemma {:induction false} PreparedDiagnosis(turn: Turn, s: AgentState)
    ensures var r := PrepareRequest(turn, s);
      && r.temporalRepairHint == s.temporalRepairHint && r.initialErrorCode.None? && !r.repairSucceeded
      && r.generatedSql.None? && r.validatedSql.None? && !r.repairAttempted
  {
    hide ResumeClarified;
  }

  lemma {:induction false} DiagnosedBefore(cfg: Config, turn: Turn, left: Option<string>, node: Node, s: AgentState)
    requires Diagnosed(turn, left, node, s) && node != RECORD_CONTEXT && VisitNode(cfg, turn, node, s).Updated?
    requires node != VALIDATE_SQL && node != REPAIR_SQL && node != GENERATE_SQL
    ensures var after := VisitNode(cfg, turn, node, s).state;
      Diagnosed(turn, left, NextNode(cfg, node, after), after)
  {
    hide PrepareRequest, ResolveQuestionEntities, PlanMetricIntent, ResolveMetricEntities, PlanMetricRequest, ExecuteMetric,
      ExecuteSql, RouteQuery, WritesSql, FirstError, HintFor;
    PreparedDiagnosis(turn, s);
  }

  lemma {:induction false} DiagnosedSql(cfg: Config, turn: Turn, left: Option<string>, node: Node, s: AgentState)
    requires Diagnosed(turn, left, node, s) && VisitNode(cfg, turn, node, s).Updated?
    requires node == VALIDATE_SQL || node == REPAIR_SQL || node == GENERATE_SQL
    ensures var after := VisitNode(cfg, turn, node, s).state;
      Diagnosed(turn, left, NextNode(cfg, node, after), after)
  {
  }

  /** The correction the repair of a run is asked for, if the run comes to one. */
  ghost function RepairHint(cfg: Config, turn: Turn, node: Node, s: AgentState): Option<Option<string>>
    decreases Rank(node, s.repairAttempted)
  {
    var visit := VisitNode(cfg, turn, node, s);
    if node == REPAIR_SQL then Some(s.temporalRepairHint)
    else if visit.Raised? || node == RECORD_CONTEXT then None
    else
      EdgesDescend(cfg, turn, node, s);
      RepairHint(cfg, turn, NextNode(cfg, node, visit.state), visit.state)
  }

  lemma {:induction false} RunDiagnosed(cfg: Config, turn: Turn, left: Option<string>, node: Node, s: AgentState)
    requires Diagnosed(turn, left, node, s)
    ensures var x := RunFrom(cfg, turn, node, s);
      x.ending == Completed ==>
        if x.state.repairSucceeded then WritesSql(turn) && x.state.initialErrorCode == FirstError(turn)
        else x.state.initialErrorCode.None?
    ensures var h := RepairHint(cfg, turn, node, s); h.Some? ==> WritesSql(turn) && h.value == HintFor(turn, left)
    decreases Rank(node, s.repairAttempted)
  {
    hide VisitNode, NextNode;
    var visit := VisitNode(cfg, turn, node, s);
    if visit.Updated? && node != RECORD_CONTEXT {
      EdgesDescend(cfg, turn, node, s);
      if node == VALIDATE_SQL || node == REPAIR_SQL || node == GENERATE_SQL {
        DiagnosedSql(cfg, turn, left, node, s);
      } else {
        DiagnosedBefore(cfg, turn, left, node, s);
      }
      RunDiagnosed(cfg, turn, left, NextNode(cfg, node, visit.state), visit.state);
    } else if node == RECORD_CONTEXT {
      RecordingKeepsDiagnosis(cfg, turn, s);
    }
    hide FirstError, HintFor, WritesSql;
  }

  lemma {:induction false} RecordingKeepsDiagnosis(cfg: Config, turn: Turn, s: AgentState)
    ensures var visit := VisitNode(cfg, turn, RECORD_CONTEXT, s); visit.Updated? && SameBackground(visit.state.(answers := s.answers), s)
  {
  }

  /**
   * What a turn says of its errors is its own: its first error, where a repair helped, and none where
   * none was needed. But a repair is asked for the period an earlier turn missed, exactly when this
   * turn's statement misses none and one was left.
   */
  lemma {:induction false} RepairIsToldExactly(cfg: Config, turn: Turn, leftover: AgentState)
    ensures var x := RunTurn(cfg, turn, leftover);
      x.ending == Completed ==>
        if x.state.repairSucceeded then WritesSql(turn) && x.state.initialErrorCode == FirstError(turn)
        else x.state.initialErrorCode.None?
    ensures var h := RepairHint(cfg, turn, PREPARE_REQUEST, leftover);
      h.Some? ==> WritesSql(turn) && h.value == HintFor(turn, leftover.temporalRepairHint)
  {
    RunDiagnosed(cfg, turn, leftover.temporalRepairHint, PREPARE_REQUEST, leftover);
    hide RunFrom, RepairHint, FirstError, HintFor;
  }

  lemma {:induction false} HintStep(cfg: Config, turn: Turn, node: Node, s: AgentState, after: AgentState, events: seq<Event>)
    requires node != REPAIR_SQL && node != RECORD_CONTEXT && VisitNode(cfg, turn, node, s) == Updated(after, events)
    ensures RepairHint(cfg, turn, node, s) == RepairHint(cfg, turn, NextNode(cfg, node, after), after)
  {
    hide VisitNode, NextNode;
  }

  /** A state about to generate a statement that fails repairably comes to a repair. */
  lemma {:induction false} GeneratedIsRepaired(cfg: Config, turn: Turn, s: AgentState)
    requires Open(s) && WritesSql(turn)
    requires Approved(turn, turn.generation.value.sql.value).None? && WorthRepairing(turn, turn.generation.value.sql.value)
    ensures RepairHint(cfg, turn, GENERATE_SQL, s).Some?
  {
    var sql := turn.generation.value.sql.value;
    hide VisitNode, RepairHint, Approved, WorthRepairing, Validating, VerdictOf;
    var written := GenerateVisit(cfg, turn, s);
    var refused := RepairableVisit(turn, written, sql);
    ValidateVisit(cfg, turn, written, refused);
    HintStep(cfg, turn, GENERATE_SQL, s, written, []);
    HintStep(cfg, turn, VALIDATE_SQL, written, refused, [Validated(sql)]);
    RepairIsHinted(cfg, turn, refused);
  }

  lemma {:induction false} ValidateVisit(cfg: Config, turn: Turn, s: AgentState, after: AgentState)
    ensures VisitNode(cfg, turn, VALIDATE_SQL, s) == ValidateSql(turn, s)
    ensures NextNode(cfg, VALIDATE_SQL, after) == RouteAfterValidation(after)
  {
    hide ValidateSql;
  }

  lemma {:induction false} RepairIsHinted(cfg: Config, turn: Turn, s: AgentState)
    ensures RepairHint(cfg, turn, REPAIR_SQL, s) == Some(s.temporalRepairHint)
  {
    hide VisitNode;
  }

  /**
   * So an earlier turn's correction does reach a repair that has nothing to do with it: whenever, without
   * a router or live entity values, a statement fails for its schema and a correction was left.
   */
  lemma {:induction false} EarlierCorrectionIsAsked(cfg: Config, turn: Turn, leftover: AgentState)
    requires !cfg.routerEnabled && !cfg.entityValues && turn.authorized.Some? && WritesSql(turn) && !MissesPeriod(turn)
    requires ResumeClarified(turn, leftover.context).1 == []
    requires Approved(turn, turn.generation.value.sql.value).None? && WorthRepairing(turn, turn.generation.value.sql.value)
    ensures RepairHint(cfg, turn, PREPARE_REQUEST, leftover) == Some(leftover.temporalRepairHint)
  {
    var prepared := PrepareRequest(turn, leftover);
    var ready := prepared.(authorizedMetrics := turn.authorized.value);
    PreparedIsOpen(turn, leftover);
    ReadyIsOpen(prepared, turn.authorized.value);
    StartVisits(cfg, turn, leftover, ready);
    hide *;
    HintStep(cfg, turn, PREPARE_REQUEST, leftover, prepared, []);
    HintStep(cfg, turn, AUTHORIZE_REQUEST, prepared, ready, []);
    HintStep(cfg, turn, RESOLVE_QUESTION_ENTITIES, ready, ready, []);
    HintStep(cfg, turn, RETRIEVE_SCHEMA, ready, ready, []);
    GeneratedIsRepaired(cfg, turn, ready);
    RepairIsToldExactly(cfg, turn, leftover);
    OwnHint(turn, leftover.temporalRepairHint);
  }

  lemma {:induction false} OwnHint(turn: Turn, left: Option<string>)
    requires WritesSql(turn) && !MissesPeriod(turn)
    ensures HintFor(turn, left) == left
  {
  }

  lemma {:induction false} ReadyIsOpen(s: AgentState, allowed: set<string>)
    requires Open(s)
    ensures Open(s.(authorizedMetrics := allowed)) && !s.needsClarification
  {
  }

  /** The first visits of a turn that is no reply, where no entity values are looked up and nothing is routed. */
  lemma {:induction false} StartVisits(cfg: Config, turn: Turn, leftover: AgentState, ready: AgentState)
    requires !cfg.routerEnabled && !cfg.entityValues && turn.authorized.Some?
    requires ResumeClarified(turn, leftover.context).1 == []
    requires ready == PrepareRequest(turn, leftover).(authorizedMetrics := turn.authorized.value) && Open(ready)
    ensures var prepared := PrepareRequest(turn, leftover);
      && VisitNode(cfg, turn, PREPARE_REQUEST, leftover) == Updated(prepared, [])
      && NextNode(cfg, PREPARE_REQUEST, prepared) == AUTHORIZE_REQUEST
      && VisitNode(cfg, turn, AUTHORIZE_REQUEST, prepared) == Updated(ready, [])
      && NextNode(cfg, AUTHORIZE_REQUEST, ready) == RESOLVE_QUESTION_ENTITIES
      && VisitNode(cfg, turn, RESOLVE_QUESTION_ENTITIES, ready) == Updated(ready, [])
      && NextNode(cfg, RESOLVE_QUESTION_ENTITIES, ready) == RETRIEVE_SCHEMA
      && VisitNode(cfg, turn, RETRIEVE_SCHEMA, ready) == Updated(ready, [])
      && NextNode(cfg, RETRIEVE_SCHEMA, ready) == GENERATE_SQL
  {
    PreparedIsOpen(turn, leftover);
    assert ready.pinnedEntities == [];
    hide PrepareRequest, ResumeClarified;
    assert Sent([]) == [];
  }
}
